/**
 * The greedy word wrap of a member's name and the box height it implies
 * (classes/FamilyTree.php:236-255). Lengths are counted in characters.
 */
module Labels {
  /** `$maxCharsPerLine`. */
  const MaxChars := 16
  /** `$lineHeight`, `$padding` and the minimum box height. */
  const LineHeight := 14
  const Padding := 10
  const MinHeight := 40

  /** `explode(' ', s)`: the pieces between single spaces; empty pieces are kept, and "" gives [""]. */
  function Explode(s: string): (words: seq<string>)
    ensures |words| >= 1
    ensures forall w :: w in words ==> ' ' !in w
  {
    if s == [] then [""]
    else
      var rest := Explode(s[1..]);
      if s[0] == ' ' then [""] + rest
      else [[s[0]] + rest[0]] + rest[1..]
  }

  /** `implode(' ', words)`. */
  function Join(words: seq<string>): string
  {
    if words == [] then ""
    else if |words| == 1 then words[0]
    else words[0] + " " + Join(words[1..])
  }

  /** Joining the pieces of `explode` with single spaces gives the string back. */
  lemma {:induction false} JoinExplode(s: string)
    ensures Join(Explode(s)) == s
  {
    if s != [] {
      JoinExplode(s[1..]);
      var rest := Explode(s[1..]);
      if s[0] != ' ' {
        if |rest| > 1 {
          assert Join(rest) == rest[0] + " " + Join(rest[1..]);
        }
      }
    }
  }

  /** Splitting a join of space-free words gives the words back. */
  lemma {:induction false} ExplodeJoin(words: seq<string>)
    requires |words| >= 1 && forall w :: w in words ==> ' ' !in w
    ensures Explode(Join(words)) == words
  {
    var w := words[0];
    if |words| == 1 {
      ExplodeWord(w);
    } else {
      ExplodeJoin(words[1..]);
      ExplodePrefix(w, Join(words[1..]));
    }
  }

  lemma {:induction false} ExplodeWord(w: string)
    requires ' ' !in w
    ensures Explode(w) == [w]
  {
    if w != [] {
      ExplodeWord(w[1..]);
      assert w[0] in w;
      assert [w[0]] + w[1..] == w;
    }
  }

  lemma {:induction false} ExplodePrefix(w: string, t: string)
    requires ' ' !in w
    ensures Explode(w + " " + t) == [w] + Explode(t)
  {
    if w == [] {
      assert w + " " + t == [' '] + t;
      assert (w + " " + t)[1..] == t;
    } else {
      assert (w + " " + t)[1..] == w[1..] + " " + t;
      ExplodePrefix(w[1..], t);
      assert w[0] in w;
      assert (w + " " + t)[0] == w[0];
      assert [w[0]] + w[1..] == w;
    }
  }

  /** PHP truthiness of a string: "" and "0" are false, every other string is true. */
  predicate Truthy(s: string)
  {
    s != "" && s != "0"
  }

  /**
   * The wrap loop from state (`lines`, `line`) over the remaining `words`:
   * a word joins the current line when `line . ' ' . word` fits in 16
   * characters (the separating space is only written when the line is
   * truthy); otherwise a non-empty line is emitted and the word starts the
   * next one. A non-empty last line is emitted at the end.
   */
  function WrapFrom(lines: seq<string>, line: string, words: seq<string>): seq<string>
    decreases |words|
  {
    if words == [] then (if line != "" then lines + [line] else lines)
    else
      var w := words[0];
      if |line + " " + w| <= MaxChars then WrapFrom(lines, line + (if Truthy(line) then " " else "") + w, words[1..])
      else WrapFrom(if line != "" then lines + [line] else lines, w, words[1..])
  }

  /** `$lines` for a name. */
  function Wrap(name: string): seq<string>
  {
    WrapFrom([], "", Explode(name))
  }

  /** The wrap loop itself, proved to compute `Wrap`. */
  method WrapName(name: string) returns (lines: seq<string>)
    ensures lines == Wrap(name)
  {
    var words := Explode(name);
    lines := [];
    var line := "";
    for i := 0 to |words|
      invariant WrapFrom(lines, line, words[i..]) == Wrap(name)
    {
      var word := words[i];
      assert words[i..][1..] == words[i + 1..];
      if |line + " " + word| <= MaxChars {
        line := line + (if Truthy(line) then " " else "") + word;
      } else {
        if line != "" {
          lines := lines + [line];
        }
        line := word;
      }
    }
    if line != "" {
      lines := lines + [line];
    }
  }

  /** The first word always starts the first line: the empty line is falsy and is never emitted. */
  lemma WrapStarts(w: string, rest: seq<string>)
    ensures WrapFrom([], "", [w] + rest) == WrapFrom([], w, rest)
  {
    assert ([w] + rest)[1..] == rest;
    assert "" + "" + w == w;
  }

  /** A word that fits joins a truthy line after one space. */
  lemma WrapJoins(lines: seq<string>, line: string, w: string, rest: seq<string>)
    requires Truthy(line) && |line| + 1 + |w| <= MaxChars
    ensures WrapFrom(lines, line, [w] + rest) == WrapFrom(lines, line + " " + w, rest)
  {
    assert ([w] + rest)[1..] == rest;
  }

  /** A word that does not fit closes a non-empty line and starts the next. */
  lemma WrapBreaks(lines: seq<string>, line: string, w: string, rest: seq<string>)
    requires line != "" && |line| + 1 + |w| > MaxChars
    ensures WrapFrom(lines, line, [w] + rest) == WrapFrom(lines + [line], w, rest)
  {
    assert ([w] + rest)[1..] == rest;
  }

  /** A line is acceptable when it is non-empty and fits in 16 characters, or is one whole word of the name. */
  predicate Fits(l: string, words: seq<string>)
  {
    l != "" && (|l| <= MaxChars || l in words)
  }

  lemma {:induction false} WrapFromFits(lines: seq<string>, line: string, words: seq<string>, all: seq<string>)
    requires forall l :: l in lines ==> Fits(l, all)
    requires |line| <= MaxChars || line in all
    requires forall w :: w in words ==> w in all
    ensures forall l :: l in WrapFrom(lines, line, words) ==> Fits(l, all)
    decreases |words|
  {
    if words != [] {
      var w := words[0];
      assert forall v :: v in words[1..] ==> v in words;
      if |line + " " + w| <= MaxChars {
        WrapFromFits(lines, line + (if Truthy(line) then " " else "") + w, words[1..], all);
      } else {
        WrapFromFits(if line != "" then lines + [line] else lines, w, words[1..], all);
      }
    }
  }

  /**
   * Every wrapped line is non-empty, and is at most 16 characters long
   * unless it is a single word of the name, which is never split.
   */
  lemma WrapLines(name: string)
    ensures forall l :: l in Wrap(name) ==> l != "" && (|l| <= MaxChars || l in Explode(name))
  {
    WrapFromFits([], "", Explode(name), Explode(name));
  }

  lemma {:induction false} WrapFromJoin(lines: seq<string>, line: string, words: seq<string>)
    requires Truthy(line)
    requires forall w :: w in words ==> Truthy(w)
    ensures Join(WrapFrom(lines, line, words)) == Join(lines + [line] + words)
    decreases |words|
  {
    if words != [] {
      var w := words[0];
      var rest := words[1..];
      assert forall v :: v in rest ==> v in words;
      assert words == [w] + rest;
      if |line + " " + w| <= MaxChars {
        var joined := line + " " + w;
        assert Truthy(joined) by {
          assert joined[|line|] == ' ';
        }
        assert line + (if Truthy(line) then " " else "") + w == joined;
        WrapFromJoin(lines, joined, rest);
        assert lines + [joined] + rest == lines + ([joined] + rest);
        assert lines + [line] + words == lines + ([line, w] + rest);
        JoinAppend(lines, [joined] + rest);
        JoinAppend(lines, [line, w] + rest);
        JoinPair(line, w, rest);
      } else {
        WrapFromJoin(lines + [line], w, rest);
        assert lines + [line] + [w] + rest == lines + [line] + words;
      }
    } else {
      assert lines + [line] + words == lines + [line];
    }
  }

  /** Joining a line with the next word equals joining them as two entries. */
  lemma JoinPair(line: string, w: string, rest: seq<string>)
    ensures Join([line + " " + w] + rest) == Join([line, w] + rest)
  {
    assert ([line, w] + rest)[1..] == [w] + rest;
    assert ([line + " " + w] + rest)[1..] == rest;
    assert ([w] + rest)[1..] == rest;
  }

  lemma {:induction false} JoinAppend(a: seq<string>, b: seq<string>)
    requires b != []
    ensures Join(a + b) == if a == [] then Join(b) else Join(a) + " " + Join(b)
    decreases |a|
  {
    if a != [] {
      assert (a + b)[1..] == a[1..] + b;
      JoinAppend(a[1..], b);
    } else {
      assert a + b == b;
    }
  }

  /**
   * When no word of the name is empty or "0", the wrapped lines joined with
   * single spaces give the name back: wrapping only chooses where the breaks go.
   */
  lemma WrapRoundTrip(name: string)
    requires forall w :: w in Explode(name) ==> Truthy(w)
    ensures Join(Wrap(name)) == name
  {
    var words := Explode(name);
    var w := words[0];
    assert forall v :: v in words[1..] ==> v in words;
    assert words == [w] + words[1..];
    WrapStarts(w, words[1..]);
    WrapFromJoin([], w, words[1..]);
    assert [] + [w] + words[1..] == words;
    JoinExplode(name);
  }

  /**
   * The exception: a line that is exactly "0" is falsy, so the next word is
   * glued to it without a space.
   */
  lemma ZeroLineQuirk()
    ensures Wrap("0 Ann") == ["0Ann"]
    ensures Join(Wrap("0 Ann")) != "0 Ann"
  {
    assert Explode("Ann") == ["Ann"] by {
      ExplodeWord("Ann");
    }
    assert Explode("0 Ann") == ["0", "Ann"] by {
      ExplodePrefix("0", "Ann");
      assert "0" + " " + "Ann" == "0 Ann";
    }
    assert "" + "" + "0" == "0";
    assert WrapFrom([], "", ["0", "Ann"]) == WrapFrom([], "0", ["Ann"]);
    assert "0" + "" + "Ann" == "0Ann";
    assert WrapFrom([], "0", ["Ann"]) == WrapFrom([], "0Ann", []);
  }

  /** `max(40, count($lines) * 14 + 10)`: tall enough for its lines plus padding, and never below 40. */
  function BoxHeight(lineCount: nat): (h: int)
    ensures h >= MinHeight && h >= lineCount * LineHeight + Padding
    ensures h == MinHeight || h == lineCount * LineHeight + Padding
  {
    if lineCount * LineHeight + Padding < MinHeight then MinHeight else lineCount * LineHeight + Padding
  }

  /** Boxes of up to two lines have the minimum height; from three lines on, each further line adds 14. */
  lemma BoxHeightSteps(lineCount: nat)
    ensures BoxHeight(lineCount) == MinHeight <==> lineCount <= 2
    ensures lineCount >= 3 ==> BoxHeight(lineCount + 1) == BoxHeight(lineCount) + LineHeight
  {
  }
}
