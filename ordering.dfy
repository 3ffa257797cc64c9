/**
 * The two orders the layout sorts member ids by: ascending id
 * (`sort($ids)`, classes/FamilyTree.php:137) and ascending x with ties
 * broken by id (the `usort` comparators at classes/FamilyTree.php:170-172
 * and 204-206).
 */
module Ordering {
  import opened Graph

  /** The sort key of `id`: its entry in `key`, or 0 when it has none. */
  function KeyOf(key: map<int, real>, id: int): real
  {
    if id in key then key[id] else 0.0
  }

  /** `a` sorts strictly before `b`: a smaller key, or an equal key and a smaller id. */
  predicate Before(key: map<int, real>, a: int, b: int)
  {
    KeyOf(key, a) < KeyOf(key, b) || (KeyOf(key, a) == KeyOf(key, b) && a < b)
  }

  /** Every element of `s` sorts strictly before every later one. */
  predicate Ordered(key: map<int, real>, s: seq<int>)
  {
    forall i, j :: 0 <= i < j < |s| ==> Before(key, s[i], s[j])
  }

  /** With an empty key map the order is plain ascending id order. */
  lemma BeforeById(a: int, b: int)
    ensures Before(map[], a, b) <==> a < b
  {
  }

  /** `Before` is transitive. */
  lemma BeforeTransitive(key: map<int, real>, a: int, b: int, c: int)
    requires Before(key, a, b) && Before(key, b, c)
    ensures Before(key, a, c)
  {
  }

  /** Putting an element that sorts before the head of an ordered sequence in front keeps it ordered. */
  lemma OrderedCons(key: map<int, real>, v: int, s: seq<int>)
    requires Ordered(key, s)
    requires forall x :: x in s ==> Before(key, v, x)
    ensures Ordered(key, [v] + s)
  {
    forall i, j | 0 <= i < j < |[v] + s|
      ensures Before(key, ([v] + s)[i], ([v] + s)[j])
    {
      if i > 0 {
        assert ([v] + s)[i] == s[i - 1] && ([v] + s)[j] == s[j - 1];
      } else {
        assert ([v] + s)[j] == s[j - 1];
        assert s[j - 1] in s;
      }
    }
  }

  /** Inserts `v` in front of the first element it sorts before. */
  function Insert(key: map<int, real>, s: seq<int>, v: int): (r: seq<int>)
    ensures multiset(r) == multiset(s) + multiset{v}
    ensures Ordered(key, s) && v !in s ==> Ordered(key, r)
  {
    if s == [] then [v]
    else if Before(key, v, s[0]) then
      InsertFront(key, s, v);
      [v] + s
    else
      var t := Insert(key, s[1..], v);
      InsertAfter(key, s, v, t);
      [s[0]] + t
  }

  lemma InsertFront(key: map<int, real>, s: seq<int>, v: int)
    requires s != [] && Before(key, v, s[0])
    ensures multiset([v] + s) == multiset(s) + multiset{v}
    ensures Ordered(key, s) && v !in s ==> Ordered(key, [v] + s)
  {
    if Ordered(key, s) && v !in s {
      forall x | x in s
        ensures Before(key, v, x)
      {
        var j :| 0 <= j < |s| && s[j] == x;
        if j > 0 {
          BeforeTransitive(key, v, s[0], x);
        }
      }
      OrderedCons(key, v, s);
    }
  }

  lemma InsertAfter(key: map<int, real>, s: seq<int>, v: int, t: seq<int>)
    requires s != [] && !Before(key, v, s[0])
    requires multiset(t) == multiset(s[1..]) + multiset{v}
    requires Ordered(key, s[1..]) && v !in s[1..] ==> Ordered(key, t)
    ensures multiset([s[0]] + t) == multiset(s) + multiset{v}
    ensures Ordered(key, s) && v !in s ==> Ordered(key, [s[0]] + t)
  {
    assert s == [s[0]] + s[1..];
    if Ordered(key, s) && v !in s {
      forall x | x in t
        ensures Before(key, s[0], x)
      {
        assert x in multiset(t);
        if x != v {
          assert x in multiset(s[1..]);
          var j :| 0 <= j < |s[1..]| && s[1..][j] == x;
          assert s[j + 1] == x;
        } else {
          assert v != s[0];
        }
      }
      OrderedCons(key, s[0], t);
    }
  }

  /**
   * `s` sorted by `key` then id: a permutation of `s` that is strictly
   * ordered whenever `s` holds no id twice.
   */
  function SortBy(key: map<int, real>, s: seq<int>): (r: seq<int>)
    ensures multiset(r) == multiset(s)
    ensures Distinct(s) ==> Ordered(key, r)
  {
    if s == [] then []
    else
      var t := SortBy(key, s[1..]);
      DistinctTail(s);
      assert s == [s[0]] + s[1..];
      assert s[0] in t ==> s[0] in multiset(t);
      Insert(key, t, s[0])
  }

  lemma DistinctTail(s: seq<int>)
    requires s != []
    ensures Distinct(s) ==> Distinct(s[1..]) && s[0] !in s[1..]
  {
  }

  /** An ordered sequence holds no id twice. */
  lemma OrderedDistinct(key: map<int, real>, s: seq<int>)
    requires Ordered(key, s)
    ensures Distinct(s)
  {
  }

  /** A sequence with no repeats has as many distinct elements as entries. */
  lemma {:induction false} DistinctCard(s: seq<int>)
    requires Distinct(s)
    ensures |set x | x in s| == |s|
  {
    if s != [] {
      DistinctCard(s[1..]);
      assert (set x | x in s) == (set x | x in s[1..]) + {s[0]};
      assert s[0] !in (set x | x in s[1..]);
    }
  }

  /** In ascending id order, the entry at index `i` has exactly `i` smaller ids in the sequence. */
  lemma Rank(s: seq<int>, i: int)
    requires Ordered(map[], s) && 0 <= i < |s|
    ensures |set x | x in s && x < s[i]| == i
  {
    assert (set x | x in s && x < s[i]) == (set x | x in s[..i]) by {
      forall x | x in s && x < s[i]
        ensures x in s[..i]
      {
        var j :| 0 <= j < |s| && s[j] == x;
        assert j < i;
      }
      forall x | x in s[..i]
        ensures x in s && x < s[i]
      {
        var j :| 0 <= j < i && s[..i][j] == x;
        assert Before(map[], s[j], s[i]);
      }
    }
    OrderedDistinct(map[], s[..i]);
    DistinctCard(s[..i]);
  }
}
