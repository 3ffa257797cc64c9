/**
 * The coordinate layout (classes/FamilyTree.php:116-219) as functions on the
 * member table: initial placement per generation, spouse compression, the
 * left-to-right collision sweep, and child centring with a re-sweep. The
 * `FamilyTree` class runs these phases in place and is proved to compute
 * exactly these functions.
 */
module Layout {
  import opened Graph
  import opened Ordering
  import Generations

  datatype Option<T> = None | Some(value: T)

  /** `$leftMargin`: the cursor every sweep starts from. */
  const Left: real := 100.0
  /** `$minStepX`: the minimum horizontal distance between two boxes of one row. */
  const Step: real := 120.0
  /** `$spouseGap`: the distance spouse compression leaves between the two boxes. */
  const SpouseGap: real := 40.0
  /** `$generationSpacing`: the vertical distance between two rows. */
  const RowSpacing: int := 150

  /** The top y of every box of generation `g`. */
  function Base(g: int): int
  {
    100 + g * RowSpacing
  }

  /** `$gen[$id] ?? $d`. */
  function GenOr(gen: map<int, int>, id: int, d: int): int
  {
    if id in gen then gen[id] else d
  }

  /** The x of member `id`, or 0 (what PHP reads from a missing row) when it is absent. */
  function XOf(m: map<int, Member>, id: int): real
  {
    if id in m then m[id].x else 0.0
  }

  /**
   * `max` on coordinates. Coordinates are `real` while generations are `int`,
   * and Dafny has no numeric type class to share one definition, so this is
   * the `real` counterpart of `Generations.Max`.
   */
  function MaxX(a: real, b: real): (r: real)
    ensures r >= a && r >= b && (r == a || r == b)
  {
    if a < b then b else a
  }

  /** `m` with member `id` moved to (`x`, `y`); every other field and member kept. */
  function Move(m: map<int, Member>, id: int, x: real, y: int): map<int, Member>
    requires id in m
  {
    m[id := m[id].(x := x, y := y)]
  }

  /** Each member row keeps its id, name and tag, and no row is added or removed. */
  ghost predicate SameRows(m: map<int, Member>, r: map<int, Member>)
  {
    m.Keys == r.Keys && forall id :: id in m ==> r[id].id == m[id].id && r[id].name == m[id].name && r[id].tag == m[id].tag
  }

  lemma SameRowsTransitive(m1: map<int, Member>, m2: map<int, Member>, m3: map<int, Member>)
    requires SameRows(m1, m2) && SameRows(m2, m3)
    ensures SameRows(m1, m3)
  {
  }

  // ---------------------------------------------------------------------
  // Grouping members by generation (lines 127-132).

  /** `$groups[$g]`: the ids of generation `g`, in member-table order. */
  function Members(order: seq<int>, gen: map<int, int>, g: int): (ids: seq<int>)
    ensures forall id :: id in ids ==> id in order && GenOr(gen, id, 0) == g
  {
    if order == [] then []
    else
      var id := order[|order| - 1];
      Members(order[..|order| - 1], gen, g) + (if GenOr(gen, id, 0) == g then [id] else [])
  }

  /** The keys of `$groups`, in the order the member loop first meets them. */
  function Rows(order: seq<int>, gen: map<int, int>): (gs: seq<int>)
    ensures Distinct(gs)
  {
    if order == [] then []
    else AddKey(Rows(order[..|order| - 1], gen), GenOr(gen, order[|order| - 1], 0))
  }

  lemma {:induction false} MembersHas(order: seq<int>, gen: map<int, int>, g: int, id: int)
    ensures id in Members(order, gen, g) <==> id in order && GenOr(gen, id, 0) == g
  {
    if order != [] {
      var n := |order| - 1;
      MembersHas(order[..n], gen, g, id);
      assert order == order[..n] + [order[n]];
    }
  }

  lemma {:induction false} MembersDistinct(order: seq<int>, gen: map<int, int>, g: int)
    requires Distinct(order)
    ensures Distinct(Members(order, gen, g))
  {
    if order != [] {
      var n := |order| - 1;
      MembersDistinct(order[..n], gen, g);
      MembersHas(order[..n], gen, g, order[n]);
    }
  }

  lemma {:induction false} RowsHas(order: seq<int>, gen: map<int, int>, g: int)
    ensures g in Rows(order, gen) <==> Members(order, gen, g) != []
  {
    if order != [] {
      RowsHas(order[..|order| - 1], gen, g);
    }
  }

  /** Every member of a generation is in the group of that generation, and no one else is. */
  lemma GroupOf(order: seq<int>, gen: map<int, int>, id: int)
    requires id in order
    ensures GenOr(gen, id, 0) in Rows(order, gen)
    ensures id in Members(order, gen, GenOr(gen, id, 0))
  {
    MembersHas(order, gen, GenOr(gen, id, 0), id);
    RowsHas(order, gen, GenOr(gen, id, 0));
  }

  // ---------------------------------------------------------------------
  // 3) Initial placement (lines 134-145).

  /** How many members of generation `g` have an id smaller than `id`. */
  function RankIn(m: map<int, Member>, gen: map<int, int>, g: int, id: int): nat
  {
    |set j | j in m && GenOr(gen, j, 0) == g && j < id|
  }

  /**
   * Every member of generation g is placed on row y = 100 + 150 g, at
   * x = 100 + 120 i where i is its rank by ascending id within the row.
   */
  function Initial(m: map<int, Member>, gen: map<int, int>): (r: map<int, Member>)
    ensures SameRows(m, r)
  {
    map id | id in m :: m[id].(x := Left + Step * RankIn(m, gen, GenOr(gen, id, 0), id) as real, y := Base(GenOr(gen, id, 0)))
  }

  /** The `i`-th id of the ascending group of generation `g` has rank `i` in that generation. */
  lemma RankInGroup(m: map<int, Member>, order: seq<int>, gen: map<int, int>, g: int, i: int)
    requires Distinct(order) && forall id :: id in m <==> id in order
    requires 0 <= i < |SortBy(map[], Members(order, gen, g))|
    ensures var s := SortBy(map[], Members(order, gen, g));
      s[i] in m && GenOr(gen, s[i], 0) == g && RankIn(m, gen, g, s[i]) == i
  {
    var ids := Members(order, gen, g);
    var s := SortBy(map[], ids);
    MembersDistinct(order, gen, g);
    assert s[i] in multiset(ids);
    MembersHas(order, gen, g, s[i]);
    Rank(s, i);
    GroupBelow(m, order, gen, g, s[i]);
  }

  /** The members of generation `g` below `x` are the entries of its ascending group below `x`. */
  lemma GroupBelow(m: map<int, Member>, order: seq<int>, gen: map<int, int>, g: int, x: int)
    requires Distinct(order) && forall id :: id in m <==> id in order
    ensures (set j | j in m && GenOr(gen, j, 0) == g && j < x) == (set j | j in SortBy(map[], Members(order, gen, g)) && j < x)
  {
    var ids := Members(order, gen, g);
    var s := SortBy(map[], ids);
    forall j
      ensures j in m && GenOr(gen, j, 0) == g && j < x <==> j in s && j < x
    {
      MembersHas(order, gen, g, j);
      assert j in s <==> j in multiset(ids);
    }
  }

  /**
   * `sort($ids)` followed by the cursor loop: the entry at index `i` of the
   * ascending group of generation `g` lands at x = 100 + 120 i on row g.
   */
  lemma InitialPlacement(m: map<int, Member>, order: seq<int>, gen: map<int, int>, g: int, i: int)
    requires Distinct(order) && forall id :: id in m <==> id in order
    requires 0 <= i < |SortBy(map[], Members(order, gen, g))|
    ensures var s := SortBy(map[], Members(order, gen, g));
      && s[i] in m && GenOr(gen, s[i], 0) == g
      && Initial(m, gen)[s[i]] == m[s[i]].(x := Left + Step * i as real, y := Base(g))
  {
    RankInGroup(m, order, gen, g, i);
  }

  /**
   * The ascending group of generation `g` holds each member of that
   * generation once, and its `i`-th entry is placed at x = 100 + 120 i.
   */
  lemma InitialGroup(m: map<int, Member>, order: seq<int>, gen: map<int, int>, g: int)
    requires Indexes(order, m)
    ensures var s := SortBy(map[], Members(order, gen, g));
      && Distinct(s)
      && (forall id :: id in m ==> (id in s <==> GenOr(gen, id, 0) == g))
      && forall i :: 0 <= i < |s| ==> s[i] in m && Initial(m, gen)[s[i]] == m[s[i]].(x := Left + Step * i as real, y := Base(g))
  {
    var s := SortBy(map[], Members(order, gen, g));
    MembersDistinct(order, gen, g);
    OrderedDistinct(map[], s);
    forall id | id in m
      ensures id in s <==> GenOr(gen, id, 0) == g
    {
      MembersHas(order, gen, g, id);
      assert id in s <==> id in multiset(Members(order, gen, g));
    }
    forall i | 0 <= i < |s|
      ensures s[i] in m && Initial(m, gen)[s[i]] == m[s[i]].(x := Left + Step * i as real, y := Base(g))
    {
      InitialPlacement(m, order, gen, g, i);
    }
  }

  /** `mb` is `m0` with exactly the generations of `done` placed. */
  ghost predicate PlacedUpTo(m0: map<int, Member>, gen: map<int, int>, done: set<int>, mb: map<int, Member>)
  {
    && mb.Keys == m0.Keys
    && forall id :: id in m0 ==> mb[id] == if GenOr(gen, id, 0) in done then Initial(m0, gen)[id] else m0[id]
  }

  /** Before generation `g` is placed, its ascending group is ready: each entry's target is its row at the new coordinates. */
  lemma InitialReady(m0: map<int, Member>, order: seq<int>, gen: map<int, int>, g: int, done: set<int>, mb: map<int, Member>)
    requires Indexes(order, m0) && PlacedUpTo(m0, gen, done, mb)
    ensures var s := SortBy(map[], Members(order, gen, g));
      && Distinct(s)
      && forall i :: 0 <= i < |s| ==> s[i] in Initial(m0, gen) && s[i] in mb && Initial(m0, gen)[s[i]] == mb[s[i]].(x := Left + Step * i as real, y := Base(g))
  {
    InitialGroup(m0, order, gen, g);
  }

  /** Placing the group of `g` extends the placed generations by `g`. */
  lemma InitialStep(m0: map<int, Member>, order: seq<int>, gen: map<int, int>, g: int, done: set<int>, mb: map<int, Member>, ma: map<int, Member>)
    requires Indexes(order, m0) && PlacedUpTo(m0, gen, done, mb)
    requires ma.Keys == mb.Keys
    requires forall id :: id in ma ==> ma[id] == if id in SortBy(map[], Members(order, gen, g)) then Initial(m0, gen)[id] else mb[id]
    ensures PlacedUpTo(m0, gen, done + {g}, ma)
  {
    InitialGroup(m0, order, gen, g);
  }

  /** Once every generation is placed, the table is `Initial`. */
  lemma InitialDone(m0: map<int, Member>, gen: map<int, int>, done: set<int>, mb: map<int, Member>)
    requires PlacedUpTo(m0, gen, done, mb)
    requires forall id :: id in m0 ==> GenOr(gen, id, 0) in done
    ensures mb == Initial(m0, gen)
  {
  }

  // ---------------------------------------------------------------------
  // 4) Spouse compression (lines 148-165).

  /**
   * One spouse relation from `a` to `b`: both move to the row of the larger
   * of their generations, and to 20 either side of their old midpoint. When
   * `a` and `b` are the same member the two PHP references alias one row,
   * and the second write wins: the member ends 20 to the right of where it was.
   */
  function Compress(m: map<int, Member>, gen: map<int, int>, a: int, b: int): (r: map<int, Member>)
    requires a in m && b in m
    ensures SameRows(m, r)
    ensures forall id :: id in m && id != a && id != b ==> r[id] == m[id]
    ensures var ga := GenOr(gen, a, 0); var gb := GenOr(gen, b, ga);
      r[a].y == Base(Generations.Max(ga, gb)) && r[b].y == Base(Generations.Max(ga, gb))
    ensures a != b ==> r[b].x - r[a].x == SpouseGap && r[a].x + r[b].x == m[a].x + m[b].x
    ensures a == b ==> r[a].x == m[a].x + SpouseGap / 2.0
  {
    var ga := GenOr(gen, a, 0);
    var gb := GenOr(gen, b, ga);
    var y := Base(Generations.Max(ga, gb));
    var mid := (m[a].x + m[b].x) / 2.0;
    var m1 := Move(m, a, mid - SpouseGap / 2.0, y);
    Move(m1, b, mid + SpouseGap / 2.0, y)
  }

  /** Every child and spouse relation joins two members of the table. */
  ghost predicate Anchored(rels: seq<Relation>, ids: set<int>)
  {
    forall i :: 0 <= i < |rels| && (rels[i].kind == Child || rels[i].kind == Spouse) ==> rels[i].from in ids && rels[i].to in ids
  }

  lemma AnchoredSuffix(rels: seq<Relation>, ids: set<int>, i: int)
    requires Anchored(rels, ids) && 0 <= i <= |rels|
    ensures Anchored(rels[i..], ids)
  {
    forall j | 0 <= j < |rels[i..]|
      ensures rels[i..][j] == rels[i + j]
    {
    }
  }

  /** The four field writes of lines 155-162 (both y's, then both x's about the midpoint) amount to `Compress`. */
  lemma CompressSteps(m: map<int, Member>, gen: map<int, int>, a: int, b: int)
    requires a in m && b in m
    ensures var ga := GenOr(gen, a, 0); var y := Base(Generations.Max(ga, GenOr(gen, b, ga)));
      var m1 := m[a := m[a].(y := y)]; var m2 := m1[b := m1[b].(y := y)];
      var mid := (m2[a].x + m2[b].x) / 2.0; var m3 := m2[a := m2[a].(x := mid - SpouseGap / 2.0)];
      m3[b := m3[b].(x := mid + SpouseGap / 2.0)] == Compress(m, gen, a, b)
  {
    var ga := GenOr(gen, a, 0);
    var y := Base(Generations.Max(ga, GenOr(gen, b, ga)));
    var m1 := m[a := m[a].(y := y)];
    var m2 := m1[b := m1[b].(y := y)];
    var mid := (m2[a].x + m2[b].x) / 2.0;
    var m3 := m2[a := m2[a].(x := mid - SpouseGap / 2.0)];
    var m4 := m3[b := m3[b].(x := mid + SpouseGap / 2.0)];
    var c := Compress(m, gen, a, b);
    assert mid == (m[a].x + m[b].x) / 2.0;
    assert m4.Keys == c.Keys;
    forall id | id in m4
      ensures m4[id] == c[id]
    {
    }
  }

  /** The spouse relations of `rels`, compressed one after another in list order. */
  function CompressAll(m: map<int, Member>, gen: map<int, int>, rels: seq<Relation>): (r: map<int, Member>)
    requires Anchored(rels, m.Keys)
    ensures SameRows(m, r)
    decreases |rels|
  {
    if rels == [] then m
    else
      var rel := rels[0];
      assert Anchored(rels[1..], m.Keys) by {
        forall i | 0 <= i < |rels[1..]|
          ensures rels[1..][i] == rels[i + 1]
        {
        }
      }
      if rel.kind == Spouse then CompressAll(Compress(m, gen, rel.from, rel.to), gen, rels[1..])
      else CompressAll(m, gen, rels[1..])
  }

  /** One step of `CompressAll`: relation `i` compresses its pair when it is a spouse relation, and the rest follow. */
  lemma CompressAllStep(m: map<int, Member>, gen: map<int, int>, rels: seq<Relation>, i: int)
    requires Anchored(rels, m.Keys) && 0 <= i < |rels|
    ensures rels[i].kind == Spouse ==> rels[i].from in m && rels[i].to in m
    ensures Anchored(rels[i..], m.Keys) && Anchored(rels[i + 1..], m.Keys)
    ensures CompressAll(m, gen, rels[i..]) == CompressAll(if rels[i].kind == Spouse then Compress(m, gen, rels[i].from, rels[i].to) else m, gen, rels[i + 1..])
  {
    AnchoredSuffix(rels, m.Keys, i);
    AnchoredSuffix(rels, m.Keys, i + 1);
    assert rels[i..][0] == rels[i] && rels[i..][1..] == rels[i + 1..];
  }

  // ---------------------------------------------------------------------
  // 5) and 6) The left-to-right sweep (lines 173-179 and 207-212).

  /** The y a sweep leaves: the row's y when it pins one, the old y otherwise. */
  function PinY(pin: Option<int>, y: int): int
  {
    if pin.Some? then pin.value else y
  }

  /**
   * Walks the ids of `s` left to right with a running cursor: each box moves
   * right to the cursor if it is left of it, and the cursor moves to 120
   * past the box.
   */
  function Sweep(m: map<int, Member>, s: seq<int>, cursor: real, pin: Option<int>): (r: map<int, Member>)
    requires forall id :: id in s ==> id in m
    ensures r.Keys == m.Keys
    decreases |s|
  {
    if s == [] then m
    else
      var id := s[0];
      var cur := MaxX(m[id].x, cursor);
      Sweep(Move(m, id, cur, PinY(pin, m[id].y)), s[1..], cur + Step, pin)
  }

  /** A sweep moves only the boxes it walks, and changes nothing but their coordinates. */
  lemma {:induction false} SweepFrame(m: map<int, Member>, s: seq<int>, cursor: real, pin: Option<int>)
    requires forall id :: id in s ==> id in m
    ensures SameRows(m, Sweep(m, s, cursor, pin))
    ensures forall id :: id in m && id !in s ==> Sweep(m, s, cursor, pin)[id] == m[id]
    decreases |s|
  {
    if s != [] {
      var id := s[0];
      var cur := MaxX(m[id].x, cursor);
      var m1 := Move(m, id, cur, PinY(pin, m[id].y));
      SweepFrame(m1, s[1..], cur + Step, pin);
    }
  }

  /** A pinning sweep puts every box it walks on the pinned row; any other sweep keeps their y. */
  lemma {:induction false} SweepPins(m: map<int, Member>, s: seq<int>, cursor: real, pin: Option<int>)
    requires forall id :: id in s ==> id in m
    ensures forall id :: id in s ==> Sweep(m, s, cursor, pin)[id].y == PinY(pin, m[id].y)
    decreases |s|
  {
    if s != [] {
      var id := s[0];
      var cur := MaxX(m[id].x, cursor);
      var m1 := Move(m, id, cur, PinY(pin, m[id].y));
      SweepPins(m1, s[1..], cur + Step, pin);
      SweepFrame(m1, s[1..], cur + Step, pin);
    }
  }

  /** No box is moved left, and every walked box ends at or right of the starting cursor. */
  lemma {:induction false} SweepRaises(m: map<int, Member>, s: seq<int>, cursor: real, pin: Option<int>)
    requires forall id :: id in s ==> id in m
    ensures forall id :: id in s ==> Sweep(m, s, cursor, pin)[id].x >= m[id].x
    ensures forall id :: id in s ==> Sweep(m, s, cursor, pin)[id].x >= cursor
    decreases |s|
  {
    if s != [] {
      var id := s[0];
      var cur := MaxX(m[id].x, cursor);
      var m1 := Move(m, id, cur, PinY(pin, m[id].y));
      SweepRaises(m1, s[1..], cur + Step, pin);
      SweepFrame(m1, s[1..], cur + Step, pin);
    }
  }

  /** The first walked box ends at max(x, cursor), with x its position before the sweep. */
  lemma SweepFirst(m: map<int, Member>, s: seq<int>, cursor: real, pin: Option<int>)
    requires Distinct(s) && s != [] && forall id :: id in s ==> id in m
    ensures Sweep(m, s, cursor, pin)[s[0]].x == MaxX(m[s[0]].x, cursor)
  {
    var id := s[0];
    var cur := MaxX(m[id].x, cursor);
    var m1 := Move(m, id, cur, PinY(pin, m[id].y));
    assert id !in s[1..];
    SweepFrame(m1, s[1..], cur + Step, pin);
  }

  /**
   * The sweep's recurrence: each box after the first ends at
   * max(x, previous + 120), with x its position before the sweep.
   */
  lemma {:induction false} SweepExact(m: map<int, Member>, s: seq<int>, cursor: real, pin: Option<int>)
    requires Distinct(s) && forall id :: id in s ==> id in m
    ensures forall i :: 0 < i < |s| ==> Sweep(m, s, cursor, pin)[s[i]].x == MaxX(m[s[i]].x, Sweep(m, s, cursor, pin)[s[i - 1]].x + Step)
    decreases |s|
  {
    if s != [] {
      var id := s[0];
      var cur := MaxX(m[id].x, cursor);
      var m1 := Move(m, id, cur, PinY(pin, m[id].y));
      var t := s[1..];
      assert Distinct(t);
      SweepExact(m1, t, cur + Step, pin);
      var r := Sweep(m, s, cursor, pin);
      assert r == Sweep(m1, t, cur + Step, pin);
      SweepFirst(m, s, cursor, pin);
      if t != [] {
        SweepFirst(m1, t, cur + Step, pin);
      }
      forall i | 0 < i < |s|
        ensures r[s[i]].x == MaxX(m[s[i]].x, r[s[i - 1]].x + Step)
      {
        assert s[i] == t[i - 1] && m1[s[i]] == m[s[i]];
        if i > 1 {
          assert s[i - 1] == t[i - 2];
        }
      }
    }
  }

  /** Any two walked boxes end at least 120 apart, in walking order. */
  lemma SweepSpaced(m: map<int, Member>, s: seq<int>, cursor: real, pin: Option<int>)
    requires Distinct(s) && forall id :: id in s ==> id in m
    ensures var r := Sweep(m, s, cursor, pin);
      forall i, j :: 0 <= i < j < |s| ==> r[s[i]].x + Step <= r[s[j]].x
  {
    var r := Sweep(m, s, cursor, pin);
    SweepFrame(m, s, cursor, pin);
    SweepExact(m, s, cursor, pin);
    forall i | 0 <= i < |s|
      ensures s[i] in r
    {
      assert s[i] in s;
    }
    ChainSpaced(r, s);
  }

  /** Boxes each at least 120 after the one before are at least 120 apart pairwise. */
  lemma ChainSpaced(r: map<int, Member>, s: seq<int>)
    requires forall i :: 0 <= i < |s| ==> s[i] in r
    requires forall i :: 0 < i < |s| ==> r[s[i - 1]].x + Step <= r[s[i]].x
    ensures forall i, j :: 0 <= i < j < |s| ==> r[s[i]].x + Step <= r[s[j]].x
  {
    forall i, j | 0 <= i < j < |s|
      ensures r[s[i]].x + Step <= r[s[j]].x
    {
      ChainFrom(r, s, i, j);
    }
  }

  lemma {:induction false} ChainFrom(r: map<int, Member>, s: seq<int>, i: int, j: int)
    requires 0 <= i < j < |s|
    requires forall k :: 0 <= k < |s| ==> s[k] in r
    requires forall k :: 0 < k < |s| ==> r[s[k - 1]].x + Step <= r[s[k]].x
    ensures r[s[i]].x + Step <= r[s[j]].x
    decreases j - i
  {
    if j > i + 1 {
      ChainFrom(r, s, i, j - 1);
    }
  }

  // ---------------------------------------------------------------------
  // 5) Collision resolution per generation (lines 167-180).

  /** The current x of every member, as the sort key of the `usort` comparators. */
  function XKey(m: map<int, Member>): map<int, real>
  {
    map id | id in m :: m[id].x
  }

  /** The row table `order` lists every member of `m` exactly once. */
  ghost predicate Indexes(order: seq<int>, m: map<int, Member>)
  {
    Distinct(order) && forall id :: id in m <==> id in order
  }

  /** Two boxes of one row that do not come closer than the minimum step. */
  predicate Apart(x1: real, x2: real)
  {
    x1 + Step <= x2 || x2 + Step <= x1
  }

  /**
   * Row `g` is laid out: every box on it sits at y = 100 + 150 g, no box is
   * left of the margin, and any two boxes are at least 120 apart.
   */
  ghost predicate RowLaidOut(m: map<int, Member>, gen: map<int, int>, g: int)
  {
    && (forall a :: a in m && GenOr(gen, a, 0) == g ==> m[a].y == Base(g) && m[a].x >= Left)
    && (forall a, b :: a in m && b in m && a != b && GenOr(gen, a, 0) == g && GenOr(gen, b, 0) == g ==> Apart(m[a].x, m[b].x))
  }

  /** The group of generation `g` sorted by current x, ties by id, and swept from the margin. */
  function SweepRow(m: map<int, Member>, gen: map<int, int>, order: seq<int>, g: int, pin: Option<int>): (r: map<int, Member>)
    requires forall id :: id in order ==> id in m
    ensures r.Keys == m.Keys
  {
    var s := SortBy(XKey(m), Members(order, gen, g));
    assert forall id :: id in s ==> id in multiset(Members(order, gen, g));
    Sweep(m, s, Left, pin)
  }

  /** Any two distinct boxes a sweep walks end at least 120 apart. */
  lemma SweepSeparates(m: map<int, Member>, s: seq<int>, cursor: real, pin: Option<int>)
    requires Distinct(s) && forall id :: id in s ==> id in m
    ensures forall a, b :: a in s && b in s && a != b ==> Apart(Sweep(m, s, cursor, pin)[a].x, Sweep(m, s, cursor, pin)[b].x)
  {
    var r := Sweep(m, s, cursor, pin);
    SweepSpaced(m, s, cursor, pin);
    forall a, b | a in s && b in s && a != b
      ensures Apart(r[a].x, r[b].x)
    {
      var i :| 0 <= i < |s| && s[i] == a;
      var j :| 0 <= j < |s| && s[j] == b;
      assert i < j || j < i;
    }
  }

  /** Every box of generation `g` sits at y = 100 + 150 g. */
  ghost predicate OnRow(m: map<int, Member>, gen: map<int, int>, g: int)
  {
    forall a :: a in m && GenOr(gen, a, 0) == g ==> m[a].y == Base(g)
  }

  /** The `usort`ed group of generation `g`: exactly the members of that generation, each once. */
  lemma RowOrder(m: map<int, Member>, gen: map<int, int>, order: seq<int>, g: int) returns (s: seq<int>)
    requires Indexes(order, m)
    ensures s == SortBy(XKey(m), Members(order, gen, g))
    ensures Distinct(s)
    ensures forall a :: a in s <==> a in m && GenOr(gen, a, 0) == g
  {
    var ids := Members(order, gen, g);
    s := SortBy(XKey(m), ids);
    assert forall id :: id in s <==> id in multiset(ids);
    MembersDistinct(order, gen, g);
    OrderedDistinct(XKey(m), s);
    forall a
      ensures a in s <==> a in m && GenOr(gen, a, 0) == g
    {
      MembersHas(order, gen, g, a);
    }
  }

  lemma SweepRowFrame(m: map<int, Member>, gen: map<int, int>, order: seq<int>, g: int, pin: Option<int>)
    requires Indexes(order, m)
    ensures SameRows(m, SweepRow(m, gen, order, g, pin))
    ensures forall id :: id in m && GenOr(gen, id, 0) != g ==> SweepRow(m, gen, order, g, pin)[id] == m[id]
  {
    var s := RowOrder(m, gen, order, g);
    assert SweepRow(m, gen, order, g, pin) == Sweep(m, s, Left, pin);
    SweepFrame(m, s, Left, pin);
  }

  lemma SweepRowSpaced(m: map<int, Member>, gen: map<int, int>, order: seq<int>, g: int, pin: Option<int>)
    requires Indexes(order, m)
    ensures var r := SweepRow(m, gen, order, g, pin);
      && (forall a :: a in m && GenOr(gen, a, 0) == g ==> r[a].x >= Left)
      && (forall a, b :: a in m && b in m && a != b && GenOr(gen, a, 0) == g && GenOr(gen, b, 0) == g ==> Apart(r[a].x, r[b].x))
  {
    var s := RowOrder(m, gen, order, g);
    assert SweepRow(m, gen, order, g, pin) == Sweep(m, s, Left, pin);
    SweepRaises(m, s, Left, pin);
    SweepSeparates(m, s, Left, pin);
  }

  lemma SweepRowPinned(m: map<int, Member>, gen: map<int, int>, order: seq<int>, g: int)
    requires Indexes(order, m)
    ensures OnRow(SweepRow(m, gen, order, g, Some(Base(g))), gen, g)
  {
    var s := RowOrder(m, gen, order, g);
    assert SweepRow(m, gen, order, g, Some(Base(g))) == Sweep(m, s, Left, Some(Base(g)));
    SweepPins(m, s, Left, Some(Base(g)));
  }

  lemma SweepRowKeepsRow(m: map<int, Member>, gen: map<int, int>, order: seq<int>, g: int)
    requires Indexes(order, m) && OnRow(m, gen, g)
    ensures OnRow(SweepRow(m, gen, order, g, None), gen, g)
  {
    var s := RowOrder(m, gen, order, g);
    assert SweepRow(m, gen, order, g, None) == Sweep(m, s, Left, None);
    SweepPins(m, s, Left, None);
  }

  /**
   * Sweeping a row lays it out and leaves every other row as it was; the
   * row's y comes from the pin, or was already right when nothing is pinned.
   */
  lemma SweepRowLaysOut(m: map<int, Member>, gen: map<int, int>, order: seq<int>, g: int, pin: Option<int>)
    requires Indexes(order, m)
    requires pin == Some(Base(g)) || (pin == None && OnRow(m, gen, g))
    ensures SameRows(m, SweepRow(m, gen, order, g, pin))
    ensures RowLaidOut(SweepRow(m, gen, order, g, pin), gen, g)
    ensures forall id :: id in m && GenOr(gen, id, 0) != g ==> SweepRow(m, gen, order, g, pin)[id] == m[id]
  {
    SweepRowFrame(m, gen, order, g, pin);
    SweepRowSpaced(m, gen, order, g, pin);
    if pin.Some? {
      SweepRowPinned(m, gen, order, g);
    } else {
      SweepRowKeepsRow(m, gen, order, g);
    }
  }

  /** The groups of `gs` swept one after another (lines 167-180), each pinned to its row's y. */
  function ResolveAll(m: map<int, Member>, gen: map<int, int>, order: seq<int>, gs: seq<int>): (r: map<int, Member>)
    requires forall id :: id in order ==> id in m
    ensures r.Keys == m.Keys
    decreases |gs|
  {
    if gs == [] then m
    else ResolveAll(SweepRow(m, gen, order, gs[0], Some(Base(gs[0]))), gen, order, gs[1..])
  }

  /** After resolution every swept row is laid out, and rows not swept are untouched. */
  lemma {:induction false} ResolveAllLaysOut(m: map<int, Member>, gen: map<int, int>, order: seq<int>, gs: seq<int>)
    requires Indexes(order, m)
    ensures SameRows(m, ResolveAll(m, gen, order, gs))
    ensures forall g :: g in gs ==> RowLaidOut(ResolveAll(m, gen, order, gs), gen, g)
    ensures forall id :: id in m && GenOr(gen, id, 0) !in gs ==> ResolveAll(m, gen, order, gs)[id] == m[id]
    decreases |gs|
  {
    if gs != [] {
      var g := gs[0];
      var m1 := SweepRow(m, gen, order, g, Some(Base(g)));
      SweepRowLaysOut(m, gen, order, g, Some(Base(g)));
      ResolveAllLaysOut(m1, gen, order, gs[1..]);
      var r := ResolveAll(m1, gen, order, gs[1..]);
      assert ResolveAll(m, gen, order, gs) == r;
      if g !in gs[1..] {
        RowLaidOutFrame(m1, r, gen, g);
      }
      SameRowsTransitive(m, m1, r);
    }
  }

  /** A laid-out row stays laid out when no box of it changes. */
  lemma RowLaidOutFrame(a: map<int, Member>, b: map<int, Member>, gen: map<int, int>, g: int)
    requires a.Keys == b.Keys && RowLaidOut(a, gen, g)
    requires forall id :: id in a && GenOr(gen, id, 0) == g ==> b[id] == a[id]
    ensures RowLaidOut(b, gen, g)
  {
  }

  // ---------------------------------------------------------------------
  // 6) Child centring and re-sweep (lines 183-213).

  /** `$cg` for a child relation: the child's generation, or one below its parent's when it has none. */
  function ChildGen(gen: map<int, int>, r: Relation): int
  {
    GenOr(gen, r.to, GenOr(gen, r.from, 0) + 1)
  }

  /** The keys of `$childrenByGen`, in the order the relation loop first meets them. */
  function ChildGens(rels: seq<Relation>, gen: map<int, int>): (cgs: seq<int>)
    ensures Distinct(cgs)
  {
    if rels == [] then []
    else
      var r := rels[|rels| - 1];
      var cgs := ChildGens(rels[..|rels| - 1], gen);
      if r.kind == Child then AddKey(cgs, ChildGen(gen, r)) else cgs
  }

  /** `$childrenByGen[$cg]`: the (parent, child) pairs of the child relations into generation `cg`, in list order. */
  function ChildPairs(rels: seq<Relation>, gen: map<int, int>, cg: int): seq<(int, int)>
  {
    if rels == [] then []
    else
      var r := rels[|rels| - 1];
      ChildPairs(rels[..|rels| - 1], gen, cg) + (if r.kind == Child && ChildGen(gen, r) == cg then [(r.from, r.to)] else [])
  }

  /** One more relation extends the child generations and the pair lists by at most that relation. */
  lemma ChildGroupsSnoc(rels: seq<Relation>, gen: map<int, int>, i: int)
    requires 0 <= i < |rels|
    ensures ChildGens(rels[..i + 1], gen) == if rels[i].kind == Child then AddKey(ChildGens(rels[..i], gen), ChildGen(gen, rels[i])) else ChildGens(rels[..i], gen)
    ensures forall cg :: ChildPairs(rels[..i + 1], gen, cg) == ChildPairs(rels[..i], gen, cg) + (if rels[i].kind == Child && ChildGen(gen, rels[i]) == cg then [(rels[i].from, rels[i].to)] else [])
  {
    assert rels[..i + 1][..i] == rels[..i];
  }

  /** `$targets[$c]`: the current x of the parent of each pair whose child is `c`, in pair order. */
  function ParentXs(m: map<int, Member>, pairs: seq<(int, int)>, c: int): seq<real>
  {
    if pairs == [] then []
    else
      var (p, c') := pairs[|pairs| - 1];
      ParentXs(m, pairs[..|pairs| - 1], c) + (if c' == c then [XOf(m, p)] else [])
  }

  /** One more pair appends its parent's x to its child's list, and to no other. */
  lemma ParentXsSnoc(m: map<int, Member>, pairs: seq<(int, int)>, i: int)
    requires 0 <= i < |pairs|
    ensures forall c :: ParentXs(m, pairs[..i + 1], c) == ParentXs(m, pairs[..i], c) + (if pairs[i].1 == c then [XOf(m, pairs[i].0)] else [])
  {
    assert pairs[..i + 1][..i] == pairs[..i];
  }

  /** `array_sum`. */
  function Sum(xs: seq<real>): real
  {
    if xs == [] then 0.0 else xs[0] + Sum(xs[1..])
  }

  /** `array_sum($xs) / count($xs)`. */
  function Mean(xs: seq<real>): real
    requires xs != []
  {
    Sum(xs) / |xs| as real
  }

  lemma {:induction false} SumBetween(xs: seq<real>, lo: real, hi: real)
    requires forall i :: 0 <= i < |xs| ==> lo <= xs[i] <= hi
    ensures |xs| as real * lo <= Sum(xs) <= |xs| as real * hi
  {
    if xs != [] {
      SumBetween(xs[1..], lo, hi);
      assert |xs| as real * lo == (|xs| - 1) as real * lo + lo;
      assert |xs| as real * hi == (|xs| - 1) as real * hi + hi;
    }
  }

  /** A mean lies between any lower and upper bound of the values averaged. */
  lemma MeanBetween(xs: seq<real>, lo: real, hi: real)
    requires xs != [] && forall i :: 0 <= i < |xs| ==> lo <= xs[i] <= hi
    ensures lo <= Mean(xs) <= hi
  {
    SumBetween(xs, lo, hi);
    var n := |xs| as real;
    assert Mean(xs) * n == Sum(xs);
    assert (Mean(xs) - lo) * n == Sum(xs) - n * lo;
    assert (hi - Mean(xs)) * n == n * hi - Sum(xs);
    NonNegativeFactor(Mean(xs) - lo, n);
    NonNegativeFactor(hi - Mean(xs), n);
  }

  lemma NonNegativeFactor(a: real, n: real)
    requires n > 0.0 && a * n >= 0.0
    ensures a >= 0.0
  {
  }

  /** Lines 196-201: every child of a pair moves to the mean x of its parents; nothing else changes. */
  function Centre(m: map<int, Member>, pairs: seq<(int, int)>): (r: map<int, Member>)
    ensures SameRows(m, r)
    ensures forall id :: id in m ==> r[id].y == m[id].y
    ensures forall id :: id in m && ParentXs(m, pairs, id) == [] ==> r[id] == m[id]
  {
    map id | id in m :: if ParentXs(m, pairs, id) != [] then m[id].(x := Mean(ParentXs(m, pairs, id))) else m[id]
  }

  /**
   * A centred child lands between its leftmost and rightmost parent: if every
   * parent x of `c` lies in [lo, hi], so does the child's new x.
   */
  lemma CentreBetween(m: map<int, Member>, pairs: seq<(int, int)>, c: int, lo: real, hi: real)
    requires c in m && ParentXs(m, pairs, c) != []
    requires forall i :: 0 <= i < |ParentXs(m, pairs, c)| ==> lo <= ParentXs(m, pairs, c)[i] <= hi
    ensures lo <= Centre(m, pairs)[c].x <= hi
  {
    MeanBetween(ParentXs(m, pairs, c), lo, hi);
  }

  lemma {:induction false} ParentXsChild(m: map<int, Member>, pairs: seq<(int, int)>, c: int)
    requires ParentXs(m, pairs, c) != []
    ensures exists p :: (p, c) in pairs
  {
    var n := |pairs| - 1;
    if pairs[n].1 != c {
      ParentXsChild(m, pairs[..n], c);
      var p :| (p, c) in pairs[..n];
      assert (p, c) in pairs;
    } else {
      assert (pairs[n].0, c) == pairs[n];
    }
  }

  lemma {:induction false} ChildPairsFrom(rels: seq<Relation>, gen: map<int, int>, cg: int, p: int, c: int)
    requires (p, c) in ChildPairs(rels, gen, cg)
    ensures exists i :: 0 <= i < |rels| && rels[i].kind == Child && rels[i].from == p && rels[i].to == c && ChildGen(gen, rels[i]) == cg
  {
    var n := |rels| - 1;
    var r := rels[n];
    if !(r.kind == Child && ChildGen(gen, r) == cg && (r.from, r.to) == (p, c)) {
      ChildPairsFrom(rels[..n], gen, cg, p, c);
      var i :| 0 <= i < n && rels[..n][i].kind == Child && rels[..n][i].from == p && rels[..n][i].to == c && ChildGen(gen, rels[..n][i]) == cg;
      assert rels[i] == rels[..n][i];
    }
  }

  /** Both ends of every pair of `$childrenByGen[$cg]` are members when the relations are anchored. */
  lemma ChildPairsAnchored(rels: seq<Relation>, gen: map<int, int>, cg: int, ids: set<int>)
    requires Anchored(rels, ids)
    ensures forall i :: 0 <= i < |ChildPairs(rels, gen, cg)| ==> ChildPairs(rels, gen, cg)[i].0 in ids && ChildPairs(rels, gen, cg)[i].1 in ids
  {
    var pairs := ChildPairs(rels, gen, cg);
    forall i | 0 <= i < |pairs|
      ensures pairs[i].0 in ids && pairs[i].1 in ids
    {
      ChildPairsFrom(rels, gen, cg, pairs[i].0, pairs[i].1);
    }
  }

  /** Centring for generation `cg` moves only members of generation `cg`. */
  lemma CentreInRow(m: map<int, Member>, gen: map<int, int>, rels: seq<Relation>, cg: int, c: int)
    requires Anchored(rels, m.Keys) && m.Keys <= gen.Keys
    requires c in m && ParentXs(m, ChildPairs(rels, gen, cg), c) != []
    ensures GenOr(gen, c, 0) == cg
  {
    ParentXsChild(m, ChildPairs(rels, gen, cg), c);
    var p :| (p, c) in ChildPairs(rels, gen, cg);
    ChildPairsFrom(rels, gen, cg, p, c);
  }

  /** Centring for generation `cg` followed by the re-sweep of that generation (unpinned). */
  function CentreRow(m: map<int, Member>, gen: map<int, int>, order: seq<int>, rels: seq<Relation>, cg: int): (r: map<int, Member>)
    requires forall id :: id in order ==> id in m
    ensures r.Keys == m.Keys
  {
    SweepRow(Centre(m, ChildPairs(rels, gen, cg)), gen, order, cg, None)
  }

  /** The generations of `cgs` centred and re-swept one after another. */
  function CentreAll(m: map<int, Member>, gen: map<int, int>, order: seq<int>, rels: seq<Relation>, cgs: seq<int>): (r: map<int, Member>)
    requires forall id :: id in order ==> id in m
    ensures r.Keys == m.Keys
    decreases |cgs|
  {
    if cgs == [] then m
    else CentreAll(CentreRow(m, gen, order, rels, cgs[0]), gen, order, rels, cgs[1..])
  }

  // ---------------------------------------------------------------------
  // The whole layout.

  /**
   * Every box sits on its generation's row, none is left of the margin, and
   * any two boxes of one generation are at least 120 apart.
   */
  ghost predicate LaidOut(m: map<int, Member>, gen: map<int, int>)
  {
    && (forall a :: a in m ==> m[a].y == Base(GenOr(gen, a, 0)) && m[a].x >= Left)
    && (forall a, b :: a in m && b in m && a != b && GenOr(gen, a, 0) == GenOr(gen, b, 0) ==> Apart(m[a].x, m[b].x))
  }

  /** Centring and re-sweeping one generation keeps the whole table laid out. */
  lemma CentreRowLaidOut(m: map<int, Member>, gen: map<int, int>, order: seq<int>, rels: seq<Relation>, cg: int)
    requires Indexes(order, m) && Anchored(rels, m.Keys) && m.Keys <= gen.Keys
    requires LaidOut(m, gen)
    ensures SameRows(m, CentreRow(m, gen, order, rels, cg))
    ensures LaidOut(CentreRow(m, gen, order, rels, cg), gen)
  {
    var m1 := Centre(m, ChildPairs(rels, gen, cg));
    var r := CentreRow(m, gen, order, rels, cg);
    assert Indexes(order, m1);
    SweepRowLaysOut(m1, gen, order, cg, None);
    forall a | a in m && GenOr(gen, a, 0) != cg
      ensures r[a] == m[a]
    {
      if ParentXs(m, ChildPairs(rels, gen, cg), a) != [] {
        CentreInRow(m, gen, rels, cg, a);
      }
    }
  }

  /**
   * One round of centring for generation `cg`: every child with parents
   * first takes the mean x of its parents, the re-sweep then only moves boxes
   * of generation `cg` and only to the right, keeping their y, and members of
   * every other generation are left exactly as they were.
   */
  lemma CentreRowMoves(m: map<int, Member>, gen: map<int, int>, order: seq<int>, rels: seq<Relation>, cg: int)
    requires Indexes(order, m) && Anchored(rels, m.Keys) && m.Keys <= gen.Keys
    ensures var pairs := ChildPairs(rels, gen, cg);
      var c := Centre(m, pairs);
      var r := CentreRow(m, gen, order, rels, cg);
      && (forall a :: a in m && ParentXs(m, pairs, a) != [] ==> c[a].x == Mean(ParentXs(m, pairs, a)))
      && (forall a :: a in m && GenOr(gen, a, 0) == cg ==> r[a].x >= c[a].x && r[a].y == m[a].y)
      && (forall a :: a in m && GenOr(gen, a, 0) != cg ==> r[a] == m[a])
  {
    var pairs := ChildPairs(rels, gen, cg);
    var m1 := Centre(m, pairs);
    var r := CentreRow(m, gen, order, rels, cg);
    assert Indexes(order, m1);
    var s := RowOrder(m1, gen, order, cg);
    assert r == Sweep(m1, s, Left, None);
    SweepRaises(m1, s, Left, None);
    SweepPins(m1, s, Left, None);
    SweepFrame(m1, s, Left, None);
    forall a | a in m && GenOr(gen, a, 0) != cg
      ensures r[a] == m[a]
    {
      if ParentXs(m, pairs, a) != [] {
        CentreInRow(m, gen, rels, cg, a);
      }
    }
  }

  /** Centring every generation of `cgs` in turn keeps the table laid out. */
  lemma {:induction false} CentreAllLaidOut(m: map<int, Member>, gen: map<int, int>, order: seq<int>, rels: seq<Relation>, cgs: seq<int>)
    requires Indexes(order, m) && Anchored(rels, m.Keys) && m.Keys <= gen.Keys
    requires LaidOut(m, gen)
    ensures SameRows(m, CentreAll(m, gen, order, rels, cgs))
    ensures LaidOut(CentreAll(m, gen, order, rels, cgs), gen)
    decreases |cgs|
  {
    if cgs != [] {
      var m1 := CentreRow(m, gen, order, rels, cgs[0]);
      CentreRowLaidOut(m, gen, order, rels, cgs[0]);
      CentreAllLaidOut(m1, gen, order, rels, cgs[1..]);
    }
  }

  /** Resolving every generation of the member table lays the whole table out. */
  lemma ResolveLaidOut(m: map<int, Member>, gen: map<int, int>, order: seq<int>)
    requires Indexes(order, m)
    ensures SameRows(m, ResolveAll(m, gen, order, Rows(order, gen)))
    ensures LaidOut(ResolveAll(m, gen, order, Rows(order, gen)), gen)
  {
    var r := ResolveAll(m, gen, order, Rows(order, gen));
    ResolveAllLaysOut(m, gen, order, Rows(order, gen));
    forall a | a in m
      ensures GenOr(gen, a, 0) in Rows(order, gen)
    {
      GroupOf(order, gen, a);
    }
  }

  /**
   * `layout()`: infer generations, place, compress spouses, resolve
   * collisions, then centre children generation by generation.
   */
  function Arrange(m: map<int, Member>, order: seq<int>, rels: seq<Relation>): (r: map<int, Member>)
    requires Indexes(order, m) && Anchored(rels, m.Keys)
    ensures r.Keys == m.Keys
  {
    var gen := Generations.Infer(m.Keys, rels);
    var placed := Initial(m, gen);
    var compressed := CompressAll(placed, gen, rels);
    var resolved := ResolveAll(compressed, gen, order, Rows(order, gen));
    CentreAll(resolved, gen, order, rels, ChildGens(rels, gen))
  }

  /**
   * The layout's promise: every member keeps its id, name and tag, sits on
   * the row of its inferred generation, is not left of the margin, and is at
   * least 120 away from every other member of its generation.
   */
  lemma ArrangeLaidOut(m: map<int, Member>, order: seq<int>, rels: seq<Relation>)
    requires Indexes(order, m) && Anchored(rels, m.Keys)
    ensures SameRows(m, Arrange(m, order, rels))
    ensures LaidOut(Arrange(m, order, rels), Generations.Infer(m.Keys, rels))
  {
    var gen := Generations.Infer(m.Keys, rels);
    var placed := Initial(m, gen);
    var compressed := CompressAll(placed, gen, rels);
    var resolved := ResolveAll(compressed, gen, order, Rows(order, gen));
    ResolveLaidOut(compressed, gen, order);
    CentreAllLaidOut(resolved, gen, order, rels, ChildGens(rels, gen));
  }

  /** Initial placement (lines 136-145) overwrites every x and y, so it reads nothing but ids, names, tags and generations. */
  lemma InitialIgnoresCoords(m: map<int, Member>, m2: map<int, Member>, gen: map<int, int>)
    requires SameRows(m, m2)
    ensures Initial(m, gen) == Initial(m2, gen)
  {
    var a, b := Initial(m, gen), Initial(m2, gen);
    forall id | id in a
      ensures a[id] == b[id]
    {
      assert (set j | j in m && GenOr(gen, j, 0) == GenOr(gen, id, 0) && j < id) == (set j | j in m2 && GenOr(gen, j, 0) == GenOr(gen, id, 0) && j < id);
    }
  }

  /** Laying out an already laid-out table again gives the same coordinates: the layout is idempotent. */
  lemma ArrangeIdempotent(m: map<int, Member>, order: seq<int>, rels: seq<Relation>)
    requires Indexes(order, m) && Anchored(rels, m.Keys)
    ensures Arrange(Arrange(m, order, rels), order, rels) == Arrange(m, order, rels)
  {
    var r := Arrange(m, order, rels);
    ArrangeLaidOut(m, order, rels);
    InitialIgnoresCoords(m, r, Generations.Infer(m.Keys, rels));
  }
}
