/**
 * The `FamilyTree` class (classes/FamilyTree.php): a member table and an
 * append-only relation list, and the in-place layout that moves every
 * member's box. Each layout phase is a method proved to compute the
 * corresponding function of module `Layout`.
 */
module FamilyTrees {
  import opened Graph
  import opened Ordering
  import opened Layout
  import Generations
  import opened Labels
  import opened Connectors

  /** The relation kind a type string names; the comparisons are exact (`===`). */
  function KindOf(name: string): (k: Kind)
    ensures k.Unrecognised? <==> name != "child" && name != "spouse" && name != "sibling"
    ensures k.Unrecognised? ==> k.name == name
  {
    if name == "child" then Child
    else if name == "spouse" then Spouse
    else if name == "sibling" then Sibling
    else Unrecognised(name)
  }

  /** The type string of a kind; `KindOf` reads it back. */
  function KindName(k: Kind): string
  {
    match k
    case Child => "child"
    case Spouse => "spouse"
    case Sibling => "sibling"
    case Unrecognised(name) => name
  }

  lemma KindRoundTrip(name: string)
    ensures KindName(KindOf(name)) == name
  {
  }

  /** `targets` and `children` hold `$targets` and its key order after the pairs of `done`. */
  ghost predicate Collected(m: map<int, Member>, done: seq<(int, int)>, targets: map<int, seq<real>>, children: seq<int>)
  {
    && Distinct(children)
    && (forall c :: c in targets <==> c in children)
    && (forall c :: c in children ==> c in m)
    && (forall c :: c in targets <==> ParentXs(m, done, c) != [])
    && (forall c :: c in targets ==> targets[c] == ParentXs(m, done, c))
  }

  lemma CollectStep(m: map<int, Member>, pairs: seq<(int, int)>, i: int, targets: map<int, seq<real>>, children: seq<int>)
    requires 0 <= i < |pairs| && pairs[i].1 in m
    requires Collected(m, pairs[..i], targets, children)
    ensures var t := Put(targets, pairs[i].1, XOf(m, pairs[i].0)); var ch := AddKey(children, pairs[i].1);
      Distinct(ch)
    ensures var t := Put(targets, pairs[i].1, XOf(m, pairs[i].0)); var ch := AddKey(children, pairs[i].1);
      forall c :: c in t <==> c in ch
    ensures var t := Put(targets, pairs[i].1, XOf(m, pairs[i].0)); var ch := AddKey(children, pairs[i].1);
      forall c :: c in ch ==> c in m
    ensures var t := Put(targets, pairs[i].1, XOf(m, pairs[i].0)); var ch := AddKey(children, pairs[i].1);
      forall c :: c in t <==> ParentXs(m, pairs[..i + 1], c) != []
    ensures var t := Put(targets, pairs[i].1, XOf(m, pairs[i].0)); var ch := AddKey(children, pairs[i].1);
      forall c :: c in t ==> t[c] == ParentXs(m, pairs[..i + 1], c)
  {
    var (p, c) := pairs[i];
    var t := Put(targets, c, XOf(m, p));
    var ch := AddKey(children, c);
    assert Distinct(ch);
    assert forall d :: d in t <==> d in ch;
    assert forall d :: d in ch ==> d in m;
    ParentXsSnoc(m, pairs, i);
    CollectKeys(m, pairs, i, targets);
    CollectValues(m, pairs, i, targets);
  }

  lemma CollectKeys(m: map<int, Member>, pairs: seq<(int, int)>, i: int, targets: map<int, seq<real>>)
    requires 0 <= i < |pairs|
    requires forall c :: c in targets <==> ParentXs(m, pairs[..i], c) != []
    requires forall c :: ParentXs(m, pairs[..i + 1], c) == ParentXs(m, pairs[..i], c) + (if pairs[i].1 == c then [XOf(m, pairs[i].0)] else [])
    ensures forall c :: c in Put(targets, pairs[i].1, XOf(m, pairs[i].0)) <==> ParentXs(m, pairs[..i + 1], c) != []
  {
  }

  lemma CollectValues(m: map<int, Member>, pairs: seq<(int, int)>, i: int, targets: map<int, seq<real>>)
    requires 0 <= i < |pairs|
    requires forall c :: c in targets <==> ParentXs(m, pairs[..i], c) != []
    requires forall c :: c in targets ==> targets[c] == ParentXs(m, pairs[..i], c)
    requires forall c :: ParentXs(m, pairs[..i + 1], c) == ParentXs(m, pairs[..i], c) + (if pairs[i].1 == c then [XOf(m, pairs[i].0)] else [])
    ensures var t := Put(targets, pairs[i].1, XOf(m, pairs[i].0));
      forall c :: c in t ==> t[c] == ParentXs(m, pairs[..i + 1], c)
  {
  }

  /**
   * Lines 195-198: `$targets`, the current x of the parent of every pair,
   * collected per child; `children` lists its keys in insertion order.
   */
  method CollectTargets(m: map<int, Member>, pairs: seq<(int, int)>) returns (targets: map<int, seq<real>>, children: seq<int>)
    requires forall i :: 0 <= i < |pairs| ==> pairs[i].1 in m
    ensures Distinct(children)
    ensures forall c :: c in targets <==> c in children
    ensures forall c :: c in children ==> c in m
    ensures forall c :: c in targets <==> ParentXs(m, pairs, c) != []
    ensures forall c :: c in targets ==> targets[c] == ParentXs(m, pairs, c)
  {
    targets, children := map[], [];
    for i := 0 to |pairs|
      invariant Collected(m, pairs[..i], targets, children)
    {
      var (p, c) := pairs[i];
      CollectStep(m, pairs, i, targets, children);
      targets, children := Put(targets, c, XOf(m, p)), AddKey(children, c);
    }
    assert pairs[..|pairs|] == pairs;
  }

  /** `$childrenByGen` after the relations `rels`: each child relation appends its pair under its child's generation. */
  function ChildrenByGen(rels: seq<Relation>, gen: map<int, int>): map<int, seq<(int, int)>>
  {
    if rels == [] then map[]
    else
      var r := rels[|rels| - 1];
      var byGen := ChildrenByGen(rels[..|rels| - 1], gen);
      if r.kind == Child then Put(byGen, ChildGen(gen, r), (r.from, r.to)) else byGen
  }

  /** `$childrenByGen` is keyed by exactly the child generations, each holding its pairs in relation order. */
  lemma {:induction false} ChildrenByGenPairs(rels: seq<Relation>, gen: map<int, int>)
    ensures forall cg :: cg in ChildrenByGen(rels, gen) <==> cg in ChildGens(rels, gen)
    ensures forall cg :: cg in ChildrenByGen(rels, gen) ==> ChildrenByGen(rels, gen)[cg] == ChildPairs(rels, gen, cg)
    ensures forall cg :: cg !in ChildrenByGen(rels, gen) ==> ChildPairs(rels, gen, cg) == []
    decreases |rels|
  {
    if rels != [] {
      var i := |rels| - 1;
      ChildrenByGenPairs(rels[..i], gen);
      ChildGroupsSnoc(rels, gen, i);
      assert rels[..i + 1] == rels;
    }
  }

  /** Lines 183-192: `$childrenByGen`, the (parent, child) pairs of the child relations keyed by the child's generation. */
  method GroupChildren(rels: seq<Relation>, gen: map<int, int>) returns (cgs: seq<int>, byGen: map<int, seq<(int, int)>>)
    ensures cgs == ChildGens(rels, gen)
    ensures forall cg :: cg in byGen <==> cg in cgs
    ensures forall cg :: cg in byGen ==> byGen[cg] == ChildPairs(rels, gen, cg)
  {
    cgs, byGen := [], map[];
    for i := 0 to |rels|
      invariant cgs == ChildGens(rels[..i], gen)
      invariant byGen == ChildrenByGen(rels[..i], gen)
    {
      var r := rels[i];
      assert rels[..i + 1][..i] == rels[..i];
      if r.kind == Child {
        var cg := GenOr(gen, r.to, GenOr(gen, r.from, 0) + 1);
        byGen, cgs := Put(byGen, cg, (r.from, r.to)), AddKey(cgs, cg);
      }
    }
    assert rels[..|rels|] == rels;
    ChildrenByGenPairs(rels, gen);
  }

  /** The phases of `layout()` compose to `Arrange`, which keeps every row's id. */
  lemma Arranged(m0: map<int, Member>, m: map<int, Member>, order: seq<int>, rels: seq<Relation>)
    requires Indexes(order, m0) && Anchored(rels, m0.Keys)
    requires forall id :: id in m0 ==> m0[id].id == id
    requires var gen := Generations.Infer(m0.Keys, rels);
      m == CentreAll(ResolveAll(CompressAll(Initial(m0, gen), gen, rels), gen, order, Rows(order, gen)), gen, order, rels, ChildGens(rels, gen))
    ensures m == Arrange(m0, order, rels)
    ensures Indexes(order, m) && forall id :: id in m ==> m[id].id == id
    ensures SameRows(m0, m) && LaidOut(m, Generations.Infer(m0.Keys, rels))
  {
    ArrangeLaidOut(m0, order, rels);
  }

  /**
   * What `render()` computes before writing SVG: each member's wrapped
   * label lines and box height, each generation's baseline y, and the
   * trunk x of each (parent generation, child generation) link group.
   */
  datatype Drawing = Drawing(
    lines: map<int, seq<string>>,
    heights: map<int, int>,
    lineY: map<int, int>,
    trunks: map<(int, int), real>)

  /** Each member's wrapped label lines and the box height they give, and nothing else. */
  ghost predicate Labelled(lines: map<int, seq<string>>, heights: map<int, int>, m: map<int, Member>)
  {
    && (forall id :: id in lines <==> id in m)
    && (forall id :: id in heights <==> id in m)
    && (forall id :: id in lines ==> lines[id] == Wrap(m[id].name) && heights[id] == BoxHeight(|lines[id]|))
  }

  /** The geometry `Render` promises for the table `m` under generations `gen`. */
  ghost predicate Draws(d: Drawing, m: map<int, Member>, gen: map<int, int>, rels: seq<Relation>, order: seq<int>)
  {
    && Labelled(d.lines, d.heights, m)
    && Measured(m, d.heights, order) && d.lineY == LineYs(m, d.heights, gen, order)
    && Trunked(d.trunks, m, gen, rels)
  }

  /** One trunk x per non-empty link group, at the centre of its midpoints. */
  ghost predicate Trunked(trunks: map<(int, int), real>, m: map<int, Member>, gen: map<int, int>, rels: seq<Relation>)
  {
    && (forall k :: k in trunks <==> LinkPairs(rels, gen, k.0, k.1) != [])
    && (forall k :: k in trunks ==> trunks[k] == TrunkMid(m, LinkPairs(rels, gen, k.0, k.1)))
  }

  /** The trunks are determined by the table. */
  lemma TrunkedUnique(t1: map<(int, int), real>, t2: map<(int, int), real>, m: map<int, Member>, gen: map<int, int>, rels: seq<Relation>)
    requires Trunked(t1, m, gen, rels) && Trunked(t2, m, gen, rels)
    ensures t1 == t2
  {
    assert forall k :: k in t1 <==> k in t2;
    forall k | k in t1
      ensures t1[k] == t2[k]
    {
    }
  }

  /** The labels and heights are determined by the table. */
  lemma LabelledUnique(lines1: map<int, seq<string>>, heights1: map<int, int>, lines2: map<int, seq<string>>, heights2: map<int, int>, m: map<int, Member>)
    requires Labelled(lines1, heights1, m) && Labelled(lines2, heights2, m)
    ensures lines1 == lines2 && heights1 == heights2
  {
    assert forall id :: id in lines1 <==> id in lines2;
    assert forall id :: id in heights1 <==> id in heights2;
    forall id | id in lines1
      ensures lines1[id] == lines2[id]
    {
    }
    forall id | id in heights1
      ensures id in lines1 && heights1[id] == heights2[id]
    {
    }
    assert lines1 == lines2;
    assert heights1 == heights2;
  }

  /** The promised geometry is determined by the table: two drawings of one table are equal. */
  lemma DrawsUnique(d1: Drawing, d2: Drawing, m: map<int, Member>, gen: map<int, int>, rels: seq<Relation>, order: seq<int>)
    requires Draws(d1, m, gen, rels, order) && Draws(d2, m, gen, rels, order)
    ensures d1 == d2
  {
    LabelledUnique(d1.lines, d1.heights, d2.lines, d2.heights, m);
    TrunkedUnique(d1.trunks, d2.trunks, m, gen, rels);
  }

  class FamilyTree {
    /** `$members`, keyed by id. */
    var members: map<int, Member>
    /** The key order of `$members`: ids in the order they were first added. */
    var order: seq<int>
    /** `$relations`, in the order they were added. */
    var relations: seq<Relation>
    /** `$computedGen`: the generations the last layout inferred. */
    var computedGen: map<int, int>
    /** Canvas size; only echoed into the drawing's header. */
    const width: int
    const height: int

    /** `order` lists each member once, and every row's `id` is its key. */
    ghost predicate Valid()
      reads this
    {
      Indexes(order, members) && forall id :: id in members ==> members[id].id == id
    }

    constructor(width: int := 1200, height: int := 800)
      ensures Valid()
      ensures members == map[] && order == [] && relations == [] && computedGen == map[]
      ensures this.width == width && this.height == height
    {
      this.width := width;
      this.height := height;
      members := map[];
      order := [];
      relations := [];
      computedGen := map[];
    }

    /** Stores a row at (0, 0); re-adding an id replaces its row but keeps its place in the table. */
    method AddMember(id: int, name: string, tag: string := "")
      requires Valid()
      modifies this`members, this`order
      ensures Valid()
      ensures members == old(members)[id := Member(id, name, tag, 0.0, 0)]
      ensures order == if id in old(members) then old(order) else old(order) + [id]
    {
      if id !in members {
        order := order + [id];
      }
      members := members[id := Member(id, name, tag, 0.0, 0)];
    }

    /** Appends a relation; the type defaults to "child". */
    method AddRelation(from: int, to: int, kind: string := "child")
      modifies this`relations
      ensures relations == old(relations) + [Relation(from, to, KindOf(kind))]
    {
      relations := relations + [Relation(from, to, KindOf(kind))];
    }

    /** Lines 127-132: the member ids of each generation, in table order, keyed in order of first appearance. */
    method GroupByGeneration(gen: map<int, int>) returns (keys: seq<int>, groups: map<int, seq<int>>)
      ensures keys == Rows(order, gen)
      ensures forall g :: g in groups <==> g in keys
      ensures forall g :: g in groups ==> groups[g] == Members(order, gen, g)
    {
      keys, groups := [], map[];
      for i := 0 to |order|
        invariant keys == Rows(order[..i], gen)
        invariant forall g :: g in groups <==> g in keys
        invariant forall g :: g in groups ==> groups[g] == Members(order[..i], gen, g)
      {
        var id := order[i];
        var g := GenOr(gen, id, 0);
        assert order[..i + 1][..i] == order[..i];
        RowsHas(order[..i], gen, g);
        groups, keys := Put(groups, g, id), AddKey(keys, g);
      }
      assert order[..|order|] == order;
    }

    /**
     * Lines 134-145: each group sorted by id and placed left to right from
     * the margin, 120 apart, on its generation's row.
     */
    method PlaceInitial(gen: map<int, int>, keys: seq<int>, groups: map<int, seq<int>>)
      requires Indexes(order, members)
      requires keys == Rows(order, gen)
      requires forall g :: g in groups <==> g in keys
      requires forall g :: g in groups ==> groups[g] == Members(order, gen, g)
      modifies this`members
      ensures members == Initial(old(members), gen)
    {
      ghost var m0 := members;
      ghost var done: set<int> := {};
      for k := 0 to |keys|
        invariant forall j :: 0 <= j < k ==> keys[j] in done
        invariant PlacedUpTo(m0, gen, done, members)
      {
        var g := keys[k];
        ghost var done' := done + {g};
        assert forall j :: 0 <= j < k + 1 ==> keys[j] in done';
        ghost var before := members;
        assert groups[g] == Members(order, gen, g);
        InitialReady(m0, order, gen, g, done, members);
        PlaceGroup(g, SortBy(map[], groups[g]), Initial(m0, gen));
        InitialStep(m0, order, gen, g, done, before, members);
        done := done';
      }
      forall id | id in m0
        ensures GenOr(gen, id, 0) in done
      {
        GroupOf(order, gen, id);
        var j :| 0 <= j < |keys| && keys[j] == GenOr(gen, id, 0);
      }
      InitialDone(m0, gen, done, members);
    }

    /** Lines 135-144 for one group: ids in ascending order, x from the margin in steps of 120. */
    method PlaceGroup(g: int, ids: seq<int>, ghost target: map<int, Member>)
      requires Distinct(ids)
      requires forall i :: 0 <= i < |ids| ==> ids[i] in target && ids[i] in members && target[ids[i]] == members[ids[i]].(x := Left + Step * i as real, y := Base(g))
      modifies this`members
      ensures members.Keys == old(members).Keys
      ensures forall id :: id in members ==> members[id] == if id in ids then target[id] else old(members)[id]
    {
      var y := Base(g);
      var x := Left;
      for j := 0 to |ids|
        invariant members.Keys == old(members).Keys
        invariant x == Left + Step * j as real
        invariant forall id :: id in members ==> members[id] == if id in ids[..j] then target[id] else old(members)[id]
      {
        var id := ids[j];
        assert ids[..j + 1] == ids[..j] + [id];
        assert id !in ids[..j];
        members := Move(members, id, x, y);
        x := x + Step;
      }
      assert ids[..|ids|] == ids;
    }

    /**
     * Lines 148-165: for each spouse relation in list order, both partners
     * take the y of the larger generation and move to 20 either side of
     * their midpoint.
     */
    method CompressSpouses(gen: map<int, int>)
      requires Anchored(relations, members.Keys)
      modifies this`members
      ensures members == CompressAll(old(members), gen, relations)
    {
      var m, rels := members, relations;
      for i := 0 to |rels|
        invariant m.Keys == old(members).Keys
        invariant Anchored(rels[i..], m.Keys)
        invariant CompressAll(m, gen, rels[i..]) == CompressAll(old(members), gen, rels)
      {
        var r := rels[i];
        CompressAllStep(m, gen, rels, i);
        if r.kind == Spouse {
          m := CompressPair(m, gen, r.from, r.to);
        }
      }
      members := m;
    }

    /** Lines 155-162: both partners take the y of the larger generation, then sit 20 either side of their midpoint. */
    static method CompressPair(m: map<int, Member>, gen: map<int, int>, a: int, b: int) returns (r: map<int, Member>)
      requires a in m && b in m
      ensures r == Compress(m, gen, a, b)
    {
      CompressSteps(m, gen, a, b);
      var gA := GenOr(gen, a, 0);
      var gB := GenOr(gen, b, gA);
      var y := Base(Generations.Max(gA, gB));
      r := m[a := m[a].(y := y)];
      r := r[b := r[b].(y := y)];
      var mid := (r[a].x + r[b].x) / 2.0;
      r := r[a := r[a].(x := mid - SpouseGap / 2.0)];
      r := r[b := r[b].(x := mid + SpouseGap / 2.0)];
    }

    /**
     * Lines 173-179 and 207-212: walks `ids` left to right with a cursor
     * starting at the margin; each box moves right to the cursor if it is
     * left of it, and the cursor moves 120 past it. With `pin` the box also
     * takes the row's y (the first sweep does, the re-sweep does not).
     */
    method SweepGroup(ids: seq<int>, pin: Option<int>)
      requires forall id :: id in ids ==> id in members
      modifies this`members
      ensures members == Sweep(old(members), ids, Left, pin)
    {
      var m := members;
      var x := Left;
      for j := 0 to |ids|
        invariant m.Keys == old(members).Keys
        invariant Sweep(m, ids[j..], x, pin) == Sweep(old(members), ids, Left, pin)
      {
        var id := ids[j];
        assert ids[j..][1..] == ids[j + 1..];
        ghost var before := m;
        var cur := MaxX(m[id].x, x);
        m := m[id := m[id].(x := cur)];
        if pin.Some? {
          m := m[id := m[id].(y := pin.value)];
        }
        assert m == Move(before, id, cur, PinY(pin, before[id].y));
        x := cur + Step;
      }
      members := m;
    }

    /** Lines 167-180: each generation, in group order, sorted by x then id and swept with its row's y. */
    method ResolveCollisions(gen: map<int, int>, keys: seq<int>, groups: map<int, seq<int>>)
      requires forall id :: id in order ==> id in members
      requires forall g :: g in keys ==> g in groups && groups[g] == Members(order, gen, g)
      modifies this`members
      ensures members == ResolveAll(old(members), gen, order, keys)
    {
      for k := 0 to |keys|
        invariant members.Keys == old(members).Keys
        invariant ResolveAll(members, gen, order, keys[k..]) == ResolveAll(old(members), gen, order, keys)
      {
        var g := keys[k];
        assert keys[k..][1..] == keys[k + 1..];
        var y := Base(g);
        var ids := SortBy(XKey(members), groups[g]);
        assert forall id :: id in ids ==> id in multiset(Members(order, gen, g));
        SweepGroup(ids, Some(y));
      }
    }

    /** Lines 195-201: every child of `pairs` moves to the mean x of its parents' current x. */
    method CentreGroup(pairs: seq<(int, int)>)
      requires forall i :: 0 <= i < |pairs| ==> pairs[i].1 in members
      modifies this`members
      ensures members == Centre(old(members), pairs)
    {
      var m := members;
      var targets, children := CollectTargets(m, pairs);
      for k := 0 to |children|
        invariant m.Keys == old(members).Keys
        invariant forall id :: id in m ==> m[id] == if id in children[..k] then old(members)[id].(x := Mean(targets[id])) else old(members)[id]
      {
        var c := children[k];
        assert children[..k + 1] == children[..k] + [c];
        assert c !in children[..k];
        m := m[c := m[c].(x := Sum(targets[c]) / |targets[c]| as real)];
      }
      assert children[..|children|] == children;
      members := m;
    }

    /** Lines 183-213: each child generation centred, then re-swept without touching y. */
    method CentreChildren(gen: map<int, int>, groups: map<int, seq<int>>, cgs: seq<int>, byGen: map<int, seq<(int, int)>>)
      requires Anchored(relations, members.Keys)
      requires forall id :: id in order ==> id in members
      requires forall g :: g in groups ==> groups[g] == Members(order, gen, g)
      requires forall g :: g !in groups ==> Members(order, gen, g) == []
      requires forall cg :: cg in cgs ==> cg in byGen && byGen[cg] == ChildPairs(relations, gen, cg)
      modifies this`members
      ensures members == CentreAll(old(members), gen, order, relations, cgs)
    {
      for k := 0 to |cgs|
        invariant members.Keys == old(members).Keys
        invariant CentreAll(members, gen, order, relations, cgs[k..]) == CentreAll(old(members), gen, order, relations, cgs)
      {
        var cg := cgs[k];
        assert cgs[k..][1..] == cgs[k + 1..];
        CentreStep(gen, groups, cg, byGen[cg]);
      }
    }

    /** One round of lines 194-213 for child generation `cg`. */
    method CentreStep(gen: map<int, int>, groups: map<int, seq<int>>, cg: int, pairs: seq<(int, int)>)
      requires Anchored(relations, members.Keys)
      requires forall id :: id in order ==> id in members
      requires cg in groups ==> groups[cg] == Members(order, gen, cg)
      requires cg !in groups ==> Members(order, gen, cg) == []
      requires pairs == ChildPairs(relations, gen, cg)
      modifies this`members
      ensures members == CentreRow(old(members), gen, order, relations, cg)
    {
      ChildPairsAnchored(relations, gen, cg, members.Keys);
      CentreGroup(pairs);
      ghost var centred := members;
      var ids := if cg in groups then groups[cg] else [];
      assert ids == Members(order, gen, cg);
      ids := SortBy(XKey(members), ids);
      assert forall id :: id in ids ==> id in multiset(Members(order, gen, cg));
      SweepGroup(ids, None);
      assert members == SweepRow(centred, gen, order, cg, None);
    }

    /**
     * `layout()` (lines 116-219): infers generations, places, compresses
     * spouses, resolves collisions and centres children, then keeps the
     * generations for drawing. Afterwards every member sits on its
     * generation's row, right of the margin, 120 or more from its row mates.
     */
    method Layout()
      requires Valid() && Anchored(relations, members.Keys)
      modifies this`members, this`computedGen
      ensures Valid()
      ensures computedGen == Generations.Infer(old(members).Keys, relations)
      ensures members == Arrange(old(members), order, relations)
      ensures SameRows(old(members), members) && LaidOut(members, computedGen)
    {
      var gen := Generations.InferGenerations(members.Keys, relations);
      Position(gen);
      computedGen := gen;
      Arranged(old(members), members, order, relations);
    }

    /** Lines 126-213 with the generations `gen` already inferred. */
    method Position(gen: map<int, int>)
      requires Valid() && Anchored(relations, members.Keys)
      modifies this`members
      ensures members == CentreAll(ResolveAll(CompressAll(Initial(old(members), gen), gen, relations), gen, order, Rows(order, gen)), gen, order, relations, ChildGens(relations, gen))
    {
      var keys, groups := GroupByGeneration(gen);
      PlaceInitial(gen, keys, groups);
      ghost var placed := members;
      CompressSpouses(gen);
      ghost var compressed := members;
      assert compressed.Keys == old(members).Keys;
      ResolveCollisions(gen, keys, groups);
      var cgs, byGen := GroupChildren(relations, gen);
      forall g | g !in groups
        ensures Members(order, gen, g) == []
      {
        RowsHas(order, gen, g);
      }
      CentreChildren(gen, groups, cgs, byGen);
    }

    /**
     * `render()` (lines 220-325) up to the SVG text: lays the tree out, then
     * measures every box, places every generation's baseline below its
     * lowest box, and centres the trunk of every link group.
     */
    method Render() returns (d: Drawing)
      requires Valid() && Anchored(relations, members.Keys)
      modifies this`members, this`computedGen
      ensures Valid()
      ensures computedGen == Generations.Infer(old(members).Keys, relations)
      ensures members == Arrange(old(members), order, relations)
      ensures forall id :: id in d.lines <==> id in members
      ensures forall id :: id in d.heights <==> id in members
      ensures forall id :: id in d.lines ==> d.lines[id] == Wrap(members[id].name) && d.heights[id] == BoxHeight(|d.lines[id]|)
      ensures Measured(members, d.heights, order) && d.lineY == LineYs(members, d.heights, computedGen, order)
      ensures forall k :: k in d.trunks <==> LinkPairs(relations, computedGen, k.0, k.1) != []
      ensures forall k :: k in d.trunks ==> d.trunks[k] == TrunkMid(members, LinkPairs(relations, computedGen, k.0, k.1)) && k.0 in d.lineY
      ensures Draws(d, members, computedGen, relations, order)
    {
      Layout();
      var m := members;
      var lines, heights := MeasureBoxes(m, order);
      var lineY := GenerationLines(m, heights, computedGen, order);
      var links := GroupLinks(relations, computedGen);
      var trunks := Trunks(m, links);
      forall k | k in links
        ensures k.0 in lineY
      {
        ParentLineDefined(m, heights, computedGen, order, relations, k.0, k.1);
      }
      d := Drawing(lines, heights, lineY, trunks);
    }

    /** Two `render()` calls in a row draw the same geometry, and the second leaves the table as the first did. */
    method RenderTwice() returns (d1: Drawing, d2: Drawing)
      requires Valid() && Anchored(relations, members.Keys)
      modifies this`members, this`computedGen
      ensures Valid()
      ensures members == Arrange(old(members), order, relations)
      ensures d1 == d2
    {
      ghost var m0 := members;
      d1 := Render();
      ghost var m1, gen1 := members, computedGen;
      d2 := Render();
      ArrangeIdempotent(m0, order, relations);
      assert members == m1 && computedGen == gen1;
      DrawsUnique(d1, d2, members, computedGen, relations, order);
    }
  }
}
