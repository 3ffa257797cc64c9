/**
 * The geometry `render()` derives before drawing connectors
 * (classes/FamilyTree.php:227-325): each member's wrapped label and box
 * height, each generation's baseline below its tallest box, and the
 * shared vertical trunk of each (parent generation, child generation)
 * group of child links.
 */
module Connectors {
  import opened Graph
  import opened Layout
  import opened Labels

  /** `$lineGutter`: the baseline sits this far below the lowest box bottom of its generation. */
  const Gutter := 8
  /** Half of `$boxWidth` (100): connectors attach at the middle of a box. */
  const HalfBox := 50.0

  /** Lines 233-255: the wrapped lines and box height of every member, in table order. */
  method MeasureBoxes(m: map<int, Member>, order: seq<int>) returns (lines: map<int, seq<string>>, heights: map<int, int>)
    requires forall id :: id in order ==> id in m
    ensures forall id :: id in lines <==> id in order
    ensures forall id :: id in heights <==> id in order
    ensures forall id :: id in lines ==> lines[id] == Wrap(m[id].name) && heights[id] == BoxHeight(|lines[id]|)
  {
    lines, heights := map[], map[];
    for i := 0 to |order|
      invariant forall id :: id in lines <==> id in order[..i]
      invariant forall id :: id in heights <==> id in order[..i]
      invariant forall id :: id in lines ==> lines[id] == Wrap(m[id].name) && heights[id] == BoxHeight(|lines[id]|)
    {
      var id := order[i];
      assert order[..i + 1] == order[..i] + [id];
      var wrapped := WrapName(m[id].name);
      lines := lines[id := wrapped];
      heights := heights[id := BoxHeight(|wrapped|)];
    }
    assert order[..|order|] == order;
  }

  /** The bottom edge of a member's box. */
  function Bottom(m: map<int, Member>, heights: map<int, int>, id: int): int
    requires id in m && id in heights
  {
    m[id].y + heights[id]
  }

  /** The members of `order` are all measured. */
  ghost predicate Measured(m: map<int, Member>, heights: map<int, int>, order: seq<int>)
  {
    forall id :: id in order ==> id in m && id in heights
  }

  /**
   * `$genBottoms` after the member loop: each generation that has a
   * member maps to the lowest box bottom among its members.
   */
  function Bottoms(m: map<int, Member>, heights: map<int, int>, gen: map<int, int>, order: seq<int>): map<int, int>
    requires Measured(m, heights, order)
  {
    if order == [] then map[]
    else
      var n := |order| - 1;
      var id := order[n];
      assert forall x :: x in order[..n] ==> x in order;
      var b := Bottoms(m, heights, gen, order[..n]);
      var g := GenOr(gen, id, 0);
      var bottom := Bottom(m, heights, id);
      if g !in b || bottom > b[g] then b[g := bottom] else b
  }

  /**
   * Every member's generation has an entry in `$genBottoms`, at or below its
   * box bottom, and every entry is the bottom of some member of that generation.
   */
  lemma {:induction false} BottomsMax(m: map<int, Member>, heights: map<int, int>, gen: map<int, int>, order: seq<int>)
    requires Measured(m, heights, order)
    ensures var b := Bottoms(m, heights, gen, order);
      && (forall i :: 0 <= i < |order| ==> GenOr(gen, order[i], 0) in b && Bottom(m, heights, order[i]) <= b[GenOr(gen, order[i], 0)])
      && (forall g :: g in b ==> exists i :: 0 <= i < |order| && GenOr(gen, order[i], 0) == g && Bottom(m, heights, order[i]) == b[g])
  {
    if order != [] {
      var n := |order| - 1;
      var id := order[n];
      var prefix := order[..n];
      assert forall x :: x in prefix ==> x in order;
      BottomsMax(m, heights, gen, prefix);
      var b0 := Bottoms(m, heights, gen, prefix);
      var b := Bottoms(m, heights, gen, order);
      var g := GenOr(gen, id, 0);
      var bottom := Bottom(m, heights, id);
      forall i | 0 <= i < |order|
        ensures GenOr(gen, order[i], 0) in b && Bottom(m, heights, order[i]) <= b[GenOr(gen, order[i], 0)]
      {
        if i < n {
          assert order[i] == prefix[i];
        }
      }
      forall h | h in b
        ensures exists i :: 0 <= i < |order| && GenOr(gen, order[i], 0) == h && Bottom(m, heights, order[i]) == b[h]
      {
        if h == g && (g !in b0 || bottom > b0[g]) {
          assert GenOr(gen, order[n], 0) == h && Bottom(m, heights, order[n]) == b[h];
        } else {
          var i :| 0 <= i < n && GenOr(gen, prefix[i], 0) == h && Bottom(m, heights, prefix[i]) == b0[h];
          assert order[i] == prefix[i];
        }
      }
    }
  }

  /** `$genLineY`: every generation's baseline, 8 below its lowest box bottom. */
  function LineYs(m: map<int, Member>, heights: map<int, int>, gen: map<int, int>, order: seq<int>): (ys: map<int, int>)
    requires Measured(m, heights, order)
  {
    var b := Bottoms(m, heights, gen, order);
    map g | g in b :: b[g] + Gutter
  }

  /**
   * A generation has a baseline exactly when it has a member; the baseline
   * clears every box of its generation by at least 8, and by exactly 8 for
   * the lowest one.
   */
  lemma Baselines(m: map<int, Member>, heights: map<int, int>, gen: map<int, int>, order: seq<int>)
    requires Measured(m, heights, order)
    ensures var ys := LineYs(m, heights, gen, order);
      && (forall i :: 0 <= i < |order| ==> GenOr(gen, order[i], 0) in ys && Bottom(m, heights, order[i]) + Gutter <= ys[GenOr(gen, order[i], 0)])
      && (forall g :: g in ys ==> exists i :: 0 <= i < |order| && GenOr(gen, order[i], 0) == g && Bottom(m, heights, order[i]) + Gutter == ys[g])
  {
    BottomsMax(m, heights, gen, order);
    var b := Bottoms(m, heights, gen, order);
    var ys := LineYs(m, heights, gen, order);
    forall g | g in ys
      ensures exists i :: 0 <= i < |order| && GenOr(gen, order[i], 0) == g && Bottom(m, heights, order[i]) + Gutter == ys[g]
    {
      var i :| 0 <= i < |order| && GenOr(gen, order[i], 0) == g && Bottom(m, heights, order[i]) == b[g];
      assert Bottom(m, heights, order[i]) + Gutter == ys[g];
    }
  }

  /** Lines 257-274: the two loops that fill `$genBottoms` and then `$genLineY`. */
  method GenerationLines(m: map<int, Member>, heights: map<int, int>, gen: map<int, int>, order: seq<int>) returns (lineY: map<int, int>)
    requires Measured(m, heights, order)
    ensures lineY == LineYs(m, heights, gen, order)
  {
    var bottoms: map<int, int> := map[];
    for i := 0 to |order|
      invariant bottoms == Bottoms(m, heights, gen, order[..i])
    {
      var id := order[i];
      assert order[..i + 1][..i] == order[..i];
      var g := GenOr(gen, id, 0);
      var bottom := m[id].y + heights[id];
      if g !in bottoms || bottom > bottoms[g] {
        bottoms := bottoms[g := bottom];
      }
    }
    assert order[..|order|] == order;
    var keys := bottoms.Keys;
    lineY := map[];
    while keys != {}
      invariant keys <= bottoms.Keys
      invariant forall g :: g in lineY <==> g in bottoms && g !in keys
      invariant forall g :: g in lineY ==> lineY[g] == bottoms[g] + Gutter
      decreases keys
    {
      ghost var some := Element(keys);
      var g :| g in keys;
      lineY := lineY[g := bottoms[g] + Gutter];
      keys := keys - {g};
    }
    forall g
      ensures g in lineY <==> g in bottoms
    {
    }
    assert lineY.Keys == bottoms.Keys;
    ghost var ys := LineYs(m, heights, gen, order);
    assert ys.Keys == bottoms.Keys;
    assert forall g :: g in ys ==> ys[g] == lineY[g];
  }

  /** `$pg` of a child relation: the parent's generation, or 0. */
  function ParentGen(gen: map<int, int>, r: Relation): int
  {
    GenOr(gen, r.from, 0)
  }

  /** `$genLinks[$pg][$cg]`: the (parent, child) pairs of the child relations from generation `pg` into `cg`, in list order. */
  function LinkPairs(rels: seq<Relation>, gen: map<int, int>, pg: int, cg: int): seq<(int, int)>
  {
    if rels == [] then []
    else
      var n := |rels| - 1;
      var r := rels[n];
      LinkPairs(rels[..n], gen, pg, cg) + (if r.kind == Child && ParentGen(gen, r) == pg && ChildGen(gen, r) == cg then [(r.from, r.to)] else [])
  }

  lemma LinkPairsSnoc(rels: seq<Relation>, gen: map<int, int>, i: int)
    requires 0 <= i < |rels|
    ensures forall k: (int, int) :: LinkPairs(rels[..i + 1], gen, k.0, k.1) == LinkPairs(rels[..i], gen, k.0, k.1) + (if rels[i].kind == Child && (ParentGen(gen, rels[i]), ChildGen(gen, rels[i])) == k then [(rels[i].from, rels[i].to)] else [])
  {
    assert rels[..i + 1][..i] == rels[..i];
  }

  /** Every linked pair comes from a child relation of the list whose generations give the group. */
  lemma {:induction false} LinkPairsFrom(rels: seq<Relation>, gen: map<int, int>, pg: int, cg: int, i: int)
    requires 0 <= i < |LinkPairs(rels, gen, pg, cg)|
    ensures exists j :: 0 <= j < |rels| && rels[j].kind == Child && (rels[j].from, rels[j].to) == LinkPairs(rels, gen, pg, cg)[i] && ParentGen(gen, rels[j]) == pg
  {
    var n := |rels| - 1;
    var prefix := LinkPairs(rels[..n], gen, pg, cg);
    if i < |prefix| {
      LinkPairsFrom(rels[..n], gen, pg, cg, i);
      var j :| 0 <= j < n && rels[..n][j].kind == Child && (rels[..n][j].from, rels[..n][j].to) == prefix[i] && ParentGen(gen, rels[..n][j]) == pg;
      assert rels[j] == rels[..n][j];
    } else {
      assert (rels[n].from, rels[n].to) == LinkPairs(rels, gen, pg, cg)[i];
    }
  }

  /** `$genLinks[$pg][$cg][] = [$p, $c]` for one relation: a child relation appends its pair under its group. */
  function AddLink(links: map<(int, int), seq<(int, int)>>, gen: map<int, int>, r: Relation): map<(int, int), seq<(int, int)>>
  {
    if r.kind != Child then links
    else
      var k := (ParentGen(gen, r), ChildGen(gen, r));
      links[k := if k in links then links[k] + [(r.from, r.to)] else [(r.from, r.to)]]
  }

  /** Adding relation `i` keeps `links` equal to the grouping of the relations so far. */
  lemma AddLinkGroups(rels: seq<Relation>, gen: map<int, int>, i: int, links: map<(int, int), seq<(int, int)>>)
    requires 0 <= i < |rels|
    requires forall k :: k in links <==> LinkPairs(rels[..i], gen, k.0, k.1) != []
    requires forall k :: k in links ==> links[k] == LinkPairs(rels[..i], gen, k.0, k.1)
    ensures forall k :: k in AddLink(links, gen, rels[i]) <==> LinkPairs(rels[..i + 1], gen, k.0, k.1) != []
    ensures forall k :: k in AddLink(links, gen, rels[i]) ==> AddLink(links, gen, rels[i])[k] == LinkPairs(rels[..i + 1], gen, k.0, k.1)
  {
    LinkPairsSnoc(rels, gen, i);
  }

  /** The grouped map after the relations `rels`, one `AddLink` at a time. */
  function Grouped(rels: seq<Relation>, gen: map<int, int>): map<(int, int), seq<(int, int)>>
  {
    if rels == [] then map[] else AddLink(Grouped(rels[..|rels| - 1], gen), gen, rels[|rels| - 1])
  }

  /** The grouped map holds exactly the non-empty link groups, each with its links in relation order. */
  lemma {:induction false} GroupedLinks(rels: seq<Relation>, gen: map<int, int>)
    ensures forall k :: k in Grouped(rels, gen) <==> LinkPairs(rels, gen, k.0, k.1) != []
    ensures forall k :: k in Grouped(rels, gen) ==> Grouped(rels, gen)[k] == LinkPairs(rels, gen, k.0, k.1)
    decreases |rels|
  {
    if rels != [] {
      var i := |rels| - 1;
      GroupedLinks(rels[..i], gen);
      AddLinkGroups(rels, gen, i, Grouped(rels[..i], gen));
      assert rels[..i + 1] == rels;
    }
  }

  /** Lines 300-306: the child links grouped by (parent generation, child generation). */
  method GroupLinks(rels: seq<Relation>, gen: map<int, int>) returns (links: map<(int, int), seq<(int, int)>>)
    ensures forall k :: k in links <==> LinkPairs(rels, gen, k.0, k.1) != []
    ensures forall k :: k in links ==> links[k] == LinkPairs(rels, gen, k.0, k.1)
  {
    links := map[];
    for i := 0 to |rels|
      invariant links == Grouped(rels[..i], gen)
    {
      var r := rels[i];
      assert rels[..i + 1][..i] == rels[..i];
      if r.kind == Child {
        var pg := GenOr(gen, r.from, 0);
        var cg := GenOr(gen, r.to, pg + 1);
        var k := (pg, cg);
        links := links[k := if k in links then links[k] + [(r.from, r.to)] else [(r.from, r.to)]];
      }
    }
    assert rels[..|rels|] == rels;
    GroupedLinks(rels, gen);
  }

  /**
   * The parent generation of every link group has a baseline, so the
   * lookup `$genLineY[$pg]` always finds one when relations join members.
   */
  lemma ParentLineDefined(m: map<int, Member>, heights: map<int, int>, gen: map<int, int>, order: seq<int>, rels: seq<Relation>, pg: int, cg: int)
    requires Measured(m, heights, order) && Anchored(rels, m.Keys)
    requires forall id :: id in m ==> id in order
    requires LinkPairs(rels, gen, pg, cg) != []
    ensures pg in LineYs(m, heights, gen, order)
  {
    LinkPairsFrom(rels, gen, pg, cg, 0);
    var j :| 0 <= j < |rels| && rels[j].kind == Child && (rels[j].from, rels[j].to) == LinkPairs(rels, gen, pg, cg)[0] && ParentGen(gen, rels[j]) == pg;
    var p := rels[j].from;
    assert p in order;
    var i :| 0 <= i < |order| && order[i] == p;
    Baselines(m, heights, gen, order);
  }

  /** `min($xs)`. */
  function SeqMin(xs: seq<real>): (r: real)
    requires xs != []
    ensures r in xs && forall i :: 0 <= i < |xs| ==> r <= xs[i]
  {
    if |xs| == 1 then xs[0]
    else
      var rest := SeqMin(xs[1..]);
      assert forall i :: 1 <= i < |xs| ==> xs[i] == xs[1..][i - 1];
      if xs[0] <= rest then xs[0] else rest
  }

  /** `max($xs)`. */
  function SeqMax(xs: seq<real>): (r: real)
    requires xs != []
    ensures r in xs && forall i :: 0 <= i < |xs| ==> xs[i] <= r
  {
    if |xs| == 1 then xs[0]
    else
      var rest := SeqMax(xs[1..]);
      assert forall i :: 1 <= i < |xs| ==> xs[i] == xs[1..][i - 1];
      if rest <= xs[0] then xs[0] else rest
  }

  /** The box midpoints of the parents (`end` 0) or the children (`end` 1) of `pairs`, in pair order. */
  function Midpoints(m: map<int, Member>, pairs: seq<(int, int)>, end: int): (xs: seq<real>)
    ensures |xs| == |pairs|
  {
    seq(|pairs|, i requires 0 <= i < |pairs| => XOf(m, if end == 0 then pairs[i].0 else pairs[i].1) + HalfBox)
  }

  /** `$xMid` of a group: halfway between the leftmost and rightmost midpoint of its parents and children. */
  function TrunkMid(m: map<int, Member>, pairs: seq<(int, int)>): real
    requires pairs != []
  {
    var span := Midpoints(m, pairs, 0) + Midpoints(m, pairs, 1);
    (SeqMin(span) + SeqMax(span)) / 2.0
  }

  /**
   * Lines 310-325 for one group: the parent and child midpoints, and the
   * trunk x halfway between the leftmost and the rightmost of them all.
   */
  method Trunk(m: map<int, Member>, pairs: seq<(int, int)>) returns (parentXs: seq<real>, childXs: seq<real>, xMid: real)
    requires pairs != []
    ensures parentXs == Midpoints(m, pairs, 0) && childXs == Midpoints(m, pairs, 1)
    ensures xMid == TrunkMid(m, pairs)
  {
    parentXs, childXs := [], [];
    for i := 0 to |pairs|
      invariant parentXs == Midpoints(m, pairs[..i], 0) && childXs == Midpoints(m, pairs[..i], 1)
    {
      var (p, c) := pairs[i];
      parentXs := parentXs + [XOf(m, p) + HalfBox];
      childXs := childXs + [XOf(m, c) + HalfBox];
    }
    assert pairs[..|pairs|] == pairs;
    var span := parentXs + childXs;
    xMid := (SeqMin(span) + SeqMax(span)) / 2.0;
  }

  /** Lines 308-325: the trunk x of every link group. */
  method Trunks(m: map<int, Member>, links: map<(int, int), seq<(int, int)>>) returns (trunks: map<(int, int), real>)
    requires forall k :: k in links ==> links[k] != []
    ensures forall k :: k in trunks <==> k in links
    ensures forall k :: k in trunks ==> trunks[k] == TrunkMid(m, links[k])
  {
    trunks := map[];
    var rest := links.Keys;
    while rest != {}
      invariant rest <= links.Keys
      invariant forall k :: k in trunks <==> k in links && k !in rest
      invariant forall k :: k in trunks ==> trunks[k] == TrunkMid(m, links[k])
      decreases rest
    {
      ghost var some := Element(rest);
      var k :| k in rest;
      var parentXs, childXs, xMid := Trunk(m, links[k]);
      trunks := trunks[k := xMid];
      rest := rest - {k};
    }
  }

  /**
   * The trunk of a group is equally far from its leftmost and rightmost
   * attachment points, and every parent and child midpoint is within half
   * the span of it: no stub reaches past the outermost boxes.
   */
  lemma TrunkCentred(m: map<int, Member>, pairs: seq<(int, int)>)
    requires pairs != []
    ensures var span := Midpoints(m, pairs, 0) + Midpoints(m, pairs, 1);
      var lo, hi := SeqMin(span), SeqMax(span);
      var x := TrunkMid(m, pairs);
      && lo <= x <= hi && x - lo == hi - x
      && forall i :: 0 <= i < |span| ==> lo <= span[i] <= hi && (span[i] - x <= x - lo && x - span[i] <= hi - x)
  {
  }
}
