/**
 * Generation inference (classes/FamilyTree.php:33-114): a bounded
 * fixed-point iteration that gives every member a row index. Child edges
 * push a child one row below its parent; spouse and sibling edges pull the
 * two ends to the larger of their rows.
 */
module Generations {
  import opened Graph

  /** The pass budget of the fixed-point loop. */
  const MaxPasses: nat := 8

  function Max(a: int, b: int): (m: int)
    ensures m >= a && m >= b && (m == a || m == b)
  {
    if a < b then b else a
  }

  /** `h` keeps every generation of `g` or raises it, and may add new ones. */
  ghost predicate Extends(g: Generations, h: Generations)
  {
    g.Keys <= h.Keys && forall k :: k in g ==> g[k] <= h[k]
  }

  /** `h` keeps every generation of `g` unchanged, and may add new ones. */
  ghost predicate Agrees(g: Generations, h: Generations)
  {
    g.Keys <= h.Keys && forall k :: k in g ==> g[k] == h[k]
  }

  ghost predicate NonNegative(g: Generations)
  {
    forall k :: k in g ==> g[k] >= 0
  }

  /** Every id that `g` assigns is an endpoint of a recognised relation. */
  ghost predicate OnlyRelated(g: Generations, rels: seq<Relation>)
  {
    forall k :: k in g ==> Related(rels, k)
  }

  /** `a` and `b` are both unassigned, or both assigned the same generation. */
  ghost predicate Level(g: Generations, a: int, b: int)
  {
    (a in g <==> b in g) && (a in g ==> g[a] == g[b])
  }

  /**
   * What a pass that changes nothing leaves behind: every child sits at
   * least one row below each of its parents, and the ends of every spouse
   * and sibling relation are level.
   */
  ghost predicate Settled(rels: seq<Relation>, g: Generations)
  {
    forall i :: 0 <= i < |rels| ==>
      match rels[i].kind
      case Child => rels[i].from in g && rels[i].to in g && g[rels[i].to] >= g[rels[i].from] + 1
      case Spouse => Level(g, rels[i].from, rels[i].to)
      case Sibling => Level(g, rels[i].from, rels[i].to)
      case Unrecognised(_) => true
  }

  /** Every recognised relation has both ends in `ids`. */
  ghost predicate EndpointsIn(rels: seq<Relation>, ids: set<int>)
  {
    forall i :: 0 <= i < |rels| && !rels[i].kind.Unrecognised? ==> rels[i].from in ids && rels[i].to in ids
  }

  /** The constraints of a converged inference, over a total map. */
  ghost predicate Consistent(rels: seq<Relation>, g: Generations)
  {
    forall i :: 0 <= i < |rels| ==>
      match rels[i].kind
      case Child => rels[i].from in g && rels[i].to in g && g[rels[i].to] >= g[rels[i].from] + 1
      case Spouse => rels[i].from in g && rels[i].to in g && g[rels[i].from] == g[rels[i].to]
      case Sibling => rels[i].from in g && rels[i].to in g && g[rels[i].from] == g[rels[i].to]
      case Unrecognised(_) => true
  }

  /** One child edge (lines 57-65): seed an unassigned parent at 0, then raise the child to parent + 1. */
  function ChildStep(g: Generations, changed: bool, r: Relation): (Generations, bool)
  {
    if r.kind != Child then (g, changed)
    else
      var seeded := if r.from in g then g else g[r.from := 0];
      var candidate := seeded[r.from] + 1;
      if r.to !in seeded || seeded[r.to] < candidate then (seeded[r.to := candidate], true)
      else (seeded, changed)
  }

  function ChildPhase(g: Generations, changed: bool, rels: seq<Relation>): (Generations, bool)
    decreases |rels|
  {
    if rels == [] then (g, changed)
    else
      var (g1, c1) := ChildStep(g, changed, rels[0]);
      ChildPhase(g1, c1, rels[1..])
  }

  /** One symmetric pair (lines 70-84 and 91-103): copy a lone generation across, or lift both to the larger. */
  function EqualizeStep(g: Generations, changed: bool, ab: (int, int)): (Generations, bool)
  {
    var (a, b) := ab;
    if a in g && b !in g then (g[b := g[a]], true)
    else if a !in g && b in g then (g[a := g[b]], true)
    else if a in g && b in g then
      var m := Max(g[a], g[b]);
      if g[a] != m || g[b] != m then (g[a := m][b := m], true) else (g, changed)
    else (g, changed)
  }

  function EqualizePhase(g: Generations, changed: bool, pairs: seq<(int, int)>): (Generations, bool)
    decreases |pairs|
  {
    if pairs == [] then (g, changed)
    else
      var (g1, c1) := EqualizeStep(g, changed, pairs[0]);
      EqualizePhase(g1, c1, pairs[1..])
  }

  /** One pass of the loop body (lines 55-105); the flag says whether anything was raised or copied. */
  function Pass(g: Generations, rels: seq<Relation>): (Generations, bool)
  {
    var (g1, c1) := ChildPhase(g, false, rels);
    var (g2, c2) := EqualizePhase(g1, c1, AdjPairs(rels, Spouse));
    EqualizePhase(g2, c2, AdjPairs(rels, Sibling))
  }

  /** Where the pass loop stops: the map, the passes run, and whether the last pass changed nothing. */
  datatype Outcome = Outcome(gen: Generations, passes: nat, converged: bool)

  /** The loop `for ($pass = 0; $pass < 8 && $changed; $pass++)` from pass `pass` on. */
  function Iterate(g: Generations, pass: nat, changed: bool, rels: seq<Relation>): (o: Outcome)
    requires pass <= MaxPasses
    decreases MaxPasses - pass
    ensures pass <= o.passes <= MaxPasses
    ensures !o.converged ==> o.passes == MaxPasses
    ensures o.converged ==> !changed || o.passes > pass
    ensures Extends(g, o.gen)
  {
    if pass < MaxPasses && changed then
      var (g1, c1) := Pass(g, rels);
      PassExtends(g, rels);
      Iterate(g1, pass + 1, c1, rels)
    else
      Outcome(g, pass, !changed)
  }

  /** Lines 109-111: every member the loop left unassigned gets generation 0. */
  function Fallback(g: Generations, ids: set<int>): (h: Generations)
    ensures h.Keys == g.Keys + ids
    ensures Agrees(g, h)
    ensures forall k :: k in ids && k !in g ==> h[k] == 0
  {
    map k | k in g.Keys + ids :: if k in g then g[k] else 0
  }

  /** The generation map `inferGenerations` returns for members `ids`. */
  function Infer(ids: set<int>, rels: seq<Relation>): (gen: Generations)
    ensures ids <= gen.Keys
    ensures forall k :: k in gen ==> gen[k] >= 0
  {
    var o := Iterate(map[], 0, true, rels);
    IterateSound(map[], 0, true, rels);
    Fallback(o.gen, ids)
  }

  /** Whether the pass loop stopped because a pass changed nothing. */
  ghost predicate Converges(rels: seq<Relation>)
  {
    Iterate(map[], 0, true, rels).converged
  }

  // ---------------------------------------------------------------------
  // Monotonicity: no pass ever lowers or removes a generation.

  lemma ExtendsTransitive(f: Generations, g: Generations, h: Generations)
    requires Extends(f, g) && Extends(g, h)
    ensures Extends(f, h)
  {
  }

  lemma {:induction false} ChildPhaseExtends(g: Generations, changed: bool, rels: seq<Relation>)
    ensures Extends(g, ChildPhase(g, changed, rels).0)
    decreases |rels|
  {
    if rels != [] {
      var (g1, c1) := ChildStep(g, changed, rels[0]);
      ChildPhaseExtends(g1, c1, rels[1..]);
      ExtendsTransitive(g, g1, ChildPhase(g, changed, rels).0);
    }
  }

  lemma {:induction false} EqualizePhaseExtends(g: Generations, changed: bool, pairs: seq<(int, int)>)
    ensures Extends(g, EqualizePhase(g, changed, pairs).0)
    decreases |pairs|
  {
    if pairs != [] {
      var (g1, c1) := EqualizeStep(g, changed, pairs[0]);
      EqualizePhaseExtends(g1, c1, pairs[1..]);
      ExtendsTransitive(g, g1, EqualizePhase(g, changed, pairs).0);
    }
  }

  /** A pass only raises generations or assigns new ones (the monotonicity the loop relies on). */
  lemma PassExtends(g: Generations, rels: seq<Relation>)
    ensures Extends(g, Pass(g, rels).0)
  {
    var (g1, c1) := ChildPhase(g, false, rels);
    ChildPhaseExtends(g, false, rels);
    var (g2, c2) := EqualizePhase(g1, c1, AdjPairs(rels, Spouse));
    EqualizePhaseExtends(g1, c1, AdjPairs(rels, Spouse));
    EqualizePhaseExtends(g2, c2, AdjPairs(rels, Sibling));
    ExtendsTransitive(g, g1, g2);
    ExtendsTransitive(g, g2, Pass(g, rels).0);
  }

  // ---------------------------------------------------------------------
  // Soundness: assigned generations are non-negative and belong to related ids.

  ghost predicate Sound(g: Generations, rels: seq<Relation>)
  {
    NonNegative(g) && OnlyRelated(g, rels)
  }

  lemma {:induction false} ChildPhaseSound(g: Generations, changed: bool, part: seq<Relation>, rels: seq<Relation>)
    requires forall r :: r in part ==> r in rels
    requires Sound(g, rels)
    ensures Sound(ChildPhase(g, changed, part).0, rels)
    decreases |part|
  {
    if part != [] {
      var r := part[0];
      assert r in rels;
      if r.kind == Child {
        var i :| 0 <= i < |rels| && rels[i] == r;
        assert Related(rels, r.from) && Related(rels, r.to);
      }
      var (g1, c1) := ChildStep(g, changed, r);
      ChildPhaseSound(g1, c1, part[1..], rels);
    }
  }

  lemma {:induction false} EqualizePhaseSound(g: Generations, changed: bool, pairs: seq<(int, int)>, rels: seq<Relation>)
    requires forall p :: p in pairs ==> Related(rels, p.0) && Related(rels, p.1)
    requires Sound(g, rels)
    ensures Sound(EqualizePhase(g, changed, pairs).0, rels)
    decreases |pairs|
  {
    if pairs != [] {
      assert pairs[0] in pairs;
      var (g1, c1) := EqualizeStep(g, changed, pairs[0]);
      EqualizePhaseSound(g1, c1, pairs[1..], rels);
    }
  }

  lemma PairsRelated(rels: seq<Relation>, k: Kind)
    requires !k.Unrecognised?
    ensures forall p :: p in AdjPairs(rels, k) ==> Related(rels, p.0) && Related(rels, p.1)
  {
    forall p | p in AdjPairs(rels, k)
      ensures Related(rels, p.0) && Related(rels, p.1)
    {
      AdjPairsLinked(rels, k, p.0, p.1);
      var i :| 0 <= i < |rels| && Joins(rels[i], k, p.0, p.1);
    }
  }

  lemma PassSound(g: Generations, rels: seq<Relation>)
    requires Sound(g, rels)
    ensures Sound(Pass(g, rels).0, rels)
  {
    var (g1, c1) := ChildPhase(g, false, rels);
    ChildPhaseSound(g, false, rels, rels);
    PairsRelated(rels, Spouse);
    PairsRelated(rels, Sibling);
    var (g2, c2) := EqualizePhase(g1, c1, AdjPairs(rels, Spouse));
    EqualizePhaseSound(g1, c1, AdjPairs(rels, Spouse), rels);
    EqualizePhaseSound(g2, c2, AdjPairs(rels, Sibling), rels);
  }

  /** One turn of the pass loop: while the budget lasts and the last pass changed something, run another pass. */
  lemma IterateStep(g: Generations, pass: nat, rels: seq<Relation>)
    requires pass < MaxPasses
    ensures Iterate(g, pass, true, rels) == Iterate(Pass(g, rels).0, pass + 1, Pass(g, rels).1, rels)
  {
  }

  lemma {:induction false} IterateSound(g: Generations, pass: nat, changed: bool, rels: seq<Relation>)
    requires pass <= MaxPasses
    requires Sound(g, rels)
    ensures Sound(Iterate(g, pass, changed, rels).gen, rels)
    decreases MaxPasses - pass
  {
    if pass < MaxPasses && changed {
      PassSound(g, rels);
      IterateStep(g, pass, rels);
      IterateSound(Pass(g, rels).0, pass + 1, Pass(g, rels).1, rels);
    }
  }

  /**
   * Totality and the default: every member gets a generation, none is
   * negative, and a member outside every recognised relation gets 0.
   */
  lemma InferTotal(ids: set<int>, rels: seq<Relation>)
    ensures Infer(ids, rels).Keys >= ids
    ensures forall id :: id in Infer(ids, rels) ==> Infer(ids, rels)[id] >= 0
    ensures forall id :: id in ids && !Related(rels, id) ==> Infer(ids, rels)[id] == 0
  {
    IterateSound(map[], 0, true, rels);
  }

  // ---------------------------------------------------------------------
  // Convergence: a pass that changes nothing leaves the constraints satisfied.

  lemma {:induction false} ChildPhaseQuiet(g: Generations, changed: bool, part: seq<Relation>)
    ensures var (h, c) := ChildPhase(g, changed, part);
      !c ==> (!changed && Agrees(g, h) &&
              forall r :: r in part && r.kind == Child ==> r.from in h && r.to in h && h[r.to] >= h[r.from] + 1)
    decreases |part|
  {
    if part != [] {
      var (g1, c1) := ChildStep(g, changed, part[0]);
      ChildPhaseQuiet(g1, c1, part[1..]);
      var (h, c) := ChildPhase(g, changed, part);
      if !c {
        assert forall r :: r in part ==> r == part[0] || r in part[1..];
      }
    }
  }

  lemma {:induction false} EqualizePhaseQuiet(g: Generations, changed: bool, pairs: seq<(int, int)>)
    ensures var (h, c) := EqualizePhase(g, changed, pairs);
      !c ==> (!changed && h == g && forall p :: p in pairs ==> Level(g, p.0, p.1))
    decreases |pairs|
  {
    if pairs != [] {
      var (g1, c1) := EqualizeStep(g, changed, pairs[0]);
      EqualizePhaseQuiet(g1, c1, pairs[1..]);
      var (h, c) := EqualizePhase(g, changed, pairs);
      if !c {
        assert forall p :: p in pairs ==> p == pairs[0] || p in pairs[1..];
      }
    }
  }

  /** A pass that changes nothing ends in a settled map. */
  lemma PassQuiet(g: Generations, rels: seq<Relation>)
    ensures !Pass(g, rels).1 ==> Settled(rels, Pass(g, rels).0)
  {
    var (g1, c1) := ChildPhase(g, false, rels);
    ChildPhaseQuiet(g, false, rels);
    var (g2, c2) := EqualizePhase(g1, c1, AdjPairs(rels, Spouse));
    EqualizePhaseQuiet(g1, c1, AdjPairs(rels, Spouse));
    var (g3, c3) := EqualizePhase(g2, c2, AdjPairs(rels, Sibling));
    EqualizePhaseQuiet(g2, c2, AdjPairs(rels, Sibling));
    if !c3 {
      forall i | 0 <= i < |rels|
        ensures match rels[i].kind
          case Child => rels[i].from in g3 && rels[i].to in g3 && g3[rels[i].to] >= g3[rels[i].from] + 1
          case Spouse => Level(g3, rels[i].from, rels[i].to)
          case Sibling => Level(g3, rels[i].from, rels[i].to)
          case Unrecognised(_) => true
      {
        var r := rels[i];
        if r.kind == Child {
          assert r in rels;
        } else if r.kind == Spouse {
          assert Joins(rels[i], Spouse, r.from, r.to);
          AdjPairsLinked(rels, Spouse, r.from, r.to);
        } else if r.kind == Sibling {
          assert Joins(rels[i], Sibling, r.from, r.to);
          AdjPairsLinked(rels, Sibling, r.from, r.to);
        }
      }
    }
  }

  lemma {:induction false} IterateSettles(g: Generations, pass: nat, changed: bool, rels: seq<Relation>)
    requires pass <= MaxPasses
    requires !changed ==> Settled(rels, g)
    ensures Iterate(g, pass, changed, rels).converged ==> Settled(rels, Iterate(g, pass, changed, rels).gen)
    decreases MaxPasses - pass
  {
    if pass < MaxPasses && changed {
      PassQuiet(g, rels);
      IterateStep(g, pass, rels);
      IterateSettles(Pass(g, rels).0, pass + 1, Pass(g, rels).1, rels);
    }
  }

  /**
   * Convergence implies the constraints: when the loop stopped because a
   * pass changed nothing, and every relation joins members, each child is at
   * least one generation below each parent and every spouse or sibling pair
   * shares a generation.
   */
  lemma InferConsistent(ids: set<int>, rels: seq<Relation>)
    requires Converges(rels)
    requires EndpointsIn(rels, ids)
    ensures Consistent(rels, Infer(ids, rels))
  {
    var o := Iterate(map[], 0, true, rels);
    IterateSettles(map[], 0, true, rels);
    var gen := Infer(ids, rels);
    forall i | 0 <= i < |rels|
      ensures match rels[i].kind
        case Child => rels[i].from in gen && rels[i].to in gen && gen[rels[i].to] >= gen[rels[i].from] + 1
        case Spouse => rels[i].from in gen && rels[i].to in gen && gen[rels[i].from] == gen[rels[i].to]
        case Sibling => rels[i].from in gen && rels[i].to in gen && gen[rels[i].from] == gen[rels[i].to]
        case Unrecognised(_) => true
    {
    }
  }

  // ---------------------------------------------------------------------
  // The loop itself.

  lemma FanStep(a: int, neis: seq<int>, j: nat, tail: seq<(int, int)>)
    requires j < |neis|
    ensures Fan(a, neis[j..]) + tail == [(a, neis[j])] + (Fan(a, neis[j + 1..]) + tail)
  {
    assert neis[j..][1..] == neis[j + 1..];
  }

  lemma EqualizeCons(g: Generations, changed: bool, p: (int, int), rest: seq<(int, int)>)
    ensures EqualizePhase(g, changed, [p] + rest)
         == EqualizePhase(EqualizeStep(g, changed, p).0, EqualizeStep(g, changed, p).1, rest)
  {
    assert ([p] + rest)[1..] == rest;
  }

  /** Runs one symmetric-propagation block over an adjacency table built by `BuildAdjacency`. */
  method Equalize(keys: seq<int>, adj: map<int, seq<int>>, gen0: Generations, changed0: bool)
    returns (gen: Generations, changed: bool)
    requires forall a :: a in keys ==> a in adj
    ensures (gen, changed) == EqualizePhase(gen0, changed0, Flatten(keys, adj))
  {
    gen, changed := gen0, changed0;
    ghost var goal := EqualizePhase(gen0, changed0, Flatten(keys, adj));
    for i := 0 to |keys|
      invariant EqualizePhase(gen, changed, Flatten(keys[i..], adj)) == goal
    {
      var a := keys[i];
      var neis := adj[a];
      assert keys[i..][1..] == keys[i + 1..];
      ghost var later := Flatten(keys[i + 1..], adj);
      assert Flatten(keys[i..], adj) == Fan(a, neis[0..]) + later;
      for j := 0 to |neis|
        invariant EqualizePhase(gen, changed, Fan(a, neis[j..]) + later) == goal
      {
        var b := neis[j];
        FanStep(a, neis, j, later);
        EqualizeCons(gen, changed, (a, b), Fan(a, neis[j + 1..]) + later);
        ghost var step := EqualizeStep(gen, changed, (a, b));
        if a in gen && b !in gen {
          gen := gen[b := gen[a]];
          changed := true;
        } else if a !in gen && b in gen {
          gen := gen[a := gen[b]];
          changed := true;
        } else if a in gen && b in gen {
          var m := Max(gen[a], gen[b]);
          if gen[a] != m || gen[b] != m {
            gen := gen[a := m][b := m];
            changed := true;
          }
        }
        assert (gen, changed) == step;
      }
      assert Fan(a, neis[|neis|..]) + later == later;
    }
  }

  /** The child-edge block of one pass (lines 55-66); the flag starts cleared. */
  method PropagateChildren(gen0: Generations, rels: seq<Relation>) returns (gen: Generations, changed: bool)
    ensures (gen, changed) == ChildPhase(gen0, false, rels)
  {
    gen, changed := gen0, false;
    for i := 0 to |rels|
      invariant ChildPhase(gen, changed, rels[i..]) == ChildPhase(gen0, false, rels)
    {
      assert rels[i..][1..] == rels[i + 1..];
      var r := rels[i];
      if r.kind == Child {
        var p, c := r.from, r.to;
        if p !in gen {
          gen := gen[p := 0];
        }
        var newGen := gen[p] + 1;
        if c !in gen || gen[c] < newGen {
          gen := gen[c := newGen];
          changed := true;
        }
      }
    }
  }

  /** The fallback of lines 109-111. */
  method AssignDefaults(looped: Generations, ids: set<int>) returns (gen: Generations)
    ensures gen == Fallback(looped, ids)
  {
    gen := looped;
    var rest := ids;
    while rest != {}
      invariant rest <= ids
      invariant gen == Fallback(looped, ids - rest)
      decreases rest
    {
      ghost var some := Element(rest);
      var k :| k in rest;
      if k !in gen {
        gen := gen[k := 0];
      }
      rest := rest - {k};
    }
    assert ids - rest == ids;
  }

  /** One pass of the loop body (lines 55-105) over prebuilt spouse and sibling tables. */
  method RunPass(gen0: Generations, rels: seq<Relation>, spouseKeys: seq<int>, spouseAdj: map<int, seq<int>>, siblingKeys: seq<int>, siblingAdj: map<int, seq<int>>)
    returns (gen: Generations, changed: bool)
    requires spouseKeys == AdjKeys(rels, Spouse) && spouseAdj == AdjMap(rels, Spouse)
    requires siblingKeys == AdjKeys(rels, Sibling) && siblingAdj == AdjMap(rels, Sibling)
    ensures (gen, changed) == Pass(gen0, rels)
  {
    gen, changed := PropagateChildren(gen0, rels);
    gen, changed := Equalize(spouseKeys, spouseAdj, gen, changed);
    gen, changed := Equalize(siblingKeys, siblingAdj, gen, changed);
  }

  /** `inferGenerations`: the pass loop followed by the fallback to 0. */
  method InferGenerations(ids: set<int>, rels: seq<Relation>) returns (gen: Generations)
    ensures gen == Infer(ids, rels)
  {
    var spouseKeys, spouseAdj := BuildAdjacency(rels, Spouse);
    var siblingKeys, siblingAdj := BuildAdjacency(rels, Sibling);
    gen := map[];
    var changed := true;
    var pass := 0;
    while pass < MaxPasses && changed
      invariant pass <= MaxPasses
      invariant Iterate(gen, pass, changed, rels) == Iterate(map[], 0, true, rels)
      decreases MaxPasses - pass
    {
      IterateStep(gen, pass, rels);
      gen, changed := RunPass(gen, rels, spouseKeys, spouseAdj, siblingKeys, siblingAdj);
      pass := pass + 1;
    }
    gen := AssignDefaults(gen, ids);
  }
}
