/**
 * The member table and relation list of a family tree, and the symmetric
 * adjacency tables that generation inference builds from the relation list.
 */
module Graph {

  /** The relation kinds the layout recognises; any other label is stored and ignored. */
  datatype Kind = Child | Spouse | Sibling | Unrecognised(name: string)

  /** A directed relation record; `Child` reads as from = parent, to = child. */
  datatype Relation = Relation(from: int, to: int, kind: Kind)

  /** A member row. `x` and `y` are layout outputs and stay 0 until layout runs. */
  datatype Member = Member(id: int, name: string, tag: string, x: real, y: int)

  /** Generation (row) index per member id. */
  type Generations = map<int, int>

  /** `id` is an endpoint of some child, spouse or sibling relation. */
  ghost predicate Related(rels: seq<Relation>, id: int)
  {
    exists i :: 0 <= i < |rels| && !rels[i].kind.Unrecognised? && (rels[i].from == id || rels[i].to == id)
  }

  /** `r` is of kind `k` and joins `a` and `b`, in either direction. */
  predicate Joins(r: Relation, k: Kind, a: int, b: int)
  {
    r.kind == k && ((r.from == a && r.to == b) || (r.from == b && r.to == a))
  }

  /** Some relation of kind `k` joins `a` and `b`. */
  ghost predicate Linked(rels: seq<Relation>, k: Kind, a: int, b: int)
  {
    exists i :: 0 <= i < |rels| && Joins(rels[i], k, a, b)
  }

  /** No value occurs twice in `s`. */
  predicate Distinct(s: seq<int>)
  {
    forall i, j :: 0 <= i < j < |s| ==> s[i] != s[j]
  }

  /** Some element of a non-empty set; loops that drain a set use it as the witness for their choice. */
  lemma Element<T>(s: set<T>) returns (x: T)
    requires s != {}
    ensures x in s
  {
    if forall y :: y !in s {
      assert false;
    }
    x :| x in s;
  }

  function AddKey(keys: seq<int>, a: int): (r: seq<int>)
    ensures Distinct(keys) ==> Distinct(r)
    ensures forall b :: b in r <==> b in keys || b == a
  {
    if a in keys then keys else keys + [a]
  }

  /**
   * The keys of the adjacency table for kind `k`, in the order an ordered
   * hash map first sees them: every matching relation appends its `to` under
   * its `from` and then its `from` under its `to`.
   */
  function AdjKeys(rels: seq<Relation>, k: Kind): (keys: seq<int>)
    ensures Distinct(keys)
  {
    if rels == [] then []
    else
      var r := rels[|rels| - 1];
      var keys := AdjKeys(rels[..|rels| - 1], k);
      if r.kind == k then AddKey(AddKey(keys, r.from), r.to) else keys
  }

  /** The neighbour list stored under `a` in the adjacency table for kind `k`. */
  function Neighbours(rels: seq<Relation>, k: Kind, a: int): seq<int>
  {
    if rels == [] then []
    else
      var r := rels[|rels| - 1];
      Neighbours(rels[..|rels| - 1], k, a) + Contribution(r, k, a)
  }

  /** What one relation appends under `a`: its `to` if `a` is its `from`, then its `from` if `a` is its `to`. */
  function Contribution(r: Relation, k: Kind, a: int): (bs: seq<int>)
    ensures forall b :: b in bs <==> Joins(r, k, a, b)
  {
    if r.kind != k then []
    else (if r.from == a then [r.to] else []) + (if r.to == a then [r.from] else [])
  }

  /** The whole adjacency table for kind `k`. */
  function AdjMap(rels: seq<Relation>, k: Kind): map<int, seq<int>>
  {
    map a | a in AdjKeys(rels, k) :: Neighbours(rels, k, a)
  }

  /** The pairs `(a, b)` for each neighbour `b` in `bs`, in order. */
  function Fan(a: int, bs: seq<int>): (r: seq<(int, int)>)
    ensures forall p :: p in r <==> p.0 == a && p.1 in bs
  {
    if bs == [] then [] else [(a, bs[0])] + Fan(a, bs[1..])
  }

  /** The pairs a nested `foreach ($adj as $a => $neis) foreach ($neis as $b)` visits. */
  function Flatten(keys: seq<int>, adj: map<int, seq<int>>): seq<(int, int)>
    requires forall a :: a in keys ==> a in adj
  {
    if keys == [] then [] else Fan(keys[0], adj[keys[0]]) + Flatten(keys[1..], adj)
  }

  /** The visiting order of the symmetric pairs of kind `k`. */
  function AdjPairs(rels: seq<Relation>, k: Kind): seq<(int, int)>
  {
    Flatten(AdjKeys(rels, k), AdjMap(rels, k))
  }

  lemma {:induction false} FlattenHas(keys: seq<int>, adj: map<int, seq<int>>, a: int, b: int)
    requires forall c :: c in keys ==> c in adj
    ensures (a, b) in Flatten(keys, adj) <==> a in keys && b in adj[a]
  {
    if keys != [] {
      FlattenHas(keys[1..], adj, a, b);
    }
  }

  lemma {:induction false} NeighboursLinked(rels: seq<Relation>, k: Kind, a: int, b: int)
    ensures b in Neighbours(rels, k, a) <==> Linked(rels, k, a, b)
  {
    if rels != [] {
      var n := |rels| - 1;
      var init := rels[..n];
      NeighboursLinked(init, k, a, b);
      if Linked(init, k, a, b) {
        var i :| 0 <= i < |init| && Joins(init[i], k, a, b);
        assert rels[i] == init[i];
      }
      if Joins(rels[n], k, a, b) {
        assert Linked(rels, k, a, b);
      }
      if Linked(rels, k, a, b) {
        var i :| 0 <= i < |rels| && Joins(rels[i], k, a, b);
        if i < n {
          assert init[i] == rels[i];
        }
      }
    }
  }

  lemma {:induction false} AdjKeysRelated(rels: seq<Relation>, k: Kind, a: int)
    ensures a in AdjKeys(rels, k) <==> Neighbours(rels, k, a) != []
  {
    if rels != [] {
      AdjKeysRelated(rels[..|rels| - 1], k, a);
    }
  }

  /**
   * The adjacency tables visit exactly the pairs joined by a relation of
   * kind `k`, each relation in both directions.
   */
  lemma AdjPairsLinked(rels: seq<Relation>, k: Kind, a: int, b: int)
    ensures (a, b) in AdjPairs(rels, k) <==> Linked(rels, k, a, b)
  {
    FlattenHas(AdjKeys(rels, k), AdjMap(rels, k), a, b);
    NeighboursLinked(rels, k, a, b);
    AdjKeysRelated(rels, k, a);
  }

  /** `keys` and `adj` hold the adjacency table of kind `k` for `rels`. */
  ghost predicate Represents(keys: seq<int>, adj: map<int, seq<int>>, rels: seq<Relation>, k: Kind)
  {
    && keys == AdjKeys(rels, k)
    && (forall a :: a in adj <==> a in keys)
    && (forall a :: a in adj ==> adj[a] == Neighbours(rels, k, a))
  }

  /** `$adj[$a][] = $b`: appends `b` to the list under `a`, creating it if absent. */
  function Put<V>(adj: map<int, seq<V>>, a: int, b: V): map<int, seq<V>>
  {
    adj[a := if a in adj then adj[a] + [b] else [b]]
  }

  lemma NeighboursSnoc(rels: seq<Relation>, r: Relation, k: Kind, a: int)
    ensures Neighbours(rels + [r], k, a) == Neighbours(rels, k, a) + Contribution(r, k, a)
    ensures AdjKeys(rels + [r], k) == if r.kind == k then AddKey(AddKey(AdjKeys(rels, k), r.from), r.to) else AdjKeys(rels, k)
  {
    var rels' := rels + [r];
    assert rels'[..|rels'| - 1] == rels;
  }

  lemma AppendRepresents(keys: seq<int>, adj: map<int, seq<int>>, rels: seq<Relation>, r: Relation)
    requires Represents(keys, adj, rels, r.kind)
    ensures Represents(AddKey(AddKey(keys, r.from), r.to), Put(Put(adj, r.from, r.to), r.to, r.from), rels + [r], r.kind)
  {
    var k := r.kind;
    AdjKeysRelated(rels, k, r.from);
    AdjKeysRelated(rels, k, r.to);
    NeighboursSnoc(rels, r, k, r.from);
    var adj2 := Put(Put(adj, r.from, r.to), r.to, r.from);
    forall a | a in adj2
      ensures adj2[a] == Neighbours(rels + [r], k, a)
    {
      AdjKeysRelated(rels, k, a);
      var before := if a in adj then adj[a] else [];
      NeighboursSnoc(rels, r, k, a);
      AppendEntry(adj, r, a, before, Neighbours(rels, k, a), Neighbours(rels + [r], k, a));
    }
  }

  /** The list under one key after appending `r`: the old list followed by what `r` contributes. */
  lemma AppendEntry(adj: map<int, seq<int>>, r: Relation, a: int, before: seq<int>, olds: seq<int>, news: seq<int>)
    requires before == (if a in adj then adj[a] else [])
    requires before == olds && news == olds + Contribution(r, r.kind, a)
    ensures var adj2 := Put(Put(adj, r.from, r.to), r.to, r.from);
      a in adj2 ==> adj2[a] == news
  {
    PutTwice(adj, r.from, r.to, a);
    var front := if r.from == a then [r.to] else [];
    var back := if r.to == a then [r.from] else [];
    assert Contribution(r, r.kind, a) == front + back;
    assert before + front + back == before + (front + back);
  }

  /** Appending `b` under `a` and then `a` under `b`, seen from one key `c`. */
  lemma PutTwice(adj: map<int, seq<int>>, a: int, b: int, c: int)
    ensures var adj2 := Put(Put(adj, a, b), b, a);
      && (c in adj2 <==> c in adj || c == a || c == b)
      && (c in adj2 ==> adj2[c] == (if c in adj then adj[c] else []) + (if c == a then [b] else []) + (if c == b then [a] else []))
  {
    var before := if c in adj then adj[c] else [];
    assert before + [] == before;
    if c == a && c == b {
      assert before + [b] + [a] == before + [b, a];
    }
  }

  lemma SkipRepresents(keys: seq<int>, adj: map<int, seq<int>>, rels: seq<Relation>, r: Relation, k: Kind)
    requires Represents(keys, adj, rels, k) && r.kind != k
    ensures Represents(keys, adj, rels + [r], k)
  {
    var rels' := rels + [r];
    assert rels'[..|rels'| - 1] == rels;
  }

  /** The adjacency table reached from `keys` and `adj` by appending the relations of `rest` in order. */
  function Replay(keys: seq<int>, adj: map<int, seq<int>>, rest: seq<Relation>, k: Kind): (seq<int>, map<int, seq<int>>)
    decreases rest
  {
    if rest == [] then (keys, adj)
    else
      var r := rest[0];
      if r.kind == k then Replay(AddKey(AddKey(keys, r.from), r.to), Put(Put(adj, r.from, r.to), r.to, r.from), rest[1..], k)
      else Replay(keys, adj, rest[1..], k)
  }

  lemma {:induction false} ReplayRepresents(keys: seq<int>, adj: map<int, seq<int>>, done: seq<Relation>, rest: seq<Relation>, k: Kind)
    requires Represents(keys, adj, done, k)
    ensures Represents(Replay(keys, adj, rest, k).0, Replay(keys, adj, rest, k).1, done + rest, k)
    decreases rest
  {
    if rest != [] {
      var r := rest[0];
      assert done + rest == (done + [r]) + rest[1..];
      if r.kind == k {
        AppendRepresents(keys, adj, done, r);
        ReplayRepresents(AddKey(AddKey(keys, r.from), r.to), Put(Put(adj, r.from, r.to), r.to, r.from), done + [r], rest[1..], k);
      } else {
        SkipRepresents(keys, adj, done, r, k);
        ReplayRepresents(keys, adj, done + [r], rest[1..], k);
      }
    } else {
      assert done + rest == done;
    }
  }

  /** Replaying every relation from an empty table yields the adjacency table of kind `k`. */
  lemma ReplayAdjacency(rels: seq<Relation>, k: Kind)
    ensures Replay([], map[], rels, k) == (AdjKeys(rels, k), AdjMap(rels, k))
  {
    ReplayRepresents([], map[], [], rels, k);
    assert [] + rels == rels;
    var (keys, adj) := Replay([], map[], rels, k);
    assert Represents(keys, adj, rels, k);
    assert forall a :: a in adj <==> a in AdjMap(rels, k);
    assert adj == AdjMap(rels, k);
  }

  /** The visiting order of the pairs of kind `k`, read off a replayed table. */
  lemma ReplayPairs(rels: seq<Relation>, k: Kind, keys: seq<int>, adj: map<int, seq<int>>)
    requires Replay([], map[], rels, k) == (keys, adj)
    ensures forall a :: a in keys ==> a in adj
    ensures AdjPairs(rels, k) == Flatten(keys, adj)
  {
    ReplayAdjacency(rels, k);
  }

  /** Builds the adjacency table for kind `k` one relation at a time. */
  method BuildAdjacency(rels: seq<Relation>, k: Kind) returns (keys: seq<int>, adj: map<int, seq<int>>)
    ensures keys == AdjKeys(rels, k)
    ensures adj == AdjMap(rels, k)
  {
    keys, adj := [], map[];
    for i := 0 to |rels|
      invariant Represents(keys, adj, rels[..i], k)
    {
      assert rels[..i + 1] == rels[..i] + [rels[i]];
      var r := rels[i];
      if r.kind == k {
        AppendRepresents(keys, adj, rels[..i], r);
        adj, keys := Put(adj, r.from, r.to), AddKey(keys, r.from);
        adj, keys := Put(adj, r.to, r.from), AddKey(keys, r.to);
      } else {
        SkipRepresents(keys, adj, rels[..i], r, k);
      }
    }
    assert rels[..|rels|] == rels;
    assert forall a :: a in adj <==> a in AdjMap(rels, k);
  }
}
