/** The consensus DAG of `src/graph/dag.rs`: adjacency lists, their inverse, and chits, kept
    in step by insertion and removal; breadth-first and depth-first traversal; conviction. */
module Dags {
  import opened Basics
  import opened Graphs

  datatype GraphError =
    VertexExists | VacantEntry | UndefinedChit | UndefinedVertex | ChitReplace | ChitOverflow

  /** The value of a DAG: outbound edges (to parents), inbound edges (to children), chits. */
  datatype DagValue = DagValue(g: Graph, inv: Graph, chits: map<Hash, u8>)

  /** `g` and `inv` are exact inverses on the same vertices, and there is no cycle. */
  ghost predicate DagOk(g: Graph, inv: Graph) {
    Inverse(g, inv) && Acyclic(g)
  }

  /** No parent is listed twice. */
  ghost predicate NoRepeats(g: Graph) {
    forall u :: u in g ==> Distinct(g[u])
  }

  // insertion

  /** The position of the first edge that leads nowhere. */
  ghost function FirstMissing(edges: seq<Hash>, known: set<Hash>): (k: nat)
    ensures k <= |edges|
    ensures forall i :: 0 <= i < k ==> edges[i] in known
    ensures k < |edges| ==> edges[k] !in known
  {
    if edges == [] || edges[0] !in known then 0 else 1 + FirstMissing(edges[1..], known)
  }

  ghost function WithKey(inv: Graph, vx: Hash): Graph {
    if vx in inv then inv else inv[vx := []]
  }

  /** `vx` pushed onto the list of every vertex in `edges`, in turn. */
  ghost function PushAll(inv: Graph, edges: seq<Hash>, vx: Hash): (r: Graph)
    requires forall e :: e in edges ==> e in inv
    ensures r.Keys == inv.Keys
  {
    if edges == [] then inv else
    var e := edges[|edges| - 1];
    var r := PushAll(inv, edges[..|edges| - 1], vx);
    r[e := r[e] + [vx]]
  }

  lemma {:induction false} PushAllEdges(inv: Graph, edges: seq<Hash>, vx: Hash, u: Hash, v: Hash)
    requires forall e :: e in edges ==> e in inv
    ensures Edges(PushAll(inv, edges, vx), u, v) == Edges(inv, u, v) + if v == vx then multiset(edges)[u] else 0
  {
    if edges != [] {
      var front, e := edges[..|edges| - 1], edges[|edges| - 1];
      PushAllEdges(inv, front, vx, u, v);
      assert edges == front + [e];
      var r := PushAll(inv, front, vx);
      assert PushAll(inv, edges, vx) == r[e := r[e] + [vx]];
      hide PushAll;
      PushOneEdge(r, e, vx, u, v);
    }
  }

  lemma PushStart(inv: Graph, edges: seq<Hash>, vx: Hash)
    ensures PushAll(inv, edges[..0], vx) == inv
  {
  }

  lemma PushNext(inv: Graph, edges: seq<Hash>, i: nat, vx: Hash)
    requires i < |edges| && forall j :: 0 <= j <= i ==> edges[j] in inv
    ensures var r := PushAll(inv, edges[..i], vx); PushAll(inv, edges[..i + 1], vx) == r[edges[i] := r[edges[i]] + [vx]]
  {
    assert edges[..i + 1][..i] == edges[..i];
  }

  lemma PushOneEdge(r: Graph, e: Hash, vx: Hash, u: Hash, v: Hash)
    requires e in r
    ensures Edges(r[e := r[e] + [vx]], u, v) == Edges(r, u, v) + if u == e && v == vx then 1 else 0
  {
  }

  /** What `insert_vx` leaves behind and returns, in every case. A missing edge or an existing
      vertex is noticed only after inverse edges have been pushed. */
  ghost function Inserted(d: DagValue, vx: Hash, edges: seq<Hash>): (DagValue, Result<(), GraphError>) {
    var inv := WithKey(d.inv, vx);
    var k := FirstMissing(edges, inv.Keys);
    var pushed := PushAll(inv, edges[..k], vx);
    if k < |edges| then (d.(inv := pushed), Err(VacantEntry))
    else if vx in d.g then (d.(inv := pushed), Err(VertexExists))
    else if vx in d.chits && d.chits[vx] == 1 then
      (d.(g := d.g[vx := edges], inv := pushed), Err(ChitReplace))
    else (DagValue(d.g[vx := edges], pushed, d.chits[vx := 0]), Ok(()))
  }

  lemma InsertedWhen(d: DagValue, vx: Hash, edges: seq<Hash>, k: nat)
    requires k <= |edges| && forall j :: 0 <= j < k ==> edges[j] in WithKey(d.inv, vx)
    requires k < |edges| ==> edges[k] !in WithKey(d.inv, vx)
    ensures Inserted(d, vx, edges) ==
      var pushed := PushAll(WithKey(d.inv, vx), edges[..k], vx);
      if k < |edges| then (d.(inv := pushed), Err(VacantEntry))
      else if vx in d.g then (d.(inv := pushed), Err(VertexExists))
      else if vx in d.chits && d.chits[vx] == 1 then (d.(g := d.g[vx := edges], inv := pushed), Err(ChitReplace))
      else (DagValue(d.g[vx := edges], pushed, d.chits[vx := 0]), Ok(()))
  {
    hide PushAll, WithKey;
    FirstMissingIs(edges, WithKey(d.inv, vx).Keys, k);
  }

  lemma {:induction false} FirstMissingIs(edges: seq<Hash>, known: set<Hash>, k: nat)
    requires k <= |edges| && (forall j :: 0 <= j < k ==> edges[j] in known) && (k < |edges| ==> edges[k] !in known)
    ensures FirstMissing(edges, known) == k
  {
    if k > 0 { FirstMissingIs(edges[1..], known, k - 1); }
  }

  /** Insertion leaves a well-formed DAG exactly when the vertex is new and all its parents are
      present, or when it is not new and no inverse edge was pushed. */
  lemma InsertKeepsDag(d: DagValue, vx: Hash, edges: seq<Hash>)
    requires DagOk(d.g, d.inv)
    ensures var e := Inserted(d, vx, edges).0;
      DagOk(e.g, e.inv) <==>
        || (vx !in d.g && forall p :: p in edges ==> p in d.g)
        || (vx in d.g && (edges == [] || edges[0] !in d.g))
  {
    hide Acyclic, PushAll, Inserted, Edges;
    if vx in d.g {
      InsertOldDag(d, vx, edges);
    } else {
      InsertNewDag(d, vx, edges);
    }
  }

  /** The inverse edges that insertion pushes before it notices a missing parent. */
  lemma PushedEdges(d: DagValue, vx: Hash, edges: seq<Hash>)
    ensures var k := FirstMissing(edges, WithKey(d.inv, vx).Keys);
      forall u, v :: Edges(Inserted(d, vx, edges).0.inv, u, v) ==
        Edges(d.inv, u, v) + if v == vx then multiset(edges[..k])[u] else 0
  {
    hide *;
    var inv := WithKey(d.inv, vx);
    var k := FirstMissing(edges, inv.Keys);
    InsertedInverse(d, vx, edges, k);
    forall u, v
      ensures Edges(Inserted(d, vx, edges).0.inv, u, v) ==
        Edges(d.inv, u, v) + if v == vx then multiset(edges[..k])[u] else 0
    {
      PushAllEdges(inv, edges[..k], vx, u, v);
      WithKeyEdges(d.inv, vx, u, v);
    }
  }

  lemma InsertedInverse(d: DagValue, vx: Hash, edges: seq<Hash>, k: nat)
    requires k == FirstMissing(edges, WithKey(d.inv, vx).Keys)
    ensures forall e :: e in edges[..k] ==> e in WithKey(d.inv, vx)
    ensures Inserted(d, vx, edges).0.inv == PushAll(WithKey(d.inv, vx), edges[..k], vx)
  {
    hide PushAll, WithKey;
  }

  lemma WithKeyEdges(inv: Graph, vx: Hash, u: Hash, v: Hash)
    ensures Edges(WithKey(inv, vx), u, v) == Edges(inv, u, v)
  {
  }

  lemma InsertOldDag(d: DagValue, vx: Hash, edges: seq<Hash>)
    requires DagOk(d.g, d.inv) && vx in d.g
    ensures var e := Inserted(d, vx, edges).0; DagOk(e.g, e.inv) <==> edges == [] || edges[0] !in d.g
  {
    hide Acyclic;
    var e, k := Inserted(d, vx, edges).0, FirstMissing(edges, d.inv.Keys);
    InverseSym(d.g, d.inv);
    if k > 0 {
      PushedEdges(d, vx, edges);
      assert edges[0] in edges[..k];
      assert Edges(e.inv, edges[0], vx) != Edges(e.g, vx, edges[0]);
    } else {
      assert edges[..k] == [];
      assert e == d;
    }
  }

  lemma InsertNewDag(d: DagValue, vx: Hash, edges: seq<Hash>)
    requires DagOk(d.g, d.inv) && vx !in d.g
    ensures var e := Inserted(d, vx, edges).0; DagOk(e.g, e.inv) <==> forall p :: p in edges ==> p in d.g
  {
    hide Acyclic, Edges, PushAll;
    var e, k := Inserted(d, vx, edges).0, FirstMissing(edges, WithKey(d.inv, vx).Keys);
    if forall p :: p in edges ==> p in d.g {
      assert edges[..k] == edges;
      PushedEdges(d, vx, edges);
      InsertFreshOk(d, vx, edges, e);
    } else if k == |edges| {
      SelfEdgeCycles(d, vx, edges, e);
    } else {
      assert vx in e.inv && vx !in e.g;
    }
  }

  lemma InsertSucceeds(d: DagValue, vx: Hash, edges: seq<Hash>)
    requires Inverse(d.g, d.inv) && vx !in d.g && forall p :: p in edges ==> p in d.g
    requires vx in d.chits ==> d.chits[vx] != 1
    ensures Inserted(d, vx, edges) ==
      (DagValue(d.g[vx := edges], PushAll(d.inv[vx := []], edges, vx), d.chits[vx := 0]), Ok(()))
  {
    var k := FirstMissing(edges, WithKey(d.inv, vx).Keys);
    assert edges[..k] == edges;
  }

  /** A chit of 1 is noticed last, when the vertex has been inserted. */
  lemma InsertHalts(d: DagValue, vx: Hash, edges: seq<Hash>)
    requires Inverse(d.g, d.inv) && vx !in d.g && forall p :: p in edges ==> p in d.g
    requires vx in d.chits && d.chits[vx] == 1
    ensures Inserted(d, vx, edges) ==
      (DagValue(d.g[vx := edges], PushAll(d.inv[vx := []], edges, vx), d.chits), Err(ChitReplace))
  {
    var k := FirstMissing(edges, WithKey(d.inv, vx).Keys);
    assert edges[..k] == edges;
  }

  lemma InsertFreshOk(d: DagValue, vx: Hash, edges: seq<Hash>, e: DagValue)
    requires DagOk(d.g, d.inv) && vx !in d.g && forall p :: p in edges ==> p in d.g
    requires e.g == d.g[vx := edges] && e.inv.Keys == d.inv.Keys + {vx}
    requires forall u, v ::
      Edges(e.inv, u, v) == Edges(d.inv, u, v) + if v == vx then multiset(edges)[u] else 0
    ensures DagOk(e.g, e.inv)
  {
    InverseSym(d.g, d.inv);
    forall u, v ensures Edges(e.g, u, v) == Edges(e.inv, v, u) {
      assert Edges(d.g, u, v) == Edges(d.inv, v, u);
    }
    var rank :| Ranked(d.g, rank);
    var bound := RankBound(rank);
    var rank' := (map u | u in d.g :: rank[u])[vx := bound];
    forall u, v | Edge(e.g, u, v) ensures v in rank' && rank'[v] < rank'[u] {
      if u != vx { assert Edge(d.g, u, v); }
    }
    assert Ranked(e.g, rank');
  }

  /** A vertex naming itself as a parent passes the edge check of `insert_vx` but closes a cycle. */
  lemma SelfEdgeCycles(d: DagValue, vx: Hash, edges: seq<Hash>, e: DagValue)
    requires DagOk(d.g, d.inv) && vx !in d.g && e.g == d.g[vx := edges]
    requires forall p :: p in edges ==> p in d.g || p == vx
    requires exists p :: p in edges && p !in d.g
    ensures !DagOk(e.g, e.inv)
  {
    assert Edge(e.g, vx, vx);
    forall rank ensures !Ranked(e.g, rank) {}
  }

  // removal

  lemma RemoveKeepsDag(g: Graph, inv: Graph, x: Hash)
    requires DagOk(g, inv)
    ensures DagOk(RemoveVertex(g, x), RemoveVertex(inv, x))
  {
    InverseSym(g, inv);
    RemoveIsRestrict(g, x);
    RemoveIsRestrict(inv, x);
    RestrictInverse(g, inv, g.Keys - {x});
    RestrictAcyclic(g, g.Keys - {x});
  }

  lemma RestrictKeepsDag(g: Graph, inv: Graph, keep: set<Hash>)
    requires DagOk(g, inv)
    ensures DagOk(Restrict(g, keep), Restrict(inv, keep))
  {
    RestrictInverse(g, inv, keep);
    RestrictAcyclic(g, keep);
  }

  // traversal

  /** Every vertex comes after all its parents. */
  ghost predicate ParentsFirst(g: Graph, order: seq<Hash>) {
    forall i, p :: 0 <= i < |order| && Edge(g, order[i], p) ==> p in order[..i]
  }

  /** The true conviction of a vertex: the chits of all its progeny (itself included), each once. */
  ghost function ConvictionOf(inv: Graph, chits: map<Hash, u8>, vx: Hash): nat {
    SumOver(Reach(inv, vx), chits)
  }

  /** State of a search that has finished with `done` and still has `queue` to visit. */
  ghost predicate Searching(g: Graph, root: Hash, done: set<Hash>, pending: seq<Hash>, visited: set<Hash>) {
    && root in visited && visited <= Reach(g, root)
    && visited == done + Elems(pending) && done !! Elems(pending) && Distinct(pending)
    && forall u, v :: u in done && Edge(g, u, v) ==> v in visited
  }

  lemma SearchDone(g: Graph, root: Hash, done: set<Hash>, visited: set<Hash>)
    requires Searching(g, root, done, [], visited)
    ensures done == visited == Reach(g, root)
  {
    ReachExact(g, root, done);
  }

  /** Taking one pending vertex `u` and queueing its unvisited neighbours keeps the search going. */
  lemma SearchStep(g: Graph, root: Hash, done: set<Hash>, u: Hash, rest: seq<Hash>, added: seq<Hash>,
                   visited: set<Hash>, pending': seq<Hash>)
    requires Closed(g) && u in g
    requires root in visited && visited <= Reach(g, root)
    requires visited == done + {u} + Elems(rest) && u !in done && u !in rest && Distinct(rest)
    requires done !! Elems(rest)
    requires forall x, v :: x in done && Edge(g, x, v) ==> v in visited
    requires Distinct(added) && Elems(added) !! visited
    requires forall v :: v in added ==> v in g[u]
    requires forall v :: v in g[u] ==> v in visited || v in added
    requires pending' == rest + added
    ensures Searching(g, root, done + {u}, pending', visited + Elems(added))
  {
    ReachClosed(g, root);
    DistinctConcat(rest, added);
    forall v | v in added ensures v in Reach(g, root) { assert Edge(g, u, v); }
  }

  /** The inner loop shared by the traversals: mark and queue the neighbours not yet visited. */
  method EnqueueUnvisited(adj: seq<Hash>, visited: set<Hash>) returns (visited': set<Hash>, added: seq<Hash>)
    ensures Distinct(added) && Elems(added) !! visited && visited' == visited + Elems(added)
    ensures forall v :: v in added ==> v in adj
    ensures forall v :: v in adj ==> v in visited'
  {
    visited', added := visited, [];
    for i := 0 to |adj|
      invariant Distinct(added) && Elems(added) !! visited && visited' == visited + Elems(added)
      invariant forall v :: v in added ==> v in adj
      invariant forall j :: 0 <= j < i ==> adj[j] in visited'
    {
      if adj[i] !in visited' {
        visited' := visited' + {adj[i]};
        added := added + [adj[i]];
      }
    }
  }

  lemma SearchStarts(g: Graph, root: Hash)
    requires root in g
    ensures Searching(g, root, {}, [root], {root})
  {
    ReachSelf(g, root);
  }

  lemma SearchFirst(g: Graph, root: Hash, done: set<Hash>, pending: seq<Hash>, visited: set<Hash>)
    requires Searching(g, root, done, pending, visited) && pending != []
    ensures pending[0] in Reach(g, root) && pending[0] in g && pending[0] !in done && done <= Reach(g, root)
    ensures |done| < |done + {pending[0]}| <= |Reach(g, root)|
  {
    assert pending[0] in Elems(pending);
    ReachMember(g, root, pending[0]);
    SubsetSize(done + {pending[0]}, Reach(g, root));
  }

  /** Takes the first vertex off the queue and queues its neighbours. */
  method VisitFirst(g: Graph, ghost root: Hash, ghost done: set<Hash>, queue: seq<Hash>, visited: set<Hash>)
    returns (queue': seq<Hash>, visited': set<Hash>)
    requires Closed(g) && Searching(g, root, done, queue, visited) && queue != [] && queue[0] in g
    ensures Searching(g, root, done + {queue[0]}, queue', visited')
  {
    var u, rest := queue[0], queue[1..];
    assert queue == [u] + rest;
    assert u in Elems(queue);
    var added;
    visited', added := EnqueueUnvisited(g[u], visited);
    queue' := rest + added;
    SearchStep(g, root, done, u, rest, added, visited, queue');
  }

  /** `DFS`: an iterator over the ancestors of `root`, with an explicit stack. */
  class DepthFirst {
    const g: Graph
    const root: Hash
    var stack: seq<Hash>
    var visited: set<Hash>
    ghost var emitted: seq<Hash>

    ghost predicate Valid()
      reads this
    {
      && Closed(g) && Distinct(emitted)
      && if emitted == [] then
           (stack == [root] && visited == {}) || (stack == [] && root !in g)
         else
           Searching(g, root, Elems(emitted), stack, visited) && emitted[0] == root
    }

    constructor (g: Graph, root: Hash)
      requires Closed(g)
      ensures Valid() && this.g == g && this.root == root && emitted == []
    {
      this.g, this.root, stack, visited, emitted := g, root, [root], {}, [];
    }

    method Next() returns (r: Option<Hash>)
      requires Valid()
      modifies this
      ensures Valid()
      ensures r.Some? ==> emitted == old(emitted) + [r.value] && r.value in g
      ensures r.None? ==> emitted == old(emitted) && Elems(emitted) == Reach(g, root)
    {
      if stack == [] {
        if emitted != [] { SearchDone(g, root, Elems(emitted), visited); } else { ReachOutside(g, root); }
        return None;
      }
      var next := stack[|stack| - 1];
      var rest := stack[..|stack| - 1];
      assert stack == rest + [next];
      if emitted != [] { assert next in Elems(stack); assert next in Reach(g, root); }
      stack := rest;
      visited := visited + {next};
      if next in g {
        ghost var was := visited;
        var added: seq<Hash>;
        ghost var done := Elems(emitted);
        visited, added := EnqueueUnvisited(g[next], visited);
        stack := rest + added;
        ReachSelf(g, next);
        SearchStep(g, root, done, next, rest, added, was, stack);
        emitted := emitted + [next];
        assert Elems(emitted) == done + {next};
        return Some(next);
      }
      ReachOutside(g, root);
      return None;
    }
  }

  lemma ReachOutside(g: Graph, u: Hash)
    requires u !in g
    ensures Reach(g, u) == {}
  {}

  ghost predicate Retained(m: Graph, keys: seq<Hash>, vx: Hash, m': Graph) {
    m'.Keys == m.Keys && forall u :: u in m ==> m'[u] == if u in keys then Without(m[u], vx) else m[u]
  }

  lemma RetainOne(m: Graph, keys: seq<Hash>, vx: Hash, m': Graph, k: Hash)
    requires Retained(m, keys, vx, m') && k in m
    ensures Retained(m, keys + [k], vx, m'[k := Without(m'[k], vx)])
  {
    var r := Without(m[k], vx);
    assert Without(r, vx) == r;
    hide Without;
    assert forall u :: u in keys + [k] <==> u in keys || u == k;
  }

  /** `retain(|e| e != vx)` on the list of every vertex in `keys`; stops at a missing one. */
  method RetainIn(m: Graph, keys: seq<Hash>, vx: Hash) returns (m': Graph, ok: bool)
    ensures ok <==> forall u :: u in keys ==> u in m
    ensures m'.Keys == m.Keys
    ensures ok ==> forall u :: u in m ==> m'[u] == if u in keys then Without(m[u], vx) else m[u]
  {
    hide Without;
    m' := m;
    for i := 0 to |keys|
      invariant forall j :: 0 <= j < i ==> keys[j] in m
      invariant Retained(m, keys[..i], vx, m')
    {
      if keys[i] !in m' { return m', false; }
      RetainOne(m, keys[..i], vx, m', keys[i]);
      m' := m'[keys[i] := Without(m'[keys[i]], vx)];
      assert keys[..i + 1] == keys[..i] + [keys[i]];
    }
    assert keys[..|keys|] == keys;
    ok := true;
  }

  /** Dropping `vx` from the lists of its neighbours drops it from all lists. */
  lemma RetainedEverywhere(m: Graph, other: Graph, vx: Hash, m': Graph)
    requires Inverse(m, other) && vx in m && m'.Keys == m.Keys
    requires forall u :: u in m ==> m'[u] == if u in other[vx] then Without(m[u], vx) else m[u]
    ensures m' - {vx} == RemoveVertex(m, vx)
  {
    InverseSym(m, other);
    forall u | u in m ensures m'[u] == Without(m[u], vx) {
      assert Edge(m, u, vx) <==> Edge(other, vx, u);
    }
    hide Without, Inverse, Edge;
    assert (m' - {vx}).Keys == RemoveVertex(m, vx).Keys;
  }

  /** Pushes `vx` onto the list of every vertex in `edges`; stops at a missing one, the `k`th. */
  method PushEdges(inv: Graph, edges: seq<Hash>, vx: Hash) returns (inv': Graph, ok: bool, ghost k: nat)
    ensures k <= |edges| && (forall j :: 0 <= j < k ==> edges[j] in inv) && (k < |edges| ==> edges[k] !in inv)
    ensures inv' == PushAll(inv, edges[..k], vx) && (ok <==> k == |edges|)
  {
    inv' := inv;
    PushStart(inv, edges, vx);
    hide PushAll;
    for i := 0 to |edges|
      invariant forall j :: 0 <= j < i ==> edges[j] in inv
      invariant inv' == PushAll(inv, edges[..i], vx)
    {
      if edges[i] !in inv' { return inv', false, i; }
      PushNext(inv, edges, i, vx);
      inv' := inv'[edges[i] := inv'[edges[i]] + [vx]];
    }
    return inv', true, |edges|;
  }

  class Dag {
    var g: Graph
    var inv: Graph
    var chits: map<Hash, u8>

    ghost function Value(): DagValue
      reads this
    {
      DagValue(g, inv, chits)
    }

    constructor ()
      ensures Value() == DagValue(map[], map[], map[])
    {
      g, inv, chits := map[], map[], map[];
    }

    method InsertVx(vx: Hash, edges: seq<Hash>) returns (r: Result<(), GraphError>)
      modifies this
      ensures (Value(), r) == Inserted(old(Value()), vx, edges)
    {
      ghost var d := Value();
      if vx !in inv { inv := inv[vx := []]; }
      var ok;
      ghost var k;
      inv, ok, k := PushEdges(inv, edges, vx);
      InsertedWhen(d, vx, edges, k);
      hide PushAll, Inserted;
      if !ok { return Err(VacantEntry); }
      if vx in g { return Err(VertexExists); }
      g := g[vx := edges];
      r := SetChit(vx, 0);
    }

    /** `missing` lists, in order, the vertices that are absent. */
    method HasVertices(vs: seq<Hash>) returns (r: Result<(), seq<Hash>>)
      ensures r.Ok? <==> forall v :: v in vs ==> v in g
      ensures r.Err? ==> r.error == Keep(vs, Elems(vs) - g.Keys)
    {
      var missing := [];
      ghost var absent := Elems(vs) - g.Keys;
      for i := 0 to |vs|
        invariant missing == Keep(vs[..i], absent)
        invariant missing == [] <==> forall j :: 0 <= j < i ==> vs[j] in g
      {
        assert vs[..i + 1] == vs[..i] + [vs[i]];
        KeepSnoc(vs[..i], vs[i], absent);
        if vs[i] !in g { missing := missing + [vs[i]]; }
      }
      assert vs[..|vs|] == vs;
      if missing == [] { return Ok(()); } else { return Err(missing); }
    }

    method RemoveVx(vx: Hash) returns (r: Result<set<Hash>, GraphError>)
      requires DagOk(g, inv)
      modifies this
      ensures DagOk(g, inv) && chits == old(chits)
      ensures r == if vx in old(g) then Ok(Elems(old(inv)[vx])) else Err(UndefinedVertex)
      ensures g == RemoveVertex(old(g), vx) && inv == RemoveVertex(old(inv), vx)
    {
      InverseSym(g, inv);
      RemoveKeepsDag(g, inv, vx);
      if vx !in inv {
        AbsentVertex(g, vx);
        AbsentVertex(inv, vx);
        return Err(UndefinedVertex);
      }
      var children := inv[vx];
      var g': Graph, inv': Graph, ok: bool;
      forall u | u in children ensures u in g { assert Edge(inv, vx, u); }
      g', ok := RetainIn(g, children, vx);
      if !ok { return Err(VacantEntry); }
      RetainedEverywhere(g, inv, vx, g');
      forall u | u in g[vx] ensures u in inv { assert Edge(g, vx, u); }
      inv', ok := RetainIn(inv, g[vx], vx);
      if !ok { return Err(VacantEntry); }
      RetainedEverywhere(inv, g, vx, inv');
      var childrenOfVx := set u | u in children;
      g := g' - {vx};
      inv := inv' - {vx};
      return Ok(childrenOfVx);
    }

    method GetChit(vx: Hash) returns (r: Result<u8, GraphError>)
      ensures r == if vx in chits then Ok(chits[vx]) else Err(UndefinedChit)
    {
      if vx in chits { return Ok(chits[vx]); } else { return Err(UndefinedChit); }
    }

    /** A chit that has been set to 1 is final. */
    method SetChit(vx: Hash, chit: u8) returns (r: Result<(), GraphError>)
      modifies this`chits
      ensures if vx in old(chits) && old(chits)[vx] == 1
        then r == Err(ChitReplace) && chits == old(chits)
        else r == Ok(()) && chits == old(chits)[vx := chit]
    {
      if vx in chits && chits[vx] == 1 { return Err(ChitReplace); }
      chits := chits[vx := chit];
      return Ok(());
    }

    /** The chits of the whole progeny, each counted once. `ChitOverflow` is reported exactly when
        the true sum does not fit in a byte. */
    method Conviction(vx: Hash) returns (r: Result<u8, GraphError>)
      requires Closed(inv) && vx in inv
      ensures r.Ok? ==> r.value == ConvictionOf(inv, chits, vx)
      ensures r == Err(UndefinedChit) ==> !(Reach(inv, vx) <= chits.Keys)
      ensures r == Err(ChitOverflow) ==> ConvictionOf(inv, chits, vx) > 255
      ensures Reach(inv, vx) <= chits.Keys ==> (r == Err(ChitOverflow) <==> ConvictionOf(inv, chits, vx) > 255)
      ensures r.Ok? || r == Err(UndefinedChit) || r == Err(ChitOverflow)
    {
      hide Searching, Reach, SumOver, Closed;
      var visited, queue, sum: u8 := {vx}, [vx], 0;
      ghost var done: set<Hash> := {};
      SearchStarts(inv, vx);
      SumOverNone(chits);
      while |queue| != 0
        invariant Searching(inv, vx, done, queue, visited) && sum == SumOver(done, chits)
        decreases |Reach(inv, vx)| - |done|
      {
        SearchFirst(inv, vx, done, queue, visited);
        var elt := queue[0];
        if elt !in chits { return Err(UndefinedChit); }
        SumOverTake(done + {elt}, chits, elt);
        assert done + {elt} - {elt} == done;
        if sum + chits[elt] > 255 {
          SumOverMonotone(done + {elt}, Reach(inv, vx), chits);
          return Err(ChitOverflow);
        }
        sum := sum + chits[elt];
        queue, visited := VisitFirst(inv, vx, done, queue, visited);
        done := done + {elt};
      }
      assert queue == [];
      SearchDone(inv, vx, done, visited);
      return Ok(sum);
    }

    /** Breadth-first search finds every ancestor-or-self exactly once. */
    method Bfs(vx: Hash) returns (result: seq<Hash>)
      requires Closed(g) && vx in g
      ensures Distinct(result) && Elems(result) == Reach(g, vx)
    {
      hide *;
      var visited, queue := {vx}, [vx];
      result := [];
      SearchStarts(g, vx);
      NoElems<Hash>();
      while |queue| != 0
        invariant Searching(g, vx, Elems(result), queue, visited) && Distinct(result)
        decreases |Reach(g, vx)| - |Elems(result)|
      {
        SearchFirst(g, vx, Elems(result), queue, visited);
        var elt := queue[0];
        NotElem(result, elt);
        DistinctSnoc(result, elt);
        queue, visited := VisitFirst(g, vx, Elems(result), queue, visited);
        result := result + [elt];
      }
      assert queue == [];
      SearchDone(g, vx, Elems(result), visited);
    }

    /** Depth-first traversal, run to exhaustion. A vertex outside the DAG yields nothing. */
    method Dfs(vx: Hash) returns (order: seq<Hash>)
      requires Closed(g)
      ensures Distinct(order) && Elems(order) == Reach(g, vx)
      ensures vx in g ==> order != [] && order[0] == vx
    {
      var it := new DepthFirst(g, vx);
      order := [];
      while true
        invariant it.Valid() && it.g == g && it.root == vx && fresh(it)
        invariant order == it.emitted && Elems(order) <= g.Keys
        decreases |g.Keys| - |order|
      {
        var next := it.Next();
        if next.None? {
          ReachSelfOrNone(g, vx);
          return;
        }
        order := order + [next.value];
        DistinctLength(order, g.Keys);
      }
    }

    /** The vertices without children, in the order the map happens to be iterated. */
    method Leaves() returns (leaves: seq<Hash>)
      ensures Distinct(leaves) && Elems(leaves) == set v | v in inv && inv[v] == []
    {
      leaves := [];
      var todo := inv.Keys;
      while todo != {}
        invariant todo <= inv.Keys && Distinct(leaves)
        invariant Elems(leaves) == set v | v in inv && v !in todo && inv[v] == []
        decreases |todo|
      {
        var v :| v in todo;
        assert v !in Elems(leaves);
        todo := todo - {v};
        if |inv[v]| == 0 {
          DistinctSnoc(leaves, v);
          leaves := leaves + [v];
        }
      }
    }

    /** Kahn's algorithm: every vertex, parents before children, by growing height. A vertex comes once
        if each parent it lists twice is below another one of its parents, and more than once if that
        parent is above the others. */
    method TopologicalSort() returns (result: seq<Hash>, ghost height: Ranking)
      requires DagOk(g, inv)
      ensures Elems(result) == g.Keys && ParentsFirst(g, result) && IsHeight(g, height) && Climbs(height, result)
      ensures Calm(g, height) ==> Distinct(result)
      ensures forall v, u | TopParent(g, height, v, u) && Edges(g, v, u) > 1 :: multiset(result)[v] > 1
    {
      ghost var rank, bound := InverseRank(g, inv);
      InverseSym(g, inv);
      height := Heights(g);
      result := [];
      var queue := Roots();
      var residual := g;
      KahnStarts(g, height, queue);
      assert Ranks(inv, rank, bound, queue) by {
        assert Elems(queue) <= inv.Keys && forall v | v in queue :: v in Elems(queue);
      }
      hide *;
      while queue != []
        invariant KahnState(g, height, result, queue, residual) && Ranks(inv, rank, bound, queue)
        decreases Weights(inv, rank, bound, queue)
      {
        var vx := queue[0];
        queue, residual := KahnVertex(g, inv, height, result, queue, residual, rank, bound);
        result := result + [vx];
      }
      KahnComplete(g, height, result, residual);
    }

    /** The leaves of the inverted DAG. */
    method Roots() returns (roots: seq<Hash>)
      ensures Distinct(roots) && Elems(roots) == set v | v in g && g[v] == []
    {
      var inverted := new Dag();
      inverted.g, inverted.inv, inverted.chits := inv, g, chits;
      roots := inverted.Leaves();
    }

    /** The strict ancestors of `v`, parents before children. */
    method GetAncestors(v: Hash) returns (sorted: seq<Hash>)
      requires DagOk(g, inv)
      ensures Elems(sorted) == Reach(g, v) - {v} && ParentsFirst(g, sorted) && (NoRepeats(g) ==> Distinct(sorted))
    {
      InverseSym(g, inv);
      ghost var height;
      var all;
      all, height := TopologicalSort();
      if NoRepeats(g) { NoRepeatsCalm(g, height); }
      hide *;
      var order := Dfs(v);
      var ancestors := (set a | a in order) - {v};
      OrderIsReach(order, Reach(g, v), ancestors, v);
      sorted := Keep(all, ancestors);
      AncestorsKept(g, v, all, ancestors);
    }

    static lemma OrderIsReach(order: seq<Hash>, reach: set<Hash>, ancestors: set<Hash>, v: Hash)
      requires Elems(order) == reach && ancestors == (set a | a in order) - {v}
      ensures ancestors == reach - {v}
    {
      assert forall a :: a in order <==> a in Elems(order);
    }

    static lemma AncestorsKept(g: Graph, v: Hash, all: seq<Hash>, ancestors: set<Hash>)
      requires Closed(g) && Elems(all) == g.Keys && ParentsFirst(g, all) && ancestors == Reach(g, v) - {v}
      requires Acyclic(g)
      ensures Elems(Keep(all, ancestors)) == ancestors && ParentsFirst(g, Keep(all, ancestors))
      ensures Distinct(all) ==> Distinct(Keep(all, ancestors))
    {
      if Distinct(all) { KeepDistinct(all, ancestors); }
      AncestorsClosed(g, v);
      KeepParentsFirst(g, all, ancestors);
      ReachInside(g, v);
      assert forall a | a in ancestors :: a in Elems(all);
    }

    /** Ancestry shipping: inserting `GetAncestors(v)` in the order received, then `v` itself, into
        an empty DAG never meets a missing parent and rebuilds the sub-DAG of `v`'s ancestry. What the
        receiver knows already it skips. */
    method ShipAncestry(v: Hash) returns (copy: Dag)
      requires DagOk(g, inv) && v in g
      ensures fresh(copy) && DagOk(copy.g, copy.inv)
      ensures copy.g == Restrict(g, Reach(g, v))
      ensures copy.chits == map a | a in Reach(g, v) :: 0
    {
      InverseSym(g, inv);
      var ancestors := GetAncestors(v);
      var order := ancestors + [v];
      ShippingOrder(g, v, ancestors);
      ReachInside(g, v);
      copy := new Dag();
      ShipStarts(g, order);
      hide DagOk, NoRepeats, ParentsFirst, Reach, Rebuilt, Inserted;
      for i := 0 to |order|
        invariant fresh(copy) && Rebuilt(g, order[..i], copy.Value())
      {
        ShipStep(g, order, i, copy.Value());
        if order[i] !in copy.g {
          var r := copy.InsertVx(order[i], g[order[i]]);
        }
      }
      assert order[..|order|] == order;
      ShipEnds(g, v, order, copy.Value());
    }
  }

  lemma ReachSelfOrNone(g: Graph, u: Hash)
    ensures u in g <==> Reach(g, u) != {}
  {
    if u in g { ReachSelf(g, u); } else { ReachOutside(g, u); }
  }

  lemma AbsentVertex(g: Graph, x: Hash)
    requires Closed(g) && x !in g
    ensures RemoveVertex(g, x) == g
  {
    forall v | v in g ensures Without(g[v], x) == g[v] {
      assert x in g[v] ==> Edge(g, v, x);
    }
  }

  lemma NoSelfEdge(g: Graph, x: Hash)
    requires Acyclic(g)
    ensures !Edge(g, x, x)
  {
    var rank :| Ranked(g, rank);
  }

  lemma {:induction false} KeepSnoc<T>(s: seq<T>, x: T, keep: set<T>)
    ensures Keep(s + [x], keep) == Keep(s, keep) + if x in keep then [x] else []
  {
    if s != [] {
      assert (s + [x])[1..] == s[1..] + [x];
      KeepSnoc(s[1..], x, keep);
    }
  }

  // Kahn's algorithm

  /** The length of the longest way up. */
  ghost predicate IsHeight(g: Graph, height: Ranking) {
    && Closed(g) && Ranked(g, height) && (forall v :: v in g && g[v] == [] ==> height[v] == 0)
    && (forall v :: v in g && g[v] != [] ==> exists u :: Highest(g, height, v, u))
  }

  ghost predicate Highest(g: Graph, height: Ranking, v: Hash, u: Hash) {
    Edge(g, v, u) && u in height && v in height && height[v] == height[u] + 1
  }

  ghost predicate Climbs(height: Ranking, s: seq<Hash>) {
    && (forall i | 0 <= i < |s| :: s[i] in height)
    && (forall i, j | 0 <= i < j < |s| :: height[s[i]] <= height[s[j]])
  }

  /** Every parent that is listed twice is below another parent of the same vertex. */
  ghost predicate Calm(g: Graph, height: Ranking) {
    forall v, u | Edges(g, v, u) > 1 :: exists w :: HigherParent(g, height, v, u, w)
  }

  ghost predicate HigherParent(g: Graph, height: Ranking, v: Hash, u: Hash, w: Hash) {
    Edge(g, v, w) && u in height && w in height && height[u] < height[w]
  }

  /** `u` is above all other parents of `v`. */
  ghost predicate TopParent(g: Graph, height: Ranking, v: Hash, u: Hash) {
    Edge(g, v, u) && u in height && forall w :: Edge(g, v, w) && w != u ==> w in height && height[w] < height[u]
  }

  lemma NoRepeatsCalm(g: Graph, height: Ranking)
    requires NoRepeats(g)
    ensures Calm(g, height)
  {
    forall v, u ensures Edges(g, v, u) <= 1 { if v in g { DistinctCounts(g[v]); } }
  }

  ghost function HeightOver(g: Graph, rank: Ranking, bound: nat, vs: seq<Hash>): nat
    requires Ranks(g, rank, bound, vs)
    decreases bound, |vs|
  {
    if vs == [] then 0 else
    assert forall c | c in g[vs[0]] :: Edge(g, vs[0], c);
    var first, rest := 1 + HeightOver(g, rank, rank[vs[0]], g[vs[0]]), HeightOver(g, rank, bound, vs[1..]);
    if first > rest then first else rest
  }

  /** It is one more than the height of a highest member. */
  lemma {:induction false} HeightOverMax(g: Graph, rank: Ranking, bound: nat, vs: seq<Hash>)
    requires Ranks(g, rank, bound, vs)
    ensures forall u | u in vs ::
      Ranks(g, rank, rank[u], g[u]) && HeightOver(g, rank, rank[u], g[u]) < HeightOver(g, rank, bound, vs)
    ensures vs != [] ==> exists u :: u in vs && HeightOver(g, rank, bound, vs) == HeightOver(g, rank, rank[u], g[u]) + 1
    decreases |vs|
  {
    if vs != [] {
      assert forall c | c in g[vs[0]] :: Edge(g, vs[0], c);
      HeightOverMax(g, rank, bound, vs[1..]);
      assert vs == [vs[0]] + vs[1..];
    }
  }

  lemma Heights(g: Graph) returns (height: Ranking)
    requires Closed(g) && Acyclic(g)
    ensures IsHeight(g, height) && height.Keys == g.Keys
  {
    var rank :| Ranked(g, rank);
    forall v | v in g ensures Ranks(g, rank, rank[v], g[v]) { assert forall c | c in g[v] :: Edge(g, v, c); }
    height := map v | v in g :: HeightOver(g, rank, rank[v], g[v]);
    forall v | v in g
      ensures (forall u | u in g[v] :: height[u] < height[v]) && (g[v] != [] ==> exists u :: Highest(g, height, v, u))
    {
      HeightOverMax(g, rank, rank[v], g[v]);
      assert forall c | c in g[v] :: Edge(g, v, c);
      if g[v] != [] {
        var u :| u in g[v] && HeightOver(g, rank, rank[v], g[v]) == HeightOver(g, rank, rank[u], g[u]) + 1;
        assert Highest(g, height, v, u);
      }
    }
  }

  /** A vertex that lists its top parent more than once has been queued more than once, when that is done. */
  ghost predicate Requeued(g: Graph, height: Ranking, done: seq<Hash>, all: seq<Hash>) {
    forall v, u | TopParent(g, height, v, u) && Edges(g, v, u) > 1 && u in done :: multiset(all)[v] > 1
  }

  /** `all` holds the vertices without parents left. */
  ghost predicate Ready(g: Graph, all: seq<Hash>, residual: Graph) {
    residual.Keys == g.Keys && forall v :: v in g ==> (residual[v] == [] <==> v in all)
  }

  /** `residual` lacks the vertices in `done`, and `vx` for the children in `told`. */
  ghost predicate Residue(g: Graph, done: seq<Hash>, vx: Hash, residual: Graph, told: seq<Hash>) {
    forall v, u :: Edge(residual, v, u) <==> Edge(g, v, u) && u !in done && (u != vx || v !in told)
  }

  /** Nothing in the queue is more than one level above `h`. */
  ghost predicate Near(height: Ranking, h: nat, queue: seq<Hash>) {
    forall q :: q in queue ==> q in height && height[q] <= h + 1
  }

  /** Everything below `vx` is done. */
  ghost predicate Lower(g: Graph, height: Ranking, done: seq<Hash>, vx: Hash) {
    forall w :: w in g && w in height && vx in height && height[w] < height[vx] ==> w in done
  }

  /** A vertex that has `vx` as its top parent is queued as often as it has been told. */
  ghost predicate ToldCounted(g: Graph, height: Ranking, vx: Hash, all: seq<Hash>, told: seq<Hash>) {
    forall v | TopParent(g, height, v, vx) :: multiset(all)[v] >= multiset(told)[v]
  }

  /** `residual` lists for every vertex the parents that are not done. */
  ghost predicate Unmet(g: Graph, done: seq<Hash>, residual: Graph) {
    forall v, u :: Edge(residual, v, u) <==> Edge(g, v, u) && u !in done
  }

  ghost predicate Level(g: Graph, height: Ranking, done: seq<Hash>, queue: seq<Hash>) {
    && IsHeight(g, height) && Climbs(height, done + queue)
    && (queue != [] ==> Near(height, height[(done + queue)[|done|]], queue))
  }

  ghost predicate LevelAt(g: Graph, height: Ranking, done: seq<Hash>, vx: Hash, queue: seq<Hash>) {
    && IsHeight(g, height) && vx in height && Climbs(height, done + [vx] + queue) && Near(height, height[vx], queue)
    && Lower(g, height, done, vx)
  }

  ghost predicate Once(g: Graph, height: Ranking, all: seq<Hash>) {
    (Calm(g, height) ==> Distinct(all)) && Elems(all) <= g.Keys
  }

  /** Between two vertices: `done` is sorted, `queue` holds the vertices whose parents are all done. */
  ghost predicate KahnState(g: Graph, height: Ranking, done: seq<Hash>, queue: seq<Hash>, residual: Graph) {
    && Once(g, height, done + queue) && Unmet(g, done, residual) && Ready(g, done + queue, residual)
    && ParentsFirst(g, done) && Requeued(g, height, done, done + queue) && Level(g, height, done, queue)
  }

  lemma KahnStarts(g: Graph, height: Ranking, queue: seq<Hash>)
    requires Distinct(queue) && Elems(queue) == (set v | v in g && g[v] == []) && IsHeight(g, height)
    ensures KahnState(g, height, [], queue, g)
  {
    assert [] + queue == queue;
    hide Calm, TopParent;
    forall v | v in g ensures g[v] == [] <==> v in queue { assert v in Elems(queue) <==> g[v] == []; }
    forall q | q in queue ensures q in g && height[q] == 0 { assert q in Elems(queue); }
  }

  /** While the children of `vx` are told, those in `told` so far, that `vx` is done. */
  ghost predicate KahnVisit(g: Graph, height: Ranking, done: seq<Hash>, vx: Hash, queue: seq<Hash>, residual: Graph,
                            told: seq<Hash>) {
    && vx in g && Once(g, height, done + [vx] + queue) && Residue(g, done, vx, residual, told)
    && Ready(g, done + [vx] + queue, residual) && ParentsFirst(g, done + [vx]) && LevelAt(g, height, done, vx, queue)
    && Requeued(g, height, done, done + [vx] + queue) && ToldCounted(g, height, vx, done + [vx] + queue, told)
  }

  lemma KahnPop(g: Graph, height: Ranking, done: seq<Hash>, vx: Hash, rest: seq<Hash>, queue: seq<Hash>,
                residual: Graph)
    requires KahnState(g, height, done, queue, residual) && queue == [vx] + rest
    ensures KahnVisit(g, height, done, vx, rest, residual, [])
  {
    hide Once, Unmet, Ready, ParentsFirst, Requeued, Level, LevelAt, Residue, ToldCounted;
    assert done + queue == done + [vx] + rest;
    PopFirst(g, height, done, vx, queue, residual);
    PopSorted(g, done, vx, queue, residual);
    PopLower(g, height, done, vx, queue, residual);
    PopLevel(g, height, done, vx, rest, queue);
  }

  lemma PopFirst(g: Graph, height: Ranking, done: seq<Hash>, vx: Hash, queue: seq<Hash>, residual: Graph)
    requires Once(g, height, done + queue) && Unmet(g, done, residual) && queue != [] && queue[0] == vx
    ensures vx in g && Residue(g, done, vx, residual, []) && ToldCounted(g, height, vx, done + queue, [])
  {
    assert (done + queue)[|done|] == vx && vx in Elems(done + queue);
    hide Edge, TopParent, Calm, Distinct;
  }

  lemma PopLevel(g: Graph, height: Ranking, done: seq<Hash>, vx: Hash, rest: seq<Hash>, queue: seq<Hash>)
    requires Level(g, height, done, queue) && queue == [vx] + rest && Lower(g, height, done, vx)
    ensures LevelAt(g, height, done, vx, rest)
  {
    assert done + queue == done + [vx] + rest && (done + queue)[|done|] == vx;
    assert forall q | q in rest :: q in queue;
  }

  lemma PopSorted(g: Graph, done: seq<Hash>, vx: Hash, queue: seq<Hash>, residual: Graph)
    requires ParentsFirst(g, done) && queue != [] && queue[0] == vx && Ready(g, done + queue, residual) && vx in g
    requires Unmet(g, done, residual)
    ensures ParentsFirst(g, done + [vx])
  {
    assert (done + queue)[|done|] == vx;
    forall i, p | 0 <= i < |done + [vx]| && Edge(g, (done + [vx])[i], p) ensures p in (done + [vx])[..i] {
      if i < |done| {
        assert (done + [vx])[..i] == done[..i];
      } else {
        assert (done + [vx])[..i] == done;
        assert residual[vx] == [] && !Edge(residual, vx, p);
      }
    }
  }

  /** What is lower than the first in the queue is done: otherwise the lowest of it would be queued. */
  lemma PopLower(g: Graph, height: Ranking, done: seq<Hash>, vx: Hash, queue: seq<Hash>, residual: Graph)
    requires Level(g, height, done, queue) && Ready(g, done + queue, residual) && Unmet(g, done, residual)
    requires queue != [] && queue[0] == vx
    ensures Lower(g, height, done, vx)
  {
    assert (done + queue)[|done|] == vx;
    var left := set w | w in g && w in height && height[w] < height[vx] && w !in done;
    if left != {} {
      var v := LowestIn(g, height, left);
      LowestIsQueued(g, height, done, vx, queue, residual, left, v);
      assert false;
    }
    forall w | w in g && w in height && height[w] < height[vx] ensures w in done { assert w !in left; }
  }

  lemma LowestIsQueued(g: Graph, height: Ranking, done: seq<Hash>, vx: Hash, queue: seq<Hash>, residual: Graph,
                       left: set<Hash>, v: Hash)
    requires Level(g, height, done, queue) && Ready(g, done + queue, residual) && Unmet(g, done, residual)
    requires queue != [] && queue[0] == vx && vx in height
    requires left == set w | w in g && w in height && height[w] < height[vx] && w !in done
    requires forall u :: Edge(g, v, u) ==> u !in left
    ensures v !in left
  {
    var all := done + queue;
    if v in g && v in height && residual[v] != [] {
      var u := residual[v][0];
      assert Edge(residual, v, u) && Edge(g, v, u) && height[u] < height[v];
    } else if v in g && v in all && v !in done {
      var j :| 0 <= j < |all| && all[j] == v;
      assert all[|done|] == vx && j >= |done|;
    }
  }

  /** Takes the first vertex off the queue and tells its children. */
  method KahnVertex(g: Graph, inv: Graph, ghost height: Ranking, ghost done: seq<Hash>, queue: seq<Hash>,
                    residual: Graph, ghost rank: Ranking, ghost bound: nat)
    returns (queue': seq<Hash>, residual': Graph)
    requires queue != [] && Inverse(g, inv) && KahnState(g, height, done, queue, residual)
    requires Ranks(inv, rank, bound, queue)
    ensures KahnState(g, height, done + [queue[0]], queue', residual') && Ranks(inv, rank, bound, queue')
    ensures Weights(inv, rank, bound, queue') < Weights(inv, rank, bound, queue)
  {
    hide *;
    var vx := queue[0];
    queue', residual' := queue[1..], residual;
    assert queue == [vx] + queue';
    KahnPop(g, height, done, vx, queue', queue, residual);
    WeightFirst(inv, rank, bound, queue);
    var edges := inv[vx];
    assert edges[..0] == [] && edges[0..] == edges;
    for i := 0 to |edges|
      invariant KahnVisit(g, height, done, vx, queue', residual', edges[..i])
      invariant Ranks(inv, rank, bound, queue') && Ranks(inv, rank, bound, edges[i..])
      invariant Weights(inv, rank, bound, queue') + Weights(inv, rank, bound, edges[i..]) <
        Weights(inv, rank, bound, queue)
    {
      WeightMove(inv, rank, bound, queue', edges, i);
      residual', queue' := KahnEdge(g, inv, height, done, vx, queue', residual', edges, i);
    }
    assert edges[..|edges|] == edges;
    KahnDone(g, inv, height, done, vx, queue', residual');
  }

  method KahnEdge(g: Graph, ghost inv: Graph, ghost height: Ranking, ghost done: seq<Hash>, vx: Hash, queue: seq<Hash>,
                  residual: Graph, edges: seq<Hash>, i: nat) returns (residual': Graph, queue': seq<Hash>)
    requires i < |edges| && Inverse(g, inv) && vx in inv && inv[vx] == edges
    requires KahnVisit(g, height, done, vx, queue, residual, edges[..i])
    ensures KahnVisit(g, height, done, vx, queue', residual', edges[..i + 1])
    ensures queue' == queue || queue' == queue + [edges[i]]
  {
    var edge := edges[i];
    ChildInside(g, inv, vx, i);
    VisitKeys(g, height, done, vx, queue, residual, edges[..i]);
    hide *;
    residual' := residual[edge := Without(residual[edge], vx)];
    queue' := queue;
    if residual'[edge] == [] {
      queue' := queue + [edge];
    }
    KahnTold(g, inv, height, done, vx, queue, residual, edges, i, queue', residual');
  }

  lemma VisitKeys(g: Graph, height: Ranking, done: seq<Hash>, vx: Hash, queue: seq<Hash>, residual: Graph,
                  told: seq<Hash>)
    requires KahnVisit(g, height, done, vx, queue, residual, told)
    ensures residual.Keys == g.Keys
  {
    hide Once, Residue, ParentsFirst, Requeued, ToldCounted, LevelAt;
  }

  lemma ChildInside(g: Graph, inv: Graph, vx: Hash, i: nat)
    requires Inverse(g, inv) && vx in inv && i < |inv[vx]|
    ensures inv[vx][i] in g && Edge(g, inv[vx][i], vx)
  {
    InverseSym(g, inv);
    assert Edge(inv, vx, inv[vx][i]);
  }

  lemma KahnTold(g: Graph, inv: Graph, height: Ranking, done: seq<Hash>, vx: Hash, queue: seq<Hash>, residual: Graph,
                 edges: seq<Hash>, i: nat, queue': seq<Hash>, residual': Graph)
    requires i < |edges| && Inverse(g, inv) && vx in inv && inv[vx] == edges && edges[i] in residual
    requires KahnVisit(g, height, done, vx, queue, residual, edges[..i])
    requires residual' == residual[edges[i] := Without(residual[edges[i]], vx)]
    requires queue' == if residual'[edges[i]] == [] then queue + [edges[i]] else queue
    ensures KahnVisit(g, height, done, vx, queue', residual', edges[..i + 1])
  {
    hide Inverse, Once, Residue, Ready, ParentsFirst, Requeued, ToldCounted, LevelAt, Edge, Without;
    var edge, all, told := edges[i], done + [vx] + queue, edges[..i];
    var all' := if residual'[edge] == [] then all + [edge] else all;
    assert all' == done + [vx] + queue' && edges[..i + 1] == told + [edge];
    ChildInside(g, inv, vx, i);
    ToldResidue(g, done, vx, residual, told, edge, residual');
    ToldReady(g, vx, all, residual, edge, all', residual');
    ToldCounts(g, height, done, vx, queue, all, told, edge, all', residual');
    if residual'[edge] == [] {
      ParentsDone(g, done, vx, residual', told + [edge], edge);
      PushedHeight(g, height, done, vx, queue, edge);
      KahnOnce(g, inv, height, done, vx, queue, residual, edges, i);
      PushedOnce(g, height, all, edge);
    }
  }

  lemma PushedOnce(g: Graph, height: Ranking, all: seq<Hash>, edge: Hash)
    requires Once(g, height, all) && edge in g && (Calm(g, height) ==> edge !in all)
    ensures Once(g, height, all + [edge])
  {
    if Calm(g, height) { DistinctSnoc(all, edge); }
    hide Calm;
    assert Elems(all + [edge]) <= Elems(all) + {edge};
  }

  lemma ToldResidue(g: Graph, done: seq<Hash>, vx: Hash, residual: Graph, told: seq<Hash>, edge: Hash, residual': Graph)
    requires Residue(g, done, vx, residual, told) && edge in residual
    requires residual' == residual[edge := Without(residual[edge], vx)]
    ensures Residue(g, done, vx, residual', told + [edge])
  {
    forall v, u
      ensures Edge(residual', v, u) <==> Edge(g, v, u) && u !in done && (u != vx || v !in told + [edge])
    {
      assert Edge(residual, v, u) <==> Edge(g, v, u) && u !in done && (u != vx || v !in told);
    }
  }

  lemma ToldReady(g: Graph, vx: Hash, all: seq<Hash>, residual: Graph, edge: Hash, all': seq<Hash>, residual': Graph)
    requires Ready(g, all, residual) && edge in residual
    requires residual' == residual[edge := Without(residual[edge], vx)]
    requires all' == if residual'[edge] == [] then all + [edge] else all
    ensures Ready(g, all', residual')
  {
  }

  lemma ToldCounts(g: Graph, height: Ranking, done: seq<Hash>, vx: Hash, queue: seq<Hash>, all: seq<Hash>,
                   told: seq<Hash>, edge: Hash, all': seq<Hash>, residual': Graph)
    requires Residue(g, done, vx, residual', told + [edge]) && edge in residual' && LevelAt(g, height, done, vx, queue)
    requires all' == if residual'[edge] == [] then all + [edge] else all
    requires Requeued(g, height, done, all) && ToldCounted(g, height, vx, all, told)
    ensures Requeued(g, height, done, all') && ToldCounted(g, height, vx, all', told + [edge])
  {
    assert forall v :: multiset(all')[v] >= multiset(all)[v];
    TopIsLast(g, height, done, vx, queue, residual', told + [edge], edge);
    hide TopParent, Residue, LevelAt;
    forall v | TopParent(g, height, v, vx) ensures multiset(all')[v] >= multiset(told + [edge])[v] {
      assert multiset(told + [edge])[v] == multiset(told)[v] + if v == edge then 1 else 0;
    }
  }

  /** When its top parent tells a vertex, all its other parents are done. */
  lemma TopIsLast(g: Graph, height: Ranking, done: seq<Hash>, vx: Hash, queue: seq<Hash>, residual': Graph,
                  told: seq<Hash>, v: Hash)
    requires LevelAt(g, height, done, vx, queue) && Residue(g, done, vx, residual', told) && v in told && v in residual'
    ensures TopParent(g, height, v, vx) ==> residual'[v] == []
  {
    if residual'[v] != [] {
      var w := residual'[v][0];
      assert Edge(residual', v, w);
    }
  }

  lemma ParentsDone(g: Graph, done: seq<Hash>, vx: Hash, residual': Graph, told: seq<Hash>, v: Hash)
    requires Residue(g, done, vx, residual', told) && v in residual' && residual'[v] == []
    ensures forall u :: Edge(g, v, u) ==> u in done || u == vx
  {
    forall u | Edge(g, v, u) ensures u in done || u == vx { assert !Edge(residual', v, u); }
  }

  /** A vertex is queued by the highest of its parents. */
  lemma PushedHeight(g: Graph, height: Ranking, done: seq<Hash>, vx: Hash, queue: seq<Hash>, v: Hash)
    requires LevelAt(g, height, done, vx, queue)
    requires Edge(g, v, vx) && forall u :: Edge(g, v, u) ==> u in done || u == vx
    ensures LevelAt(g, height, done, vx, queue + [v])
    ensures Topmost(g, height, vx, v)
  {
    var all := done + [vx] + queue;
    assert all[|done|] == vx && all + [v] == done + [vx] + (queue + [v]);
    forall u | u in done ensures u in height && height[u] <= height[vx] {
      var i :| 0 <= i < |done| && done[i] == u;
      assert all[i] == u;
    }
    var u :| Highest(g, height, v, u);
    forall i | 0 <= i < |all| ensures all[i] in height && height[all[i]] <= height[v] {
      if i < |done| { assert all[i] in done; } else if i > |done| { assert all[i] == queue[i - |done| - 1]; }
    }
    hide IsHeight;
  }

  /** No parent of `v` is above `vx`. */
  ghost predicate Topmost(g: Graph, height: Ranking, vx: Hash, v: Hash) {
    vx in height && forall u :: Edge(g, v, u) ==> u in height && height[u] <= height[vx]
  }

  /** In a calm DAG a child is told once by its highest parent, so it is not queued yet. */
  lemma KahnOnce(g: Graph, inv: Graph, height: Ranking, done: seq<Hash>, vx: Hash, queue: seq<Hash>, residual: Graph,
                 edges: seq<Hash>, i: nat)
    requires i < |edges| && Inverse(g, inv) && vx in inv && inv[vx] == edges && Topmost(g, height, vx, edges[i])
    requires KahnVisit(g, height, done, vx, queue, residual, edges[..i])
    ensures Calm(g, height) ==> edges[i] !in done + [vx] + queue
  {
    hide Calm, Distinct, Elems, Ready, ParentsFirst, Requeued, LevelAt, Inverse, ToldCounted, Topmost;
    ChildInside(g, inv, vx, i);
    CalmOnce(g, inv, height, vx, edges, i);
    hide Residue;
    ChildWaits(g, done, vx, queue, residual, edges[..i], edges[i]);
  }

  /** A child that has not been told yet is not queued. */
  lemma ChildWaits(g: Graph, done: seq<Hash>, vx: Hash, queue: seq<Hash>, residual: Graph, told: seq<Hash>, v: Hash)
    requires Ready(g, done + [vx] + queue, residual) && Residue(g, done, vx, residual, told) && Edge(g, v, vx)
    ensures v !in told && Distinct(done + [vx] + queue) ==> v !in done + [vx] + queue
  {
    if Distinct(done + [vx] + queue) { DistinctMid(done, vx, queue); }
    assert v !in told && vx !in done ==> Edge(residual, v, vx);
  }

  lemma CalmOnce(g: Graph, inv: Graph, height: Ranking, vx: Hash, edges: seq<Hash>, i: nat)
    requires i < |edges| && Inverse(g, inv) && vx in inv && inv[vx] == edges && Topmost(g, height, vx, edges[i])
    ensures Calm(g, height) ==> edges[i] !in edges[..i]
  {
    if edges[i] in edges[..i] {
      ListedTwice(edges, i);
      assert Edges(g, edges[i], vx) == Edges(inv, vx, edges[i]) > 1;
      assert forall w :: !HigherParent(g, height, edges[i], vx, w);
    }
  }

  lemma ListedTwice(edges: seq<Hash>, i: nat)
    requires i < |edges| && edges[i] in edges[..i]
    ensures multiset(edges)[edges[i]] > 1
  {
    var front := edges[..i];
    assert edges == front + [edges[i]] + edges[i + 1..];
    assert edges[i] in multiset(front);
  }

  lemma KahnDone(g: Graph, inv: Graph, height: Ranking, done: seq<Hash>, vx: Hash, queue: seq<Hash>, residual: Graph)
    requires Inverse(g, inv) && vx in inv && KahnVisit(g, height, done, vx, queue, residual, inv[vx])
    ensures KahnState(g, height, done + [vx], queue, residual)
  {
    hide Once, Unmet, Ready, ParentsFirst, Requeued, Level, LevelAt, Residue, ToldCounted, Inverse;
    DoneUnmet(g, inv, done, vx, residual);
    DoneCounts(g, inv, height, done, vx, done + [vx] + queue);
    DoneLevel(g, height, done, vx, queue);
  }

  lemma DoneUnmet(g: Graph, inv: Graph, done: seq<Hash>, vx: Hash, residual: Graph)
    requires Inverse(g, inv) && vx in inv && Residue(g, done, vx, residual, inv[vx])
    ensures Unmet(g, done + [vx], residual)
  {
    InverseSym(g, inv);
    forall v, u ensures Edge(residual, v, u) <==> Edge(g, v, u) && u !in done + [vx] {
      assert Edge(g, v, vx) <==> Edge(inv, vx, v);
    }
  }

  lemma DoneCounts(g: Graph, inv: Graph, height: Ranking, done: seq<Hash>, vx: Hash, all: seq<Hash>)
    requires Inverse(g, inv) && vx in inv && Requeued(g, height, done, all) && ToldCounted(g, height, vx, all, inv[vx])
    ensures Requeued(g, height, done + [vx], all)
  {
    hide TopParent;
    forall v, u | TopParent(g, height, v, u) && Edges(g, v, u) > 1 && u in done + [vx] ensures multiset(all)[v] > 1 {
      if u !in done { assert Edges(g, v, vx) == Edges(inv, vx, v); }
    }
  }

  lemma DoneLevel(g: Graph, height: Ranking, done: seq<Hash>, vx: Hash, queue: seq<Hash>)
    requires LevelAt(g, height, done, vx, queue)
    ensures Level(g, height, done + [vx], queue)
  {
    var all := done + [vx] + queue;
    if queue != [] {
      assert all[|done|] == vx && all[|done| + 1] == queue[0];
      assert height[vx] <= height[queue[0]];
    }
  }

  lemma KahnComplete(g: Graph, height: Ranking, done: seq<Hash>, residual: Graph)
    requires KahnState(g, height, done, [], residual) && Acyclic(g) && Closed(g)
    ensures Elems(done) == g.Keys && (Calm(g, height) ==> Distinct(done)) && ParentsFirst(g, done)
    ensures IsHeight(g, height) && Climbs(height, done)
    ensures forall v, u | TopParent(g, height, v, u) && Edges(g, v, u) > 1 :: multiset(done)[v] > 1
  {
    assert done + [] == done;
    hide Calm, Climbs, ParentsFirst, TopParent;
    var left := g.Keys - Elems(done);
    if left != {} {
      var v := LowestIn(g, height, left);
      LowestHasUnmet(g, done, residual, left, v);
      assert false;
    }
    hide IsHeight;
    forall v | v in g ensures v in Elems(done) { assert v !in left; }
    forall v, u | TopParent(g, height, v, u) && Edges(g, v, u) > 1 ensures multiset(done)[v] > 1 {
      assert Edge(g, v, u) && u in Elems(done);
    }
  }

  lemma LowestHasUnmet(g: Graph, done: seq<Hash>, residual: Graph, left: set<Hash>, v: Hash)
    requires Unmet(g, done, residual) && Ready(g, done, residual) && Closed(g) && left == g.Keys - Elems(done)
    requires forall u :: Edge(g, v, u) ==> u !in left
    ensures v !in left
  {
    if v in g && residual[v] != [] { assert Edge(residual, v, residual[v][0]); }
  }

  // Why it ends: what is queued weighs more than all it can still queue

  ghost predicate Ranks(inv: Graph, rank: Ranking, bound: nat, vs: seq<Hash>) {
    Ranked(inv, rank) && Closed(inv) && forall v | v in vs :: v in inv && rank[v] < bound
  }

  ghost function Weights(inv: Graph, rank: Ranking, bound: nat, vs: seq<Hash>): nat
    requires Ranks(inv, rank, bound, vs)
    decreases bound, |vs|
  {
    if vs == [] then 0 else
    assert forall c | c in inv[vs[0]] :: Edge(inv, vs[0], c);
    1 + Weights(inv, rank, rank[vs[0]], inv[vs[0]]) + Weights(inv, rank, bound, vs[1..])
  }

  lemma {:induction false} WeightBound(inv: Graph, rank: Ranking, a: nat, b: nat, vs: seq<Hash>)
    requires Ranks(inv, rank, a, vs) && Ranks(inv, rank, b, vs)
    ensures Weights(inv, rank, a, vs) == Weights(inv, rank, b, vs)
    decreases |vs|
  {
    if vs != [] { WeightBound(inv, rank, a, b, vs[1..]); }
  }

  lemma WeightFirst(inv: Graph, rank: Ranking, bound: nat, vs: seq<Hash>)
    requires vs != [] && Ranks(inv, rank, bound, vs)
    ensures vs[0] in inv && Ranks(inv, rank, bound, inv[vs[0]]) && Ranks(inv, rank, bound, vs[1..])
    ensures Weights(inv, rank, bound, vs) ==
      1 + Weights(inv, rank, bound, inv[vs[0]]) + Weights(inv, rank, bound, vs[1..])
  {
    assert forall c | c in inv[vs[0]] :: Edge(inv, vs[0], c);
    assert vs[0] in vs;
    WeightBound(inv, rank, rank[vs[0]], bound, inv[vs[0]]);
  }

  lemma {:induction false} WeightLast(inv: Graph, rank: Ranking, bound: nat, vs: seq<Hash>, v: Hash)
    requires Ranks(inv, rank, bound, vs) && Ranks(inv, rank, bound, [v])
    ensures Ranks(inv, rank, bound, vs + [v])
    ensures Weights(inv, rank, bound, vs + [v]) == Weights(inv, rank, bound, vs) + Weights(inv, rank, bound, [v])
    decreases |vs|
  {
    if vs == [] {
      assert vs + [v] == [v];
    } else {
      WeightLast(inv, rank, bound, vs[1..], v);
      assert (vs + [v])[1..] == vs[1..] + [v];
    }
  }

  lemma WeightMove(inv: Graph, rank: Ranking, bound: nat, queue: seq<Hash>, edges: seq<Hash>, i: nat)
    requires i < |edges| && Ranks(inv, rank, bound, queue) && Ranks(inv, rank, bound, edges[i..])
    ensures Ranks(inv, rank, bound, queue + [edges[i]]) && Ranks(inv, rank, bound, edges[i + 1..])
    ensures Weights(inv, rank, bound, queue + [edges[i]]) + Weights(inv, rank, bound, edges[i + 1..]) ==
      Weights(inv, rank, bound, queue) + Weights(inv, rank, bound, edges[i..])
    ensures Weights(inv, rank, bound, queue) <= Weights(inv, rank, bound, queue + [edges[i]])
  {
    assert edges[i..][1..] == edges[i + 1..] && edges[i..][0] == edges[i];
    WeightFirst(inv, rank, bound, edges[i..]);
    assert Ranks(inv, rank, bound, [edges[i]]) by { assert edges[i] in edges[i..]; }
    hide *;
    WeightFirst(inv, rank, bound, [edges[i]]);
    WeightLast(inv, rank, bound, queue, edges[i]);
    WeightNone(inv, rank, bound, [edges[i]][1..]);
  }

  lemma WeightNone(inv: Graph, rank: Ranking, bound: nat, vs: seq<Hash>)
    requires vs == [] && Ranks(inv, rank, bound, vs)
    ensures Weights(inv, rank, bound, vs) == 0
  {
  }

  lemma InverseRank(g: Graph, inv: Graph) returns (rank: Ranking, bound: nat)
    requires DagOk(g, inv)
    ensures Ranked(inv, rank) && Closed(inv) && forall v | v in inv :: rank[v] < bound
  {
    InverseSym(g, inv);
    var up :| Ranked(g, up);
    var top := RankBound(up);
    rank := map v | v in inv :: top - up[v];
    bound := top + 1;
    forall u, v | Edge(inv, u, v) ensures rank[v] < rank[u] { assert Edge(g, v, u); }
  }

  lemma AncestorsClosed(g: Graph, v: Hash)
    requires Closed(g) && Acyclic(g)
    ensures ClosedUnder(g, Reach(g, v) - {v})
  {
    ReachClosed(g, v);
    var rank :| Ranked(g, rank);
    forall u, w | u in Reach(g, v) - {v} && Edge(g, u, w) ensures w != v {
      ReachRank(g, rank, v, u);
    }
  }

  lemma {:induction false} KeepParentsFirst(g: Graph, order: seq<Hash>, keep: set<Hash>)
    requires ParentsFirst(g, order) && ClosedUnder(g, keep)
    ensures ParentsFirst(g, Keep(order, keep))
  {
    if order != [] {
      var n := |order| - 1;
      var init, last := order[..n], order[n];
      assert order == init + [last];
      KeepSnoc(init, last, keep);
      forall i, p | 0 <= i < |init| && Edge(g, init[i], p) ensures p in init[..i] {
        assert order[..i] == init[..i];
      }
      KeepParentsFirst(g, init, keep);
      var kept := Keep(order, keep);
      forall i, p | 0 <= i < |kept| && Edge(g, kept[i], p) ensures p in kept[..i] {
        if i < |Keep(init, keep)| {
          assert kept[..i] == Keep(init, keep)[..i];
        } else {
          assert kept[..i] == Keep(init, keep);
          assert order[..n] == init;
        }
      }
    }
  }

  lemma ShippingOrder(g: Graph, v: Hash, ancestors: seq<Hash>)
    requires Closed(g) && v in g && ParentsFirst(g, ancestors)
    requires Acyclic(g) && Elems(ancestors) == Reach(g, v) - {v}
    ensures ParentsFirst(g, ancestors + [v]) && (Distinct(ancestors) ==> Distinct(ancestors + [v]))
    ensures Elems(ancestors + [v]) == Reach(g, v)
  {
    var order := ancestors + [v];
    assert v !in Elems(ancestors) && Elems(order) == Elems(ancestors) + {v};
    if Distinct(ancestors) { DistinctSnoc(ancestors, v); }
    ReachSelf(g, v);
    ReachClosed(g, v);
    NoSelfEdge(g, v);
    forall i, p | 0 <= i < |order| && Edge(g, order[i], p) ensures p in order[..i] {
      if i < |ancestors| {
        assert order[..i] == ancestors[..i];
      } else {
        assert order[..i] == ancestors;
        assert p in Elems(ancestors);
      }
    }
  }

  ghost function Shipped(g: Graph, sent: seq<Hash>): Graph {
    map u | u in sent && u in g :: g[u]
  }

  ghost function NoChits(sent: seq<Hash>): map<Hash, u8> {
    map u | u in sent :: 0
  }

  /** Each vertex of the shipping order finds all its parents in the copy. */
  lemma ShipFits(g: Graph, order: seq<Hash>, i: nat)
    requires i < |order| && ParentsFirst(g, order) && Elems(order) <= g.Keys
    ensures order[i] in g && (order[i] in Shipped(g, order[..i]) <==> order[i] in order[..i])
    ensures forall p :: p in g[order[i]] ==> p in Shipped(g, order[..i])
    ensures Shipped(g, order[..i + 1]) == Shipped(g, order[..i])[order[i] := g[order[i]]]
    ensures NoChits(order[..i + 1]) == NoChits(order[..i])[order[i] := 0]
  {
    var vx := order[i];
    assert vx in Elems(order);
    assert order[..i + 1] == order[..i] + [vx];
    forall p | p in g[vx] ensures p in Shipped(g, order[..i]) {
      assert Edge(g, vx, p);
      assert p in Elems(order);
    }
  }

  /** What the receiver has built from the vertices sent so far. */
  ghost predicate Rebuilt(g: Graph, sent: seq<Hash>, d: DagValue) {
    DagOk(d.g, d.inv) && d.g == Shipped(g, sent) && d.chits == NoChits(sent)
  }

  lemma ReachInside(g: Graph, v: Hash)
    ensures Reach(g, v) <= g.Keys
  {
  }

  lemma ShipStarts(g: Graph, order: seq<Hash>)
    ensures Rebuilt(g, order[..0], DagValue(map[], map[], map[]))
  {
    assert Ranked(map[], map[]);
  }

  lemma ShipStep(g: Graph, order: seq<Hash>, i: nat, d: DagValue)
    requires i < |order| && ParentsFirst(g, order) && Elems(order) <= g.Keys
    requires Rebuilt(g, order[..i], d)
    ensures order[i] in g
    ensures order[i] in d.g ==> Rebuilt(g, order[..i + 1], d)
    ensures order[i] !in d.g ==>
      var (e, r) := Inserted(d, order[i], g[order[i]]); r == Ok(()) && Rebuilt(g, order[..i + 1], e)
  {
    ShipFits(g, order, i);
    hide Acyclic, ParentsFirst, Elems, Inserted, PushAll;
    if order[i] !in d.g {
      InsertKeepsDag(d, order[i], g[order[i]]);
      InsertSucceeds(d, order[i], g[order[i]]);
    }
  }

  lemma ShipEnds(g: Graph, v: Hash, order: seq<Hash>, d: DagValue)
    requires Closed(g) && v in g && Elems(order) == Reach(g, v) && Rebuilt(g, order, d)
    ensures DagOk(d.g, d.inv) && d.g == Restrict(g, Reach(g, v)) && d.chits == map a | a in Reach(g, v) :: 0
  {
    hide DagOk;
    ShippedIsRestriction(g, v, order);
    hide Restrict, Reach;
    assert forall a :: a in Reach(g, v) <==> a in order by {
      assert forall a :: a in Elems(order) <==> a in order;
    }
  }

  lemma ShippedIsRestriction(g: Graph, v: Hash, order: seq<Hash>)
    requires Closed(g) && v in g && Elems(order) == Reach(g, v)
    ensures Shipped(g, order) == Restrict(g, Reach(g, v))
  {
    ReachClosed(g, v);
    var keep := Reach(g, v);
    forall u | u in keep ensures u in order && Keep(g[u], keep) == g[u] {
      assert u in Elems(order);
      forall w | w in g[u] ensures w in keep { assert Edge(g, u, w); }
      KeepAll(g[u], keep);
    }
    forall u | u in order ensures u in keep { assert u in Elems(order); }
  }
}
