/** Finite directed graphs given by adjacency lists, as `dag.rs` stores them: reachability,
    acyclicity, inverse graphs, and what removing vertices does to them. */
module Graphs {
  import opened Basics

  /** `u` is a child of every vertex in `g[u]`; following edges leads to ancestors. */
  type Graph = map<Hash, seq<Hash>>

  ghost predicate Edge(g: Graph, u: Hash, v: Hash) {
    u in g && v in g[u]
  }

  /** How many times `v` is listed in the adjacency list of `u`. */
  ghost function Edges(g: Graph, u: Hash, v: Hash): (n: nat)
    ensures n > 0 <==> Edge(g, u, v)
  {
    if u in g then multiset(g[u])[v] else 0
  }

  ghost predicate Closed(g: Graph) {
    forall u, v :: Edge(g, u, v) ==> v in g
  }

  // reachability

  /** `p` lists the vertices after `u` on a walk from `u` to `v`. */
  ghost predicate Walk(g: Graph, u: Hash, p: seq<Hash>, v: Hash)
    decreases |p|
  {
    u in g && if p == [] then u == v else p[0] in g[u] && Walk(g, p[0], p[1..], v)
  }

  ghost predicate Reaches(g: Graph, u: Hash, v: Hash) {
    exists p :: Walk(g, u, p, v)
  }

  /** Everything reachable from `u`, `u` included: its ancestors-or-self in `g`. */
  ghost function Reach(g: Graph, u: Hash): set<Hash> {
    set v | v in g && Reaches(g, u, v)
  }

  ghost function ReachAll(g: Graph, s: set<Hash>): set<Hash> {
    set v | v in g && exists u :: u in s && Reaches(g, u, v)
  }

  lemma {:induction false} WalkEnds(g: Graph, u: Hash, p: seq<Hash>, v: Hash)
    requires Walk(g, u, p, v)
    ensures u in g && v in g
    decreases |p|
  {
    if p != [] { WalkEnds(g, p[0], p[1..], v); }
  }

  lemma ReachSelf(g: Graph, u: Hash)
    requires u in g
    ensures Reaches(g, u, u) && u in Reach(g, u)
  {
    assert Walk(g, u, [], u);
  }

  lemma ReachStep(g: Graph, u: Hash, v: Hash, w: Hash)
    requires Edge(g, u, v) && Reaches(g, v, w)
    ensures Reaches(g, u, w) && w in Reach(g, u)
  {
    var p :| Walk(g, v, p, w);
    WalkEnds(g, v, p, w);
    assert ([v] + p)[1..] == p;
    assert Walk(g, u, [v] + p, w);
  }

  lemma {:induction false} ReachTrans(g: Graph, u: Hash, v: Hash, w: Hash)
    requires Reaches(g, u, v) && Reaches(g, v, w)
    ensures Reaches(g, u, w) && w in Reach(g, u)
  {
    var p :| Walk(g, u, p, v);
    WalkTrans(g, u, p, v, w);
  }

  lemma {:induction false} WalkTrans(g: Graph, u: Hash, p: seq<Hash>, v: Hash, w: Hash)
    requires Walk(g, u, p, v) && Reaches(g, v, w)
    ensures Reaches(g, u, w) && w in Reach(g, u)
    decreases |p|
  {
    if p == [] {
      var q :| Walk(g, v, q, w);
      WalkEnds(g, v, q, w);
    } else {
      WalkTrans(g, p[0], p[1..], v, w);
      ReachStep(g, u, p[0], w);
    }
  }

  lemma ReachMember(g: Graph, u: Hash, v: Hash)
    ensures Reaches(g, u, v) <==> v in Reach(g, u)
    ensures Reaches(g, u, v) ==> u in g
  {
    if Reaches(g, u, v) {
      var p :| Walk(g, u, p, v);
      WalkEnds(g, u, p, v);
    }
  }

  ghost predicate ClosedUnder(g: Graph, s: set<Hash>) {
    forall u, v :: u in s && Edge(g, u, v) ==> v in s
  }

  /** `Reach(g, u)` is the least set that holds `u` and is closed under edges. */
  lemma {:induction false} ReachLeast(g: Graph, u: Hash, s: set<Hash>)
    requires u in s && ClosedUnder(g, s)
    ensures Reach(g, u) <= s
  {
    forall v | v in Reach(g, u) ensures v in s {
      var p :| Walk(g, u, p, v);
      WalkInside(g, u, p, v, s);
    }
  }

  lemma {:induction false} WalkInside(g: Graph, u: Hash, p: seq<Hash>, v: Hash, s: set<Hash>)
    requires u in s && ClosedUnder(g, s) && Walk(g, u, p, v)
    ensures v in s
    decreases |p|
  {
    if p != [] {
      assert Edge(g, u, p[0]);
      WalkInside(g, p[0], p[1..], v, s);
    }
  }

  lemma ReachClosed(g: Graph, u: Hash)
    requires Closed(g)
    ensures ClosedUnder(g, Reach(g, u))
  {
    forall v, w | v in Reach(g, u) && Edge(g, v, w) ensures w in Reach(g, u) {
      ReachSelf(g, w);
      ReachStep(g, v, w, w);
      ReachTrans(g, u, v, w);
    }
  }

  lemma ReachSubset(g: Graph, u: Hash, v: Hash)
    requires v in Reach(g, u)
    ensures Reach(g, v) <= Reach(g, u)
  {
    forall w | w in Reach(g, v) ensures w in Reach(g, u) { ReachTrans(g, u, v, w); }
  }

  /** A set holding `u` that is closed under edges and reachable from `u` is `Reach(g, u)`. */
  lemma ReachExact(g: Graph, u: Hash, s: set<Hash>)
    requires u in s && ClosedUnder(g, s) && s <= Reach(g, u)
    ensures s == Reach(g, u)
  {
    ReachLeast(g, u, s);
  }

  // inverse graphs

  /** `inv` is `g` with every edge turned around, repeated edges included. */
  ghost predicate Inverse(g: Graph, inv: Graph) {
    && g.Keys == inv.Keys
    && forall u, v :: Edges(g, u, v) == Edges(inv, v, u)
  }

  lemma InverseSym(g: Graph, inv: Graph)
    requires Inverse(g, inv)
    ensures Inverse(inv, g) && Closed(g) && Closed(inv)
    ensures forall u, v :: Edge(g, u, v) <==> Edge(inv, v, u)
  {
    forall u, v ensures Edge(g, u, v) <==> Edge(inv, v, u) {
      assert Edges(g, u, v) == Edges(inv, v, u);
    }
    assert forall u, v :: Edges(inv, u, v) == Edges(g, v, u);
  }

  lemma ReachInverse(g: Graph, inv: Graph, u: Hash, v: Hash)
    requires Inverse(g, inv)
    ensures Reaches(g, u, v) <==> Reaches(inv, v, u)
  {
    InverseSym(g, inv);
    if Reaches(g, u, v) {
      var p :| Walk(g, u, p, v);
      WalkInverse(g, inv, u, p, v);
    }
    if Reaches(inv, v, u) {
      var p :| Walk(inv, v, p, u);
      WalkInverse(inv, g, v, p, u);
    }
  }

  lemma {:induction false} WalkInverse(g: Graph, inv: Graph, u: Hash, p: seq<Hash>, v: Hash)
    requires Inverse(g, inv) && Walk(g, u, p, v)
    ensures Reaches(inv, v, u)
    decreases |p|
  {
    InverseSym(g, inv);
    if p == [] {
      ReachSelf(inv, u);
    } else {
      WalkInverse(g, inv, p[0], p[1..], v);
      assert Edge(g, u, p[0]);
      ReachSelf(inv, u);
      ReachStep(inv, p[0], u, u);
      ReachTrans(inv, v, p[0], u);
    }
  }

  // acyclicity

  type Ranking = map<Hash, nat>

  /** A rank that falls along every edge: parents rank below their children. */
  ghost predicate Ranked(g: Graph, rank: Ranking) {
    && g.Keys <= rank.Keys
    && forall u, v :: Edge(g, u, v) ==> v in rank && rank[v] < rank[u]
  }

  ghost predicate Acyclic(g: Graph) {
    exists rank :: Ranked(g, rank)
  }

  lemma {:induction false} WalkRank(g: Graph, rank: Ranking, u: Hash, p: seq<Hash>, v: Hash)
    requires Ranked(g, rank) && Walk(g, u, p, v)
    ensures v in rank && u in rank && (p == [] || rank[v] < rank[u])
    decreases |p|
  {
    if p != [] {
      assert Edge(g, u, p[0]);
      WalkRank(g, rank, p[0], p[1..], v);
    }
  }

  lemma ReachRank(g: Graph, rank: Ranking, u: Hash, v: Hash)
    requires Ranked(g, rank) && Reaches(g, u, v) && u != v
    ensures v in rank && u in rank && rank[v] < rank[u]
  {
    var p :| Walk(g, u, p, v);
    WalkRank(g, rank, u, p, v);
  }

  lemma {:induction false} RankBound(rank: Ranking) returns (bound: nat)
    ensures forall u :: u in rank ==> rank[u] < bound
    decreases |rank|
  {
    if rank == map[] {
      bound := 0;
    } else {
      var x :| x in rank;
      bound := RankBound(rank - {x});
      bound := bound + rank[x] + 1;
      forall u | u in rank ensures rank[u] < bound {
        assert u == x || u in rank - {x};
      }
    }
  }

  /** In a finite acyclic graph every vertex is reachable from some leaf. */
  lemma {:induction false} LeafAbove(g: Graph, inv: Graph, v: Hash) returns (leaf: Hash)
    requires Inverse(g, inv) && Acyclic(g) && v in g
    ensures leaf in g && inv[leaf] == [] && Reaches(g, leaf, v)
  {
    var rank :| Ranked(g, rank);
    var bound := RankBound(rank);
    leaf := ClimbToLeaf(g, inv, rank, bound, v);
  }

  lemma {:induction false} ClimbToLeaf(g: Graph, inv: Graph, rank: Ranking, bound: nat, v: Hash)
    returns (leaf: Hash)
    requires Inverse(g, inv) && Ranked(g, rank) && v in g
    requires forall u :: u in rank ==> rank[u] < bound
    ensures leaf in g && inv[leaf] == [] && Reaches(g, leaf, v)
    decreases bound - rank[v]
  {
    InverseSym(g, inv);
    ReachSelf(g, v);
    if inv[v] == [] {
      leaf := v;
    } else {
      var child := inv[v][0];
      assert Edge(inv, v, child);
      leaf := ClimbToLeaf(g, inv, rank, bound, child);
      ReachStep(g, child, v, v);
      ReachTrans(g, leaf, child, v);
    }
  }

  /** A non-empty set of vertices of an acyclic graph has a member with no parent in the set. */
  lemma LowestIn(g: Graph, rank: Ranking, s: set<Hash>) returns (v: Hash)
    requires Ranked(g, rank) && s != {} && s <= g.Keys
    ensures v in s && forall u :: Edge(g, v, u) ==> u !in s
    decreases |s|
  {
    v :| v in s;
    var rest := s - {v};
    while rest != {}
      invariant v in s && rest <= s
      invariant forall u :: u in s - rest ==> rank[v] <= rank[u]
      decreases rest
    {
      var x :| x in rest;
      if rank[x] < rank[v] { v := x; }
      rest := rest - {x};
    }
  }

  /** No walk of one step or more leads from a vertex back to itself. */
  ghost predicate NoCycle(g: Graph) {
    forall u, p :: p != [] ==> !Walk(g, u, p, u)
  }

  /** The rank of a vertex can be taken to be the number of its ancestors. */
  lemma AcyclicIsNoCycle(g: Graph)
    requires Closed(g)
    ensures Acyclic(g) <==> NoCycle(g)
  {
    if Acyclic(g) {
      var rank :| Ranked(g, rank);
      forall u, p | p != [] && Walk(g, u, p, u) ensures false { WalkRank(g, rank, u, p, u); }
    }
    if NoCycle(g) {
      var rank: Ranking := map u | u in g :: |Reach(g, u)|;
      forall u, v | Edge(g, u, v) ensures rank[v] < rank[u] { AncestorsShrink(g, u, v); }
      assert Ranked(g, rank);
    }
  }

  lemma AncestorsShrink(g: Graph, u: Hash, v: Hash)
    requires Closed(g) && NoCycle(g) && Edge(g, u, v)
    ensures |Reach(g, v)| < |Reach(g, u)|
  {
    ReachSelf(g, u);
    ReachSelf(g, v);
    ReachStep(g, u, v, v);
    ReachSubset(g, u, v);
    if u in Reach(g, v) {
      var p :| Walk(g, v, p, u);
      assert ([v] + p)[1..] == p;
      assert Walk(g, u, [v] + p, u);
    }
    SubsetSize(Reach(g, v), Reach(g, u) - {u});
  }

  lemma {:induction false} SubsetSize<T>(s: set<T>, t: set<T>)
    requires s <= t
    ensures |s| <= |t|
  {
    if s != {} {
      var x :| x in s;
      SubsetSize(s - {x}, t - {x});
    }
  }

  // removing vertices

  /** The subgraph on the vertices in `keep`. */
  ghost function Restrict(g: Graph, keep: set<Hash>): Graph {
    map v | v in g && v in keep :: Keep(g[v], keep)
  }

  /** `g` with `x` and every edge from or to `x` taken out. */
  ghost function RemoveVertex(g: Graph, x: Hash): Graph {
    map v | v in g && v != x :: Without(g[v], x)
  }

  lemma RestrictEdges(g: Graph, keep: set<Hash>, u: Hash, v: Hash)
    ensures Edges(Restrict(g, keep), u, v) == if u in keep && v in keep then Edges(g, u, v) else 0
    ensures Edge(Restrict(g, keep), u, v) <==> u in keep && v in keep && Edge(g, u, v)
  {
    if u in g && u in keep {
      KeepCounts(g[u], keep, v);
      assert Restrict(g, keep)[u] == Keep(g[u], keep);
    }
  }

  lemma RemoveFromRestricted(g: Graph, keep: set<Hash>, x: Hash)
    ensures RemoveVertex(Restrict(g, keep), x) == Restrict(g, keep - {x})
  {
    forall v | v in g && v in keep - {x}
      ensures Without(Restrict(g, keep)[v], x) == Keep(g[v], keep - {x})
    {
      WithoutKeep(g[v], keep, x);
    }
  }

  lemma RestrictToAll(g: Graph)
    requires Closed(g)
    ensures Restrict(g, g.Keys) == g
  {
    forall v | v in g ensures Keep(g[v], g.Keys) == g[v] {
      forall w | w in g[v] ensures w in g { assert Edge(g, v, w); }
      KeepAll(g[v], g.Keys);
    }
  }

  lemma RemoveIsRestrict(g: Graph, x: Hash)
    requires Closed(g)
    ensures RemoveVertex(g, x) == Restrict(g, g.Keys - {x})
  {
    RestrictToAll(g);
    RemoveFromRestricted(g, g.Keys, x);
  }

  lemma RestrictInverse(g: Graph, inv: Graph, keep: set<Hash>)
    requires Inverse(g, inv)
    ensures Inverse(Restrict(g, keep), Restrict(inv, keep))
  {
    forall u, v ensures Edges(Restrict(g, keep), u, v) == Edges(Restrict(inv, keep), v, u) {
      RestrictEdges(g, keep, u, v);
      RestrictEdges(inv, keep, v, u);
    }
  }

  lemma RestrictAcyclic(g: Graph, keep: set<Hash>)
    requires Acyclic(g)
    ensures Acyclic(Restrict(g, keep))
  {
    var rank :| Ranked(g, rank);
    forall u, v | Edge(Restrict(g, keep), u, v) ensures Edge(g, u, v) { RestrictEdges(g, keep, u, v); }
    assert Ranked(Restrict(g, keep), rank);
  }

  lemma {:induction false} RestrictedWalk(g: Graph, keep: set<Hash>, u: Hash, p: seq<Hash>, v: Hash)
    requires Walk(Restrict(g, keep), u, p, v)
    ensures Walk(g, u, p, v)
    decreases |p|
  {
    if p != [] {
      RestrictEdges(g, keep, u, p[0]);
      assert Edge(Restrict(g, keep), u, p[0]);
      RestrictedWalk(g, keep, p[0], p[1..], v);
    }
  }

  lemma RestrictedReach(g: Graph, keep: set<Hash>, u: Hash, v: Hash)
    requires Reaches(Restrict(g, keep), u, v)
    ensures Reaches(g, u, v) && u in keep && v in keep
  {
    var p :| Walk(Restrict(g, keep), u, p, v);
    RestrictedWalk(g, keep, u, p, v);
    WalkEnds(Restrict(g, keep), u, p, v);
  }

  /** A walk survives a restriction that keeps everything from which its end can be reached. */
  lemma {:induction false} WalkSurvives(g: Graph, keep: set<Hash>, u: Hash, p: seq<Hash>, v: Hash)
    requires Walk(g, u, p, v)
    requires forall w :: Reaches(g, w, v) ==> w in keep
    ensures Reaches(Restrict(g, keep), u, v)
    decreases |p|
  {
    assert Reaches(g, u, v);
    if p == [] {
      ReachSelf(Restrict(g, keep), u);
    } else {
      WalkSurvives(g, keep, p[0], p[1..], v);
      assert Reaches(g, p[0], v);
      assert Edge(g, u, p[0]);
      RestrictEdges(g, keep, u, p[0]);
      ReachStep(Restrict(g, keep), u, p[0], v);
    }
  }

  lemma ReachSurvives(g: Graph, keep: set<Hash>, u: Hash, v: Hash)
    requires forall w :: Reaches(g, w, v) ==> w in keep
    ensures Reaches(Restrict(g, keep), u, v) <==> Reaches(g, u, v)
  {
    if Reaches(g, u, v) {
      var p :| Walk(g, u, p, v);
      WalkSurvives(g, keep, u, p, v);
    }
    if Reaches(Restrict(g, keep), u, v) { RestrictedReach(g, keep, u, v); }
  }
}
