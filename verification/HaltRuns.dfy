/** A run in which the rejection of conflicting transactions halts with one of them left in the DAG. */
module HaltRuns {
  import opened Basics
  import opened Cells
  import opened Graphs
  import opened Dags
  import opened Frontiers
  import opened Sleets
  import opened SleetRuns
  import opened Supports
  import opened Scenes
  import C = ConflictGraphs
  import N = SleetNode

  const OUT := Output(1, Transfer, 0, true, Hash(0))
  const Z := Cell(Hash(1), {CellId(Hash(0), 100)}, [])
  const X := Cell(Hash(2), {CellId(Hash(0), 101)}, [])
  const H := Cell(Hash(3), {CellId(Hash(0), 101)}, [OUT])
  const R := Cell(Hash(4), {CellId(Hash(0), 101)}, [OUT, OUT])
  const K := Cell(Hash(5), {CellId(Hash(0), 102)}, [])

  const P1 := Plot(map[Hash(1) := []], map[Hash(1) := Z], map[Hash(1) := 0], {Hash(1)}, {})
  const P2 := Plot(map[Hash(1) := [], Hash(2) := []], map[Hash(1) := Z, Hash(2) := X], map[Hash(1) := 0, Hash(2) := 0],
                   {Hash(1), Hash(2)}, {})
  const P3 := Plot(map[Hash(1) := [], Hash(2) := [], Hash(3) := []], map[Hash(1) := Z, Hash(2) := X, Hash(3) := H],
                   map[Hash(1) := 0, Hash(2) := 0, Hash(3) := 0], {Hash(1), Hash(2)}, {})
  const P4 := Plot(map[Hash(1) := [], Hash(2) := [], Hash(3) := [], Hash(4) := []],
                   map[Hash(1) := Z, Hash(2) := X, Hash(3) := H, Hash(4) := R],
                   map[Hash(1) := 0, Hash(2) := 0, Hash(3) := 0, Hash(4) := 0], {Hash(1), Hash(2)}, {})
  const G := map[Hash(1) := [], Hash(2) := [], Hash(3) := [], Hash(4) := [], Hash(5) := [Hash(2)]]
  const CELLS := map[Hash(1) := Z, Hash(2) := X, Hash(3) := H, Hash(4) := R, Hash(5) := K]

  /** All five have arrived. */
  const P5 := Plot(G, CELLS, map[Hash(1) := 0, Hash(2) := 0, Hash(3) := 0, Hash(4) := 0, Hash(5) := 0],
                   {Hash(1), Hash(2), Hash(5)}, {})

  /** `Z` has been found final. */
  const P6 := P5.(cnts := map[Hash(1) := 11, Hash(2) := 0, Hash(3) := 0, Hash(4) := 0, Hash(5) := 0], done := {Hash(1)})
  const P7 := P6.(own := {Hash(1), Hash(2), Hash(3), Hash(5)})

  /** Then `H`. */
  const P8 := P7.(cnts := map[Hash(1) := 11, Hash(2) := 0, Hash(3) := 20, Hash(4) := 0, Hash(5) := 0],
                  done := {Hash(1), Hash(3)})

  /** Then `X` and its child `K`. */
  const P9 := P8.(cnts := map[Hash(1) := 11, Hash(2) := 20, Hash(3) := 20, Hash(4) := 0, Hash(5) := 20],
                  done := {Hash(1), Hash(3)} + {Hash(2), Hash(5)})

  lemma Outs()
    ensures Produced(Z) == {} && Produced(X) == {} && Produced(K) == {}
    ensures Produced(H) == {CellId(Hash(3), 0)} && Produced(R) == {CellId(Hash(4), 0), CellId(Hash(4), 1)}
    ensures CellId(Hash(0), 100) == Coin(100) && CellId(Hash(0), 101) == Coin(101) && CellId(Hash(0), 102) == Coin(102)
  {
    assert OutputIds(Hash(3), 0) == {} && OutputIds(Hash(4), 0) == {};
    assert OutputIds(Hash(4), 2) == OutputIds(Hash(4), 1) + {CellId(Hash(4), 1)};
  }

  lemma Shared()
    ensures C.Conflict(X, H) && C.Conflict(H, X) && C.Conflict(X, R) && C.Conflict(R, X) && C.Conflict(H, R)
    ensures C.Conflict(R, H)
    ensures !C.Conflict(Z, X) && !C.Conflict(Z, H) && !C.Conflict(Z, R) && !C.Conflict(Z, K)
    ensures !C.Conflict(X, Z) && !C.Conflict(H, Z) && !C.Conflict(R, Z) && !C.Conflict(K, Z)
    ensures !C.Conflict(K, X) && !C.Conflict(K, H) && !C.Conflict(K, R)
    ensures !C.Conflict(X, K) && !C.Conflict(H, K) && !C.Conflict(R, K)
  {
    assert CellId(Hash(0), 101) in X.inputs && CellId(Hash(0), 101) in H.inputs && CellId(Hash(0), 101) in R.inputs;
  }

  lemma ZEnters()
    ensures Newcomer(NOBODY, Tx([], Z, Pending)) && Entered(NOBODY, 0, Tx([], Z, Pending)) == P1
  {
    Outs();
    hide Produced;
  }

  lemma XEnters()
    ensures Newcomer(P1, Tx([], X, Pending)) && Entered(P1, 0, Tx([], X, Pending)) == P2
  {
    Outs();
    Shared();
    hide Produced, C.Conflict;
  }

  lemma HEnters()
    ensures Newcomer(P2, Tx([], H, Pending)) && Entered(P2, 0, Tx([], H, Pending)) == P3
  {
    Outs();
    Shared();
    hide Produced, C.Conflict;
    assert Hash(2) in P2.cells && !Unconflicted(P2.cells, H);
    assert AllZero(P2);
  }

  lemma REnters()
    ensures Newcomer(P3, Tx([], R, Pending)) && Entered(P3, 0, Tx([], R, Pending)) == P4
  {
    Outs();
    Shared();
    hide Produced, C.Conflict;
    assert Hash(2) in P3.cells && !Unconflicted(P3.cells, R);
    assert AllZero(P3);
  }

  lemma KEnters()
    ensures Newcomer(P4, Tx([Hash(2)], K, Pending)) && Entered(P4, 0, Tx([Hash(2)], K, Pending)) == P5
  {
    Outs();
    Shared();
    hide Produced, C.Conflict;
  }

  lemma Rivals()
    ensures C.ConflictsOf(CELLS, Hash(1)) == {Hash(1)} && C.ConflictsOf(CELLS, Hash(5)) == {Hash(5)}
    ensures C.ConflictsOf(CELLS, Hash(2)) == {Hash(2), Hash(3), Hash(4)}
    ensures C.ConflictsOf(CELLS, Hash(3)) == {Hash(2), Hash(3), Hash(4)}
  {
    Shared();
    hide C.Conflict;
  }

  lemma Ancestries()
    ensures Reach(G, Hash(1)) == {Hash(1)} && Reach(G, Hash(2)) == {Hash(2)} && Reach(G, Hash(3)) == {Hash(3)}
    ensures Reach(G, Hash(5)) == {Hash(2), Hash(5)}
  {
    NoParents(G, Hash(1));
    NoParents(G, Hash(2));
    NoParents(G, Hash(3));
    OneParent(G, Hash(5), Hash(2));
  }

  lemma OneParent(g: Graph, v: Hash, u: Hash)
    requires v in g && g[v] == [u] && u in g && g[u] == []
    ensures Reach(g, v) == {u, v}
  {
    ReachSelf(g, v);
    ReachSelf(g, u);
    assert Edge(g, v, u);
    ReachStep(g, v, u, u);
    assert ClosedUnder(g, {u, v}) by { hide Reach; }
    ReachLeast(g, v, {u, v});
  }

  lemma ZRipens()
    ensures Ripe(P5, Hash(1), Hash(1), 11) && Ripened(P5, Hash(1), 11) == P6
  {
    Rivals();
    Ancestries();
    hide Reach, C.ConflictsOf;
  }

  lemma HVotes()
    ensures Votable(P6, Hash(3)) && VotedOn(P6, Hash(3)) == P7
  {
    Rivals();
    hide C.ConflictsOf;
    assert Hash(2) in {Hash(2), Hash(3), Hash(4)} && Hash(2) !in {Hash(3)};
  }

  lemma HRipens()
    ensures Ripe(P7, Hash(3), Hash(3), 20) && Ripened(P7, Hash(3), 20) == P8
  {
    Rivals();
    Ancestries();
    hide Reach, C.ConflictsOf;
    assert Hash(2) in {Hash(2), Hash(3), Hash(4)} && Hash(2) !in {Hash(3)};
  }

  lemma KRipens()
    ensures Ripe(P8, Hash(5), Hash(2), 20) && Ripened(P8, Hash(5), 20) == P9
  {
    Rivals();
    Ancestries();
    hide Reach, C.ConflictsOf;
    assert Hash(3) in {Hash(2), Hash(3), Hash(4)} && Hash(3) !in {Hash(2)};
  }

  /** `Z`, `H`, and `X` with its child `K`, are found final in this order. */
  lemma FourFound() returns (run: Run)
    ensures Act(run, 52, P9) && Outbox(run) == [{Hash(1)}, {Hash(3)}, {Hash(2), Hash(5)}]
  {
    hide *;
    var r0 := Begin();
    ZEnters();
    var r1 := Enter(r0, 0, NOBODY, Tx([], Z, Pending));
    XEnters();
    var r2 := Enter(r1, 0, P1, Tx([], X, Pending));
    HEnters();
    var r3 := Enter(r2, 0, P2, Tx([], H, Pending));
    REnters();
    var r4 := Enter(r3, 0, P3, Tx([], R, Pending));
    KEnters();
    var r5 := Enter(r4, 0, P4, Tx([Hash(2)], K, Pending));
    ZRipens();
    var r6 := Ripen(r5, 0, P5, Hash(1), Hash(1), 11);
    HVotes();
    var r7 := Vote(r6, 11, P6, Hash(3));
    HRipens();
    var r8 := Ripen(r7, 12, P7, Hash(3), Hash(3), 20);
    KRipens();
    run := Ripen(r8, 32, P8, Hash(5), Hash(2), 20);
    Ancestries();
    Graphs56();
    assert Outbox(run) == [{Hash(1)}, {Hash(3)}, {Hash(2), Hash(5)}];
  }

  lemma Graphs56()
    ensures P5.g == G && P7.g == G && P8.g == G
  {
  }

  // `Z` is announced, and `X` pruned

  /** Accepting a cell without conflicts changes nothing but its conflict set. */
  lemma Unopposed(s: SleetValue, cell: Cell)
    requires Sane(s) && cell.hash in s.cg.cs && cell.hash in s.cg.cells && s.cg.cells[cell.hash] == cell
    requires s.cg.cs[cell.hash].conflicts == {cell.hash}
    ensures AcceptStep(s, cell.hash, s.(cg := C.AcceptedCell(s.cg, cell)))
  {
    SaneFacts(s);
    OkParts(s);
    assert C.RejectedBy(s.cg, cell) == {};
    var u := s.(cg := C.AcceptedCell(s.cg, cell));
    hide *;
    N.SweptStart(s, cell);
    UnopposedShrunk(s, cell, u);
    ShrunkIsStep(s, cell, {}, {}, u);
  }

  lemma UnopposedShrunk(s: SleetValue, cell: Cell, u: SleetValue)
    requires cell.hash in s.cg.cs && C.RejectedBy(s.cg, cell) == {} && N.SweptTo(s, cell, {}, {}, u)
    ensures Shrunk(s, cell, {}, {}, u) && RejectedInDag(s, cell)
  {
    hide C.RemovedCells, C.AcceptedCell, RestrictDag, C.RejectedBy, ShrunkStore, Progeny;
  }

  lemma UnopposedShape(s: SleetValue, cell: Cell)
    requires cell.hash in s.cg.cs && s.cg.cs[cell.hash].conflicts == {cell.hash}
    ensures var cg := C.AcceptedCell(s.cg, cell);
      cg.cells == s.cg.cells && cg.cs.Keys == s.cg.cs.Keys && forall k :: k in cg.cs ==> cg.cs[k].cnt == s.cg.cs[k].cnt
  {
    AcceptedCells(s.cg, cell);
    assert C.RejectedBy(s.cg, cell) == {};
    assert s.cg.cells - {} == s.cg.cells;
    hide Produced, C.RemovedVertices, Keep;
  }

  /** The final vertices are those found final. */
  lemma FoundAreFinal(u: SleetValue, n: nat, p: Plot)
    requires SceneGraph(u.dag.g, n, p) && SetCounts(u.cg.cs, n, p) && SceneStore(u.store, n, p) && p.done <= p.g.Keys
    requires forall k :: k in p.g && k !in p.done ==> k in p.cnts && p.cnts[k] < C.BETA1
    ensures Acc(u.dag.g, u.cg.cs, u.store) == p.done
  {
    hide Children;
    forall k | k in u.dag.g ensures AcceptedTx(u.cg.cs, u.store, k) <==> k in p.done {
    }
  }

  lemma FrontierOfFour(g: Graph)
    requires Hash(1) in g && Hash(2) in g && Hash(3) in g && Hash(5) in g
    requires Reach(g, Hash(1)) == {Hash(1)} && Reach(g, Hash(2)) == {Hash(2)} && Reach(g, Hash(3)) == {Hash(3)}
    requires Reach(g, Hash(5)) == {Hash(2), Hash(5)}
    ensures var f := {Hash(1), Hash(3), Hash(5)}; var acc := {Hash(1), Hash(3)} + {Hash(2), Hash(5)};
      IsFrontier(g, acc, f) && ReachAll(g, f) == acc
  {
    FinalsOfFour(g);
    AboveThree(g);
    hide Reach, Final, ReachAll;
  }

  lemma AboveThree(g: Graph)
    requires Hash(1) in g && Hash(2) in g && Hash(3) in g && Hash(5) in g
    requires Reach(g, Hash(1)) == {Hash(1)} && Reach(g, Hash(3)) == {Hash(3)} && Reach(g, Hash(5)) == {Hash(2), Hash(5)}
    ensures ReachAll(g, {Hash(1), Hash(3), Hash(5)}) == {Hash(1), Hash(3)} + {Hash(2), Hash(5)}
  {
    var f := {Hash(1), Hash(3), Hash(5)};
    forall v
      ensures v in ReachAll(g, f) <==> v in Reach(g, Hash(1)) || v in Reach(g, Hash(3)) || v in Reach(g, Hash(5))
    {
      assert Hash(1) in f && Hash(3) in f && Hash(5) in f;
    }
    hide Reach, ReachAll;
  }

  lemma FinalsOfFour(g: Graph)
    requires Hash(1) in g && Hash(2) in g && Hash(3) in g && Hash(5) in g
    requires Reach(g, Hash(1)) == {Hash(1)} && Reach(g, Hash(2)) == {Hash(2)} && Reach(g, Hash(3)) == {Hash(3)}
    requires Reach(g, Hash(5)) == {Hash(2), Hash(5)}
    ensures Final(g, {Hash(1), Hash(3)} + {Hash(2), Hash(5)}) == {Hash(1), Hash(3)} + {Hash(2), Hash(5)}
  {
    var acc := {Hash(1), Hash(3)} + {Hash(2), Hash(5)};
    forall v | v in g ensures v in Final(g, acc) <==> v in acc { ReachSelf(g, v); }
  }

  lemma NamedP9()
    ensures P9.g == G && P9.cells == CELLS && P9.done == {Hash(1), Hash(3)} + {Hash(2), Hash(5)} && P9.done <= P9.g.Keys
    ensures Hash(1) in G && Hash(2) in G && Hash(3) in G && Hash(4) in G && Hash(5) in G
    ensures CELLS[Hash(1)] == Z && CELLS[Hash(3)] == H && Z.hash == Hash(1) && H.hash == Hash(3)
    ensures Hash(4) !in P9.done && forall k :: k in P9.g && k !in P9.done ==> k in P9.cnts && P9.cnts[k] < C.BETA1
  {
  }

  lemma SameCounts(cs: map<Hash, C.ConflictSet>, n: nat, p: Plot, cs': map<Hash, C.ConflictSet>)
    requires SceneSets(cs, n, p) && cs'.Keys == cs.Keys && forall k :: k in cs' ==> cs'[k].cnt == cs[k].cnt
    ensures SetCounts(cs', n, p)
  {
    hide Children, SetLasts;
  }

  /** The first announcement, of `Z`, prunes `X`, whose child is final. */
  lemma XPruned() returns (run: Run)
    ensures Valid(run) && Clean(run) && Reporting(run) && Outbox(run) == [{Hash(3)}, {Hash(2), Hash(5)}]
    ensures Hash(2) !in Last(run).dag.g && Hash(4) in Last(run).dag.g && Open(Last(run).store, Hash(4))
    ensures Stands(Last(run))
  {
    hide *;
    var four := FourFound();
    var s := Last(four);
    ActParts(four, 52, P9);
    StandingParts(four, 52);
    SceneParts(s, 52, P9);
    BaseParts(s, 52);
    NamedP9();
    NamedFacts(s, 52, P9, Hash(1));
    NamedFacts(s, 52, P9, Hash(3));
    Rivals();
    SceneConflicts(s, 52, P9, Hash(1));
    Unopposed(s, Z);
    UnopposedShape(s, Z);
    var u := s.(cg := C.AcceptedCell(s.cg, Z));
    SameCounts(s.cg.cs, 52, P9, u.cg.cs);
    FoundAreFinal(u, 52, P9);
    Ancestries();
    SceneReach(s, 52, P9, Hash(1));
    SceneReach(s, 52, P9, Hash(2));
    SceneReach(s, 52, P9, Hash(3));
    SceneReach(s, 52, P9, Hash(4));
    SceneReach(s, 52, P9, Hash(5));
    FrontierOfFour(s.dag.g);
    var f := {Hash(1), Hash(3), Hash(5)};
    run := Deliver(four, Hash(1), u, f);
    assert Outbox(four)[1..] == [{Hash(3)}, {Hash(2), Hash(5)}];
    PrunedOf(u, f);
    SceneFacts(s, 52, P9, Hash(4));
    NamedConflicts(s.cg.cells, 52, P9, Hash(3));
    StandsIs(s, Last(run));
  }

  /** `H` is known, and conflicts with `X` and `R`. */
  ghost predicate Stands(t: SleetValue) {
    && Hash(3) in t.store && t.store[Hash(3)].cell == H && Hash(3) in t.cg.cells && t.cg.cells[Hash(3)] == H
    && C.ConflictsOf(t.cg.cells, Hash(3)) == {Hash(2), Hash(3), Hash(4)}
  }

  lemma StandsIs(s: SleetValue, t: SleetValue)
    requires t.store == s.store && t.cg.cells == s.cg.cells
    requires Hash(3) in s.store && s.store[Hash(3)].cell == H && Hash(3) in s.cg.cells && s.cg.cells[Hash(3)] == H
    requires C.ConflictsOf(s.cg.cells, Hash(3)) == {Hash(2), Hash(3), Hash(4)}
    ensures Stands(t)
  {
    hide C.ConflictsOf;
  }

  lemma PrunedOf(u: SleetValue, f: set<Hash>)
    ensures var t := Pruned(u, f);
      t.store == u.store && t.cg == u.cg && t.dag.g.Keys == u.dag.g.Keys - (ReachAll(u.dag.g, f) - f)
  {
    hide ReachAll;
  }

  /** `H` is announced next, and the cells it rejects are partly in the DAG and partly outside: the
      rejection can halt with `R` left in the DAG, on which the search for the frontier then panics. */
  lemma MixedHalt() returns (run: Run, order: seq<Hash>, t: SleetValue)
    ensures Valid(run) && Reporting(run) && Outbox(run) != [] && Outbox(run)[0] == {H.hash}
    ensures SleetOk(Last(run)) && Stands(Last(run)) && !RejectedTogether(Last(run), H)
    ensures HaltsAt(Last(run), H, order, 0, t) && !SleetOk(t)
    ensures DagOk(t.dag.g, t.dag.inv) && R.hash in t.dag.g && R.hash !in t.cg.cs && Open(t.store, R.hash)
  {
    hide *;
    run := XPruned();
    RunKeepsOk(run);
    RunKeepsExact(run);
    HRejects(Last(run));
    order, t := BadHalt(Last(run), H, Hash(2), Hash(4));
    StillOpen(Last(run).store, t.store, Hash(4));
  }

  lemma StillOpen(store: Store, store': Store, h: Hash)
    requires Open(store, h) && (h in store ==> h in store' && store'[h] == store[h])
    ensures Open(store', h)
  {
  }

  lemma HRejects(s: SleetValue)
    requires C.ConflictOk(s.cg) && Stands(s) && Hash(2) !in s.dag.g && Hash(4) in s.dag.g
    ensures H.hash == Hash(3) && R.hash == Hash(4) && H.hash in s.cg.cs && H.hash in s.cg.cells
    ensures s.cg.cells[H.hash] == H
    ensures Hash(2) in C.RejectedBy(s.cg, H) && Hash(4) in C.RejectedBy(s.cg, H) && !RejectedTogether(s, H)
  {
    ConflictsAre(s.cg, Hash(3));
    hide C.ConflictOk, C.ConflictsOf;
  }

  lemma ConflictsAre(cg: C.ConflictState, h: Hash)
    requires C.ConflictOk(cg) && h in cg.cells
    ensures h in cg.cs && cg.cs[h].conflicts == C.ConflictsOf(cg.cells, h)
  {
    hide C.KnownOutputs, C.SpendersExact, C.ConflictsOf;
  }
}
