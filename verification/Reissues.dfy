/** Runs in which a transaction is removed together with a rejected parent and then issued again:
    what can go wrong with it, step by step from an empty node. */
module Reissues {
  import opened Basics
  import opened Cells
  import opened Graphs
  import opened Dags
  import opened Frontiers
  import opened Sleets
  import opened SleetRuns
  import opened Supports
  import opened Scenes
  import C = ConflictGraphs

  /** Accepting `a` rejects `r`, and at most `x` besides, which is a child of `r`. */
  ghost predicate Rejecting(s: SleetValue, a: Cell, r: Hash, x: Hash) {
    && a.hash in s.cg.cs && a.hash in s.store && s.store[a.hash].cell == a
    && (C.RejectedBy(s.cg, a) == {r} || C.RejectedBy(s.cg, a) == {r, x})
    && r in s.dag.g && x in s.dag.g && x in s.store && r in s.store
    && x != r && Edge(s.dag.inv, r, x)
  }

  ghost function SweptAway(s: SleetValue, a: Cell, r: Hash, x: Hash): SleetValue
    requires Rejecting(s, a, r, x)
  {
    SleetValue(RestrictDag(s.dag, s.dag.g.Keys - {r, x}),
      C.RemovedCells(C.AcceptedCell(s.cg, a), {r, x} - C.RejectedBy(s.cg, a)),
      s.store[r := s.store[r].(status := Rejected)][x := s.store[x].(status := Removed)])
  }

  lemma SweepStep(s: SleetValue, a: Cell, r: Hash, x: Hash)
    requires SleetOk(s) && Rejecting(s, a, r, x)
    ensures AcceptStep(s, a.hash, SweptAway(s, a, r, x))
  {
    hide *;
    InverseClosed(s, a, r, x);
    ChildInProgeny(s.dag.inv, C.RejectedBy(s.cg, a), r, x);
    SweptShrunk(s, a, r, x);
    ShrunkIsStep(s, a, {r, x}, {x} * C.RejectedBy(s.cg, a), SweptAway(s, a, r, x));
  }

  lemma InverseClosed(s: SleetValue, a: Cell, r: Hash, x: Hash)
    requires SleetOk(s) && Rejecting(s, a, r, x)
    ensures Closed(s.dag.inv) && r in s.dag.inv && Edge(s.dag.inv, r, x) && RejectedInDag(s, a)
    ensures a.hash in s.store && s.store[a.hash].cell == a && a.hash in s.cg.cs
    ensures r in C.RejectedBy(s.cg, a) && C.RejectedBy(s.cg, a) <= s.dag.inv.Keys
  {
    hide SleetOk, C.RejectedBy, Edge, DagOk, Closed, Coupled, C.ConflictSound;
    OkParts(s);
    InverseKeys(s.dag);
  }

  lemma InverseKeys(d: DagValue)
    requires DagOk(d.g, d.inv)
    ensures Closed(d.inv) && d.inv.Keys == d.g.Keys
  {
    InverseSym(d.g, d.inv);
  }

  lemma SweptShrunk(s: SleetValue, a: Cell, r: Hash, x: Hash)
    requires Rejecting(s, a, r, x) && {r, x} <= Progeny(s.dag.inv, C.RejectedBy(s.cg, a))
    ensures Shrunk(s, a, {r, x}, {x} * C.RejectedBy(s.cg, a), SweptAway(s, a, r, x))
  {
    hide C.RemovedCells, C.AcceptedCell, C.RejectedBy, Restrict, Progeny, MetTwice, ShrunkStore, Edge;
    SweptMarks(s.store, s.dag.inv, C.RejectedBy(s.cg, a), r, x);
  }

  lemma SweptMarks(store: Store, inv: Graph, rejected: set<Hash>, r: Hash, x: Hash)
    requires (rejected == {r} || rejected == {r, x}) && r in store && x in store && r != x && Edge(inv, r, x)
    ensures MetTwice(inv, rejected, {x} * rejected)
    ensures store[r := store[r].(status := Rejected)][x := store[x].(status := Removed)] ==
      ShrunkStore(store, {r, x}, rejected - {x} * rejected)
  {
    hide Edge;
    assert {x} * rejected == if rejected == {r} then {} else {x};
    assert rejected - {x} * rejected == {r};
  }

  lemma ChildInProgeny(inv: Graph, rejected: set<Hash>, r: Hash, x: Hash)
    requires Closed(inv) && rejected <= inv.Keys && r in rejected && Edge(inv, r, x)
    ensures {r, x} <= Progeny(inv, rejected)
  {
    ProgenyClosed(inv, rejected);
    hide Progeny;
  }

  lemma SweptParts(s: SleetValue, a: Cell, r: Hash, x: Hash)
    requires Rejecting(s, a, r, x)
    ensures x in s.store
    ensures var u := SweptAway(s, a, r, x);
      && HasStatus(u.store, x, Removed) && u.store[x].cell == s.store[x].cell
      && u.cg.cells == s.cg.cells - {r, x} && u.cg.vertices.Keys == s.cg.vertices.Keys && u.dag.chits == s.dag.chits
  {
    ShrunkCells(s.cg, a, {r, x});
    hide C.RemovedCells, C.AcceptedCell, Restrict;
  }

  lemma RejectsOnly(s: SleetValue, a: Cell, r: Hash, x: Hash)
    requires Sane(s) && a.hash in s.cg.cells && s.cg.cells[a.hash] == a && a.hash != r
    requires C.ConflictsOf(s.cg.cells, a.hash) in {{a.hash, r}, {a.hash, r, x}}
    requires x != a.hash && x != r && r in s.dag.g && Edge(s.dag.g, x, r)
    ensures Rejecting(s, a, r, x)
  {
    hide SleetOk, C.ConflictOk, C.ConflictsOf, C.RejectedBy, Edge;
    ExactSets(s, a.hash);
    RejectedIs(s.cg, a, r, x);
    ChildOf(s, x, r);
    SaneFacts(s);
  }

  lemma RejectedIs(cg: C.ConflictState, a: Cell, r: Hash, x: Hash)
    requires a.hash in cg.cs && a.hash != r && a.hash != x
    requires cg.cs[a.hash].conflicts == {a.hash, r} || cg.cs[a.hash].conflicts == {a.hash, r, x}
    ensures C.RejectedBy(cg, a) == {r} || C.RejectedBy(cg, a) == {r, x}
  {
  }

  lemma ChildOf(s: SleetValue, x: Hash, r: Hash)
    requires SleetOk(s) && Edge(s.dag.g, x, r)
    ensures x in s.dag.g && Edge(s.dag.inv, r, x)
  {
    InverseSym(s.dag.g, s.dag.inv);
  }


  /** Of the vertices left by the sweep only `a` is final. */
  lemma OnlyOneFinal(u: SleetValue, a: Hash)
    requires a in u.dag.g && u.dag.g[a] == [] && HasStatus(u.store, a, Accepted)
    requires forall k :: k in u.dag.g && k != a ==> Open(u.store, k) && (k in u.cg.cs ==> u.cg.cs[k].cnt < C.BETA1)
    ensures IsFrontier(u.dag.g, Acc(u.dag.g, u.cg.cs, u.store), {a})
  {
    assert Acc(u.dag.g, u.cg.cs, u.store) == {a};
    hide Acc;
    FrontierOfOne(u.dag.g, a);
  }

  lemma FrontierOfOne(g: Graph, a: Hash)
    requires a in g && g[a] == []
    ensures IsFrontier(g, {a}, {a})
  {
    NoParents(g, a);
    forall v | v in g ensures v in Final(g, {a}) <==> v == a { ReachSelf(g, v); }
    assert ReachAll(g, {a}) == Reach(g, a);
  }

  /** `A` is announced when it has been found final: its conflict `r` is rejected and the child `x` of `r`
      removed. */
  lemma Sweep(run: Run, n: nat, p: Plot, a: Hash, r: Hash, x: Hash) returns (more: Run)
    requires Act(run, n, p) && Outbox(run) == [{a}] && p.done == {a} && a in p.g && p.g[a] == []
    requires r in p.g && r != a && C.ConflictsOf(p.cells, a) in {{a, r}, {a, r, x}} && x != a && x != r
    requires Edge(Last(run).dag.g, x, r)
    requires forall k :: k in p.g && k != a && k != r && k != x ==> k in p.cnts && p.cnts[k] < C.BETA1
    ensures Valid(more) && Clean(more) && Reporting(more) && Outbox(more) == []
    ensures Swept(Last(run), r, x, Last(more))
  {
    hide *;
    ActParts(run, n, p);
    StandingParts(run, n);
    var s := Last(run);
    SceneParts(s, n, p);
    BaseParts(s, n);
    SaneParts(s);
    PlotKeys(p);
    NamedConflicts(s.cg.cells, n, p, a);
    CellHash(p, s.cg.cells, n, a);
    SceneReach(s, n, p, r);
    var cell := s.cg.cells[a];
    RejectsOnly(s, cell, r, x);
    SweepStep(s, cell, r, x);
    SweptParts(s, cell, r, x);
    var u := SweptAway(s, cell, r, x);
    SweptFinal(s, n, p, cell, r, x, u);
    more := Deliver(run, a, u, {a});
    NoneLeft(Outbox(run), {a});
    SweptIs(s, r, x, u, {a});
  }

  /** What the sweep leaves. */
  ghost predicate Swept(s: SleetValue, r: Hash, x: Hash, t: SleetValue) {
    && x in s.store && HasStatus(t.store, x, Removed) && t.store[x].cell == s.store[x].cell
    && t.cg.cells == s.cg.cells - {r, x} && t.cg.vertices.Keys == s.cg.vertices.Keys && t.dag.chits == s.dag.chits
  }

  lemma CellHash(p: Plot, cells: map<Hash, Cell>, n: nat, a: Hash)
    requires PlotOk(p) && SceneCells(cells, n, p) && a in p.cells
    ensures a in cells && cells[a] == p.cells[a] && cells[a].hash == a
  {
    hide Closed, Children;
  }

  lemma NoneLeft(box: seq<set<Hash>>, found: set<Hash>)
    requires box == [found]
    ensures box != [] && box[0] == found && box[1..] == []
  {
  }

  lemma SweptIs(s: SleetValue, r: Hash, x: Hash, u: SleetValue, f: set<Hash>)
    requires x in s.store && HasStatus(u.store, x, Removed) && u.store[x].cell == s.store[x].cell
    requires u.cg.cells == s.cg.cells - {r, x} && u.cg.vertices.Keys == s.cg.vertices.Keys && u.dag.chits == s.dag.chits
    ensures Swept(s, r, x, Pruned(u, f))
  {
  }

  lemma SweptFinal(s: SleetValue, n: nat, p: Plot, cell: Cell, r: Hash, x: Hash, u: SleetValue)
    requires SceneGraph(s.dag.g, n, p) && SceneSets(s.cg.cs, n, p) && SceneStore(s.store, n, p)
    requires Rejecting(s, cell, r, x) && u == SweptAway(s, cell, r, x) && p.done == {cell.hash}
    requires cell.hash in p.g && p.g[cell.hash] == [] && cell.hash != r && cell.hash != x
    requires forall k :: k in p.g && k != cell.hash && k != r && k != x ==> k in p.cnts && p.cnts[k] < C.BETA1
    ensures IsFrontier(u.dag.g, Acc(u.dag.g, u.cg.cs, u.store), {cell.hash})
  {
    hide *;
    SweptShape(s, cell, r, x);
    SweptRest(s, n, p, cell.hash, r, x, u);
    OnlyOneFinal(u, cell.hash);
  }

  ghost predicate Shaped(s: SleetValue, r: Hash, x: Hash, u: SleetValue) {
    && u.dag.g.Keys == s.dag.g.Keys - {r, x}
    && (forall k :: k in u.dag.g && s.dag.g[k] == [] ==> u.dag.g[k] == [])
    && (forall k :: k in s.store && k != r && k != x ==> k in u.store && u.store[k] == s.store[k])
    && (forall k :: k in u.cg.cs ==> k in s.cg.cs && u.cg.cs[k].cnt == s.cg.cs[k].cnt)
  }

  lemma SweptRest(s: SleetValue, n: nat, p: Plot, a: Hash, r: Hash, x: Hash, u: SleetValue)
    requires SceneGraph(s.dag.g, n, p) && SceneSets(s.cg.cs, n, p) && SceneStore(s.store, n, p) && p.done == {a}
    requires Shaped(s, r, x, u) && a in p.g && p.g[a] == [] && a != r && a != x
    requires forall k :: k in p.g && k != a && k != r && k != x ==> k in p.cnts && p.cnts[k] < C.BETA1
    ensures a in u.dag.g && u.dag.g[a] == [] && HasStatus(u.store, a, Accepted)
    ensures forall k :: k in u.dag.g && k != a ==> Open(u.store, k) && (k in u.cg.cs ==> u.cg.cs[k].cnt < C.BETA1)
  {
    hide *;
    RestKeys(s, n, p);
    ShapedParts(s, a, r, x, u) by { RootOf(s.dag.g, n, p, a); }
    SetsParts(s.cg.cs, n, p);
    RestOpen(s.store, n, p, a, u.dag.g.Keys, u.store);
    RestShort(s.cg.cs, n, p, a, u.dag.g.Keys, u.cg.cs);
  }

  lemma RestKeys(s: SleetValue, n: nat, p: Plot)
    requires SceneGraph(s.dag.g, n, p) && SceneSets(s.cg.cs, n, p) && SceneStore(s.store, n, p)
    ensures s.dag.g.Keys == s.store.Keys == s.cg.cs.Keys == p.g.Keys + Children(0, n)
  {
    hide Children, SetCounts, SetLasts;
  }

  lemma RootOf(g: Graph, n: nat, p: Plot, a: Hash)
    requires SceneGraph(g, n, p) && a in p.g && p.g[a] == []
    ensures a in g && g[a] == []
  {
    hide Children;
  }

  lemma ShapedParts(s: SleetValue, a: Hash, r: Hash, x: Hash, u: SleetValue)
    requires Shaped(s, r, x, u) && a in s.dag.g && s.dag.g[a] == [] && a != r && a != x && s.dag.g.Keys <= s.store.Keys
    ensures a in u.dag.g && u.dag.g[a] == [] && u.dag.g.Keys == s.dag.g.Keys - {r, x}
    ensures forall k :: k in u.dag.g ==> k in u.store && u.store[k] == s.store[k]
    ensures forall k :: k in u.cg.cs ==> k in s.cg.cs && u.cg.cs[k].cnt == s.cg.cs[k].cnt
  {
  }

  lemma RestOpen(store: Store, n: nat, p: Plot, a: Hash, left: set<Hash>, store': Store)
    requires SceneStore(store, n, p) && p.done == {a} && left <= p.g.Keys + Children(0, n) && a in left && a in p.g
    requires forall k :: k in left ==> k in store' && store'[k] == store[k]
    ensures HasStatus(store', a, Accepted) && forall k :: k in left && k != a ==> Open(store', k)
  {
    hide Children;
  }

  lemma RestShort(cs: map<Hash, C.ConflictSet>, n: nat, p: Plot, a: Hash, left: set<Hash>,
                  cs': map<Hash, C.ConflictSet>)
    requires SetCounts(cs, n, p) && left <= p.g.Keys + Children(0, n)
    requires forall k :: k in cs' ==> k in cs && cs'[k].cnt == cs[k].cnt
    requires forall k :: k in p.g && k in left && k != a ==> k in p.cnts && p.cnts[k] < C.BETA1
    ensures forall k :: k in left && k != a && k in cs' ==> cs'[k].cnt < C.BETA1
  {
    hide Children;
  }

  lemma SweptShape(s: SleetValue, cell: Cell, r: Hash, x: Hash)
    requires Rejecting(s, cell, r, x) && cell.hash != r && cell.hash != x
    ensures Shaped(s, r, x, SweptAway(s, cell, r, x))
  {
    SweptSets(s.cg, cell, {r, x} - C.RejectedBy(s.cg, cell));
    hide C.AcceptedCell, C.RemovedCells, C.RejectedBy;
  }

  lemma SweptSets(cg: C.ConflictState, cell: Cell, gone: set<Hash>)
    requires cell.hash in cg.cs
    ensures var cs := C.RemovedCells(C.AcceptedCell(cg, cell), gone).cs;
      forall k :: k in cs ==> k in cg.cs && cs[k].cnt == cg.cs[k].cnt
  {
    hide Produced, C.RemovedVertices, Keep;
  }

  // the record of a spender is lost

  const OUT := Output(1, Transfer, 0, true, Hash(0))
  const A := Cell(Hash(1), {CellId(Hash(0), 100)}, [])
  const R := Cell(Hash(2), {CellId(Hash(0), 100)}, [OUT])
  const X := Cell(Hash(3), {CellId(Hash(0), 101)}, [OUT])
  const Y := Cell(Hash(4), {CellId(Hash(3), 0)}, [])

  lemma OneOut(cell: Cell)
    requires |cell.outputs| == 1
    ensures Produced(cell) == {CellId(cell.hash, 0)}
  {
    assert OutputIds(cell.hash, 0) == {};
  }

  const ONE := Plot(map[Hash(1) := []], map[Hash(1) := A], map[Hash(1) := 0], {Hash(1)}, {})
  const FOUND := ONE.(cnts := map[Hash(1) := 11], done := {Hash(1)})
  const WITH_R := FOUND.(g := map[Hash(1) := [], Hash(2) := []], cells := map[Hash(1) := A, Hash(2) := R])
  const WITH_X := Plot(
    map[Hash(1) := [], Hash(2) := [], Hash(3) := [Hash(2)]], map[Hash(1) := A, Hash(2) := R, Hash(3) := X],
    map[Hash(1) := 11, Hash(3) := 0], {Hash(1), Hash(3)}, {Hash(1)})
  const WITH_Y := Plot(
    map[Hash(1) := [], Hash(2) := [], Hash(3) := [Hash(2)], Hash(4) := []],
    map[Hash(1) := A, Hash(2) := R, Hash(3) := X, Hash(4) := Y],
    map[Hash(1) := 11, Hash(3) := 0, Hash(4) := 0], {Hash(1), Hash(3), Hash(4)}, {Hash(1)})

  lemma Outs()
    ensures Produced(A) == {} && Produced(Y) == {}
    ensures Produced(R) == {CellId(Hash(2), 0)} && Produced(X) == {CellId(Hash(3), 0)}
    ensures CellId(Hash(0), 100) == Coin(100) && CellId(Hash(0), 101) == Coin(101)
  {
    OneOut(R);
    OneOut(X);
  }

  lemma AEnters()
    ensures Newcomer(NOBODY, Tx([], A, Pending)) && Entered(NOBODY, 0, Tx([], A, Pending)) == ONE
  {
    Outs();
    hide Produced;
  }

  lemma ARipens()
    ensures Ripe(ONE, Hash(1), Hash(1), 11) && Ripened(ONE, Hash(1), 11) == FOUND && Reach(ONE.g, Hash(1)) == {Hash(1)}
  {
    NoParents(ONE.g, Hash(1));
    hide Reach;
    assert C.ConflictsOf(ONE.cells, Hash(1)) == {Hash(1)};
  }

  lemma REnters()
    ensures Newcomer(FOUND, Tx([], R, Pending)) && Entered(FOUND, 11, Tx([], R, Pending)) == WITH_R
  {
    Outs();
    hide Produced;
    assert Hash(1) in FOUND.cells && C.Conflict(R, A) by {
      assert CellId(Hash(0), 100) in R.inputs && CellId(Hash(0), 100) in A.inputs;
    }
  }

  lemma XEnters()
    ensures Newcomer(WITH_R, Tx([Hash(2)], X, Pending)) && Entered(WITH_R, 11, Tx([Hash(2)], X, Pending)) == WITH_X
  {
    Outs();
    hide Produced;
    assert !C.Conflict(X, A) && !C.Conflict(X, R);
    hide C.Conflict;
  }

  lemma YEnters()
    ensures Newcomer(WITH_X, Tx([], Y, Pending)) && Entered(WITH_X, 11, Tx([], Y, Pending)) == WITH_Y
  {
    Outs();
    hide Produced;
    assert Hash(3) in WITH_X.cells && CellId(Hash(3), 0) in Produced(WITH_X.cells[Hash(3)]);
    assert !C.Conflict(Y, A) && !C.Conflict(Y, R) && !C.Conflict(Y, X);
    hide C.Conflict;
  }

  lemma OnlyRConflicts()
    ensures C.ConflictsOf(WITH_Y.cells, Hash(1)) == {Hash(1), Hash(2)}
  {
    assert CellId(Hash(0), 100) in A.inputs && CellId(Hash(0), 100) in R.inputs;
    assert C.Conflict(A, R) && !C.Conflict(A, X) && !C.Conflict(A, Y);
    hide C.Conflict;
  }

  /** What is known when `A` is announced. */
  ghost predicate Cast(s: SleetValue) {
    && Edge(s.dag.g, Hash(3), Hash(2)) && Hash(3) in s.store && s.store[Hash(3)].cell == X
    && Hash(4) in s.cg.cells && s.cg.cells[Hash(4)] == Y && Coin(101) in s.cg.vertices
    && Hash(3) in s.dag.chits && s.dag.chits[Hash(3)] == 0
  }

  lemma CastOfY(run: Run)
    requires Act(run, 11, WITH_Y)
    ensures Cast(Last(run)) && Edge(Last(run).dag.g, Hash(3), Hash(2))
    ensures WITH_Y.done == {Hash(1)} && Hash(1) in WITH_Y.g && WITH_Y.g[Hash(1)] == [] && Hash(2) in WITH_Y.g
    ensures forall k :: k in WITH_Y.g && k != Hash(1) && k != Hash(2) && k != Hash(3) ==>
      k in WITH_Y.cnts && WITH_Y.cnts[k] < C.BETA1
  {
    hide *;
    ActParts(run, 11, WITH_Y);
    YPlot();
    NamedFacts(Last(run), 11, WITH_Y, Hash(3));
    NamedFacts(Last(run), 11, WITH_Y, Hash(4));
    CastIs(Last(run));
  }

  lemma YPlot()
    ensures WITH_Y.done == {Hash(1)} && Hash(1) in WITH_Y.g && WITH_Y.g[Hash(1)] == [] && Hash(2) in WITH_Y.g
    ensures Hash(3) in WITH_Y.g && WITH_Y.g[Hash(3)] == [Hash(2)] && Hash(4) in WITH_Y.g
    ensures Hash(3) in WITH_Y.cells && WITH_Y.cells[Hash(3)] == X && Hash(4) in WITH_Y.cells
    ensures WITH_Y.cells[Hash(4)] == Y
    ensures forall k :: k in WITH_Y.g && k != Hash(1) && k != Hash(2) && k != Hash(3) ==>
      k in WITH_Y.cnts && WITH_Y.cnts[k] < C.BETA1
  {
  }

  lemma CastIs(s: SleetValue)
    requires Hash(3) in s.dag.g && s.dag.g[Hash(3)] == [Hash(2)] && Hash(3) in s.store && s.store[Hash(3)].cell == X
    requires Hash(4) in s.cg.cells && s.cg.cells[Hash(4)] == Y && Hash(3) in s.dag.chits && s.dag.chits[Hash(3)] == 0
    requires forall j: nat :: j < 200 ==> Coin(j) in s.cg.vertices.Keys
    ensures Cast(s) && Edge(s.dag.g, Hash(3), Hash(2))
  {
  }

  lemma Reissued(s: SleetValue, t: SleetValue, tx: Tx)
    requires Cast(s) && Swept(s, Hash(2), Hash(3), t) && tx == Tx([], X, Pending) && SleetOk(t) && C.ConflictOk(t.cg)
    ensures ReceiveResult(t, tx) == Ok(true) && Next(t, Receive(tx), Received(t, tx))
    ensures !C.ConflictOk(Received(t, tx).cg)
  {
    hide *;
    ExactJoinable(t.cg, X);
    ReissueAnswer(s, t, tx);
    YStillSpends(s, t);
    ReceiveKeepsExact(t, tx);
    ReceivedParts(t, tx);
  }

  lemma ReissueAnswer(s: SleetValue, t: SleetValue, tx: Tx)
    requires Cast(s) && Swept(s, Hash(2), Hash(3), t) && tx == Tx([], X, Pending) && C.Joinable(t.cg, X)
    ensures ReceiveResult(t, tx) == Ok(true) && Next(t, Receive(tx), Received(t, tx)) && Admissible(t, tx)
  {
    assert CellId(Hash(0), 101) == Coin(101);
    hide C.Joinable, Received;
  }

  lemma YStillSpends(s: SleetValue, t: SleetValue)
    requires Cast(s) && Swept(s, Hash(2), Hash(3), t)
    ensures !C.ProducesUnspent(t.cg, X)
  {
    Outs();
    assert Hash(4) in t.cg.cells && CellId(Hash(3), 0) in t.cg.cells[Hash(4)].inputs;
    hide Produced;
  }

  /** `A` is found final through eleven children. Then `R`, which conflicts with it, arrives, with a child
      `X`; and `Y`, which spends the output of `X` without being its child. The announcement of `A` rejects
      `R` and removes `X`. Issued again, `X` is received, and the record that `Y` spends its output is
      lost. */
  lemma ReissueOverwrites() returns (run: Run, tx: Tx)
    ensures Valid(run) && Reporting(run) && Clean(run) && C.ConflictOk(Last(run).cg)
    ensures ReceiveResult(Last(run), tx) == Ok(true) && Next(Last(run), Receive(tx), Received(Last(run), tx))
    ensures !C.ConflictOk(Received(Last(run), tx).cg)
  {
    hide *;
    var begun := Begin();
    AEnters();
    var one := Enter(begun, 0, NOBODY, Tx([], A, Pending));
    ARipens();
    var found := Ripen(one, 0, ONE, Hash(1), Hash(1), 11);
    REnters();
    var withR := Enter(found, 11, FOUND, Tx([], R, Pending));
    XEnters();
    var withX := Enter(withR, 11, WITH_R, Tx([Hash(2)], X, Pending));
    YEnters();
    var withY := Enter(withX, 11, WITH_X, Tx([], Y, Pending));
    OnlyRConflicts();
    CastOfY(withY);
    run := Sweep(withY, 11, WITH_Y, Hash(1), Hash(2), Hash(3));
    tx := Tx([], X, Pending);
    RunKeepsOk(run);
    RunKeepsExact(run);
    Reissued(Last(withY), Last(run), tx);
  }

  // the chit outlives the removal

  const PAIR := Plot(
    map[Hash(1) := [], Hash(2) := []], map[Hash(1) := A, Hash(2) := R], map[Hash(1) := 0, Hash(2) := 0], {Hash(1)}, {})
  const VOTED := PAIR.(own := {Hash(1), Hash(2)})
  const LATER := VOTED.(cnts := map[Hash(1) := 20, Hash(2) := 0], done := {Hash(1)})

  lemma RFollows()
    ensures Newcomer(ONE, Tx([], R, Pending)) && Entered(ONE, 0, Tx([], R, Pending)) == PAIR
  {
    Outs();
    hide Produced;
    assert Hash(1) in ONE.cells && C.Conflict(R, A) by {
      assert CellId(Hash(0), 100) in R.inputs && CellId(Hash(0), 100) in A.inputs;
    }
    assert AllZero(ONE);
    hide C.Conflict;
  }

  lemma PairConflicts()
    ensures C.ConflictsOf(PAIR.cells, Hash(1)) == {Hash(1), Hash(2)}
    ensures C.ConflictsOf(PAIR.cells, Hash(2)) == {Hash(1), Hash(2)}
  {
    assert CellId(Hash(0), 100) in A.inputs && CellId(Hash(0), 100) in R.inputs;
    assert C.Conflict(A, R) && C.Conflict(R, A);
    hide C.Conflict;
  }

  lemma RVotes()
    ensures Votable(PAIR, Hash(2)) && VotedOn(PAIR, Hash(2)) == VOTED
  {
    PairConflicts();
    hide C.ConflictsOf;
    assert Hash(1) in {Hash(1), Hash(2)} && Hash(1) !in {Hash(2)};
  }

  lemma ARipensLater()
    ensures Ripe(VOTED, Hash(1), Hash(1), 20) && Ripened(VOTED, Hash(1), 20) == LATER
    ensures Reach(VOTED.g, Hash(1)) == {Hash(1)}
  {
    PairConflicts();
    NoParents(VOTED.g, Hash(1));
    hide Reach, C.ConflictsOf;
    assert Hash(2) in {Hash(1), Hash(2)} && Hash(2) !in {Hash(1)};
  }

  lemma LaterPlot()
    ensures LATER.done == {Hash(1)} && Hash(1) in LATER.g && LATER.g[Hash(1)] == [] && Hash(2) in LATER.g
    ensures C.ConflictsOf(LATER.cells, Hash(1)) == {Hash(1), Hash(2)} && Child(0) == Hash(100)
    ensures forall k :: k in LATER.g && k != Hash(1) && k != Hash(2) && k != Hash(100) ==>
      k in LATER.cnts && LATER.cnts[k] < C.BETA1
  {
    PairConflicts();
  }

  /** The child of `R` as it is remembered. */
  ghost predicate Remembered(s: SleetValue) {
    && Edge(s.dag.g, Hash(100), Hash(2)) && Hash(100) in s.dag.chits && s.dag.chits[Hash(100)] == 1
    && Hash(100) in s.store && s.store[Hash(100)].cell == ChildCell(0) && Coin(0) in s.cg.vertices
  }

  lemma FirstChildKnown(s: SleetValue, n: nat, p: Plot)
    requires Scene(s, n, p) && n > 0
    ensures Stores(s.store, Hash(100), ChildCell(0)) && Coin(0) in s.cg.vertices
  {
    hide *;
    SceneParts(s, n, p);
    BaseParts(s, n);
    SaneFacts(s);
    CoinsOf(s, n);
    FirstChildCell(s.cg.cells, n, p);
    StoresWhen(s.store, Hash(100), ChildCell(0));
  }

  ghost predicate Stores(store: Store, h: Hash, cell: Cell) {
    h in store && store[h].cell == cell
  }

  lemma StoresWhen(store: Store, h: Hash, cell: Cell)
    ensures Stores(store, h, cell) <==> h in store && store[h].cell == cell
  {
  }

  lemma CoinsOf(s: SleetValue, n: nat)
    requires Base(s, n)
    ensures Coin(0) in s.cg.vertices
  {
    hide Sane;
  }

  lemma FirstChildCell(cells: map<Hash, Cell>, n: nat, p: Plot)
    requires SceneCells(cells, n, p) && n > 0
    ensures Hash(100) in cells && cells[Hash(100)] == ChildCell(0)
  {
    ChildrenAre(0, n);
    hide Children;
    var j: nat :| j < 100 && Hash(100) == Child(j) && cells[Hash(100)] == ChildCell(j);
  }

  lemma FirstChildKept(first: SleetValue, d: DagValue, d': DagValue)
    requires d.g == first.dag.g[Child(0) := [Hash(2)]] && d.chits == first.dag.chits[Child(0) := 1]
    requires GraphGrown(d.g, Children(1, 20), d'.g) && ChitsGrown(d.chits, Children(1, 20), d'.chits)
    ensures Hash(100) in d'.g && d'.g[Hash(100)] == [Hash(2)] && Hash(100) in d'.chits && d'.chits[Hash(100)] == 1
  {
    ChildrenAre(1, 20);
    hide Children, Reach;
  }

  lemma RememberedIs(s: SleetValue)
    requires Hash(100) in s.dag.g && s.dag.g[Hash(100)] == [Hash(2)] && Hash(100) in s.dag.chits
    requires s.dag.chits[Hash(100)] == 1
    requires Stores(s.store, Hash(100), ChildCell(0)) && Coin(0) in s.cg.vertices
    ensures Remembered(s) && Edge(s.dag.g, Hash(100), Hash(2))
  {
  }

  /** `A` and its conflict `R` arrive, and a query on a child of `R` succeeds. Then `A` is found final
      through twenty children, and announced: `R` is rejected and its child removed, whose chit stays.
      Issued again, the child enters the conflict graph and the DAG and then fails; the store still says
      removed. */
  lemma ReissueFails() returns (run: Run, tx: Tx)
    ensures Valid(run) && Reporting(run) && Clean(run) && ReceiveResult(Last(run), tx) == Err(Graph(ChitReplace))
    ensures var t := HalfReceived(Last(run), tx);
      && Next(Last(run), Receive(tx), t) && SleetOk(t)
      && tx.cell.hash in t.dag.g && tx.cell.hash in t.cg.cs && HasStatus(t.store, tx.cell.hash, Removed)
  {
    hide *;
    var begun := Begin();
    AEnters();
    var one := Enter(begun, 0, NOBODY, Tx([], A, Pending));
    RFollows();
    var pair := Enter(one, 0, ONE, Tx([], R, Pending));
    RVotes();
    var voted := Vote(pair, 0, PAIR, Hash(2));
    ARipensLater();
    var later := Ripen(voted, 1, VOTED, Hash(1), Hash(1), 20);
    LaterPlot();
    ActParts(later, 21, LATER);
    FirstChildKnown(Last(later), 21, LATER);
    FirstChildKept(Last(pair), Last(voted).dag, Last(later).dag);
    RememberedIs(Last(later));
    NoMessages(Outbox(begun), {Hash(1)});
    run := Sweep(later, 21, LATER, Hash(1), Hash(2), Hash(100));
    tx := Tx([], ChildCell(0), Pending);
    RunKeepsOk(run);
    RunKeepsExact(run);
    ExactJoinable(Last(run).cg, ChildCell(0));
    ReissueRefused(Last(later), Last(run), tx);
    HalfReceiveKeepsOk(Last(run), tx);
  }

  lemma NoMessages(box: seq<set<Hash>>, found: set<Hash>)
    requires box == []
    ensures box + [found] == [found]
  {
  }

  lemma ReissueRefused(s: SleetValue, t: SleetValue, tx: Tx)
    requires Remembered(s) && Swept(s, Hash(2), Hash(100), t) && tx == Tx([], ChildCell(0), Pending)
    requires C.Joinable(t.cg, tx.cell)
    ensures ReceiveResult(t, tx) == Err(Graph(ChitReplace)) && Next(t, Receive(tx), HalfReceived(t, tx))
    ensures Admissible(t, tx) && OldChit(t, tx.cell.hash) && tx.cell.hash == Hash(100)
    ensures tx.cell.hash in t.store && t.store[tx.cell.hash].cell == tx.cell
  {
    assert ChildCell(0) == Cell(Hash(100), {Coin(0)}, []);
    hide C.Joinable, HalfReceived, Received;
  }

  // a rejected transaction comes back

  const S := Cell(Hash(3), {CellId(Hash(0), 100)}, [])
  const WITH_S := FOUND.(
    g := map[Hash(1) := [], Hash(2) := [], Hash(3) := [Hash(2)]],
    cells := map[Hash(1) := A, Hash(2) := R, Hash(3) := S])

  lemma SEnters()
    ensures Newcomer(WITH_R, Tx([Hash(2)], S, Pending)) && Entered(WITH_R, 11, Tx([Hash(2)], S, Pending)) == WITH_S
  {
    Outs();
    assert Produced(S) == {};
    hide Produced;
    assert Hash(1) in WITH_R.cells && C.Conflict(S, A) by {
      assert CellId(Hash(0), 100) in S.inputs && CellId(Hash(0), 100) in A.inputs;
    }
  }

  lemma AllConflict()
    ensures C.ConflictsOf(WITH_S.cells, Hash(1)) == {Hash(1), Hash(2), Hash(3)} && C.Conflict(S, A)
    ensures WITH_S.done == {Hash(1)} && WITH_S.g == map[Hash(1) := [], Hash(2) := [], Hash(3) := [Hash(2)]]
    ensures WITH_S.cells == map[Hash(1) := A, Hash(2) := R, Hash(3) := S]
  {
    assert CellId(Hash(0), 100) in A.inputs && CellId(Hash(0), 100) in R.inputs && CellId(Hash(0), 100) in S.inputs;
    assert C.Conflict(A, R) && C.Conflict(A, S);
  }

  lemma FactsOfS(run: Run)
    requires Act(run, 11, WITH_S)
    ensures Returning(Last(run)) && Edge(Last(run).dag.g, Hash(3), Hash(2))
  {
    hide *;
    AllConflict();
    ActParts(run, 11, WITH_S);
    NamedFacts(Last(run), 11, WITH_S, Hash(1));
    NamedFacts(Last(run), 11, WITH_S, Hash(3));
    ReturningIs(Last(run));
  }

  /** What is known of `A` and `S` when `A` is announced. */
  ghost predicate Returning(s: SleetValue) {
    && Hash(1) in s.cg.cells && s.cg.cells[Hash(1)] == A && Hash(3) in s.store && s.store[Hash(3)].cell == S
    && Coin(100) in s.cg.vertices && Hash(3) in s.dag.chits && s.dag.chits[Hash(3)] == 0
  }

  lemma ReturningIs(s: SleetValue)
    requires Hash(3) in s.dag.g && s.dag.g[Hash(3)] == [Hash(2)] && Hash(3) in s.store && s.store[Hash(3)].cell == S
    requires Hash(1) in s.cg.cells && s.cg.cells[Hash(1)] == A && Hash(3) in s.dag.chits && s.dag.chits[Hash(3)] == 0
    requires forall j: nat :: j < 200 ==> Coin(j) in s.cg.vertices.Keys
    ensures Returning(s) && Edge(s.dag.g, Hash(3), Hash(2))
  {
  }

  lemma ReturnAnswer(s: SleetValue, t: SleetValue, tx: Tx)
    requires Returning(s) && Swept(s, Hash(2), Hash(3), t) && tx == Tx([], S, Pending) && C.Joinable(t.cg, S)
    ensures ReceiveResult(t, tx) == Ok(true) && Next(t, Receive(tx), Received(t, tx))
    ensures Hash(1) in t.cg.cells && t.cg.cells[Hash(1)] == A && HasStatus(t.store, Hash(3), Removed)
  {
    assert CellId(Hash(0), 100) == Coin(100);
    hide C.Joinable, Received;
  }

  /** `A` is found final through eleven children. Then `R` and its child `S` arrive, which both spend what `A`
      spends. The announcement of `A` rejects both, but `S` is met again as a child of `R` and marked removed.
      Issued again, it is received, next to the accepted transaction that spends the same output. */
  lemma RejectedReturns() returns (run: Run, tx: Tx)
    ensures Valid(run) && Reporting(run) && Clean(run)
    ensures A.hash in Last(run).cg.cells && Last(run).cg.cells[A.hash] == A && C.Conflict(tx.cell, A)
    ensures HasStatus(Last(run).store, tx.cell.hash, Removed) && ReceiveResult(Last(run), tx) == Ok(true)
    ensures Next(Last(run), Receive(tx), Received(Last(run), tx))
  {
    hide *;
    var begun := Begin();
    AEnters();
    var one := Enter(begun, 0, NOBODY, Tx([], A, Pending));
    ARipens();
    var found := Ripen(one, 0, ONE, Hash(1), Hash(1), 11);
    REnters();
    var withR := Enter(found, 11, FOUND, Tx([], R, Pending));
    SEnters();
    var withS := Enter(withR, 11, WITH_R, Tx([Hash(2)], S, Pending));
    AllConflict();
    FactsOfS(withS);
    run := Sweep(withS, 11, WITH_S, Hash(1), Hash(2), Hash(3));
    tx := Tx([], S, Pending);
    RunKeepsExact(run);
    ExactJoinable(Last(run).cg, S);
    ReturnAnswer(Last(withS), Last(run), tx);
    Hashes();
  }

  lemma Hashes()
    ensures A.hash == Hash(1) && S.hash == Hash(3)
  {
  }
}
