/** A few named transactions among the children that were used to make some of them final. */
module Scenes {
  import opened Basics
  import opened Cells
  import opened Graphs
  import opened Dags
  import opened Frontiers
  import opened Sleets
  import opened SleetRuns
  import opened Supports
  import C = ConflictGraphs

  /** The named transactions: their parents and cells, the counters of some, those whose last vote was
      for themselves, and those that have been found final. */
  datatype Plot = Plot(g: Graph, cells: map<Hash, Cell>, cnts: map<Hash, nat>, own: set<Hash>, done: set<Hash>)

  ghost predicate PlotOk(p: Plot) {
    && p.g.Keys == p.cells.Keys && p.cnts.Keys <= p.g.Keys && p.own <= p.g.Keys && p.done <= p.g.Keys && Closed(p.g)
    && (forall k :: k in p.cells ==> 0 < k.digest < 100 && p.cells[k].hash == k)
    && (forall k, j: nat :: k in p.cells && j < 100 ==> Coin(j) !in p.cells[k].inputs)
  }

  /** The named transactions and the first `n` children are all there is. */
  ghost predicate Scene(s: SleetValue, n: nat, p: Plot) {
    && Base(s, n) && PlotOk(p)
    && SceneGraph(s.dag.g, n, p) && SceneCells(s.cg.cells, n, p) && SceneSets(s.cg.cs, n, p)
    && SceneStore(s.store, n, p)
    && CoinsKnown(s.cg.vertices.Keys) && Unqueried(s.dag.chits, p)
  }

  ghost predicate Unqueried(chits: map<Hash, u8>, p: Plot) {
    forall v :: v in p.g ==> v in chits && chits[v] == 0
  }

  ghost predicate CoinsKnown(ids: set<CellId>) {
    forall j: nat :: j < 200 ==> Coin(j) in ids
  }

  ghost predicate SceneGraph(g: Graph, n: nat, p: Plot) {
    g.Keys == p.g.Keys + Children(0, n) && forall v :: v in p.g ==> g[v] == p.g[v]
  }

  ghost predicate SceneCells(cells: map<Hash, Cell>, n: nat, p: Plot) {
    && cells.Keys == p.cells.Keys + Children(0, n) && (forall k :: k in p.cells ==> cells[k] == p.cells[k])
    && (forall k :: k in Children(0, n) ==> exists j: nat :: j < 100 && k == Child(j) && cells[k] == ChildCell(j))
  }

  ghost predicate Names(n: nat, p: Plot, h: Hash) {
    h in p.g || h in Children(0, n)
  }

  ghost predicate SceneSets(cs: map<Hash, C.ConflictSet>, n: nat, p: Plot) {
    cs.Keys == p.g.Keys + Children(0, n) && SetCounts(cs, n, p) && SetLasts(cs, n, p)
  }

  ghost predicate SetCounts(cs: map<Hash, C.ConflictSet>, n: nat, p: Plot) {
    && (forall k :: k in Children(0, n) ==> k in cs && cs[k].cnt <= 1)
    && (forall v :: v in p.cnts ==> v in cs && cs[v].cnt == p.cnts[v])
  }

  ghost predicate SetLasts(cs: map<Hash, C.ConflictSet>, n: nat, p: Plot) {
    LastsNamed(cs, n, p) && LastsOwn(cs, p.g.Keys, p.own)
  }

  ghost predicate LastsNamed(cs: map<Hash, C.ConflictSet>, n: nat, p: Plot) {
    forall v :: v in cs ==> Names(n, p, cs[v].last)
  }

  ghost predicate LastsOwn(cs: map<Hash, C.ConflictSet>, names: set<Hash>, own: set<Hash>) {
    forall v :: v in names ==> v in cs && (v in own <==> cs[v].last == v)
  }

  ghost predicate SceneStore(store: Store, n: nat, p: Plot) {
    && store.Keys == p.g.Keys + Children(0, n) && (forall k :: k in Children(0, n) ==> Open(store, k))
    && (forall v :: v in p.g ==> if v in p.done then HasStatus(store, v, Accepted) else Open(store, v))
  }

  // ancestries and conflicts are those of the named transactions

  lemma ReachExtends(g: Graph, g': Graph, v: Hash)
    requires Closed(g) && v in g && forall u :: u in g ==> u in g' && g'[u] == g[u]
    ensures Reach(g', v) == Reach(g, v)
  {
    ReachSelf(g, v);
    ReachSelf(g', v);
    ReachClosed(g, v);
    ReachInside(g, v);
    assert ClosedUnder(g', Reach(g, v)) by { hide Reach; }
    ReachLeast(g', v, Reach(g, v));
    assert ClosedUnder(g, Reach(g', v)) by {
      forall u, w | u in Reach(g', v) && Edge(g, u, w) ensures w in Reach(g', v) {
        assert Edge(g', u, w) && w in g';
        ReachMember(g', v, u);
        ReachSelf(g', w);
        ReachStep(g', u, w, w);
        ReachTrans(g', v, u, w);
      }
    }
    ReachLeast(g, v, Reach(g', v));
  }

  lemma SceneReach(s: SleetValue, n: nat, p: Plot, v: Hash)
    requires Scene(s, n, p) && v in p.g
    ensures v in s.dag.g && Reach(s.dag.g, v) == Reach(p.g, v) && Reach(p.g, v) <= p.g.Keys && v in Reach(p.g, v)
  {
    hide Base, SceneCells, SceneSets, SceneStore, Children, Reach;
    ReachExtends(p.g, s.dag.g, v);
    ReachInside(p.g, v);
    ReachSelf(p.g, v);
  }

  lemma SceneConflicts(s: SleetValue, n: nat, p: Plot, v: Hash)
    requires Scene(s, n, p) && v in p.g
    ensures v in s.cg.cs && s.cg.cs[v].conflicts == C.ConflictsOf(p.cells, v)
  {
    hide *;
    SceneParts(s, n, p);
    BaseParts(s, n);
    ExactSets(s, v);
    NamedConflicts(s.cg.cells, n, p, v);
  }

  lemma SceneParts(s: SleetValue, n: nat, p: Plot)
    ensures Scene(s, n, p) <==>
      && Base(s, n) && PlotOk(p) && SceneGraph(s.dag.g, n, p)
      && SceneCells(s.cg.cells, n, p) && SceneSets(s.cg.cs, n, p) && SceneStore(s.store, n, p)
      && CoinsKnown(s.cg.vertices.Keys) && Unqueried(s.dag.chits, p)
  {
    hide Base, PlotOk, SceneGraph, SceneCells, SceneSets, SceneStore, CoinsKnown, Unqueried;
  }

  lemma NamedConflicts(cells: map<Hash, Cell>, n: nat, p: Plot, v: Hash)
    requires SceneCells(cells, n, p) && PlotOk(p) && v in p.g
    ensures v in p.cells && v in cells && C.ConflictsOf(cells, v) == C.ConflictsOf(p.cells, v)
  {
    hide Children, Closed;
    forall k | k in Children(0, n) ensures !C.Conflict(p.cells[v], cells[k]) {
      var j: nat :| j < 100 && k == Child(j) && cells[k] == ChildCell(j);
    }
    hide C.Conflict;
  }

  lemma ExactSets(s: SleetValue, v: Hash)
    requires Sane(s)
    ensures v in s.cg.cells ==> v in s.cg.cs && s.cg.cs[v].conflicts == C.ConflictsOf(s.cg.cells, v)
  {
    hide SleetOk, C.ConflictsOf;
  }

  /** What the plot says about one named transaction, whether found final or not. */
  lemma NamedFacts(s: SleetValue, n: nat, p: Plot, k: Hash)
    requires Scene(s, n, p) && k in p.g
    ensures k in s.dag.g && s.dag.g[k] == p.g[k] && k in p.cells && k in s.cg.cells && s.cg.cells[k] == p.cells[k]
    ensures k in s.store && s.store[k].cell == p.cells[k] && k in s.dag.chits && s.dag.chits[k] == 0
    ensures forall j: nat :: j < 200 ==> Coin(j) in s.cg.vertices.Keys
  {
    hide *;
    SceneParts(s, n, p);
    BaseParts(s, n);
    SaneFacts(s);
    NamedMaps(s, n, p, k);
  }

  lemma NamedMaps(s: SleetValue, n: nat, p: Plot, k: Hash)
    requires PlotOk(p) && SceneGraph(s.dag.g, n, p) && SceneCells(s.cg.cells, n, p) && Unqueried(s.dag.chits, p)
    requires k in p.g
    requires CoinsKnown(s.cg.vertices.Keys)
    ensures k in s.dag.g && s.dag.g[k] == p.g[k] && k in p.cells && k in s.cg.cells && s.cg.cells[k] == p.cells[k]
    ensures k in s.dag.chits && s.dag.chits[k] == 0
    ensures forall j: nat :: j < 200 ==> Coin(j) in s.cg.vertices.Keys
  {
    hide Children, Closed;
  }

  ghost predicate Act(run: Run, n: nat, p: Plot) {
    Standing(run, n) && Scene(Last(run), n, p)
  }

  const NOBODY := Plot(map[], map[], map[], {}, {})

  // a named transaction arrives

  /** A transaction that may be added to the plot. */
  ghost predicate Newcomer(p: Plot, tx: Tx) {
    var h, cell := tx.cell.hash, tx.cell;
    && h !in p.g && 0 < h.digest < 100 && tx.status == Pending && !HasCoinbaseOutput(cell)
    && (forall q :: q in tx.parents ==> q in p.g && q !in p.done)
    && (forall id :: id in cell.inputs ==>
         (exists j: nat :: 100 <= j < 200 && id == Coin(j)) || exists k :: k in p.cells && id in Produced(p.cells[k]))
    && (forall k :: k in p.cells ==> p.cells[k].inputs !! Produced(cell)) && cell.inputs !! Produced(cell)
  }

  ghost predicate AllZero(p: Plot) {
    p.cnts.Keys == p.g.Keys && forall v :: v in p.cnts ==> p.cnts[v] == 0
  }

  ghost function Entered(p: Plot, n: nat, tx: Tx): Plot {
    var h, alone := tx.cell.hash, Unconflicted(p.cells, tx.cell);
    Plot(p.g[h := tx.parents], p.cells[h := tx.cell],
         if alone || (n == 0 && AllZero(p)) then p.cnts[h := 0] else p.cnts,
         if alone then p.own + {h} else p.own, p.done)
  }

  lemma Enter(run: Run, n: nat, p: Plot, tx: Tx) returns (more: Run)
    requires Act(run, n, p) && Newcomer(p, tx)
    ensures Act(more, n, Entered(p, n, tx)) && Outbox(more) == Outbox(run)
  {
    hide *;
    ActParts(run, n, p);
    StandingParts(run, n);
    SceneParts(Last(run), n, p);
    var s := Last(run);
    var t := Received(s, tx);
    BaseParts(s, n);
    SaneFacts(s);
    NewcomerFits(s, n, p, tx);
    FittingArrives(s, tx);
    Extend(run, Receive(tx), t);
    more := Then(run, Receive(tx), t);
    EnteredBase(s, n, p, tx, t);
    StandingWhen(more, n);
    EnteredScene(s, n, p, tx, t);
    assert Outbox(run) + [] == Outbox(run);
    ActParts(more, n, Entered(p, n, tx));
  }

  lemma ActParts(run: Run, n: nat, p: Plot)
    ensures Act(run, n, p) <==> Standing(run, n) && Scene(Last(run), n, p)
  {
    hide Standing, Scene;
  }

  /** The hashes of children are not names. */
  lemma NameIsNew(n: nat, p: Plot, h: Hash)
    requires h !in p.g && h.digest < 100
    ensures h !in p.g.Keys + Children(0, n)
  {
    ChildrenAre(0, n);
  }

  lemma NewcomerFits(s: SleetValue, n: nat, p: Plot, tx: Tx)
    requires Scene(s, n, p) && Sane(s) && Newcomer(p, tx)
    ensures Fitting(s, tx) && (Unconflicted(s.cg.cells, tx.cell) <==> Unconflicted(p.cells, tx.cell))
    ensures forall j: nat :: j < 100 ==> Coin(j) !in tx.cell.inputs
  {
    hide *;
    SceneParts(s, n, p);
    NameIsNew(n, p, tx.cell.hash) by { NewcomerParts(p, tx); }
    NewcomerInputs(s, n, p, tx);
    NewcomerOutputs(s.cg, n, p, tx);
    NewcomerParents(s, n, p, tx);
    NewcomerConflicts(s.cg.cells, n, p, tx);
  }

  lemma NewcomerParts(p: Plot, tx: Tx)
    requires Newcomer(p, tx)
    ensures tx.cell.hash !in p.g && 0 < tx.cell.hash.digest < 100 && tx.status == Pending && !HasCoinbaseOutput(tx.cell)
  {
    hide HasCoinbaseOutput;
  }

  lemma OutputsKnown(s: SleetValue, k: Hash)
    requires Sane(s) && k in s.cg.cells
    ensures Produced(s.cg.cells[k]) <= s.cg.vertices.Keys
  {
    hide SleetOk, Produced;
  }

  lemma NewcomerInputs(s: SleetValue, n: nat, p: Plot, tx: Tx)
    requires Sane(s) && PlotOk(p) && SceneCells(s.cg.cells, n, p) && CoinsKnown(s.cg.vertices.Keys) && Newcomer(p, tx)
    ensures tx.cell.inputs <= s.cg.vertices.Keys && forall j: nat :: j < 100 ==> Coin(j) !in tx.cell.inputs
  {
    hide Sane, Produced, Children;
    forall id | id in tx.cell.inputs
      ensures id in s.cg.vertices.Keys && forall j: nat :: j < 100 ==> id != Coin(j)
    {
      if j: nat :| 100 <= j < 200 && id == Coin(j) {
      } else {
        var k :| k in p.cells && id in Produced(p.cells[k]);
        OutputsKnown(s, k);
        IdIndex(p.cells[k], id);
      }
    }
  }

  lemma NewcomerOutputs(cg: C.ConflictState, n: nat, p: Plot, tx: Tx)
    requires SceneCells(cg.cells, n, p) && Newcomer(p, tx)
    ensures C.ProducesUnspent(cg, tx.cell)
  {
    hide Produced, Children;
    forall k | k in cg.cells ensures cg.cells[k].inputs !! Produced(tx.cell) {
      if k !in p.cells {
        var j: nat :| j < 100 && k == Child(j) && cg.cells[k] == ChildCell(j);
        forall id | id in Produced(tx.cell) ensures id != Coin(j) { IdIndex(tx.cell, id); }
      }
    }
  }

  lemma NewcomerParents(s: SleetValue, n: nat, p: Plot, tx: Tx)
    requires SceneGraph(s.dag.g, n, p) && SceneStore(s.store, n, p) && Newcomer(p, tx)
    requires tx.cell.hash !in p.g.Keys + Children(0, n)
    requires tx.cell.inputs <= s.cg.vertices.Keys && C.ProducesUnspent(s.cg, tx.cell)
    ensures Fitting(s, tx)
  {
    hide C.ProducesUnspent, HasCoinbaseOutput, Children, Produced;
  }

  lemma NewcomerConflicts(cells: map<Hash, Cell>, n: nat, p: Plot, tx: Tx)
    requires SceneCells(cells, n, p) && forall j: nat :: j < 100 ==> Coin(j) !in tx.cell.inputs
    ensures Unconflicted(cells, tx.cell) <==> Unconflicted(p.cells, tx.cell)
  {
    hide Children;
    forall k | k in cells && k !in p.cells ensures !C.Conflict(tx.cell, cells[k]) {
      var j: nat :| j < 100 && k == Child(j) && cells[k] == ChildCell(j);
    }
    hide C.Conflict;
  }

  lemma EnteredBase(s: SleetValue, n: nat, p: Plot, tx: Tx, t: SleetValue)
    requires Base(s, n) && Sane(t) && Arrived(s, tx, t) && Newcomer(p, tx)
    requires forall j: nat :: j < 100 ==> Coin(j) !in tx.cell.inputs
    ensures Base(t, n)
  {
    hide *;
    NewcomerParts(p, tx);
    ArrivedMaps(s, tx, t);
    BaseIs(s, n);
    CoinsAfter(s.cg, n, tx.cell, t.cg);
    PrefsAfter(s.cg, tx.cell, s.dag.g, t.cg.cs, t.dag.g);
    BaseIs(t, n);
  }

  lemma ArrivedMaps(s: SleetValue, tx: Tx, t: SleetValue)
    requires Arrived(s, tx, t)
    ensures t.dag.g == s.dag.g[tx.cell.hash := tx.parents] && t.dag.chits == s.dag.chits[tx.cell.hash := 0]
    ensures t.store == s.store[tx.cell.hash := tx] && t.cg.cells == s.cg.cells[tx.cell.hash := tx.cell]
    ensures t.cg.vertices.Keys == s.cg.vertices.Keys + Produced(tx.cell) && Joined(s.cg, tx.cell, t.cg.cs)
  {
    hide Joined, Produced;
  }

  lemma BaseIs(s: SleetValue, n: nat)
    ensures Base(s, n) <==>
      && Sane(s) && n <= 100 && CoinsLeft(s.cg, n) && (forall k :: k in s.store ==> k.digest < 100 + n)
      && (forall k :: k in s.dag.chits ==> s.dag.chits[k] <= 1)
      && (forall k :: k in s.cg.cs ==> s.cg.cs[k].pref in s.dag.g)
  {
    hide Sane, CoinsLeft;
  }

  lemma CoinsAfter(cg: C.ConflictState, n: nat, cell: Cell, cg': C.ConflictState)
    requires CoinsLeft(cg, n) && cg'.cells == cg.cells[cell.hash := cell] && cg.vertices.Keys <= cg'.vertices.Keys
    requires forall j: nat :: j < 100 ==> Coin(j) !in cell.inputs
    ensures CoinsLeft(cg', n)
  {
  }

  lemma PrefsAfter(cg: C.ConflictState, cell: Cell, g: Graph, cs: map<Hash, C.ConflictSet>, g': Graph)
    requires Joined(cg, cell, cs) && (forall k :: k in cg.cs ==> cg.cs[k].pref in g) && g.Keys + {cell.hash} <= g'.Keys
    ensures forall k :: k in cs ==> cs[k].pref in g'
  {
    hide Unconflicted;
  }

  lemma EnteredScene(s: SleetValue, n: nat, p: Plot, tx: Tx, t: SleetValue)
    requires Scene(s, n, p) && Base(t, n) && Arrived(s, tx, t) && Newcomer(p, tx)
    requires Unconflicted(s.cg.cells, tx.cell) <==> Unconflicted(p.cells, tx.cell)
    requires forall j: nat :: j < 100 ==> Coin(j) !in tx.cell.inputs
    ensures Scene(t, n, Entered(p, n, tx))
  {
    hide *;
    var p' := Entered(p, n, tx);
    SceneParts(s, n, p);
    NewcomerParts(p, tx);
    NameIsNew(n, p, tx.cell.hash);
    EnteredPlot(p, n, tx);
    EnteredMaps(s, n, p, tx, t);
    EnteredSets(s, n, p, tx, t);
    SceneParts(t, n, p');
  }

  lemma EnteredPlot(p: Plot, n: nat, tx: Tx)
    requires PlotOk(p) && Newcomer(p, tx) && forall j: nat :: j < 100 ==> Coin(j) !in tx.cell.inputs
    ensures PlotOk(Entered(p, n, tx))
  {
    var p' := Entered(p, n, tx);
    ClosedAfter(p.g, tx.cell.hash, tx.parents);
    hide Closed, Unconflicted, AllZero, Produced;
    assert forall k, j: nat :: k in p'.cells && j < 100 ==> Coin(j) !in p'.cells[k].inputs;
  }

  lemma ClosedAfter(g: Graph, h: Hash, parents: seq<Hash>)
    requires Closed(g) && forall q :: q in parents ==> q in g
    ensures Closed(g[h := parents])
  {
    var g' := g[h := parents];
    forall u, v | Edge(g', u, v) ensures v in g' { if u != h { assert Edge(g, u, v); } }
  }

  lemma EnteredIs(p: Plot, n: nat, tx: Tx)
    ensures var h, p' := tx.cell.hash, Entered(p, n, tx);
      && p'.g == p.g[h := tx.parents] && p'.cells == p.cells[h := tx.cell] && p'.done == p.done
      && p'.own == (if Unconflicted(p.cells, tx.cell) then p.own + {h} else p.own)
      && p'.cnts ==
         if Unconflicted(p.cells, tx.cell) || (n == 0 && AllZero(p)) then p.cnts[h := 0] else p.cnts
  {
    hide Unconflicted, AllZero;
  }

  lemma EnteredMaps(s: SleetValue, n: nat, p: Plot, tx: Tx, t: SleetValue)
    requires SceneGraph(s.dag.g, n, p) && SceneCells(s.cg.cells, n, p) && SceneStore(s.store, n, p) && PlotOk(p)
    requires CoinsKnown(s.cg.vertices.Keys) && Unqueried(s.dag.chits, p) && Arrived(s, tx, t) && tx.status == Pending
    requires tx.cell.hash !in p.g.Keys + Children(0, n)
    ensures var p' := Entered(p, n, tx);
      && SceneGraph(t.dag.g, n, p') && SceneCells(t.cg.cells, n, p') && SceneStore(t.store, n, p')
      && CoinsKnown(t.cg.vertices.Keys) && Unqueried(t.dag.chits, p')
  {
    hide *;
    PlotKeys(p);
    ArrivedMaps(s, tx, t);
    EnteredIs(p, n, tx);
    EnteredGraph(s.dag.g, n, p, tx, Entered(p, n, tx));
    EnteredCells(s.cg.cells, n, p, tx, Entered(p, n, tx));
    EnteredStore(s.store, n, p, tx, Entered(p, n, tx));
    CoinsStillKnown(s.cg.vertices.Keys, t.cg.vertices.Keys);
    EnteredChits(s.dag.chits, p, tx, Entered(p, n, tx));
  }

  lemma EnteredChits(chits: map<Hash, u8>, p: Plot, tx: Tx, p': Plot)
    requires Unqueried(chits, p) && p'.g == p.g[tx.cell.hash := tx.parents]
    ensures Unqueried(chits[tx.cell.hash := 0], p')
  {
  }

  lemma PlotKeys(p: Plot)
    requires PlotOk(p)
    ensures p.g.Keys == p.cells.Keys && p.cnts.Keys <= p.g.Keys && p.own <= p.g.Keys && p.done <= p.g.Keys
  {
    hide Closed;
  }

  lemma CoinsStillKnown(a: set<CellId>, b: set<CellId>)
    requires CoinsKnown(a) && a <= b
    ensures CoinsKnown(b)
  {
  }

  lemma EnteredGraph(g: Graph, n: nat, p: Plot, tx: Tx, p': Plot)
    requires SceneGraph(g, n, p) && tx.cell.hash !in p.g.Keys + Children(0, n)
    requires p'.g == p.g[tx.cell.hash := tx.parents]
    ensures SceneGraph(g[tx.cell.hash := tx.parents], n, p')
  {
    hide Children;
  }

  lemma EnteredCells(cells: map<Hash, Cell>, n: nat, p: Plot, tx: Tx, p': Plot)
    requires SceneCells(cells, n, p) && p.g.Keys == p.cells.Keys && tx.cell.hash !in p.g.Keys + Children(0, n)
    requires p'.cells == p.cells[tx.cell.hash := tx.cell]
    ensures SceneCells(cells[tx.cell.hash := tx.cell], n, p')
  {
    hide Children;
  }

  lemma EnteredStore(store: Store, n: nat, p: Plot, tx: Tx, p': Plot)
    requires SceneStore(store, n, p) && p.done <= p.g.Keys && tx.cell.hash !in p.g.Keys + Children(0, n)
    requires p'.g == p.g[tx.cell.hash := tx.parents] && p'.done == p.done && tx.status == Pending
    ensures SceneStore(store[tx.cell.hash := tx], n, p')
  {
    hide Children;
  }

  lemma EnteredSets(s: SleetValue, n: nat, p: Plot, tx: Tx, t: SleetValue)
    requires SceneSets(s.cg.cs, n, p) && PlotOk(p) && Arrived(s, tx, t) && tx.cell.hash !in p.g.Keys + Children(0, n)
    requires Unconflicted(s.cg.cells, tx.cell) <==> Unconflicted(p.cells, tx.cell)
    ensures SceneSets(t.cg.cs, n, Entered(p, n, tx))
  {
    hide *;
    PlotKeys(p);
    ArrivedMaps(s, tx, t);
    EnteredIs(p, n, tx);
    if Unconflicted(p.cells, tx.cell) {
      JoinedAlone(s.cg, tx.cell, t.cg.cs);
      SetsAlone(s.cg.cs, n, p, tx, t.cg.cs, Entered(p, n, tx));
    } else {
      var a := JoinedLate(s.cg, tx.cell, t.cg.cs);
      SetsLate(s.cg.cs, n, p, tx, a, t.cg.cs, Entered(p, n, tx));
    }
  }

  lemma JoinedAlone(cg: C.ConflictState, cell: Cell, cs: map<Hash, C.ConflictSet>)
    requires Joined(cg, cell, cs) && Unconflicted(cg.cells, cell)
    ensures cs == cg.cs[cell.hash := C.NewConflictSet(cell.hash)]
  {
    hide Unconflicted;
  }

  lemma JoinedLate(cg: C.ConflictState, cell: Cell, cs: map<Hash, C.ConflictSet>) returns (a: Hash)
    requires Joined(cg, cell, cs) && !Unconflicted(cg.cells, cell)
    ensures cs.Keys == cg.cs.Keys + {cell.hash} && (forall b :: b in cg.cs ==> SameVotes(cg.cs[b], cs[b]))
    ensures a in cg.cs && SameVotes(cg.cs[a], cs[cell.hash])
  {
    hide Unconflicted;
    a :| a in cg.cs && SameVotes(cg.cs[a], cs[cell.hash]);
  }

  lemma SetsAlone(cs: map<Hash, C.ConflictSet>, n: nat, p: Plot, tx: Tx, cs': map<Hash, C.ConflictSet>, p': Plot)
    requires SceneSets(cs, n, p) && cs' == cs[tx.cell.hash := C.NewConflictSet(tx.cell.hash)]
    requires tx.cell.hash !in p.g.Keys + Children(0, n) && p.cnts.Keys <= p.g.Keys && p.own <= p.g.Keys
    requires p'.g == p.g[tx.cell.hash := tx.parents] && p'.cnts == p.cnts[tx.cell.hash := 0]
    requires p'.own == p.own + {tx.cell.hash}
    ensures SceneSets(cs', n, p')
  {
    hide *;
    NewLast(tx.cell.hash);
    SetsParts(cs, n, p);
    CountsAlone(cs, n, p, tx.cell.hash, cs', p');
    NamesEntered(n, p, tx, p');
    LastsGrow(cs, n, p, tx.cell.hash, cs', p');
    OwnGrows(cs, p.g.Keys, p.own, tx.cell.hash, cs', p'.own);
    assert p'.g.Keys == p.g.Keys + {tx.cell.hash};
    SetsParts(cs', n, p');
  }

  lemma NewLast(h: Hash)
    ensures C.NewConflictSet(h).last == h
  {
  }

  lemma SetsParts(cs: map<Hash, C.ConflictSet>, n: nat, p: Plot)
    ensures SceneSets(cs, n, p) <==>
      && cs.Keys == p.g.Keys + Children(0, n) && SetCounts(cs, n, p)
      && LastsNamed(cs, n, p) && LastsOwn(cs, p.g.Keys, p.own)
  {
    hide Children, SetCounts, LastsNamed, LastsOwn;
  }

  lemma LastsGrow(cs: map<Hash, C.ConflictSet>, n: nat, p: Plot, h: Hash, cs': map<Hash, C.ConflictSet>, p': Plot)
    requires LastsNamed(cs, n, p) && cs'.Keys == cs.Keys + {h}
    requires forall b :: b in cs && b != h ==> cs'[b].last == cs[b].last
    requires (forall k :: Names(n, p, k) ==> Names(n, p', k)) && Names(n, p', cs'[h].last)
    ensures LastsNamed(cs', n, p')
  {
    hide Names;
  }

  lemma OwnGrows(cs: map<Hash, C.ConflictSet>, names: set<Hash>, own: set<Hash>, h: Hash,
                 cs': map<Hash, C.ConflictSet>, own': set<Hash>)
    requires LastsOwn(cs, names, own) && h !in names && h !in own && h in cs'
    requires forall b :: b in cs && b != h ==> b in cs' && cs'[b].last == cs[b].last
    requires own' == if cs'[h].last == h then own + {h} else own
    ensures LastsOwn(cs', names + {h}, own')
  {
  }

  lemma CountsAlone(cs: map<Hash, C.ConflictSet>, n: nat, p: Plot, h: Hash, cs': map<Hash, C.ConflictSet>, p': Plot)
    requires SetCounts(cs, n, p) && h !in cs && cs' == cs[h := C.NewConflictSet(h)] && p'.cnts == p.cnts[h := 0]
    ensures SetCounts(cs', n, p')
  {
    hide Children;
  }

  lemma SetsLate(cs: map<Hash, C.ConflictSet>, n: nat, p: Plot, tx: Tx, a: Hash, cs': map<Hash, C.ConflictSet>,
                 p': Plot)
    requires SceneSets(cs, n, p) && tx.cell.hash !in p.g.Keys + Children(0, n) && p.cnts.Keys <= p.g.Keys
    requires p.own <= p.g.Keys
    requires cs'.Keys == cs.Keys + {tx.cell.hash} && (forall b :: b in cs ==> SameVotes(cs[b], cs'[b]))
    requires a in cs && SameVotes(cs[a], cs'[tx.cell.hash])
    requires p'.g == p.g[tx.cell.hash := tx.parents] && p'.own == p.own
    requires p'.cnts == if n == 0 && AllZero(p) then p.cnts[tx.cell.hash := 0] else p.cnts
    ensures SceneSets(cs', n, p')
  {
    hide *;
    SetsParts(cs, n, p);
    CountsLate(cs, n, p, tx, a, cs', p');
    NamesEntered(n, p, tx, p');
    LastsLate(cs, n, p, tx, a, cs', p');
    assert p'.g.Keys == p.g.Keys + {tx.cell.hash};
    SetsParts(cs', n, p');
  }

  lemma CountsLate(cs: map<Hash, C.ConflictSet>, n: nat, p: Plot, tx: Tx, a: Hash, cs': map<Hash, C.ConflictSet>,
                   p': Plot)
    requires cs.Keys == p.g.Keys + Children(0, n) && SetCounts(cs, n, p) && p.cnts.Keys <= p.g.Keys
    requires tx.cell.hash !in cs && cs'.Keys == cs.Keys + {tx.cell.hash}
    requires forall b :: b in cs ==> SameVotes(cs[b], cs'[b])
    requires a in cs && SameVotes(cs[a], cs'[tx.cell.hash])
    requires p'.cnts == if n == 0 && AllZero(p) then p.cnts[tx.cell.hash := 0] else p.cnts
    ensures SetCounts(cs', n, p')
  {
    assert n == 0 ==> Children(0, n) == {};
    hide Children;
  }

  lemma LastsLate(cs: map<Hash, C.ConflictSet>, n: nat, p: Plot, tx: Tx, a: Hash, cs': map<Hash, C.ConflictSet>,
                  p': Plot)
    requires cs.Keys == p.g.Keys + Children(0, n) && LastsNamed(cs, n, p) && LastsOwn(cs, p.g.Keys, p.own)
    requires p.own <= p.g.Keys
    requires tx.cell.hash !in cs && cs'.Keys == cs.Keys + {tx.cell.hash}
    requires forall b :: b in cs ==> SameVotes(cs[b], cs'[b])
    requires a in cs && SameVotes(cs[a], cs'[tx.cell.hash])
    requires p'.g == p.g[tx.cell.hash := tx.parents] && p'.own == p.own
    ensures LastsNamed(cs', n, p') && LastsOwn(cs', p.g.Keys + {tx.cell.hash}, p'.own)
  {
    NamesEntered(n, p, tx, p');
    assert Names(n, p, cs[a].last);
    hide Children, Names, LastsNamed, LastsOwn;
    LastsGrow(cs, n, p, tx.cell.hash, cs', p');
    OwnGrows(cs, p.g.Keys, p.own, tx.cell.hash, cs', p'.own);
  }

  lemma NamesEntered(n: nat, p: Plot, tx: Tx, p': Plot)
    requires tx.cell.hash !in p.g.Keys + Children(0, n) && p'.g == p.g[tx.cell.hash := tx.parents]
    ensures forall h :: Names(n, p, h) ==> Names(n, p', h)
    ensures Names(n, p', tx.cell.hash) && !Names(n, p, tx.cell.hash)
  {
  }

  // a named transaction is made final

  ghost predicate Alone(p: Plot, a: Hash) {
    a in p.cells && C.ConflictsOf(p.cells, a) == {a}
  }

  /** After `m` votes on children of `h`, and not before, `h` and its ancestry are final; `b` is what they
      wait for. */
  ghost predicate Ripe(p: Plot, h: Hash, b: Hash, m: nat) {
    && m > 0 && h in p.g && b in Reach(p.g, h)
    && (forall a :: a in Reach(p.g, h) ==>
         && b in Reach(p.g, a) && a !in p.done && a in p.own && a in p.cnts && p.cnts[a] + m <= C.BETA2
         && (p.cnts[a] + m == C.BETA2 || (Alone(p, a) && p.cnts[a] + m >= C.BETA1)))
    && b in p.cnts && (Alone(p, b) ==> p.cnts[b] + m - 1 < C.BETA1) && p.cnts[b] + m - 1 < C.BETA2
  }

  ghost function Ripened(p: Plot, h: Hash, m: nat): Plot {
    p.(cnts := map v | v in p.cnts :: if v in Reach(p.g, h) then p.cnts[v] + m else p.cnts[v],
       done := p.done + Reach(p.g, h))
  }

  lemma Ripen(run: Run, n: nat, p: Plot, h: Hash, b: Hash, m: nat) returns (more: Run)
    requires Act(run, n, p) && n + m <= 100 && Ripe(p, h, b, m)
    ensures Act(more, n + m, Ripened(p, h, m)) && Outbox(more) == Outbox(run) + [Reach(p.g, h)]
    ensures GraphGrown(Last(run).dag.g, Children(n, m), Last(more).dag.g)
    ensures ChitsGrown(Last(run).dag.chits, Children(n, m), Last(more).dag.chits)
  {
    hide *;
    ActParts(run, n, p);
    var s := Last(run);
    RipeParts(p, h, b, m);
    SceneReach(s, n, p, h);
    RipePatient(s, n, p, h, b, m);
    RipeDue(s, n, p, h, b, m);
    more := Decide(run, n, h, b, m);
    StandingParts(more, n + m);
    SceneParts(s, n, p);
    RipenedIs(p, h, b, m);
    DecidedParts(s, n, m, h, Last(more));
    RipenedScene(s, n, p, h, Reach(p.g, h), m, Last(more), Ripened(p, h, m));
    RipenedChits(s.dag.chits, n, m, p, Last(more).dag.chits, Ripened(p, h, m), Reach(p.g, h));
    SceneParts(Last(more), n + m, Ripened(p, h, m));
    ActParts(more, n + m, Ripened(p, h, m));
  }

  lemma RipeParts(p: Plot, h: Hash, b: Hash, m: nat)
    requires Ripe(p, h, b, m)
    ensures m > 0 && h in p.g && b in Reach(p.g, h)
  {
    hide Reach;
  }

  /** What the plot says about one named transaction. */
  lemma SceneFacts(s: SleetValue, n: nat, p: Plot, a: Hash)
    requires Scene(s, n, p) && a in p.g && a !in p.done
    ensures Open(s.store, a) && a in s.cg.cs && (a in p.own ==> s.cg.cs[a].last == a)
    ensures a in p.cnts ==> s.cg.cs[a].cnt == p.cnts[a]
    ensures |s.cg.cs[a].conflicts| == 1 <==> Alone(p, a)
  {
    hide *;
    SceneParts(s, n, p);
    SceneConflicts(s, n, p, a);
    PlotKeys(p);
    OnlyItself(p, a, s.cg.cs[a].conflicts);
    NamedStore(s.store, n, p, a);
    NamedSet(s.cg.cs, n, p, a);
  }

  lemma OnlyItself(p: Plot, a: Hash, conflicts: set<Hash>)
    requires a in p.cells && conflicts == C.ConflictsOf(p.cells, a)
    ensures |conflicts| == 1 <==> Alone(p, a)
  {
    assert a in conflicts;
    if |conflicts| == 1 { C.OnlyMember(conflicts, a); }
    hide C.ConflictsOf;
  }

  lemma NamedStore(store: Store, n: nat, p: Plot, a: Hash)
    requires SceneStore(store, n, p) && a in p.g && a !in p.done
    ensures Open(store, a)
  {
    hide Children;
  }

  lemma NamedSet(cs: map<Hash, C.ConflictSet>, n: nat, p: Plot, a: Hash)
    requires SceneSets(cs, n, p) && a in p.g
    ensures a in cs && (a in p.own ==> cs[a].last == a) && (a in p.cnts ==> cs[a].cnt == p.cnts[a])
  {
    hide Children, Names;
  }

  lemma RipePatient(s: SleetValue, n: nat, p: Plot, h: Hash, b: Hash, m: nat)
    requires Scene(s, n, p) && Ripe(p, h, b, m) && h in s.dag.g && Reach(s.dag.g, h) == Reach(p.g, h) <= p.g.Keys
    requires h in Reach(p.g, h)
    ensures Patient(s, h, b, m - 1)
  {
    hide Scene, Reach, Alone, Open;
    forall a | a in Reach(p.g, h)
      ensures b in Reach(s.dag.g, a) && a in s.cg.cs && s.cg.cs[a].last == a && s.cg.cs[a].cnt + m <= C.BETA2
    {
      SceneReach(s, n, p, a);
      SceneFacts(s, n, p, a);
    }
    SceneFacts(s, n, p, h);
    SceneFacts(s, n, p, b);
  }

  lemma RipeDue(s: SleetValue, n: nat, p: Plot, h: Hash, b: Hash, m: nat)
    requires Scene(s, n, p) && Ripe(p, h, b, m) && Reach(s.dag.g, h) == Reach(p.g, h) <= p.g.Keys
    ensures Due(s, h, m)
  {
    hide Scene, Reach, Alone, Open;
    forall a | a in Reach(p.g, h)
      ensures && Open(s.store, a) && a in s.cg.cs && s.cg.cs[a].last == a && s.cg.cs[a].cnt + m <= C.BETA2
        && (s.cg.cs[a].cnt + m == C.BETA2 || (|s.cg.cs[a].conflicts| == 1 && s.cg.cs[a].cnt + m >= C.BETA1))
    {
      SceneFacts(s, n, p, a);
    }
  }

  lemma ChildrenSplit(n: nat, m: nat)
    ensures Children(0, n + m) == Children(0, n) + Children(n, m)
  {
    ChildrenAre(0, n + m);
    ChildrenAre(0, n);
    ChildrenAre(n, m);
  }

  lemma NamesApart(n: nat, p: Plot)
    requires PlotOk(p)
    ensures p.g.Keys !! Children(0, n)
  {
    ChildrenAre(0, n);
    hide Children, Closed;
    assert p.g.Keys == p.cells.Keys;
  }

  lemma RipenedScene(s: SleetValue, n: nat, p: Plot, h: Hash, above: set<Hash>, m: nat, t: SleetValue, p': Plot)
    requires PlotOk(p) && n + m <= 100 && above <= p.own && above <= p.g.Keys
    requires SceneGraph(s.dag.g, n, p) && GraphGrown(s.dag.g, Children(n, m), t.dag.g)
    requires SceneCells(s.cg.cells, n, p) && CellsGrown(s.cg.cells, n, m, t.cg.cells)
    requires SceneSets(s.cg.cs, n, p) && SetsGrown(s.cg.cs, above, m, Children(n, m), t.cg.cs)
    requires SceneStore(s.store, n, p) && StoreMarked(s.store, Children(n, m), above, t.store)
    requires RipenedTo(p, above, m, p')
    ensures PlotOk(p') && SceneGraph(t.dag.g, n + m, p') && SceneCells(t.cg.cells, n + m, p')
    ensures SceneSets(t.cg.cs, n + m, p') && SceneStore(t.store, n + m, p')
  {
    hide *;
    RipenedParts(p, above, m, p');
    ChildrenSplit(n, m);
    NamesApart(n, p);
    NamesApart(n + m, p);
    RipenedGraph(s.dag.g, n, m, p, t.dag.g, p');
    RipenedCells(s.cg.cells, n, m, p, t.cg.cells, p');
    RipenedSets(s.cg.cs, n, m, p, above, t.cg.cs, p');
    RipenedStore(s.store, n, m, p, above, t.store, p');
  }

  lemma RipenedChits(chits: map<Hash, u8>, n: nat, m: nat, p: Plot, chits': map<Hash, u8>, p': Plot, above: set<Hash>)
    requires Unqueried(chits, p) && ChitsGrown(chits, Children(n, m), chits') && PlotOk(p) && RipenedTo(p, above, m, p')
    ensures Unqueried(chits', p')
  {
    ChildrenAre(n, m);
    hide Children, Closed;
  }

  ghost predicate RipenedTo(p: Plot, above: set<Hash>, m: nat, p': Plot) {
    && p'.g == p.g && p'.cells == p.cells && p'.own == p.own && p'.done == p.done + above
    && p'.cnts.Keys == p.cnts.Keys
    && forall v :: v in p.cnts ==> p'.cnts[v] == p.cnts[v] + if v in above then m else 0
  }

  lemma RipenedParts(p: Plot, above: set<Hash>, m: nat, p': Plot)
    requires PlotOk(p) && RipenedTo(p, above, m, p') && above <= p.g.Keys
    ensures PlotOk(p') && p'.g == p.g && p'.cells == p.cells && p'.own == p.own && p'.done == p.done + above
    ensures p'.cnts.Keys == p.cnts.Keys
    ensures forall v :: v in p.cnts ==> p'.cnts[v] == p.cnts[v] + if v in above then m else 0
  {
    hide Closed;
  }

  lemma RipenedIs(p: Plot, h: Hash, b: Hash, m: nat)
    requires Ripe(p, h, b, m)
    ensures RipenedTo(p, Reach(p.g, h), m, Ripened(p, h, m)) && Reach(p.g, h) <= p.own
  {
    hide Reach, Alone;
  }

  lemma RipenedGraph(g: Graph, n: nat, m: nat, p: Plot, g': Graph, p': Plot)
    requires SceneGraph(g, n, p) && GraphGrown(g, Children(n, m), g') && p'.g == p.g
    requires Children(0, n + m) == Children(0, n) + Children(n, m)
    ensures SceneGraph(g', n + m, p')
  {
    hide Children, Reach;
  }

  lemma RipenedCells(cells: map<Hash, Cell>, n: nat, m: nat, p: Plot, cells': map<Hash, Cell>, p': Plot)
    requires SceneCells(cells, n, p) && CellsGrown(cells, n, m, cells') && p'.cells == p.cells && n + m <= 100
    requires Children(0, n + m) == Children(0, n) + Children(n, m)
    ensures SceneCells(cells', n + m, p')
  {
    ChildrenAre(n, m);
    hide Children;
    forall k | k in Children(0, n + m) ensures exists j: nat :: j < 100 && k == Child(j) && cells'[k] == ChildCell(j) {
      if k in Children(n, m) { assert k == Child(k.digest - 100); }
    }
  }

  lemma RipenedSets(cs: map<Hash, C.ConflictSet>, n: nat, m: nat, p: Plot, above: set<Hash>,
                    cs': map<Hash, C.ConflictSet>, p': Plot)
    requires SceneSets(cs, n, p) && SetsGrown(cs, above, m, Children(n, m), cs') && above <= p.own && above <= p.g.Keys
    requires Children(0, n + m) == Children(0, n) + Children(n, m) && p.g.Keys !! Children(0, n + m)
    requires p'.g == p.g && p'.own == p.own && p'.cnts.Keys == p.cnts.Keys
    requires forall v :: v in p.cnts ==> p'.cnts[v] == p.cnts[v] + if v in above then m else 0
    ensures SceneSets(cs', n + m, p')
  {
    hide *;
    SetsParts(cs, n, p);
    RipenedCounts(cs, n, m, p, above, cs', p');
    RipenedLasts(cs, n, m, p, above, cs', p');
    SetsGrownKeys(cs, above, m, Children(n, m), cs');
    SetsParts(cs', n + m, p');
  }

  lemma SetsGrownKeys(cs: map<Hash, C.ConflictSet>, above: set<Hash>, m: nat, more: set<Hash>,
                      cs': map<Hash, C.ConflictSet>)
    requires SetsGrown(cs, above, m, more, cs')
    ensures cs'.Keys == cs.Keys + more
  {
  }

  lemma RipenedCounts(cs: map<Hash, C.ConflictSet>, n: nat, m: nat, p: Plot, above: set<Hash>,
                      cs': map<Hash, C.ConflictSet>, p': Plot)
    requires SetCounts(cs, n, p) && SetsGrown(cs, above, m, Children(n, m), cs') && above <= p.g.Keys
    requires Children(0, n + m) == Children(0, n) + Children(n, m) && p.g.Keys !! Children(0, n + m)
    requires p'.cnts.Keys == p.cnts.Keys
    requires forall v :: v in p.cnts ==> p'.cnts[v] == p.cnts[v] + if v in above then m else 0
    ensures SetCounts(cs', n + m, p')
  {
    hide Children;
  }

  lemma RipenedLasts(cs: map<Hash, C.ConflictSet>, n: nat, m: nat, p: Plot, above: set<Hash>,
                     cs': map<Hash, C.ConflictSet>, p': Plot)
    requires LastsNamed(cs, n, p) && LastsOwn(cs, p.g.Keys, p.own) && SetsGrown(cs, above, m, Children(n, m), cs')
    requires above <= p.own && above <= p.g.Keys && Children(0, n + m) == Children(0, n) + Children(n, m)
    requires p'.g == p.g && p'.own == p.own
    ensures LastsNamed(cs', n + m, p') && LastsOwn(cs', p'.g.Keys, p'.own)
  {
    hide Children;
    forall v | v in cs' ensures Names(n + m, p', cs'[v].last) {
      if v in cs && v !in above { assert Names(n, p, cs[v].last); }
    }
    hide Names;
  }

  lemma RipenedStore(store: Store, n: nat, m: nat, p: Plot, above: set<Hash>, store': Store, p': Plot)
    requires SceneStore(store, n, p) && StoreMarked(store, Children(n, m), above, store') && above <= p.g.Keys
    requires Children(0, n + m) == Children(0, n) + Children(n, m) && p.g.Keys !! Children(0, n + m)
    requires p'.g == p.g && p'.done == p.done + above
    ensures SceneStore(store', n + m, p')
  {
    hide Children;
  }

  // one vote that decides nothing

  ghost predicate Votable(p: Plot, h: Hash) {
    h in p.g && p.g[h] == [] && h !in p.done && !Alone(p, h) && h in p.cnts && p.cnts[h] + 1 < C.BETA2
  }

  ghost function VotedOn(p: Plot, h: Hash): Plot
    requires h in p.cnts
  {
    p.(cnts := p.cnts[h := p.cnts[h] + if h in p.own then 1 else 0], own := p.own + {h})
  }

  /** A child of `h` arrives and is queried. */
  lemma Vote(run: Run, n: nat, p: Plot, h: Hash) returns (more: Run)
    requires Act(run, n, p) && n < 100 && Votable(p, h)
    ensures Act(more, n + 1, VotedOn(p, h)) && Outbox(more) == Outbox(run)
    ensures Last(more).dag.g == Last(run).dag.g[Child(n) := [h]]
    ensures Last(more).dag.chits == Last(run).dag.chits[Child(n) := 1]
  {
    hide *;
    ActParts(run, n, p);
    StandingParts(run, n);
    var s := Last(run);
    SceneParts(s, n, p);
    VotableParts(p, h);
    SceneReach(s, n, p, h);
    SceneFacts(s, n, p, h);
    NoParents(p.g, h);
    OpenIsNot(s.store, h);
    var found;
    more, found := Support(run, n, h);
    var t := Last(more);
    SupportedMarks(s, n, h, found, t);
    SupportedIsSets(s, n, h, found, t);
    VoteShort(s, n, h, t);
    QuietVote(s, n, h, t, found);
    QuietOutbox(Outbox(run), found);
    PlotKeys(p);
    StandingParts(more, n + 1);
    VotedScene(s, n, p, h, t);
    CoinsStillKnown(s.cg.vertices.Keys, t.cg.vertices.Keys);
    VotedChits(s.dag.chits, n, p, h);
    SceneParts(t, n + 1, VotedOn(p, h));
    ActParts(more, n + 1, VotedOn(p, h));
  }

  lemma VotableParts(p: Plot, h: Hash)
    requires Votable(p, h)
    ensures h in p.g && p.g[h] == [] && h !in p.done && !Alone(p, h) && h in p.cnts && p.cnts[h] + 1 < C.BETA2
  {
    hide Alone;
  }

  lemma NoParents(g: Graph, h: Hash)
    requires h in g && g[h] == []
    ensures Reach(g, h) == {h}
  {
    ReachSelf(g, h);
    assert ClosedUnder(g, {h}) by { hide Reach; }
    ReachLeast(g, h, {h});
  }

  lemma OpenIsNot(store: Store, h: Hash)
    requires Open(store, h)
    ensures !HasStatus(store, h, Accepted)
  {
  }

  /** The counter is short of the threshold after the vote. */
  lemma VoteShort(s: SleetValue, n: nat, h: Hash, t: SleetValue)
    requires Reach(s.dag.g, h) == {h} && h in s.cg.cs && SetsSupported(s.cg.cs, Child(n), Reach(s.dag.g, h), t.cg.cs)
    requires s.cg.cs[h].cnt + 1 < C.BETA2 && |s.cg.cs[h].conflicts| != 1
    ensures h in t.cg.cs && !Confident(t.cg.cs[h])
  {
    hide Reach;
    assert VotedSet(s.cg.cs[h], h, t.cg.cs[h]);
  }

  lemma QuietVote(s: SleetValue, n: nat, h: Hash, t: SleetValue, found: set<Hash>)
    requires Reach(s.dag.g, h) == {h} && Open(s.store, h) && Foundings(s, h, t, found) && h in t.cg.cs
    requires !Confident(t.cg.cs[h])
    ensures found == {}
  {
    hide Reach, Confident, Open;
    assert Blocks(s, h, h);
  }

  lemma VotedChits(chits: map<Hash, u8>, n: nat, p: Plot, h: Hash)
    requires Unqueried(chits, p) && PlotOk(p) && h in p.cnts
    ensures Unqueried(chits[Child(n) := 1], VotedOn(p, h))
  {
    hide Closed;
  }

  lemma VotedScene(s: SleetValue, n: nat, p: Plot, h: Hash, t: SleetValue)
    requires n < 100 && PlotOk(p) && h in p.cnts && Reach(s.dag.g, h) == {h} && h in p.g
    requires SceneGraph(s.dag.g, n, p) && t.dag.g == s.dag.g[Child(n) := [h]]
    requires SceneCells(s.cg.cells, n, p) && t.cg.cells == s.cg.cells[Child(n) := ChildCell(n)]
    requires SceneSets(s.cg.cs, n, p) && SetsSupported(s.cg.cs, Child(n), Reach(s.dag.g, h), t.cg.cs)
    requires p.cnts[h] + 1 < C.BETA2
    requires SceneStore(s.store, n, p) && t.store.Keys == s.store.Keys + {Child(n)} && Open(t.store, Child(n))
    requires forall a :: a in s.store ==>
      t.store[a] == s.store[a].(status := if a in {} then Accepted else s.store[a].status)
    ensures var p' := VotedOn(p, h);
      && PlotOk(p') && SceneGraph(t.dag.g, n + 1, p') && SceneCells(t.cg.cells, n + 1, p')
      && SceneSets(t.cg.cs, n + 1, p') && SceneStore(t.store, n + 1, p')
  {
    hide *;
    var p' := VotedOn(p, h);
    VotedPlot(p, h);
    NamesApart(n + 1, p);
    PlotKeys(p);
    OneChild(n);
    OneGraph(s.dag.g, n, p, h, p');
    OneCells(s.cg.cells, n, p, ChildCell(n), p');
    OneStore(s.store, n, p, t.store, p');
    VotedSetsScene(s.cg.cs, n, p, h, t.cg.cs);
  }

  lemma OneChild(n: nat)
    ensures Children(0, n + 1) == Children(0, n) + {Child(n)}
  {
  }

  lemma VotedPlot(p: Plot, h: Hash)
    requires PlotOk(p) && h in p.g && h in p.cnts
    ensures var p' := VotedOn(p, h); PlotOk(p') && p'.g == p.g && p'.cells == p.cells && p'.done == p.done
  {
    hide Closed;
  }

  lemma OneGraph(g: Graph, n: nat, p: Plot, h: Hash, p': Plot)
    requires SceneGraph(g, n, p) && p'.g == p.g
    requires Children(0, n + 1) == Children(0, n) + {Child(n)} && p.g.Keys !! Children(0, n + 1)
    ensures SceneGraph(g[Child(n) := [h]], n + 1, p')
  {
    hide Children;
  }

  lemma OneCells(cells: map<Hash, Cell>, n: nat, p: Plot, cell: Cell, p': Plot)
    requires n < 100 && SceneCells(cells, n, p) && p'.cells == p.cells && cell == ChildCell(n)
    requires p.g.Keys == p.cells.Keys
    requires Children(0, n + 1) == Children(0, n) + {Child(n)} && p.g.Keys !! Children(0, n + 1)
    ensures SceneCells(cells[Child(n) := cell], n + 1, p')
  {
    hide Children;
  }

  lemma OneStore(store: Store, n: nat, p: Plot, store': Store, p': Plot)
    requires SceneStore(store, n, p) && p'.g == p.g && p'.done == p.done
    requires store'.Keys == store.Keys + {Child(n)} && Open(store', Child(n))
    requires forall a :: a in store ==> store'[a] == store[a].(status := if a in {} then Accepted else store[a].status)
    requires Children(0, n + 1) == Children(0, n) + {Child(n)} && p.g.Keys !! Children(0, n + 1)
    ensures SceneStore(store', n + 1, p')
  {
    hide Children;
    assert forall a :: a in store ==> store'[a] == store[a];
  }

  lemma VotedSetsScene(cs: map<Hash, C.ConflictSet>, n: nat, p: Plot, h: Hash, cs': map<Hash, C.ConflictSet>)
    requires SceneSets(cs, n, p) && SetsSupported(cs, Child(n), {h}, cs') && h in p.cnts && h in p.g
    requires p.cnts[h] + 1 < C.BETA2
    requires Children(0, n + 1) == Children(0, n) + {Child(n)} && p.g.Keys !! Children(0, n + 1)
    requires p.cnts.Keys <= p.g.Keys
    ensures SceneSets(cs', n + 1, VotedOn(p, h))
  {
    hide *;
    SetsParts(cs, n, p);
    VotedCounts(cs, n, p, h, cs');
    VotedLasts(cs, n, p, h, cs');
    VotedKeys(cs, n, p, h, cs');
    SetsParts(cs', n + 1, VotedOn(p, h));
  }

  lemma VotedKeys(cs: map<Hash, C.ConflictSet>, n: nat, p: Plot, h: Hash, cs': map<Hash, C.ConflictSet>)
    requires SetsSupported(cs, Child(n), {h}, cs') && h in p.cnts
    ensures cs'.Keys == cs.Keys + {Child(n)} && VotedOn(p, h).g == p.g
  {
  }

  lemma VotedCounts(cs: map<Hash, C.ConflictSet>, n: nat, p: Plot, h: Hash, cs': map<Hash, C.ConflictSet>)
    requires SetCounts(cs, n, p) && LastsOwn(cs, p.g.Keys, p.own) && SetsSupported(cs, Child(n), {h}, cs')
    requires h in p.cnts && h in p.g && p.cnts[h] + 1 < C.BETA2 && p.cnts.Keys <= p.g.Keys
    requires Children(0, n + 1) == Children(0, n) + {Child(n)} && p.g.Keys !! Children(0, n + 1)
    ensures SetCounts(cs', n + 1, VotedOn(p, h))
  {
    hide Children;
  }

  lemma VotedLasts(cs: map<Hash, C.ConflictSet>, n: nat, p: Plot, h: Hash, cs': map<Hash, C.ConflictSet>)
    requires LastsNamed(cs, n, p) && LastsOwn(cs, p.g.Keys, p.own) && SetsSupported(cs, Child(n), {h}, cs')
    requires h in p.cnts && h in p.g && Children(0, n + 1) == Children(0, n) + {Child(n)}
    requires p.g.Keys !! Children(0, n + 1)
    ensures LastsNamed(cs', n + 1, VotedOn(p, h)) && LastsOwn(cs', VotedOn(p, h).g.Keys, VotedOn(p, h).own)
  {
    hide Children;
    var p' := VotedOn(p, h);
    forall v | v in cs' ensures Names(n + 1, p', cs'[v].last) {
      if v in cs && v != h { assert Names(n, p, cs[v].last); }
    }
    hide Names;
  }

  // the first scene

  ghost const COINS: set<CellId> := set j: nat | j < 200 :: Coin(j)

  /** Coins are announced to an empty node. */
  lemma Begin() returns (run: Run)
    ensures Act(run, 0, NOBODY) && Outbox(run) == []
  {
    var s := Empty.(cg := C.Performed(Empty.cg, C.DoAppend(COINS)));
    run := Then(Init, NewOutputs(COINS), s);
    assert Outbox(Init) == [];
    RunKeepsOk(run);
    RunKeepsExact(run);
    assert Valid(run) && Clean(run) && Reporting(run) && Last(run) == s;
    hide *;
    FirstScene(s);
    StandingWhen(run, 0);
    ActParts(run, 0, NOBODY);
  }

  lemma FirstScene(s: SleetValue)
    requires s == Empty.(cg := C.Performed(Empty.cg, C.DoAppend(COINS))) && SleetOk(s) && C.ConflictOk(s.cg)
    ensures Base(s, 0) && Scene(s, 0, NOBODY)
  {
    assert s.cg.vertices.Keys == COINS && s.cg.cells == map[] && s.cg.cs == map[]
      && s.dag.g == map[] && s.store == map[];
    assert s.dag.chits == map[];
    hide *;
    EmptyBase(s);
    EmptyScene(s);
  }

  lemma EmptyBase(s: SleetValue)
    requires s.cg.vertices.Keys == COINS && s.cg.cells == map[] && s.cg.cs == map[] && s.dag.g == map[]
    requires s.store == map[]
    requires s.dag.chits == map[] && SleetOk(s) && C.ConflictOk(s.cg)
    ensures Base(s, 0)
  {
    hide SleetOk, C.ConflictOk;
  }

  lemma EmptyScene(s: SleetValue)
    requires s.cg.vertices.Keys == COINS && s.cg.cells == map[] && s.cg.cs == map[] && s.dag.g == map[]
    requires s.store == map[]
    requires s.dag.chits == map[] && Base(s, 0)
    ensures Scene(s, 0, NOBODY)
  {
    hide Base;
    assert Children(0, 0) == {};
    hide Children;
  }

  // the oldest message is handled

  lemma Deliver(run: Run, a: Hash, u: SleetValue, f: set<Hash>) returns (more: Run)
    requires Valid(run) && Clean(run) && Reporting(run) && Outbox(run) != [] && Outbox(run)[0] == {a}
    requires AcceptStep(Last(run), a, u) && IsFrontier(u.dag.g, Acc(u.dag.g, u.cg.cs, u.store), f)
    ensures Valid(more) && Clean(more) && Reporting(more) && Last(more) == Pruned(u, f)
    ensures Outbox(more) == Outbox(run)[1..]
  {
    hide Next, AcceptStep, IsFrontier, Pruned, Acc, Spoiling;
    AnnounceOne(Last(run), a, u, f);
    more := Then(run, Announce([a]), Pruned(u, f));
    assert Elems([a]) == {a};
  }

  lemma AnnounceOne(s: SleetValue, a: Hash, u: SleetValue, f: set<Hash>)
    requires AcceptStep(s, a, u) && IsFrontier(u.dag.g, Acc(u.dag.g, u.cg.cs, u.store), f)
    ensures Next(s, Announce([a]), Pruned(u, f)) && !Spoiling(s, Announce([a]))
  {
    hide AcceptStep, IsFrontier, Acc, Pruned;
    assert AcceptSteps(s, [a], [s, u]);
    assert Announced(s, [a], [s, u], f, Pruned(u, f));
  }
}
