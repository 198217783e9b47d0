/** What becomes of a transaction that was rejected: it is never admitted again. */
module Rejections {
  import opened Basics
  import opened Cells
  import opened Graphs
  import opened Dags
  import opened Frontiers
  import opened Sleets
  import opened SleetRuns
  import C = ConflictGraphs

  /** `h` is known, not up for another try, and in neither structure. */
  ghost predicate Barred(s: SleetValue, h: Hash) {
    h in s.store && !HasStatus(s.store, h, Removed) && h !in s.dag.g && h !in s.cg.cells
  }

  /** A receipt of it is turned down and changes nothing. */
  lemma BarredRefuses(s: SleetValue, tx: Tx)
    requires Barred(s, tx.cell.hash)
    ensures ReceiveResult(s, tx) == if HasCoinbaseOutput(tx.cell) then Err(InvalidCoinbaseTransaction) else Ok(false)
    ensures !Admits(s, tx) && forall t | Next(s, Receive(tx), t) :: t == s
  {
    hide HasParents, Received, HalfReceived;
  }

  // what one step touches

  /** Nothing but `hs` may come into either structure, or change in the store. */
  ghost predicate Touches(s: SleetValue, t: SleetValue, hs: set<Hash>) {
    && t.dag.g.Keys <= s.dag.g.Keys + hs && t.cg.cells.Keys <= s.cg.cells.Keys + hs
    && forall h :: h in s.store && h !in hs ==> h in t.store && t.store[h] == s.store[h]
  }

  lemma TouchKeeps(s: SleetValue, t: SleetValue, hs: set<Hash>, h: Hash)
    requires Barred(s, h) && Touches(s, t, hs) && h !in hs
    ensures Barred(t, h)
  {
  }

  lemma ReceiveTouches(s: SleetValue, tx: Tx, t: SleetValue)
    requires SleetOk(s) && ReceiveStep(s, tx, t)
    ensures Touches(s, t, {tx.cell.hash})
  {
    hide SleetOk, Admissible, HalfReceived, Received, Touches, HasParents, C.Joinable, C.HalfInserted;
    if Admits(s, tx) {
      AdmitsWhen(s, tx, t);
      ReceivedDag(s, tx);
      ReceivedParts(s, tx);
      hide ReceiveStep, ReceiveResult;
      InsertTouches(s, tx, t);
    } else if ReceiveResult(s, tx) == Err(Conflict(C.UndefinedCell)) {
      var done :| done <= tx.cell.inputs && t == s.(cg := C.HalfInserted(s.cg, tx.cell, done));
      FailedTouches(s, tx.cell, done);
    } else {
      assert t == s;
      Untouched(s, {tx.cell.hash});
    }
  }

  lemma InsertTouches(s: SleetValue, tx: Tx, t: SleetValue)
    requires t.dag.g.Keys <= s.dag.g.Keys + {tx.cell.hash} && t.cg == C.InsertedCell(s.cg, tx.cell)
    requires t.store == s.store || t.store == s.store[tx.cell.hash := tx.(status := Pending)]
    ensures Touches(s, t, {tx.cell.hash})
  {
    C.InsertedShape(s.cg, tx.cell);
    hide C.InsertedCell;
  }

  lemma FailedTouches(s: SleetValue, cell: Cell, done: set<CellId>)
    ensures Touches(s, s.(cg := C.HalfInserted(s.cg, cell, done)), {cell.hash})
  {
  }

  lemma Untouched(s: SleetValue, hs: set<Hash>)
    ensures Touches(s, s, hs)
  {
  }

  /** A query writes only `Queried` and `Accepted`. */
  lemma QueryKeeps(s: SleetValue, e: Event, t: SleetValue, h: Hash)
    requires Next(s, e, t) && (e.Success? || e.Failure?) && Barred(s, h)
    ensures Barred(t, h)
  {
    hide UpdatedSets, ResetSets, Countable, NewlyFinal;
  }

  /** What a sweep leaves, part by part. */
  lemma ShrunkParts(s: SleetValue, cell: Cell, gone: set<Hash>, again: set<Hash>, t: SleetValue)
    requires cell.hash in s.cg.cs && Shrunk(s, cell, gone, again, t)
    ensures var rejected := C.RejectedBy(s.cg, cell);
      && rejected <= gone <= Progeny(s.dag.inv, rejected) && MetTwice(s.dag.inv, rejected, again)
      && t.dag.g.Keys == s.dag.g.Keys - gone && t.cg.cells == s.cg.cells - gone
      && t.store == ShrunkStore(s.store, gone, rejected - again)
  {
    hide C.AcceptedCell, C.RemovedCells, C.RejectedBy, Restrict, Progeny, MetTwice, ShrunkStore;
    ShrunkCells(s.cg, cell, gone);
    RestrictKeys(s.dag.g, s.dag.g.Keys - gone);
  }

  lemma ShrinkTouches(s: SleetValue, cell: Cell, gone: set<Hash>, again: set<Hash>, t: SleetValue)
    requires SleetOk(s) && RejectedInDag(s, cell) && Shrunk(s, cell, gone, again, t)
    ensures gone <= s.dag.g.Keys && Touches(s, t, gone)
  {
    hide SleetOk, C.RejectedBy, DagOk, Shrunk, Touches, Progeny, MetTwice, ShrunkStore;
    if cell.hash in s.cg.cs {
      OkParts(s);
      ShrunkParts(s, cell, gone, again, t);
      SweptInside(s.dag, C.RejectedBy(s.cg, cell));
      GoneTouches(s, gone, C.RejectedBy(s.cg, cell) - again, t);
    } else {
      NothingTouched(s, cell, gone, again, t);
    }
  }

  lemma GoneTouches(s: SleetValue, gone: set<Hash>, rejected: set<Hash>, t: SleetValue)
    requires t.dag.g.Keys == s.dag.g.Keys - gone && t.cg.cells == s.cg.cells - gone
    requires t.store == ShrunkStore(s.store, gone, rejected)
    ensures Touches(s, t, gone)
  {
  }

  lemma NothingTouched(s: SleetValue, cell: Cell, gone: set<Hash>, again: set<Hash>, t: SleetValue)
    requires cell.hash !in s.cg.cs && Shrunk(s, cell, gone, again, t)
    ensures gone == {} && Touches(s, t, gone)
  {
    hide Produced;
  }

  lemma SweptInside(d: DagValue, rejected: set<Hash>)
    requires DagOk(d.g, d.inv) && rejected <= d.g.Keys
    ensures Progeny(d.inv, rejected) <= d.g.Keys
  {
    InverseSym(d.g, d.inv);
    ProgenyInside(d.inv, rejected);
  }

  lemma ProgenyInside(inv: Graph, roots: set<Hash>)
    requires Closed(inv) && roots <= inv.Keys
    ensures Progeny(inv, roots) <= inv.Keys
  {
    forall v | v in Progeny(inv, roots) ensures v in inv {
      var r :| r in roots && Reaches(inv, r, v);
      ReachInside(inv, r);
    }
  }

  lemma HaltTouches(s: SleetValue, cell: Cell, x: Hash, t: SleetValue)
    requires SleetOk(s) && HaltedClean(s, cell, x, t)
    ensures cell.hash in s.cg.cs && C.RejectedBy(s.cg, cell) <= s.cg.cells.Keys
    ensures Touches(s, t, C.RejectedBy(s.cg, cell))
  {
    hide SleetOk, C.ConflictSound, C.AcceptedCell, C.RejectedBy, Restrict, DagOk, Coupled, Touches;
    OkParts(s);
    RejectedKnown(s.cg, cell);
    AcceptedCells(s.cg, cell);
    var rejected := C.RejectedBy(s.cg, cell);
    RestrictKeys(s.dag.g, s.dag.g.Keys - rejected * s.dag.g.Keys);
    MarkTouches(s, rejected, rejected * s.dag.g.Keys + {x}, t);
  }

  lemma MarkTouches(s: SleetValue, rejected: set<Hash>, marked: set<Hash>, t: SleetValue)
    requires t.dag.g.Keys <= s.dag.g.Keys && t.cg.cells.Keys <= s.cg.cells.Keys && marked <= rejected
    requires t.store == MarkedStore(s.store, marked, TxStatus.Rejected)
    ensures Touches(s, t, rejected)
  {
  }

  lemma RejectedKnown(cg: C.ConflictState, cell: Cell)
    requires C.ConflictSound(cg) && cell.hash in cg.cs
    ensures C.RejectedBy(cg, cell) <= cg.cells.Keys && C.RejectedBy(cg, cell) <= cg.cs.Keys
  {
    C.ConflictsPresent(cg, cell.hash);
  }

  lemma AcceptKeepsBarred(s: SleetValue, k: Hash, t: SleetValue, h: Hash)
    requires SleetOk(s) && AcceptStep(s, k, t) && Barred(s, h)
    ensures Barred(t, h)
  {
    hide SleetOk, RejectedInDag, Shrunk, HaltedClean, Barred, Touches, C.RejectedBy;
    var cell := s.store[k].cell;
    BarredParts(s, h);
    if x :| HaltedClean(s, cell, x, t) {
      HaltTouches(s, cell, x, t);
      TouchKeeps(s, t, C.RejectedBy(s.cg, cell), h);
    } else {
      var gone, again :| Shrunk(s, cell, gone, again, t);
      ShrinkTouches(s, cell, gone, again, t);
      TouchKeeps(s, t, gone, h);
    }
  }

  lemma BarredParts(s: SleetValue, h: Hash)
    requires Barred(s, h)
    ensures h !in s.dag.g && h !in s.cg.cells
  {
  }

  lemma AnnounceKeepsBarred(s: SleetValue, hs: seq<Hash>, between: seq<SleetValue>, i: nat, j: nat, h: Hash)
    requires SleetOk(s) && AcceptSteps(s, hs, between) && i <= j <= |hs| && |between| == |hs| + 1
    requires Barred(between[i], h)
    ensures Barred(between[j], h)
    decreases j
  {
    hide *;
    if i < j {
      AnnounceKeepsBarred(s, hs, between, i, j - 1, h);
      AnnounceKeepsOk(s, hs, between, j - 1);
      StepAt(s, hs, between, j);
      AcceptKeepsBarred(between[j - 1], hs[j - 1], between[j], h);
    }
  }

  lemma PruneKeepsBarred(s: SleetValue, f: set<Hash>, h: Hash)
    requires Barred(s, h)
    ensures Barred(Pruned(s, f), h)
  {
    RestrictKeys(s.dag.g, Survivors(s.dag.g, f));
    hide Restrict, Survivors;
  }

  /** Every step keeps it so. */
  lemma NextKeepsBarred(s: SleetValue, e: Event, t: SleetValue, h: Hash)
    requires SleetOk(s) && Next(s, e, t) && Barred(s, h)
    ensures Barred(t, h)
  {
    hide SleetOk, Barred, ReceiveStep, Pruned, AcceptSteps, QuerySucceeded, QueryFailed, Countable;
    match e
    case Receive(tx) =>
      if tx.cell.hash == h {
        BarredRefuses(s, tx);
      } else {
        ReceiveTouches(s, tx, t);
        TouchKeeps(s, t, {tx.cell.hash}, h);
      }
    case NewOutputs(ids) => OutputsKeepBarred(s, ids, h);
    case Success(q) => QueryKeeps(s, e, t, h);
    case Failure(q) => QueryKeeps(s, e, t, h);
    case Announce(hs) =>
      var between, f :| Announced(s, hs, between, f, t);
      StepZero(s, hs, between);
      AnnounceKeepsBarred(s, hs, between, 0, |hs|, h);
      PruneKeepsBarred(between[|hs|], f, h);
  }

  lemma OutputsKeepBarred(s: SleetValue, ids: set<CellId>, h: Hash)
    requires Barred(s, h)
    ensures Barred(s.(cg := C.Performed(s.cg, C.DoAppend(ids))), h)
  {
  }

  // what a step writes

  /** The status of a transaction after a step: a receipt that succeeds makes it pending, a query on it
      queried, a query that finds it final accepted; an announcement can reject or remove what is in the
      DAG or has a conflict set. Nothing else writes it, and only a receipt makes one known. */
  lemma StatusStep(s: SleetValue, e: Event, t: SleetValue, h: Hash)
    requires SleetOk(s) && Next(s, e, t)
    ensures h in t.store <==> h in s.store || (e.Receive? && e.tx.cell.hash == h && ReceiveResult(s, e.tx) == Ok(true))
    ensures h in t.store ==>
      match e
      case Receive(tx) =>
        t.store[h].status ==
          if tx.cell.hash == h && ReceiveResult(s, tx) == Ok(true) then Pending else s.store[h].status
      case NewOutputs(_) => t.store[h].status == s.store[h].status
      case Success(q) =>
        t.store[h].status ==
          if h == q then Queried
          else if h in NewlyFinal(Counted(s, q), q) then Accepted else s.store[h].status
      case Failure(q) => t.store[h].status == if h == q then Queried else s.store[h].status
      case Announce(hs) =>
        t.store[h].status == s.store[h].status ||
        ((h in s.dag.g || h in s.cg.cs) && t.store[h].status in {TxStatus.Rejected, TxStatus.Removed})
  {
    hide SleetOk, ReceiveStep, Pruned, AcceptSteps, NewlyFinal, UpdatedSets, ResetSets, Countable, ReceiveResult;
    match e
    case Receive(tx) => ReceiveStatus(s, tx, t);
    case NewOutputs(ids) =>
    case Success(q) =>
    case Failure(q) =>
    case Announce(hs) =>
      var between, f :| Announced(s, hs, between, f, t);
      StepZero(s, hs, between);
      AnnounceStatus(s, hs, between, |hs|, h);
      PruneKeepsStore(between[|hs|], f);
  }

  lemma ReceiveStatus(s: SleetValue, tx: Tx, t: SleetValue)
    requires ReceiveStep(s, tx, t)
    ensures t.store ==
      if ReceiveResult(s, tx) == Ok(true) then s.store[tx.cell.hash := tx.(status := Pending)] else s.store
  {
    ReceivedParts(s, tx);
    hide Received, HalfReceived, HasParents, C.Joinable, C.HalfInserted;
  }

  lemma PruneKeepsStore(s: SleetValue, f: set<Hash>)
    ensures Pruned(s, f).store == s.store
  {
  }

  /** `h` keeps its status, or is rejected or removed because it was in one of the structures. */
  ghost predicate Spared(s: SleetValue, t: SleetValue, h: Hash) {
    && (h in t.store <==> h in s.store) && (h in t.dag.g ==> h in s.dag.g) && (h in t.cg.cs ==> h in s.cg.cs)
    && (h in s.store ==>
        t.store[h].status == s.store[h].status ||
        ((h in s.dag.g || h in s.cg.cs) && t.store[h].status in {TxStatus.Rejected, TxStatus.Removed}))
  }

  lemma SparedTwice(s: SleetValue, t: SleetValue, u: SleetValue, h: Hash)
    requires Spared(s, t, h) && Spared(t, u, h)
    ensures Spared(s, u, h)
  {
  }

  lemma AcceptStatus(s: SleetValue, k: Hash, t: SleetValue, h: Hash)
    requires SleetOk(s) && AcceptStep(s, k, t)
    ensures Spared(s, t, h)
  {
    AcceptStepKeepsCounters(s, k, t);
    hide SleetOk, Shrunk, HaltedClean, C.RejectedBy;
    var cell := s.store[k].cell;
    if x :| HaltedClean(s, cell, x, t) {
      HaltStatus(s, cell, x, t, h);
    } else {
      var gone, again :| Shrunk(s, cell, gone, again, t);
      SweepStatus(s, cell, gone, again, t, h);
    }
  }

  lemma HaltStatus(s: SleetValue, cell: Cell, x: Hash, t: SleetValue, h: Hash)
    requires SleetOk(s) && HaltedClean(s, cell, x, t)
    ensures (h in t.store <==> h in s.store) && (h in t.dag.g ==> h in s.dag.g)
    ensures h in s.store ==>
      t.store[h].status == s.store[h].status || (h in s.cg.cs && t.store[h].status == TxStatus.Rejected)
  {
    hide SleetOk, C.ConflictSound, C.AcceptedCell, C.RejectedBy, Restrict, DagOk;
    OkParts(s);
    RejectedKnown(s.cg, cell);
    RestrictKeys(s.dag.g, s.dag.g.Keys - C.RejectedBy(s.cg, cell) * s.dag.g.Keys);
  }

  lemma SweepStatus(s: SleetValue, cell: Cell, gone: set<Hash>, again: set<Hash>, t: SleetValue, h: Hash)
    requires SleetOk(s) && RejectedInDag(s, cell) && Shrunk(s, cell, gone, again, t)
    ensures (h in t.store <==> h in s.store) && (h in t.dag.g ==> h in s.dag.g)
    ensures h in s.store ==>
      t.store[h].status == s.store[h].status ||
      (h in s.dag.g && t.store[h].status in {TxStatus.Rejected, TxStatus.Removed})
  {
    hide SleetOk, Shrunk, Progeny, MetTwice, C.RejectedBy;
    ShrinkTouches(s, cell, gone, again, t);
    if cell.hash in s.cg.cs {
      ShrunkParts(s, cell, gone, again, t);
    } else {
      NothingMoved(s, cell, gone, again, t);
    }
  }

  lemma NothingMoved(s: SleetValue, cell: Cell, gone: set<Hash>, again: set<Hash>, t: SleetValue)
    requires cell.hash !in s.cg.cs && Shrunk(s, cell, gone, again, t)
    ensures t.store == s.store && t.dag == s.dag
  {
    hide Produced;
  }

  lemma AnnounceStatus(s: SleetValue, hs: seq<Hash>, between: seq<SleetValue>, i: nat, h: Hash)
    requires SleetOk(s) && AcceptSteps(s, hs, between) && i <= |hs| && |between| == |hs| + 1
    ensures Spared(s, between[i], h)
  {
    hide *;
    StepZero(s, hs, between);
    if i == 0 {
      SparedSelf(s, h);
    } else {
      AnnounceStatus(s, hs, between, i - 1, h);
      AnnounceKeepsOk(s, hs, between, i - 1);
      StepAt(s, hs, between, i);
      AcceptStatus(between[i - 1], hs[i - 1], between[i], h);
      SparedTwice(s, between[i - 1], between[i], h);
    }
  }

  lemma SparedSelf(s: SleetValue, h: Hash)
    ensures Spared(s, s, h)
  {
  }

  // whole runs

  /** `more` is `run` with further steps. */
  ghost predicate Continues(run: Run, more: Run) {
    more == run || (more.Then? && Continues(run, more.prev))
  }

  lemma {:induction false} BarredForGood(run: Run, more: Run, h: Hash)
    requires Valid(more) && Continues(run, more) && Barred(Last(run), h)
    ensures Barred(Last(more), h)
  {
    hide Barred, Next;
    if more != run {
      BarredForGood(run, more.prev, h);
      RunKeepsOk(more.prev);
      NextKeepsBarred(Last(more.prev), more.event, more.state, h);
    }
  }

  /** Of the cells that an accepted one rejects, each is marked rejected and barred; or it is a child of
      another of them and was met again, and then it is marked removed. */
  lemma RejectedStatus(s: SleetValue, cell: Cell, gone: set<Hash>, again: set<Hash>, t: SleetValue, r: Hash)
    requires SleetOk(s) && RejectedInDag(s, cell) && Shrunk(s, cell, gone, again, t)
    requires cell.hash in s.cg.cs && r in C.RejectedBy(s.cg, cell)
    ensures Barred(t, r) <==> r !in again
    ensures HasStatus(t.store, r, if r in again then Removed else Rejected)
    ensures r in again ==> exists u :: u in C.RejectedBy(s.cg, cell) && u != r && Edge(s.dag.inv, u, r)
  {
    hide SleetOk, Shrunk, C.RejectedBy, Progeny, C.ConflictSound, DagOk, Edge;
    OkParts(s);
    RejectedKnown(s.cg, cell);
    ShrunkParts(s, cell, gone, again, t);
    StoredCells(s);
  }

  /** A rejection that halts has marked the cells it met, up to the one that is not in the DAG, and they
      are barred; those it did not come to keep their status. */
  lemma HaltBars(s: SleetValue, cell: Cell, order: seq<Hash>, i: nat, t: SleetValue, k: nat)
    requires SleetOk(s) && HaltsAt(s, cell, order, i, t) && k < |order|
    ensures order[k] in s.store
    ensures k <= i ==> HasStatus(t.store, order[k], Rejected) && Barred(t, order[k])
    ensures k > i ==> order[k] in t.store && t.store[order[k]] == s.store[order[k]]
  {
    hide SleetOk, C.ConflictSound, C.AcceptedCell, C.RejectedBy, Restrict, DagOk, Coupled;
    OkParts(s);
    StoredCells(s);
    RejectedKnown(s.cg, cell);
    AcceptedCells(s.cg, cell);
    RestrictKeys(s.dag.g, s.dag.g.Keys - Elems(order[..i]));
    PlaceIn(order, i, k);
  }

  lemma PlaceIn(order: seq<Hash>, i: nat, k: nat)
    requires Distinct(order) && i < |order| && k < |order|
    ensures order[k] in Elems(order) && (k < i <==> order[k] in Elems(order[..i])) && (order[k] == order[i] <==> k == i)
  {
    assert order[k] in order;
    if k < i { assert order[k] == order[..i][k]; }
    assert k >= i ==> forall j | 0 <= j < i :: order[..i][j] != order[k];
  }

  lemma StoredCells(s: SleetValue)
    requires SleetOk(s)
    ensures s.cg.cs.Keys <= s.store.Keys
  {
    hide DagOk, C.ConflictSound;
  }

  /** In every run, what the announcement of an accepted transaction rejects is never admitted again,
      unless it was a child of another rejected one. */
  lemma RejectedForGood(run: Run, more: Run, between: seq<SleetValue>, f: set<Hash>, i: nat, r: Hash)
    requires Valid(more) && Continues(run, more) && Valid(run) && run.Then? && run.event.Announce?
    requires Announced(Last(run.prev), run.event.hashes, between, f, run.state) && i < |run.event.hashes|
    requires Rejects(between[i], run.event.hashes[i], r)
    ensures Barred(Last(more), r) && forall tx: Tx | tx.cell.hash == r :: !Admits(Last(more), tx)
  {
    var s, hs := Last(run.prev), run.event.hashes;
    RunKeepsOk(run.prev);
    hide *;
    AnnouncedParts(s, hs, between, f, run.state);
    AnnounceKeepsOk(s, hs, between, i);
    StepAt(s, hs, between, i + 1);
    StepRejects(between[i], hs[i], between[i + 1], r);
    AnnounceKeepsBarred(s, hs, between, i + 1, |hs|, r);
    PruneKeepsBarred(between[|hs|], f, r);
    LastOf(run);
    BarredForGood(run, more, r);
    forall tx: Tx | tx.cell.hash == r ensures !Admits(Last(more), tx) { BarredRefuses(Last(more), tx); }
  }

  /** Announcing `k` in state `s` rejects `r`, which is in the DAG as all rejected ones are, and no child of
      another one. */
  ghost predicate Rejects(s: SleetValue, k: Hash, r: Hash) {
    k in s.store && s.store[k].cell.hash in s.cg.cs &&
    var rejected := C.RejectedBy(s.cg, s.store[k].cell);
    r in rejected && rejected <= s.dag.g.Keys && forall u | u in rejected && u != r :: !Edge(s.dag.inv, u, r)
  }

  lemma LastOf(run: Run)
    requires run.Then?
    ensures Last(run) == run.state
  {
  }

  lemma AnnouncedParts(s: SleetValue, hs: seq<Hash>, between: seq<SleetValue>, f: set<Hash>, t: SleetValue)
    requires Announced(s, hs, between, f, t)
    ensures AcceptSteps(s, hs, between) && |between| == |hs| + 1 && t == Pruned(between[|hs|], f)
  {
    hide Pruned, AcceptStep, IsFrontier;
  }

  lemma StepRejects(s: SleetValue, k: Hash, t: SleetValue, r: Hash)
    requires SleetOk(s) && AcceptStep(s, k, t) && Rejects(s, k, r)
    ensures Barred(t, r)
  {
    var cell := s.store[k].cell;
    hide SleetOk, Shrunk, Barred, C.RejectedBy;
    var gone, again :| Shrunk(s, cell, gone, again, t);
    RejectedStatus(s, cell, gone, again, t, r);
  }
}
