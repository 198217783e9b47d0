/** Which transaction a conflict set prefers, and whose votes a new one takes over (`src/graph/conflict_graph.rs`,
    `src/sleet/sleet.rs`). */
module Preferences {
  import opened Basics
  import opened Cells
  import opened Graphs
  import opened Dags
  import opened Frontiers
  import opened Sleets
  import opened SleetRuns
  import C = ConflictGraphs

  // one query

  /** The conviction of `v` once a query on `q` has succeeded. */
  ghost function ConvictionAfter(s: SleetValue, q: Hash, v: Hash): nat {
    ConvictionOf(s.dag.inv, s.dag.chits[q := 1], v)
  }

  /** A successful query leaves every ancestor-or-self with whichever has more conviction, itself or what
      it preferred, and the latter if they are equal; no other preference moves. */
  lemma QueryPrefers(s: SleetValue, q: Hash, a: Hash)
    requires a in s.cg.cs
    ensures var t := QuerySucceeded(s, q);
      && t.dag.inv == s.dag.inv && t.dag.chits == s.dag.chits[q := 1] && a in t.cg.cs
      && var before, after := s.cg.cs[a].pref, t.cg.cs[a].pref;
         if a !in Reach(s.dag.g, q) then after == before
         else
           && (after == a || after == before)
           && ConvictionAfter(s, q, after) >= ConvictionAfter(s, q, a)
           && ConvictionAfter(s, q, after) >= ConvictionAfter(s, q, before)
           && (ConvictionAfter(s, q, a) <= ConvictionAfter(s, q, before) ==> after == before)
  {
    hide ConvictionOf, NewlyFinal, Reach;
  }

  /** A successful query raises the conviction of its ancestors-or-self by one, and of nothing else. */
  lemma VoteRaises(s: SleetValue, q: Hash, v: Hash)
    requires DagOk(s.dag.g, s.dag.inv) && q in s.dag.g && v in s.dag.g && q in s.dag.chits && s.dag.chits[q] == 0
    ensures ConvictionAfter(s, q, v) ==
      ConvictionOf(s.dag.inv, s.dag.chits, v) + if v in Reach(s.dag.g, q) then 1 else 0
  {
    ReachInverse(s.dag.g, s.dag.inv, q, v);
    hide DagOk;
    OneMoreChit(Reach(s.dag.inv, v), s.dag.chits, q);
  }

  lemma {:induction false} OneMoreChit(vs: set<Hash>, chits: map<Hash, u8>, q: Hash)
    requires q in chits && chits[q] == 0
    ensures SumOver(vs, chits[q := 1]) == SumOver(vs, chits) + if q in vs then 1 else 0
    decreases vs
  {
    hide SumOver;
    if vs == {} {
      SumOverNone(chits);
      SumOverNone(chits[q := 1]);
    } else {
      var x :| x in vs;
      SumOverTake(vs, chits, x);
      SumOverTake(vs, chits[q := 1], x);
      OneMoreChit(vs - {x}, chits, q);
    }
  }

  // whole runs

  ghost predicate Outweighs(s: SleetValue, q: Hash, h: Hash, p: Hash) {
    h in Reach(s.dag.g, q) && ConvictionAfter(s, q, h) > ConvictionAfter(s, q, p)
  }

  /** Since it last entered, `h` has been announced, or has outweighed what it preferred on entry when a
      query on it or a descendant succeeded. */
  ghost predicate Leads(run: Run, h: Hash) {
    run.Then? && !Enters(Last(run.prev), run.state, h) &&
    match run.event
    case Success(q) => Leads(run.prev, h) || Outweighs(Last(run.prev), q, h, Entry(run.prev, h).pref)
    case Announce(hs) => Leads(run.prev, h) || h in hs
    case _ => Leads(run.prev, h)
  }

  /** Over every run: a transaction prefers itself once it leads, and until then what it preferred on entry. */
  lemma {:induction false} PrefersLeader(run: Run, h: Hash)
    requires Valid(run) && h in Last(run).cg.cs
    ensures Last(run).cg.cs[h].pref == if Leads(run, h) then h else Entry(run, h).pref
  {
    var s, t := Last(run.prev), run.state;
    if !Enters(s, t, h) {
      RunKeepsOk(run.prev);
      PrefersLeader(run.prev, h);
      hide SleetOk, Next, ConvictionAfter, Reach;
      NextPreference(s, run.event, t, h);
    }
  }

  lemma NextPreference(s: SleetValue, e: Event, t: SleetValue, h: Hash)
    requires SleetOk(s) && Next(s, e, t) && h in s.cg.cs && h in t.cg.cs
    ensures t.cg.cs[h].pref ==
      if e.Announce? && h in e.hashes then h
      else if e.Success? && Outweighs(s, e.hash, h, s.cg.cs[h].pref) then h
      else s.cg.cs[h].pref
  {
    hide SleetOk, Next, ConvictionOf, Reach;
    if e.Success? || e.Failure? {
      QueryMovesCounter(s, e, t, h);
    } else {
      OtherStepKeepsCounter(s, e, t, h);
    }
  }

  // how long a cell has been there

  /** The number of steps since `h` last entered. */
  ghost function Since(run: Run, h: Hash): nat {
    if run.Init? || Enters(Last(run.prev), run.state, h) then 0 else Since(run.prev, h) + 1
  }

  /** Earlier elements have been there longer. */
  ghost predicate Aging(run: Run, order: seq<Hash>) {
    order == [] || ((forall k | k in order[1..] :: Since(run, order[0]) > Since(run, k)) && Aging(run, order[1..]))
  }

  lemma {:induction false} AgingAt(run: Run, order: seq<Hash>, i: nat, j: nat)
    requires Aging(run, order) && i < j < |order|
    ensures Since(run, order[i]) > Since(run, order[j])
  {
    hide Since;
    if i == 0 {
      assert order[j] == order[1..][j - 1];
    } else {
      AgingAt(run, order[1..], i - 1, j - 1);
    }
  }

  lemma {:induction false} KeepAges(run: Run, order: seq<Hash>, keep: set<Hash>)
    requires Aging(run, order)
    ensures Aging(run, Keep(order, keep))
  {
    hide Since;
    if order != [] { KeepAges(run, order[1..], keep); }
  }

  lemma {:induction false} NewestAges(run: Run, order: seq<Hash>, h: Hash)
    requires Aging(run, order) && forall k | k in order :: Since(run, k) > Since(run, h)
    ensures Aging(run, order + [h])
  {
    hide Since;
    if order == [] {
      assert [] + [h] == [h] && Aging(run, [h][1..]);
    } else {
      NewestAges(run, order[1..], h);
      assert (order + [h])[1..] == order[1..] + [h];
    }
  }

  /** One more step for all of them. */
  lemma {:induction false} StepAges(run: Run, order: seq<Hash>)
    requires run.Then? && Aging(run.prev, order)
    requires forall k | k in order :: !Enters(Last(run.prev), run.state, k)
    ensures Aging(run, order)
  {
    hide Enters;
    if order != [] { StepAges(run, order[1..]); }
  }

  lemma AcceptAges(run: Run, s: SleetValue, h: Hash, t: SleetValue)
    requires AcceptStep(s, h, t) && Aging(run, s.cg.order)
    ensures Aging(run, t.cg.order)
  {
    var cell := s.store[h].cell;
    hide Aging, Shrunk, HaltedClean, RejectedInDag;
    if x :| HaltedClean(s, cell, x, t) {
      HaltAges(run, s, cell, x, t);
    } else {
      var gone, again :| Shrunk(s, cell, gone, again, t);
      ShrinkAges(run, s, cell, gone, again, t);
    }
  }

  lemma AcceptedAges(run: Run, cg: C.ConflictState, cell: Cell)
    requires cell.hash in cg.cs && Aging(run, cg.order)
    ensures Aging(run, C.AcceptedCell(cg, cell).order)
  {
    hide Aging, Produced;
    KeepAges(run, cg.order, cg.cells.Keys - (cg.cs[cell.hash].conflicts - {cell.hash}));
  }

  lemma HaltAges(run: Run, s: SleetValue, cell: Cell, x: Hash, t: SleetValue)
    requires HaltedClean(s, cell, x, t) && Aging(run, s.cg.order)
    ensures Aging(run, t.cg.order)
  {
    hide Aging, C.AcceptedCell, C.RejectedBy;
    AcceptedAges(run, s.cg, cell);
  }

  lemma ShrinkAges(run: Run, s: SleetValue, cell: Cell, gone: set<Hash>, again: set<Hash>, t: SleetValue)
    requires Shrunk(s, cell, gone, again, t) && Aging(run, s.cg.order)
    ensures Aging(run, t.cg.order)
  {
    hide Aging, C.AcceptedCell, C.RejectedBy, Progeny, MetTwice, Produced;
    if cell.hash in s.cg.cs {
      var cg := C.AcceptedCell(s.cg, cell);
      AcceptedAges(run, s.cg, cell);
      KeepAges(run, cg.order, cg.cells.Keys - (gone - C.RejectedBy(s.cg, cell)));
    }
  }

  lemma AnnounceAges(run: Run, s: SleetValue, hs: seq<Hash>, between: seq<SleetValue>, i: nat)
    requires AcceptSteps(s, hs, between) && i <= |hs| && |between| == |hs| + 1 && Aging(run, s.cg.order)
    ensures Aging(run, between[i].cg.order)
  {
    hide *;
    StepZero(s, hs, between);
    if i > 0 {
      AnnounceAges(run, s, hs, between, i - 1);
      StepAt(s, hs, between, i);
      AcceptAges(run, between[i - 1], hs[i - 1], between[i]);
    }
  }

  /** What a step leaves of the order, seen from any history. */
  lemma OrderStep(run: Run, s: SleetValue, e: Event, t: SleetValue)
    requires SleetOk(s) && Next(s, e, t) && Aging(run, s.cg.order)
    ensures Aging(run, t.cg.order) || (e.Receive? && Arrives(s, e.tx.cell, t))
  {
    hide SleetOk, ReceiveStep, Aging, Arrives, Pruned, AcceptSteps, QuerySucceeded, QueryFailed, Countable;
    match e
    case Receive(tx) => ReceiveOrder(s, tx, t);
    case NewOutputs(ids) => OutputsOrder(s, ids);
    case Success(q) => QueryOrder(s, q);
    case Failure(q) => QueryOrder(s, q);
    case Announce(hs) =>
      var between, f :| Announced(s, hs, between, f, t);
      StepZero(s, hs, between);
      AnnounceAges(run, s, hs, between, |hs|);
      PruneKeepsSets(between[|hs|], f);
  }

  lemma OutputsOrder(s: SleetValue, ids: set<CellId>)
    ensures C.Performed(s.cg, C.DoAppend(ids)).order == s.cg.order
  {
  }

  lemma QueryOrder(s: SleetValue, q: Hash)
    ensures QuerySucceeded(s, q).cg.order == s.cg.order && QueryFailed(s, q).cg.order == s.cg.order
  {
    hide NewlyFinal, UpdatedSets, ResetSets, Reach;
  }

  /** The cell is put last, and starts from the votes it takes over. */
  ghost predicate Arrives(s: SleetValue, cell: Cell, t: SleetValue) {
    && Enters(s, t, cell.hash) && t.cg.order == s.cg.order + [cell.hash]
    && C.Joinable(s.cg, cell) && C.StartsFrom(s.cg, cell, t.cg.cs[cell.hash])
  }

  lemma ReceiveOrder(s: SleetValue, tx: Tx, t: SleetValue)
    requires SleetOk(s) && ReceiveStep(s, tx, t)
    ensures t.cg.order == s.cg.order || Arrives(s, tx.cell, t)
  {
    hide SleetOk, Received, HalfReceived, HasParents, C.StartsFrom, C.Joinable, C.InsertedCell, C.ConflictSound;
    if Admits(s, tx) {
      AdmitsWhen(s, tx, t);
      ReceivedParts(s, tx);
      OkParts(s);
      NewIsAbsent(s, tx.cell.hash);
      C.InsertedShape(s.cg, tx.cell);
      C.InsertStarts(s.cg, tx.cell);
    }
  }

  /** In every run the order of insertion is the order of age, the oldest first. */
  lemma {:induction false} OrderIsAge(run: Run)
    requires Valid(run)
    ensures Aging(run, Last(run).cg.order) && Elems(Last(run).cg.order) == Last(run).cg.cs.Keys
  {
    hide *;
    RunKeepsOk(run);
    OkParts(Last(run));
    OrderMembers(Last(run));
    if run.Then? {
      var s, t := Last(run.prev), run.state;
      ValidParts(run);
      OrderIsAge(run.prev);
      RunKeepsOk(run.prev);
      OrderStep(run.prev, s, run.event, t);
      StaysOld(s, run.event, t);
      if run.event.Receive? && Arrives(s, run.event.tx.cell, t) {
        ArrivalAges(run, run.event.tx.cell.hash);
      } else {
        OldAges(run);
      }
    } else {
      NothingAges(run);
    }
  }

  lemma ValidParts(run: Run)
    requires Valid(run) && run.Then?
    ensures Valid(run.prev) && Next(Last(run.prev), run.event, run.state) && Last(run) == run.state
  {
    hide Next;
  }

  lemma NothingAges(run: Run)
    requires run.Init?
    ensures Aging(run, Last(run).cg.order)
  {
  }

  lemma StaysOld(s: SleetValue, e: Event, t: SleetValue)
    requires SleetOk(s) && Next(s, e, t)
    ensures (forall k | k in t.cg.cs :: k in s.cg.cs) || (e.Receive? && Arrives(s, e.tx.cell, t))
  {
    hide SleetOk, Next, Arrives;
    if k :| k in t.cg.cs && k !in s.cg.cs { OnlyArrivals(s, e, t, k); }
  }

  lemma OrderMembers(s: SleetValue)
    requires C.ConflictSound(s.cg)
    ensures Elems(s.cg.order) == s.cg.cs.Keys
  {
  }

  lemma ArrivalAges(run: Run, h: Hash)
    requires run.Then? && run.event.Receive? && h == run.event.tx.cell.hash
    requires Arrives(Last(run.prev), run.event.tx.cell, run.state)
    requires Aging(run.prev, Last(run.prev).cg.order) && Elems(Last(run.prev).cg.order) == Last(run.prev).cg.cs.Keys
    ensures Aging(run, run.state.cg.order)
  {
    hide C.Joinable, C.StartsFrom, Aging;
    var order := Last(run.prev).cg.order;
    assert forall k | k in order :: k in Elems(order);
    StepAges(run, order);
    NewestAges(run, order, h);
  }

  lemma OldAges(run: Run)
    requires run.Then? && Aging(run.prev, run.state.cg.order) && Elems(run.state.cg.order) == run.state.cg.cs.Keys
    requires forall k | k in run.state.cg.cs :: k in Last(run.prev).cg.cs
    ensures Aging(run, run.state.cg.order)
  {
    hide Aging, Since;
    assert forall k | k in run.state.cg.order :: k in Elems(run.state.cg.order);
    StepAges(run, run.state.cg.order);
  }

  /** Over every run: a transaction that enters with conflicts takes preference, last vote and counter over
      from the one of them that has been there longest; one without starts with its own. */
  lemma EntryFromOldest(run: Run, h: Hash)
    requires Valid(run) && run.Then? && Enters(Last(run.prev), run.state, h)
    ensures var s, c := Last(run.prev), Entry(run, h);
      && c == run.state.cg.cs[h] && h in c.conflicts
      && (c.conflicts == {h} ==> c.pref == h && c.last == h && c.cnt == 0)
      && (c.conflicts != {h} ==>
          exists k :: k in c.conflicts - {h} && C.TakesOver(s.cg, k, c) && Oldest(run.prev, c.conflicts - {h}, k))
  {
    var s, t := Last(run.prev), run.state;
    RunKeepsOk(run.prev);
    OrderIsAge(run.prev);
    OnlyArrivals(s, run.event, t, h);
    hide Aging, SleetOk, Next, Since, Enters;
    FromOldest(run.prev, run.event.tx.cell, t);
  }

  ghost predicate Oldest(run: Run, hs: set<Hash>, k: Hash) {
    forall j | j in hs :: Since(run, j) <= Since(run, k)
  }

  lemma OnlyArrivals(s: SleetValue, e: Event, t: SleetValue, h: Hash)
    requires SleetOk(s) && Next(s, e, t) && Enters(s, t, h)
    ensures e.Receive? && e.tx.cell.hash == h && Arrives(s, e.tx.cell, t)
  {
    hide SleetOk, ReceiveStep, Pruned, AcceptSteps, Countable, Arrives;
    match e
    case Receive(tx) => ReceiveOrder(s, tx, t); ReceiveEnters(s, tx, t, h);
    case NewOutputs(ids) => assert false;
    case Success(q) => assert false;
    case Failure(q) => assert false;
    case Announce(hs) =>
      var between, f :| Announced(s, hs, between, f, t);
      StepZero(s, hs, between);
      PruneKeepsSets(between[|hs|], f);
      AnnounceKeepsCounters(s, hs, between, |hs|);
      assert false;
  }

  lemma ReceiveEnters(s: SleetValue, tx: Tx, t: SleetValue, h: Hash)
    requires SleetOk(s) && ReceiveStep(s, tx, t) && Enters(s, t, h)
    ensures h == tx.cell.hash && Arrives(s, tx.cell, t)
  {
    hide SleetOk, Received, HalfReceived, HasParents, C.StartsFrom, C.Joinable, C.InsertedCell, C.ConflictSound;
    assert Admits(s, tx);
    AdmitsWhen(s, tx, t);
    ReceivedParts(s, tx);
    C.InsertedShape(s.cg, tx.cell);
    OkParts(s);
    C.InsertStarts(s.cg, tx.cell);
  }

  lemma FromOldest(run: Run, cell: Cell, t: SleetValue)
    requires var s := Last(run);
      Arrives(s, cell, t) && Aging(run, s.cg.order) && Elems(s.cg.order) == s.cg.cs.Keys
    ensures var s, h := Last(run), cell.hash;
      var c := t.cg.cs[h];
      && h in c.conflicts
      && (c.conflicts == {h} ==> c.pref == h && c.last == h && c.cnt == 0)
      && (c.conflicts != {h} ==>
          exists k :: k in c.conflicts - {h} && C.TakesOver(s.cg, k, c) && Oldest(run, c.conflicts - {h}, k))
  {
    var s, h := Last(run), cell.hash;
    var spenders := C.SpendersOf(s.cg.vertices, cell.inputs);
    assert h !in spenders;
    hide C.SpendersOf, Aging, Since;
    if spenders == {} {
      assert t.cg.cs[h].conflicts == {h};
    } else {
      var k :| C.IsFirst(s.cg.order, spenders, k) && C.TakesOver(s.cg, k, t.cg.cs[h]);
      FirstIsOldest(run, s.cg.order, spenders, k);
      assert t.cg.cs[h].conflicts - {h} == spenders;
    }
  }

  lemma FirstIsOldest(run: Run, order: seq<Hash>, hs: set<Hash>, k: Hash)
    requires Aging(run, order) && hs <= Elems(order) && C.IsFirst(order, hs, k)
    ensures Oldest(run, hs, k)
  {
    hide Aging, Since;
    var i :| 0 <= i < |order| && order[i] == k && forall j | 0 <= j < i :: order[j] !in hs;
    forall x | x in hs ensures Since(run, x) <= Since(run, k) {
      var j :| 0 <= j < |order| && order[j] == x;
      if i < j { AgingAt(run, order, i, j); }
    }
  }
}
