/** Whole runs of a `sleet` node: what every reachable state keeps, and what a confidence counter
    says about the votes that were taken. A run ends where a call panics, and where a rejection halts
    with rejected cells left in the DAG; bootstrap is not covered. */
module SleetRuns {
  import opened Basics
  import opened Cells
  import opened Graphs
  import opened Dags
  import opened Frontiers
  import opened Sleets
  import C = ConflictGraphs

  datatype Event =
    | Receive(tx: Tx)               // a transaction is generated here or arrives in a query
    | NewOutputs(ids: set<CellId>)  // spendable outputs announced by `LiveCommittee`
    | Success(hash: Hash)           // a query on `hash` gathered enough weight
    | Failure(hash: Hash)           // it did not, or not every validator answered
    | Announce(hashes: seq<Hash>)   // `NewAccepted`

  ghost predicate Unchanged(r: Result<bool, SleetError>) {
    || r == Ok(false) || r == Err(InvalidCoinbaseTransaction) || r == Err(MissingAncestry)
    || r == Err(Conflict(C.DuplicateCell))
  }

  /** A hash names one cell. */
  ghost predicate Named(s: SleetValue, cell: Cell) {
    && (cell.hash in s.store ==> s.store[cell.hash].cell == cell)
    && (cell.hash in s.cg.cells ==> s.cg.cells[cell.hash] == cell)
  }

  /** A receipt, also one that fails half-way; an input spent by a cell without a conflict set panics. */
  ghost predicate ReceiveStep(s: SleetValue, tx: Tx, t: SleetValue) {
    var r := ReceiveResult(s, tx);
    if Unchanged(r) then t == s
    else if r == Err(Conflict(C.UndefinedCell)) then
      exists done :: done <= tx.cell.inputs && t == s.(cg := C.HalfInserted(s.cg, tx.cell, done))
    else C.Joinable(s.cg, tx.cell) && t == if r == Ok(true) then Received(s, tx) else HalfReceived(s, tx)
  }

  ghost predicate Next(s: SleetValue, e: Event, t: SleetValue) {
    match e
    case Receive(tx) => Named(s, tx.cell) && ReceiveStep(s, tx, t)
    case NewOutputs(ids) => t == s.(cg := C.Performed(s.cg, C.DoAppend(ids)))
    case Success(h) =>
      && h in s.store && (h in s.dag.chits ==> s.dag.chits[h] != 1) && Countable(s, h)
      && t == QuerySucceeded(s, h)
    case Failure(h) => h in s.store && t == QueryFailed(s, h)
    case Announce(hs) => exists between, f :: Announced(s, hs, between, f, t)
  }

  ghost predicate Announced(s: SleetValue, hs: seq<Hash>, between: seq<SleetValue>, f: set<Hash>, t: SleetValue) {
    && AcceptSteps(s, hs, between)
    && var u := between[|hs|];
       IsFrontier(u.dag.g, Acc(u.dag.g, u.cg.cs, u.store), f) && t == Pruned(u, f)
  }

  const Empty := SleetValue(DagValue(map[], map[], map[]), C.ConflictState(map[], map[], map[], []), map[])

  datatype Run = Init | Then(prev: Run, event: Event, state: SleetValue)

  ghost function Last(run: Run): SleetValue {
    if run.Init? then Empty else run.state
  }

  ghost predicate Valid(run: Run) {
    run.Then? ==> Valid(run.prev) && Next(Last(run.prev), run.event, run.state)
  }

  // what is announced

  /** The messages `QueryComplete` has sent and the node has not handled yet: what each query found. */
  ghost function Outbox(run: Run): seq<set<Hash>> {
    if run.Init? then [] else
    match run.event
    case Success(q) => Outbox(run.prev) + Message(NewlyFinal(Counted(Last(run.prev), q), q))
    case Announce(_) => if Outbox(run.prev) == [] then [] else Outbox(run.prev)[1..]
    case _ => Outbox(run.prev)
  }

  /** Nothing is sent when nothing was found. */
  ghost function Message(found: set<Hash>): seq<set<Hash>> {
    if found == {} then [] else [found]
  }

  /** Every announcement is the oldest message. The theorems about runs do without this. */
  ghost predicate Reporting(run: Run) {
    run.Then? ==>
      && Reporting(run.prev)
      && (run.event.Announce? ==>
          var hs := run.event.hashes;
          Outbox(run.prev) != [] && Distinct(hs) && Elems(hs) == Outbox(run.prev)[0])
  }

  // the invariant

  lemma StepAt(s: SleetValue, hs: seq<Hash>, between: seq<SleetValue>, i: nat)
    requires AcceptSteps(s, hs, between) && 0 < i <= |hs|
    ensures AcceptStep(between[i - 1], hs[i - 1], between[i])
  {
    hide AcceptStep;
    assert AcceptStep(between[i - 1], hs[i - 1], between[i - 1 + 1]);
  }

  lemma StepZero(s: SleetValue, hs: seq<Hash>, between: seq<SleetValue>)
    requires AcceptSteps(s, hs, between)
    ensures |between| == |hs| + 1 && between[0] == s
  {
    hide AcceptStep;
  }

  lemma AnnounceKeepsOk(s: SleetValue, hs: seq<Hash>, between: seq<SleetValue>, i: nat)
    requires SleetOk(s) && AcceptSteps(s, hs, between) && i <= |hs|
    ensures SleetOk(between[i])
  {
    hide *;
    StepZero(s, hs, between);
    if i > 0 {
      AnnounceKeepsOk(s, hs, between, i - 1);
      StepAt(s, hs, between, i);
      AcceptStepKeepsOk(between[i - 1], hs[i - 1], between[i]);
    }
  }

  /** The receipt puts the transaction into both structures. */
  ghost predicate Admits(s: SleetValue, tx: Tx) {
    ReceiveResult(s, tx) == Ok(true) || ReceiveResult(s, tx) == Err(Graph(ChitReplace))
  }

  lemma AdmitsWhen(s: SleetValue, tx: Tx, t: SleetValue)
    requires ReceiveStep(s, tx, t) && Admits(s, tx)
    ensures Admissible(s, tx) && (OldChit(s, tx.cell.hash) <==> ReceiveResult(s, tx) != Ok(true))
    ensures t == if OldChit(s, tx.cell.hash) then HalfReceived(s, tx) else Received(s, tx)
  {
    hide HasParents, Received, HalfReceived, C.Joinable;
  }

  lemma ReceiveStepKeepsOk(s: SleetValue, tx: Tx, t: SleetValue)
    requires SleetOk(s) && Named(s, tx.cell) && ReceiveStep(s, tx, t)
    ensures SleetOk(t)
  {
    hide SleetOk, Received, HalfReceived, C.Joinable, HasParents, C.HalfInserted, Admissible;
    if Admits(s, tx) {
      AdmitsWhen(s, tx, t);
      if OldChit(s, tx.cell.hash) { HalfReceiveKeepsOk(s, tx); } else { ReceiveKeepsOk(s, tx); }
    } else if t != s {
      var done :| done <= tx.cell.inputs && t == s.(cg := C.HalfInserted(s.cg, tx.cell, done));
      FailedInsertKeepsOk(s, tx.cell, done);
    }
  }

  lemma NextKeepsOk(s: SleetValue, e: Event, t: SleetValue)
    requires SleetOk(s) && Next(s, e, t)
    ensures SleetOk(t)
  {
    match e
    case Receive(tx) => ReceiveStepKeepsOk(s, tx, t);
    case NewOutputs(ids) => AppendKeepsOk(s, ids);
    case Success(h) => QuerySuccessKeepsOk(s, h);
    case Failure(h) => QueryFailureKeepsOk(s, h);
    case Announce(hs) =>
      var between, f :| Announced(s, hs, between, f, t);
      AnnounceKeepsOk(s, hs, between, |hs|);
      PruneKeepsOk(between[|hs|], f);
  }

  lemma AppendKeepsOk(s: SleetValue, ids: set<CellId>)
    requires SleetOk(s)
    ensures SleetOk(s.(cg := C.Performed(s.cg, C.DoAppend(ids))))
  {
    C.AppendKeepsSound(s.cg, ids);
  }

  /** Every reachable state: the DAG's edges and inverse edges agree and have no cycle, the conflict
      index records no false spender or conflict, and DAG, conflict graph and store agree. */
  lemma {:induction false} RunKeepsOk(run: Run)
    requires Valid(run)
    ensures SleetOk(Last(run))
  {
    if run.Init? {
      assert Ranked(map[], map[]);
    } else {
      RunKeepsOk(run.prev);
      NextKeepsOk(Last(run.prev), run.event, run.state);
    }
  }

  // the exact conflict graph

  /** A receipt that overwrites outputs that are being spent, or meets an unknown input. */
  ghost predicate Spoiling(s: SleetValue, e: Event) {
    e.Receive? &&
    ((Admits(s, e.tx) && !C.ProducesUnspent(s.cg, e.tx.cell)) ||
     ReceiveResult(s, e.tx) == Err(Conflict(C.UndefinedCell)))
  }

  ghost predicate Clean(run: Run) {
    run.Then? ==> Clean(run.prev) && !Spoiling(Last(run.prev), run.event)
  }

  lemma AcceptStepKeepsExact(s: SleetValue, h: Hash, t: SleetValue)
    requires SleetOk(s) && C.ConflictOk(s.cg) && AcceptStep(s, h, t)
    ensures C.ConflictOk(t.cg)
  {
    var cell := s.store[h].cell;
    assert cell.hash in s.cg.cells ==> s.cg.cells[cell.hash] == cell;
    hide SleetOk, C.ConflictOk, C.ConflictSound, C.AcceptedCell, C.RemovedCells, C.RejectedBy;
    C.ExactIsSound(s.cg);
    C.AcceptFacts(s.cg, cell);
    if !(exists x :: HaltedClean(s, cell, x, t)) {
      var gone, again :| Shrunk(s, cell, gone, again, t);
      if cell.hash in s.cg.cs { C.RemoveKeepsExact(C.AcceptedCell(s.cg, cell), gone - C.RejectedBy(s.cg, cell)); }
    }
  }

  lemma AnnounceKeepsExact(s: SleetValue, hs: seq<Hash>, between: seq<SleetValue>, i: nat)
    requires SleetOk(s) && C.ConflictOk(s.cg) && AcceptSteps(s, hs, between) && i <= |hs|
    ensures C.ConflictOk(between[i].cg)
  {
    hide *;
    StepZero(s, hs, between);
    if i > 0 {
      AnnounceKeepsOk(s, hs, between, i - 1);
      AnnounceKeepsExact(s, hs, between, i - 1);
      StepAt(s, hs, between, i);
      AcceptStepKeepsExact(between[i - 1], hs[i - 1], between[i]);
    }
  }

  lemma ReceiveStepKeepsExact(s: SleetValue, tx: Tx, t: SleetValue)
    requires C.ConflictOk(s.cg) && ReceiveStep(s, tx, t)
    ensures C.ConflictOk(t.cg) <==> !Spoiling(s, Receive(tx))
  {
    hide C.ConflictOk, C.ProducesUnspent, Inserted, C.InsertedCell, HasParents, Admissible, C.HalfInserted;
    if Admits(s, tx) {
      AdmitsWhen(s, tx, t);
      ReceiveKeepsExact(s, tx);
    } else if !Unchanged(ReceiveResult(s, tx)) {
      var done :| done <= tx.cell.inputs && t == s.(cg := C.HalfInserted(s.cg, tx.cell, done));
      C.HalfInsertExact(s.cg, tx.cell, done);
    }
  }

  /** A step keeps an exact conflict graph exact if and only if it is no such receipt. */
  lemma NextKeepsExact(s: SleetValue, e: Event, t: SleetValue)
    requires SleetOk(s) && C.ConflictOk(s.cg) && Next(s, e, t)
    ensures C.ConflictOk(t.cg) <==> !Spoiling(s, e)
  {
    hide SleetOk, C.ConflictOk, C.ProducesUnspent, C.InsertedCell, ReceiveStep, ReceiveResult;
    match e
    case Receive(tx) => ReceiveStepKeepsExact(s, tx, t);
    case NewOutputs(ids) => C.AppendKeepsExact(s.cg, ids);
    case Success(h) =>
      UpdateKeepsMembers(s.cg.cs, Reach(s.dag.g, h), s.dag.inv, s.dag.chits[h := 1]);
      C.SameMembersKeepsExact(s.cg, t.cg.cs);
    case Failure(h) =>
      UpdateKeepsMembers(s.cg.cs, Reach(s.dag.g, h), s.dag.inv, s.dag.chits);
      C.SameMembersKeepsExact(s.cg, t.cg.cs);
    case Announce(hs) =>
      var between, f :| Announced(s, hs, between, f, t);
      AnnounceKeepsExact(s, hs, between, |hs|);
  }

  /** As long as no receipt does this, the conflict index equals its definition. */
  lemma {:induction false} RunKeepsExact(run: Run)
    requires Valid(run) && Clean(run)
    ensures C.ConflictOk(Last(run).cg)
  {
    if run.Then? {
      RunKeepsOk(run.prev);
      RunKeepsExact(run.prev);
      NextKeepsExact(Last(run.prev), run.event, run.state);
    }
  }

  // parents listed twice

  /** A receipt of a transaction that lists a parent twice. */
  ghost predicate Repeating(s: SleetValue, e: Event) {
    e.Receive? && Admits(s, e.tx) && !Distinct(RemoveAcceptedParents(s.store, e.tx.parents))
  }

  ghost predicate Regular(run: Run) {
    run.Then? ==> Regular(run.prev) && !Repeating(Last(run.prev), run.event)
  }

  lemma RestrictNoRepeats(g: Graph, keep: set<Hash>)
    requires NoRepeats(g)
    ensures NoRepeats(Restrict(g, keep))
  {
    forall v | v in g && v in keep ensures Distinct(Keep(g[v], keep)) { KeepDistinct(g[v], keep); }
  }

  lemma ReceiveNoRepeats(s: SleetValue, tx: Tx)
    requires SleetOk(s) && Admissible(s, tx) && NoRepeats(s.dag.g)
    ensures NoRepeats(HalfReceived(s, tx).dag.g) <==> Distinct(RemoveAcceptedParents(s.store, tx.parents))
  {
    ReceivedDag(s, tx);
    var h, parents, g := tx.cell.hash, RemoveAcceptedParents(s.store, tx.parents), HalfReceived(s, tx).dag.g;
    hide *;
    InsertNoRepeats(s.dag.g, h, parents);
  }

  lemma InsertNoRepeats(g: Graph, h: Hash, parents: seq<Hash>)
    requires NoRepeats(g)
    ensures NoRepeats(g[h := parents]) <==> Distinct(parents)
  {
    hide Distinct;
    assert g[h := parents][h] == parents;
  }

  lemma AnnounceNoRepeats(s: SleetValue, hs: seq<Hash>, between: seq<SleetValue>, i: nat)
    requires NoRepeats(s.dag.g) && AcceptSteps(s, hs, between) && i <= |hs|
    ensures NoRepeats(between[i].dag.g)
  {
    hide *;
    StepZero(s, hs, between);
    if i > 0 {
      AnnounceNoRepeats(s, hs, between, i - 1);
      StepAt(s, hs, between, i);
      var keep := AcceptRestricts(between[i - 1], hs[i - 1], between[i]);
      RestrictNoRepeats(between[i - 1].dag.g, keep);
    }
  }

  lemma AcceptRestricts(s: SleetValue, h: Hash, t: SleetValue) returns (keep: set<Hash>)
    requires AcceptStep(s, h, t)
    ensures t.dag.g == s.dag.g || t.dag.g == Restrict(s.dag.g, keep)
  {
    var cell := s.store[h].cell;
    hide Restrict, RejectedInDag, C.RejectedBy, C.AcceptedCell, C.RemovedCells;
    if x :| HaltedClean(s, cell, x, t) {
      keep := s.dag.g.Keys - C.RejectedBy(s.cg, cell) * s.dag.g.Keys;
    } else {
      var gone, again :| Shrunk(s, cell, gone, again, t);
      keep := s.dag.g.Keys - gone;
    }
  }

  /** A step keeps parents listed once if and only if it is no such receipt. */
  lemma NextKeepsNoRepeats(s: SleetValue, e: Event, t: SleetValue)
    requires SleetOk(s) && NoRepeats(s.dag.g) && Next(s, e, t)
    ensures NoRepeats(t.dag.g) <==> !Repeating(s, e)
  {
    hide SleetOk, NoRepeats, HalfReceived, Restrict;
    if e.Receive? {
      if Admits(s, e.tx) { AdmitsWhen(s, e.tx, t); ReceiveNoRepeats(s, e.tx); }
    } else if e.Announce? {
      var between: seq<SleetValue>, f :| Announced(s, e.hashes, between, f, t);
      AnnounceNoRepeats(s, e.hashes, between, |e.hashes|);
      var u := between[|e.hashes|];
      RestrictNoRepeats(u.dag.g, Survivors(u.dag.g, f));
    }
  }

  lemma {:induction false} RunKeepsNoRepeats(run: Run)
    requires Valid(run) && Regular(run)
    ensures NoRepeats(Last(run).dag.g)
  {
    if run.Then? {
      RunKeepsOk(run.prev);
      RunKeepsNoRepeats(run.prev);
      NextKeepsNoRepeats(Last(run.prev), run.event, run.state);
    }
  }

  // confidence is a vote history

  /** `h` entered the conflict graph in this step. */
  ghost predicate Enters(s: SleetValue, t: SleetValue, h: Hash) {
    h !in s.cg.cs && h in t.cg.cs
  }

  /** The outcomes of the queries on `h` or a descendant it had at the time, since it last entered. */
  ghost function Votes(run: Run, h: Hash): seq<bool> {
    if run.Init? then []
    else if Enters(Last(run.prev), run.state, h) then []
    else Votes(run.prev, h) + VoteOf(Last(run.prev), run.event, h)
  }

  ghost function VoteOf(s: SleetValue, e: Event, h: Hash): seq<bool> {
    if (e.Success? || e.Failure?) && h in Reach(s.dag.g, e.hash) then [e.Success?] else []
  }

  /** The conflict set with which `h` last entered. */
  ghost function Entry(run: Run, h: Hash): C.ConflictSet {
    if run.Init? then C.NewConflictSet(h)
    else if Enters(Last(run.prev), run.state, h) then run.state.cg.cs[h]
    else Entry(run.prev, h)
  }

  /** The number of successes since the last failure. */
  ghost function Streak(votes: seq<bool>): nat {
    if votes == [] || !votes[|votes| - 1] then 0 else 1 + Streak(votes[..|votes| - 1])
  }

  /** The last `n` outcomes are all successes. */
  ghost predicate EndsWith(votes: seq<bool>, n: nat) {
    n <= |votes| && forall i | |votes| - n <= i < |votes| :: votes[i]
  }

  lemma {:induction false} StreakIsSuffix(votes: seq<bool>)
    ensures forall n: nat :: EndsWith(votes, n) <==> n <= Streak(votes)
  {
    if votes != [] {
      var front := votes[..|votes| - 1];
      StreakIsSuffix(front);
      forall n: nat ensures EndsWith(votes, n) <==> n <= Streak(votes) {
        assert n > 0 ==> (EndsWith(votes, n) <==> votes[|votes| - 1] && EndsWith(front, n - 1));
      }
    }
  }

  ghost function AtMostBeta2(n: nat): nat {
    if n < C.BETA2 then n else C.BETA2
  }

  /** What the counter is worth: the streak of successes, plus, until the first failure, the counter
      that was taken over from a conflict on entry. */
  ghost function Worth(entry: C.ConflictSet, votes: seq<bool>): nat {
    Streak(votes) + if false in votes then 0 else entry.cnt
  }

  /** `h` has been announced since it last entered. */
  ghost predicate Settled(run: Run, h: Hash) {
    && run.Then? && !Enters(Last(run.prev), run.state, h)
    && (Settled(run.prev, h) || (run.event.Announce? && h in run.event.hashes))
  }

  /** The last vote in the conflict set of `h` is for `h` itself: it was on entry, or a query has
      succeeded since, or `h` has been announced. */
  ghost predicate Owns(run: Run, h: Hash) {
    Entry(run, h).last == h || true in Votes(run, h) || Settled(run, h)
  }

  /** The votes that count: all but the success that makes the last vote its own. */
  ghost function Counting(run: Run, h: Hash): seq<bool> {
    if run.Init? then []
    else if Enters(Last(run.prev), run.state, h) then []
    else Counting(run.prev, h) + CountOf(VoteOf(Last(run.prev), run.event, h), Owns(run.prev, h))
  }

  ghost function CountOf(vote: seq<bool>, owns: bool): seq<bool> {
    if vote == [true] && !owns then [] else vote
  }

  ghost predicate CounterIs(c: C.ConflictSet, h: Hash, entry: C.ConflictSet, counting: seq<bool>, owns: bool) {
    && c.cnt == AtMostBeta2(Worth(entry, counting)) && (c.last == h <==> owns) && entry.cnt <= C.BETA2
    && (entry.conflicts == {h} ==> entry.cnt == 0 && entry.last == h)
  }

  /** For a transaction that entered without a conflict every vote counts. */
  lemma {:induction false} AllCount(run: Run, h: Hash)
    ensures Entry(run, h).last == h ==> Counting(run, h) == Votes(run, h)
  {
    if run.Then? && !Enters(Last(run.prev), run.state, h) { AllCount(run.prev, h); }
  }

  lemma StreakGrows(votes: seq<bool>, b: bool)
    ensures Streak(votes + [b]) == if b then Streak(votes) + 1 else 0
    ensures false in votes + [b] <==> false in votes || !b
  {
    assert (votes + [b])[..|votes|] == votes;
  }

  lemma CounterCounts(c: C.ConflictSet, h: Hash, entry: C.ConflictSet, counting: seq<bool>, owns: bool, d1: nat,
                      d2: nat)
    requires CounterIs(c, h, entry, counting, owns)
    ensures CounterIs(C.UpdatedSet(c, h, d1, d2), h, entry, counting + CountOf([true], owns), true)
    ensures CounterIs(c.(cnt := 0), h, entry, counting + CountOf([false], owns), owns)
  {
    StreakGrows(counting, true);
    StreakGrows(counting, false);
    assert counting + [] == counting;
    hide Streak;
  }

  /** Entering without a conflict starts from nothing; entering with one takes over a counter. */
  lemma EntryCounter(s: SleetValue, tx: Tx)
    requires SleetOk(s) && Admissible(s, tx)
    requires forall k :: k in s.cg.cs ==> s.cg.cs[k].cnt <= C.BETA2
    ensures tx.cell.hash in HalfReceived(s, tx).cg.cs
    ensures var c := HalfReceived(s, tx).cg.cs[tx.cell.hash]; CounterIs(c, tx.cell.hash, c, [], c.last == tx.cell.hash)
  {
    NewIsAbsent(s, tx.cell.hash);
    ReceivedParts(s, tx);
    assert C.SpendersOf(s.cg.vertices, tx.cell.inputs) <= s.cg.cs.Keys;
    hide SleetOk, Admissible, HalfReceived, C.SpendersOf, C.InsertedCell;
    OwnCounter(s.cg, tx.cell);
  }

  lemma OwnCounter(cg: C.ConflictState, cell: Cell)
    requires var conflicts := C.SpendersOf(cg.vertices, cell.inputs); cell.hash !in conflicts && conflicts <= cg.cs.Keys
    requires forall k :: k in cg.cs ==> cg.cs[k].cnt <= C.BETA2
    ensures cell.hash in C.InsertedCell(cg, cell).cs
    ensures var c := C.InsertedCell(cg, cell).cs[cell.hash]; CounterIs(c, cell.hash, c, [], c.last == cell.hash)
  {
    hide C.SpendersOf, Produced;
    var conflicts := C.SpendersOf(cg.vertices, cell.inputs);
    if conflicts + {cell.hash} == {cell.hash} {
      assert forall k :: k in conflicts ==> k in conflicts + {cell.hash};
      assert conflicts == {};
    }
  }

  /** Conflict sets that stay keep their counter, and but for the announced ones preference and last vote. */
  ghost predicate CountersKept(cs: map<Hash, C.ConflictSet>, named: set<Hash>, cs': map<Hash, C.ConflictSet>) {
    forall h :: h in cs' ==>
      && h in cs && cs'[h].cnt == cs[h].cnt && cs'[h].last == (if h in named then h else cs[h].last)
      && cs'[h].pref == if h in named then h else cs[h].pref
  }

  lemma CountersSame(cs: map<Hash, C.ConflictSet>)
    ensures CountersKept(cs, {}, cs)
  {
  }

  lemma CountersStay(a: map<Hash, C.ConflictSet>, named: set<Hash>, b: map<Hash, C.ConflictSet>, h: Hash,
                     c: map<Hash, C.ConflictSet>)
    requires CountersKept(a, named, b) && CountersKept(b, {h}, c)
    ensures CountersKept(a, named + {h}, c)
  {
  }

  lemma ShrinkKeepsCounters(s: SleetValue, cell: Cell, gone: set<Hash>, again: set<Hash>, t: SleetValue)
    requires Shrunk(s, cell, gone, again, t)
    ensures CountersKept(s.cg.cs, {cell.hash}, t.cg.cs)
  {}

  lemma AcceptStepKeepsCounters(s: SleetValue, h: Hash, t: SleetValue)
    requires AcceptStep(s, h, t) && SleetOk(s)
    ensures CountersKept(s.cg.cs, {h}, t.cg.cs)
  {
    var cell := s.store[h].cell;
    KnownHash(s, h);
    hide SleetOk, CountersKept, Shrunk, Halted;
    if x :| HaltedClean(s, cell, x, t) {
      HaltKeepsCounters(s, cell, x, t);
    } else {
      var gone, again :| Shrunk(s, cell, gone, again, t);
      ShrinkKeepsCounters(s, cell, gone, again, t);
    }
  }

  lemma KnownHash(s: SleetValue, h: Hash)
    requires SleetOk(s) && h in s.store
    ensures s.store[h].cell.hash == h
  {
    hide DagOk, C.ConflictSound;
  }

  lemma HaltKeepsCounters(s: SleetValue, cell: Cell, x: Hash, t: SleetValue)
    requires HaltedClean(s, cell, x, t)
    ensures CountersKept(s.cg.cs, {cell.hash}, t.cg.cs)
  {
    hide Produced, C.RemovedVertices, Keep, Restrict;
  }

  lemma AnnounceKeepsCounters(s: SleetValue, hs: seq<Hash>, between: seq<SleetValue>, i: nat)
    requires AcceptSteps(s, hs, between) && i <= |hs| && SleetOk(s)
    ensures CountersKept(s.cg.cs, Elems(hs[..i]), between[i].cg.cs)
  {
    hide *;
    StepZero(s, hs, between);
    if i == 0 {
      CountersSame(s.cg.cs);
      NoneNamed(hs);
    } else {
      AnnounceKeepsCounters(s, hs, between, i - 1);
      AnnounceKeepsOk(s, hs, between, i - 1);
      StepAt(s, hs, between, i);
      AcceptStepKeepsCounters(between[i - 1], hs[i - 1], between[i]);
      CountersStay(s.cg.cs, Elems(hs[..i - 1]), between[i - 1].cg.cs, hs[i - 1], between[i].cg.cs);
      OneMoreNamed(hs, i);
    }
  }

  lemma NoneNamed(hs: seq<Hash>)
    ensures Elems(hs[..0]) == {}
  {
  }

  lemma OneMoreNamed(hs: seq<Hash>, i: nat)
    requires 0 < i <= |hs|
    ensures Elems(hs[..i]) == Elems(hs[..i - 1]) + {hs[i - 1]}
  {
    assert hs[..i] == hs[..i - 1] + [hs[i - 1]];
  }

  lemma SameCounter(c: C.ConflictSet, c': C.ConflictSet, h: Hash, entry: C.ConflictSet, counting: seq<bool>, owns: bool,
                    named: bool)
    requires CounterIs(c, h, entry, counting, owns) && c'.cnt == c.cnt && c'.last == if named then h else c.last
    ensures CounterIs(c', h, entry, counting, owns || named)
  {
  }

  /** A step that is no query leaves the counter of a set that stays. */
  lemma OtherStepKeepsCounter(s: SleetValue, e: Event, t: SleetValue, h: Hash)
    requires SleetOk(s) && Next(s, e, t) && h in s.cg.cs && h in t.cg.cs && !e.Success? && !e.Failure?
    ensures t.cg.cs[h].cnt == s.cg.cs[h].cnt
    ensures t.cg.cs[h].last == if e.Announce? && h in e.hashes then h else s.cg.cs[h].last
    ensures t.cg.cs[h].pref == if e.Announce? && h in e.hashes then h else s.cg.cs[h].pref
  {
    hide SleetOk, ReceiveStep, Pruned;
    if e.Receive? {
      ReceiveKeepsCounter(s, e.tx, t, h);
    } else if e.Announce? {
      var between, f :| Announced(s, e.hashes, between, f, t);
      PruneKeepsSets(between[|e.hashes|], f);
      AnnounceKeepsCounters(s, e.hashes, between, |e.hashes|);
      assert e.hashes[..|e.hashes|] == e.hashes;
    }
  }

  lemma PruneKeepsSets(s: SleetValue, f: set<Hash>)
    ensures Pruned(s, f).cg == s.cg
  {
  }

  lemma ReceiveKeepsCounter(s: SleetValue, tx: Tx, t: SleetValue, h: Hash)
    requires SleetOk(s) && h in s.cg.cs && ReceiveStep(s, tx, t)
    ensures h in t.cg.cs && t.cg.cs[h].cnt == s.cg.cs[h].cnt && t.cg.cs[h].last == s.cg.cs[h].last
    ensures t.cg.cs[h].pref == s.cg.cs[h].pref
  {
    if Admits(s, tx) {
      AdmitsWhen(s, tx, t);
      NewIsAbsent(s, tx.cell.hash);
      ReceivedParts(s, tx);
      assert t.cg == C.InsertedCell(s.cg, tx.cell);
      hide *;
      JoinKeepsCounter(s.cg, tx.cell, h);
    }
  }

  lemma JoinKeepsCounter(cg: C.ConflictState, cell: Cell, h: Hash)
    requires h in cg.cs && h != cell.hash
    ensures var cs := C.InsertedCell(cg, cell).cs;
      h in cs && cs[h].cnt == cg.cs[h].cnt && cs[h].last == cg.cs[h].last && cs[h].pref == cg.cs[h].pref
  {
    hide Produced, C.SpendersOf, C.OwnSet;
  }

  lemma QueryMovesCounter(s: SleetValue, e: Event, t: SleetValue, h: Hash)
    requires SleetOk(s) && Next(s, e, t) && h in s.cg.cs && h in t.cg.cs && (e.Success? || e.Failure?)
    ensures var c, chits := s.cg.cs[h], s.dag.chits[e.hash := 1];
      t.cg.cs[h] ==
        if h !in Reach(s.dag.g, e.hash) then c
        else if e.Success? then
          C.UpdatedSet(c, h, ConvictionOf(s.dag.inv, chits, h), ConvictionOf(s.dag.inv, chits, c.pref))
        else c.(cnt := 0)
  {
    hide SleetOk, C.UpdatedSet, ConvictionOf;
  }

  /** One step, seen from one conflict set that was there before. */
  lemma NextCounter(s: SleetValue, e: Event, t: SleetValue, h: Hash, entry: C.ConflictSet, counting: seq<bool>,
                    owns: bool)
    requires SleetOk(s) && Next(s, e, t) && h in s.cg.cs && h in t.cg.cs
    requires CounterIs(s.cg.cs[h], h, entry, counting, owns)
    ensures var vote := VoteOf(s, e, h);
      CounterIs(t.cg.cs[h], h, entry, counting + CountOf(vote, owns),
                owns || vote == [true] || (e.Announce? && h in e.hashes))
  {
    hide SleetOk, Next, CounterIs, ConvictionOf, C.UpdatedSet;
    var c := s.cg.cs[h];
    assert counting + [] == counting;
    if e.Success? || e.Failure? {
      var chits := s.dag.chits[e.hash := 1];
      QueryMovesCounter(s, e, t, h);
      CounterCounts(c, h, entry, counting, owns, ConvictionOf(s.dag.inv, chits, h),
                    ConvictionOf(s.dag.inv, chits, c.pref));
    } else {
      OtherStepKeepsCounter(s, e, t, h);
      SameCounter(c, t.cg.cs[h], h, entry, counting, owns, e.Announce? && h in e.hashes);
    }
  }

  lemma ReceiveEntry(s: SleetValue, tx: Tx, t: SleetValue, h: Hash)
    requires SleetOk(s) && ReceiveStep(s, tx, t) && Enters(s, t, h)
    requires forall k :: k in s.cg.cs ==> s.cg.cs[k].cnt <= C.BETA2
    ensures CounterIs(t.cg.cs[h], h, t.cg.cs[h], [], t.cg.cs[h].last == h)
  {
    assert Admits(s, tx);
    AdmitsWhen(s, tx, t);
    C.InsertedShape(s.cg, tx.cell);
    ReceivedParts(s, tx);
    hide ReceiveStep, CounterIs, Received, HalfReceived, Admissible, SleetOk, C.InsertedCell;
    EntryCounter(s, tx);
  }

  lemma NextEntry(s: SleetValue, e: Event, t: SleetValue, h: Hash)
    requires SleetOk(s) && Next(s, e, t) && Enters(s, t, h)
    requires forall k :: k in s.cg.cs ==> s.cg.cs[k].cnt <= C.BETA2
    ensures CounterIs(t.cg.cs[h], h, t.cg.cs[h], [], t.cg.cs[h].last == h)
  {
    hide ReceiveStep, CounterIs;
    match e
    case Receive(tx) => ReceiveEntry(s, tx, t, h);
    case NewOutputs(ids) => assert false;
    case Success(q) => assert false;
    case Failure(q) => assert false;
    case Announce(hs) =>
      var between, f :| Announced(s, hs, between, f, t);
      AnnounceKeepsCounters(s, hs, between, |hs|);
      assert false;
  }

  /** Over every run: the counter is exactly the number of counting successes since the last failure,
      plus, until the first failure, the counter taken over on entry, capped at BETA2. For a transaction
      that entered without a conflict every vote counts and nothing was taken over. */
  lemma {:induction false} ConfidenceIsStreak(run: Run, h: Hash)
    requires Valid(run) && h in Last(run).cg.cs
    ensures CounterIs(Last(run).cg.cs[h], h, Entry(run, h), Counting(run, h), Owns(run, h))
    ensures Entry(run, h).conflicts == {h} ==> Last(run).cg.cs[h].cnt == AtMostBeta2(Streak(Votes(run, h)))
  {
    var s, t := Last(run.prev), run.state;
    RunKeepsOk(run.prev);
    hide Worth, Streak, AtMostBeta2;
    if Enters(s, t, h) {
      forall k | k in s.cg.cs ensures s.cg.cs[k].cnt <= C.BETA2 {
        ConfidenceIsStreak(run.prev, k);
        CapBound(s.cg.cs[k], k, Entry(run.prev, k), Counting(run.prev, k), Owns(run.prev, k));
      }
      NextEntry(s, run.event, t, h);
    } else {
      ConfidenceIsStreak(run.prev, h);
      NextCounter(s, run.event, t, h, Entry(run.prev, h), Counting(run.prev, h), Owns(run.prev, h));
      OwnsNext(run, h);
    }
    AllCount(run, h);
    NothingTaken(Last(run).cg.cs[h], h, Entry(run, h), Counting(run, h), Owns(run, h));
  }

  lemma CapBound(c: C.ConflictSet, h: Hash, entry: C.ConflictSet, counting: seq<bool>, owns: bool)
    requires CounterIs(c, h, entry, counting, owns)
    ensures c.cnt <= C.BETA2
  {
    hide Worth;
  }

  lemma NothingTaken(c: C.ConflictSet, h: Hash, entry: C.ConflictSet, counting: seq<bool>, owns: bool)
    requires CounterIs(c, h, entry, counting, owns)
    ensures entry.conflicts == {h} ==> entry.last == h && c.cnt == AtMostBeta2(Streak(counting))
  {
    hide Streak;
  }

  lemma OwnsNext(run: Run, h: Hash)
    requires run.Then? && !Enters(Last(run.prev), run.state, h)
    ensures var vote := VoteOf(Last(run.prev), run.event, h);
      Owns(run, h) <==> Owns(run.prev, h) || vote == [true] || (run.event.Announce? && h in run.event.hashes)
  {
    hide Enters, Reach;
    var vote := VoteOf(Last(run.prev), run.event, h);
    assert true in Votes(run.prev, h) + vote <==> true in Votes(run.prev, h) || vote == [true];
  }

  /** A transaction that entered without a conflict is newly accepted only when the last BETA1 queries
      on it or its descendants all succeeded; the last BETA2 ones if it has a conflict by then. */
  lemma AcceptedAfterStreak(run: Run, q: Hash, h: Hash)
    requires Valid(run) && run.Then? && run.event == Success(q)
    requires h in NewlyFinal(Counted(Last(run.prev), q), q) && Entry(run, h).conflicts == {h}
    ensures h in run.state.cg.cs && EndsWith(Votes(run, h), C.BETA1)
    ensures run.state.cg.cs[h].conflicts != {h} ==> EndsWith(Votes(run, h), C.BETA2)
  {
    hide SleetOk, NewlyFinal, Counted, CounterIs, Entry, Votes, AtMostBeta2, Streak;
    RunKeepsOk(run.prev);
    var c := Counted(Last(run.prev), q);
    CountKeepsOk(Last(run.prev), q);
    FinalIsConfident(c, q, h);
    assert run.state.cg == c.cg;
    ConfidenceIsStreak(run, h);
    AtMostItself(Streak(Votes(run, h)));
    StreakIsSuffix(Votes(run, h));
  }

  lemma AtMostItself(n: nat)
    ensures AtMostBeta2(n) <= n
  {
  }

  lemma FinalIsConfident(c: SleetValue, q: Hash, h: Hash)
    requires SleetOk(c) && h in NewlyFinal(c, q)
    ensures h in c.cg.cs && c.cg.cs[h].cnt >= C.BETA1 && (c.cg.cs[h].conflicts != {h} ==> c.cg.cs[h].cnt >= C.BETA2)
  {
    assert h in c.dag.g;
    ReachSelf(c.dag.g, h);
    assert h in Acc(c.dag.g, c.cg.cs, c.store);
    if |c.cg.cs[h].conflicts| == 1 {
      C.OnlyMember(c.cg.cs[h].conflicts, h);
    }
  }

  /** The premises are met: an output is announced and a transaction that spends it arrives. */
  lemma FirstTransaction(id: CellId, h: Hash) returns (run: Run)
    requires id.cellHash != h
    ensures Valid(run) && h in Last(run).cg.cs && Entry(run, h).conflicts == {h} && Votes(run, h) == []
  {
    var tx := Tx([], Cell(h, {id}, []), Pending);
    var s := Empty.(cg := C.Performed(Empty.cg, C.DoAppend({id})));
    run := Then(Then(Init, NewOutputs({id}), s), Receive(tx), Received(s, tx));
    assert ReceiveResult(s, tx) == Ok(true);
    assert C.SpendersOf(s.cg.vertices, {id}) == {};
    assert Received(s, tx).cg.cs[h].conflicts == {h};
  }
}
