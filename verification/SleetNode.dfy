/** The `Sleet` actor: its fields, and its operations proved against the steps of module `Sleets`. */
module SleetNode {
  import opened Basics
  import opened Cells
  import opened Graphs
  import opened Dags
  import opened Frontiers
  import opened Sleets
  import opened Sweeps
  import opened SweepLevels
  import opened SleetRuns
  import C = ConflictGraphs

  /** Memoised answers of `is_accepted` agree with the vertices `acc` accepted by themselves. */
  ghost predicate MemoOk(g: Graph, acc: set<Hash>, memo: map<Hash, bool>) {
    forall h :: h in memo ==> (memo[h] <==> Reach(g, h) <= acc)
  }

  class Sleet {
    const dag: Dag
    const conflictGraph: C.ConflictGraph
    var knownTxs: Store
    var acceptedFrontier: set<Hash>

    ghost function Value(): SleetValue
      reads this, dag, conflictGraph
    {
      SleetValue(dag.Value(), conflictGraph.Value(), knownTxs)
    }

    ghost function AccTxs(): set<Hash>
      reads this, dag, conflictGraph
    {
      Acc(dag.g, conflictGraph.cs, knownTxs)
    }

    constructor ()
      ensures fresh(dag) && fresh(conflictGraph) && SleetOk(Value()) && Value() == Empty
    {
      dag := new Dag();
      conflictGraph := new C.ConflictGraph({});
      knownTxs, acceptedFrontier := map[], {};
      new;
      assert Ranked(map[], map[]);
    }

    // acceptance

    method IsAcceptedTx(h: Hash) returns (b: bool)
      requires h in conflictGraph.cs || HasStatus(knownTxs, h, Accepted)
            || HasStatus(knownTxs, h, Removed) || HasStatus(knownTxs, h, Rejected)
      ensures b == AcceptedTx(conflictGraph.cs, knownTxs, h)
      ensures h in knownTxs && knownTxs[h].status == Accepted ==> b
      ensures h in knownTxs && (knownTxs[h].status == Rejected || knownTxs[h].status == Removed) ==> !b
      ensures h !in knownTxs || knownTxs[h].status == Pending || knownTxs[h].status == Queried ==>
        var c := conflictGraph.cs[h];
        b <==> c.cnt >= C.BETA2 || (c.cnt >= C.BETA1 && |c.conflicts| == 1)
    {
      if HasStatus(knownTxs, h, Accepted) { return true; }
      if HasStatus(knownTxs, h, Removed) || HasStatus(knownTxs, h, Rejected) { return false; }
      var c := conflictGraph.cs[h];
      if |c.conflicts| == 1 && c.cnt >= C.BETA1 {
        return true;
      } else if c.cnt >= C.BETA2 {
        return true;
      } else {
        return false;
      }
    }

    /** Whether the whole ancestry of `h` is accepted. */
    method IsAccepted(h: Hash) returns (b: bool)
      requires Closed(dag.g) && dag.g.Keys <= conflictGraph.cs.Keys
      ensures b <==> Reach(dag.g, h) <= AccTxs()
    {
      var order := dag.Dfs(h);
      for i := 0 to |order|
        invariant forall j :: 0 <= j < i ==> order[j] in AccTxs()
      {
        assert order[i] in Elems(order);
        var accepted := IsAcceptedTx(order[i]);
        if !accepted { return false; }
      }
      forall v | v in Reach(dag.g, h) ensures v in AccTxs() { assert v in Elems(order); }
      return true;
    }

    method IsAcceptedMemo(h: Hash, memo: map<Hash, bool>) returns (b: bool, memo': map<Hash, bool>)
      requires Closed(dag.g) && dag.g.Keys <= conflictGraph.cs.Keys && MemoOk(dag.g, AccTxs(), memo)
      ensures MemoOk(dag.g, AccTxs(), memo') && (b <==> Reach(dag.g, h) <= AccTxs())
    {
      if h in memo { return memo[h], memo; }
      b := IsAccepted(h);
      memo' := memo[h := b];
    }

    // frontier

    /** Whatever order leaves and ancestors are visited in, the frontier covers exactly the final
        transactions. */
    method ComputeAcceptedFrontier()
      requires DagOk(dag.g, dag.inv) && dag.g.Keys <= conflictGraph.cs.Keys
      modifies this`acceptedFrontier
      ensures IsFrontier(dag.g, AccTxs(), acceptedFrontier)
    {
      InverseSym(dag.g, dag.inv);
      var frontier: set<Hash> := {};
      if dag.g == map[] { acceptedFrontier := {}; }
      var above: set<Hash> := {};
      var leaves := dag.Leaves();
      var memo := map[];
      assert ReachAll(dag.g, {}) == {};
      for i := 0 to |leaves|
        invariant Searched(dag.g, AccTxs(), frontier, above) && MemoOk(dag.g, AccTxs(), memo)
        invariant forall j, v | 0 <= j < i && Reaches(dag.g, leaves[j], v) ::
          v in Final(dag.g, AccTxs()) ==> v in above
      {
        frontier, above, memo := SearchFrom(leaves[i], frontier, above, memo);
      }
      forall leaf, v | leaf in dag.inv && dag.inv[leaf] == [] && Reaches(dag.g, leaf, v) && v in Final(dag.g, AccTxs())
        ensures v in ReachAll(dag.g, frontier)
      {
        assert leaf in Elems(leaves);
        var j :| 0 <= j < |leaves| && leaves[j] == leaf;
      }
      CoveringIsFrontier(dag.g, dag.inv, AccTxs(), frontier);
      acceptedFrontier := frontier;
    }

    /** The search from one leaf. */
    method SearchFrom(leaf: Hash, f: set<Hash>, a: set<Hash>, m: map<Hash, bool>)
      returns (frontier: set<Hash>, above: set<Hash>, memo: map<Hash, bool>)
      requires Closed(dag.g) && dag.g.Keys <= conflictGraph.cs.Keys
      requires Searched(dag.g, AccTxs(), f, a) && MemoOk(dag.g, AccTxs(), m)
      ensures Searched(dag.g, AccTxs(), frontier, above) && MemoOk(dag.g, AccTxs(), memo) && a <= above
      ensures forall v :: Reaches(dag.g, leaf, v) && v in Final(dag.g, AccTxs()) ==> v in above
    {
      frontier, above, memo := f, a, m;
      var order := dag.Dfs(leaf);
      for i := 0 to |order|
        invariant Searched(dag.g, AccTxs(), frontier, above) && MemoOk(dag.g, AccTxs(), memo) && a <= above
        invariant forall j :: 0 <= j < i && order[j] in Final(dag.g, AccTxs()) ==> order[j] in above
      {
        assert order[i] in Elems(order);
        var accepted := false;
        if order[i] !in above { accepted, memo := IsAcceptedMemo(order[i], memo); }
        if accepted {
          var ancestry := dag.Dfs(order[i]);
          SearchedMore(dag.g, AccTxs(), frontier, above, order[i]);
          frontier := frontier + {order[i]};
          above := above + set x | x in ancestry;
        }
      }
      forall v | Reaches(dag.g, leaf, v) && v in Final(dag.g, AccTxs()) ensures v in above {
        assert v in Elems(order);
      }
    }

    /** Takes everything strictly above the accepted frontier out of the DAG. */
    method PruneAtAcceptedFrontier()
      requires SleetOk(Value())
      modifies this`acceptedFrontier, dag
      ensures IsFrontier(old(dag.g), old(AccTxs()), acceptedFrontier)
      ensures Value() == Pruned(old(Value()), acceptedFrontier)
    {
      ComputeAcceptedFrontier();
      InverseSym(dag.g, dag.inv);
      hide C.ConflictSound;
      var toBePruned := AboveFrontier();
      RemoveVertices(toBePruned - acceptedFrontier);
    }

    method RemoveVertices(prune: set<Hash>)
      requires DagOk(dag.g, dag.inv)
      modifies dag
      ensures dag.Value() == RestrictDag(old(dag.Value()), old(dag.g.Keys) - prune)
    {
      ghost var d := dag.Value();
      RestrictAllDag(d);
      var todo := prune;
      assert d.g.Keys - (prune - todo) == d.g.Keys;
      DagParts();
      hide *;
      while todo != {}
        invariant DagOk(dag.g, dag.inv) && todo <= prune && dag.Value() == RestrictDag(d, d.g.Keys - (prune - todo))
        decreases todo
      {
        var a :| a in todo;
        DagParts();
        SweptDag(d, prune - todo, a);
        var _ := dag.RemoveVx(a);
        DagParts();
        assert prune - todo + {a} == prune - (todo - {a});
        todo := todo - {a};
      }
      assert prune - todo == prune;
    }

    lemma DagParts()
      ensures dag.Value() == DagValue(dag.g, dag.inv, dag.chits)
    {}

    /** The union of the ancestries of the frontier. */
    method AboveFrontier() returns (above: set<Hash>)
      requires Closed(dag.g)
      ensures above == ReachAll(dag.g, acceptedFrontier)
    {
      above := {};
      var todo := acceptedFrontier;
      ghost var done: set<Hash> := {};
      assert ReachAll(dag.g, {}) == {};
      while todo != {}
        invariant acceptedFrontier == todo + done && above == ReachAll(dag.g, done)
        decreases todo
      {
        var f :| f in todo;
        var order := dag.Dfs(f);
        ReachAllSnoc(dag.g, done, f);
        above := above + set x | x in order;
        todo := todo - {f};
        done := done + {f};
      }
    }

    /** Marks as accepted, and returns, exactly the ancestors-or-self of `h` that are final and not
        marked yet. */
    method ComputeAcceptedTxs(h: Hash) returns (newTxs: seq<Hash>)
      requires SleetOk(Value())
      modifies this`knownTxs
      ensures Value() == Checked(old(Value()), h)
      ensures Distinct(newTxs) && Elems(newTxs) == NewlyFinal(old(Value()), h)
      ensures forall v :: v in newTxs <==>
        && v in Reach(dag.g, h) && Reach(dag.g, v) <= old(AccTxs())
        && v in old(knownTxs) && old(knownTxs)[v].status != Accepted
    {
      newTxs := [];
      var memo := map[];
      ghost var s := Value();
      SleetFacts(s);
      ReachInside(dag.g, h);
      CheckStart(s);
      ValueParts();
      hide *;
      var order := dag.Dfs(h);
      assert order[..0] == [];
      for i := 0 to |order|
        invariant Checking(s, order[..i], newTxs, knownTxs)
        invariant MemoOk(s.dag.g, Acc(s.dag.g, s.cg.cs, s.store), memo)
      {
        NextOf(order, i, dag.g.Keys);
        newTxs, memo := CheckOne(s, order[..i], order[i], newTxs, memo);
      }
      assert order[..|order|] == order;
      CheckDone(s, h, order, newTxs, knownTxs);
      FoundAre(s, h, newTxs);
      ValueParts();
      AccParts(s);
    }

    lemma AccParts(s: SleetValue)
      requires s.dag.g == dag.g && s.cg.cs == conflictGraph.cs
      ensures s.store == knownTxs ==> AccTxs() == Acc(s.dag.g, s.cg.cs, s.store)
    {
    }

    static lemma FoundAre(s: SleetValue, h: Hash, newTxs: seq<Hash>)
      requires Closed(s.dag.g) && s.dag.g.Keys <= s.store.Keys && Elems(newTxs) == NewlyFinal(s, h)
      ensures forall v :: v in newTxs <==>
        && v in Reach(s.dag.g, h) && Reach(s.dag.g, v) <= Acc(s.dag.g, s.cg.cs, s.store)
        && v in s.store && s.store[v].status != Accepted
    {
      ReachInside(s.dag.g, h);
      hide Reach, Acc;
      assert forall v :: v in newTxs <==> v in Elems(newTxs);
    }

    method CheckOne(ghost s: SleetValue, ghost visited: seq<Hash>, v: Hash, newTxs: seq<Hash>, memo: map<Hash, bool>)
      returns (newTxs': seq<Hash>, memo': map<Hash, bool>)
      requires dag.g == s.dag.g && conflictGraph.cs == s.cg.cs
      requires Closed(dag.g) && dag.g.Keys <= conflictGraph.cs.Keys && dag.g.Keys <= s.store.Keys
      requires Checking(s, visited, newTxs, knownTxs) && v in dag.g && v !in visited
      requires MemoOk(s.dag.g, Acc(s.dag.g, s.cg.cs, s.store), memo)
      modifies this`knownTxs
      ensures Checking(s, visited + [v], newTxs', knownTxs)
      ensures MemoOk(s.dag.g, Acc(s.dag.g, s.cg.cs, s.store), memo')
    {
      CheckingKeepsAcc(s, visited, newTxs, knownTxs);
      CheckStep(s, visited, newTxs, knownTxs, v);
      hide Checking, MemoOk, Acc;
      newTxs', memo' := newTxs, memo;
      var final := false;
      if !HasStatus(knownTxs, v, Accepted) { final, memo' := IsAcceptedMemo(v, memo); }
      if final {
        newTxs' := newTxs + [v];
        knownTxs := SetStatus(knownTxs, v, Accepted);
      }
    }

    // votes

    /** Every ancestor-or-self of `root` counts the vote once, whatever the order. */
    method UpdateAncestralPreference(root: Hash)
      requires DagOk(dag.g, dag.inv) && dag.g.Keys <= conflictGraph.cs.Keys && dag.g.Keys <= dag.chits.Keys
      requires forall a :: a in Reach(dag.g, root) && a in conflictGraph.cs ==>
        && conflictGraph.cs[a].pref in dag.inv
        && ConvictionOf(dag.inv, dag.chits, a) <= 255
        && ConvictionOf(dag.inv, dag.chits, conflictGraph.cs[a].pref) <= 255
      modifies conflictGraph`cs
      ensures conflictGraph.cs == UpdatedSets(old(conflictGraph.cs), Reach(dag.g, root), dag.inv, dag.chits)
    {
      InverseSym(dag.g, dag.inv);
      var order := dag.Dfs(root);
      ghost var cs0 := conflictGraph.cs;
      assert Elems(order[..0]) == {} && UpdatedSets(cs0, {}, dag.inv, dag.chits) == cs0;
      ReachInside(dag.g, root);
      hide *;
      for i := 0 to |order|
        invariant conflictGraph.cs == UpdatedSets(cs0, Elems(order[..i]), dag.inv, dag.chits)
      {
        NextElems(order, i);
        UpdatePreference(cs0, Elems(order[..i]), order[i]);
      }
      assert order[..|order|] == order;
    }

    method UpdatePreference(ghost cs: map<Hash, C.ConflictSet>, ghost done: set<Hash>, a: Hash)
      requires Closed(dag.inv) && a in dag.inv && dag.inv.Keys <= dag.chits.Keys
      requires a in cs && a !in done && conflictGraph.cs == UpdatedSets(cs, done, dag.inv, dag.chits)
      requires cs[a].pref in dag.inv && ConvictionOf(dag.inv, dag.chits, a) <= 255
      requires ConvictionOf(dag.inv, dag.chits, cs[a].pref) <= 255
      modifies conflictGraph`cs
      ensures conflictGraph.cs == UpdatedSets(cs, done + {a}, dag.inv, dag.chits)
    {
      hide ConvictionOf, C.UpdatedSet, Closed;
      UpdateOne(cs, done, dag.inv, dag.chits, a);
      var pref := conflictGraph.cs[a].pref;
      var d1 := FittingConviction(a);
      var d2 := FittingConviction(pref);
      var _ := conflictGraph.UpdateConflictSet(a, d1, d2);
    }

    method FittingConviction(v: Hash) returns (d: u8)
      requires Closed(dag.inv) && v in dag.inv && dag.inv.Keys <= dag.chits.Keys
      requires ConvictionOf(dag.inv, dag.chits, v) <= 255
      ensures d == ConvictionOf(dag.inv, dag.chits, v)
    {
      var r := dag.Conviction(v);
      d := r.value;
    }

    method ResetAncestorConfidence(root: Hash)
      requires Closed(dag.g) && dag.g.Keys <= conflictGraph.cs.Keys
      modifies conflictGraph`cs
      ensures conflictGraph.cs == ResetSets(old(conflictGraph.cs), Reach(dag.g, root))
    {
      var order := dag.Dfs(root);
      ghost var cs0 := conflictGraph.cs;
      for i := 0 to |order|
        invariant conflictGraph.cs == ResetSets(cs0, Elems(order[..i]))
      {
        assert order[i] in Elems(order);
        assert order[..i + 1] == order[..i] + [order[i]];
        var _ := conflictGraph.ResetCount(order[i]);
      }
      assert order[..|order|] == order;
    }

    /** The outcome of a query. The transactions returned are announced by a later `NewAccepted`. */
    method QueryComplete(h: Hash, success: bool) returns (newAccepted: seq<Hash>)
      requires SleetOk(Value()) && h in knownTxs
      requires success ==> (h in dag.chits ==> dag.chits[h] != 1) && Countable(Value(), h)
      modifies this`knownTxs, dag, conflictGraph
      ensures SleetOk(Value())
      ensures Value() == if success then QuerySucceeded(old(Value()), h) else QueryFailed(old(Value()), h)
      ensures Next(old(Value()), if success then Success(h) else Failure(h), Value())
      ensures success ==> Elems(newAccepted) == NewlyFinal(Counted(old(Value()), h), h)
      ensures !success ==> newAccepted == []
    {
      ghost var s := Value();
      SuccessFacts(s, h);
      FailureFacts(s, h);
      newAccepted := [];
      ValueParts();
      hide *;
      if success {
        CountVote(h);
        newAccepted := ComputeAcceptedTxs(h);
      } else {
        ResetAncestorConfidence(h);
      }
      ValueParts();
      knownTxs := SetStatus(knownTxs, h, Queried);
      ValueParts();
    }

    /** The chit, then the ancestry. */
    method CountVote(h: Hash)
      requires SleetOk(Value()) && h in knownTxs && Countable(Value(), h) && (h in dag.chits ==> dag.chits[h] != 1)
      modifies dag, conflictGraph
      ensures SleetOk(Value()) && Value() == Counted(old(Value()), h)
    {
      SleetFacts(Value());
      CountKeepsOk(Value(), h);
      hide SleetOk, DagOk, UpdatedSets, ConvictionOf;
      var _ := dag.SetChit(h, 1);
      UpdateAncestralPreference(h);
    }

    method QueryIncomplete(h: Hash)
      requires SleetOk(Value()) && h in knownTxs
      modifies this`knownTxs, conflictGraph
      ensures SleetOk(Value()) && Value() == QueryFailed(old(Value()), h)
      ensures Next(old(Value()), Failure(h), Value())
    {
      FailureFacts(Value(), h);
      hide SleetOk, QueryFailed, Next, ResetSets;
      ResetAncestorConfidence(h);
      knownTxs := SetStatus(knownTxs, h, Queried);
    }

    // receiving

    method HasAllParents(tx: Tx) returns (b: bool)
      ensures b <==> HasParents(dag.g, knownTxs, tx.parents)
      ensures b <==> forall p | p in tx.parents :: p in dag.g || (p in knownTxs && knownTxs[p].status == Accepted)
    {
      var r := dag.HasVertices(tx.parents);
      if r.Ok? { return true; }
      var missing := r.error;
      for i := 0 to |missing|
        invariant forall j :: 0 <= j < i ==> HasStatus(knownTxs, missing[j], Accepted)
      {
        if !HasStatus(knownTxs, missing[i], Accepted) {
          assert missing[i] in missing;
          return false;
        }
      }
      return true;
    }

    method OnReceiveTx(tx: Tx) returns (r: Result<bool, SleetError>)
      requires SleetOk(Value()) && Named(Value(), tx.cell)
      // otherwise a conflict set that does not exist is looked up, which panics
      requires Admits(Value(), tx) ==> C.Joinable(conflictGraph.Value(), tx.cell)
      modifies this`knownTxs, dag, conflictGraph
      ensures SleetOk(Value()) && Next(old(Value()), Receive(tx), Value())
      ensures ReceiveEnded(old(Value()), tx, r, Value())
    {
      ghost var s := Value();
      ValueParts();
      hide SleetOk, HasParents, Next, InsertReady, InsertDone, ReceiveEnded, Admits, Named;
      hide HasCoinbaseOutput, IsNew, RemoveAcceptedParents, C.ConflictSound, C.Joinable;
      ReceiveStarts(s, tx);
      if HasCoinbaseOutput(tx.cell) { return Err(InvalidCoinbaseTransaction); }
      var h := tx.cell.hash;
      if !IsNew(knownTxs, h) { return Ok(false); }
      var ready := HasAllParents(tx);
      if !ready { return Err(MissingAncestry); }
      var parents := RemoveAcceptedParents(knownTxs, tx.parents);
      var inserted := Insert(tx.cell, parents);
      ValueParts();
      if inserted.Err? {
        ReceiveEnds(s, tx, inserted, Value());
        return Err(inserted.error);
      }
      knownTxs := knownTxs[h := tx.(status := Pending)];
      ReceiveEnds(s, tx, inserted, Value());
      return Ok(true);
    }

    /** Into the conflict graph first, then into the DAG; nothing is undone if the second fails. */
    method Insert(cell: Cell, parents: seq<Hash>) returns (r: Result<(), SleetError>)
      requires C.ConflictSound(conflictGraph.Value())
      requires InsertReady(conflictGraph.Value(), cell)
      modifies dag, conflictGraph
      ensures InsertDone(old(dag.Value()), old(conflictGraph.Value()), cell, parents, dag.Value(),
                         conflictGraph.Value(), r)
    {
      hide C.ConflictSound, C.ConflictOk, C.ProducesUnspent, C.InsertedCell, C.HalfInserted, Inserted, C.Joinable;
      var c := conflictGraph.InsertCell(cell);
      if c.Err? { return Err(Conflict(c.error)); }
      var d := dag.InsertVx(cell.hash, parents);
      if d.Err? { return Err(Graph(d.error)); }
      return Ok(());
    }

    // removing conflicts

    /** Accepts a cell and sweeps its conflicts, with their progeny, out of both structures. `run` is
        the sweep that was made; lemmas about sweeps say when it ends well and what is gone then. */
    method RemoveConflicts(cell: Cell) returns (r: Result<(), SleetError>, ghost run: Sweep)
      requires SleetOk(Value()) && cell.hash in knownTxs && knownTxs[cell.hash].cell == cell
      modifies this`knownTxs, dag, conflictGraph
      ensures DagOk(dag.g, dag.inv) && C.ConflictSound(conflictGraph.Value())
      ensures cell.hash !in old(conflictGraph.cs) ==>
        r == Err(Conflict(C.UndefinedCell)) && run == Start && Shrunk(old(Value()), cell, {}, {}, Value())
      ensures cell.hash in old(conflictGraph.cs) && RejectedInDag(old(Value()), cell) ==>
        var rejected := C.RejectedBy(old(conflictGraph.Value()), cell);
        && Fair(old(dag.inv), rejected, run)
        && Shrunk(old(Value()), cell, Gone(run), Again(run) * rejected, Value())
        && r == (if Finished(rejected, run) then Ok(()) else Err(Conflict(C.UndefinedCell)))
        && (Finished(rejected, run) || Stuck(rejected, run))
        && (SweptInFull(old(dag.inv), rejected) ==> r == Ok(()) && Gone(run) == Progeny(old(dag.inv), rejected))
      ensures RejectedInDag(old(Value()), cell) ==> SleetOk(Value())
      // a rejected cell outside the DAG ends the rejection at once
      ensures !RejectedInDag(old(Value()), cell) ==>
        r == Err(Graph(UndefinedVertex)) && exists order, i :: HaltsAt(old(Value()), cell, order, i, Value())
      ensures RejectedTogether(old(Value()), cell) ==> dag.g.Keys <= conflictGraph.cs.Keys
      ensures !(dag.g.Keys <= conflictGraph.cs.Keys) ==> !RejectedInDag(old(Value()), cell)
      ensures dag.g.Keys <= conflictGraph.cs.Keys ==> SleetOk(Value()) && AcceptStep(old(Value()), cell.hash, Value())
    {
      ghost var s := Value();
      SleetFacts(s);
      AcceptedFacts(s, cell);
      run := Start;
      var accepted := conflictGraph.AcceptCell(cell);
      if accepted.Err? {
        ShrinkKeepsOk(s, cell, {}, {}, Value());
        SleetFacts(Value());
        return Err(Conflict(accepted.error)), Start;
      }
      SweptStart(s, cell);
      hide SleetOk, C.ConflictSound, DagOk, Sweeping, SweptTo, Shrunk, Halted, Fair, Finished, Stuck;
      var children, ok;
      ghost var i;
      ok, children, run, i := RejectVertices(s, cell, accepted.value);
      if !ok {
        HaltedOk(s, cell, accepted.value, i, Value());
        return Err(Graph(UndefinedVertex)), run;
      }
      SweepingStarts(s, cell, run, Value());
      ok, run := RemoveProgeny(s, cell, children, run);
      SweepEnds(s, cell, ok, run, Value());
      SleetFacts(Value());
      if ok { r := Ok(()); } else { r := Err(Conflict(C.UndefinedCell)); }
    }

    /** Takes the rejected vertices out of the DAG, up to the first that is not there. */
    method RejectVertices(ghost s: SleetValue, ghost cell: Cell, rejected: seq<Hash>)
      returns (ok: bool, children: seq<Hash>, ghost run: Sweep, ghost stop: nat)
      requires DagOk(s.dag.g, s.dag.inv) && cell.hash in s.cg.cs && Value() == s.(cg := C.AcceptedCell(s.cg, cell))
      requires SweptTo(s, cell, {}, {}, Value())
      requires Distinct(rejected) && Elems(rejected) == C.RejectedBy(s.cg, cell)
      modifies this`knownTxs, dag
      ensures ok <==> Elems(rejected) <= s.dag.g.Keys
      ensures DagOk(dag.g, dag.inv)
      ensures !ok ==> HaltsAt(s, cell, rejected, stop, Value())
      ensures ok ==> SweptTo(s, cell, Gone(run), {}, Value()) && children == Queue(run)
      ensures ok ==> Fair(s.dag.inv, Elems(rejected), run) && Elems(rejected) == Gone(run) && Popped(run) == []
    {
      children, run, stop := [], Start, 0;
      RejectingStarts(s, cell, Value(), rejected);
      hide *;
      for i := 0 to |rejected|
        invariant DagOk(dag.g, dag.inv) && Rejecting(s, cell, rejected, i, run, children, Value())
      {
        RejectingNext(s, cell, rejected, i, run, children, Value());
        ghost var before := Value();
        var ch;
        ok, ch := RejectNext(s, cell, Gone(run), rejected[i]);
        if !ok {
          HaltFacts(s, cell, rejected, i, run, children, before, Value());
          return false, children, run, i;
        }
        RejectingMore(s, cell, rejected, i, run, children, before, ch, Value());
        children := children + ch;
        run := Reject(run, rejected[i], ch);
      }
      RejectingEnds(s, cell, rejected, run, children, Value());
      ok := true;
    }

    method RejectNext(ghost s: SleetValue, ghost cell: Cell, ghost gone: set<Hash>, x: Hash)
      returns (ok: bool, children: seq<Hash>)
      requires DagOk(s.dag.g, s.dag.inv) && cell.hash in s.cg.cs && SweptTo(s, cell, gone, {}, Value())
      requires DagOk(dag.g, dag.inv) && x in C.RejectedBy(s.cg, cell) && x !in gone
      modifies this`knownTxs, dag
      ensures DagOk(dag.g, dag.inv) && (ok <==> x in s.dag.g)
      ensures Value().store == SetStatus(old(Value().store), x, Rejected) && Value().cg == old(Value().cg)
      ensures !ok ==> Value().dag == old(Value().dag)
      ensures ok ==> SweptTo(s, cell, gone + {x}, {}, Value()) && ListsChildren(s.dag.inv, x, gone, children)
    {
      ghost var t := Value();
      SweptVertex(s, cell, gone, t, x);
      if x !in dag.g {
        InverseSym(dag.g, dag.inv);
        AbsentVertex(dag.g, x);
        AbsentVertex(dag.inv, x);
      }
      hide SweptTo;
      knownTxs := SetStatus(knownTxs, x, Rejected);
      var removed := dag.RemoveVx(x);
      if removed.Err? { return false, []; }
      ok := true;
      children := Collect(removed.value);
      SweptReject(s, cell, gone, t, x, Value());
    }

    /** The queue loop. Each pass that does not end it takes one more conflict set away. */
    method RemoveProgeny(ghost s: SleetValue, ghost cell: Cell, queue: seq<Hash>, ghost start: Sweep)
      returns (ok: bool, ghost run: Sweep)
      requires Sweepable(s, cell) && Sweeping(s, cell, start, {}, Value()) && queue == Queue(start)
      modifies this`knownTxs, dag, conflictGraph
      ensures Sweeping(s, cell, run, Again(run), Value())
      ensures if ok then Queue(run) == [] else Queue(run) != [] && Queue(run)[0] in Gone(run)
    {
      run := start;
      var children := queue;
      hide *;
      while children != []
        invariant Sweeping(s, cell, run, {}, Value()) && children == Queue(run)
        decreases conflictGraph.cs.Keys
      {
        var ch;
        ok, ch := PopNext(s, cell, run, children[0]);
        if !ok {
          HeadAgain(run);
          return false, run;
        }
        QueueAfterPop(run, ch);
        children := children[1..] + ch;
        run := Pop(run, ch);
      }
      HeadAgain(run);
      ok := true;
    }

    method PopNext(ghost s: SleetValue, ghost cell: Cell, ghost run: Sweep, x: Hash)
      returns (ok: bool, children: seq<Hash>)
      requires Sweepable(s, cell) && Sweeping(s, cell, run, {}, Value()) && Queue(run) != [] && x == Queue(run)[0]
      modifies this`knownTxs, dag, conflictGraph
      ensures ok <==> x !in Gone(run)
      ensures if ok then Sweeping(s, cell, Pop(run, children), {}, Value()) else Sweeping(s, cell, run, {x}, Value())
      ensures ok ==> conflictGraph.cs.Keys < old(conflictGraph.cs.Keys)
    {
      hide *;
      ghost var t := Value();
      PopFacts(s, cell, run, t);
      ValueParts();
      children := [];
      var cut := CutCell(x);
      ValueParts();
      if !cut {
        SweepingAgain(s, cell, run, t);
        return false, [];
      }
      ok := true;
      children := PopVertex(s, cell, run, t, x);
    }

    method PopVertex(ghost s: SleetValue, ghost cell: Cell, ghost run: Sweep, ghost t: SleetValue, x: Hash)
      returns (children: seq<Hash>)
      requires Sweepable(s, cell) && Sweeping(s, cell, run, {}, t) && Queue(run) != [] && x == Queue(run)[0]
      requires x !in Gone(run) && x in t.dag.g
      requires Value() == SleetValue(t.dag, C.RemovedCells(t.cg, {x}), SetStatus(t.store, x, Removed))
      requires C.ConflictSound(conflictGraph.Value()) && DagOk(dag.g, dag.inv)
      modifies dag
      ensures Sweeping(s, cell, Pop(run, children), {}, Value())
    {
      hide Sweepable, Sweeping, C.ConflictSound, C.RemovedCells, RemoveVertex, Gone, Queue;
      children := [];
      var removed := dag.RemoveVx(x);
      if removed.Ok? { children := Collect(removed.value); }
      SweepingPop(s, cell, run, t, children, Value());
    }

    /** Lets a caller that hides definitions still see the three parts of the state. */
    lemma ValueParts()
      ensures Value().dag == DagValue(dag.g, dag.inv, dag.chits)
      ensures Value().cg == conflictGraph.Value() && Value().store == knownTxs
      ensures conflictGraph.Value().cs == conflictGraph.cs
    {}

    method CutCell(x: Hash) returns (ok: bool)
      requires C.ConflictSound(conflictGraph.Value())
      modifies this`knownTxs, conflictGraph
      ensures C.ConflictSound(conflictGraph.Value()) && knownTxs == SetStatus(old(knownTxs), x, Removed)
      ensures ok <==> x in old(conflictGraph.cs)
      ensures conflictGraph.Value() ==
        if ok then C.RemovedCells(old(conflictGraph.Value()), {x}) else old(conflictGraph.Value())
      ensures ok ==> conflictGraph.cs.Keys < old(conflictGraph.cs.Keys)
    {
      knownTxs := SetStatus(knownTxs, x, Removed);
      var cut := conflictGraph.RemoveCell(x);
      ok := cut.Ok?;
      hide C.ConflictSound;
      assert ok ==> conflictGraph.cs.Keys == old(conflictGraph.cs.Keys) - {x};
    }

    /** Every newly accepted transaction has its conflicts removed, errors or not; then the DAG is
        pruned at the accepted frontier. The calls end where a vertex is left without a conflict set:
        lemma `LeftIsMet` says that the search for the frontier then panics, unless the status of the
        vertex decides for it. */
    method NewAccepted(hs: seq<Hash>) returns (ok: bool, ghost between: seq<SleetValue>)
      requires SleetOk(Value()) && KnownAll(Value(), hs)
      modifies this, dag, conflictGraph
      ensures AllTogether(old(Value()), hs) ==> ok
      ensures ok ==>
        && SleetOk(Value()) && Next(old(Value()), Announce(hs), Value()) && AcceptSteps(old(Value()), hs, between)
        && var s := between[|hs|];
           IsFrontier(s.dag.g, Acc(s.dag.g, s.cg.cs, s.store), acceptedFrontier) &&
           Value() == Pruned(s, acceptedFrontier)
      ensures !ok ==> HaltedAmong(old(Value()), hs, between, Value())
    {
      hide *;
      between := [Value()];
      NoSteps(Value(), hs);
      for i := 0 to |hs|
        invariant SleetOk(Value()) && AcceptSteps(old(Value()), hs[..i], between) && |between| == i + 1
        invariant between[i] == Value() && KnownAll(Value(), hs)
        invariant AllTogether(old(Value()), hs) ==> AllTogether(Value(), hs)
      {
        ghost var s := Value();
        KnownAt(s, hs, i);
        ValueParts();
        var cell := knownTxs[hs[i]].cell;
        var _, _ := RemoveConflicts(cell);
        ValueParts();
        if !(dag.g.Keys <= conflictGraph.cs.Keys) {
          HaltedIs(old(Value()), hs, between, i, cell, Value());
          return false, between;
        }
        StillAllTogether(s, hs, hs[i], Value());
        AcceptStepsSnoc(old(Value()), hs, i, between, Value());
        between := between + [Value()];
      }
      assert hs[..|hs|] == hs;
      Prune();
      AnnouncedIs(old(Value()), hs, between, acceptedFrontier, Value());
      ok := true;
    }

    method Prune()
      requires SleetOk(Value())
      modifies this, dag, conflictGraph
      ensures SleetOk(Value()) && Value() == Pruned(old(Value()), acceptedFrontier)
      ensures var s := old(Value()); IsFrontier(s.dag.g, Acc(s.dag.g, s.cg.cs, s.store), acceptedFrontier)
    {
      PruneKeepsOkAny(Value());
      hide SleetOk;
      PruneAtAcceptedFrontier();
    }
  }

  lemma UpdateOne(cs: map<Hash, C.ConflictSet>, done: set<Hash>, inv: Graph, chits: map<Hash, u8>, a: Hash)
    requires a in cs && a !in done
    ensures var before := UpdatedSets(cs, done, inv, chits);
      && before[a] == cs[a]
      && UpdatedSets(cs, done + {a}, inv, chits) ==
         before[a := C.UpdatedSet(cs[a], a, ConvictionOf(inv, chits, a), ConvictionOf(inv, chits, cs[a].pref))]
  {
    hide ConvictionOf, C.UpdatedSet;
  }

  ghost predicate Searched(g: Graph, acc: set<Hash>, frontier: set<Hash>, above: set<Hash>) {
    frontier <= Final(g, acc) && above == ReachAll(g, frontier)
  }

  lemma SearchedMore(g: Graph, acc: set<Hash>, frontier: set<Hash>, above: set<Hash>, v: Hash)
    requires Searched(g, acc, frontier, above) && v in g && Reach(g, v) <= acc
    ensures Searched(g, acc, frontier + {v}, above + Reach(g, v)) && v in Reach(g, v)
  {
    ReachAllSnoc(g, frontier, v);
    ReachSelf(g, v);
  }

  // facts used by the methods

  lemma SleetFacts(s: SleetValue)
    requires SleetOk(s)
    ensures DagOk(s.dag.g, s.dag.inv) && Closed(s.dag.g) && Closed(s.dag.inv)
    ensures s.dag.g.Keys <= s.cg.cs.Keys && s.dag.g.Keys <= s.dag.chits.Keys && s.dag.g.Keys <= s.store.Keys
  {
    InverseSym(s.dag.g, s.dag.inv);
  }

  /** What a query may rely on, and the step it makes. */
  lemma SuccessFacts(s: SleetValue, h: Hash)
    requires SleetOk(s) && h in s.store
    ensures SleetOk(QuerySucceeded(s, h))
    ensures QuerySucceeded(s, h) ==
      var c := Checked(Counted(s, h), h); c.(store := SetStatus(c.store, h, Queried))
    ensures (h in s.dag.chits ==> s.dag.chits[h] != 1) && Countable(s, h) ==> Next(s, Success(h), QuerySucceeded(s, h))
  {
    QuerySuccessKeepsOk(s, h);
    hide SleetOk, Counted, Countable, NewlyFinal, MarkedStore;
  }

  lemma FailureFacts(s: SleetValue, h: Hash)
    requires SleetOk(s)
    ensures Closed(s.dag.g) && s.dag.g.Keys <= s.cg.cs.Keys && SleetOk(QueryFailed(s, h))
    ensures QueryFailed(s, h) ==
      SleetValue(s.dag, s.cg.(cs := ResetSets(s.cg.cs, Reach(s.dag.g, h))), SetStatus(s.store, h, Queried))
    ensures h in s.store ==> Next(s, Failure(h), QueryFailed(s, h))
  {
    SleetFacts(s);
    QueryFailureKeepsOk(s, h);
    hide SleetOk, Countable, ResetSets;
  }

  lemma NextOf(order: seq<Hash>, i: nat, all: set<Hash>)
    requires Distinct(order) && i < |order| && Elems(order) <= all
    ensures order[i] in all && order[i] !in order[..i] && order[..i + 1] == order[..i] + [order[i]]
  {
    assert order[i] in Elems(order);
  }

  lemma NextElems(order: seq<Hash>, i: nat)
    requires Distinct(order) && i < |order|
    ensures order[i] in Elems(order) && order[i] !in Elems(order[..i])
    ensures Elems(order[..i + 1]) == Elems(order[..i]) + {order[i]}
  {
    assert order[..i + 1] == order[..i] + [order[i]];
  }

  /** The newly final vertices among those already visited. */
  ghost function NewlyIn(s: SleetValue, visited: seq<Hash>): set<Hash> {
    set t | t in visited && t in FinalTxs(s) && !HasStatus(s.store, t, Accepted)
  }

  /** `newTxs` are the newly final vertices among `visited`, and exactly those have been marked. */
  ghost predicate Checking(s: SleetValue, visited: seq<Hash>, newTxs: seq<Hash>, store: Store) {
    && Distinct(newTxs) && Elems(newTxs) == NewlyIn(s, visited)
    && store == MarkedStore(s.store, Elems(newTxs), Accepted)
  }

  lemma CheckStart(s: SleetValue)
    ensures Checking(s, [], [], s.store) && MemoOk(s.dag.g, Acc(s.dag.g, s.cg.cs, s.store), map[])
  {
    assert MarkedStore(s.store, {}, Accepted) == s.store;
  }

  lemma CheckingKeepsAcc(s: SleetValue, visited: seq<Hash>, newTxs: seq<Hash>, store: Store)
    requires Checking(s, visited, newTxs, store)
    ensures Acc(s.dag.g, s.cg.cs, store) == Acc(s.dag.g, s.cg.cs, s.store)
  {
    MarkingKeepsAcc(s, Elems(newTxs));
  }

  lemma CheckStep(s: SleetValue, visited: seq<Hash>, newTxs: seq<Hash>, store: Store, v: Hash)
    requires Checking(s, visited, newTxs, store) && v !in visited && v in s.dag.g && v in s.store
    ensures HasStatus(store, v, Accepted) <==> HasStatus(s.store, v, Accepted)
    ensures if !HasStatus(store, v, Accepted) && Reach(s.dag.g, v) <= Acc(s.dag.g, s.cg.cs, s.store)
      then Checking(s, visited + [v], newTxs + [v], SetStatus(store, v, Accepted))
      else Checking(s, visited + [v], newTxs, store)
  {
    assert v !in Elems(newTxs);
    if !HasStatus(store, v, Accepted) && Reach(s.dag.g, v) <= Acc(s.dag.g, s.cg.cs, s.store) {
      DistinctSnoc(newTxs, v);
      assert NewlyIn(s, visited + [v]) == NewlyIn(s, visited) + {v};
      assert SetStatus(store, v, Accepted) == MarkedStore(s.store, Elems(newTxs) + {v}, Accepted);
    } else {
      assert NewlyIn(s, visited + [v]) == NewlyIn(s, visited);
    }
  }

  lemma CheckDone(s: SleetValue, h: Hash, order: seq<Hash>, newTxs: seq<Hash>, store: Store)
    requires Checking(s, order, newTxs, store) && Elems(order) == Reach(s.dag.g, h)
    ensures Distinct(newTxs) && Elems(newTxs) == NewlyFinal(s, h) && s.(store := store) == Checked(s, h)
  {
    assert forall t :: t in order <==> t in Elems(order);
    assert NewlyIn(s, order) == NewlyFinal(s, h);
  }

  lemma InsertOutcome(d: DagValue, vx: Hash, edges: seq<Hash>)
    requires Inverse(d.g, d.inv) && vx !in d.g && forall p :: p in edges ==> p in d.g
    ensures Inserted(d, vx, edges).1 == if vx in d.chits && d.chits[vx] == 1 then Err(ChitReplace) else Ok(())
  {}

  /** What a receipt relies on, and what it answers. */
  lemma ReceiveFacts(s: SleetValue, tx: Tx)
    requires SleetOk(s) && Named(s, tx.cell)
    ensures var h, parents := tx.cell.hash, RemoveAcceptedParents(s.store, tx.parents);
      && C.ConflictSound(s.cg) && (h in s.cg.cells ==> s.cg.cells[h] == tx.cell)
      && Received(s, tx) == HalfReceived(s, tx).(store := s.store[h := tx.(status := Pending)])
      && HalfReceived(s, tx) == SleetValue(Inserted(s.dag, h, parents).0, C.InsertedCell(s.cg, tx.cell), s.store)
      && (IsNew(s.store, h) && HasParents(s.dag.g, s.store, tx.parents) && h !in s.cg.cells ==>
          Inserted(s.dag, h, parents).1 == if h in s.dag.chits && s.dag.chits[h] == 1 then Err(ChitReplace) else Ok(()))
    ensures ReceiveResult(s, tx) ==
      if HasCoinbaseOutput(tx.cell) then Err(InvalidCoinbaseTransaction)
      else if !IsNew(s.store, tx.cell.hash) then Ok(false)
      else if !HasParents(s.dag.g, s.store, tx.parents) then Err(MissingAncestry)
      else if tx.cell.hash in s.cg.cells then Err(Conflict(C.DuplicateCell))
      else if !(tx.cell.inputs <= s.cg.vertices.Keys) then Err(Conflict(C.UndefinedCell))
      else if tx.cell.hash in s.dag.chits && s.dag.chits[tx.cell.hash] == 1 then Err(Graph(ChitReplace))
      else Ok(true)
  {
    var parents := RemoveAcceptedParents(s.store, tx.parents);
    if IsNew(s.store, tx.cell.hash) && HasParents(s.dag.g, s.store, tx.parents) && tx.cell.hash !in s.cg.cells {
      ParentsPresent(s, tx);
      InsertOutcome(s.dag, tx.cell.hash, parents);
    }
    hide C.ConflictSound, C.InsertedCell, Inserted, DagOk, Coupled, HasParents;
  }

  /** Without a conflict set of every spender an insertion panics. */
  ghost predicate InsertReady(cg: C.ConflictState, cell: Cell) {
    if cell.hash in cg.cells then cg.cells[cell.hash] == cell
    else cell.inputs <= cg.vertices.Keys ==> C.Joinable(cg, cell)
  }

  lemma ReceiveStarts(s: SleetValue, tx: Tx)
    requires SleetOk(s) && Named(s, tx.cell) && (Admits(s, tx) ==> C.Joinable(s.cg, tx.cell))
    ensures C.ConflictSound(s.cg)
    ensures HasCoinbaseOutput(tx.cell) ==> ReceiveEnded(s, tx, Err(InvalidCoinbaseTransaction), s)
    ensures !HasCoinbaseOutput(tx.cell) && !IsNew(s.store, tx.cell.hash) ==> ReceiveEnded(s, tx, Ok(false), s)
    ensures !HasCoinbaseOutput(tx.cell) && IsNew(s.store, tx.cell.hash) ==>
      if HasParents(s.dag.g, s.store, tx.parents) then InsertReady(s.cg, tx.cell)
      else ReceiveEnded(s, tx, Err(MissingAncestry), s)
    ensures HasCoinbaseOutput(tx.cell) || !IsNew(s.store, tx.cell.hash) || !HasParents(s.dag.g, s.store, tx.parents) ==>
      Next(s, Receive(tx), s)
  {
    hide SleetOk, HasParents, ReceiveResult, Received, HalfReceived, Inserted;
    hide HasCoinbaseOutput, IsNew, RemoveAcceptedParents, C.ConflictSound, C.InsertedCell, C.HalfInserted, C.Joinable;
    ReceiveFacts(s, tx);
  }

  /** How a receipt ends: what it answers and the state it leaves. A failed insertion is not undone. */
  ghost predicate ReceiveEnded(s: SleetValue, tx: Tx, r: Result<bool, SleetError>, t: SleetValue) {
    && r == ReceiveResult(s, tx) && (Unchanged(r) ==> t == s) && (r == Ok(true) ==> t == Received(s, tx))
    && (r == Err(Graph(ChitReplace)) ==> t == HalfReceived(s, tx))
    && (r == Err(Conflict(C.UndefinedCell)) ==>
        exists done :: done <= tx.cell.inputs && t == s.(cg := C.HalfInserted(s.cg, tx.cell, done)))
    && (r.Ok? || Unchanged(r) || r == Err(Graph(ChitReplace)) || r == Err(Conflict(C.UndefinedCell)))
  }

  /** What an insertion into both structures leaves, and what it answers. */
  ghost predicate InsertDone(d: DagValue, cg: C.ConflictState, cell: Cell, parents: seq<Hash>, d': DagValue,
                             cg': C.ConflictState, r: Result<(), SleetError>) {
    if cell.hash in cg.cells then
      r == Err(Conflict(C.DuplicateCell)) && d' == d && cg' == cg
    else if !(cell.inputs <= cg.vertices.Keys) then
      && r == Err(Conflict(C.UndefinedCell)) && d' == d
      && exists done :: done <= cell.inputs && cg' == C.HalfInserted(cg, cell, done)
    else
      && d' == Inserted(d, cell.hash, parents).0 && cg' == C.InsertedCell(cg, cell)
      && r == match Inserted(d, cell.hash, parents).1 case Ok(_) => Ok(()) case Err(e) => Err(Graph(e))
  }

  /** A receipt that gets as far as the insertion. */
  lemma ReceiveEnds(s: SleetValue, tx: Tx, inserted: Result<(), SleetError>, t: SleetValue)
    requires SleetOk(s) && Named(s, tx.cell) && !HasCoinbaseOutput(tx.cell) && IsNew(s.store, tx.cell.hash)
    requires HasParents(s.dag.g, s.store, tx.parents) && (Admits(s, tx) ==> C.Joinable(s.cg, tx.cell))
    requires InsertDone(s.dag, s.cg, tx.cell, RemoveAcceptedParents(s.store, tx.parents), t.dag, t.cg, inserted)
    requires t.store == if inserted.Ok? then s.store[tx.cell.hash := tx.(status := Pending)] else s.store
    ensures ReceiveEnded(s, tx, if inserted.Ok? then Ok(true) else Err(inserted.error), t)
    ensures Next(s, Receive(tx), t) && SleetOk(t)
  {
    hide SleetOk, HasParents, ReceiveResult, Received, HalfReceived, Next, Inserted, ReceiveEnded, Named;
    hide HasCoinbaseOutput, IsNew, RemoveAcceptedParents, C.ConflictSound, C.InsertedCell, C.HalfInserted, C.Joinable;
    ReceiveFacts(s, tx);
    assert ReceiveResult(s, tx) == if inserted.Ok? then Ok(true) else Err(inserted.error);
    assert ReceiveStep(s, tx, t);
    hide *;
    ReceiveStepEnds(s, tx, t);
    ReceiveStepKeepsOk(s, tx, t);
    NextReceives(s, tx, t);
  }

  lemma ReceiveStepEnds(s: SleetValue, tx: Tx, t: SleetValue)
    requires ReceiveStep(s, tx, t)
    ensures ReceiveEnded(s, tx, ReceiveResult(s, tx), t)
  {
    hide HasParents, Received, HalfReceived, C.HalfInserted, C.Joinable;
  }

  lemma NextReceives(s: SleetValue, tx: Tx, t: SleetValue)
    requires Named(s, tx.cell) && ReceiveStep(s, tx, t)
    ensures Next(s, Receive(tx), t)
  {
    hide ReceiveStep, Named;
  }

  // sweeping both structures

  /** The state in which exactly `gone` has been swept, `cell` having been accepted, and `again` has been
      met again. */
  ghost predicate SweptTo(s: SleetValue, cell: Cell, gone: set<Hash>, again: set<Hash>, t: SleetValue)
    requires cell.hash in s.cg.cs
  {
    && t.dag == RestrictDag(s.dag, s.dag.g.Keys - gone)
    && t.cg == C.RemovedCells(C.AcceptedCell(s.cg, cell), gone - C.RejectedBy(s.cg, cell))
    && t.store == ShrunkStore(s.store, gone, C.RejectedBy(s.cg, cell) - again)
  }

  lemma AcceptedFacts(s: SleetValue, cell: Cell)
    requires SleetOk(s) && cell.hash in s.store && s.store[cell.hash].cell == cell
    ensures Produced(cell) <= s.cg.vertices.Keys
    ensures cell.hash in s.cg.cells ==> s.cg.cells[cell.hash] == cell
    ensures cell.hash in s.cg.cs ==> cell.hash in s.cg.cells
    ensures cell.hash in s.cg.cs ==> C.RejectedBy(s.cg, cell) <= s.cg.cells.Keys
  {
    if cell.hash in s.cg.cs { C.ConflictsPresent(s.cg, cell.hash); }
  }

  lemma RestrictAllDag(d: DagValue)
    requires DagOk(d.g, d.inv)
    ensures RestrictDag(d, d.g.Keys) == d
  {
    InverseSym(d.g, d.inv);
    RestrictToAll(d.g);
    RestrictToAll(d.inv);
  }

  lemma SweptStart(s: SleetValue, cell: Cell)
    requires DagOk(s.dag.g, s.dag.inv) && C.ConflictSound(s.cg) && cell.hash in s.cg.cs && s.cg.cells[cell.hash] == cell
    ensures SweptTo(s, cell, {}, {}, s.(cg := C.AcceptedCell(s.cg, cell)))
  {
    hide *;
    RestrictAllDag(s.dag);
    C.AcceptKeepsSound(s.cg, cell);
    C.RemoveNothing(C.AcceptedCell(s.cg, cell));
    NothingShrunk(s.store, C.RejectedBy(s.cg, cell) - {});
    SweptIs(s, cell, {}, s.(cg := C.AcceptedCell(s.cg, cell)), s.dag.g.Keys, {});
  }

  lemma NothingShrunk(store: Store, rejected: set<Hash>)
    ensures ShrunkStore(store, {}, rejected) == store
  {
  }

  lemma SweptIs(s: SleetValue, cell: Cell, gone: set<Hash>, t: SleetValue, keep: set<Hash>, rest: set<Hash>)
    requires cell.hash in s.cg.cs && keep == s.dag.g.Keys - gone && rest == gone - C.RejectedBy(s.cg, cell)
    requires t.dag == RestrictDag(s.dag, keep) && t.cg == C.RemovedCells(C.AcceptedCell(s.cg, cell), rest)
    requires t.store == ShrunkStore(s.store, gone, C.RejectedBy(s.cg, cell) - {})
    ensures SweptTo(s, cell, gone, {}, t)
  {
    hide C.AcceptedCell, C.RemovedCells, RestrictDag, C.RejectedBy, ShrunkStore;
  }

  lemma SweptVertex(s: SleetValue, cell: Cell, gone: set<Hash>, t: SleetValue, x: Hash)
    requires cell.hash in s.cg.cs && SweptTo(s, cell, gone, {}, t) && Inverse(s.dag.g, s.dag.inv)
    ensures x in t.dag.g <==> x in s.dag.g && x !in gone
    ensures x in t.dag.g ==> Elems(t.dag.inv[x]) == Elems(s.dag.inv[x]) - gone
  {
    if x in t.dag.g {
      InverseSym(s.dag.g, s.dag.inv);
      var keep := s.dag.g.Keys - gone;
      assert t.dag.inv[x] == Keep(s.dag.inv[x], keep);
      forall c | c in s.dag.inv[x] ensures c in s.dag.g { assert Edge(s.dag.inv, x, c); }
    }
  }

  lemma SweptDag(d: DagValue, gone: set<Hash>, x: Hash)
    ensures var r := RestrictDag(d, d.g.Keys - gone);
      DagValue(RemoveVertex(r.g, x), RemoveVertex(r.inv, x), r.chits) == RestrictDag(d, d.g.Keys - (gone + {x}))
  {
    RemoveFromRestricted(d.g, d.g.Keys - gone, x);
    RemoveFromRestricted(d.inv, d.g.Keys - gone, x);
    assert d.g.Keys - gone - {x} == d.g.Keys - (gone + {x});
  }

  lemma StoreRejects(store: Store, gone: set<Hash>, rejected: set<Hash>, x: Hash)
    requires x in rejected
    ensures SetStatus(ShrunkStore(store, gone, rejected), x, Rejected) == ShrunkStore(store, gone + {x}, rejected)
  {}

  lemma StoreRemoves(store: Store, gone: set<Hash>, rejected: set<Hash>, x: Hash)
    requires x !in rejected
    ensures SetStatus(ShrunkStore(store, gone, rejected), x, Removed) == ShrunkStore(store, gone + {x}, rejected)
  {}

  lemma StoreOverwrites(store: Store, gone: set<Hash>, rejected: set<Hash>, x: Hash)
    requires x in gone
    ensures SetStatus(ShrunkStore(store, gone, rejected), x, Removed) == ShrunkStore(store, gone, rejected - {x})
  {}

  lemma SweptReject(s: SleetValue, cell: Cell, gone: set<Hash>, t: SleetValue, x: Hash, t': SleetValue)
    requires cell.hash in s.cg.cs && SweptTo(s, cell, gone, {}, t) && x in C.RejectedBy(s.cg, cell)
    requires t'.dag == DagValue(RemoveVertex(t.dag.g, x), RemoveVertex(t.dag.inv, x), t.dag.chits)
    requires t'.cg == t.cg && t'.store == SetStatus(t.store, x, Rejected)
    ensures SweptTo(s, cell, gone + {x}, {}, t')
  {
    hide C.RemovedCells, C.AcceptedCell, C.RejectedBy, RestrictDag, RemoveVertex, ShrunkStore, SetStatus;
    SweptDag(s.dag, gone, x);
    StoreRejects(s.store, gone, C.RejectedBy(s.cg, cell) - {}, x);
    assert gone + {x} - C.RejectedBy(s.cg, cell) == gone - C.RejectedBy(s.cg, cell);
  }

  lemma SweptPop(s: SleetValue, cell: Cell, gone: set<Hash>, t: SleetValue, x: Hash, t': SleetValue)
    requires cell.hash in s.cg.cs && SweptTo(s, cell, gone, {}, t) && x !in C.RejectedBy(s.cg, cell)
    requires t'.dag == DagValue(RemoveVertex(t.dag.g, x), RemoveVertex(t.dag.inv, x), t.dag.chits)
    requires t'.cg == C.RemovedCells(t.cg, {x}) && t'.store == SetStatus(t.store, x, Removed)
    ensures SweptTo(s, cell, gone + {x}, {}, t')
  {
    hide C.RemovedCells, C.AcceptedCell, C.RejectedBy, RestrictDag, RemoveVertex, ShrunkStore, SetStatus;
    var rejected := C.RejectedBy(s.cg, cell);
    SweptDag(s.dag, gone, x);
    StoreRemoves(s.store, gone, rejected - {}, x);
    C.RemoveMore(C.AcceptedCell(s.cg, cell), gone - rejected, x);
    assert gone - rejected + {x} == gone + {x} - rejected;
  }

  lemma SweptAgain(s: SleetValue, cell: Cell, gone: set<Hash>, t: SleetValue, x: Hash)
    requires cell.hash in s.cg.cs && SweptTo(s, cell, gone, {}, t) && x in gone
    ensures SweptTo(s, cell, gone, {x}, t.(store := SetStatus(t.store, x, Removed)))
  {
    hide C.RemovedCells, C.AcceptedCell, C.RejectedBy, RestrictDag, RemoveVertex, ShrunkStore, SetStatus;
    var rejected := C.RejectedBy(s.cg, cell);
    StoreOverwrites(s.store, gone, rejected - {}, x);
    assert rejected - {} - {x} == rejected - {x};
  }

  /** A rejected vertex that is met again is a child of another one. */
  lemma MetAgain(g: Graph, inv: Graph, rejected: set<Hash>, run: Sweep)
    requires DagOk(g, inv) && Fair(inv, rejected, run)
    ensures MetTwice(inv, rejected, Again(run) * rejected)
  {
    forall r | r in Again(run) * rejected ensures exists u :: u in rejected && u != r && Edge(inv, u, r) {
      RejectedQueued(inv, rejected, run, r);
      var u :| u in rejected && Edge(inv, u, r);
      InverseSym(g, inv);
      NoSelfEdge(g, r);
    }
    if Queue(run) == [] {
      assert Again(run) * rejected == {};
    } else {
      assert Again(run) * rejected == if Queue(run)[0] in rejected then {Queue(run)[0]} else {};
    }
  }

  lemma HeadAgain(run: Sweep)
    ensures Again(run) == if Queue(run) == [] then {} else {Queue(run)[0]}
  {
  }

  lemma QueueAfterPop(run: Sweep, children: seq<Hash>)
    requires Queue(run) != []
    ensures Queue(Pop(run, children)) == Queue(run)[1..] + children
  {}

  ghost predicate Sweepable(s: SleetValue, cell: Cell) {
    SleetOk(s) && cell.hash in s.cg.cs && s.cg.cells[cell.hash] == cell && C.RejectedBy(s.cg, cell) <= s.dag.g.Keys
  }

  /** The second phase of a sweep, as far as `run`. */
  ghost predicate Sweeping(s: SleetValue, cell: Cell, run: Sweep, again: set<Hash>, t: SleetValue) {
    && cell.hash in s.cg.cs && SweptTo(s, cell, Gone(run), again, t)
    && Fair(s.dag.inv, C.RejectedBy(s.cg, cell), run) && C.RejectedBy(s.cg, cell) <= Gone(run)
    && DagOk(t.dag.g, t.dag.inv) && C.ConflictSound(t.cg)
  }

  lemma SweepingAgain(s: SleetValue, cell: Cell, run: Sweep, t: SleetValue)
    requires Sweeping(s, cell, run, {}, t) && Queue(run) != [] && Queue(run)[0] in Gone(run)
    ensures Sweeping(s, cell, run, {Queue(run)[0]}, t.(store := SetStatus(t.store, Queue(run)[0], Removed)))
  {
    SweptAgain(s, cell, Gone(run), t, Queue(run)[0]);
    hide SweptTo, C.ConflictSound, DagOk;
  }

  lemma SweepingPop(s: SleetValue, cell: Cell, run: Sweep, t: SleetValue, children: seq<Hash>, t': SleetValue)
    requires Sweepable(s, cell) && Sweeping(s, cell, run, {}, t) && Queue(run) != [] && Queue(run)[0] !in Gone(run)
    requires var x := Queue(run)[0];
      && x in t.dag.inv && Distinct(children) && Elems(children) == Elems(t.dag.inv[x])
      && t'.dag == DagValue(RemoveVertex(t.dag.g, x), RemoveVertex(t.dag.inv, x), t.dag.chits)
      && t'.cg == C.RemovedCells(t.cg, {x}) && t'.store == SetStatus(t.store, x, Removed)
    requires DagOk(t'.dag.g, t'.dag.inv) && C.ConflictSound(t'.cg)
    ensures Sweeping(s, cell, Pop(run, children), {}, t')
  {
    PopFacts(s, cell, run, t);
    hide SweptTo, C.ConflictSound, DagOk, Sweepable, C.RemovedCells, RemoveVertex, Fair, Gone, Queue, SetStatus;
    FairPop(s.dag.inv, C.RejectedBy(s.cg, cell), run, children);
    SweptPop(s, cell, Gone(run), t, Queue(run)[0], t');
  }

  /** The first phase of a sweep: `order[..i]` has been taken out of the DAG. */
  ghost predicate Rejecting(s: SleetValue, cell: Cell, order: seq<Hash>, i: nat, run: Sweep, children: seq<Hash>,
                            t: SleetValue) {
    && cell.hash in s.cg.cs && Distinct(order) && Elems(order) == C.RejectedBy(s.cg, cell) && i <= |order|
    && Elems(order[..i]) <= s.dag.g.Keys && Elems(order[..i]) == Gone(run)
    && SweptTo(s, cell, Gone(run), {}, t) && t.cg == C.AcceptedCell(s.cg, cell)
    && t.store == MarkedStore(s.store, Gone(run), Rejected)
    && Fair(s.dag.inv, Elems(order), run) && Popped(run) == [] && children == Queue(run)
  }

  lemma RejectingStarts(s: SleetValue, cell: Cell, t: SleetValue, order: seq<Hash>)
    requires DagOk(s.dag.g, s.dag.inv) && cell.hash in s.cg.cs && SweptTo(s, cell, {}, {}, t)
    requires t == s.(cg := C.AcceptedCell(s.cg, cell)) && Distinct(order) && Elems(order) == C.RejectedBy(s.cg, cell)
    ensures DagOk(t.dag.g, t.dag.inv) && Rejecting(s, cell, order, 0, Start, [], t)
  {
    hide C.RejectedBy, C.AcceptedCell, SweptTo, DagOk, Distinct;
    assert Elems(order[..0]) == {} == Gone(Start);
    assert MarkedStore(s.store, {}, Rejected) == s.store;
  }

  lemma RejectingNext(s: SleetValue, cell: Cell, order: seq<Hash>, i: nat, run: Sweep, children: seq<Hash>,
                      t: SleetValue)
    requires Rejecting(s, cell, order, i, run, children, t) && i < |order|
    ensures cell.hash in s.cg.cs && SweptTo(s, cell, Gone(run), {}, t)
    ensures order[i] in C.RejectedBy(s.cg, cell) && order[i] !in Gone(run)
  {
    hide SweptTo, C.RejectedBy, C.AcceptedCell, Fair, MarkedStore;
    NextOf(order, i, Elems(order));
  }

  lemma RejectingMore(s: SleetValue, cell: Cell, order: seq<Hash>, i: nat, run: Sweep, children: seq<Hash>,
                      t: SleetValue, ch: seq<Hash>, t': SleetValue)
    requires Rejecting(s, cell, order, i, run, children, t) && i < |order| && order[i] in s.dag.g
    requires SweptTo(s, cell, Gone(run) + {order[i]}, {}, t') && ListsChildren(s.dag.inv, order[i], Gone(run), ch)
    requires t'.cg == t.cg && t'.store == SetStatus(t.store, order[i], Rejected)
    ensures Rejecting(s, cell, order, i + 1, Reject(run, order[i], ch), children + ch, t')
  {
    RejectingNext(s, cell, order, i, run, children, t);
    NextOf(order, i, Elems(order));
    MarkMore(s.store, order, i);
    hide SweptTo, C.RejectedBy, C.AcceptedCell, Fair, MarkedStore, Gone, Queue, Popped, ListsChildren, Distinct,
      SetStatus;
    GrowReject(s.dag.inv, Elems(order), run, order[i], ch, order[..i]);
  }

  lemma RejectingEnds(s: SleetValue, cell: Cell, order: seq<Hash>, run: Sweep, children: seq<Hash>, t: SleetValue)
    requires Rejecting(s, cell, order, |order|, run, children, t)
    ensures Elems(order) <= s.dag.g.Keys && Elems(order) == Gone(run) && Popped(run) == [] && children == Queue(run)
    ensures cell.hash in s.cg.cs && SweptTo(s, cell, Gone(run), {}, t) && Fair(s.dag.inv, Elems(order), run)
    ensures t.cg == C.AcceptedCell(s.cg, cell)
  {
    assert order[..|order|] == order;
    hide SweptTo, C.RejectedBy, C.AcceptedCell, Fair, MarkedStore, Gone, Queue, Popped;
  }

  /** The head of the queue is in both structures, or in neither because it is gone. */
  lemma PopFacts(s: SleetValue, cell: Cell, run: Sweep, t: SleetValue)
    requires Sweepable(s, cell) && Sweeping(s, cell, run, {}, t) && Queue(run) != []
    ensures var x := Queue(run)[0];
      && (x in t.cg.cs <==> x !in Gone(run))
      && (x in t.dag.g <==> x !in Gone(run))
      && (x in Gone(run) || x !in C.RejectedBy(s.cg, cell))
      && (x in t.dag.g ==> x in s.dag.inv && x in t.dag.inv && Elems(t.dag.inv[x]) == Elems(s.dag.inv[x]) - Gone(run))
    ensures DagOk(t.dag.g, t.dag.inv) && C.ConflictSound(t.cg)
  {
    var x := Queue(run)[0];
    InverseSym(s.dag.g, s.dag.inv);
    SweepInside(s.dag.inv, C.RejectedBy(s.cg, cell), run);
    assert x in Elems(Queue(run));
    assert x in s.dag.g;
    SweptVertex(s, cell, Gone(run), t, x);
    SweptSets(s, cell, Gone(run), t, x);
  }

  lemma SweptSets(s: SleetValue, cell: Cell, gone: set<Hash>, t: SleetValue, x: Hash)
    requires cell.hash in s.cg.cs && SweptTo(s, cell, gone, {}, t) && C.RejectedBy(s.cg, cell) <= gone
    ensures x in s.cg.cs && x !in gone ==> x in t.cg.cs
    ensures x in gone ==> x !in t.cg.cs
  {}

  lemma SweepingStarts(s: SleetValue, cell: Cell, run: Sweep, t: SleetValue)
    requires SleetOk(s) && cell.hash in s.cg.cs && s.cg.cells[cell.hash] == cell
    requires t.cg == C.AcceptedCell(s.cg, cell) && DagOk(t.dag.g, t.dag.inv)
    requires C.RejectedBy(s.cg, cell) <= s.dag.g.Keys && C.RejectedBy(s.cg, cell) == Gone(run)
    requires SweptTo(s, cell, Gone(run), {}, t) && Fair(s.dag.inv, C.RejectedBy(s.cg, cell), run)
    ensures Sweepable(s, cell) && Sweeping(s, cell, run, {}, t)
  {
    hide SweptTo, DagOk, Fair, C.AcceptedCell, C.ConflictSound;
    C.AcceptFacts(s.cg, cell);
  }

  /** How the sweep `run` came out. */
  ghost predicate Ended(s: SleetValue, cell: Cell, ok: bool, run: Sweep) {
    cell.hash in s.cg.cs &&
    var rejected := C.RejectedBy(s.cg, cell);
    && Fair(s.dag.inv, rejected, run) && (ok <==> Finished(rejected, run)) && (!ok <==> Stuck(rejected, run))
    && (SweptInFull(s.dag.inv, rejected) ==> ok && Gone(run) == Progeny(s.dag.inv, rejected))
  }

  lemma SweepEnds(s: SleetValue, cell: Cell, ok: bool, run: Sweep, t: SleetValue)
    requires Sweepable(s, cell) && Sweeping(s, cell, run, Again(run), t)
    requires cell.hash in s.store && s.store[cell.hash].cell == cell
    requires if ok then Queue(run) == [] else Queue(run) != [] && Queue(run)[0] in Gone(run)
    ensures cell.hash in s.cg.cs && Shrunk(s, cell, Gone(run), Again(run) * C.RejectedBy(s.cg, cell), t)
    ensures SleetOk(t) && AcceptStep(s, cell.hash, t) && Ended(s, cell, ok, run)
  {
    hide Sweepable, Sweeping, Shrunk, SleetOk, AcceptStep, Fair, Finished, Stuck, SweptInFull, Gone, Queue, Progeny;
    SweepingParts(s, cell, run, t);
    SweepOver(C.RejectedBy(s.cg, cell), ok, run);
    OrderlyOutcome(s.dag.inv, C.RejectedBy(s.cg, cell), run);
    ShrinkKeepsOk(s, cell, Gone(run), Again(run) * C.RejectedBy(s.cg, cell), t);
    ShrunkIsStep(s, cell, Gone(run), Again(run) * C.RejectedBy(s.cg, cell), t);
  }

  lemma SweepingParts(s: SleetValue, cell: Cell, run: Sweep, t: SleetValue)
    requires Sweepable(s, cell) && Sweeping(s, cell, run, Again(run), t)
    ensures SleetOk(s) && RejectedInDag(s, cell)
    ensures cell.hash in s.cg.cs && Shrunk(s, cell, Gone(run), Again(run) * C.RejectedBy(s.cg, cell), t)
    ensures cell.hash in s.cg.cells && s.cg.cells[cell.hash] == cell
    ensures Closed(s.dag.inv) && C.RejectedBy(s.cg, cell) <= s.dag.inv.Keys
    ensures Fair(s.dag.inv, C.RejectedBy(s.cg, cell), run) && C.RejectedBy(s.cg, cell) <= Gone(run)
  {
    hide SleetOk, C.ConflictSound, DagOk, Fair, Gone, Shrunk, SweptTo, C.RejectedBy, Again;
    var rejected := C.RejectedBy(s.cg, cell);
    SweepableFacts(s, cell);
    SweepInside(s.dag.inv, rejected, run);
    MetAgain(s.dag.g, s.dag.inv, rejected, run);
    SweptShrunk(s, cell, Gone(run), Again(run), t);
  }

  lemma SweepableFacts(s: SleetValue, cell: Cell)
    requires Sweepable(s, cell)
    ensures DagOk(s.dag.g, s.dag.inv) && Closed(s.dag.inv) && C.RejectedBy(s.cg, cell) <= s.dag.inv.Keys
    ensures cell.hash in s.cg.cs && cell.hash in s.cg.cells
  {
    SleetFacts(s);
    InverseSym(s.dag.g, s.dag.inv);
  }

  lemma SweptShrunk(s: SleetValue, cell: Cell, gone: set<Hash>, again: set<Hash>, t: SleetValue)
    requires cell.hash in s.cg.cs && SweptTo(s, cell, gone, again, t)
    requires C.RejectedBy(s.cg, cell) <= gone <= Progeny(s.dag.inv, C.RejectedBy(s.cg, cell))
    requires MetTwice(s.dag.inv, C.RejectedBy(s.cg, cell), again * C.RejectedBy(s.cg, cell))
    ensures Shrunk(s, cell, gone, again * C.RejectedBy(s.cg, cell), t)
  {
    hide Progeny, C.AcceptedCell, C.RemovedCells, C.RejectedBy, RestrictDag, ShrunkStore, MetTwice;
    var rejected := C.RejectedBy(s.cg, cell);
    assert rejected - again == rejected - again * rejected;
  }

  lemma SweepOver(rejected: set<Hash>, ok: bool, run: Sweep)
    requires rejected <= Gone(run)
    requires if ok then Queue(run) == [] else Queue(run) != [] && Queue(run)[0] in Gone(run)
    ensures (ok <==> Finished(rejected, run)) && (!ok <==> Stuck(rejected, run))
  {
  }

  // a rejection that halts

  lemma MarkMore(store: Store, order: seq<Hash>, i: nat)
    requires i < |order|
    ensures SetStatus(MarkedStore(store, Elems(order[..i]), Rejected), order[i], Rejected) ==
      MarkedStore(store, Elems(order[..i]) + {order[i]}, Rejected)
    ensures Elems(order[..i + 1]) == Elems(order[..i]) + {order[i]}
  {
    assert order[..i + 1] == order[..i] + [order[i]];
  }

  lemma HaltFacts(s: SleetValue, cell: Cell, order: seq<Hash>, i: nat, run: Sweep, children: seq<Hash>,
                  before: SleetValue, t: SleetValue)
    requires Rejecting(s, cell, order, i, run, children, before) && i < |order| && order[i] !in s.dag.g
    requires t.dag == before.dag && t.cg == before.cg && t.store == SetStatus(before.store, order[i], Rejected)
    ensures !(Elems(order) <= s.dag.g.Keys) && HaltsAt(s, cell, order, i, t)
  {
    MarkMore(s.store, order, i);
    assert order[i] in Elems(order);
    assert forall h | h in Elems(order[..i]) :: h in Elems(order);
    hide C.AcceptedCell, RestrictDag, MarkedStore, Fair, Gone, Queue, Popped, SetStatus;
  }

  /** A rejection that halts is a step if and only if every vertex still has a conflict set. */
  lemma HaltedOk(s: SleetValue, cell: Cell, order: seq<Hash>, i: nat, t: SleetValue)
    requires SleetOk(s) && cell.hash in s.store && s.store[cell.hash].cell == cell && HaltsAt(s, cell, order, i, t)
    ensures RejectedTogether(s, cell) ==> t.dag.g.Keys <= t.cg.cs.Keys
    ensures t.dag.g.Keys <= t.cg.cs.Keys ==> SleetOk(t) && AcceptStep(s, cell.hash, t)
  {
    hide *;
    var gone, rejected := HaltKeys(s, cell, order, i, t);
    if RejectedTogether(s, cell) {
      HaltNone(s, cell, order, i, t);
      assert s.dag.g.Keys - gone !! rejected;
    }
    if t.dag.g.Keys <= t.cg.cs.Keys {
      assert gone == rejected * s.dag.g.Keys;
      HaltIsStep(s, cell, order, i, t);
      AcceptStepKeepsOk(s, cell.hash, t);
    }
  }

  lemma HaltKeys(s: SleetValue, cell: Cell, order: seq<Hash>, i: nat, t: SleetValue)
    returns (gone: set<Hash>, rejected: set<Hash>)
    requires SleetOk(s) && HaltsAt(s, cell, order, i, t)
    ensures cell.hash in s.cg.cs && rejected == C.RejectedBy(s.cg, cell) && i < |order| && gone == Elems(order[..i])
    ensures gone <= rejected * s.dag.g.Keys && s.dag.g.Keys <= s.cg.cs.Keys
    ensures t.dag.g.Keys == s.dag.g.Keys - gone && t.cg.cs.Keys == s.cg.cs.Keys - rejected
  {
    SleetFacts(s);
    gone, rejected := Elems(order[..i]), C.RejectedBy(s.cg, cell);
    hide SleetOk, C.AcceptedCell, C.RejectedBy, Restrict, MarkedStore, DagOk;
    RestrictKeys(s.dag.g, s.dag.g.Keys - gone);
    AcceptedCells(s.cg, cell);
  }

  lemma HaltNone(s: SleetValue, cell: Cell, order: seq<Hash>, i: nat, t: SleetValue)
    requires HaltsAt(s, cell, order, i, t) && RejectedTogether(s, cell)
    ensures cell.hash in s.cg.cs && i < |order| && Elems(order[..i]) == C.RejectedBy(s.cg, cell) * s.dag.g.Keys
  {
    hide C.AcceptedCell, C.RejectedBy, Restrict, MarkedStore;
    NoneBefore(s.dag.g.Keys, C.RejectedBy(s.cg, cell), order, i);
  }

  lemma HaltIsStep(s: SleetValue, cell: Cell, order: seq<Hash>, i: nat, t: SleetValue)
    requires cell.hash in s.store && s.store[cell.hash].cell == cell && HaltsAt(s, cell, order, i, t)
    requires cell.hash in s.cg.cs && Elems(order[..i]) == C.RejectedBy(s.cg, cell) * s.dag.g.Keys
    ensures AcceptStep(s, cell.hash, t)
  {
    hide Halted, C.RejectedBy;
    assert HaltedClean(s, cell, order[i], t);
  }

  /** If all or none of a list are in a set, and one is not, then none before it is. */
  lemma NoneBefore(vs: set<Hash>, all: set<Hash>, order: seq<Hash>, i: nat)
    requires i < |order| && Elems(order) == all && order[i] !in vs && Elems(order[..i]) <= vs
    requires all <= vs || all !! vs
    ensures Elems(order[..i]) == all * vs
  {
    assert order[i] in Elems(order);
    assert forall h | h in Elems(order[..i]) :: h in Elems(order);
  }

  // a list of accepted transactions

  lemma AcceptStepsSnoc(s: SleetValue, hs: seq<Hash>, i: nat, between: seq<SleetValue>, t: SleetValue)
    requires i < |hs| && AcceptSteps(s, hs[..i], between) && AcceptStep(between[i], hs[i], t)
    ensures AcceptSteps(s, hs[..i + 1], between + [t])
  {
    hide AcceptStep;
    forall j | 0 <= j < i + 1 ensures AcceptStep((between + [t])[j], hs[..i + 1][j], (between + [t])[j + 1]) {
      if j < i { assert hs[..i][j] == hs[j]; }
    }
  }

  lemma CellOf(s: SleetValue, h: Hash)
    requires SleetOk(s) && h in s.store
    ensures s.store[h].cell.hash == h
  {}

  /** Each of `hs` is known, and the cells it would reject are all in the DAG or all outside. */
  ghost predicate AllTogether(s: SleetValue, hs: seq<Hash>) {
    forall h :: h in hs ==> h in s.store && RejectedTogether(s, s.store[h].cell)
  }

  lemma NoSteps(s: SleetValue, hs: seq<Hash>)
    ensures AcceptSteps(s, hs[..0], [s])
  {
  }

  ghost predicate KnownAll(s: SleetValue, hs: seq<Hash>) {
    forall h :: h in hs ==> h in s.store
  }

  /** The conflicts of `hs[..i]` have been removed, and the rejection for `hs[i]` has halted with a
      vertex left that has no conflict set. */
  ghost predicate HaltedAmong(s: SleetValue, hs: seq<Hash>, between: seq<SleetValue>, t: SleetValue) {
    && 0 < |between| <= |hs| && AcceptSteps(s, hs[..|between| - 1], between) && !(t.dag.g.Keys <= t.cg.cs.Keys)
    && var u, h := between[|between| - 1], hs[|between| - 1];
       h in u.store && exists order, k :: HaltsAt(u, u.store[h].cell, order, k, t)
  }

  lemma KnownAt(s: SleetValue, hs: seq<Hash>, i: nat)
    requires KnownAll(s, hs) && i < |hs| && SleetOk(s)
    ensures hs[i] in s.store && s.store[hs[i]].cell.hash == hs[i]
    ensures AllTogether(s, hs) ==> RejectedTogether(s, s.store[hs[i]].cell)
  {
    CellOf(s, hs[i]);
    hide RejectedTogether, SleetOk;
  }

  lemma HaltedIs(s: SleetValue, hs: seq<Hash>, between: seq<SleetValue>, i: nat, cell: Cell, t: SleetValue)
    requires i < |hs| && |between| == i + 1 && AcceptSteps(s, hs[..i], between) && !(t.dag.g.Keys <= t.cg.cs.Keys)
    requires hs[i] in between[i].store && between[i].store[hs[i]].cell == cell
    requires exists order, k :: HaltsAt(between[i], cell, order, k, t)
    ensures HaltedAmong(s, hs, between, t)
  {
    hide AcceptSteps, HaltsAt;
  }

  lemma StillAllTogether(s: SleetValue, hs: seq<Hash>, k: Hash, t: SleetValue)
    requires SleetOk(s) && AcceptStep(s, k, t) && KnownAll(s, hs)
    ensures KnownAll(t, hs) && (AllTogether(s, hs) ==> AllTogether(t, hs))
  {
    hide SleetOk, AcceptStep, RejectedTogether;
    forall h | h in hs
      ensures h in t.store && (RejectedTogether(s, s.store[h].cell) ==> RejectedTogether(t, t.store[h].cell))
    {
      StillTogether(s, k, t, h);
    }
  }

  lemma AnnouncedIs(s: SleetValue, hs: seq<Hash>, between: seq<SleetValue>, f: set<Hash>, t: SleetValue)
    requires AcceptSteps(s, hs, between) && |between| == |hs| + 1
    requires var u := between[|hs|];
      IsFrontier(u.dag.g, Acc(u.dag.g, u.cg.cs, u.store), f) && t == Pruned(u, f)
    ensures Next(s, Announce(hs), t)
  {
    hide AcceptSteps, IsFrontier, Pruned, Acc;
    assert Announced(s, hs, between, f, t);
  }

  /** Conflicts that were all in the DAG, or all outside, still are after another transaction's
      conflicts have been removed. */
  lemma StillTogether(s: SleetValue, k: Hash, t: SleetValue, h: Hash)
    requires SleetOk(s) && AcceptStep(s, k, t) && h in s.store
    ensures h in t.store && t.store[h].cell == s.store[h].cell
    ensures RejectedTogether(s, s.store[h].cell) ==> RejectedTogether(t, t.store[h].cell)
  {
    CellOf(s, h);
    var cell := s.store[k].cell;
    hide SleetOk, RejectedInDag, Shrunk, Halted;
    if x :| HaltedClean(s, cell, x, t) {
      HaltShrinks(s, cell, x, t, h);
    } else {
      var gone, again :| Shrunk(s, cell, gone, again, t);
      SweepShrinks(s, cell, gone, again, t, h);
    }
  }

  lemma SweepShrinks(s: SleetValue, cell: Cell, gone: set<Hash>, again: set<Hash>, t: SleetValue, h: Hash)
    requires Shrunk(s, cell, gone, again, t) && h in s.store && s.store[h].cell.hash == h
    ensures h in t.store && t.store[h].cell == s.store[h].cell
    ensures RejectedTogether(s, s.store[h].cell) ==> RejectedTogether(t, s.store[h].cell)
  {
    hide C.AcceptedCell, C.RemovedCells, Progeny, MetTwice, ShrunkStore, Restrict;
    StoreSame(s, cell, gone, again, t, h);
    if cell.hash in s.cg.cs {
      RestrictKeys(s.dag.g, s.dag.g.Keys - gone);
      assert t.dag.g.Keys == s.dag.g.Keys - gone;
      if h in t.cg.cs {
        StillRejectableSets(s.cg, cell, gone, h);
        hide C.RemovedCells, C.AcceptedCell;
        assert C.RejectedBy(t.cg, s.store[h].cell) <= C.RejectedBy(s.cg, s.store[h].cell) - gone;
      }
    }
  }

  lemma HaltShrinks(s: SleetValue, cell: Cell, x: Hash, t: SleetValue, h: Hash)
    requires HaltedClean(s, cell, x, t) && h in s.store && s.store[h].cell.hash == h
    ensures h in t.store && t.store[h].cell == s.store[h].cell
    ensures RejectedTogether(s, s.store[h].cell) ==> RejectedTogether(t, s.store[h].cell)
  {
    var gone := C.RejectedBy(s.cg, cell);
    assert s.dag.g.Keys - gone * s.dag.g.Keys == s.dag.g.Keys - gone;
    RestrictKeys(s.dag.g, s.dag.g.Keys - gone);
    if h in t.cg.cs {
      AcceptedLeaves(s.cg, cell, h);
      hide C.AcceptedCell, Restrict;
      assert C.RejectedBy(t.cg, s.store[h].cell) <= C.RejectedBy(s.cg, s.store[h].cell) - gone;
    }
  }

  lemma AcceptedLeaves(cg: C.ConflictState, cell: Cell, h: Hash)
    requires cell.hash in cg.cs && h in C.AcceptedCell(cg, cell).cs
    ensures h in cg.cs
    ensures C.AcceptedCell(cg, cell).cs[h].conflicts - {h} <= cg.cs[h].conflicts - {h} - C.RejectedBy(cg, cell)
  {
  }

  lemma StoreSame(s: SleetValue, cell: Cell, gone: set<Hash>, again: set<Hash>, t: SleetValue, h: Hash)
    requires Shrunk(s, cell, gone, again, t) && h in s.store
    ensures h in t.store && t.store[h].cell == s.store[h].cell
  {
    hide C.RemovedCells, C.AcceptedCell, RestrictDag, Restrict;
  }

  lemma StillRejectableSets(cg: C.ConflictState, cell: Cell, gone: set<Hash>, h: Hash)
    requires cell.hash in cg.cs && C.RejectedBy(cg, cell) <= gone
    requires h in C.RemovedCells(C.AcceptedCell(cg, cell), gone - C.RejectedBy(cg, cell)).cs
    ensures h in cg.cs
    ensures C.RemovedCells(C.AcceptedCell(cg, cell), gone - C.RejectedBy(cg, cell)).cs[h].conflicts - {h}
         <= cg.cs[h].conflicts - {h} - gone
  {}

  lemma PruneKeepsOkAny(s: SleetValue)
    requires SleetOk(s)
    ensures forall f :: SleetOk(Pruned(s, f))
  {
    forall f ensures SleetOk(Pruned(s, f)) { PruneKeepsOk(s, f); }
  }
}
