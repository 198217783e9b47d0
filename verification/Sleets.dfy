/** The consensus state of one `sleet` node as a value, its invariant, and what each actor step does
    to it (`src/sleet/sleet.rs`). Each handler is one atomic step. */
module Sleets {
  import opened Basics
  import opened Cells
  import opened Graphs
  import opened Dags
  import opened Frontiers
  import C = ConflictGraphs

  datatype TxStatus = Pending | Queried | Accepted | Rejected | Removed

  datatype Tx = Tx(parents: seq<Hash>, cell: Cell, status: TxStatus)

  /** The store of known transactions, by hash. */
  type Store = map<Hash, Tx>

  datatype SleetValue = SleetValue(dag: DagValue, cg: C.ConflictState, store: Store)

  datatype SleetError =
    | InvalidCoinbaseTransaction | MissingAncestry
    | Conflict(c: C.ConflictError) | Graph(g: GraphError)

  predicate HasStatus(store: Store, h: Hash, st: TxStatus) {
    h in store && store[h].status == st
  }

  function SetStatus(store: Store, h: Hash, st: TxStatus): Store {
    if h in store then store[h := store[h].(status := st)] else store
  }

  // acceptance

  /** Confidence alone makes a transaction final: BETA1 without conflicts, BETA2 with. */
  predicate Confident(c: C.ConflictSet) {
    (|c.conflicts| == 1 && c.cnt >= C.BETA1) || c.cnt >= C.BETA2
  }

  predicate AcceptedTx(cs: map<Hash, C.ConflictSet>, store: Store, h: Hash) {
    || HasStatus(store, h, Accepted)
    || (!HasStatus(store, h, Removed) && !HasStatus(store, h, Rejected) && h in cs && Confident(cs[h]))
  }

  /** The vertices of the DAG that are accepted when looked at alone. */
  ghost function Acc(g: Graph, cs: map<Hash, C.ConflictSet>, store: Store): set<Hash> {
    set h | h in g && AcceptedTx(cs, store, h)
  }

  /** The vertices of the DAG that are accepted together with their ancestry. */
  ghost function FinalTxs(s: SleetValue): set<Hash> {
    Final(s.dag.g, Acc(s.dag.g, s.cg.cs, s.store))
  }

  // the invariant

  /** The DAG's vertices `vs`, the cells `sets` with a conflict set and the store agree: every vertex has
      a conflict set, and every cell with a conflict set is known, under the recorded cell, and as
      removed only if its chit is 1; no vertex is rejected; the outputs of every known transaction are
      vertices of the conflict graph. */
  ghost predicate Agree(vs: set<Hash>, sets: set<Hash>, cells: map<Hash, Cell>, chits: map<Hash, u8>,
                        outputs: set<CellId>, store: Store) {
    && vs <= sets <= store.Keys
    && (forall h :: h in vs ==> h in store && store[h].status != Rejected)
    && (forall h :: h in sets && HasStatus(store, h, Removed) ==> h in chits && chits[h] == 1)
    && (forall h :: h in store ==> store[h].cell.hash == h && Produced(store[h].cell) <= outputs)
    && (forall h :: h in store && h in cells ==> cells[h] == store[h].cell)
  }

  ghost predicate Coupled(s: SleetValue) {
    && s.dag.g.Keys <= s.dag.chits.Keys
    && (forall h :: h in s.dag.chits && s.dag.chits[h] == 1 ==> h in s.store)
    && Agree(s.dag.g.Keys, s.cg.cs.Keys, s.cg.cells, s.dag.chits, s.cg.vertices.Keys, s.store)
  }

  ghost predicate SleetOk(s: SleetValue) {
    DagOk(s.dag.g, s.dag.inv) && C.ConflictSound(s.cg) && Coupled(s)
  }

  // receiving a transaction

  predicate HasParents(g: Graph, store: Store, parents: seq<Hash>) {
    forall p :: p in parents ==> p in g || HasStatus(store, p, Accepted)
  }

  function RemoveAcceptedParents(store: Store, parents: seq<Hash>): (r: seq<Hash>)
    ensures forall p :: p in r <==> p in parents && !HasStatus(store, p, Accepted)
  {
    if parents == [] then []
    else if HasStatus(store, parents[0], Accepted) then RemoveAcceptedParents(store, parents[1..])
    else [parents[0]] + RemoveAcceptedParents(store, parents[1..])
  }

  /** A transaction that would be inserted: new, or removed earlier because of its ancestry. */
  predicate IsNew(store: Store, h: Hash) {
    h !in store || store[h].status == Removed
  }

  /** The state after a transaction has been received and inserted. */
  ghost function Received(s: SleetValue, tx: Tx): SleetValue {
    HalfReceived(s, tx).(store := s.store[tx.cell.hash := tx.(status := Pending)])
  }

  /** The state after a transaction has been inserted in both structures, and not in the store: its
      old chit was noticed last. */
  ghost function HalfReceived(s: SleetValue, tx: Tx): SleetValue {
    s.(dag := Inserted(s.dag, tx.cell.hash, RemoveAcceptedParents(s.store, tx.parents)).0,
       cg := C.InsertedCell(s.cg, tx.cell))
  }

  /** What `on_receive_tx` answers, for every transaction, unless it panics. */
  ghost function ReceiveResult(s: SleetValue, tx: Tx): Result<bool, SleetError> {
    var h := tx.cell.hash;
    if HasCoinbaseOutput(tx.cell) then Err(InvalidCoinbaseTransaction)
    else if !IsNew(s.store, h) then Ok(false)
    else if !HasParents(s.dag.g, s.store, tx.parents) then Err(MissingAncestry)
    else if h in s.cg.cells then Err(Conflict(C.DuplicateCell))
    else if !(tx.cell.inputs <= s.cg.vertices.Keys) then Err(Conflict(C.UndefinedCell))
    else if h in s.dag.chits && s.dag.chits[h] == 1 then Err(Graph(ChitReplace))
    else Ok(true)
  }

  /** When a receipt is answered how. */
  lemma ReceiptAnswers(s: SleetValue, tx: Tx)
    ensures var h, known := tx.cell.hash, tx.cell.hash in s.store && s.store[tx.cell.hash].status != Removed;
      var coined := exists o :: o in tx.cell.outputs && o.cellType == Coinbase;
      var missing := exists p :: p in tx.parents && p !in s.dag.g && !(p in s.store && s.store[p].status == Accepted);
      var tried := !coined && !known && !missing;
      && (ReceiveResult(s, tx) == Err(InvalidCoinbaseTransaction) <==> coined)
      && (ReceiveResult(s, tx) == Ok(false) <==> !coined && known)
      && (ReceiveResult(s, tx) == Err(MissingAncestry) <==> !coined && !known && missing)
      && (ReceiveResult(s, tx) == Ok(true) <==>
          && tried && h !in s.cg.cells && tx.cell.inputs <= s.cg.vertices.Keys
          && !(h in s.dag.chits && s.dag.chits[h] == 1))
      && (ReceiveResult(s, tx) == Err(Graph(ChitReplace)) <==>
          tried && h !in s.cg.cells && tx.cell.inputs <= s.cg.vertices.Keys && h in s.dag.chits && s.dag.chits[h] == 1)
  {
  }

  /** The parent check leaves only parents that are in the DAG; and never the transaction itself, even
      when it names its own hash, unless it is in the conflict graph already. */
  lemma ParentsPresent(s: SleetValue, tx: Tx)
    requires SleetOk(s) && IsNew(s.store, tx.cell.hash) && HasParents(s.dag.g, s.store, tx.parents)
    ensures tx.cell.hash !in s.cg.cells ==> tx.cell.hash !in s.dag.g && tx.cell.hash !in tx.parents
    ensures forall p :: p in RemoveAcceptedParents(s.store, tx.parents) ==> p in s.dag.g
  {
    hide DagOk, C.KnownOutputs, C.SpendersSound, C.ConflictsSound, Produced;
  }

  /** A transaction that reaches both structures. */
  ghost predicate Admissible(s: SleetValue, tx: Tx) {
    && IsNew(s.store, tx.cell.hash) && HasParents(s.dag.g, s.store, tx.parents)
    && tx.cell.hash !in s.cg.cells && tx.cell.inputs <= s.cg.vertices.Keys && C.Joinable(s.cg, tx.cell)
  }

  ghost predicate OldChit(s: SleetValue, h: Hash) {
    h in s.dag.chits && s.dag.chits[h] == 1
  }

  ghost predicate Receivable(s: SleetValue, tx: Tx) {
    Admissible(s, tx) && !OldChit(s, tx.cell.hash)
  }

  lemma ReceivedDag(s: SleetValue, tx: Tx)
    requires SleetOk(s) && Admissible(s, tx)
    ensures var h, d := tx.cell.hash, HalfReceived(s, tx).dag;
      && DagOk(d.g, d.inv) && d.g == s.dag.g[h := RemoveAcceptedParents(s.store, tx.parents)] && h !in s.dag.g
      && d.chits == if OldChit(s, h) then s.dag.chits else s.dag.chits[h := 0]
  {
    hide SleetOk, C.Joinable, HasParents, Inserted, C.InsertedCell;
    ParentsPresent(s, tx);
    OkParts(s);
    hide DagOk;
    InsertsAdmitted(s.dag, tx.cell.hash, RemoveAcceptedParents(s.store, tx.parents));
  }

  lemma InsertsAdmitted(d: DagValue, h: Hash, parents: seq<Hash>)
    requires DagOk(d.g, d.inv) && h !in d.g && forall p :: p in parents ==> p in d.g
    ensures var e := Inserted(d, h, parents).0;
      && DagOk(e.g, e.inv) && e.g == d.g[h := parents]
      && e.chits == if h in d.chits && d.chits[h] == 1 then d.chits else d.chits[h := 0]
  {
    hide Inserted, Acyclic, Inverse;
    InsertKeepsDag(d, h, parents);
    if h in d.chits && d.chits[h] == 1 { InsertHalts(d, h, parents); } else { InsertSucceeds(d, h, parents); }
  }

  /** Receiving keeps the invariant. */
  lemma ReceiveKeepsOk(s: SleetValue, tx: Tx)
    requires SleetOk(s) && Receivable(s, tx)
    ensures SleetOk(Received(s, tx))
  {
    OkParts(s);
    ReceivableParts(s, tx);
    ReceivedParts(s, tx);
    hide *;
    ReceivedDag(s, tx);
    C.InsertKeepsSound(s.cg, tx.cell);
    C.InsertedShape(s.cg, tx.cell);
    CoupledReceived(s, tx, Received(s, tx));
    OkWhen(Received(s, tx));
  }

  lemma OkParts(s: SleetValue)
    requires SleetOk(s)
    ensures DagOk(s.dag.g, s.dag.inv) && C.ConflictSound(s.cg) && Coupled(s)
  {
    hide DagOk, C.ConflictSound, Coupled;
  }

  lemma OkWhen(s: SleetValue)
    requires DagOk(s.dag.g, s.dag.inv) && C.ConflictSound(s.cg) && Coupled(s)
    ensures SleetOk(s)
  {
    hide DagOk, C.ConflictSound, Coupled;
  }

  lemma ReceivableParts(s: SleetValue, tx: Tx)
    ensures Receivable(s, tx) <==> Admissible(s, tx) && !OldChit(s, tx.cell.hash)
    ensures Admissible(s, tx) ==>
      && IsNew(s.store, tx.cell.hash) && tx.cell.hash !in s.cg.cells
      && tx.cell.inputs <= s.cg.vertices.Keys && C.Joinable(s.cg, tx.cell)
  {
    hide HasParents, C.Joinable;
  }

  lemma ReceivedParts(s: SleetValue, tx: Tx)
    ensures HalfReceived(s, tx).cg == C.InsertedCell(s.cg, tx.cell) && HalfReceived(s, tx).store == s.store
    ensures Received(s, tx) == HalfReceived(s, tx).(store := s.store[tx.cell.hash := tx.(status := Pending)])
  {
    hide Inserted, C.InsertedCell;
  }

  lemma CoupledReceived(s: SleetValue, tx: Tx, t: SleetValue)
    requires Coupled(s) && tx.cell.hash !in s.cg.cells && t.dag.g.Keys == s.dag.g.Keys + {tx.cell.hash}
    requires t.dag.chits == s.dag.chits[tx.cell.hash := 0] && t.store == s.store[tx.cell.hash := tx.(status := Pending)]
    requires t.cg.cs.Keys == s.cg.cs.Keys + {tx.cell.hash} && t.cg.cells == s.cg.cells[tx.cell.hash := tx.cell]
    requires t.cg.vertices.Keys == s.cg.vertices.Keys + Produced(tx.cell)
    ensures Coupled(t)
  {
    AgreeReceived(s.dag.g.Keys, s.cg.cs.Keys, s.cg.cells, s.dag.chits, s.cg.vertices.Keys, s.store, tx);
    hide Agree, Produced;
  }

  /** So does a receipt that fails half-way on an old chit: the vertex is in the DAG and has a conflict
      set, and the store still says removed. */
  lemma HalfReceiveKeepsOk(s: SleetValue, tx: Tx)
    requires SleetOk(s) && Admissible(s, tx) && OldChit(s, tx.cell.hash)
    requires tx.cell.hash in s.store ==> s.store[tx.cell.hash].cell == tx.cell
    ensures var h, t := tx.cell.hash, HalfReceived(s, tx);
      SleetOk(t) && h in t.dag.g && h in t.cg.cs && HasStatus(t.store, h, Removed)
  {
    OkParts(s);
    ReceivableParts(s, tx);
    ReceivedParts(s, tx);
    hide *;
    ReceivedDag(s, tx);
    C.InsertKeepsSound(s.cg, tx.cell);
    C.InsertedShape(s.cg, tx.cell);
    CoupledHalfReceived(s, tx, HalfReceived(s, tx));
    OkWhen(HalfReceived(s, tx));
  }

  lemma CoupledHalfReceived(s: SleetValue, tx: Tx, t: SleetValue)
    requires Coupled(s) && tx.cell.hash !in s.cg.cells && t.dag.g.Keys == s.dag.g.Keys + {tx.cell.hash}
    requires OldChit(s, tx.cell.hash) && IsNew(s.store, tx.cell.hash) && t.dag.chits == s.dag.chits
    requires t.store == s.store
    requires tx.cell.hash in s.store ==> s.store[tx.cell.hash].cell == tx.cell
    requires t.cg.cs.Keys == s.cg.cs.Keys + {tx.cell.hash} && t.cg.cells == s.cg.cells[tx.cell.hash := tx.cell]
    requires t.cg.vertices.Keys == s.cg.vertices.Keys + Produced(tx.cell)
    ensures Coupled(t) && HasStatus(t.store, tx.cell.hash, Removed)
  {
    hide Produced;
  }

  /** And one that fails on an unknown input: the cell is recorded without a conflict set. */
  lemma FailedInsertKeepsOk(s: SleetValue, cell: Cell, done: set<CellId>)
    requires SleetOk(s) && cell.hash !in s.cg.cells && done <= cell.inputs
    requires cell.hash in s.store ==> s.store[cell.hash].cell == cell
    ensures SleetOk(s.(cg := C.HalfInserted(s.cg, cell, done)))
  {
    C.HalfInsertKeepsSound(s.cg, cell, done);
    hide DagOk, C.ConflictSound, Produced;
  }

  /** A receipt keeps an exact conflict graph exact if and only if nothing present spends an output of
      the new cell. */
  lemma ReceiveKeepsExact(s: SleetValue, tx: Tx)
    requires Admissible(s, tx) && C.ConflictOk(s.cg)
    ensures C.ConflictOk(HalfReceived(s, tx).cg) <==> C.ProducesUnspent(s.cg, tx.cell)
  {
    C.InsertKeepsExact(s.cg, tx.cell);
  }

  lemma NewIsAbsent(s: SleetValue, h: Hash)
    requires SleetOk(s) && h !in s.cg.cells
    ensures h !in s.cg.cs && h !in s.dag.g
  {
    hide DagOk, Produced, C.KnownOutputs, C.SpendersSound, C.ConflictsSound;
  }

  lemma AgreeReceived(vs: set<Hash>, sets: set<Hash>, cells: map<Hash, Cell>, chits: map<Hash, u8>,
                      outputs: set<CellId>, store: Store, tx: Tx)
    requires Agree(vs, sets, cells, chits, outputs, store) && tx.cell.hash !in cells
    ensures Agree(vs + {tx.cell.hash}, sets + {tx.cell.hash}, cells[tx.cell.hash := tx.cell], chits[tx.cell.hash := 0],
                  outputs + Produced(tx.cell), store[tx.cell.hash := tx.(status := Pending)])
  {}

  // query outcomes

  ghost function UpdatedSets(cs: map<Hash, C.ConflictSet>, hs: set<Hash>, inv: Graph, chits: map<Hash, u8>)
    : map<Hash, C.ConflictSet>
  {
    map k | k in cs ::
      if k in hs then
        C.UpdatedSet(cs[k], k, ConvictionOf(inv, chits, k), ConvictionOf(inv, chits, cs[k].pref))
      else cs[k]
  }

  ghost function ResetSets(cs: map<Hash, C.ConflictSet>, hs: set<Hash>): map<Hash, C.ConflictSet> {
    map k | k in cs :: if k in hs then cs[k].(cnt := 0) else cs[k]
  }

  ghost function MarkedStore(store: Store, hs: set<Hash>, st: TxStatus): Store {
    map h | h in store :: if h in hs then store[h].(status := st) else store[h]
  }

  /** The vertices that become accepted when `h` and its ancestry are checked. */
  ghost function NewlyFinal(s: SleetValue, h: Hash): set<Hash> {
    set t | t in Reach(s.dag.g, h) && t in FinalTxs(s) && !HasStatus(s.store, t, Accepted)
  }

  /** A successful query on `h`: its chit, the preferences and counters of its ancestry. */
  ghost function Counted(s: SleetValue, h: Hash): SleetValue {
    var chits := s.dag.chits[h := 1];
    s.(dag := s.dag.(chits := chits),
       cg := s.cg.(cs := UpdatedSets(s.cg.cs, Reach(s.dag.g, h), s.dag.inv, chits)))
  }

  ghost function Checked(s: SleetValue, h: Hash): SleetValue {
    s.(store := MarkedStore(s.store, NewlyFinal(s, h), Accepted))
  }

  /** The whole step: count, accept what became final, mark the transaction as queried. */
  ghost function QuerySucceeded(s: SleetValue, h: Hash): SleetValue {
    var c := Checked(Counted(s, h), h);
    c.(store := SetStatus(c.store, h, Queried))
  }

  ghost function QueryFailed(s: SleetValue, h: Hash): SleetValue {
    s.(cg := s.cg.(cs := ResetSets(s.cg.cs, Reach(s.dag.g, h))), store := SetStatus(s.store, h, Queried))
  }

  /** The convictions needed to count the vote exist and fit in a byte. */
  ghost predicate Countable(s: SleetValue, h: Hash) {
    var chits := s.dag.chits[h := 1];
    forall a :: a in Reach(s.dag.g, h) && a in s.cg.cs ==>
      && s.cg.cs[a].pref in s.dag.inv
      && ConvictionOf(s.dag.inv, chits, a) <= 255
      && ConvictionOf(s.dag.inv, chits, s.cg.cs[a].pref) <= 255
  }

  /** Marking final transactions as accepted changes nothing about acceptance. */
  lemma MarkingKeepsAcc(s: SleetValue, marks: set<Hash>)
    requires marks <= FinalTxs(s)
    ensures Acc(s.dag.g, s.cg.cs, MarkedStore(s.store, marks, Accepted)) == Acc(s.dag.g, s.cg.cs, s.store)
  {
    var g, cs, store' := s.dag.g, s.cg.cs, MarkedStore(s.store, marks, Accepted);
    forall h | h in g ensures AcceptedTx(cs, store', h) <==> AcceptedTx(cs, s.store, h) {
      if h in marks {
        ReachSelf(g, h);
        assert h in Acc(g, cs, s.store);
      }
    }
  }

  /** Right after the check every ancestor of a newly accepted transaction is marked accepted. */
  lemma AncestorsMarked(s: SleetValue, h: Hash, t: Hash, a: Hash)
    requires SleetOk(s) && t in NewlyFinal(s, h) && a in Reach(s.dag.g, t)
    ensures HasStatus(Checked(s, h).store, a, Accepted)
  {
    ReachSubset(s.dag.g, h, t);
    FinalClosed(s.dag.g, Acc(s.dag.g, s.cg.cs, s.store), t);
  }

  /** Only statuses differ, and the new ones say accepted or queried. */
  ghost predicate StoreAdvanced(store: Store, store': Store) {
    && store'.Keys == store.Keys
    && forall h :: h in store ==>
         store'[h] in {store[h], store[h].(status := Accepted), store[h].(status := Queried)}
  }

  /** Chits are set for known transactions only, and none is withdrawn. */
  ghost predicate ChitsAdvanced(chits: map<Hash, u8>, chits': map<Hash, u8>, store: Store) {
    && chits.Keys <= chits'.Keys && (forall h :: h in chits && chits[h] == 1 ==> chits'[h] == 1)
    && (forall h :: h in chits' && chits'[h] == 1 ==> h in store)
  }

  lemma AgreeAdvanced(vs: set<Hash>, sets: set<Hash>, cells: map<Hash, Cell>, chits: map<Hash, u8>,
                      outputs: set<CellId>, store: Store, chits': map<Hash, u8>, store': Store)
    requires Agree(vs, sets, cells, chits, outputs, store)
    requires StoreAdvanced(store, store') && ChitsAdvanced(chits, chits', store)
    ensures Agree(vs, sets, cells, chits', outputs, store')
  {}

  lemma AdvanceKeepsOk(s: SleetValue, chits: map<Hash, u8>, cs: map<Hash, C.ConflictSet>, store: Store)
    requires SleetOk(s) && ChitsAdvanced(s.dag.chits, chits, s.store)
    requires C.SameMembers(s.cg.cs, cs) && StoreAdvanced(s.store, store)
    ensures SleetOk(SleetValue(s.dag.(chits := chits), s.cg.(cs := cs), store))
  {
    C.SameMembersKeepsSound(s.cg, cs);
    AgreeAdvanced(s.dag.g.Keys, s.cg.cs.Keys, s.cg.cells, s.dag.chits, s.cg.vertices.Keys, s.store, chits, store);
  }

  lemma UpdateKeepsMembers(cs: map<Hash, C.ConflictSet>, hs: set<Hash>, inv: Graph, chits: map<Hash, u8>)
    ensures C.SameMembers(cs, UpdatedSets(cs, hs, inv, chits)) && C.SameMembers(cs, ResetSets(cs, hs))
  {}

  lemma CountKeepsOk(s: SleetValue, h: Hash)
    requires SleetOk(s) && h in s.store
    ensures SleetOk(Counted(s, h))
  {
    var c := Counted(s, h);
    UpdateKeepsMembers(s.cg.cs, Reach(s.dag.g, h), s.dag.inv, c.dag.chits);
    AdvanceKeepsOk(s, c.dag.chits, c.cg.cs, s.store);
  }

  lemma AdvanceStoreKeepsOk(s: SleetValue, store: Store)
    requires SleetOk(s) && StoreAdvanced(s.store, store)
    ensures SleetOk(s.(store := store))
  {
    AdvanceKeepsOk(s, s.dag.chits, s.cg.cs, store);
  }

  lemma CheckKeepsOk(s: SleetValue, h: Hash)
    requires SleetOk(s)
    ensures SleetOk(Checked(s, h))
  {
    AdvanceStoreKeepsOk(s, MarkedStore(s.store, NewlyFinal(s, h), Accepted));
  }

  lemma QuerySuccessKeepsOk(s: SleetValue, h: Hash)
    requires SleetOk(s) && h in s.store
    ensures SleetOk(QuerySucceeded(s, h))
  {
    CountKeepsOk(s, h);
    var d := Checked(Counted(s, h), h);
    CheckKeepsOk(Counted(s, h), h);
    AdvanceStoreKeepsOk(d, SetStatus(d.store, h, Queried));
  }

  lemma QueryFailureKeepsOk(s: SleetValue, h: Hash)
    requires SleetOk(s)
    ensures SleetOk(QueryFailed(s, h))
  {
    var cs := ResetSets(s.cg.cs, Reach(s.dag.g, h));
    UpdateKeepsMembers(s.cg.cs, Reach(s.dag.g, h), s.dag.inv, s.dag.chits);
    AdvanceKeepsOk(s, s.dag.chits, cs, SetStatus(s.store, h, Queried));
  }

  // accepted transactions

  ghost function RestrictDag(d: DagValue, keep: set<Hash>): DagValue {
    DagValue(Restrict(d.g, keep), Restrict(d.inv, keep), d.chits)
  }

  ghost predicate RejectedInDag(s: SleetValue, cell: Cell) {
    cell.hash in s.cg.cs ==> C.RejectedBy(s.cg, cell) <= s.dag.g.Keys
  }

  /** Transactions in `gone` are now removed, those in `rejected` rejected; the others are as they were. */
  ghost function ShrunkStore(store: Store, gone: set<Hash>, rejected: set<Hash>): Store {
    map h | h in store ::
      if h !in gone then store[h] else store[h].(status := if h in rejected then Rejected else Removed)
  }

  /** At most one rejected vertex, and only one that is a child of another rejected vertex. */
  ghost predicate MetTwice(inv: Graph, rejected: set<Hash>, again: set<Hash>) {
    && again <= rejected && |again| <= 1
    && forall r :: r in again ==> exists u :: u in rejected && u != r && Edge(inv, u, r)
  }

  /** What `remove_conflicts` for `cell` leaves, when `gone` is what it took out of the DAG: the rejected
      cells are marked rejected, and removed only if they were queued `again`, as a child, and met there;
      everything else that is gone is marked removed. */
  ghost predicate Shrunk(s: SleetValue, cell: Cell, gone: set<Hash>, again: set<Hash>, t: SleetValue) {
    if cell.hash in s.cg.cs then
      var rejected := C.RejectedBy(s.cg, cell);
      && rejected <= gone <= Progeny(s.dag.inv, rejected) && MetTwice(s.dag.inv, rejected, again)
      && t.dag == RestrictDag(s.dag, s.dag.g.Keys - gone)
      && t.cg == C.RemovedCells(C.AcceptedCell(s.cg, cell), gone - rejected)
      && t.store == ShrunkStore(s.store, gone, rejected - again)
    else
      gone == {} == again && t == s.(cg := C.WithStatus(s.cg, Produced(cell), C.OutputStatus.Accepted))
  }

  lemma ShrinkKeepsOk(s: SleetValue, cell: Cell, gone: set<Hash>, again: set<Hash>, t: SleetValue)
    requires SleetOk(s) && RejectedInDag(s, cell) && Shrunk(s, cell, gone, again, t)
    requires cell.hash in s.cg.cells ==> s.cg.cells[cell.hash] == cell
    ensures SleetOk(t)
  {
    if cell.hash in s.cg.cs {
      var rejected := C.RejectedBy(s.cg, cell);
      RestrictKeepsDag(s.dag.g, s.dag.inv, s.dag.g.Keys - gone);
      C.AcceptFacts(s.cg, cell);
      C.RemoveKeepsSound(C.AcceptedCell(s.cg, cell), gone - rejected);
      ShrinkKeepsCoupled(s, cell, gone, again, t);
    } else {
      C.AcceptFacts(s.cg, cell);
    }
  }

  lemma ShrinkKeepsCoupled(s: SleetValue, cell: Cell, gone: set<Hash>, again: set<Hash>, t: SleetValue)
    requires Coupled(s) && cell.hash in s.cg.cs && cell.hash in s.cg.cs[cell.hash].conflicts
    requires Shrunk(s, cell, gone, again, t)
    ensures Coupled(t)
  {
    ShrunkCells(s.cg, cell, gone);
    RestrictKeys(s.dag.g, s.dag.g.Keys - gone);
    hide C.RemovedCells, C.AcceptedCell, C.RejectedBy, Restrict, Progeny, MetTwice;
    AgreeShrunk(s.dag.g.Keys, s.cg.cs.Keys, s.cg.cells, s.dag.chits, s.cg.vertices.Keys, s.store, gone,
                C.RejectedBy(s.cg, cell) - again);
  }

  lemma ShrunkCells(cg: C.ConflictState, cell: Cell, gone: set<Hash>)
    requires cell.hash in cg.cs && C.RejectedBy(cg, cell) <= gone
    ensures var t := C.RemovedCells(C.AcceptedCell(cg, cell), gone - C.RejectedBy(cg, cell));
      t.cells == cg.cells - gone && t.vertices.Keys == cg.vertices.Keys && t.cs.Keys == cg.cs.Keys - gone
  {
    var rejected := C.RejectedBy(cg, cell);
    assert cg.cells - rejected - (gone - rejected) == cg.cells - gone;
  }

  lemma AgreeShrunk(vs: set<Hash>, sets: set<Hash>, cells: map<Hash, Cell>, chits: map<Hash, u8>,
                    outputs: set<CellId>, store: Store, gone: set<Hash>, rejected: set<Hash>)
    requires Agree(vs, sets, cells, chits, outputs, store)
    ensures Agree(vs - gone, sets - gone, cells - gone, chits, outputs, ShrunkStore(store, gone, rejected))
  {}

  /** What `remove_conflicts` leaves when it meets a rejected cell `x` that is not in the DAG: the
      conflict graph has lost all rejected cells, the DAG only `gone`, those met before. */
  ghost predicate Halted(s: SleetValue, cell: Cell, gone: set<Hash>, x: Hash, t: SleetValue) {
    && cell.hash in s.cg.cs && gone <= C.RejectedBy(s.cg, cell) * s.dag.g.Keys
    && x in C.RejectedBy(s.cg, cell) && x !in s.dag.g
    && t.dag == RestrictDag(s.dag, s.dag.g.Keys - gone)
    && t.cg == C.AcceptedCell(s.cg, cell)
    && t.store == MarkedStore(s.store, gone + {x}, Rejected)
  }

  /** Then the invariant is kept if and only if no rejected cell is left in the DAG. */
  lemma HaltKeepsOk(s: SleetValue, cell: Cell, gone: set<Hash>, x: Hash, t: SleetValue)
    requires SleetOk(s) && Halted(s, cell, gone, x, t)
    requires cell.hash in s.cg.cells ==> s.cg.cells[cell.hash] == cell
    ensures SleetOk(t) <==> C.RejectedBy(s.cg, cell) * s.dag.g.Keys <= gone
  {
    var rejected, left := C.RejectedBy(s.cg, cell), s.dag.g.Keys - gone;
    OkParts(s);
    HaltedParts(s, cell, gone, x, t);
    hide *;
    RestrictKeepsDag(s.dag.g, s.dag.inv, left);
    C.AcceptFacts(s.cg, cell);
    AcceptedCells(s.cg, cell);
    RestrictKeys(s.dag.g, left);
    CoupledHalted(s, rejected, gone, x, t);
    if rejected * s.dag.g.Keys <= gone { OkWhen(t); }
    if SleetOk(t) { OkParts(t); }
  }

  lemma HaltedParts(s: SleetValue, cell: Cell, gone: set<Hash>, x: Hash, t: SleetValue)
    requires Halted(s, cell, gone, x, t)
    ensures cell.hash in s.cg.cs && gone <= s.dag.g.Keys && x !in s.dag.g && t.dag.chits == s.dag.chits
    ensures t.dag.g == Restrict(s.dag.g, s.dag.g.Keys - gone) && t.dag.inv == Restrict(s.dag.inv, s.dag.g.Keys - gone)
    ensures t.cg == C.AcceptedCell(s.cg, cell) && t.store == MarkedStore(s.store, gone + {x}, Rejected)
  {
    hide Restrict, C.AcceptedCell, C.RejectedBy, MarkedStore;
  }

  lemma CoupledHalted(s: SleetValue, rejected: set<Hash>, gone: set<Hash>, x: Hash, t: SleetValue)
    requires Coupled(s) && x !in s.dag.g && gone <= s.dag.g.Keys && t.dag.g.Keys == s.dag.g.Keys - gone
    requires t.dag.chits == s.dag.chits && t.store == MarkedStore(s.store, gone + {x}, Rejected)
    requires t.cg.cs.Keys == s.cg.cs.Keys - rejected && t.cg.cells == s.cg.cells - rejected
    requires t.cg.vertices.Keys == s.cg.vertices.Keys
    ensures Coupled(t) <==> rejected * s.dag.g.Keys <= gone
  {
    if rejected * s.dag.g.Keys <= gone {
      AgreeHalted(s.dag.g.Keys, s.cg.cs.Keys, s.cg.cells, s.dag.chits, s.cg.vertices.Keys, s.store, rejected, gone, x);
    } else {
      var r :| r in rejected * s.dag.g.Keys && r !in gone;
      assert r in t.dag.g && r !in t.cg.cs;
    }
  }

  lemma RestrictKeys(g: Graph, keep: set<Hash>)
    requires keep <= g.Keys
    ensures Restrict(g, keep).Keys == keep
  {
  }

  lemma AcceptedCells(cg: C.ConflictState, cell: Cell)
    requires cell.hash in cg.cs
    ensures C.AcceptedCell(cg, cell).cells == cg.cells - C.RejectedBy(cg, cell)
    ensures C.AcceptedCell(cg, cell).cs.Keys == cg.cs.Keys - C.RejectedBy(cg, cell)
    ensures C.AcceptedCell(cg, cell).vertices.Keys == cg.vertices.Keys
  {
    hide Produced;
  }

  lemma AgreeHalted(vs: set<Hash>, sets: set<Hash>, cells: map<Hash, Cell>, chits: map<Hash, u8>,
                    outputs: set<CellId>, store: Store, rejected: set<Hash>, gone: set<Hash>, x: Hash)
    requires Agree(vs, sets, cells, chits, outputs, store) && rejected * vs <= gone && x !in vs
    ensures Agree(vs - gone, sets - rejected, cells - rejected, chits, outputs,
                  MarkedStore(store, gone + {x}, Rejected))
  {
  }

  /** The order in which the rejected cells are listed, up to the first that is not in the DAG. */
  ghost predicate HaltsAt(s: SleetValue, cell: Cell, order: seq<Hash>, i: nat, t: SleetValue) {
    && cell.hash in s.cg.cs && Distinct(order) && Elems(order) == C.RejectedBy(s.cg, cell) && i < |order|
    && Elems(order[..i]) <= s.dag.g.Keys && Halted(s, cell, Elems(order[..i]), order[i], t)
  }

  /** The rejected cells are all in the DAG, or all outside. */
  ghost predicate RejectedTogether(s: SleetValue, cell: Cell) {
    cell.hash in s.cg.cs ==>
      C.RejectedBy(s.cg, cell) <= s.dag.g.Keys || C.RejectedBy(s.cg, cell) !! s.dag.g.Keys
  }

  /** Whatever the order, halting keeps the invariant if and only if the rejected cells are all in the
      DAG, so that there is no halting, or all outside. */
  lemma HaltExact(s: SleetValue, cell: Cell)
    requires SleetOk(s) && (cell.hash in s.cg.cells ==> s.cg.cells[cell.hash] == cell)
    ensures RejectedTogether(s, cell) <==> forall order, i, t | HaltsAt(s, cell, order, i, t) :: SleetOk(t)
  {
    hide SleetOk;
    if RejectedTogether(s, cell) {
      forall order, i, t | HaltsAt(s, cell, order, i, t) ensures SleetOk(t) {
        HaltKeepsOk(s, cell, Elems(order[..i]), order[i], t);
      }
    } else {
      var rejected := C.RejectedBy(s.cg, cell);
      var x, r :| x in rejected && x !in s.dag.g && r in rejected && r in s.dag.g;
      var order, t := BadHalt(s, cell, x, r);
    }
  }

  /** When `x`, which is outside the DAG, is met first, `r` is left there without a conflict set. */
  lemma BadHalt(s: SleetValue, cell: Cell, x: Hash, r: Hash) returns (order: seq<Hash>, t: SleetValue)
    requires SleetOk(s) && (cell.hash in s.cg.cells ==> s.cg.cells[cell.hash] == cell) && cell.hash in s.cg.cs
    requires x in C.RejectedBy(s.cg, cell) && r in C.RejectedBy(s.cg, cell) && x !in s.dag.g && r in s.dag.g
    ensures HaltsAt(s, cell, order, 0, t) && !SleetOk(t)
    ensures DagOk(t.dag.g, t.dag.inv) && r in t.dag.g && r !in t.cg.cs
    ensures r in s.store ==> r in t.store && t.store[r] == s.store[r]
  {
    hide SleetOk, DagOk, Restrict, C.AcceptedCell, C.RejectedBy;
    var rejected := C.RejectedBy(s.cg, cell);
    order := ListFirst(rejected, x);
    t := SleetValue(RestrictDag(s.dag, s.dag.g.Keys - {}), C.AcceptedCell(s.cg, cell),
                    MarkedStore(s.store, {} + {x}, Rejected));
    assert order[..0] == [] && Elems(order[..0]) == {};
    assert HaltsAt(s, cell, order, 0, t);
    HaltKeepsOk(s, cell, {}, x, t);
    OkParts(s);
    RestrictKeepsDag(s.dag.g, s.dag.inv, s.dag.g.Keys - {});
    RestrictKeys(s.dag.g, s.dag.g.Keys - {});
    AcceptedCells(s.cg, cell);
  }

  /** A vertex without a conflict set and with an open status is looked at by every search for the
      frontier: it is reachable from a leaf, and above no transaction found final. */
  lemma LeftIsMet(s: SleetValue, r: Hash, f: set<Hash>) returns (leaf: Hash)
    requires DagOk(s.dag.g, s.dag.inv) && r in s.dag.g && r !in s.cg.cs && f <= FinalTxs(s)
    requires HasStatus(s.store, r, Pending) || HasStatus(s.store, r, Queried)
    ensures leaf in s.dag.g && s.dag.inv[leaf] == [] && Reaches(s.dag.g, leaf, r)
    ensures r !in ReachAll(s.dag.g, f)
  {
    leaf := LeafAbove(s.dag.g, s.dag.inv, r);
    assert r !in Acc(s.dag.g, s.cg.cs, s.store);
    forall u | u in f ensures !Reaches(s.dag.g, u, r) { ReachMember(s.dag.g, u, r); }
  }

  /** `between[i]` is the state after the conflicts of the first `i` transactions have been removed. */
  ghost predicate AcceptSteps(s: SleetValue, hs: seq<Hash>, between: seq<SleetValue>) {
    && |between| == |hs| + 1 && between[0] == s
    && forall i :: 0 <= i < |hs| ==> AcceptStep(between[i], hs[i], between[i + 1])
  }

  /** One accepted transaction: its conflicts are swept out, or the rejection halts with none left. */
  ghost predicate AcceptStep(s: SleetValue, h: Hash, t: SleetValue) {
    h in s.store &&
    var cell := s.store[h].cell;
    || (RejectedInDag(s, cell) && exists gone, again :: Shrunk(s, cell, gone, again, t))
    || (exists x :: HaltedClean(s, cell, x, t))
  }

  ghost predicate HaltedClean(s: SleetValue, cell: Cell, x: Hash, t: SleetValue) {
    cell.hash in s.cg.cs && Halted(s, cell, C.RejectedBy(s.cg, cell) * s.dag.g.Keys, x, t)
  }

  lemma ShrunkIsStep(s: SleetValue, cell: Cell, gone: set<Hash>, again: set<Hash>, t: SleetValue)
    requires cell.hash in s.store && s.store[cell.hash].cell == cell && RejectedInDag(s, cell)
    requires Shrunk(s, cell, gone, again, t)
    ensures AcceptStep(s, cell.hash, t)
  {
    hide RejectedInDag, Shrunk;
  }

  lemma AcceptStepKeepsOk(s: SleetValue, h: Hash, t: SleetValue)
    requires SleetOk(s) && AcceptStep(s, h, t)
    ensures SleetOk(t)
  {
    var cell := s.store[h].cell;
    assert cell.hash in s.cg.cells ==> s.cg.cells[cell.hash] == cell;
    hide SleetOk, Shrunk, Halted;
    if x :| HaltedClean(s, cell, x, t) {
      HaltKeepsOk(s, cell, C.RejectedBy(s.cg, cell) * s.dag.g.Keys, x, t);
    } else {
      var gone, again :| Shrunk(s, cell, gone, again, t);
      ShrinkKeepsOk(s, cell, gone, again, t);
    }
  }

  /** Pruning takes accepted transactions above the frontier out of the DAG, nothing else. */
  ghost function Pruned(s: SleetValue, f: set<Hash>): SleetValue {
    s.(dag := RestrictDag(s.dag, Survivors(s.dag.g, f)))
  }

  lemma PruneKeepsOk(s: SleetValue, f: set<Hash>)
    requires SleetOk(s)
    ensures SleetOk(Pruned(s, f))
  {
    RestrictKeepsDag(s.dag.g, s.dag.inv, Survivors(s.dag.g, f));
  }

  /** Pruning at a frontier is invisible to consensus: exactly the transactions that are not final,
      plus the frontier, stay; each of them is final afterwards if and only if it was before; and the
      conviction of each one that is not final is what it was. */
  lemma PruneInvisible(s: SleetValue, f: set<Hash>)
    requires DagOk(s.dag.g, s.dag.inv) && IsFrontier(s.dag.g, Acc(s.dag.g, s.cg.cs, s.store), f)
    ensures var t := Pruned(s, f);
      && t.dag.g.Keys == (s.dag.g.Keys - FinalTxs(s)) + f
      && FinalTxs(t) == FinalTxs(s) * t.dag.g.Keys
      && forall v :: v in s.dag.g && v !in FinalTxs(s) ==>
           ConvictionOf(t.dag.inv, t.dag.chits, v) == ConvictionOf(s.dag.inv, s.dag.chits, v)
  {
    var g, acc := s.dag.g, Acc(s.dag.g, s.cg.cs, s.store);
    PruneKeepsFinality(g, acc, f);
    FinalInside(Pruned(s, f).dag.g, acc, Acc(Pruned(s, f).dag.g, s.cg.cs, s.store));
    forall v | v in g && v !in FinalTxs(s)
      ensures ConvictionOf(Restrict(s.dag.inv, Survivors(g, f)), s.dag.chits, v)
           == ConvictionOf(s.dag.inv, s.dag.chits, v)
    {
      PruneKeepsConviction(g, s.dag.inv, s.dag.chits, acc, f, v);
    }
  }

  /** Only accepted vertices of the graph itself matter for finality. */
  lemma FinalInside(g: Graph, a: set<Hash>, b: set<Hash>)
    requires a * g.Keys == b * g.Keys
    ensures Final(g, a) == Final(g, b)
  {
    forall v | v in g ensures Reach(g, v) <= a <==> Reach(g, v) <= b {
      assert forall w :: w in Reach(g, v) ==> (w in a <==> w in a * g.Keys) && (w in b <==> w in b * g.Keys);
    }
  }
}
