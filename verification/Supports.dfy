/** Building runs: transactions arrive, and a transaction is made final by queries on its children.
    Used to show runs in which something goes wrong. */
module Supports {
  import opened Basics
  import opened Cells
  import opened Graphs
  import opened Dags
  import opened Frontiers
  import opened Sleets
  import opened SleetRuns
  import C = ConflictGraphs

  // a transaction arrives

  /** A new transaction whose inputs are known, whose parents are in the DAG and not accepted, and
      whose outputs nothing spends. */
  ghost predicate Fitting(s: SleetValue, tx: Tx) {
    && tx.cell.hash !in s.store && tx.status == Pending && !HasCoinbaseOutput(tx.cell)
    && tx.cell.inputs <= s.cg.vertices.Keys && C.ProducesUnspent(s.cg, tx.cell)
    && (forall p :: p in tx.parents ==> p in s.dag.g && !HasStatus(s.store, p, Accepted))
  }

  ghost predicate SameVotes(a: C.ConflictSet, b: C.ConflictSet) {
    a.pref == b.pref && a.last == b.last && a.cnt == b.cnt
  }

  ghost predicate Unconflicted(cells: map<Hash, Cell>, cell: Cell) {
    forall k :: k in cells ==> !C.Conflict(cell, cells[k])
  }

  /** What a fitting transaction changes. */
  ghost predicate Arrived(s: SleetValue, tx: Tx, t: SleetValue) {
    var h := tx.cell.hash;
    && t.dag.g == s.dag.g[h := tx.parents] && t.dag.chits == s.dag.chits[h := 0] && t.store == s.store[h := tx]
    && t.cg.cells == s.cg.cells[h := tx.cell] && t.cg.vertices.Keys == s.cg.vertices.Keys + Produced(tx.cell)
    && Joined(s.cg, tx.cell, t.cg.cs)
  }

  ghost predicate Joined(cg: C.ConflictState, cell: Cell, cs: map<Hash, C.ConflictSet>) {
    && cs.Keys == cg.cs.Keys + {cell.hash} && (forall a :: a in cg.cs ==> SameVotes(cg.cs[a], cs[a]))
    && (Unconflicted(cg.cells, cell) ==> cs == cg.cs[cell.hash := C.NewConflictSet(cell.hash)])
    && (!Unconflicted(cg.cells, cell) ==> exists a :: a in cg.cs && SameVotes(cg.cs[a], cs[cell.hash]))
  }

  lemma {:induction false} NoneDropped(store: Store, parents: seq<Hash>)
    requires forall p :: p in parents ==> !HasStatus(store, p, Accepted)
    ensures RemoveAcceptedParents(store, parents) == parents
  {
    if parents != [] { NoneDropped(store, parents[1..]); }
  }

  /** The node is in order and has recorded chits for known transactions only. */
  ghost predicate Sane(s: SleetValue) {
    SleetOk(s) && C.ConflictOk(s.cg) && s.dag.chits.Keys <= s.store.Keys
  }

  lemma FittingArrives(s: SleetValue, tx: Tx)
    requires Sane(s) && Fitting(s, tx)
    ensures Next(s, Receive(tx), Received(s, tx)) && !Spoiling(s, Receive(tx))
    ensures Sane(Received(s, tx)) && Arrived(s, tx, Received(s, tx))
  {
    hide *;
    var t := Received(s, tx);
    SaneParts(s);
    FittingParts(s, tx);
    FittingIsReceivable(s, tx);
    ReceivableParts(s, tx);
    ReceiveKeepsOk(s, tx);
    ReceiveKeepsExact(s, tx);
    ReceivedParts(s, tx);
    ReceivedDag(s, tx);
    C.InsertedShape(s.cg, tx.cell);
    InsertJoins(s.cg, tx.cell);
    ArrivedWhen(s, tx, t);
  }

  lemma SaneParts(s: SleetValue)
    ensures Sane(s) <==> SleetOk(s) && C.ConflictOk(s.cg) && s.dag.chits.Keys <= s.store.Keys
  {
    hide SleetOk, C.ConflictOk;
  }

  lemma FittingParts(s: SleetValue, tx: Tx)
    requires Fitting(s, tx)
    ensures tx.cell.hash !in s.store && tx.(status := Pending) == tx && C.ProducesUnspent(s.cg, tx.cell)
    ensures RemoveAcceptedParents(s.store, tx.parents) == tx.parents
  {
    hide C.ProducesUnspent, HasCoinbaseOutput;
    NoneDropped(s.store, tx.parents);
  }

  lemma FittingIsReceivable(s: SleetValue, tx: Tx)
    requires Sane(s) && Fitting(s, tx)
    ensures Receivable(s, tx) && !OldChit(s, tx.cell.hash) && tx.cell.hash !in s.cg.cells
    ensures Next(s, Receive(tx), Received(s, tx)) && !Spoiling(s, Receive(tx))
  {
    ExactJoinable(s.cg, tx.cell);
    CellsAreKnown(s);
    hide C.ConflictOk, SleetOk, Received, C.Joinable, C.ProducesUnspent;
  }

  lemma CellsAreKnown(s: SleetValue)
    requires SleetOk(s) && C.ConflictOk(s.cg)
    ensures s.cg.cells.Keys == s.cg.cs.Keys <= s.store.Keys
    ensures forall h :: h in s.cg.cells ==> s.store[h].cell == s.cg.cells[h]
  {
    hide DagOk, Produced, C.KnownOutputs, C.SpendersExact, C.ConflictsExact, C.ConflictSound;
  }

  lemma ExactJoinable(cg: C.ConflictState, cell: Cell)
    requires C.ConflictOk(cg)
    ensures C.Joinable(cg, cell)
  {
    C.ExactIsSound(cg);
    C.SpendersShare(cg, cell);
  }

  lemma InsertJoins(cg: C.ConflictState, cell: Cell)
    requires C.ConflictOk(cg) && cell.hash !in cg.cells && cell.inputs <= cg.vertices.Keys
    ensures Joined(cg, cell, C.InsertedCell(cg, cell).cs)
  {
    InsertVotes(cg, cell);
    if Unconflicted(cg.cells, cell) { InsertAlone(cg, cell); } else { OwnVotes(cg, cell); }
    hide C.ConflictOk, C.InsertedCell, Unconflicted, SameVotes;
  }

  lemma InsertVotes(cg: C.ConflictState, cell: Cell)
    requires C.ConflictOk(cg) && cell.hash !in cg.cells
    ensures var cs := C.InsertedCell(cg, cell).cs;
      cs.Keys == cg.cs.Keys + {cell.hash} && (forall a :: a in cg.cs ==> SameVotes(cg.cs[a], cs[a]))
  {
    assert cell.hash !in cg.cs;
    hide *;
    C.InsertedShape(cg, cell);
    forall a | a in cg.cs ensures SameVotes(cg.cs[a], C.InsertedCell(cg, cell).cs[a]) { InsertKeepsVotes(cg, cell, a); }
  }

  lemma InsertKeepsVotes(cg: C.ConflictState, cell: Cell, a: Hash)
    requires a in cg.cs && a != cell.hash
    ensures a in C.InsertedCell(cg, cell).cs && SameVotes(cg.cs[a], C.InsertedCell(cg, cell).cs[a])
  {
    hide Produced, C.SpendersOf, C.OwnSet;
  }

  lemma OwnVotes(cg: C.ConflictState, cell: Cell)
    requires C.Insertable(cg, cell) && !Unconflicted(cg.cells, cell)
    ensures cell.hash in C.InsertedCell(cg, cell).cs
    ensures exists a :: a in cg.cs && SameVotes(cg.cs[a], C.InsertedCell(cg, cell).cs[cell.hash])
  {
    var first := OldestConflict(cg, cell);
    OwnSetIs(cg, cell, first);
    hide C.Insertable, C.InsertedCell, Unconflicted, SameVotes;
  }

  lemma OldestConflict(cg: C.ConflictState, cell: Cell) returns (first: Hash)
    requires C.Insertable(cg, cell) && !Unconflicted(cg.cells, cell)
    ensures C.FirstIn(cg.order, C.SpendersOf(cg.vertices, cell.inputs)) == Some(first) && first in cg.cs
  {
    var k :| k in cg.cells && C.Conflict(cell, cg.cells[k]);
    C.SpendersAreConflicts(cg, cell, k);
    assert cg.cells.Keys == cg.cs.Keys == Elems(cg.order);
    hide C.Insertable, C.SpendersOf;
    var found := C.FirstIn(cg.order, C.SpendersOf(cg.vertices, cell.inputs));
    assert k in Elems(cg.order);
    assert found.Some?;
    first := found.value;
    assert first in Elems(cg.order);
  }

  lemma OwnSetIs(cg: C.ConflictState, cell: Cell, first: Hash)
    requires C.FirstIn(cg.order, C.SpendersOf(cg.vertices, cell.inputs)) == Some(first) && first in cg.cs
    ensures cell.hash in C.InsertedCell(cg, cell).cs && SameVotes(cg.cs[first], C.InsertedCell(cg, cell).cs[cell.hash])
  {
    hide Produced, C.SpendersOf, C.JoinSets, C.SpentBy, C.FirstIn;
  }

  lemma InsertAlone(cg: C.ConflictState, cell: Cell)
    requires C.Insertable(cg, cell) && Unconflicted(cg.cells, cell)
    ensures C.InsertedCell(cg, cell).cs == cg.cs[cell.hash := C.NewConflictSet(cell.hash)]
  {
    var conflicts := C.SpendersOf(cg.vertices, cell.inputs);
    forall k ensures k !in conflicts { C.SpendersAreConflicts(cg, cell, k); }
    assert conflicts == {} && conflicts + {cell.hash} == {cell.hash};
    hide C.Insertable, Produced, C.SpendersOf, Unconflicted;
    assert C.JoinSets(cg.cs, conflicts, cell.hash) == cg.cs;
    assert C.OwnSet(cg, cell.hash, conflicts) == C.NewConflictSet(cell.hash);
  }

  lemma ArrivedWhen(s: SleetValue, tx: Tx, t: SleetValue)
    requires var h := tx.cell.hash;
      && t.dag.g == s.dag.g[h := tx.parents] && t.dag.chits == s.dag.chits[h := 0] && t.store == s.store[h := tx]
      && t.cg.cells == s.cg.cells[h := tx.cell] && t.cg.vertices.Keys == s.cg.vertices.Keys + Produced(tx.cell)
      && Joined(s.cg, tx.cell, t.cg.cs)
    requires SleetOk(t) && C.ConflictOk(t.cg) && Sane(s)
    ensures Sane(t) && Arrived(s, tx, t)
  {
    hide SleetOk, C.ConflictOk, Joined, Produced;
  }

  // a query succeeds

  /** Convictions stay within a byte: few vertices, and chits of at most 1. */
  ghost predicate Small(s: SleetValue) {
    && |s.dag.g.Keys| <= 255 && (forall k :: k in s.dag.chits ==> s.dag.chits[k] <= 1)
    && (forall k :: k in s.cg.cs ==> s.cg.cs[k].pref in s.dag.g)
  }

  lemma {:induction false} SumAtMost(s: set<Hash>, weight: map<Hash, u8>)
    requires forall k :: k in weight ==> weight[k] <= 1
    ensures SumOver(s, weight) <= |s|
    decreases s
  {
    if s != {} {
      var x :| x in s;
      SumOverTake(s, weight, x);
      SumAtMost(s - {x}, weight);
    }
  }

  lemma ConvictionsFit(inv: Graph, chits: map<Hash, u8>)
    requires |inv.Keys| <= 255 && forall k :: k in chits ==> chits[k] <= 1
    ensures forall a :: ConvictionOf(inv, chits, a) <= 255
  {
    forall a ensures ConvictionOf(inv, chits, a) <= 255 {
      SumAtMost(Reach(inv, a), chits);
      ReachInside(inv, a);
      hide Reach;
      SubsetSize(Reach(inv, a), inv.Keys);
    }
  }

  lemma SmallIsCountable(s: SleetValue, q: Hash)
    requires SleetOk(s) && Small(s)
    ensures Countable(s, q)
  {
    hide *;
    OkParts(s);
    SameVertices(s.dag.g, s.dag.inv);
    SmallParts(s, q, s.dag.chits[q := 1]);
    ConvictionsFit(s.dag.inv, s.dag.chits[q := 1]);
    CountableWhen(s, q, s.dag.chits[q := 1]);
  }

  lemma SmallParts(s: SleetValue, q: Hash, chits: map<Hash, u8>)
    requires Small(s) && chits == s.dag.chits[q := 1]
    ensures |s.dag.g.Keys| <= 255 && forall k :: k in chits ==> chits[k] <= 1
    ensures forall k :: k in s.cg.cs ==> s.cg.cs[k].pref in s.dag.g
  {
  }

  lemma CountableWhen(s: SleetValue, q: Hash, chits: map<Hash, u8>)
    requires chits == s.dag.chits[q := 1] && s.dag.inv.Keys == s.dag.g.Keys
    requires forall k :: k in s.cg.cs ==> s.cg.cs[k].pref in s.dag.g
    requires forall a :: ConvictionOf(s.dag.inv, chits, a) <= 255
    ensures Countable(s, q)
  {
    hide ConvictionOf, Reach;
  }

  lemma SameVertices(g: Graph, inv: Graph)
    requires DagOk(g, inv)
    ensures g.Keys == inv.Keys
  {
  }

  /** What a successful vote does to one conflict set. */
  ghost predicate VotedSet(c: C.ConflictSet, a: Hash, c': C.ConflictSet) {
    && c'.conflicts == c.conflicts && c'.last == a && (c'.pref == c.pref || c'.pref == a)
    && c'.cnt == if c.last != a || c.cnt >= C.BETA2 then c.cnt else c.cnt + 1
  }

  ghost predicate Voted(s: SleetValue, q: Hash, found: set<Hash>, t: SleetValue) {
    && t.dag == s.dag.(chits := s.dag.chits[q := 1]) && t.cg.cells == s.cg.cells && t.cg.vertices == s.cg.vertices
    && t.cg.cs.Keys == s.cg.cs.Keys
    && (forall a :: a in s.cg.cs ==>
         if a in Reach(s.dag.g, q) then VotedSet(s.cg.cs[a], a, t.cg.cs[a]) else t.cg.cs[a] == s.cg.cs[a])
    && t.store.Keys == s.store.Keys
    && (forall a :: a in s.store ==>
         t.store[a] ==
           s.store[a].(status := if a == q then Queried else if a in found then Accepted else s.store[a].status))
  }

  lemma QueryVotes(s: SleetValue, q: Hash)
    requires Sane(s) && Small(s) && q in s.store && (q in s.dag.chits ==> s.dag.chits[q] != 1)
    ensures var t := QuerySucceeded(s, q);
      && Next(s, Success(q), t) && !Spoiling(s, Success(q)) && Sane(t)
      && Voted(s, q, NewlyFinal(Counted(s, q), q), t)
  {
    SaneParts(s);
    hide *;
    SmallIsCountable(s, q);
    QuerySuccessKeepsOk(s, q);
    SuccessIsNext(s, q);
    SuccessKeepsSane(s, q);
    SuccessVotes(s, q);
  }

  lemma SuccessIsNext(s: SleetValue, q: Hash)
    requires Countable(s, q) && q in s.store && (q in s.dag.chits ==> s.dag.chits[q] != 1)
    ensures Next(s, Success(q), QuerySucceeded(s, q)) && !Spoiling(s, Success(q))
  {
    hide Countable, QuerySucceeded;
  }

  lemma SuccessKeepsSane(s: SleetValue, q: Hash)
    requires Sane(s) && q in s.store && SleetOk(QuerySucceeded(s, q))
    ensures Sane(QuerySucceeded(s, q))
  {
    UpdateKeepsMembers(s.cg.cs, Reach(s.dag.g, q), s.dag.inv, s.dag.chits[q := 1]);
    hide SleetOk, C.ConflictOk, NewlyFinal, UpdatedSets;
    C.SameMembersKeepsExact(s.cg, QuerySucceeded(s, q).cg.cs);
  }

  lemma SuccessVotes(s: SleetValue, q: Hash)
    requires q in s.store
    ensures Voted(s, q, NewlyFinal(Counted(s, q), q), QuerySucceeded(s, q))
  {
    var chits := s.dag.chits[q := 1];
    VotedSets(s.cg.cs, Reach(s.dag.g, q), s.dag.inv, chits);
    hide NewlyFinal, UpdatedSets, VotedSet, Reach;
  }

  lemma VotedSets(cs: map<Hash, C.ConflictSet>, hs: set<Hash>, inv: Graph, chits: map<Hash, u8>)
    ensures var cs' := UpdatedSets(cs, hs, inv, chits);
      && cs'.Keys == cs.Keys
      && forall a :: a in cs ==> if a in hs then VotedSet(cs[a], a, cs'[a]) else cs'[a] == cs[a]
  {
    hide ConvictionOf;
  }

  // what a query finds

  ghost predicate Open(store: Store, h: Hash) {
    HasStatus(store, h, Pending) || HasStatus(store, h, Queried)
  }

  /** Nothing, while a common ancestor of all it reaches is short of its threshold. */
  lemma FindsNothing(s: SleetValue, q: Hash, b: Hash)
    requires Open(s.store, b) && b in Counted(s, q).cg.cs && !Confident(Counted(s, q).cg.cs[b])
    requires forall a :: a in Reach(s.dag.g, q) ==> b in Reach(s.dag.g, a)
    ensures NewlyFinal(Counted(s, q), q) == {}
  {
    var c := Counted(s, q);
    assert b !in Acc(c.dag.g, c.cg.cs, c.store);
    assert c.dag.g == s.dag.g;
    hide Reach, Counted, Acc;
  }

  /** The strict ancestors, when all of them have reached their thresholds and the one queried has not. */
  lemma FindsAncestors(s: SleetValue, q: Hash)
    requires Acyclic(s.dag.g) && Closed(s.dag.g) && q in s.dag.g
    requires forall a :: a in Reach(s.dag.g, q) ==> Open(s.store, a) && a in Counted(s, q).cg.cs
    requires forall a :: a in Reach(s.dag.g, q) ==> (Confident(Counted(s, q).cg.cs[a]) <==> a != q)
    ensures NewlyFinal(Counted(s, q), q) == Reach(s.dag.g, q) - {q}
  {
    var c, g := Counted(s, q), s.dag.g;
    var acc := Acc(c.dag.g, c.cg.cs, c.store);
    assert forall a :: a in Reach(g, q) ==> (a in acc <==> a != q);
    assert c.dag.g == g && c.store == s.store;
    hide Counted, Acc;
    forall a | a in Reach(g, q) ensures a in FinalTxs(c) <==> a != q {
      ReachMember(g, q, a);
      if a != q { AncestryBelow(g, q, a); } else { ReachSelf(g, q); }
    }
  }

  /** The ancestry of a strict ancestor does not lead back. */
  lemma AncestryBelow(g: Graph, q: Hash, a: Hash)
    requires Acyclic(g) && Closed(g) && a in Reach(g, q) && a != q
    ensures a in g && Reach(g, a) <= Reach(g, q) - {q}
  {
    ReachMember(g, q, a);
    ReachSubset(g, q, a);
    var rank :| Ranked(g, rank);
    ReachRank(g, rank, q, a);
    if q in Reach(g, a) { ReachMember(g, a, q); ReachRank(g, rank, a, q); }
  }

  /** A new vertex leaves the ancestries of the others alone. */
  lemma ReachWithChild(g: Graph, k: Hash, h: Hash)
    requires Closed(g) && k !in g && h in g
    ensures var g' := g[k := [h]];
      && (forall v :: v in g ==> Reach(g', v) == Reach(g, v)) && Reach(g', k) == Reach(g, h) + {k}
  {
    var g' := g[k := [h]];
    forall v | v in g ensures Reach(g', v) == Reach(g, v) { ReachUnder(g, k, [h], v); }
    ReachSelf(g', k);
    ReachSelf(g, h);
    forall v | v in Reach(g, h) ensures v in Reach(g', k) {
      ReachMember(g', h, v);
      assert Edge(g', k, h);
      ReachStep(g', k, h, v);
    }
    assert ClosedUnder(g', Reach(g, h) + {k}) by {
      ReachClosed(g, h);
      hide Reach;
    }
    ReachLeast(g', k, Reach(g, h) + {k});
  }

  lemma ReachUnder(g: Graph, k: Hash, parents: seq<Hash>, v: Hash)
    requires Closed(g) && k !in g && v in g
    ensures Reach(g[k := parents], v) == Reach(g, v)
  {
    var g' := g[k := parents];
    ReachSelf(g, v);
    ReachSelf(g', v);
    ReachClosed(g, v);
    ReachInside(g, v);
    assert ClosedUnder(g', Reach(g, v)) by { hide Reach; }
    ReachLeast(g', v, Reach(g, v));
    assert ClosedUnder(g, Reach(g', v)) by {
      forall u, w | u in Reach(g', v) && Edge(g, u, w) ensures w in Reach(g', v) {
        assert Edge(g', u, w) && w in g';
        ReachMember(g', v, u);
        ReachSelf(g', w);
        ReachStep(g', u, w, w);
        ReachTrans(g', v, u, w);
      }
    }
    ReachLeast(g, v, Reach(g', v));
  }

  // a child arrives and is queried

  /** Outputs announced at the start, one for each child to spend. */
  function Coin(j: nat): CellId
    requires j < 200
  {
    CellId(Hash(0), j)
  }

  function Child(j: nat): Hash {
    Hash(100 + j)
  }

  function ChildCell(j: nat): Cell
    requires j < 100
  {
    Cell(Child(j), {Coin(j)}, [])
  }

  function ChildTx(j: nat, h: Hash): Tx
    requires j < 100
  {
    Tx([h], ChildCell(j), Pending)
  }

  /** The coins from `n` on are unspent. */
  ghost predicate CoinsLeft(cg: C.ConflictState, n: nat) {
    && (forall j: nat | j < 100 :: Coin(j) in cg.vertices)
    && (forall k, j: nat | k in cg.cells && n <= j < 100 :: Coin(j) !in cg.cells[k].inputs)
  }

  /** `n` children have been used so far. */
  ghost predicate Base(s: SleetValue, n: nat) {
    && Sane(s) && n <= 100 && CoinsLeft(s.cg, n) && (forall k :: k in s.store ==> k.digest < 100 + n)
    && (forall k :: k in s.dag.chits ==> s.dag.chits[k] <= 1)
    && (forall k :: k in s.cg.cs ==> s.cg.cs[k].pref in s.dag.g)
  }

  ghost function Hashes(n: nat): set<Hash> {
    if n == 0 then {} else Hashes(n - 1) + {Hash(n - 1)}
  }

  lemma {:induction false} HashesSize(n: nat)
    ensures |Hashes(n)| == n && forall h: Hash :: h in Hashes(n) <==> h.digest < n
  {
    if n > 0 { HashesSize(n - 1); }
  }

  lemma BaseIsSmall(s: SleetValue, n: nat)
    requires Base(s, n)
    ensures Small(s)
  {
    assert s.dag.g.Keys <= s.store.Keys;
    hide Sane, CoinsLeft;
    HashesSize(100 + n);
    assert s.dag.g.Keys <= Hashes(100 + n);
    SubsetSize(s.dag.g.Keys, Hashes(100 + n));
  }

  /** What has changed once child `n` of `h` has arrived and a query on it has succeeded. */
  ghost predicate Supported(s: SleetValue, n: nat, h: Hash, found: set<Hash>, t: SleetValue)
    requires n < 100
  {
    var k := Child(n);
    && t.dag.g == s.dag.g[k := [h]] && t.dag.chits == s.dag.chits[k := 1]
    && t.cg.cells == s.cg.cells[k := ChildTx(n, h).cell] && t.cg.vertices.Keys == s.cg.vertices.Keys
    && SetsSupported(s.cg.cs, k, Reach(s.dag.g, h), t.cg.cs)
    && t.store.Keys == s.store.Keys + {k} && t.store[k] == ChildTx(n, h).(status := Queried)
    && (forall a :: a in s.store ==>
         t.store[a] == s.store[a].(status := if a in found then Accepted else s.store[a].status))
  }

  lemma ChildFits(s: SleetValue, n: nat, h: Hash)
    requires Base(s, n) && n < 100 && h in s.dag.g && !HasStatus(s.store, h, Accepted)
    ensures Fitting(s, ChildTx(n, h)) && Unconflicted(s.cg.cells, ChildTx(n, h).cell)
    ensures Produced(ChildTx(n, h).cell) == {}
    ensures Child(n) !in s.store && Child(n) !in s.dag.g && Child(n) !in s.cg.cs && Closed(s.dag.g)
  {
    BaseParts(s, n);
    hide *;
    SaneFacts(s);
    ChildIsNew(s, n, h);
    CoinUnspent(s.cg, n, ChildTx(n, h).cell);
  }

  lemma ChildIsNew(s: SleetValue, n: nat, h: Hash)
    requires Base(s, n) && n < 100 && h in s.dag.g && !HasStatus(s.store, h, Accepted)
    ensures Child(n) !in s.store && CoinsLeft(s.cg, n) && ChildTx(n, h).cell == ChildCell(n)
    ensures var cell := ChildTx(n, h).cell;
      cell.inputs <= s.cg.vertices.Keys && C.ProducesUnspent(s.cg, cell) ==> Fitting(s, ChildTx(n, h))
  {
    hide Sane, CoinsLeft, C.ProducesUnspent;
  }

  lemma CoinUnspent(cg: C.ConflictState, n: nat, cell: Cell)
    requires n < 100 && CoinsLeft(cg, n) && cell == ChildCell(n)
    ensures Produced(cell) == {} && cell.inputs <= cg.vertices.Keys && C.ProducesUnspent(cg, cell)
    ensures Unconflicted(cg.cells, cell)
  {
    forall k | k in cg.cells ensures !C.Conflict(cell, cg.cells[k]) { assert Coin(n) !in cg.cells[k].inputs; }
  }

  lemma SaneFacts(s: SleetValue)
    requires Sane(s)
    ensures s.dag.g.Keys <= s.cg.cs.Keys <= s.store.Keys && s.cg.cells.Keys == s.cg.cs.Keys
    ensures Closed(s.dag.g) && Acyclic(s.dag.g)
    ensures forall h :: h in s.cg.cells ==> s.store[h].cell == s.cg.cells[h]
  {
    CellsAreKnown(s);
    InverseSym(s.dag.g, s.dag.inv);
    hide C.ConflictOk, C.ConflictSound, Acyclic, Inverse, Closed;
  }

  lemma SupportStep(s: SleetValue, n: nat, h: Hash)
    requires Base(s, n) && n < 100 && h in s.dag.g && !HasStatus(s.store, h, Accepted)
    ensures var tx := ChildTx(n, h); var mid := Received(s, tx); var t := QuerySucceeded(mid, Child(n));
      && Next(s, Receive(tx), mid) && !Spoiling(s, Receive(tx))
      && Next(mid, Success(Child(n)), t) && !Spoiling(mid, Success(Child(n)))
      && Base(t, n + 1) && Supported(s, n, h, NewlyFinal(Counted(mid, Child(n)), Child(n)), t)
  {
    var tx, k := ChildTx(n, h), Child(n);
    var mid := Received(s, tx);
    BaseParts(s, n);
    hide *;
    ChildFits(s, n, h);
    FittingArrives(s, tx);
    ArrivalKeepsBase(s, n, h, mid);
    BaseIsSmall(mid, n + 1);
    QueryVotes(mid, k);
    ReachWithChild(s.dag.g, k, h);
    SupportedWhen(s, n, h, mid, NewlyFinal(Counted(mid, k), k), QuerySucceeded(mid, k));
  }

  lemma BaseParts(s: SleetValue, n: nat)
    requires Base(s, n)
    ensures Sane(s)
  {
    hide Sane, CoinsLeft;
  }

  lemma ArrivalKeepsBase(s: SleetValue, n: nat, h: Hash, mid: SleetValue)
    requires Base(s, n) && n < 100 && Sane(mid) && Arrived(s, ChildTx(n, h), mid)
    requires Unconflicted(s.cg.cells, ChildTx(n, h).cell) && Produced(ChildTx(n, h).cell) == {}
    ensures Base(mid, n + 1) && Child(n) in mid.store && Child(n) in mid.dag.chits && mid.dag.chits[Child(n)] == 0
    ensures mid.dag.g == s.dag.g[Child(n) := [h]]
  {
    hide Sane, Unconflicted, Produced;
  }

  lemma SupportedWhen(s: SleetValue, n: nat, h: Hash, mid: SleetValue, found: set<Hash>, t: SleetValue)
    requires n < 100 && Child(n) !in s.store && Child(n) !in s.cg.cs && Arrived(s, ChildTx(n, h), mid)
    requires Unconflicted(s.cg.cells, ChildTx(n, h).cell) && Produced(ChildTx(n, h).cell) == {}
    requires Base(mid, n + 1) && Voted(mid, Child(n), found, t) && Sane(t)
    requires Reach(mid.dag.g, Child(n)) == Reach(s.dag.g, h) + {Child(n)}
    ensures Base(t, n + 1) && Supported(s, n, h, found, t)
  {
    hide *;
    VotedKeepsBase(mid, n + 1, Child(n), found, t);
    SupportedSets(s, n, h, mid, found, t);
    SupportedParts(s, n, h, mid, found, t);
  }

  lemma VotedKeepsBase(s: SleetValue, n: nat, q: Hash, found: set<Hash>, t: SleetValue)
    requires Base(s, n) && Voted(s, q, found, t) && Sane(t)
    ensures Base(t, n)
  {
    ReachInside(s.dag.g, q);
    hide Sane, Reach, CoinsLeft;
    CoinsStay(s.cg, t.cg, n);
  }

  lemma CoinsStay(a: C.ConflictState, b: C.ConflictState, n: nat)
    requires CoinsLeft(a, n) && b.cells == a.cells && b.vertices == a.vertices
    ensures CoinsLeft(b, n)
  {
  }

  ghost predicate SetsSupported(cs: map<Hash, C.ConflictSet>, k: Hash, above: set<Hash>,
                                cs': map<Hash, C.ConflictSet>) {
    && cs'.Keys == cs.Keys + {k} && cs'[k].cnt == 1 && cs'[k].conflicts == {k} && cs'[k].pref == k && cs'[k].last == k
    && (forall a :: a in cs ==> if a in above then VotedSet(cs[a], a, cs'[a]) else cs'[a] == cs[a])
  }

  lemma SupportedSets(s: SleetValue, n: nat, h: Hash, mid: SleetValue, found: set<Hash>, t: SleetValue)
    requires n < 100 && Child(n) !in s.cg.cs && Arrived(s, ChildTx(n, h), mid)
    requires Unconflicted(s.cg.cells, ChildTx(n, h).cell) && Voted(mid, Child(n), found, t)
    requires Reach(mid.dag.g, Child(n)) == Reach(s.dag.g, h) + {Child(n)}
    ensures SetsSupported(s.cg.cs, Child(n), Reach(s.dag.g, h), t.cg.cs)
  {
    var k, cs := Child(n), s.cg.cs;
    assert mid.cg.cs == cs[k := C.NewConflictSet(k)];
    hide Arrived, Unconflicted, Reach, VotedSet;
    assert VotedSet(C.NewConflictSet(k), k, t.cg.cs[k]);
    VotedNew(k, t.cg.cs[k]);
    forall a | a in cs
      ensures if a in Reach(s.dag.g, h) then VotedSet(cs[a], a, t.cg.cs[a]) else t.cg.cs[a] == cs[a]
    {
      assert a in mid.cg.cs && a != k;
    }
  }

  lemma VotedNew(k: Hash, c: C.ConflictSet)
    requires VotedSet(C.NewConflictSet(k), k, c)
    ensures c.cnt == 1 && c.conflicts == {k} && c.pref == k && c.last == k
  {
  }

  lemma SupportedParts(s: SleetValue, n: nat, h: Hash, mid: SleetValue, found: set<Hash>, t: SleetValue)
    requires n < 100 && Child(n) !in s.store && Produced(ChildTx(n, h).cell) == {}
    requires Arrived(s, ChildTx(n, h), mid) && Voted(mid, Child(n), found, t)
    requires SetsSupported(s.cg.cs, Child(n), Reach(s.dag.g, h), t.cg.cs)
    ensures Supported(s, n, h, found, t)
  {
    hide Joined, Produced, Reach, VotedSet, SetsSupported;
    var k := Child(n);
    SupportedStore(s.store, k, ChildTx(n, h), mid.store, found, t.store);
    assert t.dag.chits == s.dag.chits[k := 1];
  }

  lemma SupportedStore(store: Store, k: Hash, tx: Tx, mid: Store, found: set<Hash>, store': Store)
    requires k !in store && mid == store[k := tx] && store'.Keys == mid.Keys
    requires forall a :: a in mid ==>
      store'[a] == mid[a].(status := if a == k then Queried else if a in found then Accepted else mid[a].status)
    ensures store'.Keys == store.Keys + {k} && store'[k] == tx.(status := Queried)
    ensures forall a :: a in store ==>
      store'[a] == store[a].(status := if a in found then Accepted else store[a].status)
  {
  }

  // runs

  ghost predicate Standing(run: Run, n: nat) {
    Valid(run) && Clean(run) && Reporting(run) && Base(Last(run), n)
  }

  lemma Extend(run: Run, e: Event, t: SleetValue)
    requires Valid(run) && Clean(run) && Reporting(run) && Next(Last(run), e, t) && !Spoiling(Last(run), e)
    requires !e.Announce?
    ensures var more := Then(run, e, t);
      && Valid(more) && Clean(more) && Reporting(more) && Last(more) == t
      && Outbox(more) == Outbox(run) +
         if e.Success? then Message(NewlyFinal(Counted(Last(run), e.hash), e.hash)) else []
  {
    hide Next, Spoiling, NewlyFinal, Counted, Message;
  }

  /** Child `n` of `h` arrives and a query on it succeeds. */
  lemma Support(run: Run, n: nat, h: Hash) returns (more: Run, found: set<Hash>)
    requires Standing(run, n) && n < 100 && h in Last(run).dag.g && !HasStatus(Last(run).store, h, Accepted)
    ensures Standing(more, n + 1) && Supported(Last(run), n, h, found, Last(more))
    ensures Outbox(more) == Outbox(run) + Message(found)
    ensures Foundings(Last(run), h, Last(more), found)
  {
    hide *;
    StandingParts(run, n);
    var s, tx, k := Last(run), ChildTx(n, h), Child(n);
    var mid := Received(s, tx);
    var t := QuerySucceeded(mid, k);
    SupportStep(s, n, h);
    Extend(run, Receive(tx), mid);
    var one := Then(run, Receive(tx), mid);
    Extend(one, Success(k), t);
    more, found := Then(one, Success(k), t), NewlyFinal(Counted(mid, k), k);
    assert Outbox(run) + [] == Outbox(run);
    StandingWhen(more, n + 1);
    FoundBy(s, n, h, found);
  }

  lemma StandingParts(run: Run, n: nat)
    requires Standing(run, n)
    ensures Valid(run) && Clean(run) && Reporting(run) && Base(Last(run), n)
  {
  }

  lemma StandingWhen(run: Run, n: nat)
    requires Valid(run) && Clean(run) && Reporting(run) && Base(Last(run), n)
    ensures Standing(run, n)
  {
  }

  /** What the query found: nothing while a common ancestor is short of its threshold, everything once
      all ancestors have reached theirs. */
  ghost predicate Foundings(s: SleetValue, h: Hash, t: SleetValue, found: set<Hash>) {
    && (forall b :: Blocks(s, h, b) && b in t.cg.cs && !Confident(t.cg.cs[b]) ==> found == {})
    && ((forall a :: a in Reach(s.dag.g, h) ==> Open(s.store, a) && a in t.cg.cs && Confident(t.cg.cs[a])) ==>
         found == Reach(s.dag.g, h))
  }

  /** `b` is in the ancestry of every ancestor of `h`. */
  ghost predicate Blocks(s: SleetValue, h: Hash, b: Hash) {
    Open(s.store, b) && forall a :: a in Reach(s.dag.g, h) ==> b in Reach(s.dag.g, a)
  }

  lemma FoundBy(s: SleetValue, n: nat, h: Hash, found: set<Hash>)
    requires Base(s, n) && n < 100 && h in s.dag.g && !HasStatus(s.store, h, Accepted)
    requires var mid := Received(s, ChildTx(n, h)); found == NewlyFinal(Counted(mid, Child(n)), Child(n))
    ensures Foundings(s, h, QuerySucceeded(Received(s, ChildTx(n, h)), Child(n)), found)
  {
    hide *;
    var mid, k := Received(s, ChildTx(n, h)), Child(n);
    MidwayIs(s, n, h);
    FoundingsWhen(s, k, h, mid, QuerySucceeded(mid, k), found);
  }

  /** The child `k` of `h` has arrived in `mid`, and has been counted in `t`. */
  ghost predicate Midway(s: SleetValue, k: Hash, h: Hash, mid: SleetValue, t: SleetValue) {
    && Closed(s.dag.g) && k !in s.dag.g && h in s.dag.g && mid.dag.g == s.dag.g[k := [h]]
    && Closed(mid.dag.g) && Acyclic(mid.dag.g) && k !in s.store && Open(mid.store, k)
    && (forall a :: a in s.store ==> a in mid.store && mid.store[a] == s.store[a])
    && t.cg == Counted(mid, k).cg && k in t.cg.cs && !Confident(t.cg.cs[k])
  }

  lemma MidwayIs(s: SleetValue, n: nat, h: Hash)
    requires Base(s, n) && n < 100 && h in s.dag.g && !HasStatus(s.store, h, Accepted)
    ensures var mid := Received(s, ChildTx(n, h)); Midway(s, Child(n), h, mid, QuerySucceeded(mid, Child(n)))
  {
    hide *;
    var mid, k := Received(s, ChildTx(n, h)), Child(n);
    MidFacts(s, n, h, mid);
    SupportStep(s, n, h);
    ChildVoted(s, n, h, NewlyFinal(Counted(mid, k), k), QuerySucceeded(mid, k));
    SuccessSets(mid, k);
    MidwayWhen(s, k, h, mid, QuerySucceeded(mid, k), ChildTx(n, h));
  }

  lemma MidwayWhen(s: SleetValue, k: Hash, h: Hash, mid: SleetValue, t: SleetValue, tx: Tx)
    requires Closed(s.dag.g) && k !in s.dag.g && h in s.dag.g && mid.dag.g == s.dag.g[k := [h]]
    requires Closed(mid.dag.g) && Acyclic(mid.dag.g) && k !in s.store && Open(mid.store, k)
    requires mid.store == s.store[k := tx]
    requires t.cg == Counted(mid, k).cg && k in t.cg.cs && !Confident(t.cg.cs[k])
    ensures Midway(s, k, h, mid, t)
  {
    hide Closed, Acyclic, Open, Counted, Confident;
  }

  lemma SuccessSets(s: SleetValue, q: Hash)
    ensures QuerySucceeded(s, q).cg == Counted(s, q).cg
  {
  }

  lemma ChildVoted(s: SleetValue, n: nat, h: Hash, found: set<Hash>, t: SleetValue)
    requires n < 100 && Supported(s, n, h, found, t)
    ensures Child(n) in t.cg.cs && !Confident(t.cg.cs[Child(n)]) && t.cg.cs.Keys == s.cg.cs.Keys + {Child(n)}
  {
    hide Reach, VotedSet;
  }

  lemma MidFacts(s: SleetValue, n: nat, h: Hash, mid: SleetValue)
    requires Base(s, n) && n < 100 && h in s.dag.g && !HasStatus(s.store, h, Accepted)
    requires mid == Received(s, ChildTx(n, h))
    ensures mid.dag.g == s.dag.g[Child(n) := [h]] && mid.store == s.store[Child(n) := ChildTx(n, h)]
    ensures Closed(mid.dag.g) && Acyclic(mid.dag.g) && Closed(s.dag.g) && Child(n) !in s.store && Child(n) !in s.dag.g
    ensures s.dag.g.Keys <= s.cg.cs.Keys && Open(mid.store, Child(n))
  {
    hide *;
    BaseParts(s, n);
    SaneFacts(s);
    ChildFits(s, n, h);
    FittingArrives(s, ChildTx(n, h));
    SaneFacts(mid);
    ArrivedParts(s, n, h, mid);
  }

  lemma ArrivedParts(s: SleetValue, n: nat, h: Hash, mid: SleetValue)
    requires n < 100 && Arrived(s, ChildTx(n, h), mid)
    ensures mid.dag.g == s.dag.g[Child(n) := [h]] && mid.store == s.store[Child(n) := ChildTx(n, h)]
    ensures Open(mid.store, Child(n))
  {
    hide Joined, Produced;
  }

  lemma FoundingsWhen(s: SleetValue, k: Hash, h: Hash, mid: SleetValue, t: SleetValue, found: set<Hash>)
    requires Midway(s, k, h, mid, t) && found == NewlyFinal(Counted(mid, k), k)
    ensures Foundings(s, h, t, found)
  {
    hide Midway, Reach, NewlyFinal, Counted, Confident, Blocks, Open;
    forall b | Blocks(s, h, b) && b in t.cg.cs && !Confident(t.cg.cs[b]) ensures found == {} {
      NothingFound(s, k, h, mid, t, b);
    }
    if forall a :: a in Reach(s.dag.g, h) ==> Open(s.store, a) && a in t.cg.cs && Confident(t.cg.cs[a]) {
      AllFound(s, k, h, mid, t);
    }
  }

  lemma NothingFound(s: SleetValue, k: Hash, h: Hash, mid: SleetValue, t: SleetValue, b: Hash)
    requires Midway(s, k, h, mid, t) && Blocks(s, h, b) && b in t.cg.cs && !Confident(t.cg.cs[b])
    ensures NewlyFinal(Counted(mid, k), k) == {}
  {
    ReachWithChild(s.dag.g, k, h);
    ReachSelf(s.dag.g, h);
    ReachInside(s.dag.g, h);
    hide Reach, NewlyFinal, Counted, Confident, Acyclic, Closed;
    FindsNothing(mid, k, b);
  }

  lemma AllFound(s: SleetValue, k: Hash, h: Hash, mid: SleetValue, t: SleetValue)
    requires Midway(s, k, h, mid, t)
    requires forall a :: a in Reach(s.dag.g, h) ==> Open(s.store, a) && a in t.cg.cs && Confident(t.cg.cs[a])
    ensures NewlyFinal(Counted(mid, k), k) == Reach(s.dag.g, h)
  {
    ReachWithChild(s.dag.g, k, h);
    ReachInside(s.dag.g, h);
    hide Reach, NewlyFinal, Counted, Confident, Acyclic, Closed;
    assert k !in Reach(s.dag.g, h);
    FindsAncestors(mid, k);
  }

  // several children, one after the other

  ghost function Children(n: nat, m: nat): set<Hash> {
    if m == 0 then {} else Children(n, m - 1) + {Child(n + m - 1)}
  }

  lemma {:induction false} ChildrenAre(n: nat, m: nat)
    ensures forall h: Hash :: h in Children(n, m) <==> 100 + n <= h.digest < 100 + n + m
  {
    if m > 0 { ChildrenAre(n, m - 1); }
  }

  /** The conflict set `c` of `a` after `m` votes that counted. */
  ghost predicate Raised(c: C.ConflictSet, a: Hash, m: nat, c': C.ConflictSet) {
    c'.conflicts == c.conflicts && c'.last == a && c'.cnt == c.cnt + m
  }

  ghost predicate GraphGrown(g: Graph, more: set<Hash>, g': Graph) {
    g'.Keys == g.Keys + more && forall v :: v in g ==> g'[v] == g[v] && Reach(g', v) == Reach(g, v)
  }

  ghost predicate CellsGrown(cells: map<Hash, Cell>, n: nat, m: nat, cells': map<Hash, Cell>) {
    && cells'.Keys == cells.Keys + Children(n, m) && (forall k :: k in cells ==> cells'[k] == cells[k])
    && (forall j: nat :: n <= j < n + m && j < 100 ==> Child(j) in cells' && cells'[Child(j)] == ChildCell(j))
  }

  ghost predicate SetsGrown(cs: map<Hash, C.ConflictSet>, above: set<Hash>, m: nat, more: set<Hash>,
                            cs': map<Hash, C.ConflictSet>) {
    && cs'.Keys == cs.Keys + more && (forall k :: k in more ==> cs'[k].cnt == 1 && cs'[k].last == k)
    && (forall a :: a in cs ==> if a in above then Raised(cs[a], a, m, cs'[a]) else cs'[a] == cs[a])
  }

  ghost predicate StoreGrown(store: Store, more: set<Hash>, store': Store) {
    && store'.Keys == store.Keys + more && (forall a :: a in store ==> store'[a] == store[a])
    && (forall k :: k in more ==> Open(store', k))
  }

  ghost predicate ChitsGrown(chits: map<Hash, u8>, more: set<Hash>, chits': map<Hash, u8>) {
    chits'.Keys == chits.Keys + more && forall k :: k in chits && k !in more ==> chits'[k] == chits[k]
  }

  /** What has changed once children `n` to `n + m` of `h` have arrived and been queried, and nothing was
      found. */
  ghost predicate Grown(s: SleetValue, n: nat, m: nat, h: Hash, t: SleetValue) {
    && GraphGrown(s.dag.g, Children(n, m), t.dag.g) && ChitsGrown(s.dag.chits, Children(n, m), t.dag.chits)
    && CellsGrown(s.cg.cells, n, m, t.cg.cells) && t.cg.vertices.Keys == s.cg.vertices.Keys
    && SetsGrown(s.cg.cs, Reach(s.dag.g, h), m, Children(n, m), t.cg.cs)
    && StoreGrown(s.store, Children(n, m), t.store)
  }

  /** `h` can take `m` more votes, and `b` keeps everything from being final meanwhile. */
  ghost predicate Patient(s: SleetValue, h: Hash, b: Hash, m: nat) {
    && h in s.dag.g && Open(s.store, h) && Blocks(s, h, b) && b in s.cg.cs && b in Reach(s.dag.g, h)
    && (|s.cg.cs[b].conflicts| == 1 ==> s.cg.cs[b].cnt + m < C.BETA1) && s.cg.cs[b].cnt + m < C.BETA2
    && (forall a :: a in Reach(s.dag.g, h) ==> a in s.cg.cs && s.cg.cs[a].last == a && s.cg.cs[a].cnt + m <= C.BETA2)
  }

  lemma {:induction false} Tower(run: Run, n: nat, h: Hash, b: Hash, m: nat) returns (more: Run)
    requires Standing(run, n) && n + m <= 100 && Patient(Last(run), h, b, m)
    ensures Standing(more, n + m) && Grown(Last(run), n, m, h, Last(more)) && Outbox(more) == Outbox(run)
  {
    hide *;
    var s := Last(run);
    if m == 0 {
      more := run;
      NothingGrown(s, n, h, b);
    } else {
      PatientLess(s, h, b, m);
      var most := Tower(run, n, h, b, m - 1);
      var u := Last(most);
      GrownPatient(s, n, m - 1, h, b, u);
      var found;
      more, found := Support(most, n + m - 1, h);
      StandingParts(run, n);
      ChildrenFresh(s, n, m);
      StillQuiet(s, n, m, h, b, u, found, Last(more));
      QuietOutbox(Outbox(most), found);
      StandingParts(most, n + m - 1);
      BaseParts(u, n + m - 1);
      SaneFacts(u);
      GrownMore(s, n, m, h, u, Last(more));
    }
  }

  lemma ChildrenFresh(s: SleetValue, n: nat, m: nat)
    requires Base(s, n)
    ensures Children(n, m) !! s.store.Keys && Fresh(s, Children(n, m))
  {
    BaseMarks(s, n);
    hide *;
    ChildrenAre(n, m);
    SaneFacts(s);
    assert Children(n, m) !! s.store.Keys;
    FreshWhen(s, Children(n, m));
  }

  lemma BaseMarks(s: SleetValue, n: nat)
    requires Base(s, n)
    ensures Sane(s) && s.dag.chits.Keys <= s.store.Keys && forall k :: k in s.store ==> k.digest < 100 + n
  {
    hide SleetOk, C.ConflictOk, CoinsLeft;
  }

  lemma FreshWhen(s: SleetValue, more: set<Hash>)
    requires more !! s.store.Keys && s.dag.g.Keys <= s.cg.cs.Keys <= s.store.Keys && s.cg.cells.Keys == s.cg.cs.Keys
    requires s.dag.chits.Keys <= s.store.Keys
    ensures Fresh(s, more)
  {
  }

  ghost predicate Fresh(s: SleetValue, more: set<Hash>) {
    && more !! s.store.Keys && more !! s.cg.cs.Keys && more !! s.dag.g.Keys && more !! s.dag.chits.Keys
    && more !! s.cg.cells.Keys
  }

  lemma GrownMore(s: SleetValue, n: nat, m: nat, h: Hash, u: SleetValue, t: SleetValue)
    requires m > 0 && n + m <= 100 && Grown(s, n, m - 1, h, u) && Supported(u, n + m - 1, h, {}, t)
    requires Closed(u.dag.g) && h in u.dag.g && Fresh(s, Children(n, m))
    requires SetsGrown(s.cg.cs, Reach(s.dag.g, h), m, Children(n, m), t.cg.cs)
    ensures Grown(s, n, m, h, t)
  {
    hide *;
    var k, less := LastChild(n, m);
    GrownParts(s, n, m - 1, h, u);
    SupportedMaps(u, n + m - 1, h, t);
    FreshParts(s, Children(n, m));
    GraphMore(s.dag.g, less, u.dag.g, k, h, t.dag.g);
    ChitsMore(s.dag.chits, less, u.dag.chits, k, t.dag.chits);
    CellsMore(s.cg.cells, n, m, u.cg.cells, t.cg.cells);
    StoreMore(s.store, less, u.store, k, t.store);
    GrownParts(s, n, m, h, t);
  }

  lemma LastChild(n: nat, m: nat) returns (k: Hash, less: set<Hash>)
    requires m > 0
    ensures k == Child(n + m - 1) && less == Children(n, m - 1) && Children(n, m) == less + {k} && k !in less
  {
    k, less := Child(n + m - 1), Children(n, m - 1);
    ChildrenAre(n, m - 1);
  }

  lemma GrownParts(s: SleetValue, n: nat, m: nat, h: Hash, t: SleetValue)
    ensures Grown(s, n, m, h, t) <==>
      && GraphGrown(s.dag.g, Children(n, m), t.dag.g) && ChitsGrown(s.dag.chits, Children(n, m), t.dag.chits)
      && CellsGrown(s.cg.cells, n, m, t.cg.cells) && t.cg.vertices.Keys == s.cg.vertices.Keys
      && SetsGrown(s.cg.cs, Reach(s.dag.g, h), m, Children(n, m), t.cg.cs)
      && StoreGrown(s.store, Children(n, m), t.store)
  {
    hide Children, Reach, SetsGrown, GraphGrown, CellsGrown, StoreGrown, ChitsGrown;
  }

  lemma FreshParts(s: SleetValue, more: set<Hash>)
    requires Fresh(s, more)
    ensures more !! s.store.Keys && more !! s.cg.cs.Keys && more !! s.dag.g.Keys
    ensures more !! s.dag.chits.Keys && more !! s.cg.cells.Keys
  {
  }

  lemma SupportedMaps(u: SleetValue, n: nat, h: Hash, t: SleetValue)
    requires n < 100 && Supported(u, n, h, {}, t)
    ensures var k := Child(n);
      && t.dag.g == u.dag.g[k := [h]] && t.dag.chits == u.dag.chits[k := 1] && t.cg.vertices.Keys == u.cg.vertices.Keys
      && t.cg.cells == u.cg.cells[k := ChildCell(n)]
      && t.store.Keys == u.store.Keys + {k} && Open(t.store, k) && forall a :: a in u.store ==> t.store[a] == u.store[a]
  {
    hide SetsSupported, Reach;
  }

  lemma ChitsMore(chits: map<Hash, u8>, less: set<Hash>, mid: map<Hash, u8>, k: Hash, chits': map<Hash, u8>)
    requires ChitsGrown(chits, less, mid) && chits' == mid[k := 1]
    ensures ChitsGrown(chits, less + {k}, chits')
  {
  }

  lemma GraphMore(g: Graph, less: set<Hash>, mid: Graph, k: Hash, h: Hash, g': Graph)
    requires GraphGrown(g, less, mid) && g' == mid[k := [h]] && k !in g && k !in less && h in mid && Closed(mid)
    ensures GraphGrown(g, less + {k}, g')
  {
    ReachWithChild(mid, k, h);
    hide Reach;
  }

  lemma CellsMore(cells: map<Hash, Cell>, n: nat, m: nat, mid: map<Hash, Cell>, cells': map<Hash, Cell>)
    requires m > 0 && n + m <= 100 && CellsGrown(cells, n, m - 1, mid) && Children(n, m) !! cells.Keys
    requires cells'.Keys == mid.Keys + {Child(n + m - 1)}
    requires forall k :: k in mid && k != Child(n + m - 1) ==> cells'[k] == mid[k]
    requires cells'[Child(n + m - 1)] == ChildCell(n + m - 1)
    ensures CellsGrown(cells, n, m, cells')
  {
    hide Children, ChildCell, CellsGrown;
    var k, less := LastChild(n, m);
    CellsGrownParts(cells, n, m - 1, mid);
    OldCellsMore(cells, k, mid, cells');
    ChildCellsMore(n, m, mid, cells');
    CellsGrownWhen(cells, n, m, cells');
  }

  ghost predicate ChildCellsIn(n: nat, m: nat, cells: map<Hash, Cell>) {
    forall j: nat :: n <= j < n + m && j < 100 ==> Child(j) in cells && cells[Child(j)] == ChildCell(j)
  }

  lemma CellsGrownParts(cells: map<Hash, Cell>, n: nat, m: nat, cells': map<Hash, Cell>)
    requires CellsGrown(cells, n, m, cells')
    ensures cells'.Keys == cells.Keys + Children(n, m) && (forall k :: k in cells ==> cells'[k] == cells[k])
    ensures ChildCellsIn(n, m, cells')
  {
    hide Children, ChildCell;
  }

  lemma CellsGrownWhen(cells: map<Hash, Cell>, n: nat, m: nat, cells': map<Hash, Cell>)
    requires cells'.Keys == cells.Keys + Children(n, m) && (forall k :: k in cells ==> cells'[k] == cells[k])
    requires ChildCellsIn(n, m, cells')
    ensures CellsGrown(cells, n, m, cells')
  {
    hide Children, ChildCell;
  }

  lemma OldCellsMore(cells: map<Hash, Cell>, k: Hash, mid: map<Hash, Cell>, cells': map<Hash, Cell>)
    requires cells.Keys <= mid.Keys && (forall x :: x in cells ==> mid[x] == cells[x]) && k !in cells
    requires cells'.Keys == mid.Keys + {k} && forall x :: x in mid && x != k ==> cells'[x] == mid[x]
    ensures forall x :: x in cells ==> cells'[x] == cells[x]
  {
  }

  lemma ChildCellsMore(n: nat, m: nat, mid: map<Hash, Cell>, cells': map<Hash, Cell>)
    requires 0 < m && n + m <= 100 && ChildCellsIn(n, m - 1, mid) && cells'.Keys == mid.Keys + {Child(n + m - 1)}
    requires forall k :: k in mid && k != Child(n + m - 1) ==> cells'[k] == mid[k]
    requires cells'[Child(n + m - 1)] == ChildCell(n + m - 1)
    ensures ChildCellsIn(n, m, cells')
  {
    hide ChildCell;
  }

  lemma StoreMore(store: Store, less: set<Hash>, mid: Store, k: Hash, store': Store)
    requires StoreGrown(store, less, mid) && k !in store && k !in less && store'.Keys == mid.Keys + {k}
    requires Open(store', k)
    requires forall a :: a in mid ==> store'[a] == mid[a]
    ensures StoreGrown(store, less + {k}, store')
  {
  }

  lemma QuietOutbox(box: seq<set<Hash>>, found: set<Hash>)
    requires found == {}
    ensures box + Message(found) == box
  {
  }

  lemma PatientLess(s: SleetValue, h: Hash, b: Hash, m: nat)
    requires m > 0 && Patient(s, h, b, m)
    ensures Patient(s, h, b, m - 1)
  {
    hide Reach, Blocks, Open;
  }

  lemma NothingGrown(s: SleetValue, n: nat, h: Hash, b: Hash)
    requires Patient(s, h, b, 0)
    ensures Grown(s, n, 0, h, s)
  {
    PatientSets(s, h, b);
    hide Reach, Patient, SetsGrown, GraphGrown, ChitsGrown, CellsGrown, StoreGrown, Open, Children;
    SetsUngrown(s.cg.cs, Reach(s.dag.g, h));
    MapsUngrown(s, n);
  }

  lemma PatientSets(s: SleetValue, h: Hash, b: Hash)
    requires Patient(s, h, b, 0)
    ensures forall a :: a in Reach(s.dag.g, h) ==> a in s.cg.cs && s.cg.cs[a].last == a && s.cg.cs[a].cnt <= C.BETA2
  {
    hide Reach, Blocks, Open;
  }

  lemma MapsUngrown(s: SleetValue, n: nat)
    ensures Children(n, 0) == {} && GraphGrown(s.dag.g, {}, s.dag.g) && ChitsGrown(s.dag.chits, {}, s.dag.chits)
    ensures CellsGrown(s.cg.cells, n, 0, s.cg.cells) && StoreGrown(s.store, {}, s.store)
  {
    hide Reach, ChildCell, Open;
  }

  lemma SetsUngrown(cs: map<Hash, C.ConflictSet>, above: set<Hash>)
    requires forall a :: a in above ==> a in cs && cs[a].last == a && cs[a].cnt <= C.BETA2
    ensures SetsGrown(cs, above, 0, {}, cs)
  {
    assert cs.Keys == cs.Keys + {};
  }

  lemma GrownPatient(s: SleetValue, n: nat, m: nat, h: Hash, b: Hash, u: SleetValue)
    requires Patient(s, h, b, m + 1) && Grown(s, n, m, h, u)
    ensures h in u.dag.g && !HasStatus(u.store, h, Accepted) && Blocks(u, h, b)
    ensures Reach(u.dag.g, h) == Reach(s.dag.g, h)
  {
    ReachInside(s.dag.g, h);
    hide Reach, CellsGrown, SetsGrown, ChitsGrown, Children;
  }

  /** The vote that comes next still leaves `b` short. */
  lemma StillQuiet(s: SleetValue, n: nat, m: nat, h: Hash, b: Hash, u: SleetValue, found: set<Hash>, t: SleetValue)
    requires m > 0 && n + m <= 100 && Patient(s, h, b, m) && Grown(s, n, m - 1, h, u) && Fresh(s, Children(n, m))
    requires Supported(u, n + m - 1, h, found, t) && Foundings(u, h, t, found) && Blocks(u, h, b)
    requires Reach(u.dag.g, h) == Reach(s.dag.g, h)
    ensures found == {} && SetsGrown(s.cg.cs, Reach(s.dag.g, h), m, Children(n, m), t.cg.cs)
  {
    ShortVote(s, n, m, h, b, u, found, t);
    hide Reach, Blocks, Patient, Supported, Grown, SetsGrown, Confident, Open;
  }

  lemma ShortVote(s: SleetValue, n: nat, m: nat, h: Hash, b: Hash, u: SleetValue, found: set<Hash>, t: SleetValue)
    requires m > 0 && n + m <= 100 && Patient(s, h, b, m) && Grown(s, n, m - 1, h, u) && Fresh(s, Children(n, m))
    requires Supported(u, n + m - 1, h, found, t) && Reach(u.dag.g, h) == Reach(s.dag.g, h)
    ensures b in t.cg.cs && !Confident(t.cg.cs[b])
    ensures SetsGrown(s.cg.cs, Reach(s.dag.g, h), m, Children(n, m), t.cg.cs)
  {
    hide Reach, Blocks, Open, GraphGrown, CellsGrown, StoreGrown, ChitsGrown;
    assert Children(n, m) == Children(n, m - 1) + {Child(n + m - 1)};
    hide Children;
    SetsMore(s.cg.cs, Reach(s.dag.g, h), m, Children(n, m - 1), u.cg.cs, Child(n + m - 1), t.cg.cs);
  }

  lemma SetsMore(cs: map<Hash, C.ConflictSet>, above: set<Hash>, m: nat, more: set<Hash>, mid: map<Hash, C.ConflictSet>,
                 k: Hash, cs': map<Hash, C.ConflictSet>)
    requires m > 0 && SetsGrown(cs, above, m - 1, more, mid) && SetsSupported(mid, k, above, cs')
    requires forall a :: a in above ==> a in cs && cs[a].last == a && cs[a].cnt + m <= C.BETA2
    requires more + {k} !! cs.Keys
    ensures SetsGrown(cs, above, m, more + {k}, cs')
  {
  }

  // the last vote

  ghost predicate StoreMarked(store: Store, more: set<Hash>, found: set<Hash>, store': Store) {
    && store'.Keys == store.Keys + more && (forall k :: k in more ==> Open(store', k))
    && (forall a :: a in store ==> store'[a] == store[a].(status := if a in found then Accepted else store[a].status))
  }

  /** What has changed once children `n` to `n + m` of `h` have arrived and been queried, and the last
      query has found `h` and its ancestry. */
  ghost predicate Decided(s: SleetValue, n: nat, m: nat, h: Hash, t: SleetValue) {
    && GraphGrown(s.dag.g, Children(n, m), t.dag.g) && ChitsGrown(s.dag.chits, Children(n, m), t.dag.chits)
    && CellsGrown(s.cg.cells, n, m, t.cg.cells) && t.cg.vertices.Keys == s.cg.vertices.Keys
    && SetsGrown(s.cg.cs, Reach(s.dag.g, h), m, Children(n, m), t.cg.cs)
    && StoreMarked(s.store, Children(n, m), Reach(s.dag.g, h), t.store)
  }

  /** After `m` votes `h` and its ancestry reach their thresholds. */
  ghost predicate Due(s: SleetValue, h: Hash, m: nat) {
    forall a :: a in Reach(s.dag.g, h) ==>
      && Open(s.store, a) && a in s.cg.cs && s.cg.cs[a].last == a && s.cg.cs[a].cnt + m <= C.BETA2
      && (s.cg.cs[a].cnt + m == C.BETA2 || (|s.cg.cs[a].conflicts| == 1 && s.cg.cs[a].cnt + m >= C.BETA1))
  }

  lemma Decide(run: Run, n: nat, h: Hash, b: Hash, m: nat) returns (more: Run)
    requires Standing(run, n) && m > 0 && n + m <= 100 && Patient(Last(run), h, b, m - 1) && Due(Last(run), h, m)
    ensures Standing(more, n + m) && Decided(Last(run), n, m, h, Last(more))
    ensures Outbox(more) == Outbox(run) + [Reach(Last(run).dag.g, h)]
  {
    hide *;
    var s := Last(run);
    var most := Tower(run, n, h, b, m - 1);
    var u := Last(most);
    DuePatient(s, n, m, h, b, u);
    var found;
    more, found := Support(most, n + m - 1, h);
    StandingParts(run, n);
    ChildrenFresh(s, n, m);
    LastVote(s, n, m, h, u, found, Last(more));
    LoudOutbox(Outbox(most), found, h);
    StandingParts(most, n + m - 1);
    BaseParts(u, n + m - 1);
    SaneFacts(u);
    BaseParts(s, n);
    SaneFacts(s);
    ReachInside(s.dag.g, h);
    DecidedMore(s, n, m, h, u, found, Last(more));
  }

  lemma LoudOutbox(box: seq<set<Hash>>, found: set<Hash>, h: Hash)
    requires h in found
    ensures box + Message(found) == box + [found]
  {
  }

  lemma DuePatient(s: SleetValue, n: nat, m: nat, h: Hash, b: Hash, u: SleetValue)
    requires m > 0 && Patient(s, h, b, m - 1) && Grown(s, n, m - 1, h, u)
    ensures h in u.dag.g && !HasStatus(u.store, h, Accepted) && Reach(u.dag.g, h) == Reach(s.dag.g, h)
    ensures h in Reach(s.dag.g, h)
  {
    ReachSelf(s.dag.g, h);
    hide Reach, CellsGrown, SetsGrown, ChitsGrown, Children;
  }

  lemma LastVote(s: SleetValue, n: nat, m: nat, h: Hash, u: SleetValue, found: set<Hash>, t: SleetValue)
    requires m > 0 && n + m <= 100 && Due(s, h, m) && Grown(s, n, m - 1, h, u) && Fresh(s, Children(n, m))
    requires Supported(u, n + m - 1, h, found, t) && Foundings(u, h, t, found)
    requires Reach(u.dag.g, h) == Reach(s.dag.g, h)
    ensures found == Reach(s.dag.g, h) && SetsGrown(s.cg.cs, Reach(s.dag.g, h), m, Children(n, m), t.cg.cs)
  {
    hide *;
    var k, less := LastChild(n, m);
    GrownParts(s, n, m - 1, h, u);
    SupportedIsSets(u, n + m - 1, h, found, t);
    FreshParts(s, Children(n, m));
    DueSets(s, h, m);
    SetsMore(s.cg.cs, Reach(s.dag.g, h), m, less, u.cg.cs, k, t.cg.cs);
    DueConfident(s, h, m, Children(n, m), u, less, t);
    FoundingsAll(u, h, t, found);
  }

  lemma SupportedIsSets(u: SleetValue, n: nat, h: Hash, found: set<Hash>, t: SleetValue)
    requires n < 100 && Supported(u, n, h, found, t)
    ensures SetsSupported(u.cg.cs, Child(n), Reach(u.dag.g, h), t.cg.cs)
  {
    hide SetsSupported, Reach;
  }

  lemma DueSets(s: SleetValue, h: Hash, m: nat)
    requires Due(s, h, m)
    ensures forall a :: a in Reach(s.dag.g, h) ==> a in s.cg.cs && s.cg.cs[a].last == a && s.cg.cs[a].cnt + m <= C.BETA2
  {
    hide Reach;
  }

  lemma DueConfident(s: SleetValue, h: Hash, m: nat, more: set<Hash>, u: SleetValue, less: set<Hash>, t: SleetValue)
    requires Due(s, h, m) && StoreGrown(s.store, less, u.store)
    requires SetsGrown(s.cg.cs, Reach(s.dag.g, h), m, more, t.cg.cs)
    ensures forall a :: a in Reach(s.dag.g, h) ==> Open(u.store, a) && a in t.cg.cs && Confident(t.cg.cs[a])
  {
    hide Reach;
  }

  lemma FoundingsAll(s: SleetValue, h: Hash, t: SleetValue, found: set<Hash>)
    requires Foundings(s, h, t, found)
    requires forall a :: a in Reach(s.dag.g, h) ==> Open(s.store, a) && a in t.cg.cs && Confident(t.cg.cs[a])
    ensures found == Reach(s.dag.g, h)
  {
    hide Reach, Open, Confident, Blocks;
  }

  lemma DecidedMore(s: SleetValue, n: nat, m: nat, h: Hash, u: SleetValue, found: set<Hash>, t: SleetValue)
    requires m > 0 && n + m <= 100 && Grown(s, n, m - 1, h, u) && Supported(u, n + m - 1, h, found, t)
    requires Closed(u.dag.g) && h in u.dag.g && Fresh(s, Children(n, m)) && found == Reach(s.dag.g, h)
    requires found <= s.store.Keys
    requires SetsGrown(s.cg.cs, Reach(s.dag.g, h), m, Children(n, m), t.cg.cs)
    ensures Decided(s, n, m, h, t)
  {
    hide *;
    var k, less := LastChild(n, m);
    GrownParts(s, n, m - 1, h, u);
    SupportedMarks(u, n + m - 1, h, found, t);
    FreshParts(s, Children(n, m));
    GraphMore(s.dag.g, less, u.dag.g, k, h, t.dag.g);
    ChitsMore(s.dag.chits, less, u.dag.chits, k, t.dag.chits);
    CellsMore(s.cg.cells, n, m, u.cg.cells, t.cg.cells);
    StoreLast(s.store, less, u.store, k, found, t.store);
    DecidedParts(s, n, m, h, t);
  }

  lemma DecidedParts(s: SleetValue, n: nat, m: nat, h: Hash, t: SleetValue)
    ensures Decided(s, n, m, h, t) <==>
      && GraphGrown(s.dag.g, Children(n, m), t.dag.g) && ChitsGrown(s.dag.chits, Children(n, m), t.dag.chits)
      && CellsGrown(s.cg.cells, n, m, t.cg.cells) && t.cg.vertices.Keys == s.cg.vertices.Keys
      && SetsGrown(s.cg.cs, Reach(s.dag.g, h), m, Children(n, m), t.cg.cs)
      && StoreMarked(s.store, Children(n, m), Reach(s.dag.g, h), t.store)
  {
    hide Children, Reach, SetsGrown, GraphGrown, CellsGrown, StoreMarked, ChitsGrown;
  }

  lemma SupportedMarks(u: SleetValue, n: nat, h: Hash, found: set<Hash>, t: SleetValue)
    requires n < 100 && Supported(u, n, h, found, t)
    ensures var k := Child(n);
      && t.dag.g == u.dag.g[k := [h]] && t.dag.chits == u.dag.chits[k := 1] && t.cg.vertices.Keys == u.cg.vertices.Keys
      && t.cg.cells == u.cg.cells[k := ChildCell(n)]
      && t.store.Keys == u.store.Keys + {k} && Open(t.store, k)
      && forall a :: a in u.store ==>
           t.store[a] == u.store[a].(status := if a in found then Accepted else u.store[a].status)
  {
    hide SetsSupported, Reach;
  }

  lemma StoreLast(store: Store, less: set<Hash>, mid: Store, k: Hash, found: set<Hash>, store': Store)
    requires StoreGrown(store, less, mid) && k !in store && k !in less && less !! store.Keys && found <= store.Keys
    requires store'.Keys == mid.Keys + {k} && Open(store', k)
    requires forall a :: a in mid ==> store'[a] == mid[a].(status := if a in found then Accepted else mid[a].status)
    ensures StoreMarked(store, less + {k}, found, store')
  {
  }
}
