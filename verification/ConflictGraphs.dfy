/** The conflict graph of `src/graph/conflict_graph.rs`: an index of spenders per output and one
    conflict set per cell, maintained step by step. */
module ConflictGraphs {
  import opened Basics
  import opened Cells

  const BETA1: u8 := 11
  const BETA2: u8 := 20

  datatype OutputStatus = Pending | Accepted | Rejected
  datatype VertexData = VertexData(spenders: set<Hash>, status: OutputStatus)
  datatype ConflictSet = ConflictSet(conflicts: set<Hash>, pref: Hash, last: Hash, cnt: u8)
  datatype ConflictError = DuplicateCell | UndefinedCell | UndefinedCellHash(hash: Hash) | EmptyConflictGraph

  datatype ConflictState = ConflictState(
    vertices: map<CellId, VertexData>,
    cells: map<Hash, Cell>,
    cs: map<Hash, ConflictSet>,
    order: seq<Hash>)

  function NewConflictSet(h: Hash): ConflictSet {
    ConflictSet({h}, h, h, 0)
  }

  // the reference definition

  /** Two cells conflict when they share an input. */
  ghost predicate Conflict(a: Cell, b: Cell) {
    exists id :: id in a.inputs && id in b.inputs
  }

  ghost function ConflictsOf(cells: map<Hash, Cell>, h: Hash): set<Hash>
    requires h in cells
  {
    set k | k in cells && (k == h || Conflict(cells[h], cells[k]))
  }

  ghost function ConsumersOf(cells: map<Hash, Cell>, id: CellId): set<Hash> {
    set k | k in cells && id in cells[k].inputs
  }

  /** `cs` and `order` name the same cells, without repeats, and each of them is recorded. */
  ghost predicate Listed(s: ConflictState) {
    && s.cs.Keys == Elems(s.order) && Distinct(s.order) && s.cs.Keys <= s.cells.Keys
    && forall h :: h in s.cells ==> s.cells[h].hash == h
  }

  /** No other cell is recorded. */
  ghost predicate SameCells(s: ConflictState) {
    Listed(s) && s.cells.Keys == s.cs.Keys
  }

  /** Every output that a cell with a conflict set produces or consumes is a vertex. */
  ghost predicate KnownOutputs(s: ConflictState) {
    forall h :: h in s.cs ==>
      h in s.cells && s.cells[h].inputs <= s.vertices.Keys && Produced(s.cells[h]) <= s.vertices.Keys
  }

  ghost predicate SpendersExact(s: ConflictState) {
    forall id :: id in s.vertices ==> s.vertices[id].spenders == ConsumersOf(s.cells, id)
  }

  ghost predicate ConflictsExact(s: ConflictState) {
    forall h :: h in s.cs ==> h in s.cells && s.cs[h].conflicts == ConflictsOf(s.cells, h)
  }

  /** The index agrees with the reference definition. */
  ghost predicate ConflictOk(s: ConflictState) {
    SameCells(s) && KnownOutputs(s) && SpendersExact(s) && ConflictsExact(s)
  }

  /** Every recorded spender does consume the output. */
  ghost predicate SpendersSound(s: ConflictState) {
    forall id :: id in s.vertices ==> s.vertices[id].spenders <= ConsumersOf(s.cells, id)
  }

  /** Each conflict set holds its own cell, only cells that do conflict, and is mutual. */
  ghost predicate ConflictsSound(s: ConflictState) {
    Within(s.cells, s.cs) && Mutual(s.cs)
  }

  ghost predicate Within(cells: map<Hash, Cell>, cs: map<Hash, ConflictSet>) {
    forall h :: h in cs ==> h in cells && h in cs[h].conflicts && cs[h].conflicts <= ConflictsOf(cells, h)
  }

  ghost predicate Mutual(cs: map<Hash, ConflictSet>) {
    forall h, k :: h in cs && k in cs[h].conflicts ==> k in cs && h in cs[k].conflicts
  }

  /** What every call keeps, also when an insertion has overwritten outputs that were being spent, or
      has stopped half-way: the index may miss spenders and conflicts, and cells may have no conflict
      set, but it records no false spenders or conflicts. */
  ghost predicate ConflictSound(s: ConflictState) {
    Listed(s) && KnownOutputs(s) && SpendersSound(s) && ConflictsSound(s)
  }

  lemma ExactIsSound(s: ConflictState)
    requires ConflictOk(s)
    ensures ConflictSound(s)
  {
    hide Produced;
    forall h, k | h in s.cs && k in s.cs[h].conflicts ensures k in s.cs && h in s.cs[k].conflicts {
      ConflictSym(s.cells[h], s.cells[k]);
    }
  }

  // insertion

  ghost function SpendersOf(vertices: map<CellId, VertexData>, ids: set<CellId>): set<Hash> {
    set id, k | id in ids && id in vertices && k in vertices[id].spenders :: k
  }

  /** `h` is in `s` and nothing before it in `order` is. */
  ghost predicate IsFirst(order: seq<Hash>, s: set<Hash>, h: Hash) {
    h in s && exists i :: 0 <= i < |order| && order[i] == h && forall j | 0 <= j < i :: order[j] !in s
  }

  function FirstIn(order: seq<Hash>, s: set<Hash>): (r: Option<Hash>)
    ensures r.None? <==> forall h :: h in order ==> h !in s
    ensures r.Some? ==> r.value in order && IsFirst(order, s, r.value)
  {
    if order == [] then None
    else if order[0] in s then Some(order[0])
    else
      FirstLater(order, s);
      FirstIn(order[1..], s)
  }

  lemma FirstLater(order: seq<Hash>, s: set<Hash>)
    requires order != [] && order[0] !in s
    ensures forall h | IsFirst(order[1..], s, h) :: IsFirst(order, s, h)
  {
    var rest := order[1..];
    forall h | IsFirst(rest, s, h) ensures IsFirst(order, s, h) {
      var i :| 0 <= i < |rest| && rest[i] == h && forall j | 0 <= j < i :: rest[j] !in s;
      assert order[i + 1] == h;
      forall j | 0 <= j < i + 1 ensures order[j] !in s { if j > 0 { assert order[j] == rest[j - 1]; } }
    }
  }

  /** A new cell joins its conflicts' sets and starts from the oldest conflict's preference and count. */
  ghost function OwnSet(s: ConflictState, h: Hash, conflicts: set<Hash>): ConflictSet {
    var first := FirstIn(s.order, conflicts);
    if first.Some? && first.value in s.cs then
      var f := s.cs[first.value];
      ConflictSet(conflicts + {h}, f.pref, f.last, f.cnt)
    else ConflictSet(conflicts + {h}, h, h, 0)
  }

  /** The conflict set `c` with which `cell` enters: with every recorded spender of its inputs, and with
      the votes of the one that has been there longest, if there is one. */
  ghost predicate StartsFrom(s: ConflictState, cell: Cell, c: ConflictSet) {
    var h, spenders := cell.hash, SpendersOf(s.vertices, cell.inputs);
    && c.conflicts == spenders + {h}
    && if spenders == {} then c.pref == h && c.last == h && c.cnt == 0
       else exists k :: IsFirst(s.order, spenders, k) && TakesOver(s, k, c)
  }

  ghost predicate TakesOver(s: ConflictState, k: Hash, c: ConflictSet) {
    k in s.cs && c.pref == s.cs[k].pref && c.last == s.cs[k].last && c.cnt == s.cs[k].cnt
  }

  ghost function SpentBy(vertices: map<CellId, VertexData>, ids: set<CellId>, h: Hash): map<CellId, VertexData> {
    map id | id in vertices ::
      if id in ids then vertices[id].(spenders := vertices[id].spenders + {h}) else vertices[id]
  }

  ghost function FreshOutputs(ids: set<CellId>): map<CellId, VertexData> {
    map id | id in ids :: VertexData({}, Pending)
  }

  ghost function JoinSets(cs: map<Hash, ConflictSet>, conflicts: set<Hash>, h: Hash): map<Hash, ConflictSet> {
    map k | k in cs :: if k in conflicts then cs[k].(conflicts := cs[k].conflicts + {h}) else cs[k]
  }

  /** The state after a successful `insert_cell`. */
  ghost function InsertedCell(s: ConflictState, cell: Cell): ConflictState {
    var h := cell.hash;
    var conflicts := SpendersOf(s.vertices, cell.inputs);
    ConflictState(
      SpentBy(s.vertices, cell.inputs, h) + FreshOutputs(Produced(cell)),
      s.cells[h := cell],
      JoinSets(s.cs, conflicts, h)[h := OwnSet(s, h, conflicts)],
      s.order + [h])
  }

  /** `insert_cell` overwrites the vertices of the outputs it produces. */
  ghost predicate ProducesUnspent(s: ConflictState, cell: Cell) {
    && cell.inputs !! Produced(cell)
    && forall k :: k in s.cells ==> s.cells[k].inputs !! Produced(cell)
  }

  /** Every cell that spends an input of the new one has a conflict set; looking up that of one without
      panics. */
  ghost predicate Joinable(s: ConflictState, cell: Cell) {
    SpendersOf(s.vertices, cell.inputs) <= s.cs.Keys
  }

  /** The state that `insert_cell` leaves when it meets an unknown input, after those in `done`: the
      cell is recorded, without a conflict set. */
  ghost function HalfInserted(s: ConflictState, cell: Cell, done: set<CellId>): ConflictState {
    s.(vertices := SpentBy(s.vertices, done, cell.hash), cells := s.cells[cell.hash := cell])
  }

  ghost predicate Insertable(s: ConflictState, cell: Cell) {
    ConflictOk(s) && cell.hash !in s.cells && cell.inputs <= s.vertices.Keys
  }

  lemma SpendersAreConflicts(s: ConflictState, cell: Cell, k: Hash)
    requires Insertable(s, cell)
    ensures k in SpendersOf(s.vertices, cell.inputs) <==> k in s.cells && Conflict(cell, s.cells[k])
  {
    if k in SpendersOf(s.vertices, cell.inputs) {
      var id :| id in cell.inputs && id in s.vertices && k in s.vertices[id].spenders;
      assert k in ConsumersOf(s.cells, id);
    }
    if k in s.cells && Conflict(cell, s.cells[k]) {
      var id :| id in cell.inputs && id in s.cells[k].inputs;
      assert k in ConsumersOf(s.cells, id);
    }
  }

  /** A successful insertion keeps the index exact if and only if no present cell (nor the new one)
      consumes an output the new cell produces. */
  lemma InsertKeepsExact(s: ConflictState, cell: Cell)
    requires Insertable(s, cell)
    ensures ConflictOk(InsertedCell(s, cell)) <==> ProducesUnspent(s, cell)
  {
    InsertSameCells(s, cell);
    InsertSpenders(s, cell);
    forall k | k in s.cs.Keys + {cell.hash}
      ensures InsertedCell(s, cell).cs[k].conflicts == ConflictsOf(s.cells[cell.hash := cell], k)
    {
      InsertConflicts(s, cell, k);
    }
  }

  /** A failed insertion keeps the index sound, and never exact. */
  lemma HalfInsertKeepsSound(s: ConflictState, cell: Cell, done: set<CellId>)
    requires ConflictSound(s) && cell.hash !in s.cells && done <= cell.inputs
    ensures ConflictSound(HalfInserted(s, cell, done)) && !ConflictOk(HalfInserted(s, cell, done))
  {
    hide Produced;
    var t := HalfInserted(s, cell, done);
    assert Listed(t) && KnownOutputs(t);
    forall id | id in t.vertices ensures t.vertices[id].spenders <= ConsumersOf(t.cells, id) {
      InsertConsumers(s, cell, id);
    }
    forall h | h in t.cs ensures t.cs[h].conflicts <= ConflictsOf(t.cells, h) {
      assert ConflictsOf(s.cells, h) <= ConflictsOf(t.cells, h);
    }
    assert Mutual(t.cs);
    assert cell.hash in t.cells && cell.hash !in t.cs;
  }

  /** Any successful insertion keeps the index sound. */
  lemma InsertKeepsSound(s: ConflictState, cell: Cell)
    requires ConflictSound(s) && cell.hash !in s.cells && cell.inputs <= s.vertices.Keys && Joinable(s, cell)
    ensures ConflictSound(InsertedCell(s, cell))
  {
    InsertSameCells(s, cell);
    InsertSpendersSound(s, cell);
    InsertConflictsSound(s, cell);
  }

  /** The spenders that insertion finds are present and share an input with the new cell. */
  lemma SpendersShare(s: ConflictState, cell: Cell)
    requires SpendersSound(s)
    ensures forall k :: k in SpendersOf(s.vertices, cell.inputs) ==> k in s.cells && Conflict(cell, s.cells[k])
  {
    forall k | k in SpendersOf(s.vertices, cell.inputs) ensures k in s.cells && Conflict(cell, s.cells[k]) {
      var id :| id in cell.inputs && id in s.vertices && k in s.vertices[id].spenders;
      assert k in ConsumersOf(s.cells, id);
    }
  }

  /** Some spender has the oldest conflict set, if there is a spender. */
  lemma FirstSpender(s: ConflictState, cell: Cell)
    requires ConflictSound(s) && cell.hash !in s.cells && Joinable(s, cell)
    ensures var conflicts := SpendersOf(s.vertices, cell.inputs);
      && conflicts <= s.cs.Keys && cell.hash !in conflicts
      && (FirstIn(s.order, conflicts).Some? <==> conflicts != {})
      && (conflicts != {} ==>
          FirstIn(s.order, conflicts).value in s.cs && IsFirst(s.order, conflicts, FirstIn(s.order, conflicts).value))
  {
    SpendersShare(s, cell);
    var conflicts := SpendersOf(s.vertices, cell.inputs);
    hide SpendersOf;
    if conflicts != {} {
      var k :| k in conflicts;
      assert k in Elems(s.order);
    }
  }

  lemma InsertStarts(s: ConflictState, cell: Cell)
    requires ConflictSound(s) && cell.hash !in s.cells && Joinable(s, cell)
    ensures StartsFrom(s, cell, InsertedCell(s, cell).cs[cell.hash])
  {
    hide ConflictSound, SpendersOf, FirstIn, IsFirst, JoinSets, SpentBy, FreshOutputs, Produced;
    FirstSpender(s, cell);
  }

  /** Joining a conflict set changes neither its votes nor its counter. */
  lemma JoinKeeps(cs: map<Hash, ConflictSet>, conflicts: set<Hash>, h: Hash)
    ensures JoinSets(cs, conflicts, h).Keys == cs.Keys
    ensures forall k | k in cs ::
      var c := JoinSets(cs, conflicts, h)[k]; c.pref == cs[k].pref && c.last == cs[k].last && c.cnt == cs[k].cnt
  {
  }

  lemma InsertSpendersSound(s: ConflictState, cell: Cell)
    requires SpendersSound(s) && cell.hash !in s.cells
    ensures SpendersSound(InsertedCell(s, cell))
  {
    hide Produced, OwnSet, SpendersOf;
    var t := InsertedCell(s, cell);
    forall id | id in t.vertices ensures t.vertices[id].spenders <= ConsumersOf(t.cells, id) {
      InsertConsumers(s, cell, id);
    }
  }

  lemma InsertConflictsSound(s: ConflictState, cell: Cell)
    requires Listed(s) && SpendersSound(s) && ConflictsSound(s) && cell.hash !in s.cells && Joinable(s, cell)
    ensures ConflictsSound(InsertedCell(s, cell))
  {
    SpendersShare(s, cell);
    var h, conflicts := cell.hash, SpendersOf(s.vertices, cell.inputs);
    assert h !in conflicts && conflicts <= s.cs.Keys;
    hide *;
    InsertedSets(s, cell);
    JoinMutual(s.cs, conflicts, h, InsertedCell(s, cell).cs);
    JoinWithin(s.cells, s.cs, conflicts, cell, InsertedCell(s, cell).cs);
    SoundParts(InsertedCell(s, cell));
  }

  lemma SoundParts(s: ConflictState)
    ensures ConflictsSound(s) <==> Within(s.cells, s.cs) && Mutual(s.cs)
  {
  }

  /** The sets after `h` joined `conflicts`. */
  ghost predicate Joined(cs: map<Hash, ConflictSet>, conflicts: set<Hash>, h: Hash, cs': map<Hash, ConflictSet>) {
    && cs'.Keys == cs.Keys + {h} && cs'[h].conflicts == conflicts + {h}
    && forall k :: k in cs && k != h ==> cs'[k].conflicts == cs[k].conflicts + if k in conflicts then {h} else {}
  }

  lemma InsertedSets(s: ConflictState, cell: Cell)
    requires cell.hash !in s.cs
    ensures InsertedCell(s, cell).cells == s.cells[cell.hash := cell]
    ensures Joined(s.cs, SpendersOf(s.vertices, cell.inputs), cell.hash, InsertedCell(s, cell).cs)
  {
    hide SpendersOf, Produced;
  }

  lemma JoinMutual(cs: map<Hash, ConflictSet>, conflicts: set<Hash>, h: Hash, cs': map<Hash, ConflictSet>)
    requires Mutual(cs) && h !in cs && conflicts <= cs.Keys && Joined(cs, conflicts, h, cs')
    ensures Mutual(cs')
  {
  }

  lemma JoinWithin(cells: map<Hash, Cell>, cs: map<Hash, ConflictSet>, conflicts: set<Hash>, cell: Cell,
                   cs': map<Hash, ConflictSet>)
    requires Within(cells, cs) && cell.hash !in cells && cell.hash !in cs && Joined(cs, conflicts, cell.hash, cs')
    requires forall k :: k in conflicts ==> k in cells && Conflict(cell, cells[k])
    ensures Within(cells[cell.hash := cell], cs')
  {
    var h, cells' := cell.hash, cells[cell.hash := cell];
    forall k | k in cs'
      ensures k in cells' && k in cs'[k].conflicts && cs'[k].conflicts <= ConflictsOf(cells', k)
    {
      if k != h {
        ConflictSym(cell, cells[k]);
        assert ConflictsOf(cells, k) <= ConflictsOf(cells', k);
      }
    }
  }

  lemma InsertSameCells(s: ConflictState, cell: Cell)
    requires Listed(s) && KnownOutputs(s) && cell.hash !in s.cells && cell.inputs <= s.vertices.Keys
    ensures Listed(InsertedCell(s, cell)) && KnownOutputs(InsertedCell(s, cell))
    ensures SameCells(s) ==> SameCells(InsertedCell(s, cell))
  {
    hide InsertedCell, Produced, Distinct;
    assert cell.hash !in Elems(s.order);
    DistinctSnoc(s.order, cell.hash);
    InsertedShape(s, cell);
  }

  lemma InsertedShape(s: ConflictState, cell: Cell)
    ensures var h, t := cell.hash, InsertedCell(s, cell);
      && t.cs.Keys == s.cs.Keys + {h} && t.cells == s.cells[h := cell] && t.order == s.order + [h]
      && t.vertices.Keys == s.vertices.Keys + Produced(cell)
  {
    hide SpendersOf, OwnSet, Produced;
  }

  lemma InsertSpenders(s: ConflictState, cell: Cell)
    requires Insertable(s, cell)
    ensures SpendersExact(InsertedCell(s, cell)) <==> ProducesUnspent(s, cell)
  {
    hide Produced, OwnSet, JoinSets, SpendersOf;
    var t := InsertedCell(s, cell);
    if ProducesUnspent(s, cell) {
      forall id | id in t.vertices ensures t.vertices[id].spenders == ConsumersOf(t.cells, id) {
        InsertConsumers(s, cell, id);
        if id in Produced(cell) { assert ConsumersOf(t.cells, id) == {}; }
      }
    } else {
      InsertLoses(s, cell);
    }
  }

  lemma InsertLoses(s: ConflictState, cell: Cell)
    requires Insertable(s, cell) && !ProducesUnspent(s, cell)
    ensures !SpendersExact(InsertedCell(s, cell))
  {
    hide Produced, OwnSet, JoinSets, SpendersOf;
    var t := InsertedCell(s, cell);
    var k := if cell.inputs !! Produced(cell)
      then (var k :| k in s.cells && !(s.cells[k].inputs !! Produced(cell)); k) else cell.hash;
    var id :| id in t.cells[k].inputs && id in Produced(cell);
    assert k in ConsumersOf(t.cells, id) && t.vertices[id].spenders == {};
  }

  lemma InsertConsumers(s: ConflictState, cell: Cell, id: CellId)
    requires cell.hash !in s.cells
    ensures ConsumersOf(s.cells[cell.hash := cell], id) ==
            ConsumersOf(s.cells, id) + if id in cell.inputs then {cell.hash} else {}
  {}

  lemma InsertConflicts(s: ConflictState, cell: Cell, k: Hash)
    requires Insertable(s, cell) && k in s.cs.Keys + {cell.hash}
    ensures InsertedCell(s, cell).cs[k].conflicts == ConflictsOf(s.cells[cell.hash := cell], k)
  {
    var h := cell.hash;
    var conflicts := SpendersOf(s.vertices, cell.inputs);
    var cells' := s.cells[h := cell];
    if k != h {
      SpendersAreConflicts(s, cell, k);
      ConflictSym(cell, s.cells[k]);
      assert ConflictsOf(cells', k) == ConflictsOf(s.cells, k) + if k in conflicts then {h} else {};
    } else {
      forall j ensures j in ConflictsOf(cells', h) <==> j in conflicts || j == h {
        SpendersAreConflicts(s, cell, j);
      }
    }
  }

  lemma ConflictSym(a: Cell, b: Cell)
    ensures Conflict(a, b) <==> Conflict(b, a)
  {}

  // removal

  ghost function ProducedBy(cells: map<Hash, Cell>, gone: set<Hash>): set<CellId> {
    set k, id | k in gone && k in cells && id in Produced(cells[k]) :: id
  }

  ghost function Marked(vertices: map<CellId, VertexData>, ids: set<CellId>,
                        status: OutputStatus): map<CellId, VertexData> {
    map id | id in vertices :: if id in ids then vertices[id].(status := status) else vertices[id]
  }

  ghost function Unspent(vertices: map<CellId, VertexData>, gone: set<Hash>): map<CellId, VertexData> {
    map id | id in vertices :: vertices[id].(spenders := vertices[id].spenders - gone)
  }

  ghost function RemovedVertices(vertices: map<CellId, VertexData>, cells: map<Hash, Cell>, gone: set<Hash>)
    : map<CellId, VertexData>
  {
    Unspent(Marked(vertices, ProducedBy(cells, gone), Rejected), gone)
  }

  ghost function RemovedSets(cs: map<Hash, ConflictSet>, gone: set<Hash>): map<Hash, ConflictSet> {
    map k | k in cs && k !in gone :: cs[k].(conflicts := cs[k].conflicts - gone)
  }

  /** The state after the cells in `gone` have been removed, in any order. */
  ghost function RemovedCells(s: ConflictState, gone: set<Hash>): ConflictState {
    ConflictState(RemovedVertices(s.vertices, s.cells, gone), s.cells - gone, RemovedSets(s.cs, gone),
                  Keep(s.order, s.cells.Keys - gone))
  }

  lemma RemoveKeepsExact(s: ConflictState, gone: set<Hash>)
    requires ConflictOk(s)
    ensures ConflictOk(RemovedCells(s, gone))
  {
    RemoveSameCells(s, gone);
    RemoveSpenders(s, gone);
    RemoveConflicts(s, gone);
  }

  /** Removing any cells keeps the index sound. */
  lemma RemoveKeepsSound(s: ConflictState, gone: set<Hash>)
    requires ConflictSound(s)
    ensures ConflictSound(RemovedCells(s, gone))
  {
    RemoveSameCells(s, gone);
    RemoveSpendersSound(s, gone);
    RemoveConflictsSound(s, gone);
  }

  lemma RemoveSpendersSound(s: ConflictState, gone: set<Hash>)
    requires SpendersSound(s)
    ensures SpendersSound(RemovedCells(s, gone))
  {
    hide Produced;
    var t := RemovedCells(s, gone);
    forall id | id in t.vertices ensures t.vertices[id].spenders <= ConsumersOf(t.cells, id) {
      assert t.vertices[id].spenders == s.vertices[id].spenders - gone;
      assert ConsumersOf(s.cells - gone, id) == ConsumersOf(s.cells, id) - gone;
    }
  }

  lemma RemoveConflictsSound(s: ConflictState, gone: set<Hash>)
    requires ConflictsSound(s)
    ensures ConflictsSound(RemovedCells(s, gone))
  {
    hide Produced, RemovedVertices, Keep;
    var t := RemovedCells(s, gone);
    forall h | h in t.cs
      ensures h in t.cells && h in t.cs[h].conflicts && t.cs[h].conflicts <= ConflictsOf(t.cells, h)
    {
      RemoveConflictsOf(s.cells, gone, h);
    }
  }

  lemma RemoveSameCells(s: ConflictState, gone: set<Hash>)
    requires Listed(s) && KnownOutputs(s)
    ensures Listed(RemovedCells(s, gone)) && KnownOutputs(RemovedCells(s, gone))
    ensures SameCells(s) ==> SameCells(RemovedCells(s, gone))
  {
    hide Produced;
    var t := RemovedCells(s, gone);
    KeepDistinct(s.order, s.cells.Keys - gone);
    forall h ensures h in t.order <==> h in t.cs {
      assert h in Elems(s.order) <==> h in s.cs;
    }
    assert Elems(t.order) == t.cs.Keys;
  }

  lemma RemoveSpenders(s: ConflictState, gone: set<Hash>)
    requires SpendersExact(s)
    ensures SpendersExact(RemovedCells(s, gone))
  {
    var t := RemovedCells(s, gone);
    forall id | id in t.vertices ensures t.vertices[id].spenders == ConsumersOf(t.cells, id) {
      assert t.vertices[id].spenders == s.vertices[id].spenders - gone;
      assert ConsumersOf(s.cells - gone, id) == ConsumersOf(s.cells, id) - gone;
    }
  }

  lemma RemoveConflicts(s: ConflictState, gone: set<Hash>)
    requires ConflictsExact(s)
    ensures ConflictsExact(RemovedCells(s, gone))
  {
    var t := RemovedCells(s, gone);
    forall h | h in t.cs ensures h in t.cells && t.cs[h].conflicts == ConflictsOf(t.cells, h) {
      assert t.cs[h].conflicts == s.cs[h].conflicts - gone;
      RemoveConflictsOf(s.cells, gone, h);
    }
  }

  lemma RemoveConflictsOf(cells: map<Hash, Cell>, gone: set<Hash>, h: Hash)
    requires h in cells && h !in gone
    ensures ConflictsOf(cells - gone, h) == ConflictsOf(cells, h) - gone
  {}

  lemma RemoveNothing(s: ConflictState)
    requires Listed(s)
    ensures RemovedCells(s, {}) == s
  {
    forall h | h in s.order ensures h in s.cells { assert h in Elems(s.order); }
    hide Listed, Produced;
    KeepAll(s.order, s.cells.Keys - {});
    RemoveNoVertices(s.vertices, s.cells);
    RemoveNoSets(s.cs);
  }

  lemma RemoveNoVertices(vertices: map<CellId, VertexData>, cells: map<Hash, Cell>)
    ensures RemovedVertices(vertices, cells, {}) == vertices
  {
    hide Produced;
    var v := RemovedVertices(vertices, cells, {});
    forall id | id in vertices ensures v[id] == vertices[id] {
      assert vertices[id].spenders - {} == vertices[id].spenders;
    }
  }

  lemma RemoveNoSets(cs: map<Hash, ConflictSet>)
    ensures RemovedSets(cs, {}) == cs
  {
    forall k | k in cs ensures RemovedSets(cs, {})[k] == cs[k] {
      assert cs[k].conflicts - {} == cs[k].conflicts;
    }
  }

  /** Removals compose. */
  lemma RemoveMore(s: ConflictState, gone: set<Hash>, h: Hash)
    ensures RemovedCells(RemovedCells(s, gone), {h}) == RemovedCells(s, gone + {h})
  {
    var kept := s.cells.Keys - gone;
    assert (s.cells - gone).Keys == kept;
    assert kept - {h} == s.cells.Keys - (gone + {h});
    KeepKeep(s.order, kept, kept - {h});
    RemoveMoreVertices(s.vertices, s.cells, gone, h);
    RemoveMoreSets(s.cs, gone, h);
    assert s.cells - gone - {h} == s.cells - (gone + {h});
  }

  lemma RemoveMoreSets(cs: map<Hash, ConflictSet>, gone: set<Hash>, h: Hash)
    ensures RemovedSets(RemovedSets(cs, gone), {h}) == RemovedSets(cs, gone + {h})
  {
    var a, b := RemovedSets(RemovedSets(cs, gone), {h}), RemovedSets(cs, gone + {h});
    forall k | k in b ensures k in a && a[k] == b[k] {
      assert cs[k].conflicts - gone - {h} == cs[k].conflicts - (gone + {h});
    }
    assert a.Keys == b.Keys;
  }

  lemma RemoveMoreVertices(vertices: map<CellId, VertexData>, cells: map<Hash, Cell>, gone: set<Hash>, h: Hash)
    ensures RemovedVertices(RemovedVertices(vertices, cells, gone), cells - gone, {h})
         == RemovedVertices(vertices, cells, gone + {h})
  {
    var a := RemovedVertices(RemovedVertices(vertices, cells, gone), cells - gone, {h});
    var b := RemovedVertices(vertices, cells, gone + {h});
    forall id | id in vertices ensures a[id] == b[id] {
      ProducedByMore(cells, gone, h, id);
      assert vertices[id].spenders - gone - {h} == vertices[id].spenders - (gone + {h});
    }
    assert a.Keys == b.Keys;
  }

  lemma ProducedByMore(cells: map<Hash, Cell>, gone: set<Hash>, h: Hash, id: CellId)
    ensures id in ProducedBy(cells, gone + {h}) <==>
      id in ProducedBy(cells, gone) || id in ProducedBy(cells - gone, {h})
  {
    if id in ProducedBy(cells, gone + {h}) {
      var k :| k in gone + {h} && k in cells && id in Produced(cells[k]);
      if k !in gone { assert k in cells - gone && (cells - gone)[k] == cells[k] && k in {h}; }
    }
    if id in ProducedBy(cells - gone, {h}) {
      var k :| k in {h} && k in cells - gone && id in Produced((cells - gone)[k]);
      assert k in gone + {h};
    }
  }

  lemma {:induction false} KeepKeep<T>(s: seq<T>, a: set<T>, b: set<T>)
    requires b <= a
    ensures Keep(Keep(s, a), b) == Keep(s, b)
  {
    if s != [] { KeepKeep(s[1..], a, b); }
  }

  // acceptance

  ghost function AcceptedSets(cs: map<Hash, ConflictSet>, h: Hash): map<Hash, ConflictSet>
    requires h in cs
  {
    RemovedSets(cs, cs[h].conflicts - {h})[h := ConflictSet({h}, h, h, cs[h].cnt)]
  }

  ghost function WithStatus(s: ConflictState, ids: set<CellId>, status: OutputStatus): ConflictState {
    s.(vertices := Marked(s.vertices, ids, status))
  }

  /** The state after a successful `accept_cell`, which rejects every conflict. */
  ghost function AcceptedCell(s: ConflictState, cell: Cell): ConflictState
    requires cell.hash in s.cs
  {
    RemovedCells(WithStatus(s, Produced(cell), Accepted), s.cs[cell.hash].conflicts - {cell.hash})
      .(cs := AcceptedSets(s.cs, cell.hash))
  }

  lemma MarkKeepsExact(s: ConflictState, ids: set<CellId>, status: OutputStatus)
    requires ConflictOk(s)
    ensures ConflictOk(WithStatus(s, ids, status))
  {}

  lemma MarkKeepsSound(s: ConflictState, ids: set<CellId>, status: OutputStatus)
    requires ConflictSound(s)
    ensures ConflictSound(WithStatus(s, ids, status))
  {
    hide Produced, ConsumersOf, ConflictsOf;
  }

  ghost predicate Present(s: ConflictState, cell: Cell) {
    ConflictOk(s) && cell.hash in s.cs && s.cells[cell.hash] == cell
  }

  /** The cells rejected by accepting a cell are exactly the others that share an input with it. */
  ghost function RejectedBy(s: ConflictState, cell: Cell): set<Hash>
    requires cell.hash in s.cs
  {
    s.cs[cell.hash].conflicts - {cell.hash}
  }

  /** The conflict sets have the same members; preferences and counters may differ. */
  ghost predicate SameMembers(a: map<Hash, ConflictSet>, b: map<Hash, ConflictSet>) {
    a.Keys == b.Keys && forall k :: k in a ==> a[k].conflicts == b[k].conflicts
  }

  lemma SameMembersKeepsExact(s: ConflictState, cs: map<Hash, ConflictSet>)
    requires ConflictOk(s) && SameMembers(s.cs, cs)
    ensures ConflictOk(s.(cs := cs))
  {
    var t := s.(cs := cs);
    assert SameCells(t) && KnownOutputs(t) && SpendersExact(t);
    forall h | h in t.cs ensures t.cs[h].conflicts == ConflictsOf(t.cells, h) {
      assert h in s.cs;
    }
  }

  lemma SameMembersKeepsSound(s: ConflictState, cs: map<Hash, ConflictSet>)
    requires ConflictSound(s) && SameMembers(s.cs, cs)
    ensures ConflictSound(s.(cs := cs))
  {
    hide Produced, ConsumersOf, ConflictsOf;
    var t := s.(cs := cs);
    assert Listed(t) && KnownOutputs(t) && SpendersSound(t);
  }

  /** Acceptance keeps the index exact and leaves the cell alone in its conflict set, with its
      confidence kept; its conflicts are gone and every other set has lost exactly those. */
  lemma AcceptIsolates(s: ConflictState, cell: Cell)
    requires Present(s, cell)
    ensures var t := AcceptedCell(s, cell); var h := cell.hash; var rejected := RejectedBy(s, cell);
      && ConflictOk(t)
      && (forall k :: k in rejected <==> k in s.cells && k != h && Conflict(cell, s.cells[k]))
      && t.cells == s.cells - rejected && h in t.cells
      && t.cs[h] == ConflictSet({h}, h, h, s.cs[h].cnt)
      && forall k :: k in t.cs && k != h ==>
           t.cs[k] == s.cs[k].(conflicts := s.cs[k].conflicts - rejected)
  {
    AcceptKeepsExact(s, cell);
    RejectedExact(s, cell);
  }

  lemma RejectedExact(s: ConflictState, cell: Cell)
    requires Present(s, cell)
    ensures forall k :: k in RejectedBy(s, cell) <==> k in s.cells && k != cell.hash && Conflict(cell, s.cells[k])
  {
    assert s.cs[cell.hash].conflicts == ConflictsOf(s.cells, cell.hash);
  }

  lemma AcceptKeepsExact(s: ConflictState, cell: Cell)
    requires Present(s, cell)
    ensures ConflictOk(AcceptedCell(s, cell))
  {
    var gone := RejectedBy(s, cell);
    var m := WithStatus(s, Produced(cell), Accepted);
    MarkKeepsExact(s, Produced(cell), Accepted);
    RemoveKeepsExact(m, gone);
    AcceptedSetsMembers(s.cs, cell.hash);
    assert cell.hash in ConflictsOf(s.cells, cell.hash);
    SameMembersKeepsExact(RemovedCells(m, gone), AcceptedSets(s.cs, cell.hash));
  }

  lemma AcceptKeepsSound(s: ConflictState, cell: Cell)
    requires ConflictSound(s) && cell.hash in s.cs && s.cells[cell.hash] == cell
    ensures ConflictSound(AcceptedCell(s, cell))
  {
    var gone := RejectedBy(s, cell);
    var m := WithStatus(s, Produced(cell), Accepted);
    MarkKeepsSound(s, Produced(cell), Accepted);
    RemoveKeepsSound(m, gone);
    AcceptedSetsMembers(s.cs, cell.hash);
    SameMembersKeepsSound(RemovedCells(m, gone), AcceptedSets(s.cs, cell.hash));
  }

  lemma AcceptedShape(s: ConflictState, cell: Cell)
    requires cell.hash in s.cs
    ensures var rest := RemovedCells(WithStatus(s, Produced(cell), Accepted), RejectedBy(s, cell));
      AcceptedCell(s, cell) ==
        rest.(cs := rest.cs[cell.hash := ConflictSet({cell.hash}, cell.hash, cell.hash, s.cs[cell.hash].cnt)])
  {
    hide Produced, RemovedVertices, Marked, Keep, RemovedSets;
  }

  lemma ConflictsPresent(s: ConflictState, h: Hash)
    requires ConflictSound(s) && h in s.cs
    ensures s.cs[h].conflicts <= s.cs.Keys && h in s.cells
  {
    hide Listed, KnownOutputs, SpendersSound;
  }

  lemma AcceptedSetsMembers(cs: map<Hash, ConflictSet>, h: Hash)
    requires h in cs
    ensures h in cs[h].conflicts ==> SameMembers(RemovedSets(cs, cs[h].conflicts - {h}), AcceptedSets(cs, h))
  {
    assert h in cs[h].conflicts ==> cs[h].conflicts - (cs[h].conflicts - {h}) == {h};
  }

  /** After acceptance the cell is the only spender of each of its inputs. */
  lemma AcceptSpender(s: ConflictState, cell: Cell, id: CellId)
    requires Present(s, cell) && id in cell.inputs
    ensures var t := AcceptedCell(s, cell); id in t.vertices && t.vertices[id].spenders == {cell.hash}
  {
    SpendersConflict(s, cell, id);
    hide Present, Produced, ConsumersOf, ProducedBy;
    assert s.vertices[id].spenders - RejectedBy(s, cell) == {cell.hash};
  }

  lemma SpendersConflict(s: ConflictState, cell: Cell, id: CellId)
    requires Present(s, cell) && id in cell.inputs
    ensures id in s.vertices && cell.hash in s.vertices[id].spenders
    ensures s.vertices[id].spenders <= s.cs[cell.hash].conflicts
  {
    hide Produced;
    assert s.cells[cell.hash].inputs <= s.vertices.Keys;
    assert s.vertices[id].spenders == ConsumersOf(s.cells, id);
    forall k | k in s.vertices[id].spenders ensures k in s.cs[cell.hash].conflicts {
      assert Conflict(cell, s.cells[k]);
    }
  }

  /** After acceptance each output of the cell has status `Accepted`. */
  lemma AcceptOutput(s: ConflictState, cell: Cell, id: CellId)
    requires ConflictSound(s) && cell.hash in s.cs && s.cells[cell.hash] == cell && id in Produced(cell)
    ensures var t := AcceptedCell(s, cell); id in t.vertices && t.vertices[id].status == Accepted
  {
    forall k | k in RejectedBy(s, cell) && k in s.cells ensures id !in Produced(s.cells[k]) {
      ProducedDisjoint(cell, s.cells[k]);
    }
    assert id !in ProducedBy(s.cells, RejectedBy(s, cell));
  }

  // votes

  /** `update_conflict_set` on one set: `d1` and `d2` are the convictions of the cell and of the
      preferred one. A change of `last` leaves the counter alone. */
  function UpdatedSet(c: ConflictSet, h: Hash, d1: nat, d2: nat): ConflictSet {
    var c' := if d1 > d2 then c.(pref := h) else c;
    if h != c.last then c'.(last := h)
    else if c.cnt < BETA2 then c'.(cnt := c.cnt + 1) else c'
  }

  // the loops

  /** Adds `h` to the spenders of every output in `ids`; stops at an unknown output. */
  method SpendInputs(vertices: map<CellId, VertexData>, ids: set<CellId>, h: Hash)
    returns (vertices': map<CellId, VertexData>, conflicts: set<Hash>, ok: bool)
    ensures ok <==> ids <= vertices.Keys
    ensures ok ==> vertices' == SpentBy(vertices, ids, h) && conflicts == SpendersOf(vertices, ids)
    ensures exists done :: done <= ids && vertices' == SpentBy(vertices, done, h)
  {
    vertices', conflicts := vertices, {};
    var todo := ids;
    assert SpentBy(vertices, {}, h) == vertices;
    while todo != {}
      invariant todo <= ids && ids - todo <= vertices.Keys
      invariant vertices' == SpentBy(vertices, ids - todo, h) && conflicts == SpendersOf(vertices, ids - todo)
      decreases todo
    {
      var id :| id in todo;
      if id !in vertices' { return vertices', conflicts, false; }
      conflicts := conflicts + vertices'[id].spenders;
      vertices' := vertices'[id := vertices'[id].(spenders := vertices'[id].spenders + {h})];
      todo := todo - {id};
    }
    assert ids - todo == ids;
    ok := true;
  }

  method AddOutputs(vertices: map<CellId, VertexData>, ids: set<CellId>) returns (vertices': map<CellId, VertexData>)
    ensures vertices' == vertices + FreshOutputs(ids)
  {
    vertices' := vertices;
    var todo := ids;
    while todo != {}
      invariant todo <= ids && vertices' == vertices + FreshOutputs(ids - todo)
      decreases todo
    {
      var id :| id in todo;
      vertices' := vertices'[id := VertexData({}, Pending)];
      todo := todo - {id};
    }
  }

  method JoinConflicts(cs: map<Hash, ConflictSet>, conflicts: set<Hash>, h: Hash)
    returns (cs': map<Hash, ConflictSet>, own: ConflictSet)
    requires conflicts <= cs.Keys
    ensures cs' == JoinSets(cs, conflicts, h) && own == ConflictSet(conflicts + {h}, h, h, 0)
  {
    cs', own := cs, NewConflictSet(h);
    var todo := conflicts;
    while todo != {}
      invariant todo <= conflicts && cs' == JoinSets(cs, conflicts - todo, h)
      invariant own == ConflictSet(conflicts - todo + {h}, h, h, 0)
      decreases todo
    {
      var k :| k in todo;
      cs' := cs'[k := cs'[k].(conflicts := cs'[k].conflicts + {h})];
      own := own.(conflicts := own.conflicts + {k});
      todo := todo - {k};
    }
  }

  method MarkOutputs(vertices: map<CellId, VertexData>, ids: set<CellId>, status: OutputStatus)
    returns (vertices': map<CellId, VertexData>)
    requires ids <= vertices.Keys
    ensures vertices' == Marked(vertices, ids, status)
  {
    vertices' := vertices;
    var todo := ids;
    while todo != {}
      invariant todo <= ids && vertices' == Marked(vertices, ids - todo, status)
      decreases todo
    {
      var id :| id in todo;
      vertices' := vertices'[id := vertices'[id].(status := status)];
      todo := todo - {id};
    }
    assert ids - todo == ids;
  }

  /** Takes `h` off the spenders of its own inputs, which takes it off all spenders. */
  method UnspendInputs(vertices: map<CellId, VertexData>, ids: set<CellId>, h: Hash)
    returns (vertices': map<CellId, VertexData>)
    requires ids <= vertices.Keys
    requires forall id :: id in vertices && id !in ids ==> h !in vertices[id].spenders
    ensures vertices' == Unspent(vertices, {h})
  {
    vertices' := vertices;
    var todo := ids;
    while todo != {}
      invariant todo <= ids && vertices'.Keys == vertices.Keys
      invariant forall id :: id in vertices ==>
        vertices'[id] == if id in todo then vertices[id] else vertices[id].(spenders := vertices[id].spenders - {h})
      decreases todo
    {
      var id :| id in todo;
      vertices' := vertices'[id := vertices'[id].(spenders := vertices'[id].spenders - {h})];
      todo := todo - {id};
    }
  }

  /** `remove_from_conflict_set`: the last member is never removed. */
  function RemoveFromConflictSet(c: ConflictSet, h: Hash): ConflictSet {
    if |c.conflicts| <= 1 then c else c.(conflicts := c.conflicts - {h})
  }

  /** Takes `h` off the sets of its conflicts, which takes it off all sets but its own. */
  method LeaveConflicts(cs: map<Hash, ConflictSet>, conflicts: set<Hash>, h: Hash) returns (cs': map<Hash, ConflictSet>)
    requires forall k :: k in cs ==> k in cs[k].conflicts
    requires forall k :: k in cs && k !in conflicts ==> h !in cs[k].conflicts
    ensures cs'.Keys == cs.Keys && cs' - {h} == RemovedSets(cs, {h})
  {
    cs' := cs;
    var todo := conflicts;
    while todo != {}
      invariant todo <= conflicts && cs'.Keys == cs.Keys
      invariant forall k :: k in cs ==>
        cs'[k] == if k in todo || k == h then cs[k] else cs[k].(conflicts := cs[k].conflicts - {h})
      decreases todo
    {
      var k :| k in todo;
      todo := todo - {k};
      if k != h && k in cs' {
        if |cs[k].conflicts| <= 1 { OnlyMember(cs[k].conflicts, k); }
        cs' := cs'[k := RemoveFromConflictSet(cs'[k], h)];
      }
    }
  }

  lemma OnlyMember<T>(s: set<T>, x: T)
    requires x in s && |s| <= 1
    ensures s == {x}
  {
    assert |s - {x}| == 0;
  }

  lemma {:induction false} WithoutIsKeep(s: seq<Hash>, all: set<Hash>, h: Hash)
    requires forall x :: x in s ==> x in all
    ensures Without(s, h) == Keep(s, all - {h})
  {
    if s != [] { WithoutIsKeep(s[1..], all, h); }
  }

  lemma {:induction false} FirstInSnoc(order: seq<Hash>, h: Hash, s: set<Hash>)
    requires h !in s
    ensures FirstIn(order + [h], s) == FirstIn(order, s)
  {
    if order != [] {
      assert (order + [h])[1..] == order[1..] + [h];
      FirstInSnoc(order[1..], h, s);
    }
  }

  class ConflictGraph {
    var vertices: map<CellId, VertexData>
    var cells: map<Hash, Cell>
    var cs: map<Hash, ConflictSet>
    var order: seq<Hash>

    ghost function Value(): ConflictState
      reads this
    {
      ConflictState(vertices, cells, cs, order)
    }

    constructor (genesis: set<CellId>)
      ensures ConflictOk(Value()) && cells == map[] && cs == map[] && order == [] && vertices.Keys == genesis
      ensures forall id :: id in vertices ==> vertices[id] == VertexData({}, Accepted)
    {
      vertices := map id | id in genesis :: VertexData({}, Accepted);
      cells, cs, order := map[], map[], [];
    }

    /** New spendable outputs; the ones already known keep their spenders and status. */
    method Append(ids: set<CellId>)
      requires ConflictSound(Value())
      modifies this`vertices
      ensures ConflictSound(Value()) && (ConflictOk(old(Value())) ==> ConflictOk(Value()))
      ensures vertices.Keys == old(vertices.Keys) + ids
      ensures forall id :: id in vertices ==>
        vertices[id] == if id in old(vertices) then old(vertices)[id] else VertexData({}, Accepted)
    {
      var todo := ids;
      while todo != {}
        invariant todo <= ids && vertices.Keys == old(vertices.Keys) + (ids - todo)
        invariant forall id :: id in vertices ==>
          vertices[id] == if id in old(vertices) then old(vertices)[id] else VertexData({}, Accepted)
        decreases todo
      {
        var id :| id in todo;
        if id !in vertices { vertices := vertices[id := VertexData({}, Accepted)]; }
        todo := todo - {id};
      }
      AppendKeepsSound(old(Value()), ids);
      if ConflictOk(old(Value())) { AppendKeepsExact(old(Value()), ids); }
      assert vertices == Performed(old(Value()), DoAppend(ids)).vertices;
    }

    method InsertCell(cell: Cell) returns (r: Result<(), ConflictError>)
      requires ConflictSound(Value())
      requires if cell.hash in cells then cells[cell.hash] == cell
               else cell.inputs <= vertices.Keys ==> Joinable(Value(), cell)
      modifies this
      ensures r == if cell.hash in old(cells) then Err(DuplicateCell)
                   else if cell.inputs <= old(vertices.Keys) then Ok(()) else Err(UndefinedCell)
      ensures ConflictSound(Value())
      ensures r.Ok? ==> Value() == InsertedCell(old(Value()), cell) && StartsFrom(old(Value()), cell, cs[cell.hash])
      ensures r.Ok? && ConflictOk(old(Value())) ==> (ConflictOk(Value()) <==> ProducesUnspent(old(Value()), cell))
      ensures r == Err(DuplicateCell) ==> Value() == old(Value())
      // an unknown input is noticed half-way
      ensures r == Err(UndefinedCell) ==>
        !ConflictOk(Value()) && exists done :: done <= cell.inputs && Value() == HalfInserted(old(Value()), cell, done)
    {
      hide Produced, ProducesUnspent, ConflictOk, ConflictSound, SpentBy, SpendersOf, JoinSets, FreshOutputs, FirstIn;
      var h := cell.hash;
      if h in cells {
        cells := cells[h := cell];
        assert Value() == old(Value());
        return Err(DuplicateCell);
      }
      cells := cells[h := cell];
      var conflicts: set<Hash>, ok: bool;
      vertices, conflicts, ok := SpendInputs(vertices, cell.inputs, h);
      if !ok {
        ghost var done :| done <= cell.inputs && vertices == SpentBy(old(vertices), done, h);
        HalfInsertKeepsSound(old(Value()), cell, done);
        assert Value() == HalfInserted(old(Value()), cell, done);
        return Err(UndefinedCell);
      }
      vertices := AddOutputs(vertices, Produced(cell));
      order := order + [h];
      FirstSpender(old(Value()), cell);
      var own: ConflictSet;
      cs, own := JoinConflicts(cs, conflicts, h);
      FirstInSnoc(old(order), h, conflicts);
      JoinKeeps(old(cs), conflicts, h);
      if conflicts != {} {
        var first := FirstIn(order, conflicts);
        var c := cs[first.value];
        own := own.(pref := c.pref, last := c.last, cnt := c.cnt);
      }
      cs := cs[h := own];
      InsertKeepsSound(old(Value()), cell);
      InsertStarts(old(Value()), cell);
      if ConflictOk(old(Value())) { InsertKeepsExact(old(Value()), cell); }
      return Ok(());
    }

    method RemoveCell(h: Hash) returns (r: Result<(), ConflictError>)
      requires ConflictSound(Value())
      modifies this
      ensures ConflictSound(Value()) && (ConflictOk(old(Value())) ==> ConflictOk(Value()))
      ensures if h in old(cs) then r == Ok(()) && Value() == RemovedCells(old(Value()), {h})
              else r == Err(UndefinedCell) && Value() == old(Value())
    {
      if h !in cs { return Err(UndefinedCell); }
      RemoveKeepsSound(Value(), {h});
      if ConflictOk(Value()) { RemoveKeepsExact(Value(), {h}); }
      RemovalFacts(Value(), h);
      RemovePresent(h);
      return Ok(());
    }

    method RemovePresent(h: Hash)
      requires Removable(Value(), h)
      modifies this
      ensures Value() == RemovedCells(old(Value()), {h})
    {
      RemoveFromVertices(h);
      cs := LeaveConflicts(cs, cs[h].conflicts, h);
      WithoutIsKeep(order, cells.Keys, h);
      cells := cells - {h};
      cs := cs - {h};
      order := Without(order, h);
    }

    method RemoveFromVertices(h: Hash)
      requires h in cells && cells[h].inputs <= vertices.Keys && Produced(cells[h]) <= vertices.Keys
      requires forall id :: id in vertices && id !in cells[h].inputs ==> h !in vertices[id].spenders
      modifies this`vertices
      ensures vertices == RemovedVertices(old(vertices), cells, {h})
    {
      var cell := cells[h];
      assert ProducedBy(cells, {h}) == Produced(cell);
      vertices := MarkOutputs(vertices, Produced(cell), Rejected);
      vertices := UnspendInputs(vertices, cell.inputs, h);
    }

    /** Removes the given cells one by one. */
    method RejectConflicts(rejected: set<Hash>)
      requires ConflictSound(Value()) && rejected <= cs.Keys
      modifies this
      ensures Value() == RemovedCells(old(Value()), rejected)
    {
      var todo := rejected;
      RemoveNothing(Value());
      assert rejected - todo == {};
      while todo != {}
        invariant todo <= rejected && Value() == RemovedCells(old(Value()), rejected - todo)
        decreases todo
      {
        var k :| k in todo;
        RejectOne(old(Value()), rejected, todo, k);
        todo := todo - {k};
      }
      assert rejected - todo == rejected;
    }

    method RejectOne(ghost m: ConflictState, ghost rejected: set<Hash>, ghost todo: set<Hash>, k: Hash)
      requires ConflictSound(m) && Value() == RemovedCells(m, rejected - todo) && k in todo
      requires todo <= rejected <= m.cs.Keys
      modifies this
      ensures Value() == RemovedCells(m, rejected - (todo - {k}))
    {
      RejectStep(m, rejected, todo, k);
      hide ConflictSound, ConflictOk, RemovedCells;
      var _ := RemoveCell(k);
    }

    method AcceptCell(cell: Cell) returns (r: Result<seq<Hash>, ConflictError>)
      requires ConflictSound(Value()) && Produced(cell) <= vertices.Keys
      requires cell.hash in cells ==> cells[cell.hash] == cell
      modifies this
      ensures ConflictSound(Value()) && (ConflictOk(old(Value())) ==> ConflictOk(Value()))
      ensures if cell.hash in old(cs)
        then && r.Ok? && Distinct(r.value) && Elems(r.value) == RejectedBy(old(Value()), cell)
             && Value() == AcceptedCell(old(Value()), cell)
        else r == Err(UndefinedCell) && Value() == WithStatus(old(Value()), Produced(cell), Accepted)
    {
      hide ConflictSound, ConflictOk, Produced, RemovedVertices, Marked, Keep, RemovedSets, RemovedCells, AcceptedCell;
      AcceptFacts(Value(), cell);
      vertices := MarkOutputs(vertices, Produced(cell), Accepted);
      if cell.hash !in cs { return Err(UndefinedCell); }
      var conflictSet := cs[cell.hash];
      RejectConflicts(conflictSet.conflicts - {cell.hash});
      cs := cs[cell.hash := NewConflictSet(cell.hash).(cnt := conflictSet.cnt)];
      var rejected := Collect(conflictSet.conflicts - {cell.hash});
      return Ok(rejected);
    }

    method UpdateConflictSet(h: Hash, d1: u8, d2: u8) returns (r: Result<(), ConflictError>)
      modifies this`cs
      ensures if h in old(cs) then r == Ok(()) && cs == old(cs)[h := UpdatedSet(old(cs)[h], h, d1, d2)]
              else cs == old(cs) && r == Err(if old(cs) == map[] then EmptyConflictGraph else UndefinedCellHash(h))
      // the preference moves to `h` just when `h` outweighs it
      ensures h in old(cs) && d1 > d2 ==> cs[h].pref == h
      ensures h in old(cs) && d1 <= d2 ==> cs[h].pref == old(cs)[h].pref
    {
      if |cs| == 0 { return Err(EmptyConflictGraph); }
      if h !in cs { return Err(UndefinedCellHash(h)); }
      var c := cs[h];
      if d1 > d2 { c := c.(pref := h); }
      if h != c.last {
        c := c.(last := h);
      } else if c.cnt < BETA2 {
        c := c.(cnt := c.cnt + 1);
      }
      cs := cs[h := c];
      return Ok(());
    }

    method ResetCount(h: Hash) returns (r: Result<(), ConflictError>)
      modifies this`cs
      ensures if h in old(cs) then r == Ok(()) && cs == old(cs)[h := old(cs)[h].(cnt := 0)]
              else cs == old(cs) && r == Err(if old(cs) == map[] then EmptyConflictGraph else UndefinedCellHash(h))
    {
      if |cs| == 0 { return Err(EmptyConflictGraph); }
      if h !in cs { return Err(UndefinedCellHash(h)); }
      cs := cs[h := cs[h].(cnt := 0)];
      return Ok(());
    }
  }

  /** Everything `accept_cell` relies on. */
  lemma AcceptFacts(s: ConflictState, cell: Cell)
    requires ConflictSound(s) && (cell.hash in s.cells ==> s.cells[cell.hash] == cell)
    ensures var m := WithStatus(s, Produced(cell), Accepted);
      ConflictSound(m) && (ConflictOk(s) ==> ConflictOk(m))
    ensures cell.hash in s.cs ==>
      && RejectedBy(s, cell) <= s.cs.Keys
      && ConflictSound(AcceptedCell(s, cell)) && (ConflictOk(s) ==> ConflictOk(AcceptedCell(s, cell)))
      && var rest := RemovedCells(WithStatus(s, Produced(cell), Accepted), RejectedBy(s, cell));
         AcceptedCell(s, cell) ==
           rest.(cs := rest.cs[cell.hash := ConflictSet({cell.hash}, cell.hash, cell.hash, s.cs[cell.hash].cnt)])
  {
    hide *;
    MarkKeepsSound(s, Produced(cell), Accepted);
    if ConflictOk(s) { MarkKeepsExact(s, Produced(cell), Accepted); }
    if cell.hash in s.cs {
      ConflictsPresent(s, cell.hash);
      RejectedInside(s, cell);
      AcceptKeepsSound(s, cell);
      if ConflictOk(s) { PresentAccepts(s, cell); }
      AcceptedShape(s, cell);
    }
  }

  lemma RejectedInside(s: ConflictState, cell: Cell)
    requires cell.hash in s.cs && s.cs[cell.hash].conflicts <= s.cs.Keys
    ensures RejectedBy(s, cell) <= s.cs.Keys
  {
  }

  lemma PresentAccepts(s: ConflictState, cell: Cell)
    requires ConflictOk(s) && cell.hash in s.cs && cell.hash in s.cells && s.cells[cell.hash] == cell
    ensures ConflictOk(AcceptedCell(s, cell))
  {
    hide ConflictOk, AcceptedCell;
    AcceptKeepsExact(s, cell);
  }

  lemma RejectStep(m: ConflictState, rejected: set<Hash>, todo: set<Hash>, k: Hash)
    requires ConflictSound(m) && k in todo && todo <= rejected <= m.cs.Keys
    ensures var s := RemovedCells(m, rejected - todo);
      && ConflictSound(s) && k in s.cs
      && RemovedCells(s, {k}) == RemovedCells(m, rejected - (todo - {k}))
  {
    hide *;
    assert rejected - todo + {k} == rejected - (todo - {k});
    RemoveMore(m, rejected - todo, k);
    RemoveKeepsSound(m, rejected - todo);
    StillPresent(m, rejected - todo, k);
  }

  lemma StillPresent(s: ConflictState, gone: set<Hash>, k: Hash)
    requires k in s.cs && k !in gone
    ensures k in RemovedCells(s, gone).cs
  {
  }

  /** What a sound index says about one present cell. */
  ghost predicate Removable(s: ConflictState, h: Hash) {
    && h in s.cs && h in s.cells
    && s.cells[h].inputs <= s.vertices.Keys && Produced(s.cells[h]) <= s.vertices.Keys
    && (forall id :: id in s.vertices && id !in s.cells[h].inputs ==> h !in s.vertices[id].spenders)
    && (forall k :: k in s.cs ==> k in s.cs[k].conflicts)
    && (forall k :: k in s.cs && k !in s.cs[h].conflicts ==> h !in s.cs[k].conflicts)
    && (forall k :: k in s.order ==> k in s.cells)
  }

  lemma RemovalFacts(s: ConflictState, h: Hash)
    requires ConflictSound(s) && h in s.cs
    ensures Removable(s, h)
  {
    forall id | id in s.vertices && id !in s.cells[h].inputs ensures h !in s.vertices[id].spenders {
      assert h !in ConsumersOf(s.cells, id);
    }
    forall k | k in s.order ensures k in s.cells { assert k in Elems(s.order); }
  }

  // every run

  datatype Call =
    | DoAppend(ids: set<CellId>) | DoInsert(cell: Cell) | DoAccept(cell: Cell) | DoRemove(hash: Hash)
    | DoUpdate(hash: Hash, d1: u8, d2: u8) | DoReset(hash: Hash)
    | FailInsert(cell: Cell, done: set<CellId>)  // an input is unknown; those in `done` came first

  ghost predicate Returns(s: ConflictState, c: Call) {
    match c
    case DoAppend(_) => true
    case DoInsert(cell) => cell.hash !in s.cells && cell.inputs <= s.vertices.Keys && Joinable(s, cell)
    case DoAccept(cell) => cell.hash in s.cells && s.cells[cell.hash] == cell
    case DoRemove(h) => h in s.cs
    case DoUpdate(h, _, _) => h in s.cs
    case DoReset(h) => h in s.cs
    case FailInsert(cell, done) => cell.hash !in s.cells && !(cell.inputs <= s.vertices.Keys) && done <= cell.inputs
  }

  /** An inserted cell produces an output that is already being spent, or an insertion fails. */
  ghost predicate Spoils(s: ConflictState, c: Call) {
    (c.DoInsert? && !ProducesUnspent(s, c.cell)) || c.FailInsert?
  }

  ghost function Performed(s: ConflictState, c: Call): ConflictState {
    match c
    case DoAppend(ids) =>
      s.(vertices := (map id | id in ids :: VertexData({}, Accepted)) + s.vertices)
    case DoInsert(cell) => InsertedCell(s, cell)
    case DoAccept(cell) => if cell.hash in s.cs then AcceptedCell(s, cell) else s
    case DoRemove(h) => RemovedCells(s, {h})
    case DoUpdate(h, d1, d2) => if h in s.cs then s.(cs := s.cs[h := UpdatedSet(s.cs[h], h, d1, d2)]) else s
    case DoReset(h) => if h in s.cs then s.(cs := s.cs[h := s.cs[h].(cnt := 0)]) else s
    case FailInsert(cell, done) => HalfInserted(s, cell, done)
  }

  ghost predicate RunReturns(s: ConflictState, calls: seq<Call>)
    decreases |calls|
  {
    calls == [] || (Returns(s, calls[0]) && RunReturns(Performed(s, calls[0]), calls[1..]))
  }

  ghost function Ran(s: ConflictState, calls: seq<Call>): ConflictState
    decreases |calls|
  {
    if calls == [] then s else Ran(Performed(s, calls[0]), calls[1..])
  }

  /** Appended ids are new outputs that no cell consumes yet, or outputs that are known already. */
  lemma AppendKeepsExact(s: ConflictState, ids: set<CellId>)
    requires ConflictOk(s)
    ensures ConflictOk(Performed(s, DoAppend(ids)))
  {
    var t := Performed(s, DoAppend(ids));
    forall id | id in t.vertices ensures t.vertices[id].spenders == ConsumersOf(t.cells, id) {
      if id !in s.vertices { assert ConsumersOf(s.cells, id) == {}; }
    }
    assert KnownOutputs(t);
  }

  lemma AppendKeepsSound(s: ConflictState, ids: set<CellId>)
    requires ConflictSound(s)
    ensures ConflictSound(Performed(s, DoAppend(ids)))
  {
    hide Produced, ConsumersOf, ConflictsOf;
    var t := Performed(s, DoAppend(ids));
    assert KnownOutputs(t);
  }

  /** A call that returns keeps the index sound, and it keeps an exact index exact unless it is an
      insertion that overwrites or fails; such an insertion never does. */
  lemma StepKeepsSound(s: ConflictState, c: Call)
    requires ConflictSound(s) && Returns(s, c)
    ensures ConflictSound(Performed(s, c))
    ensures ConflictOk(s) ==> (ConflictOk(Performed(s, c)) <==> !Spoils(s, c))
  {
    hide ConflictSound, InsertedCell, AcceptedCell, RemovedCells, ProducesUnspent;
    if ConflictOk(s) { StepKeepsExact(s, c); }
    hide ConflictOk;
    match c {
      case DoAppend(ids) => AppendKeepsSound(s, ids);
      case DoInsert(cell) => InsertKeepsSound(s, cell);
      case DoAccept(cell) => AcceptFacts(s, cell);
      case DoRemove(h) => RemoveKeepsSound(s, {h});
      case DoUpdate(h, d1, d2) => SameMembersKeepsSound(s, s.cs[h := UpdatedSet(s.cs[h], h, d1, d2)]);
      case DoReset(h) => SameMembersKeepsSound(s, s.cs[h := s.cs[h].(cnt := 0)]);
      case FailInsert(cell, done) => HalfInsertKeepsSound(s, cell, done);
    }
  }

  lemma StepKeepsExact(s: ConflictState, c: Call)
    requires ConflictOk(s) && Returns(s, c)
    ensures ConflictOk(Performed(s, c)) <==> !Spoils(s, c)
  {
    hide ConflictOk, ConflictSound, InsertedCell, AcceptedCell, RemovedCells, HalfInserted, ProducesUnspent, Joinable;
    ExactKeys(s);
    match c {
      case DoAppend(ids) => AppendKeepsExact(s, ids);
      case DoInsert(cell) => InsertKeepsExact(s, cell);
      case DoAccept(cell) => AcceptKeepsExact(s, cell);
      case DoRemove(h) => RemoveKeepsExact(s, {h});
      case DoUpdate(h, d1, d2) => SameMembersKeepsExact(s, s.cs[h := UpdatedSet(s.cs[h], h, d1, d2)]);
      case DoReset(h) => SameMembersKeepsExact(s, s.cs[h := s.cs[h].(cnt := 0)]);
      case FailInsert(cell, done) => HalfInsertExact(s, cell, done);
    }
  }

  /** `id` is an output of a cell in `gone`. */
  ghost predicate OutputOf(cells: map<Hash, Cell>, gone: set<Hash>, id: CellId) {
    exists k :: k in gone && k in cells && id in Produced(cells[k])
  }

  /** What a call writes on an output: new ones are accepted if announced and pending if produced by a cell
      that enters; accepting a cell accepts its outputs and rejects those of its conflicts; removing a
      cell rejects its outputs. Nothing else changes a status. */
  lemma OutputFate(s: ConflictState, c: Call, id: CellId)
    requires ConflictSound(s) && Returns(s, c) && id in Performed(s, c).vertices
    ensures var status := Performed(s, c).vertices[id].status;
      match c
      case DoAppend(ids) => status == if id in s.vertices then s.vertices[id].status else Accepted
      case DoInsert(cell) => status == (if id in Produced(cell) then Pending else s.vertices[id].status)
      case DoAccept(cell) => cell.hash in s.cs ==>
        (status == if id in Produced(cell) then Accepted
                   else if OutputOf(s.cells, s.cs[cell.hash].conflicts - {cell.hash}, id) then Rejected
                   else s.vertices[id].status)
      case DoRemove(h) => status == (if OutputOf(s.cells, {h}, id) then Rejected else s.vertices[id].status)
      case _ => id in s.vertices && status == s.vertices[id].status
  {
    hide ConflictSound, Produced;
    match c
    case DoAccept(cell) =>
      if cell.hash in s.cs && id in Produced(cell) { AcceptOutput(s, cell, id); }
    case _ =>
  }

  lemma ExactKeys(s: ConflictState)
    requires ConflictOk(s)
    ensures s.cells.Keys == s.cs.Keys
  {
  }

  lemma HalfInsertExact(s: ConflictState, cell: Cell, done: set<CellId>)
    requires ConflictOk(s) && cell.hash !in s.cells && done <= cell.inputs
    ensures !ConflictOk(HalfInserted(s, cell, done))
  {
    ExactIsSound(s);
    hide ConflictSound, ConflictOk, HalfInserted;
    HalfInsertKeepsSound(s, cell, done);
  }

  /** No insertion of the run overwrites or fails. */
  ghost predicate Clean(s: ConflictState, calls: seq<Call>)
    decreases |calls|
  {
    calls == [] || (!Spoils(s, calls[0]) && Clean(Performed(s, calls[0]), calls[1..]))
  }

  /** Through every run of calls that return the index records no false spender or conflict; as long as
      no insertion overwrites or fails, it equals the reference definition. */
  lemma {:induction false} RunKeepsExact(s: ConflictState, calls: seq<Call>)
    requires ConflictSound(s) && RunReturns(s, calls)
    ensures ConflictSound(Ran(s, calls))
    ensures ConflictOk(s) && Clean(s, calls) ==> ConflictOk(Ran(s, calls))
    decreases |calls|
  {
    hide ConflictSound, ConflictOk, Returns, Spoils, Performed;
    if calls != [] {
      StepKeepsSound(s, calls[0]);
      RunKeepsExact(Performed(s, calls[0]), calls[1..]);
    }
  }
}
