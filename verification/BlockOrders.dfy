/** When a block applies, and whether that depends on the order of its cells (`src/alpha/state.rs`). */
module BlockOrders {
  import opened Basics
  import opened Cells
  import opened DependencyGraphs
  import opened AlphaState

  ghost function TypesIn(outs: map<CellId, Output>, ids: set<CellId>): set<CellType>
    requires ids <= outs.Keys
  {
    set o | o in NamedOutputs(outs, ids) :: o.cellType
  }

  /** What a cell must meet, with its inputs looked up among all outputs there will be. */
  ghost predicate Passes(after: map<Ids, Cell>, height: nat, cell: Cell)
    requires LiveOk(after)
  {
    && cell.inputs <= Outs(after).Keys
    && Rejection(cell.outputs, TypesIn(Outs(after), cell.inputs)).None?
    && !Collapses(after, cell.inputs)
    && Tallied(cell.outputs, height).Ok?
    && Affordable(Tallied(cell.outputs, height).value, height, Total(Outs(after), cell.inputs))
  }

  predicate Affordable(t: Tally, height: nat, consumed: nat) {
    || (consumed >= t.produced + t.staked && consumed > 0 && t.coinbase == 0)
    || (height == 0 && t.coinbase > 0 && t.produced == 0 && t.staked == 0)
  }

  lemma AppliedOk(s: State, cell: Cell)
    requires LiveOk(s.live)
    ensures Applied(s, cell).Ok? <==> Passes(s.live, s.height, cell) && Produced(cell) !in s.live
  {
    hide LiveOk, Outs, Rejection, Collapses, Tallied, Total, NamedOutputs;
  }

  /** Whether a cell passes does not depend on cells it consumes nothing from, unless one of those has
      no outputs. */
  lemma PassesEarly(live: map<Ids, Cell>, after: map<Ids, Cell>, height: nat, cell: Cell)
    requires LiveOk(live) && LiveOk(after) && ({} in after ==> {} in live)
    requires forall k | k in live :: k in after && after[k] == live[k]
    requires forall k | k in after && k !in live :: k !! cell.inputs
    ensures Passes(live, height, cell) <==> Passes(after, height, cell)
  {
    SameInputs(live, after, cell.inputs);
    OutsGrow(live, after);
    if cell.inputs <= Outs(live).Keys {
      assert TypesIn(Outs(live), cell.inputs) == TypesIn(Outs(after), cell.inputs) by {
        hide LiveOk, Outs;
        assert NamedOutputs(Outs(live), cell.inputs) == NamedOutputs(Outs(after), cell.inputs);
      }
      TotalSame(Outs(live), Outs(after), cell.inputs);
      SameCollapse(live, after, cell.inputs);
    }
    hide LiveOk, Outs, Rejection, Collapses, Tallied, Total, NamedOutputs, TypesIn;
  }

  lemma SameInputs(live: map<Ids, Cell>, after: map<Ids, Cell>, inputs: Ids)
    requires LiveOk(live) && LiveOk(after)
    requires forall k | k in live :: k in after && after[k] == live[k]
    requires forall k | k in after && k !in live :: k !! inputs
    ensures inputs <= Outs(live).Keys <==> inputs <= Outs(after).Keys
  {
    hide LiveOk, Outs;
    forall id | id in inputs ensures id in Outs(live) <==> id in Outs(after) {
      OutsKeys(live, id);
      OutsKeys(after, id);
      if k :| Holds(live, k, id) { assert Holds(after, k, id); }
      if k :| Holds(after, k, id) { assert Holds(live, k, id); }
    }
  }

  lemma SameCollapse(live: map<Ids, Cell>, after: map<Ids, Cell>, inputs: Ids)
    requires LiveOk(live) && LiveOk(after) && ({} in after ==> {} in live)
    requires forall k | k in live :: k in after && after[k] == live[k]
    requires forall k | k in after && k !in live :: k !! inputs
    ensures Collapses(live, inputs) <==> Collapses(after, inputs)
  {
    CollapsesWhen(live, inputs);
    CollapsesWhen(after, inputs);
    hide LiveOk, Collapses;
    forall k | k in after && k <= inputs ensures k in live {
      assert k !in live ==> k == {};
    }
  }

  lemma ExtendsTail(before: map<Ids, Cell>, cells: seq<Cell>, after: map<Ids, Cell>)
    requires cells != [] && Extends(before, cells, after)
    ensures Extends(before[Produced(cells[0]) := cells[0]], cells[1..], after)
  {
    hide Produced;
    var p, rest := Produced(cells[0]), cells[1..];
    forall k | k in after && k !in before && k != p ensures exists i :: 0 <= i < |rest| && k == Produced(rest[i]) {
      var i :| 0 <= i < |cells| && k == Produced(cells[i]);
      assert rest[i - 1] == cells[i];
    }
    assert forall cell | cell in rest :: cell in cells;
    assert cells[0] in cells;
  }

  ghost predicate AllFresh(live: map<Ids, Cell>, cells: seq<Cell>) {
    forall cell | cell in cells :: Produced(cell) !in live
  }

  lemma FreshTail(live: map<Ids, Cell>, cells: seq<Cell>)
    requires cells != [] && AllFresh(live, cells) && KeysDistinct(cells)
    ensures AllFresh(live[Produced(cells[0]) := cells[0]], cells[1..]) && KeysDistinct(cells[1..])
  {
    hide Produced;
    var rest := cells[1..];
    forall cell | cell in rest ensures Produced(cell) !in live && Produced(cell) != Produced(cells[0]) {
      var i :| 0 <= i < |rest| && rest[i] == cell;
      assert cells[i + 1] == cell && cell in cells;
    }
  }

  lemma LaterApart(live: map<Ids, Cell>, cells: seq<Cell>, after: map<Ids, Cell>)
    requires cells != [] && InDependencyOrder(cells) && Extends(live, cells, after)
    ensures forall k | k in after && k !in live :: k !! cells[0].inputs
  {
    hide Produced;
    forall k | k in after && k !in live ensures k !! cells[0].inputs {
      var i :| 0 <= i < |cells| && k == Produced(cells[i]);
    }
  }

  // The empty key

  /** Some cell without outputs is live or comes earlier in the block. */
  ghost predicate HasEmpty(live: map<Ids, Cell>, earlier: seq<Cell>) {
    {} in live || exists cell :: cell in earlier && Produced(cell) == {}
  }

  ghost function WithoutEmpty(after: map<Ids, Cell>): map<Ids, Cell> {
    map k | k in after && k != {} :: after[k]
  }

  /** Of the cells that are live in the end, those that matter to the next one: the empty key shows
      only from the moment it is there. */
  ghost function Visible(live: map<Ids, Cell>, earlier: seq<Cell>, after: map<Ids, Cell>): (v: map<Ids, Cell>)
    requires LiveOk(after)
    ensures LiveOk(v)
  {
    hide Produced;
    if HasEmpty(live, earlier) then after else WithoutEmpty(after)
  }

  lemma VisibleTail(live: map<Ids, Cell>, cells: seq<Cell>, j: nat, after: map<Ids, Cell>)
    requires 0 < j <= |cells| && LiveOk(after)
    ensures Visible(live[Produced(cells[0]) := cells[0]], cells[1..][..j - 1], after) ==
      Visible(live, cells[..j], after)
  {
    hide Produced, LiveOk;
    assert cells[..j] == [cells[0]] + cells[1..][..j - 1];
    var p, rest := Produced(cells[0]), cells[1..][..j - 1];
    assert forall cell :: cell in cells[..j] <==> cell == cells[0] || cell in rest;
    assert HasEmpty(live[p := cells[0]], rest) <==> HasEmpty(live, cells[..j]);
  }

  lemma FirstPasses(live: map<Ids, Cell>, cells: seq<Cell>, after: map<Ids, Cell>, height: nat)
    requires cells != [] && LiveOk(live) && LiveOk(after) && InDependencyOrder(cells) && Extends(live, cells, after)
    ensures Passes(live, height, cells[0]) <==> Passes(Visible(live, cells[..0], after), height, cells[0])
  {
    LaterApart(live, cells, after);
    ExtendsKeeps(live, cells, after);
    hide InDependencyOrder, Extends, LiveOk, Passes, Produced;
    PassesEarly(live, Visible(live, cells[..0], after), height, cells[0]);
  }

  /** In dependency order a block applies if and only if each of its cells passes against the cells
      that are live in the end, an earlier or later empty key being all that depends on the order. */
  lemma {:induction false} AppliesIffAllPass(s: State, cells: seq<Cell>, after: map<Ids, Cell>)
    requires Sound(s.live, cells) && InDependencyOrder(cells) && KeysDistinct(cells) && AllFresh(s.live, cells)
    requires LiveOk(after) && Extends(s.live, cells, after)
    ensures ApplyAll(s, cells).Ok? <==>
      forall j | 0 <= j < |cells| :: Passes(Visible(s.live, cells[..j], after), s.height, cells[j])
    decreases |cells|
  {
    hide Sound, InDependencyOrder, KeysDistinct, Extends, LiveOk, Passes, Applied, Visible, AllFresh;
    if cells == [] {
      SoundLive(s.live, cells);
      ApplyNone(s);
    } else {
      var c, rest := cells[0], cells[1..];
      ApplyUnfold(s, cells);
      FirstPasses(s.live, cells, after, s.height);
      FirstFresh(s.live, cells);
      AppliedOk(s, c);
      if Applied(s, c).Ok? {
        AppliedKeepsSound(s, cells);
        AppliedHeight(s, c);
        FreshTail(s.live, cells);
        ExtendsTail(s.live, cells, after);
        OrderTail(cells);
        AppliesIffAllPass(Applied(s, c).value, rest, after);
        TailPasses(s.live, cells, after, s.height);
      }
    }
  }

  lemma FirstFresh(live: map<Ids, Cell>, cells: seq<Cell>)
    requires cells != [] && AllFresh(live, cells)
    ensures Produced(cells[0]) !in live
  {
    assert cells[0] in cells;
  }

  lemma TailPasses(live: map<Ids, Cell>, cells: seq<Cell>, after: map<Ids, Cell>, height: nat)
    requires cells != [] && LiveOk(after)
    ensures var rest := cells[1..]; var live' := live[Produced(cells[0]) := cells[0]];
      (forall j | 0 <= j < |rest| :: Passes(Visible(live', rest[..j], after), height, rest[j])) <==>
      (forall j | 0 < j < |cells| :: Passes(Visible(live, cells[..j], after), height, cells[j]))
  {
    hide LiveOk, Passes, Visible, Produced;
    var rest := cells[1..];
    var live' := live[Produced(cells[0]) := cells[0]];
    forall j | 0 < j < |cells|
      ensures Passes(Visible(live, cells[..j], after), height, cells[j]) <==>
        Passes(Visible(live', rest[..j - 1], after), height, rest[j - 1])
    {
      VisibleTail(live, cells, j, after);
    }
    forall j | 0 <= j < |rest|
      ensures Passes(Visible(live', rest[..j], after), height, rest[j]) <==>
        Passes(Visible(live, cells[..j + 1], after), height, cells[j + 1])
    {
      VisibleTail(live, cells, j + 1, after);
    }
  }

  lemma AppliedHeight(s: State, cell: Cell)
    requires LiveOk(s.live) && Applied(s, cell).Ok?
    ensures Applied(s, cell).value.height == s.height
  {
    hide LiveOk, Outs, Rejection, Collapses, Tallied, Total, NamedOutputs;
  }

  lemma {:induction false} AppliedWasFresh(s: State, cells: seq<Cell>)
    requires Sound(s.live, cells) && ApplyAll(s, cells).Ok?
    ensures AllFresh(s.live, cells)
    decreases |cells|
  {
    hide Sound, Applied, Produced, Outs, LiveOk;
    if cells != [] {
      SoundLive(s.live, cells);
      ApplyStep(s, cells);
      AppliedWasFresh(Applied(s, cells[0]).value, cells[1..]);
      assert cells == [cells[0]] + cells[1..];
    }
  }

  /** A cell without outputs is live already, or the block has none. */
  ghost predicate EmptySettled(live: map<Ids, Cell>, cells: seq<Cell>) {
    {} in live || forall cell | cell in cells :: cell.outputs != []
  }

  lemma ProducesSome(cell: Cell)
    ensures Produced(cell) == {} <==> cell.outputs == []
  {
    if cell.outputs != [] { IdAt(cell.hash, 0, |cell.outputs|); }
  }

  lemma SettledVisible(live: map<Ids, Cell>, cells: seq<Cell>, j: nat, after: map<Ids, Cell>)
    requires EmptySettled(live, cells) && LiveOk(after) && Extends(live, cells, after) && j <= |cells|
    ensures Visible(live, cells[..j], after) == after
  {
    if {} !in live {
      forall cell | cell in cells ensures Produced(cell) != {} { ProducesSome(cell); }
      hide Produced, LiveOk;
      assert forall i | 0 <= i < |cells| :: cells[i] in cells;
      assert {} !in after;
      assert forall cell | cell in cells[..j] :: cell in cells;
      assert WithoutEmpty(after) == after;
    }
  }

  lemma SameCellsExtend(before: map<Ids, Cell>, a: seq<Cell>, b: seq<Cell>, after: map<Ids, Cell>)
    requires multiset(a) == multiset(b) && Extends(before, a, after)
    ensures Extends(before, b, after)
  {
    hide Produced;
    assert forall cell :: cell in a <==> cell in multiset(a);
    assert forall cell :: cell in b <==> cell in multiset(b);
    forall k | k in after && k !in before ensures exists i :: 0 <= i < |b| && k == Produced(b[i]) {
      var i :| 0 <= i < |a| && k == Produced(a[i]);
      assert a[i] in b;
    }
  }

  lemma SettledPasses(s: State, cells: seq<Cell>, after: map<Ids, Cell>)
    requires Sound(s.live, cells) && InDependencyOrder(cells) && KeysDistinct(cells) && AllFresh(s.live, cells)
    requires LiveOk(after) && Extends(s.live, cells, after) && EmptySettled(s.live, cells)
    ensures ApplyAll(s, cells).Ok? <==> forall cell | cell in cells :: Passes(after, s.height, cell)
  {
    hide *;
    AppliesIffAllPass(s, cells, after);
    forall j | 0 <= j < |cells| ensures Visible(s.live, cells[..j], after) == after {
      SettledVisible(s.live, cells, j, after);
    }
    if forall j | 0 <= j < |cells| :: Passes(Visible(s.live, cells[..j], after), s.height, cells[j]) {
      forall cell | cell in cells ensures Passes(after, s.height, cell) {
        var j :| 0 <= j < |cells| && cells[j] == cell;
        assert Passes(Visible(s.live, cells[..j], after), s.height, cells[j]);
      }
    } else {
      var j :| 0 <= j < |cells| && !Passes(Visible(s.live, cells[..j], after), s.height, cells[j]);
      assert cells[j] in cells;
    }
  }

  lemma VerdictCarries(s: State, a: seq<Cell>, b: seq<Cell>)
    requires Sound(s.live, a) && Sound(s.live, b) && multiset(a) == multiset(b)
    requires InDependencyOrder(a) && InDependencyOrder(b) && KeysDistinct(a) && KeysDistinct(b)
    requires EmptySettled(s.live, a) && EmptySettled(s.live, b) && ApplyAll(s, a).Ok?
    ensures ApplyAll(s, b).Ok?
  {
    hide *;
    SoundLive(s.live, a);
    var after := ApplyAll(s, a).value.live;
    ApplyResolves(s, a);
    AppliedWasFresh(s, a);
    SettledPasses(s, a, after);
    SameMembers(a, b);
    SameCellsFresh(s.live, a, b);
    SameCellsExtend(s.live, a, b, after);
    SettledPasses(s, b, after);
  }

  /** Any two dependency orders of a block meet the same fate, unless the block brings the first cell
      without outputs; and they leave the same state but for the order of the validators. */
  lemma OrderIrrelevant(s: State, a: seq<Cell>, b: seq<Cell>)
    requires Sound(s.live, a) && Sound(s.live, b) && multiset(a) == multiset(b)
    requires InDependencyOrder(a) && InDependencyOrder(b) && KeysDistinct(a) && KeysDistinct(b)
    requires EmptySettled(s.live, a)
    ensures ApplyAll(s, a).Ok? <==> ApplyAll(s, b).Ok?
    ensures ApplyAll(s, a).Ok? ==>
      var x, y := ApplyAll(s, a).value, ApplyAll(s, b).value;
      x.(validators := []) == y.(validators := []) && multiset(x.validators) == multiset(y.validators)
  {
    assert EmptySettled(s.live, b) by { SameMembers(a, b); }
    hide *;
    if ApplyAll(s, a).Ok? { VerdictCarries(s, a, b); }
    if ApplyAll(s, b).Ok? { VerdictCarries(s, b, a); }
    if ApplyAll(s, a).Ok? { EqualStates(s, a, b); }
  }

  lemma SameMembers(a: seq<Cell>, b: seq<Cell>)
    requires multiset(a) == multiset(b)
    ensures forall cell :: cell in a <==> cell in b
  {
    assert forall cell :: cell in a <==> cell in multiset(a);
    assert forall cell :: cell in b <==> cell in multiset(b);
  }

  lemma SameCellsFresh(live: map<Ids, Cell>, a: seq<Cell>, b: seq<Cell>)
    requires multiset(a) == multiset(b) && AllFresh(live, a)
    ensures AllFresh(live, b)
  {
    hide Produced;
    SameMembers(a, b);
  }

  // A block that brings a cell without outputs

  /** The inputs cover all outputs of some cell that has outputs. */
  ghost predicate CoversOne(after: map<Ids, Cell>, inputs: Ids) {
    exists k :: k in after && k != {} && k <= inputs
  }

  /** Seen before the call: the cell consumes some cell, live or of the block, completely. */
  ghost predicate ConsumesWhole(live: map<Ids, Cell>, cells: seq<Cell>, cell: Cell) {
    exists k :: (k in live || exists i :: 0 <= i < |cells| && k == Produced(cells[i])) && k != {} && k <= cell.inputs
  }

  lemma WholeIsCovered(live: map<Ids, Cell>, cells: seq<Cell>, after: map<Ids, Cell>, cell: Cell)
    requires Extends(live, cells, after)
    ensures ConsumesWhole(live, cells, cell) <==> CoversOne(after, cell.inputs)
  {
    hide Produced;
    assert forall i | 0 <= i < |cells| :: cells[i] in cells;
  }

  /** The empty key adds exactly one way to fail: consuming another cell completely. */
  lemma EmptyKeyPasses(after: map<Ids, Cell>, height: nat, cell: Cell)
    requires LiveOk(after) && {} in after
    ensures LiveOk(WithoutEmpty(after))
    ensures Passes(after, height, cell) <==> Passes(WithoutEmpty(after), height, cell) && !CoversOne(after, cell.inputs)
  {
    var less := WithoutEmpty(after);
    assert LiveOk(less) by { hide Produced; }
    SameInputs(less, after, cell.inputs);
    OutsGrow(less, after);
    EmptyCollapse(after, cell.inputs);
    if cell.inputs <= Outs(less).Keys {
      SameTypes(Outs(less), Outs(after), cell.inputs);
      TotalSame(Outs(less), Outs(after), cell.inputs);
    }
    hide LiveOk, Outs, Rejection, Collapses, Tallied, Total, NamedOutputs, TypesIn, WithoutEmpty, CoversOne;
  }

  lemma SameTypes(outs: map<CellId, Output>, more: map<CellId, Output>, ids: set<CellId>)
    requires ids <= outs.Keys && ids <= more.Keys && forall id | id in ids :: more[id] == outs[id]
    ensures TypesIn(outs, ids) == TypesIn(more, ids)
  {
    assert NamedOutputs(outs, ids) == NamedOutputs(more, ids);
  }

  lemma EmptyCollapse(after: map<Ids, Cell>, inputs: Ids)
    requires LiveOk(after) && {} in after && LiveOk(WithoutEmpty(after))
    ensures Collapses(after, inputs) <==> Collapses(WithoutEmpty(after), inputs) || CoversOne(after, inputs)
  {
    CollapsesWhen(after, inputs);
    CollapsesWhen(WithoutEmpty(after), inputs);
    hide LiveOk, Collapses;
    var none: Ids := {};
    assert none in after && none <= inputs;
  }

  /** A block that applies in this order and brings `e`, which has no outputs. */
  ghost predicate Brings(s: State, a: seq<Cell>, e: Cell) {
    && Sound(s.live, a) && InDependencyOrder(a) && KeysDistinct(a) && ApplyAll(s, a).Ok?
    && e in a && e.outputs == []
  }

  /** Another dependency order of the same cells. */
  ghost predicate Rearranged(live: map<Ids, Cell>, a: seq<Cell>, b: seq<Cell>) {
    multiset(a) == multiset(b) && Sound(live, b) && InDependencyOrder(b)
  }

  lemma KeysDistinctKeeps(a: seq<Cell>, b: seq<Cell>)
    requires KeysDistinct(a) && multiset(a) == multiset(b)
    ensures KeysDistinct(b)
  {
    hide Produced;
    DistinctCounts(a);
    DistinctCounts(b);
    SameMembers(a, b);
    assert Distinct(a);
    forall i, j | 0 <= i < j < |b| ensures Produced(b[i]) != Produced(b[j]) {
      assert b[i] in a && b[j] in a && b[i] != b[j];
    }
  }

  /** The facts about `e` and the final live cells that hold in every order. */
  ghost predicate EmptyFacts(s: State, b: seq<Cell>, e: Cell, after: map<Ids, Cell>) {
    && Sound(s.live, b) && InDependencyOrder(b) && KeysDistinct(b) && AllFresh(s.live, b)
    && LiveOk(after) && Extends(s.live, b, after)
    && e in b && Produced(e) == {} && {} in after && {} !in s.live
  }

  lemma FactsOf(s: State, a: seq<Cell>, b: seq<Cell>, e: Cell)
    requires Brings(s, a, e) && Rearranged(s.live, a, b)
    ensures EmptyFacts(s, b, e, ApplyAll(s, a).value.live)
  {
    var after := ApplyAll(s, a).value.live;
    ProducesSome(e);
    hide Produced, ApplyAll, Sound, LiveOk, InDependencyOrder;
    SoundLive(s.live, a);
    ApplyResolves(s, a);
    AppliedWasFresh(s, a);
    KeysDistinctKeeps(a, b);
    SameMembers(a, b);
    SameCellsFresh(s.live, a, b);
    SameCellsExtend(s.live, a, b, after);
  }

  /** Before `e` the empty key does not show, after it it does. */
  lemma EmptyShows(s: State, b: seq<Cell>, e: Cell, after: map<Ids, Cell>, at: nat, j: nat)
    requires EmptyFacts(s, b, e, after) && at < |b| && b[at] == e && j < |b|
    ensures Visible(s.live, b[..j], after) == if at < j then after else WithoutEmpty(after)
  {
    hide Sound, InDependencyOrder, LiveOk, Extends, Produced;
    if at < j {
      assert b[..j][at] == e;
      assert HasEmpty(s.live, b[..j]);
    } else {
      forall cell | cell in b[..j] ensures Produced(cell) != {} {
        var i :| 0 <= i < j && b[i] == cell;
        assert Produced(b[i]) != Produced(b[at]);
      }
      assert !HasEmpty(s.live, b[..j]);
    }
  }

  lemma PassesAt(s: State, b: seq<Cell>, e: Cell, after: map<Ids, Cell>, at: nat, j: nat)
    requires EmptyFacts(s, b, e, after) && at < |b| && b[at] == e && j < |b|
    ensures LiveOk(WithoutEmpty(after))
    ensures Passes(Visible(s.live, b[..j], after), s.height, b[j]) <==>
      Passes(WithoutEmpty(after), s.height, b[j]) && (at < j ==> !CoversOne(after, b[j].inputs))
  {
    EmptyShows(s, b, e, after, at, j);
    EmptyKeyPasses(after, s.height, b[j]);
  }

  /** All cells of a block that applies in one order pass without the empty key. */
  lemma PassWithoutEmpty(s: State, a: seq<Cell>, e: Cell, after: map<Ids, Cell>)
    requires EmptyFacts(s, a, e, after) && ApplyAll(s, a).Ok?
    ensures LiveOk(WithoutEmpty(after))
    ensures forall cell | cell in a :: Passes(WithoutEmpty(after), s.height, cell)
  {
    EmptyKeyPasses(after, s.height, e);
    AppliesIffAllPass(s, a, after);
    var at :| 0 <= at < |a| && a[at] == e;
    hide Passes, Visible, WithoutEmpty, LiveOk, ApplyAll, EmptyFacts;
    forall cell | cell in a ensures Passes(WithoutEmpty(after), s.height, cell) {
      var j :| 0 <= j < |a| && a[j] == cell;
      PassesAt(s, a, e, after, at, j);
    }
  }

  /** A dependency order applies if and only if no cell behind `e` consumes another completely. */
  lemma OrderVerdict(s: State, a: seq<Cell>, b: seq<Cell>, e: Cell, at: nat)
    requires Brings(s, a, e) && Rearranged(s.live, a, b) && at < |b| && b[at] == e
    ensures ApplyAll(s, b).Ok? <==> forall j | at < j < |b| :: !ConsumesWhole(s.live, a, b[j])
  {
    var after := ApplyAll(s, a).value.live;
    FactsOf(s, a, a, e);
    FactsOf(s, a, b, e);
    PassWithoutEmpty(s, a, e, after);
    AppliesIffAllPass(s, b, after);
    SameMembers(a, b);
    assert Extends(s.live, a, after);
    hide *;
    forall j | 0 <= j < |b|
      ensures Passes(Visible(s.live, b[..j], after), s.height, b[j]) <==>
        (at < j ==> !ConsumesWhole(s.live, a, b[j]))
    {
      PassesAt(s, b, e, after, at, j);
      WholeIsCovered(s.live, a, after, b[j]);
      assert b[j] in a;
    }
  }

  // Dependencies through several cells

  /** `x` consumes an output of `y`. */
  ghost predicate Draws(x: Cell, y: Cell) {
    !(x.inputs !! Produced(y))
  }

  ghost predicate Chain(cells: seq<Cell>, path: seq<Cell>) {
    && path != [] && (forall i | 0 <= i < |path| :: path[i] in cells)
    && (forall i | 0 <= i < |path| - 1 :: Draws(path[i], path[i + 1]))
  }

  /** `e` depends on `c`, directly or through other cells of the block. */
  ghost predicate DependsOn(cells: seq<Cell>, e: Cell, c: Cell) {
    exists path :: Chain(cells, path) && path[0] == e && path[|path| - 1] == c
  }

  lemma DependsStep(cells: seq<Cell>, e: Cell, c: Cell, d: Cell)
    requires DependsOn(cells, e, c) && d in cells && Draws(c, d)
    ensures DependsOn(cells, e, d)
  {
    hide Draws;
    var path :| Chain(cells, path) && path[0] == e && path[|path| - 1] == c;
    var longer := path + [d];
    assert Chain(cells, longer) && longer[0] == e && longer[|longer| - 1] == d;
  }

  lemma DependsSelf(cells: seq<Cell>, e: Cell)
    requires e in cells
    ensures DependsOn(cells, e, e)
  {
    assert Chain(cells, [e]);
  }

  /** In every dependency order what `e` depends on comes before it. */
  lemma {:induction false} ChainBefore(b: seq<Cell>, path: seq<Cell>, at: nat, j: nat)
    requires InDependencyOrder(b) && Distinct(b) && Chain(b, path) && at < |b| && b[at] == path[0]
    requires j < |b| && b[j] == path[|path| - 1]
    ensures j <= at
    decreases |path|
  {
    if |path| > 1 {
      var k :| 0 <= k < |b| && b[k] == path[1];
      assert Draws(path[0], path[1]);
      var rest := path[1..];
      assert forall i | 0 <= i < |rest| :: rest[i] == path[i + 1];
      ChainBefore(b, rest, k, j);
    }
  }

  /** Of a block that applies in one order and brings a cell `e` without outputs, every listing of every
      order of the block applies if and only if `e` depends on every other cell that consumes some cell
      completely. */
  lemma EmptyCellExact(s: State, a: seq<Cell>, e: Cell)
    requires Brings(s, a, e)
    ensures forall b, out | multiset(b) == multiset(a) && Listed(b, out) :: Rearranged(s.live, a, out)
    ensures (forall b, out | multiset(b) == multiset(a) && Listed(b, out) ::
        Sound(s.live, out) && ApplyAll(s, out).Ok?) <==>
      (forall c | c in a && c != e && ConsumesWhole(s.live, a, c) :: DependsOn(a, e, c))
  {
    hide Brings, Sound, InDependencyOrder, ApplyAll, ConsumesWhole, DependsOn, Listed, Rearranged;
    forall b, out | multiset(b) == multiset(a) && Listed(b, out)
      ensures Rearranged(s.live, a, out) && Sound(s.live, out)
    {
      ListedRearranges(s, a, e, b, out);
    }
    if forall c | c in a && c != e && ConsumesWhole(s.live, a, c) :: DependsOn(a, e, c) {
      forall b, out | multiset(b) == multiset(a) && Listed(b, out) ensures ApplyAll(s, out).Ok? {
        DependingApplies(s, a, out, e);
      }
    } else {
      var c :| c in a && c != e && ConsumesWhole(s.live, a, c) && !DependsOn(a, e, c);
      var b, out := IndependentFails(s, a, e, c);
    }
  }

  lemma DependingApplies(s: State, a: seq<Cell>, b: seq<Cell>, e: Cell)
    requires Brings(s, a, e) && Rearranged(s.live, a, b)
    requires forall c | c in a && c != e && ConsumesWhole(s.live, a, c) :: DependsOn(a, e, c)
    ensures ApplyAll(s, b).Ok?
  {
    SameMembers(a, b);
    KeysDistinctKeeps(a, b);
    assert e in b && Distinct(b) && InDependencyOrder(b);
    hide *;
    var at :| 0 <= at < |b| && b[at] == e;
    OrderVerdict(s, a, b, e, at);
    forall j | at < j < |b| ensures !ConsumesWhole(s.live, a, b[j]) {
      if ConsumesWhole(s.live, a, b[j]) {
        DistinctAt(b, at, j);
        DependencyBefore(a, b, e, at, j);
      }
    }
  }

  lemma DistinctAt(b: seq<Cell>, i: nat, j: nat)
    requires Distinct(b) && i < j < |b|
    ensures b[i] != b[j]
  {
  }

  lemma DependencyBefore(a: seq<Cell>, b: seq<Cell>, e: Cell, at: nat, j: nat)
    requires InDependencyOrder(b) && Distinct(b) && (forall c :: c in a <==> c in b)
    requires at < |b| && b[at] == e && j < |b| && DependsOn(a, e, b[j])
    ensures j <= at
  {
    hide InDependencyOrder, Draws, Distinct;
    var path :| Chain(a, path) && path[0] == e && path[|path| - 1] == b[j];
    ChainBefore(b, path, at, j);
  }

  // The listings of `Apply`

  lemma BringsParts(s: State, a: seq<Cell>, e: Cell)
    requires Brings(s, a, e)
    ensures Sound(s.live, a) && InDependencyOrder(a) && KeysDistinct(a) && e in a && Produced(e) == {}
  {
  }

  /** Positions in a dependency order are ranks. */
  lemma OrderIsAcyclic(a: seq<Cell>)
    requires KeysDistinct(a) && InDependencyOrder(a)
    ensures Acyclic(Built(a))
  {
    BuiltDepends(a);
    hide Produced, Built, Acyclic;
    var keys := set i | 0 <= i < |a| :: Produced(a[i]);
    var rank := map p | p in keys :: PositionOf(a, p);
    forall c, p | p in Built(a) && Consumes(Built(a), c, p) ensures p in rank && c in rank && rank[p] < rank[c] {
      var i := Producer(Built(a), a, c);
      var j := Producer(Built(a), a, p);
      PositionIs(a, i);
      PositionIs(a, j);
      assert a[i] in a && !(a[i].inputs !! Produced(a[j]));
    }
    RankedIsAcyclic(Built(a), rank);
  }

  ghost function PositionOf(a: seq<Cell>, p: Ids): nat {
    if a == [] || Produced(a[0]) == p then 0 else 1 + PositionOf(a[1..], p)
  }

  lemma {:induction false} PositionIs(a: seq<Cell>, i: nat)
    requires KeysDistinct(a) && i < |a|
    ensures PositionOf(a, Produced(a[i])) == i
  {
    hide Produced;
    if i > 0 { PositionIs(a[1..], i - 1); }
  }

  lemma SameGraph(a: seq<Cell>, b: seq<Cell>)
    requires KeysDistinct(a) && InDependencyOrder(a) && multiset(b) == multiset(a)
    ensures KeysDistinct(b) && Depends(Built(b), b) && Acyclic(Built(b)) && Sorting(Built(b), [], RootsOf(b))
  {
    hide *;
    KeysDistinctKeeps(a, b);
    BuiltPermutes(a, b);
    OrderIsAcyclic(a);
    BuiltDepends(b);
    RootsOfExact(b);
    SortingStarts(Built(b), RootsOf(b));
  }

  lemma ListedOrders(a: seq<Cell>, b: seq<Cell>, sorted: seq<Ids>)
    requires KeysDistinct(a) && InDependencyOrder(a) && multiset(b) == multiset(a)
    requires Listing(Built(b), [], RootsOf(b), sorted)
    ensures SortedAround(Built(b), sorted) && Elems(sorted) == Built(b).Keys
    ensures multiset(Flattened(sorted, b)) == multiset(a) && InDependencyOrder(Flattened(sorted, b))
  {
    hide *;
    SameGraph(a, b);
    ListingSorts(Built(b), [], RootsOf(b), sorted);
    CompleteIffAcyclic(Built(b), sorted);
    FlattenedOrders(Built(b), sorted, b);
  }

  lemma ListedRearranges(s: State, a: seq<Cell>, e: Cell, b: seq<Cell>, out: seq<Cell>)
    requires Brings(s, a, e) && multiset(b) == multiset(a) && Listed(b, out)
    ensures Rearranged(s.live, a, out) && Sound(s.live, out)
  {
    BringsParts(s, a, e);
    hide Brings, Sound, InDependencyOrder, Listing, Built, RootsOf, Flattened, KeysDistinct;
    var sorted :| Listing(Built(b), [], RootsOf(b), sorted) && out == Flattened(sorted, b);
    ListedOrders(a, b, sorted);
    SameMembers(a, out);
    SameCellsSound(s.live, a, out);
  }

  /** With `e` inserted first, everything that `e` does not depend on is listed behind it. */
  lemma IndependentFails(s: State, a: seq<Cell>, e: Cell, c: Cell) returns (b: seq<Cell>, out: seq<Cell>)
    requires Brings(s, a, e) && c in a && c != e && ConsumesWhole(s.live, a, c) && !DependsOn(a, e, c)
    ensures multiset(b) == multiset(a) && Listed(b, out)
    ensures Sound(s.live, out) && ApplyAll(s, out).Err?
  {
    BringsParts(s, a, e);
    hide *;
    b := MovedFirst(a, e);
    SameGraph(a, b);
    var sorted := ListingExists(Built(b), [], RootsOf(b));
    ListedAs(b, sorted);
    out := Flattened(sorted, b);
    ListedRearranges(s, a, e, b, out);
    var at, j := ListedBehind(a, b, e, c, sorted);
    OrderVerdict(s, a, out, e, at);
  }

  lemma MovedFirst(a: seq<Cell>, e: Cell) returns (b: seq<Cell>)
    requires e in a
    ensures multiset(b) == multiset(a) && b != [] && b[0] == e
  {
    var i :| 0 <= i < |a| && a[i] == e;
    b := [e] + a[..i] + a[i + 1..];
    assert a == a[..i] + [e] + a[i + 1..];
  }

  ghost function NeededIds(a: seq<Cell>, e: Cell): set<Ids> {
    set c | c in a && DependsOn(a, e, c) :: Produced(c)
  }

  lemma NeededClosed(a: seq<Cell>, b: seq<Cell>, e: Cell)
    requires KeysDistinct(b) && Depends(Built(b), b) && multiset(b) == multiset(a) && e in a
    ensures Produced(e) in NeededIds(a, e) && DownClosed(Built(b), NeededIds(a, e))
  {
    DependsSelf(a, e);
    SameMembers(a, b);
    hide Built, Produced, DependsOn, KeysDistinct;
    forall x, p | x in NeededIds(a, e) && p in Built(b) && Consumes(Built(b), x, p) ensures p in NeededIds(a, e) {
      var c :| c in a && DependsOn(a, e, c) && Produced(c) == x;
      var j := Producer(Built(b), b, p);
      assert c in b && b[j] in a && Draws(c, b[j]);
      DependsStep(a, e, c, b[j]);
    }
  }

  lemma NeededOnly(a: seq<Cell>, e: Cell, c: Cell)
    requires KeysDistinct(a) && c in a && !DependsOn(a, e, c)
    ensures Produced(c) !in NeededIds(a, e)
  {
    hide Produced, DependsOn;
    forall d | d in a && Produced(d) == Produced(c) ensures d == c {
      var i, j :| 0 <= i < |a| && a[i] == c && 0 <= j < |a| && a[j] == d;
      assert i == j;
    }
  }

  lemma ListedBehind(a: seq<Cell>, b: seq<Cell>, e: Cell, c: Cell, sorted: seq<Ids>) returns (at: nat, j: nat)
    requires KeysDistinct(a) && InDependencyOrder(a) && multiset(b) == multiset(a) && b != [] && b[0] == e && e in a
    requires Listing(Built(b), [], RootsOf(b), sorted) && Produced(e) == {} && c in a && !DependsOn(a, e, c)
    ensures at < j < |Flattened(sorted, b)| && Flattened(sorted, b)[at] == e && Flattened(sorted, b)[j] == c
  {
    hide *;
    SameGraph(a, b);
    EmptyAtBottom(b);
    NeededClosed(a, b, e);
    NeededOnly(a, e, c);
    SameMembers(a, b);
    CellKey(b, c);
    at := BottomIsLast(Built(b), [], RootsOf(b), sorted, Produced(e), NeededIds(a, e));
    var k :| 0 <= k < |sorted[at + 1..]| && sorted[at + 1..][k] == Produced(c);
    j := at + 1 + k;
    ListedOrders(a, b, sorted);
    ListedCell(b, sorted, e, at);
    ListedCell(b, sorted, c, j);
  }

  lemma CellKey(b: seq<Cell>, c: Cell)
    requires Depends(Built(b), b) && c in b
    ensures Produced(c) in Built(b)
  {
  }

  lemma ListedCell(b: seq<Cell>, sorted: seq<Ids>, c: Cell, k: nat)
    requires KeysDistinct(b) && Depends(Built(b), b) && Elems(sorted) == Built(b).Keys
    requires c in b && k < |sorted| && sorted[k] == Produced(c)
    ensures k < |Flattened(sorted, b)| && Flattened(sorted, b)[k] == c
  {
    hide Built, Produced, Flattened;
    assert forall p | p in sorted :: p in Elems(sorted);
    FlattenedPointwise(Built(b), sorted, b);
    var x := Flattened(sorted, b)[k];
    var i, j :| 0 <= i < |b| && b[i] == x && 0 <= j < |b| && b[j] == c;
    assert i == j;
  }

  // Cells that consume one live cell completely

  lemma {:induction false} TallyTransfers(outputs: seq<Output>, height: nat)
    requires forall o | o in outputs :: o.cellType == Transfer
    ensures Tallied(outputs, height) == Ok(Tally(0, 0, CapacityOf(outputs), []))
  {
    if outputs != [] {
      var front := outputs[..|outputs| - 1];
      assert forall o | o in front :: o in outputs;
      assert outputs[|outputs| - 1] in outputs;
      TallyTransfers(front, height);
    }
  }

  /** `cell` consumes the live cell under `k`, which has one transfer output, and transfers on no more
      than it holds. */
  ghost predicate PassesOn(live: map<Ids, Cell>, k: Ids, cell: Cell) {
    && k in live && |live[k].outputs| == 1 && live[k].outputs[0].cellType == Transfer && cell.inputs == k
    && (forall o | o in cell.outputs :: o.cellType == Transfer)
    && CapacityOf(cell.outputs) <= live[k].outputs[0].capacity && live[k].outputs[0].capacity > 0
  }

  lemma OneOutput(cell: Cell)
    requires |cell.outputs| == 1
    ensures Produced(cell) == {CellId(cell.hash, 0)}
  {
    assert OutputIds(cell.hash, 0) == {};
  }

  lemma OneLive(live: map<Ids, Cell>, k: Ids)
    requires LiveOk(live) && k in live && |live[k].outputs| == 1
    ensures k != {} && k <= Outs(live).Keys && Total(Outs(live), k) == live[k].outputs[0].capacity
  {
    LiveKey(live, k);
    OutsAt(live, k, 0);
    OneOutput(live[k]);
    var id := CellId(live[k].hash, 0);
    assert k == {id};
    hide *;
    TotalTake(Outs(live), k, id);
    TotalNone(Outs(live), k - {id});
  }

  lemma TotalNone(outs: map<CellId, Output>, ids: set<CellId>)
    requires ids == {}
    ensures Total(outs, ids) == 0
  {
  }

  lemma PassesOnPasses(live: map<Ids, Cell>, k: Ids, cell: Cell, height: nat)
    requires LiveOk(live) && PassesOn(live, k, cell)
    ensures cell.inputs <= Outs(live).Keys
    ensures Rejection(cell.outputs, TypesIn(Outs(live), cell.inputs)).None?
    ensures Passes(live, height, cell) <==> !Collapses(live, k)
  {
    OneLive(live, k);
    hide LiveOk, Outs, OutputIds, Collapses, Rejection, Tallied, Total, TypesIn;
    RejectionFirst(cell.outputs, TypesIn(Outs(live), cell.inputs));
    TallyTransfers(cell.outputs, height);
  }

  lemma PassesOnApplies(s: State, k: Ids, cell: Cell)
    requires LiveOk(s.live) && PassesOn(s.live, k, cell)
    ensures Applied(s, cell).Ok? <==> !Collapses(s.live, k) && Produced(cell) !in s.live
    ensures Collapses(s.live, k) ==> Applied(s, cell) == Err(ExistingCellIds)
  {
    PassesOnPasses(s.live, k, cell, s.height);
    AppliedOk(s, cell);
    hide LiveOk, Outs, Collapses, Rejection, Tallied, Total, NamedOutputs, Passes;
  }

  // An output spent twice

  /** `d` consumes what `c` consumes, under another hash. */
  ghost predicate Respends(live: map<Ids, Cell>, cells: seq<Cell>, c: Cell, d: Cell) {
    && c in cells && d.inputs == c.inputs && d.outputs == c.outputs && d.hash != c.hash
    && Sound(live, cells + [d]) && KeysDistinct(cells + [d]) && AllFresh(live, cells + [d])
    && InDependencyOrder(cells + [d]) && EmptySettled(live, cells + [d])
  }

  lemma RespendsParts(live: map<Ids, Cell>, cells: seq<Cell>, c: Cell, d: Cell)
    requires Respends(live, cells, c, d)
    ensures Sound(live, cells) && KeysDistinct(cells) && AllFresh(live, cells)
    ensures InDependencyOrder(cells) && EmptySettled(live, cells)
    ensures c in cells && d.inputs == c.inputs && d.outputs == c.outputs && InDependencyOrder(cells + [d])
  {
    hide Produced, LiveOk;
    var more := cells + [d];
    assert forall cell | cell in cells :: cell in more;
    assert forall i | 0 <= i < |cells| :: more[i] == cells[i];
  }

  /** The cells that are live once one more has been applied. */
  lemma OneMoreFresh(live: map<Ids, Cell>, cells: seq<Cell>, d: Cell, after: map<Ids, Cell>)
    requires Sound(live, cells + [d]) && KeysDistinct(cells + [d]) && Produced(d) !in live
    requires LiveOk(after) && Extends(live, cells, after)
    ensures Produced(d) !in after && LiveOk(after[Produced(d) := d])
  {
    hide Produced;
    var b := cells + [d];
    assert d in b && b[|cells|] == d;
    forall k | k in after ensures k != Produced(d) && after[k].hash != d.hash {
      if k in live {
        assert after[k] == live[k];
      } else {
        var i :| 0 <= i < |cells| && k == Produced(cells[i]);
        assert b[i] == cells[i] && cells[i] in cells && b[i] in b;
      }
    }
    hide Extends, Sound, KeysDistinct;
  }

  lemma OneMoreExtends(live: map<Ids, Cell>, cells: seq<Cell>, d: Cell, after: map<Ids, Cell>)
    requires Extends(live, cells, after) && Produced(d) !in after
    ensures Extends(live, cells + [d], after[Produced(d) := d])
  {
    hide Produced;
    var b, more := cells + [d], after[Produced(d) := d];
    assert b[|cells|] == d;
    forall k | k in more && k !in live ensures exists i :: 0 <= i < |b| && k == Produced(b[i]) {
      if k != Produced(d) {
        var i :| 0 <= i < |cells| && k == Produced(cells[i]);
        assert k == Produced(b[i]);
      }
    }
  }

  lemma RespendExtends(live: map<Ids, Cell>, cells: seq<Cell>, c: Cell, d: Cell, after: map<Ids, Cell>)
    requires Respends(live, cells, c, d) && LiveOk(after) && Extends(live, cells, after)
    ensures Produced(d) !in after && LiveOk(after[Produced(d) := d])
    ensures Extends(live, cells + [d], after[Produced(d) := d])
    ensures Produced(d) == {} ==> {} in after
  {
    ProducesSome(d);
    assert (cells + [d])[|cells|] == d && d in cells + [d];
    hide Produced, LiveOk, Sound, Extends, KeysDistinct, InDependencyOrder;
    OneMoreFresh(live, cells, d, after);
    OneMoreExtends(live, cells, d, after);
    ExtendsKeeps(live, cells, after);
  }

  lemma LastUnused(cells: seq<Cell>, d: Cell)
    requires InDependencyOrder(cells + [d])
    ensures forall cell | cell in cells + [d] :: cell.inputs !! Produced(d)
  {
    hide Produced;
    var b := cells + [d];
    forall cell | cell in b ensures cell.inputs !! Produced(d) {
      var i :| 0 <= i < |b| && b[i] == cell;
      assert b[|cells|] == d;
    }
  }

  lemma RespendPasses(live: map<Ids, Cell>, cells: seq<Cell>, c: Cell, d: Cell, after: map<Ids, Cell>, height: nat)
    requires Respends(live, cells, c, d) && LiveOk(after) && Extends(live, cells, after)
    requires forall cell | cell in cells :: Passes(after, height, cell)
    ensures LiveOk(after[Produced(d) := d])
    ensures forall cell | cell in cells + [d] :: Passes(after[Produced(d) := d], height, cell)
  {
    hide *;
    RespendsParts(live, cells, c, d);
    RespendExtends(live, cells, c, d, after);
    SameNeeds(after, height, c, d);
    LastUnused(cells, d);
    forall cell | cell in cells + [d] ensures Passes(after[Produced(d) := d], height, cell) {
      PassesEarly(after, after[Produced(d) := d], height, cell);
    }
  }

  lemma SameNeeds(after: map<Ids, Cell>, height: nat, c: Cell, d: Cell)
    requires LiveOk(after) && d.inputs == c.inputs && d.outputs == c.outputs
    ensures Passes(after, height, c) <==> Passes(after, height, d)
  {
    hide LiveOk, Outs, Rejection, Collapses, Tallied, Total, TypesIn;
  }

  /** Nothing stops being live within a block: one that applies still applies with a second cell
      spending the inputs of one of its own. */
  lemma SpentTwice(s: State, cells: seq<Cell>, c: Cell, d: Cell)
    requires Respends(s.live, cells, c, d) && Sound(s.live, cells) && ApplyAll(s, cells).Ok?
    ensures Sound(s.live, cells + [d]) && ApplyAll(s, cells + [d]).Ok?
  {
    assert Sound(s.live, cells + [d]) && KeysDistinct(cells + [d]) && AllFresh(s.live, cells + [d])
      && InDependencyOrder(cells + [d]) && EmptySettled(s.live, cells + [d]);
    hide *;
    RespendsParts(s.live, cells, c, d);
    SoundLive(s.live, cells);
    ApplyResolves(s, cells);
    var after := ApplyAll(s, cells).value.live;
    SettledPasses(s, cells, after);
    RespendExtends(s.live, cells, c, d, after);
    RespendPasses(s.live, cells, c, d, after, s.height);
    SettledPasses(s, cells + [d], after[Produced(d) := d]);
  }

  // A block whose order decides

  const COIN: Output := Output(1, Transfer, 0, true, Hash(0))
  const X: Cell := Cell(Hash(1), {}, [COIN])
  const Y: Cell := Cell(Hash(2), {}, [COIN])

  /** Two live cells of one output each. */
  ghost const START: State := State(1, 2, 0, [], map[Produced(X) := X, Produced(Y) := Y])

  /** Consumes the first and produces nothing. */
  ghost const BURN: Cell := Cell(Hash(3), Produced(X), [])

  /** Consumes the second. */
  ghost const PASS: Cell := Cell(Hash(4), Produced(Y), [COIN])

  lemma StartFacts()
    ensures Produced(X) == {CellId(Hash(1), 0)} && Produced(Y) == {CellId(Hash(2), 0)}
    ensures Produced(PASS) == {CellId(Hash(4), 0)} && Produced(BURN) == {}
    ensures START.live == map[Produced(X) := X, Produced(Y) := Y]
    ensures Sound(START.live, [PASS, BURN]) && Sound(START.live, [BURN, PASS]) && LiveOk(START.live)
    ensures CapacityOf([COIN]) == 1 && CapacityOf([]) == 0
  {
    StartKeys();
    assert [COIN][..0] == [];
    hide Produced;
  }

  lemma StartKeys()
    ensures Produced(X) == {CellId(Hash(1), 0)} && Produced(Y) == {CellId(Hash(2), 0)}
    ensures Produced(PASS) == {CellId(Hash(4), 0)} && Produced(BURN) == {}
  {
    OneOutput(X);
    OneOutput(Y);
    OneOutput(PASS);
  }

  lemma BothOrders()
    ensures InDependencyOrder([PASS, BURN]) && InDependencyOrder([BURN, PASS]) && KeysDistinct([PASS, BURN])
    ensures multiset([PASS, BURN]) == multiset([BURN, PASS])
  {
    StartFacts();
    hide Produced;
  }

  /** The live cell under `k` can be consumed completely as long as no cell without outputs is live. */
  lemma ConsumesOne(s: State, k: Ids, cell: Cell)
    requires LiveOk(s.live) && PassesOn(s.live, k, cell)
    ensures {} !in s.live && Produced(cell) !in s.live ==> Applied(s, cell).Ok?
    ensures {} in s.live ==> Applied(s, cell) == Err(ExistingCellIds)
  {
    PassesOnApplies(s, k, cell);
    CollapsesOne(s.live, k, k);
    OneLive(s.live, k);
    hide LiveOk, Collapses, Applied, PassesOn;
  }

  lemma EitherFirst()
    ensures LiveOk(START.live) && Applied(START, PASS).Ok? && Applied(START, BURN).Ok?
  {
    StartFacts();
    hide Produced, LiveOk, Sound, Applied, CapacityOf;
    ConsumesOne(START, Produced(X), BURN);
    ConsumesOne(START, Produced(Y), PASS);
  }

  lemma TwoCells(s: State, a: Cell, b: Cell)
    requires Sound(s.live, [a, b]) && LiveOk(s.live) && Applied(s, a).Ok?
    ensures var next := Applied(s, a).value;
      && next.live == s.live[Produced(a) := a] && Produced(a) !in s.live && LiveOk(next.live)
      && (Applied(next, b).Ok? ==> ApplyAll(s, [a, b]).Ok?)
      && (Applied(next, b).Err? ==> ApplyAll(s, [a, b]) == Err(Applied(next, b).error))
  {
    hide *;
    var cells, next := [a, b], Applied(s, a).value;
    assert cells[1..] == [b];
    AppliedKeepsSound(s, cells);
    SoundLive(next.live, [b]);
    ApplyUnfold(s, cells);
    ApplyUnfold(next, [b]);
    if Applied(next, b).Ok? {
      AppliedKeepsSound(next, [b]);
      assert [b][1..] == [];
      SoundLive(Applied(next, b).value.live, []);
      ApplyNone(Applied(next, b).value);
    }
  }

  lemma BurnLast()
    ensures Sound(START.live, [PASS, BURN]) && ApplyAll(START, [PASS, BURN]).Ok?
  {
    StartFacts();
    EitherFirst();
    hide Produced, LiveOk, Sound, Applied, CapacityOf, ApplyAll;
    TwoCells(START, PASS, BURN);
    ConsumesOne(Applied(START, PASS).value, Produced(X), BURN);
  }

  lemma BurnFirst()
    ensures Sound(START.live, [BURN, PASS]) && ApplyAll(START, [BURN, PASS]) == Err(ExistingCellIds)
  {
    StartFacts();
    EitherFirst();
    hide Produced, LiveOk, Sound, Applied, CapacityOf, ApplyAll;
    TwoCells(START, BURN, PASS);
    ConsumesOne(Applied(START, BURN).value, Produced(Y), PASS);
  }

  lemma PassIsWhole()
    ensures ConsumesWhole(START.live, [PASS, BURN], PASS) && !DependsOn([PASS, BURN], BURN, PASS)
  {
    StartFacts();
    var k := Produced(Y);
    assert k in START.live && k != {} && k <= PASS.inputs;
    hide Produced;
    assert forall d | d in [PASS, BURN] :: !Draws(BURN, d);
    hide Draws;
    forall path | Chain([PASS, BURN], path) && path[0] == BURN ensures path[|path| - 1] == BURN {
      ChainStep([PASS, BURN], path);
    }
  }

  lemma ChainStep(cells: seq<Cell>, path: seq<Cell>)
    requires Chain(cells, path)
    ensures |path| > 1 ==> path[1] in cells && Draws(path[0], path[1])
  {
  }

  /** Of two dependency orders of one block, one applies and the other does not, and `Apply` can come upon
      an order that does not. */
  lemma OrderDecides()
    ensures Brings(START, [PASS, BURN], BURN) && Rearranged(START.live, [PASS, BURN], [BURN, PASS])
    ensures ApplyAll(START, [BURN, PASS]) == Err(ExistingCellIds)
    ensures exists b, out :: multiset(b) == multiset([PASS, BURN]) && Listed(b, out) && Refused(START, out)
  {
    BothOrders();
    BurnLast();
    BurnFirst();
    PassIsWhole();
    hide Produced, LiveOk, Sound, ApplyAll, InDependencyOrder, KeysDistinct, ConsumesWhole, DependsOn, Listed;
    var b, out := IndependentFails(START, [PASS, BURN], BURN, PASS);
    assert Refused(START, out);
  }

  ghost predicate Refused(s: State, cells: seq<Cell>) {
    Sound(s.live, cells) && ApplyAll(s, cells).Err?
  }
}
