/** What blocks do to the totals and to the validators, read off their outputs (`src/alpha/state.rs`). */
module Ledgers {
  import opened Basics
  import opened Cells
  import opened DependencyGraphs
  import opened AlphaState
  import opened CellOperations

  // One cell

  ghost function SumOf(outputs: seq<Output>, kind: CellType): nat {
    if outputs == [] then 0
    else (if outputs[0].cellType == kind then outputs[0].capacity else 0) + SumOf(outputs[1..], kind)
  }

  /** The node and the capacity of each stake, in the order of the outputs. */
  ghost function Stakes(outputs: seq<Output>): seq<(nat, u64)> {
    if outputs == [] then [] else StakeOf(outputs[0]) + Stakes(outputs[1..])
  }

  ghost function StakeOf(o: Output): seq<(nat, u64)> {
    if o.cellType == Stake then [(o.data, o.capacity)] else []
  }

  ghost predicate Offends(o: Output, height: nat) {
    (o.cellType == Coinbase && height != 0) || (o.cellType == Stake && !o.valid)
  }

  lemma {:induction false} SumSnoc(outputs: seq<Output>, o: Output, kind: CellType)
    ensures SumOf(outputs + [o], kind) == SumOf(outputs, kind) + if o.cellType == kind then o.capacity else 0
  {
    if outputs == [] {
      assert [] + [o] == [o] && SumOf([o][1..], kind) == 0;
    } else {
      assert (outputs + [o])[1..] == outputs[1..] + [o];
      SumSnoc(outputs[1..], o, kind);
    }
  }

  lemma {:induction false} StakesSnoc(outputs: seq<Output>, o: Output)
    ensures Stakes(outputs + [o]) == Stakes(outputs) + StakeOf(o)
  {
    hide StakeOf;
    if outputs == [] {
      assert [] + [o] == [o] && Stakes([o][1..]) == [];
    } else {
      assert (outputs + [o])[1..] == outputs[1..] + [o];
      StakesSnoc(outputs[1..], o);
    }
  }

  /** A tally holds the sums by type and the stakes in order. */
  lemma {:induction false} TalliedIs(outputs: seq<Output>, height: nat)
    requires Tallied(outputs, height).Ok?
    ensures Tallied(outputs, height).value == SumsOf(outputs)
  {
    hide SumOf, Stakes;
    if outputs == [] {
      NoOutputs();
    } else {
      var front, o := outputs[..|outputs| - 1], outputs[|outputs| - 1];
      assert outputs == front + [o];
      TalliedIs(front, height);
      assert TallyOne(Tallied(front, height).value, o, height).Ok?;
      hide Tallied;
      OneMoreTallied(front, o, height);
    }
  }

  ghost function SumsOf(outputs: seq<Output>): Tally {
    Tally(SumOf(outputs, Coinbase), SumOf(outputs, Stake), SumOf(outputs, Transfer), Stakes(outputs))
  }

  lemma OneMoreTallied(outputs: seq<Output>, o: Output, height: nat)
    requires TallyOne(SumsOf(outputs), o, height).Ok?
    ensures TallyOne(SumsOf(outputs), o, height).value == SumsOf(outputs + [o])
  {
    hide SumOf, Stakes;
    SumSnoc(outputs, o, Coinbase);
    SumSnoc(outputs, o, Stake);
    SumSnoc(outputs, o, Transfer);
    StakesSnoc(outputs, o);
  }

  lemma NoOutputs()
    ensures Stakes([]) == [] && forall kind :: SumOf([], kind) == 0
  {
  }

  /** It is refused if and only if an output offends, for the first one that does. */
  lemma {:induction false} TallyRefuses(outputs: seq<Output>, height: nat)
    ensures Tallied(outputs, height).Err? <==> exists o :: o in outputs && Offends(o, height)
    ensures Tallied(outputs, height).Err? ==> RefusedFor(outputs, height, Tallied(outputs, height).error)
  {
    if outputs != [] {
      var n, o := |outputs| - 1, outputs[|outputs| - 1];
      var front := outputs[..n];
      assert outputs == front + [o];
      TallyRefuses(front, height);
      if Tallied(front, height).Err? {
        var i: nat :| RefusedAt(front, height, Tallied(front, height).error, i);
        assert RefusedAt(outputs, height, Tallied(outputs, height).error, i);
      } else if Offends(o, height) {
        assert RefusedAt(outputs, height, Tallied(outputs, height).error, n);
      }
    }
  }

  ghost predicate RefusedFor(outputs: seq<Output>, height: nat, e: AlphaError) {
    exists i: nat :: RefusedAt(outputs, height, e, i)
  }

  ghost predicate RefusedAt(outputs: seq<Output>, height: nat, e: AlphaError, i: nat) {
    && i < |outputs| && Offends(outputs[i], height) && (forall j | 0 <= j < i :: !Offends(outputs[j], height))
    && e == if outputs[i].cellType == Coinbase then InvalidCoinbase else Undecodable
  }

  /** Where the outputs stake `v`. */
  ghost function StakedAt(outputs: seq<Output>, v: (nat, u64)): set<nat> {
    set j | 0 <= j < |outputs| && outputs[j].cellType == Stake && v == (outputs[j].data, outputs[j].capacity)
  }

  /** Each stake is there as often as an output makes it. */
  lemma {:induction false} StakesCount(outputs: seq<Output>, v: (nat, u64))
    ensures multiset(Stakes(outputs))[v] == |StakedAt(outputs, v)|
  {
    hide Stakes;
    if outputs == [] {
      NoOutputs();
      assert StakedAt(outputs, v) == {};
    } else {
      var n, o := |outputs| - 1, outputs[|outputs| - 1];
      var front := outputs[..n];
      assert outputs == front + [o];
      StakesCount(front, v);
      StakesSnoc(front, o);
      hide StakedAt;
      StakedOnce(front, o, v);
    }
  }

  lemma StakedOnce(outputs: seq<Output>, o: Output, v: (nat, u64))
    ensures |StakedAt(outputs + [o], v)| ==
      |StakedAt(outputs, v)| + if o.cellType == Stake && v == (o.data, o.capacity) then 1 else 0
  {
    assert StakedAt(outputs + [o], v) ==
      StakedAt(outputs, v) + if o.cellType == Stake && v == (o.data, o.capacity) then {|outputs|} else {};
  }

  // A whole block

  ghost function AllStakes(cells: seq<Cell>): seq<(nat, u64)> {
    if cells == [] then [] else Stakes(cells[0].outputs) + AllStakes(cells[1..])
  }

  ghost function AllOf(cells: seq<Cell>, kind: CellType): nat {
    if cells == [] then 0 else SumOf(cells[0].outputs, kind) + AllOf(cells[1..], kind)
  }

  /** No coinbase or stake output consumes an output of its own type. */
  lemma OwnType(outs: map<CellId, Output>, cell: Cell)
    ensures cell.inputs <= outs.Keys ==>
      (Rejection(cell.outputs, set o | o in NamedOutputs(outs, cell.inputs) :: o.cellType).None? <==>
       forall o, id | o in cell.outputs && id in cell.inputs && o.cellType != Transfer ::
         outs[id].cellType != o.cellType)
  {
    if cell.inputs <= outs.Keys {
      var types := set o | o in NamedOutputs(outs, cell.inputs) :: o.cellType;
      RejectionFirst(cell.outputs, types);
      hide Rejection;
      forall id | id in cell.inputs ensures outs[id].cellType in types {
        assert outs[id] in NamedOutputs(outs, cell.inputs);
      }
    }
  }

  /** Why a cell is refused, the first reason first. */
  ghost predicate RefusedAs(s: State, cell: Cell, e: AlphaError)
    requires LiveOk(s.live)
  {
    var inputs, outputs := cell.inputs, cell.outputs;
    if !(inputs <= Outs(s.live).Keys) then e == UndefinedCellIds else
    var rejection := Rejection(outputs, set o | o in NamedOutputs(Outs(s.live), inputs) :: o.cellType);
    if rejection.Some? then e == rejection.value
    else if Collapses(s.live, inputs) then e == ExistingCellIds
    else if exists o :: o in outputs && Offends(o, s.height) then RefusedFor(outputs, s.height, e)
    else e == if Produced(cell) in s.live then ExistingCellIds else ExceedsCapacity
  }

  /** A cell applies if and only if its inputs are live and not those of two live cells completely, it is
      new, no output consumes its own type or offends, and it either has no coinbase capacity and
      consumes something that covers its outputs, or is coinbase only at height 0. */
  lemma AppliedExact(s: State, cell: Cell)
    requires LiveOk(s.live)
    ensures Applied(s, cell).Ok? <==>
      && cell.inputs <= Outs(s.live).Keys && !Collapses(s.live, cell.inputs) && Produced(cell) !in s.live
      && (forall o | o in cell.outputs :: !Offends(o, s.height))
      && (forall o, id | o in cell.outputs && id in cell.inputs && o.cellType != Transfer ::
          Outs(s.live)[id].cellType != o.cellType)
      && var consumed, coined := Total(Outs(s.live), cell.inputs), SumOf(cell.outputs, Coinbase);
         var kept := SumOf(cell.outputs, Transfer) + SumOf(cell.outputs, Stake);
         if coined == 0 then 0 < consumed && kept <= consumed else s.height == 0 && kept == 0
    ensures Applied(s, cell).Err? ==> RefusedAs(s, cell, Applied(s, cell).error)
    ensures Applied(s, cell).Ok? ==>
      Applied(s, cell).value.spending == s.spending +
        if SumOf(cell.outputs, Coinbase) != 0 then SumOf(cell.outputs, Coinbase)
        else SumOf(cell.outputs, Transfer) - Total(Outs(s.live), cell.inputs)
  {
    OwnType(Outs(s.live), cell);
    TallyRefuses(cell.outputs, s.height);
    if Tallied(cell.outputs, s.height).Ok? { TalliedIs(cell.outputs, s.height); }
    hide LiveOk, Outs, Rejection, Collapses, Tallied, Total, Produced, SumOf, Stakes;
  }

  lemma AppliedRegisters(s: State, cell: Cell)
    requires LiveOk(s.live) && Applied(s, cell).Ok?
    ensures Applied(s, cell).value.validators == s.validators + Stakes(cell.outputs)
    ensures Applied(s, cell).value.staking == s.staking + SumOf(cell.outputs, Stake)
  {
    TalliedIs(cell.outputs, s.height);
    hide LiveOk, Outs, Rejection, Collapses, Tallied, Total, Produced, SumOf, Stakes;
  }

  /** A block that applies registers every stake of its cells, in the order in which it is applied, and
      stakes their capacity. */
  lemma {:induction false} ApplyRegisters(s: State, cells: seq<Cell>)
    requires Sound(s.live, cells) && ApplyAll(s, cells).Ok?
    ensures ApplyAll(s, cells).value.validators == s.validators + AllStakes(cells)
    ensures ApplyAll(s, cells).value.staking == s.staking + AllOf(cells, Stake)
    decreases |cells|
  {
    hide Sound, LiveOk, Applied, Produced, Outs, Stakes, SumOf;
    if cells != [] {
      ApplyStep(s, cells);
      SoundLive(s.live, cells);
      AppliedRegisters(s, cells[0]);
      ApplyRegisters(Applied(s, cells[0]).value, cells[1..]);
    }
  }

  /** Where a block stakes `v`: the cell and the output. */
  ghost function AllStakedAt(cells: seq<Cell>, v: (nat, u64)): set<(nat, nat)> {
    set i, j | 0 <= i < |cells| && j in StakedAt(cells[i].outputs, v) :: (i, j)
  }

  ghost function Column(i: nat, rows: set<nat>): set<(nat, nat)> {
    set j | j in rows :: (i, j)
  }

  lemma {:induction false} ColumnSize(i: nat, rows: set<nat>)
    ensures |Column(i, rows)| == |rows|
    decreases rows
  {
    if rows == {} {
      assert Column(i, rows) == {};
    } else {
      var j :| j in rows;
      ColumnSize(i, rows - {j});
      assert Column(i, rows) == Column(i, rows - {j}) + {(i, j)};
    }
  }

  lemma {:induction false} AllStakesSnoc(cells: seq<Cell>, cell: Cell)
    ensures AllStakes(cells + [cell]) == AllStakes(cells) + Stakes(cell.outputs)
  {
    hide Stakes;
    if cells == [] {
      assert [] + [cell] == [cell] && AllStakes([cell][1..]) == [];
    } else {
      assert (cells + [cell])[1..] == cells[1..] + [cell];
      AllStakesSnoc(cells[1..], cell);
    }
  }

  lemma {:induction false} AllStakesCount(cells: seq<Cell>, v: (nat, u64))
    ensures multiset(AllStakes(cells))[v] == |AllStakedAt(cells, v)|
  {
    hide Stakes, StakedAt;
    if cells == [] {
      assert AllStakedAt(cells, v) == {};
    } else {
      var n, cell := |cells| - 1, cells[|cells| - 1];
      var front := cells[..n];
      assert cells == front + [cell];
      AllStakesCount(front, v);
      AllStakesSnoc(front, cell);
      StakesCount(cell.outputs, v);
      hide AllStakes, AllStakedAt;
      StakedLast(front, cell, v);
    }
  }

  lemma StakedLast(cells: seq<Cell>, cell: Cell, v: (nat, u64))
    ensures |AllStakedAt(cells + [cell], v)| == |AllStakedAt(cells, v)| + |StakedAt(cell.outputs, v)|
  {
    hide StakedAt;
    var n, all := |cells|, cells + [cell];
    ColumnSize(n, StakedAt(cell.outputs, v));
    assert AllStakedAt(all, v) == AllStakedAt(cells, v) + Column(n, StakedAt(cell.outputs, v));
    assert AllStakedAt(cells, v) !! Column(n, StakedAt(cell.outputs, v));
  }

  lemma AllStakesFirst(x: Cell, b: seq<Cell>)
    ensures multiset(AllStakes([x] + b)) == multiset(Stakes(x.outputs)) + multiset(AllStakes(b))
  {
    hide Stakes;
    assert ([x] + b)[1..] == b;
  }

  lemma {:induction false} AllStakesMid(a: seq<Cell>, x: Cell, b: seq<Cell>)
    ensures multiset(AllStakes(a + [x] + b)) == multiset(Stakes(x.outputs)) + multiset(AllStakes(a + b))
  {
    hide *;
    AllStakesFirst(x, b);
    if a == [] {
      assert a + [x] + b == [x] + b && a + b == b;
    } else {
      var rest := a[1..];
      AllStakesMid(rest, x, b);
      assert a + [x] + b == [a[0]] + (rest + [x] + b) && a + b == [a[0]] + (rest + b);
      AllStakesFirst(a[0], rest + [x] + b);
      AllStakesFirst(a[0], rest + b);
    }
  }

  lemma {:induction false} AllStakesPermute(a: seq<Cell>, b: seq<Cell>)
    requires multiset(a) == multiset(b)
    ensures multiset(AllStakes(a)) == multiset(AllStakes(b))
    decreases |a|
  {
    hide *;
    if a == [] {
      assert |multiset(b)| == 0;
      assert b == [];
    } else {
      var j := SameHead(a, b);
      assert b == b[..j] + [b[j]] + b[j + 1..] && a == [a[0]] + a[1..];
      AllStakesMid(b[..j], b[j], b[j + 1..]);
      AllStakesFirst(a[0], a[1..]);
      AllStakesPermute(a[1..], b[..j] + b[j + 1..]);
    }
  }

  /** After a block that applies, in whatever order its cells come, each pair of node and capacity is
      registered once more for each output of the block that stakes it. */
  lemma ValidatorsAre(s: State, cells: seq<Cell>, ordered: seq<Cell>, v: (nat, u64))
    requires multiset(ordered) == multiset(cells) && Sound(s.live, ordered) && ApplyAll(s, ordered).Ok?
    ensures multiset(ApplyAll(s, ordered).value.validators)[v] ==
      multiset(s.validators)[v] + |AllStakedAt(cells, v)|
  {
    hide Sound, ApplyAll, AllStakes, AllStakedAt;
    ApplyRegisters(s, ordered);
    AllStakesPermute(ordered, cells);
    AllStakesCount(cells, v);
  }

  // Operations

  /** A stake built from a live cell and applied registers its node with the amount; a transfer registers
      nothing. */
  lemma OperationRegisters(s: State, k: Ids, amount: u64, owner: Hash, change: Hash, main: Output,
                           spent: ConsumeResult, built: Cell)
    requires LiveOk(s.live) && k in s.live && BuiltFrom(s.live[k], amount, owner, change, main, spent, built)
    requires Applied(s, built).Ok?
    ensures forall node, lock | main == StakeOutput(node, lock, amount) ::
      && Applied(s, built).value.validators == s.validators + [(node, amount)]
      && Applied(s, built).value.staking == s.staking + amount
    ensures forall recipient | main == TransferOutput(recipient, amount) ::
      Applied(s, built).value.validators == s.validators && Applied(s, built).value.staking == s.staking
  {
    BuiltParts(s.live[k], amount, owner, change, main, spent, built);
    hide LiveOk, BuiltFrom, Applied, Spends, SumOf, Stakes;
    AppliedRegisters(s, built);
    StakesOfBuilt(built.outputs, main, change, spent.residue);
  }

  /** The capacity locked by `lock`. */
  ghost function OwnedSum(outputs: seq<Output>, lock: Hash): nat {
    if outputs == [] then 0
    else (if outputs[0].lock == lock then outputs[0].capacity else 0) + OwnedSum(outputs[1..], lock)
  }

  lemma {:induction false} OwnedSnoc(outputs: seq<Output>, o: Output, lock: Hash)
    ensures OwnedSum(outputs + [o], lock) == OwnedSum(outputs, lock) + if o.lock == lock then o.capacity else 0
  {
    if outputs == [] {
      assert [] + [o] == [o] && OwnedSum([o][1..], lock) == 0;
    } else {
      assert (outputs + [o])[1..] == outputs[1..] + [o];
      OwnedSnoc(outputs[1..], o, lock);
    }
  }

  /** Who holds what is built: the one the main output is locked by the amount, the change address what is
      left beyond the fee, nobody else anything. */
  lemma BuiltOwners(cell: Cell, amount: u64, owner: Hash, change: Hash, main: Output, spent: ConsumeResult, built: Cell,
                    lock: Hash)
    requires BuiltFrom(cell, amount, owner, change, main, spent, built)
    ensures forall recipient | main == TransferOutput(recipient, amount) ::
      OwnedSum(built.outputs, lock) ==
        (if lock == recipient then amount else 0) + if lock == change then spent.residue - FeePaid(spent.residue) else 0
    ensures forall node, address | main == StakeOutput(node, address, amount) ::
      OwnedSum(built.outputs, lock) ==
        (if lock == address then amount else 0) + if lock == change then spent.residue - FeePaid(spent.residue) else 0
  {
    BuiltParts(cell, amount, owner, change, main, spent, built);
    hide BuiltFrom, Spends, OwnedSum;
    OwnersOfBuilt(built.outputs, main, change, spent.residue, lock);
  }

  lemma OwnersOfBuilt(outputs: seq<Output>, main: Output, change: Hash, residue: u64, lock: Hash)
    requires multiset(outputs) == multiset(WithChange(main, change, residue))
    ensures OwnedSum(outputs, lock) ==
      (if lock == main.lock then main.capacity else 0) + if lock == change then residue - FeePaid(residue) else 0
  {
    hide OwnedSum;
    NoneOwned(lock);
    OwnedSnoc([], main, lock);
    assert [] + [main] == [main];
    if residue > FEE {
      var second := TransferOutput(change, residue - FEE);
      TwoOrders(outputs, main, second);
      OwnedTwo(main, second, lock);
      OwnedTwo(second, main, lock);
    } else {
      OneOrder(outputs, main);
    }
  }

  lemma OwnedTwo(a: Output, b: Output, lock: Hash)
    ensures OwnedSum([a, b], lock) ==
      (if a.lock == lock then a.capacity else 0) + if b.lock == lock then b.capacity else 0
  {
    hide OwnedSum;
    NoneOwned(lock);
    OwnedSnoc([], a, lock);
    OwnedSnoc([a], b, lock);
    assert [a] + [b] == [a, b] && [] + [a] == [a];
  }

  lemma NoneOwned(lock: Hash)
    ensures OwnedSum([], lock) == 0
  {
  }

  lemma StakesOfBuilt(outputs: seq<Output>, main: Output, change: Hash, residue: u64)
    requires multiset(outputs) == multiset(WithChange(main, change, residue))
    ensures Stakes(outputs) == if main.cellType == Stake then [(main.data, main.capacity)] else []
    ensures SumOf(outputs, Stake) == if main.cellType == Stake then main.capacity else 0
  {
    hide Stakes, SumOf, StakeOf;
    if residue > FEE {
      var second := TransferOutput(change, residue - FEE);
      TwoOrders(outputs, main, second);
      StakesOfTwo(main, second);
      StakesOfTwo(second, main);
      StakeOne(main);
      StakeOne(second);
    } else {
      OneOrder(outputs, main);
      StakeOne(main);
    }
  }

  lemma StakeOne(o: Output)
    ensures Stakes([o]) == StakeOf(o) == (if o.cellType == Stake then [(o.data, o.capacity)] else [])
    ensures SumOf([o], Stake) == if o.cellType == Stake then o.capacity else 0
  {
    assert [] + [o] == [o];
    NoOutputs();
    AddOne([], o);
  }

  lemma StakesOfTwo(a: Output, b: Output)
    ensures Stakes([a, b]) == StakeOf(a) + StakeOf(b) && SumOf([a, b], Stake) == SumOf([a], Stake) + SumOf([b], Stake)
  {
    hide Stakes, SumOf;
    assert [a, b] == [a] + [b];
    StakeOne(a);
    StakeOne(b);
    AddOne([a], b);
  }

  lemma AddOne(outputs: seq<Output>, o: Output)
    ensures Stakes(outputs + [o]) == Stakes(outputs) + StakeOf(o)
    ensures SumOf(outputs + [o], Stake) == SumOf(outputs, Stake) + if o.cellType == Stake then o.capacity else 0
  {
    StakesSnoc(outputs, o);
    SumSnoc(outputs, o, Stake);
  }
}
