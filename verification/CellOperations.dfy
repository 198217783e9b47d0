/** Spending from a cell: `consume_from_cell` (`src/cell/cell_operation.rs`), and the transfer and
    stake operations built on it (`src/alpha/transfer.rs`, `src/alpha/stake.rs`). */
module CellOperations {
  import opened Basics
  import opened Cells
  import opened AlphaState
  import opened DependencyGraphs

  const FEE := 3

  datatype OperationError = BadOutput | ZeroTransfer | ExceedsAvailableFunds | UnspendableCell

  datatype ConsumeResult = ConsumeResult(consumed: u64, residue: u64, inputs: seq<CellId>)

  /** The positions of the outputs locked by `owner`. */
  function OwnedBy(outputs: seq<Output>, owner: Hash): seq<nat> {
    if outputs == [] then [] else
    var last := |outputs| - 1;
    OwnedBy(outputs[..last], owner) + if outputs[last].lock == owner then [last] else []
  }

  ghost predicate Increasing(at: seq<nat>, n: nat) {
    && (forall i | 0 <= i < |at| :: at[i] < n)
    && (forall i, j | 0 <= i < j < |at| :: at[i] < at[j])
  }

  lemma {:induction false} OwnedByExact(outputs: seq<Output>, owner: Hash)
    ensures InRange(OwnedBy(outputs, owner), outputs)
    ensures forall i :: i in OwnedBy(outputs, owner) <==> 0 <= i < |outputs| && outputs[i].lock == owner
    ensures Increasing(OwnedBy(outputs, owner), |outputs|)
  {
    if outputs != [] {
      var front := outputs[..|outputs| - 1];
      OwnedByExact(front, owner);
      assert forall i | 0 <= i < |front| :: front[i] == outputs[i];
      assert forall k | 0 <= k < |OwnedBy(front, owner)| :: OwnedBy(front, owner)[k] in OwnedBy(front, owner);
    }
  }

  ghost predicate InRange(at: seq<nat>, outputs: seq<Output>) {
    forall k | 0 <= k < |at| :: at[k] < |outputs|
  }

  /** The capacity at some positions. */
  ghost function SumAt(outputs: seq<Output>, at: seq<nat>): nat
    requires InRange(at, outputs)
  {
    if at == [] then 0 else
    SumAt(outputs, at[..|at| - 1]) + outputs[at[|at| - 1]].capacity
  }

  lemma SumAtNext(outputs: seq<Output>, at: seq<nat>, i: nat)
    requires InRange(at, outputs) && i < |at|
    ensures SumAt(outputs, at[..i + 1]) == SumAt(outputs, at[..i]) + outputs[at[i]].capacity
  {
    assert at[..i + 1][..i] == at[..i];
  }

  lemma SumAtNone(outputs: seq<Output>, at: seq<nat>)
    ensures SumAt(outputs, at[..0]) == 0
  {
  }

  ghost function OwnedTotal(cell: Cell, owner: Hash): nat {
    OwnedByExact(cell.outputs, owner);
    SumAt(cell.outputs, OwnedBy(cell.outputs, owner))
  }

  /** The outcome the source documents, in the order in which it checks. */
  ghost predicate Refused(cell: Cell, amount: u64, owner: Hash, e: OperationError) {
    if exists o :: o in cell.outputs && !o.valid then e == BadOutput
    else if amount == 0 then e == ZeroTransfer
    else amount + FEE > OwnedTotal(cell, owner) && e == ExceedsAvailableFunds
  }

  /** The shortest prefix of the owner's outputs that covers `amount` is consumed; `residue` is
      what it holds beyond that. */
  ghost predicate Spends(cell: Cell, amount: u64, owner: Hash, r: ConsumeResult) {
    OwnedByExact(cell.outputs, owner);
    var owned, n := OwnedBy(cell.outputs, owner), |r.inputs|;
    && 0 < n <= |owned| && r.consumed == amount
    && (forall i | 0 <= i < n :: owned[i] < 256 && r.inputs[i] == CellId(cell.hash, owned[i]))
    && SumAt(cell.outputs, owned[..n - 1]) < amount
    && SumAt(cell.outputs, owned[..n]) == amount + r.residue
  }

  const U64_MAX := 0xFFFF_FFFF_FFFF_FFFF

  /** Some output that the byte-sized index reaches does not decode. */
  ghost predicate Malformed(outputs: seq<Output>) {
    exists i :: 0 <= i < |outputs| && i < 256 && !outputs[i].valid
  }

  /** Otherwise the index must stay a byte, and what the owner holds is added up in 64 bits: beyond
      that the source overflows. */
  ghost predicate Countable(cell: Cell, owner: Hash) {
    Malformed(cell.outputs) || (|cell.outputs| <= 255 && OwnedTotal(cell, owner) <= U64_MAX)
  }

  lemma {:induction false} SumAtWithin(outputs: seq<Output>, at: seq<nat>, n: nat)
    requires InRange(at, outputs) && n <= |at|
    ensures SumAt(outputs, at[..n]) <= SumAt(outputs, at)
    decreases |at| - n
  {
    if n < |at| {
      SumAtNext(outputs, at, n);
      SumAtWithin(outputs, at, n + 1);
    } else {
      assert at[..n] == at;
    }
  }

  /** Collects the owner's outputs; stops at the first one that does not decode. */
  method FindOwned(outputs: seq<Output>, owner: Hash) returns (r: Result<seq<nat>, OperationError>)
    requires |outputs| <= 255 || Malformed(outputs)
    ensures r == if exists o :: o in outputs && !o.valid then Err(BadOutput) else Ok(OwnedBy(outputs, owner))
  {
    var owned: seq<nat>, index: u8 := [], 0;
    for i := 0 to |outputs|
      invariant index == i && owned == OwnedBy(outputs[..i], owner)
      invariant forall l | 0 <= l < i :: outputs[l].valid
    {
      if !outputs[i].valid {
        assert outputs[i] in outputs;
        return Err(BadOutput);
      }
      assert outputs[..i + 1][..i] == outputs[..i];
      if outputs[i].lock == owner { owned := owned + [index]; }
      index := index + 1;
    }
    assert outputs[..|outputs|] == outputs;
    return Ok(owned);
  }

  method ValidateCapacity(outputs: seq<Output>, at: seq<nat>, amount: u64) returns (e: Option<OperationError>)
    requires InRange(at, outputs) && SumAt(outputs, at) <= U64_MAX
    ensures e ==
      if amount == 0 then Some(ZeroTransfer)
      else if amount + FEE > SumAt(outputs, at) then Some(ExceedsAvailableFunds) else None
  {
    var total: u64 := 0;
    for i := 0 to |at|
      invariant total == SumAt(outputs, at[..i])
    {
      SumAtNext(outputs, at, i);
      SumAtWithin(outputs, at, i + 1);
      total := total + outputs[at[i]].capacity;
    }
    assert at[..|at|] == at;
    if amount == 0 {
      return Some(ZeroTransfer);
    }
    if total < FEE || amount > total - FEE {
      return Some(ExceedsAvailableFunds);
    }
    return None;
  }

  /** `UnspendableCell` is never returned: with nothing owned the funds are too small already. */
  method ConsumeFromCell(cell: Cell, amount: u64, owner: Hash) returns (r: Result<ConsumeResult, OperationError>)
    requires Countable(cell, owner)
    ensures r.Err? <==> exists e :: Refused(cell, amount, owner, e)
    ensures r.Err? ==> Refused(cell, amount, owner, r.error)
    ensures r.Ok? ==> Spends(cell, amount, owner, r.value)
  {
    var found := FindOwned(cell.outputs, owner);
    if found.Err? {
      assert Refused(cell, amount, owner, found.error);
      return Err(found.error);
    }
    var owned := found.value;
    OwnedByExact(cell.outputs, owner);
    var refusal := ValidateCapacity(cell.outputs, owned, amount);
    if refusal.Some? {
      assert Refused(cell, amount, owner, refusal.value);
      return Err(refusal.value);
    }
    var spent := SpendOwned(cell, owned, amount, owner);
    return Ok(spent);
  }

  /** After the first `i` of the owner's outputs: `sum` is their capacity, and more was needed before
      the last of them. */
  ghost predicate Spending(cell: Cell, owned: seq<nat>, amount: u64, i: nat, sum: nat, inputs: seq<CellId>)
    requires InRange(owned, cell.outputs)
  {
    && i <= |owned| && |inputs| == i && sum == SumAt(cell.outputs, owned[..i])
    && (forall j | 0 <= j < i :: owned[j] < 256 && inputs[j] == CellId(cell.hash, owned[j]))
    && (i > 0 ==> SumAt(cell.outputs, owned[..i - 1]) < amount)
  }

  lemma SpendNext(cell: Cell, owned: seq<nat>, amount: u64, i: nat, sum: nat, inputs: seq<CellId>)
    requires InRange(owned, cell.outputs) && |cell.outputs| <= 255 && i < |owned|
    requires Spending(cell, owned, amount, i, sum, inputs) && sum < amount
    ensures Spending(cell, owned, amount, i + 1, sum + cell.outputs[owned[i]].capacity,
                     inputs + [CellId(cell.hash, owned[i])])
  {
    SumAtNext(cell.outputs, owned, i);
    hide SumAt;
  }

  method SpendOwned(cell: Cell, owned: seq<nat>, amount: u64, owner: Hash) returns (r: ConsumeResult)
    requires |cell.outputs| <= 255 && owned == OwnedBy(cell.outputs, owner)
    requires amount > 0 && InRange(owned, cell.outputs) && amount <= SumAt(cell.outputs, owned)
    ensures Spends(cell, amount, owner, r)
  {
    var i, spending, residue: u64, consumed, inputs := 0, amount, 0, 0, [];
    ghost var sum: nat := 0;
    SumAtNone(cell.outputs, owned);
    hide OwnedBy, SumAt, Spends;
    assert Spending(cell, owned, amount, 0, 0, []);
    hide Spending;
    while i < |owned| && consumed < amount
      invariant 0 <= i <= |owned| && Spending(cell, owned, amount, i, sum, inputs)
      invariant consumed + residue == sum && consumed <= amount
      invariant consumed < amount ==> spending == amount - consumed && residue == 0
    {
      var capacity := cell.outputs[owned[i]].capacity;
      SpendNext(cell, owned, amount, i, sum, inputs);
      sum := sum + capacity;
      inputs := inputs + [CellId(cell.hash, owned[i])];
      if spending >= capacity {
        spending, consumed := spending - capacity, consumed + capacity;
      } else {
        consumed, residue := consumed + spending, capacity - spending;
      }
      i := i + 1;
    }
    r := ConsumeResult(consumed, residue, inputs);
    SpendsWhen(cell, owned, amount, owner, i, sum, r);
  }

  lemma SpendsWhen(cell: Cell, owned: seq<nat>, amount: u64, owner: Hash, i: nat, sum: nat, r: ConsumeResult)
    requires owned == OwnedBy(cell.outputs, owner) && InRange(owned, cell.outputs)
    requires amount > 0 && amount <= SumAt(cell.outputs, owned) && Spending(cell, owned, amount, i, sum, r.inputs)
    requires r.consumed + r.residue == sum && r.consumed <= amount
    requires i == |owned| || r.consumed == amount
    requires r.consumed < amount ==> r.residue == 0
    ensures Spends(cell, amount, owner, r)
  {
    assert owned[..|owned|] == owned;
    SumAtNone(cell.outputs, owned);
    hide SumAt, OwnedBy;
  }

  // Outputs in order

  function TypeRank(t: CellType): nat {
    match t case Coinbase => 0 case Transfer => 1 case Stake => 2
  }

  /** The derived order on outputs: by capacity, type, data and lock. */
  predicate Leq(a: Output, b: Output) {
    if a.capacity != b.capacity then a.capacity < b.capacity
    else if a.cellType != b.cellType then TypeRank(a.cellType) < TypeRank(b.cellType)
    else if a.data != b.data then a.data < b.data
    else a.lock.digest <= b.lock.digest
  }

  ghost predicate Ordered(s: seq<Output>) {
    forall i, j | 0 <= i < j < |s| :: Leq(s[i], s[j])
  }

  lemma LeqTrans(a: Output, b: Output, c: Output)
    requires Leq(a, b) && Leq(b, c)
    ensures Leq(a, c)
  {
  }

  lemma LeqTotal(a: Output, b: Output)
    ensures Leq(a, b) || Leq(b, a)
  {
  }

  function InsertOutput(o: Output, s: seq<Output>): seq<Output> {
    if s == [] || Leq(o, s[0]) then [o] + s else [s[0]] + InsertOutput(o, s[1..])
  }

  lemma {:induction false} InsertSorts(o: Output, s: seq<Output>)
    requires Ordered(s)
    ensures Ordered(InsertOutput(o, s)) && multiset(InsertOutput(o, s)) == multiset(s) + multiset{o}
  {
    hide Leq;
    if s != [] {
      assert s == [s[0]] + s[1..];
      if Leq(o, s[0]) {
        forall j | 0 <= j < |s| ensures Leq(o, s[j]) {
          if j > 0 { LeqTrans(o, s[0], s[j]); }
        }
      } else {
        LeqTotal(o, s[0]);
        InsertSorts(o, s[1..]);
        var rest := InsertOutput(o, s[1..]);
        forall j | 0 <= j < |rest| ensures Leq(s[0], rest[j]) {
          assert rest[j] in multiset(s[1..]) + multiset{o};
        }
      }
    }
  }

  /** `Outputs::new` */
  function NewOutputs(outputs: seq<Output>): seq<Output> {
    if outputs == [] then [] else InsertOutput(outputs[0], NewOutputs(outputs[1..]))
  }

  lemma {:induction false} NewOutputsSorts(outputs: seq<Output>)
    ensures Ordered(NewOutputs(outputs)) && multiset(NewOutputs(outputs)) == multiset(outputs)
    ensures var r := NewOutputs(outputs); forall i, j | 0 <= i < j < |r| :: r[i].capacity <= r[j].capacity
  {
    if outputs != [] {
      NewOutputsSorts(outputs[1..]);
      InsertSorts(outputs[0], NewOutputs(outputs[1..]));
      assert outputs == [outputs[0]] + outputs[1..];
    }
  }

  lemma {:induction false} CapacityMid(a: seq<Output>, x: Output, b: seq<Output>)
    ensures CapacityOf(a + [x] + b) == x.capacity + CapacityOf(a + b)
  {
    if b == [] {
      assert a + [x] + b == a + [x] && (a + [x])[..|a|] == a && a + b == a;
    } else {
      var n := |b| - 1;
      CapacityMid(a, x, b[..n]);
      assert (a + [x] + b)[..|a| + 1 + n] == a + [x] + b[..n] && (a + b)[..|a| + n] == a + b[..n];
    }
  }

  lemma CapacityAt(a: seq<Output>, j: nat)
    requires j < |a|
    ensures CapacityOf(a) == a[j].capacity + CapacityOf(a[..j] + a[j + 1..])
  {
    hide CapacityOf;
    assert a == a[..j] + [a[j]] + a[j + 1..];
    CapacityMid(a[..j], a[j], a[j + 1..]);
  }

  /** The total does not depend on the order of the outputs. */
  lemma {:induction false} CapacityPermutes(a: seq<Output>, b: seq<Output>)
    requires multiset(a) == multiset(b)
    ensures CapacityOf(a) == CapacityOf(b)
    decreases |a|
  {
    if a == [] {
      assert |multiset(b)| == 0;
    } else {
      hide CapacityOf;
      var n := |a| - 1;
      assert a[n] in multiset(b);
      var j :| 0 <= j < |b| && b[j] == a[n];
      RemoveAt(a, n);
      RemoveAt(b, j);
      CapacityAt(a, n);
      CapacityAt(b, j);
      CapacityPermutes(a[..n] + a[n + 1..], b[..j] + b[j + 1..]);
    }
  }

  // Transfer and stake

  function TransferOutput(lock: Hash, capacity: u64): Output {
    Output(capacity, Transfer, 0, true, lock)
  }

  function StakeOutput(node: nat, lock: Hash, capacity: u64): Output {
    Output(capacity, Stake, node, true, lock)
  }

  /** The outputs of the new cell: the amount, and the change if it exceeds the fee. */
  function WithChange(main: Output, change: Hash, residue: u64): seq<Output> {
    if residue > FEE && residue - FEE > 0 then [main, TransferOutput(change, residue - FEE)] else [main]
  }

  function FeePaid(residue: u64): nat {
    if residue > FEE then FEE else residue
  }

  /** `built` spends `amount` of `cell` on `main` and returns the change. */
  ghost predicate BuiltFrom(cell: Cell, amount: u64, owner: Hash, change: Hash, main: Output, spent: ConsumeResult,
                            built: Cell) {
    && Spends(cell, amount, owner, spent) && main.capacity == amount
    && built.inputs == Elems(spent.inputs)
    && Ordered(built.outputs)
    && multiset(built.outputs) ==
       multiset{main} + if spent.residue > FEE then multiset{Output(spent.residue - FEE, Transfer, 0, true, change)}
         else multiset{}
  }

  function Build(spent: ConsumeResult, main: Output, change: Hash, hash: Hash): Cell {
    Cell(hash, (set id | id in spent.inputs), NewOutputs(WithChange(main, change, spent.residue)))
  }

  lemma ConsumedAll(cell: Cell, amount: u64, owner: Hash, r: ConsumeResult)
    requires Spends(cell, amount, owner, r)
    ensures r.consumed == amount
  {
  }

  lemma BuildIs(cell: Cell, amount: u64, owner: Hash, change: Hash, main: Output, spent: ConsumeResult, hash: Hash)
    requires Spends(cell, amount, owner, spent) && main.capacity == spent.consumed
    ensures BuiltFrom(cell, amount, owner, change, main, spent, Build(spent, main, change, hash))
  {
    ConsumedAll(cell, amount, owner, spent);
    hide Spends, Ordered, NewOutputs;
    NewOutputsSorts(WithChange(main, change, spent.residue));
  }

  method TransferFrom(cell: Cell, recipient: Hash, change: Hash, amount: u64, owner: Hash, hash: Hash)
    returns (r: Result<Cell, OperationError>, ghost spent: ConsumeResult)
    requires Countable(cell, owner)
    ensures r.Err? <==> exists e :: Refused(cell, amount, owner, e)
    ensures r.Err? ==> Refused(cell, amount, owner, r.error)
    ensures r.Ok? ==> BuiltFrom(cell, amount, owner, change, TransferOutput(recipient, amount), spent, r.value)
  {
    hide Spends, Refused, BuiltFrom, Build, Countable;
    var consumption := ConsumeFromCell(cell, amount, owner);
    spent := ConsumeResult(0, 0, []);
    if consumption.Err? {
      r := Err(consumption.error);
      return;
    }
    spent := consumption.value;
    var main := TransferOutput(recipient, consumption.value.consumed);
    r := Ok(Build(consumption.value, main, change, hash));
    ConsumedAll(cell, amount, owner, spent);
    BuildIs(cell, amount, owner, change, main, spent, hash);
  }

  method StakeFrom(cell: Cell, node: nat, address: Hash, amount: u64, owner: Hash, hash: Hash)
    returns (r: Result<Cell, OperationError>, ghost spent: ConsumeResult)
    requires Countable(cell, owner)
    ensures r.Err? <==> exists e :: Refused(cell, amount, owner, e)
    ensures r.Err? ==> Refused(cell, amount, owner, r.error)
    ensures r.Ok? ==> BuiltFrom(cell, amount, owner, address, StakeOutput(node, address, amount), spent, r.value)
  {
    hide Spends, Refused, BuiltFrom, Build, Countable;
    var consumption := ConsumeFromCell(cell, amount, owner);
    spent := ConsumeResult(0, 0, []);
    if consumption.Err? {
      r := Err(consumption.error);
      return;
    }
    spent := consumption.value;
    var main := StakeOutput(node, address, consumption.value.consumed);
    r := Ok(Build(consumption.value, main, address, hash));
    ConsumedAll(cell, amount, owner, spent);
    BuildIs(cell, amount, owner, address, main, spent, hash);
  }

  // What the new cell means to the state

  lemma IncreasingPrefix(at: seq<nat>, n: nat, m: nat)
    requires Increasing(at, n) && m <= |at|
    ensures Increasing(at[..m], n)
  {
  }

  lemma IncreasingFront(at: seq<nat>, n: nat)
    requires at != [] && Increasing(at, n)
    ensures Increasing(at[..|at| - 1], at[|at| - 1])
  {
  }

  ghost function IdsAt(hash: Hash, at: seq<nat>): set<CellId> {
    if at == [] then {} else
    IdsAt(hash, at[..|at| - 1]) + {CellId(hash, at[|at| - 1] % 256)}
  }

  lemma {:induction false} IdsAtBelow(hash: Hash, at: seq<nat>, n: nat)
    requires Increasing(at, n) && n <= 256
    ensures forall id | id in IdsAt(hash, at) :: id.index < n
  {
    if at != [] {
      IncreasingFront(at, n);
      IdsAtBelow(hash, at[..|at| - 1], at[|at| - 1]);
    }
  }

  lemma {:induction false} IdsAtElems(hash: Hash, at: seq<nat>, ids: seq<CellId>)
    requires |ids| == |at| && forall i | 0 <= i < |at| :: at[i] < 256 && ids[i] == CellId(hash, at[i])
    ensures Elems(ids) == IdsAt(hash, at)
  {
    if at != [] {
      var n := |at| - 1;
      IdsAtElems(hash, at[..n], ids[..n]);
      assert ids == ids[..n] + [ids[n]];
      assert Elems(ids) == Elems(ids[..n]) + {ids[n]};
    }
  }

  lemma {:induction false} SumIds(outs: map<CellId, Output>, hash: Hash, outputs: seq<Output>, at: seq<nat>)
    requires Increasing(at, |outputs|) && |outputs| <= 256
    requires forall i | 0 <= i < |outputs| :: CellId(hash, i % 256) in outs && outs[CellId(hash, i % 256)] == outputs[i]
    ensures IdsAt(hash, at) <= outs.Keys && Total(outs, IdsAt(hash, at)) == SumAt(outputs, at)
  {
    if at != [] {
      var n := |at| - 1;
      var front, id := at[..n], CellId(hash, at[n] % 256);
      IncreasingFront(at, |outputs|);
      SumIds(outs, hash, outputs, front);
      IdsAtBelow(hash, front, at[n]);
      TotalTake(outs, IdsAt(hash, at), id);
      assert IdsAt(hash, at) - {id} == IdsAt(hash, front);
    }
  }

  lemma {:induction false} IdsAtWithin(cell: Cell, at: seq<nat>)
    requires Increasing(at, |cell.outputs|)
    ensures IdsAt(cell.hash, at) <= Produced(cell)
  {
    hide OutputIds;
    if at != [] {
      var n := |at| - 1;
      IncreasingPrefix(at, |cell.outputs|, n);
      IdsAtWithin(cell, at[..n]);
      IdAt(cell.hash, at[n], |cell.outputs|);
    }
  }

  lemma SpentTotal(live: map<Ids, Cell>, k: Ids, at: seq<nat>)
    requires LiveOk(live) && k in live && Increasing(at, |live[k].outputs|)
    ensures IdsAt(live[k].hash, at) <= k && IdsAt(live[k].hash, at) <= Outs(live).Keys
    ensures Total(Outs(live), IdsAt(live[k].hash, at)) == SumAt(live[k].outputs, at)
  {
    LiveKey(live, k);
    hide *;
    IdsAtWithin(live[k], at);
    assert Produced(live[k]) == k by { ProducedKey(live, k); }
    forall i | 0 <= i < |live[k].outputs|
      ensures CellId(live[k].hash, i % 256) in Outs(live)
      ensures Outs(live)[CellId(live[k].hash, i % 256)] == live[k].outputs[i]
    {
      OutsAt(live, k, i);
    }
    SumIds(Outs(live), live[k].hash, live[k].outputs, at);
  }

  lemma ProducedKey(live: map<Ids, Cell>, k: Ids)
    requires LiveOk(live) && k in live
    ensures Produced(live[k]) == k
  {
  }

  /** Nothing is created and nothing is lost but the fee: the outputs consumed, as `alpha` adds
      them up, hold the outputs produced and the fee; the fee is paid in full just when the
      residue covers it. */
  lemma Conserves(live: map<Ids, Cell>, k: Ids, amount: u64, owner: Hash, change: Hash, main: Output,
                  spent: ConsumeResult, built: Cell)
    requires LiveOk(live) && k in live && BuiltFrom(live[k], amount, owner, change, main, spent, built)
    ensures built.inputs <= k && built.inputs <= Outs(live).Keys
    ensures Total(Outs(live), built.inputs) == CapacityOf(built.outputs) + FeePaid(spent.residue)
    ensures FeePaid(spent.residue) == FEE <==> spent.residue >= FEE
  {
    BuiltParts(live[k], amount, owner, change, main, spent, built);
    hide *;
    SpentInputs(live, k, amount, owner, spent);
    CapacityPermutes(built.outputs, WithChange(main, change, spent.residue));
    ChangeTotal(main, change, spent.residue);
    FeeInFull(spent.residue);
  }

  lemma FeeInFull(residue: u64)
    ensures FeePaid(residue) == FEE <==> residue >= FEE
    ensures FeePaid(residue) <= residue
  {
  }

  /** Some of the owner's outputs, taken in order, hold the amount but not the fee as well. */
  ghost predicate ShortOfFee(cell: Cell, amount: u64, owner: Hash) {
    OwnedByExact(cell.outputs, owner);
    var owned := OwnedBy(cell.outputs, owner);
    exists m: nat :: m <= |owned| && amount <= SumAt(cell.outputs, owned[..m]) < amount + FEE
  }

  /** Seen before the call: the fee is paid in full if and only if no first outputs are short of it. */
  lemma FeeExact(cell: Cell, amount: u64, owner: Hash, r: ConsumeResult)
    requires Spends(cell, amount, owner, r)
    ensures FeePaid(r.residue) == FEE <==> !ShortOfFee(cell, amount, owner)
  {
    OwnedByExact(cell.outputs, owner);
    var owned, n := OwnedBy(cell.outputs, owner), |r.inputs|;
    hide OwnedBy, SumAt;
    if r.residue < FEE {
      assert amount <= SumAt(cell.outputs, owned[..n]) < amount + FEE;
    } else {
      forall m: nat | m <= |owned| ensures !(amount <= SumAt(cell.outputs, owned[..m]) < amount + FEE) {
        if m < n { SumsGrow(cell.outputs, owned, m, n - 1); } else { SumsGrow(cell.outputs, owned, n, m); }
      }
    }
  }

  lemma SumsGrow(outputs: seq<Output>, at: seq<nat>, m: nat, n: nat)
    requires InRange(at, outputs) && m <= n <= |at|
    ensures SumAt(outputs, at[..m]) <= SumAt(outputs, at[..n])
  {
    assert at[..n][..m] == at[..m];
    hide SumAt;
    SumAtWithin(outputs, at[..n], m);
  }

  /** Two outputs of ten, and an amount of ten: the operation goes through and pays no fee. */
  lemma FeeUnpaid(owner: Hash, hash: Hash)
    ensures var ten := TransferOutput(owner, 10); var cell := Cell(hash, {}, [ten, ten]);
      && Countable(cell, owner) && (forall e :: !Refused(cell, 10, owner, e))
      && Spends(cell, 10, owner, ConsumeResult(10, 0, [CellId(hash, 0)])) && FeePaid(0) == 0
  {
    hide OwnedBy, SumAt;
    var ten := TransferOutput(owner, 10);
    OwnedTwice(ten, owner);
    SumsTwice(ten);
    assert [0, 1][..1] == [0] && [0, 1][..0] == [] && [0, 1][..2] == [0, 1];
  }

  lemma OwnedTwice(o: Output, owner: Hash)
    requires o.lock == owner
    ensures OwnedBy([o, o], owner) == [0, 1]
  {
    OwnedSnoc([], o, owner);
    OwnedSnoc([o], o, owner);
    assert [o, o] == [o] + [o] && [o] == [] + [o];
  }

  lemma SumsTwice(o: Output)
    ensures SumAt([o, o], []) == 0 && SumAt([o, o], [0]) == o.capacity && SumAt([o, o], [0, 1]) == 2 * o.capacity
  {
    assert [0, 1][..1] == [0] && [0][..0] == [];
  }

  lemma OwnedSnoc(outputs: seq<Output>, o: Output, owner: Hash)
    ensures OwnedBy(outputs + [o], owner) == OwnedBy(outputs, owner) + if o.lock == owner then [|outputs|] else []
  {
    assert (outputs + [o])[..|outputs|] == outputs;
  }

  lemma BuiltParts(cell: Cell, amount: u64, owner: Hash, change: Hash, main: Output, spent: ConsumeResult, built: Cell)
    requires BuiltFrom(cell, amount, owner, change, main, spent, built)
    ensures Spends(cell, amount, owner, spent) && built.inputs == Elems(spent.inputs) && main.capacity == amount
    ensures multiset(built.outputs) == multiset(WithChange(main, change, spent.residue))
  {
    hide Spends, Ordered;
  }

  /** The inputs name distinct outputs of the cell that hold the amount and the residue. */
  lemma SpentInputs(live: map<Ids, Cell>, k: Ids, amount: u64, owner: Hash, spent: ConsumeResult)
    requires LiveOk(live) && k in live && Spends(live[k], amount, owner, spent)
    ensures Elems(spent.inputs) <= k && Elems(spent.inputs) <= Outs(live).Keys
    ensures Total(Outs(live), Elems(spent.inputs)) == amount + spent.residue
  {
    var cell := live[k];
    var owned, n := OwnedBy(cell.outputs, owner), |spent.inputs|;
    OwnedByExact(cell.outputs, owner);
    IncreasingPrefix(owned, |cell.outputs|, n);
    hide LiveOk, Outs, SumAt, OwnedBy, IdsAt, Increasing, Total;
    SpentTotal(live, k, owned[..n]);
    IdsAtElems(cell.hash, owned[..n], spent.inputs);
  }

  lemma ChangeTotal(main: Output, change: Hash, residue: u64)
    ensures CapacityOf(WithChange(main, change, residue)) == main.capacity + residue - FeePaid(residue)
  {
    assert [main][..0] == [] && CapacityOf([main]) == main.capacity;
    if residue > FEE {
      var second := TransferOutput(change, residue - FEE);
      assert [main, second][..1] == [main];
    }
  }

  lemma TwoOrders(s: seq<Output>, a: Output, b: Output)
    requires multiset(s) == multiset([a, b])
    ensures s == [a, b] || s == [b, a]
  {
    assert |multiset(s)| == |s| == 2;
    assert s == [s[0], s[1]];
    assert s[0] in multiset([a, b]);
    assert multiset([a, b]) - multiset{a} == multiset{b};
    assert multiset([a, b]) - multiset{b} == multiset{a};
    assert multiset(s) - multiset{s[0]} == multiset{s[1]};
    assert s[1] in multiset{s[1]};
  }

  lemma OneOrder(s: seq<Output>, a: Output)
    requires multiset(s) == multiset([a])
    ensures s == [a]
  {
    assert |multiset(s)| == |s| == 1;
    assert s[0] in multiset([a]);
  }

  lemma TallyOfOne(o: Output, height: nat)
    ensures Tallied([o], height) == TallyOne(Tally(0, 0, 0, []), o, height)
  {
    assert [o][..0] == [];
  }

  lemma TallyOfTwo(a: Output, b: Output, height: nat)
    requires Tallied([a], height).Ok?
    ensures Tallied([a, b], height) == TallyOne(Tallied([a], height).value, b, height)
  {
    assert [a, b][..1] == [a];
  }

  /** What `alpha` tallies for the new cell. */
  lemma TallyOfBuilt(outputs: seq<Output>, main: Output, change: Hash, residue: u64, height: nat)
    requires multiset(outputs) == multiset(WithChange(main, change, residue))
    requires main.cellType != Coinbase && (main.cellType == Stake ==> main.valid)
    ensures Tallied(outputs, height).Ok?
    ensures var t := Tallied(outputs, height).value;
      && t.coinbase == 0 && t.staked == if main.cellType == Stake then main.capacity else 0
    ensures forall o | o in outputs :: o == main || o.cellType == Transfer
    ensures main in outputs
  {
    hide Tallied;
    TallyOfOne(main, height);
    if residue > FEE {
      var second := TransferOutput(change, residue - FEE);
      TwoOrders(outputs, main, second);
      TallyOfOne(second, height);
      TallyOfTwo(main, second, height);
      TallyOfTwo(second, main, height);
    } else {
      OneOrder(outputs, main);
    }
  }

  ghost predicate SpendsStake(live: map<Ids, Cell>, inputs: Ids)
    requires LiveOk(live) && inputs <= Outs(live).Keys
  {
    exists id :: id in inputs && Outs(live)[id].cellType == Stake
  }

  /** A cell that a transfer builds from a live cell is accepted by the state, and a cell that a
      stake builds is, unless it spends a stake; either is refused if it was applied before, or if it
      consumes the cell completely while some cell without outputs is live. The totals drop by the fee. */
  lemma OperationApplies(s: State, k: Ids, amount: u64, owner: Hash, change: Hash, main: Output,
                         spent: ConsumeResult, built: Cell)
    requires LiveOk(s.live) && k in s.live && BuiltFrom(s.live[k], amount, owner, change, main, spent, built)
    requires amount > 0 && main.cellType != Coinbase && (main.cellType == Stake ==> main.valid)
    ensures built.inputs <= Outs(s.live).Keys
    ensures Applied(s, built).Ok? <==>
      && !(main.cellType == Stake && SpendsStake(s.live, built.inputs))
      && !({} in s.live && k <= built.inputs) && Produced(built) !in s.live
    ensures Applied(s, built).Err? ==>
      Applied(s, built).error ==
        if main.cellType == Stake && SpendsStake(s.live, built.inputs) then InvalidStake else ExistingCellIds
    ensures Applied(s, built).Ok? ==>
      && Applied(s, built).value.staking == s.staking + (if main.cellType == Stake then amount else 0)
      && Applied(s, built).value.spending + Applied(s, built).value.staking ==
         s.spending + s.staking - FeePaid(spent.residue)
  {
    BuiltParts(s.live[k], amount, owner, change, main, spent, built);
    Conserves(s.live, k, amount, owner, change, main, spent, built);
    hide LiveOk, BuiltFrom, Outs, Collapses, Tallied, Total, Produced, Rejection;
    hide Applied, NamedOutputs, CapacityOf, SpendsStake, Balanced;
    var types := set o | o in NamedOutputs(Outs(s.live), built.inputs) :: o.cellType;
    TallyOfBuilt(built.outputs, main, change, spent.residue, s.height);
    TallyIsCapacity(built.outputs, s.height);
    RejectionOfBuilt(built.outputs, main, types);
    CollapsesOne(s.live, k, built.inputs);
    SomeInput(s.live[k], amount, owner, spent);
    StakeTypes(s.live, built.inputs);
    AppliedWhen(s, built, types);
    BalancedBuilt(s, built, Tallied(built.outputs, s.height).value, Total(Outs(s.live), built.inputs),
                  FeePaid(spent.residue));
  }

  lemma BalancedBuilt(s: State, cell: Cell, t: Tally, consumed: nat, fee: nat)
    requires t.coinbase == 0 && consumed == t.produced + t.staked + fee
    ensures consumed > 0 ==>
      && Balanced(s, cell, t, consumed).Ok? && Balanced(s, cell, t, consumed).value.staking == s.staking + t.staked
      && Balanced(s, cell, t, consumed).value.spending + Balanced(s, cell, t, consumed).value.staking ==
         s.spending + s.staking - fee
  {
    hide Produced;
  }

  lemma SomeInput(cell: Cell, amount: u64, owner: Hash, spent: ConsumeResult)
    requires Spends(cell, amount, owner, spent)
    ensures Elems(spent.inputs) != {}
  {
    assert spent.inputs[0] in Elems(spent.inputs);
  }

  lemma RejectionOfBuilt(outputs: seq<Output>, main: Output, types: set<CellType>)
    requires main in outputs && main.cellType != Coinbase
    requires forall o | o in outputs :: o == main || o.cellType == Transfer
    ensures Rejection(outputs, types) == if main.cellType == Stake && Stake in types then Some(InvalidStake) else None
  {
    hide Rejection;
    RejectionFirst(outputs, types);
  }

  lemma AppliedWhen(s: State, cell: Cell, types: set<CellType>)
    requires LiveOk(s.live) && cell.inputs <= Outs(s.live).Keys
    requires types == set o | o in NamedOutputs(Outs(s.live), cell.inputs) :: o.cellType
    requires Tallied(cell.outputs, s.height).Ok?
    ensures Applied(s, cell) ==
      var rejection := Rejection(cell.outputs, types);
      if rejection.Some? then Err(rejection.value)
      else if Collapses(s.live, cell.inputs) || Produced(cell) in s.live then Err(ExistingCellIds)
      else Balanced(s, cell, Tallied(cell.outputs, s.height).value, Total(Outs(s.live), cell.inputs))
  {
  }

  lemma StakeTypes(live: map<Ids, Cell>, inputs: Ids)
    requires LiveOk(live) && inputs <= Outs(live).Keys
    ensures Stake in (set o | o in NamedOutputs(Outs(live), inputs) :: o.cellType) <==> SpendsStake(live, inputs)
  {
    hide LiveOk, Outs;
    if id :| id in inputs && Outs(live)[id].cellType == Stake {
      assert Outs(live)[id] in NamedOutputs(Outs(live), inputs);
    }
  }
}
