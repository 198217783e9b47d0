/** Applying a block of cells to the `alpha` state (`src/alpha/state.rs`). */
module AlphaState {
  import opened Basics
  import opened Cells
  import opened DependencyGraphs

  /** `live` maps the ids a cell produced to that cell. The totals are unbounded here. */
  datatype State = State(height: nat, spending: int, staking: int, validators: seq<(nat, u64)>, live: map<Ids, Cell>)

  datatype AlphaError =
    | Graph(error: GraphError)
    | UndefinedCellIds
    | InvalidCoinbase
    | InvalidStake
    | ExistingCellIds
    | ExceedsCapacity
    | Undecodable

  // The live outputs, by id

  /** Each live cell stands under the ids it produced; a hash names one cell; an index fits its byte. */
  ghost predicate LiveOk(live: map<Ids, Cell>) {
    && (forall k | k in live :: k == Produced(live[k]) && |live[k].outputs| <= 256)
    && (forall k, l | k in live && l in live && live[k].hash == live[l].hash :: k == l)
  }

  ghost predicate Holds(live: map<Ids, Cell>, k: Ids, id: CellId) {
    k in live && id in k
  }

  ghost function OutputAt(live: map<Ids, Cell>, id: CellId): Output
    requires LiveOk(live) && exists k :: Holds(live, k, id)
  {
    var k :| Holds(live, k, id);
    IdIndex(live[k], id);
    live[k].outputs[id.index]
  }

  /** The live outputs, each under its id. */
  ghost function Outs(live: map<Ids, Cell>): map<CellId, Output>
    requires LiveOk(live)
  {
    map id | id in (set k, x | k in live.Keys && x in k :: x) ::
      (assert exists k :: Holds(live, k, id) by { var k :| k in live.Keys && id in k; assert Holds(live, k, id); }
       OutputAt(live, id))
  }

  lemma HolderUnique(live: map<Ids, Cell>, k: Ids, l: Ids, id: CellId)
    requires LiveOk(live) && Holds(live, k, id) && Holds(live, l, id)
    ensures k == l
  {
    IdIndex(live[k], id);
    IdIndex(live[l], id);
  }

  lemma OutsHolder(live: map<Ids, Cell>, k: Ids, id: CellId)
    requires LiveOk(live) && Holds(live, k, id)
    ensures id in Outs(live) && id.index < |live[k].outputs| && Outs(live)[id] == live[k].outputs[id.index]
  {
    IdIndex(live[k], id);
    hide LiveOk;
    forall l | Holds(live, l, id) ensures l == k { HolderUnique(live, k, l, id); }
  }

  lemma OutsAt(live: map<Ids, Cell>, k: Ids, i: nat)
    requires LiveOk(live) && k in live && i < |live[k].outputs|
    ensures var id := CellId(live[k].hash, i % 256);
      id in k && id in Outs(live) && Outs(live)[id] == live[k].outputs[i]
  {
    assert k == Produced(live[k]) && i % 256 == i;
    IdAt(live[k].hash, i, |live[k].outputs|);
    hide LiveOk, Outs, OutputAt;
    OutsHolder(live, k, CellId(live[k].hash, i % 256));
  }

  lemma OutsKeys(live: map<Ids, Cell>, id: CellId)
    requires LiveOk(live)
    ensures id in Outs(live) <==> exists k :: Holds(live, k, id)
  {
    hide LiveOk, OutputAt;
    if k :| Holds(live, k, id) { assert k in live.Keys; }
    if id in Outs(live) {
      var k :| k in live.Keys && id in k;
      assert Holds(live, k, id);
    }
  }

  /** Names do not depend on what else is live. */
  lemma OutsGrow(live: map<Ids, Cell>, more: map<Ids, Cell>)
    requires LiveOk(live) && LiveOk(more)
    requires forall k | k in live :: k in more && more[k] == live[k]
    ensures Outs(live).Keys <= Outs(more).Keys
    ensures forall id | id in Outs(live) :: Outs(more)[id] == Outs(live)[id]
  {
    hide LiveOk, Outs, OutputAt;
    forall id | id in Outs(live) ensures id in Outs(more) && Outs(more)[id] == Outs(live)[id] {
      OutsKeys(live, id);
      var k :| Holds(live, k, id);
      OutsHolder(live, k, id);
      assert Holds(more, k, id);
      OutsHolder(more, k, id);
    }
  }

  /** The capacity of the outputs that `ids` name, each counted once. */
  ghost function Total(outs: map<CellId, Output>, ids: set<CellId>): nat
    requires ids <= outs.Keys
  {
    if ids == {} then 0 else
    var id :| id in ids;
    outs[id].capacity + Total(outs, ids - {id})
  }

  lemma {:induction false} TotalTake(outs: map<CellId, Output>, ids: set<CellId>, id: CellId)
    requires ids <= outs.Keys && id in ids
    ensures Total(outs, ids) == outs[id].capacity + Total(outs, ids - {id})
    decreases ids
  {
    var x :| x in ids && Total(outs, ids) == outs[x].capacity + Total(outs, ids - {x});
    if x != id {
      TotalTake(outs, ids - {x}, id);
      TotalTake(outs, ids - {id}, x);
      assert ids - {x} - {id} == ids - {id} - {x};
    }
  }

  lemma {:induction false} TotalUnion(outs: map<CellId, Output>, a: set<CellId>, b: set<CellId>)
    requires a <= outs.Keys && b <= outs.Keys && a !! b
    ensures Total(outs, a + b) == Total(outs, a) + Total(outs, b)
    decreases b
  {
    if b == {} {
      assert a + b == a;
    } else {
      var x :| x in b;
      TotalTake(outs, b, x);
      TotalTake(outs, a + b, x);
      assert a + b - {x} == a + (b - {x});
      TotalUnion(outs, a, b - {x});
    }
  }

  lemma {:induction false} TotalSame(outs: map<CellId, Output>, more: map<CellId, Output>, ids: set<CellId>)
    requires ids <= outs.Keys && ids <= more.Keys && forall id | id in ids :: more[id] == outs[id]
    ensures Total(more, ids) == Total(outs, ids)
    decreases ids
  {
    if ids != {} {
      var x :| x in ids;
      TotalTake(outs, ids, x);
      TotalTake(more, ids, x);
      TotalSame(outs, more, ids - {x});
    }
  }

  // Finding the inputs of a cell among the live cells

  ghost function NamedOutputs(outs: map<CellId, Output>, ids: set<CellId>): set<Output>
    requires ids <= outs.Keys
  {
    set id | id in ids :: outs[id]
  }

  /** What has been collected for `ids`. */
  ghost predicate Collected(outs: map<CellId, Output>, ids: set<CellId>, outputs: seq<Output>, capacity: nat) {
    && ids <= outs.Keys
    && capacity == Total(outs, ids) && Elems(outputs) == NamedOutputs(outs, ids)
  }

  lemma CollectNone(outs: map<CellId, Output>)
    ensures Collected(outs, {}, [], 0)
  {
  }

  lemma LiveKey(live: map<Ids, Cell>, k: Ids)
    requires LiveOk(live) && k in live
    ensures k == OutputIds(live[k].hash, |live[k].outputs|) && |live[k].outputs| <= 256
    ensures OutputIds(live[k].hash, 0) == {}
  {
  }

  lemma CollectOne(outs: map<CellId, Output>, ids: set<CellId>, outputs: seq<Output>, capacity: nat, id: CellId)
    requires Collected(outs, ids, outputs, capacity) && id in outs && id !in ids
    ensures Collected(outs, ids + {id}, outputs + [outs[id]], capacity + outs[id].capacity)
  {
    TotalTake(outs, ids + {id}, id);
    assert ids + {id} - {id} == ids;
    assert Elems(outputs + [outs[id]]) == Elems(outputs) + {outs[id]};
    assert NamedOutputs(outs, ids + {id}) == NamedOutputs(outs, ids) + {outs[id]};
  }

  lemma CollectMore(outs: map<CellId, Output>, ids: set<CellId>, outputs: seq<Output>, capacity: nat,
                    more: set<CellId>, moreOutputs: seq<Output>, moreCapacity: nat)
    requires Collected(outs, ids, outputs, capacity) && Collected(outs, more, moreOutputs, moreCapacity)
    requires ids !! more
    ensures Collected(outs, ids + more, outputs + moreOutputs, capacity + moreCapacity)
  {
    TotalUnion(outs, ids, more);
    assert Elems(outputs + moreOutputs) == Elems(outputs) + Elems(moreOutputs);
    assert NamedOutputs(outs, ids + more) == NamedOutputs(outs, ids) + NamedOutputs(outs, more);
  }

  lemma WantedStep(wanted: Ids, hash: Hash, i: nat)
    ensures var id := CellId(hash, i % 256);
      wanted * OutputIds(hash, i + 1) == wanted * OutputIds(hash, i) + if id in wanted then {id} else {}
  {
  }

  method CollectFrom(live: map<Ids, Cell>, k: Ids, wanted: Ids) returns (ids: Ids, outputs: seq<Output>, capacity: nat)
    requires LiveOk(live) && k in live && wanted <= k
    ensures ids == wanted && Collected(Outs(live), ids, outputs, capacity)
  {
    hide *;
    var cell := live[k];
    ghost var outs := Outs(live);
    ids, outputs, capacity := {}, [], 0;
    CollectNone(outs);
    LiveKey(live, k);
    for i := 0 to |cell.outputs|
      invariant ids == wanted * OutputIds(cell.hash, i) && Collected(outs, ids, outputs, capacity)
    {
      var id := CellId(cell.hash, i % 256);
      OutsAt(live, k, i);
      IdFresh(cell.hash, i);
      WantedStep(wanted, cell.hash, i);
      if id in wanted {
        CollectOne(outs, ids, outputs, capacity, id);
        ids, outputs, capacity := ids + {id}, outputs + [cell.outputs[i]], capacity + cell.outputs[i].capacity;
      }
    }
    assert wanted * k == wanted;
  }

  /** The inputs found in the cells standing under `keys`. */
  ghost predicate FoundIn(live: map<Ids, Cell>, keys: set<Ids>, inputs: Ids, ids: Ids) {
    forall id :: id in ids <==> id in inputs && exists k :: k in keys && Holds(live, k, id)
  }

  lemma FoundMore(live: map<Ids, Cell>, keys: set<Ids>, inputs: Ids, ids: Ids, k: Ids)
    requires LiveOk(live) && FoundIn(live, keys, inputs, ids) && k in live && k !in keys
    ensures FoundIn(live, keys + {k}, inputs, ids + inputs * k)
    ensures ids !! inputs * k
  {
    hide LiveOk;
    forall id | id in ids ensures id !in k {
      var l :| l in keys && Holds(live, l, id);
      if id in k { HolderUnique(live, k, l, id); }
    }
  }

  method ResolveIn(live: map<Ids, Cell>, ghost keys: set<Ids>, inputs: Ids,
                   ids: Ids, outputs: seq<Output>, capacity: nat, k: Ids)
    returns (ids': Ids, outputs': seq<Output>, capacity': nat)
    requires LiveOk(live) && FoundIn(live, keys, inputs, ids) && Collected(Outs(live), ids, outputs, capacity)
    requires k in live && k !in keys
    ensures FoundIn(live, keys + {k}, inputs, ids') && Collected(Outs(live), ids', outputs', capacity')
  {
    hide *;
    FoundMore(live, keys, inputs, ids, k);
    if inputs !! k {
      assert ids + inputs * k == ids;
      return ids, outputs, capacity;
    }
    var more, moreOutputs, moreCapacity := CollectFrom(live, k, inputs * k);
    CollectMore(Outs(live), ids, outputs, capacity, more, moreOutputs, moreCapacity);
    return ids + more, outputs + moreOutputs, capacity + moreCapacity;
  }

  /** The inputs that are live, with the outputs they name and their capacity; the order in which
      the live cells are scanned does not show. */
  method Resolve(live: map<Ids, Cell>, inputs: Ids) returns (ids: Ids, outputs: seq<Output>, capacity: nat)
    requires LiveOk(live)
    ensures ids == inputs * Outs(live).Keys && Collected(Outs(live), ids, outputs, capacity)
  {
    ids, outputs, capacity := {}, [], 0;
    var left := live.Keys;
    CollectNone(Outs(live));
    assert live.Keys - left == {} && FoundIn(live, {}, inputs, ids);
    hide *;
    while left != {}
      invariant left <= live.Keys && FoundIn(live, live.Keys - left, inputs, ids)
      invariant Collected(Outs(live), ids, outputs, capacity)
    {
      var k :| k in left;
      ghost var seen := live.Keys - left;
      ids, outputs, capacity := ResolveIn(live, seen, inputs, ids, outputs, capacity, k);
      assert seen + {k} == live.Keys - (left - {k});
      left := left - {k};
    }
    assert live.Keys - left == live.Keys;
    FoundEverywhere(live, inputs, ids);
  }

  lemma FoundEverywhere(live: map<Ids, Cell>, inputs: Ids, ids: Ids)
    requires LiveOk(live) && FoundIn(live, live.Keys, inputs, ids)
    ensures ids == inputs * Outs(live).Keys
  {
    hide LiveOk, Outs;
    forall id ensures id in ids <==> id in inputs * Outs(live).Keys { OutsKeys(live, id); }
  }

  // The checks on one cell

  function RejectionOf(t: CellType): AlphaError {
    if t == Coinbase then InvalidCoinbase else InvalidStake
  }

  /** A coinbase or stake output must not consume an output of its own type. */
  predicate Rejects(o: Output, types: set<CellType>) {
    o.cellType != Transfer && o.cellType in types
  }

  function Rejection(outputs: seq<Output>, types: set<CellType>): Option<AlphaError> {
    if outputs == [] then None
    else if Rejects(outputs[0], types) then Some(RejectionOf(outputs[0].cellType))
    else Rejection(outputs[1..], types)
  }

  function TypesOf(outputs: seq<Output>): set<CellType> {
    set o | o in outputs :: o.cellType
  }

  lemma {:induction false} RejectionFirst(outputs: seq<Output>, types: set<CellType>)
    ensures Rejection(outputs, types).None? <==> forall o | o in outputs :: !Rejects(o, types)
    ensures Rejection(outputs, types).Some? ==>
      exists i | 0 <= i < |outputs| ::
        && Rejects(outputs[i], types) && Rejection(outputs, types).value == RejectionOf(outputs[i].cellType)
        && forall j | 0 <= j < i :: !Rejects(outputs[j], types)
  {
    if outputs != [] && !Rejects(outputs[0], types) {
      RejectionFirst(outputs[1..], types);
      assert outputs == [outputs[0]] + outputs[1..];
      if Rejection(outputs, types).Some? {
        var rest := outputs[1..];
        var i :| 0 <= i < |rest| && Rejects(rest[i], types)
          && Rejection(outputs, types).value == RejectionOf(rest[i].cellType)
          && forall j | 0 <= j < i :: !Rejects(rest[j], types);
        forall j | 0 <= j < i + 1 ensures !Rejects(outputs[j], types) {
          if j > 0 { assert outputs[j] == rest[j - 1]; }
        }
        assert outputs[i + 1] == rest[i];
      }
    }
  }

  method VerifyOutputs(outputs: seq<Output>, consumed: seq<Output>) returns (e: Option<AlphaError>)
    ensures e == Rejection(outputs, TypesOf(consumed))
  {
    for i := 0 to |outputs|
      invariant Rejection(outputs, TypesOf(consumed)) == Rejection(outputs[i..], TypesOf(consumed))
    {
      assert outputs[i..][1..] == outputs[i + 1..];
      var sameType := 0;
      for j := 0 to |consumed|
        invariant sameType == 0 || outputs[i].cellType == Transfer
        invariant sameType == 0 <==> forall l | 0 <= l < j :: consumed[l].cellType != outputs[i].cellType
      {
        if outputs[i].cellType == consumed[j].cellType {
          sameType := sameType + 1;
          assert outputs[i].cellType in TypesOf(consumed);
        }
        if outputs[i].cellType != Transfer && sameType != 0 {
          return Some(RejectionOf(outputs[i].cellType));
        }
      }
    }
    return None;
  }

  /** Two live cells would end up under the same remaining ids. */
  ghost predicate Collapses(live: map<Ids, Cell>, consumed: Ids) {
    exists a, b :: a in live && b in live && a != b && a - consumed == b - consumed
  }

  /** Ids of different cells being disjoint, that happens just when two live cells are consumed
      completely by one cell. */
  lemma CollapsesWhen(live: map<Ids, Cell>, consumed: Ids)
    requires LiveOk(live)
    ensures Collapses(live, consumed) <==>
      exists a, b :: a in live && b in live && a != b && a <= consumed && b <= consumed
  {
    hide Produced;
    if Collapses(live, consumed) {
      var a, b :| a in live && b in live && a != b && a - consumed == b - consumed;
      ProducedDisjoint(live[a], live[b]);
      DisjointRest(a, b, consumed);
    }
    if a, b :| a in live && b in live && a != b && a <= consumed && b <= consumed {
      assert a - consumed == b - consumed;
    }
  }

  /** When only one live cell is consumed from, all it can collapse with is a cell without outputs. */
  lemma CollapsesOne(live: map<Ids, Cell>, k: Ids, consumed: Ids)
    requires LiveOk(live) && k in live && consumed <= k
    ensures Collapses(live, consumed) <==> {} in live && k != {} && k <= consumed
  {
    CollapsesWhen(live, consumed);
    hide Produced, Collapses;
    forall a | a in live && a <= consumed ensures a == k || a == {} {
      if a != k { ProducedDisjoint(live[a], live[k]); }
    }
    var none: Ids := {};
    assert none <= consumed;
  }

  lemma DisjointRest(a: Ids, b: Ids, consumed: Ids)
    requires a !! b && a - consumed == b - consumed
    ensures a <= consumed && b <= consumed
  {
    forall x ensures x in a ==> x in consumed { assert x in a - consumed ==> x in b - consumed; }
    forall x ensures x in b ==> x in consumed { assert x in b - consumed ==> x in a - consumed; }
  }

  /** The map that is built is dropped by the caller; only the error counts. */
  method RemoveIntersection(live: map<Ids, Cell>, consumed: Ids) returns (r: Result<map<Ids, Cell>, AlphaError>)
    ensures r.Err? <==> Collapses(live, consumed)
    ensures r.Err? ==> r.error == ExistingCellIds
    ensures r.Ok? ==> forall k | k in live :: k - consumed in r.value && r.value[k - consumed] == live[k]
  {
    var rest: map<Ids, Cell> := map[];
    var left := live.Keys;
    while left != {}
      invariant left <= live.Keys
      invariant forall k | k in live && k !in left :: k - consumed in rest && rest[k - consumed] == live[k]
      invariant forall x | x in rest :: exists k :: k in live && k !in left && k - consumed == x
      invariant forall a, b | a in live && b in live && a !in left && b !in left &&
        a - consumed == b - consumed :: a == b
    {
      var k :| k in left;
      var reduced := if consumed !! k then k else k - consumed * k;
      assert reduced == k - consumed;
      if reduced in rest {
        return Err(ExistingCellIds);
      }
      rest, left := rest[reduced := live[k]], left - {k};
    }
    return Ok(rest);
  }

  /** What the outputs of a cell add up to, by type. */
  datatype Tally = Tally(coinbase: nat, staked: nat, produced: nat, validators: seq<(nat, u64)>)

  function Tallied(outputs: seq<Output>, height: nat): Result<Tally, AlphaError> {
    if outputs == [] then Ok(Tally(0, 0, 0, [])) else
    match Tallied(outputs[..|outputs| - 1], height)
    case Err(e) => Err(e)
    case Ok(t) => TallyOne(t, outputs[|outputs| - 1], height)
  }

  function TallyOne(t: Tally, o: Output, height: nat): Result<Tally, AlphaError> {
    match o.cellType
    case Coinbase => if height == 0 then Ok(t.(coinbase := t.coinbase + o.capacity)) else Err(InvalidCoinbase)
    case Stake =>
      if o.valid then Ok(t.(staked := t.staked + o.capacity, validators := t.validators + [(o.data, o.capacity)]))
      else Err(Undecodable)
    case Transfer => Ok(t.(produced := t.produced + o.capacity))
  }

  lemma {:induction false} TallyIsCapacity(outputs: seq<Output>, height: nat)
    requires Tallied(outputs, height).Ok?
    ensures var t := Tallied(outputs, height).value;
      && t.coinbase + t.staked + t.produced == CapacityOf(outputs)
      && (height != 0 ==> t.coinbase == 0)
  {
    if outputs != [] { TallyIsCapacity(outputs[..|outputs| - 1], height); }
  }

  method TallyOutputs(outputs: seq<Output>, height: nat) returns (r: Result<Tally, AlphaError>)
    ensures r == Tallied(outputs, height)
  {
    var t := Tally(0, 0, 0, []);
    for i := 0 to |outputs|
      invariant Tallied(outputs[..i], height) == Ok(t)
    {
      assert outputs[..i + 1][..i] == outputs[..i];
      var next := TallyOne(t, outputs[i], height);
      if next.Err? {
        FailsEarly(outputs, i + 1, height);
        return Err(next.error);
      }
      t := next.value;
    }
    assert outputs[..|outputs|] == outputs;
    return Ok(t);
  }

  lemma {:induction false} FailsEarly(outputs: seq<Output>, i: nat, height: nat)
    requires i <= |outputs| && Tallied(outputs[..i], height).Err?
    ensures Tallied(outputs, height) == Tallied(outputs[..i], height)
  {
    if i < |outputs| {
      assert outputs[..|outputs| - 1][..i] == outputs[..i];
      FailsEarly(outputs[..|outputs| - 1], i, height);
    } else {
      assert outputs[..i] == outputs;
    }
  }

  /** The capacity rule and the new totals. */
  function Balanced(s: State, cell: Cell, t: Tally, consumed: nat): Result<State, AlphaError> {
    var live := s.live[Produced(cell) := cell];
    var validators := s.validators + t.validators;
    if consumed >= t.produced + t.staked && consumed > 0 && t.coinbase == 0 then
      Ok(State(s.height, s.spending - consumed + t.produced, s.staking + t.staked, validators, live))
    else if s.height == 0 && t.coinbase > 0 && t.produced == 0 && t.staked == 0 then
      Ok(State(s.height, s.spending + t.coinbase, s.staking, validators, live))
    else
      Err(ExceedsCapacity)
  }

  ghost function Applied(s: State, cell: Cell): Result<State, AlphaError>
    requires LiveOk(s.live)
  {
    if !(cell.inputs <= Outs(s.live).Keys) then Err(UndefinedCellIds) else
    var rejection := Rejection(cell.outputs, set o | o in NamedOutputs(Outs(s.live), cell.inputs) :: o.cellType);
    if rejection.Some? then Err(rejection.value)
    else if Collapses(s.live, cell.inputs) then Err(ExistingCellIds)
    else
      match Tallied(cell.outputs, s.height)
      case Err(e) => Err(e)
      case Ok(t) =>
        if Produced(cell) in s.live then Err(ExistingCellIds)
        else Balanced(s, cell, t, Total(Outs(s.live), cell.inputs))
  }

  method ApplyCell(s: State, cell: Cell) returns (r: Result<State, AlphaError>)
    requires LiveOk(s.live)
    ensures r == Applied(s, cell)
  {
    var ids, outputs, capacity := Resolve(s.live, cell.inputs);
    if ids != cell.inputs {
      return Err(UndefinedCellIds);
    }
    var rejection := VerifyOutputs(cell.outputs, outputs);
    assert TypesOf(outputs) == set o | o in NamedOutputs(Outs(s.live), cell.inputs) :: o.cellType by {
      assert forall o :: o in outputs <==> o in Elems(outputs);
    }
    if rejection.Some? {
      return Err(rejection.value);
    }
    var removed := RemoveIntersection(s.live, ids);
    if removed.Err? {
      return Err(removed.error);
    }
    var tally := TallyOutputs(cell.outputs, s.height);
    if tally.Err? {
      return Err(tally.error);
    }
    if Produced(cell) in s.live {
      return Err(ExistingCellIds);
    }
    return Balanced(s, cell, tally.value, capacity);
  }

  // A whole block

  /** Hashes are collision free among the live cells and the cells of the block. */
  ghost predicate Sound(live: map<Ids, Cell>, cells: seq<Cell>) {
    && LiveOk(live)
    && (forall a | a in cells :: |a.outputs| <= 256)
    && (forall a, b | a in cells && b in cells && a.hash == b.hash :: a == b)
    && (forall a, k | a in cells && k in live && live[k].hash == a.hash :: live[k] == a)
  }

  lemma AppliedKeepsSound(s: State, cells: seq<Cell>)
    requires cells != [] && Sound(s.live, cells) && Applied(s, cells[0]).Ok?
    ensures Applied(s, cells[0]).value.live == s.live[Produced(cells[0]) := cells[0]]
    ensures Produced(cells[0]) !in s.live && cells[0].inputs <= Outs(s.live).Keys
    ensures Sound(Applied(s, cells[0]).value.live, cells[1..])
  {
    hide Outs, Rejection, Collapses, Tallied, Produced;
    var cell, live := cells[0], Applied(s, cells[0]).value.live;
    assert forall a | a in cells[1..] :: a in cells;
    assert forall k | k in s.live :: k == Produced(s.live[k]);
  }

  ghost function ApplyAll(s: State, cells: seq<Cell>): Result<State, AlphaError>
    requires Sound(s.live, cells)
    decreases |cells|
  {
    if cells == [] then Ok(s) else
    match Applied(s, cells[0])
    case Err(e) => Err(e)
    case Ok(next) =>
      AppliedKeepsSound(s, cells);
      ApplyAll(next, cells[1..])
  }

  ghost predicate ProducedIn(cells: seq<Cell>, id: CellId) {
    exists i :: 0 <= i < |cells| && id in Produced(cells[i])
  }

  /** Every input is live already or produced by a cell of the block. */
  ghost predicate Resolvable(live: map<Ids, Cell>, cells: seq<Cell>)
    requires LiveOk(live)
  {
    forall cell, id | cell in cells && id in cell.inputs :: id in Outs(live) || ProducedIn(cells, id)
  }

  lemma ProducedTail(cells: seq<Cell>, id: CellId)
    requires cells != []
    ensures ProducedIn(cells, id) <==> id in Produced(cells[0]) || ProducedIn(cells[1..], id)
  {
    hide Produced;
    if i :| 0 <= i < |cells| && id in Produced(cells[i]) {
      if i > 0 { assert cells[1..][i - 1] == cells[i]; }
    }
    if i :| 0 <= i < |cells[1..]| && id in Produced(cells[1..][i]) { assert cells[i + 1] == cells[1..][i]; }
  }

  lemma OutsInsert(live: map<Ids, Cell>, cell: Cell, id: CellId)
    requires LiveOk(live) && Produced(cell) !in live && LiveOk(live[Produced(cell) := cell])
    ensures id in Outs(live[Produced(cell) := cell]) <==> id in Outs(live) || id in Produced(cell)
  {
    hide LiveOk, Outs, Produced;
    var p, more := Produced(cell), live[Produced(cell) := cell];
    OutsKeys(live, id);
    OutsKeys(more, id);
    if k :| Holds(live, k, id) { assert Holds(more, k, id); }
    if id in p { assert Holds(more, p, id); }
    if k :| Holds(more, k, id) { assert k == p || Holds(live, k, id); }
  }

  /** Applying the first cell moves its ids from the block to the live ones. */
  lemma ResolvableTail(s: State, cells: seq<Cell>)
    requires cells != [] && Sound(s.live, cells) && Applied(s, cells[0]).Ok?
    ensures LiveOk(Applied(s, cells[0]).value.live)
    ensures Resolvable(s.live, cells) <==> Resolvable(Applied(s, cells[0]).value.live, cells[1..])
  {
    AppliedKeepsSound(s, cells);
    var live := Applied(s, cells[0]).value.live;
    hide Applied, Outs, Produced, ProducedIn;
    forall id ensures id in Outs(live) || ProducedIn(cells[1..], id) <==> id in Outs(s.live) || ProducedIn(cells, id) {
      OutsInsert(s.live, cells[0], id) by { hide *; }
      ProducedTail(cells, id);
    }
    assert cells == [cells[0]] + cells[1..];
    hide Sound, LiveOk;
  }

  /** In dependency order no input of a resolvable block is ever missing. */
  lemma {:induction false} NeverUndefined(s: State, cells: seq<Cell>)
    requires Sound(s.live, cells) && InDependencyOrder(cells) && Resolvable(s.live, cells)
    ensures ApplyAll(s, cells) != Err(UndefinedCellIds)
    decreases |cells|
  {
    if cells != [] {
      FirstResolves(s.live, cells);
      NotUndefined(s, cells[0]);
      if Applied(s, cells[0]).Ok? {
        AppliedKeepsSound(s, cells);
        ResolvableTail(s, cells);
        assert InDependencyOrder(cells[1..]) by { hide *; OrderTail(cells); }
        NeverUndefined(Applied(s, cells[0]).value, cells[1..]);
      }
    }
  }

  lemma OrderTail(cells: seq<Cell>)
    requires cells != [] && InDependencyOrder(cells)
    ensures InDependencyOrder(cells[1..])
  {
    hide Produced;
    var rest := cells[1..];
    forall i, j | 0 <= i < |rest| && 0 <= j < |rest| && !(rest[i].inputs !! Produced(rest[j])) ensures j < i {
      assert rest[i] == cells[i + 1] && rest[j] == cells[j + 1];
    }
  }

  lemma FirstResolves(live: map<Ids, Cell>, cells: seq<Cell>)
    requires cells != [] && LiveOk(live) && InDependencyOrder(cells) && Resolvable(live, cells)
    ensures cells[0].inputs <= Outs(live).Keys
  {
    hide Produced, LiveOk, Outs;
    forall id | id in cells[0].inputs ensures id in Outs(live) {
      assert forall j | 0 <= j < |cells| :: cells[0].inputs !! Produced(cells[j]);
    }
  }

  lemma NotUndefined(s: State, cell: Cell)
    requires LiveOk(s.live) && cell.inputs <= Outs(s.live).Keys
    ensures Applied(s, cell) != Err(UndefinedCellIds)
  {
    hide LiveOk, Outs, Collapses, Total;
    var types := set o | o in NamedOutputs(Outs(s.live), cell.inputs) :: o.cellType;
    RejectionFirst(cell.outputs, types);
    TalliedErrors(cell.outputs, s.height);
  }

  lemma {:induction false} TalliedErrors(outputs: seq<Output>, height: nat)
    ensures Tallied(outputs, height).Err? ==> Tallied(outputs, height).error in {InvalidCoinbase, Undecodable}
  {
    if outputs != [] { TalliedErrors(outputs[..|outputs| - 1], height); }
  }

  /** `after` is `before` with the cells added, each under the ids it produces. */
  ghost predicate Extends(before: map<Ids, Cell>, cells: seq<Cell>, after: map<Ids, Cell>) {
    && (forall k | k in after :: k in before || exists i :: 0 <= i < |cells| && k == Produced(cells[i]))
    && (forall k | k in before :: k in after && after[k] == before[k])
    && (forall cell | cell in cells :: Produced(cell) in after && after[Produced(cell)] == cell)
  }

  lemma ExtendsStep(before: map<Ids, Cell>, cells: seq<Cell>, after: map<Ids, Cell>)
    requires cells != [] && Produced(cells[0]) !in before
    requires Extends(before[Produced(cells[0]) := cells[0]], cells[1..], after)
    ensures Extends(before, cells, after)
  {
    hide Produced;
    var p, rest := Produced(cells[0]), cells[1..];
    forall k | k in after ensures k in before || exists i :: 0 <= i < |cells| && k == Produced(cells[i]) {
      if k != p && k !in before {
        var i :| 0 <= i < |rest| && k == Produced(rest[i]);
        assert k == Produced(cells[i + 1]);
      }
    }
    assert cells == [cells[0]] + rest;
    assert p in before[p := cells[0]];
  }

  /** A block that applies had all its inputs, and every cell of it is live afterwards; nothing
      stops being live. */
  lemma {:induction false} ApplyResolves(s: State, cells: seq<Cell>)
    requires Sound(s.live, cells) && LiveOk(s.live) && ApplyAll(s, cells).Ok?
    ensures Resolvable(s.live, cells)
    ensures var after := ApplyAll(s, cells).value;
      LiveOk(after.live) && after.height == s.height && Extends(s.live, cells, after.live)
    decreases |cells|
  {
    hide *;
    if cells == [] {
      ApplyNone(s);
    } else {
      ApplyStep(s, cells);
      ResolvableTail(s, cells);
      ApplyResolves(Applied(s, cells[0]).value, cells[1..]);
      ExtendsStep(s.live, cells, ApplyAll(s, cells).value.live);
    }
  }

  lemma ApplyNone(s: State)
    requires LiveOk(s.live)
    ensures Sound(s.live, []) && ApplyAll(s, []) == Ok(s)
    ensures Resolvable(s.live, []) && Extends(s.live, [], s.live)
  {
  }

  lemma ApplyStep(s: State, cells: seq<Cell>)
    requires cells != [] && Sound(s.live, cells) && ApplyAll(s, cells).Ok?
    ensures Applied(s, cells[0]).Ok?
    ensures var next := Applied(s, cells[0]).value;
      && Sound(next.live, cells[1..]) && ApplyAll(s, cells) == ApplyAll(next, cells[1..])
      && next.live == s.live[Produced(cells[0]) := cells[0]] && Produced(cells[0]) !in s.live
      && next.height == s.height && cells[0].inputs <= Outs(s.live).Keys
  {
    hide Sound, LiveOk, Outs, Rejection, Collapses, Tallied, Total;
    AppliedKeepsSound(s, cells);
  }

  // The totals

  datatype Change = Change(spending: int, staking: int, validators: multiset<(nat, u64)>)

  ghost function Add(a: Change, b: Change): Change {
    Change(a.spending + b.spending, a.staking + b.staking, a.validators + b.validators)
  }

  /** What one cell does to the totals, with its inputs looked up in `outs`. */
  ghost function ChangeOf(outs: map<CellId, Output>, height: nat, cell: Cell): Change {
    if cell.inputs <= outs.Keys && Tallied(cell.outputs, height).Ok? then
      var t := Tallied(cell.outputs, height).value;
      Change(if t.coinbase == 0 then t.produced - Total(outs, cell.inputs) else t.coinbase,
             t.staked, multiset(t.validators))
    else
      Change(0, 0, multiset{})
  }

  ghost function Changes(outs: map<CellId, Output>, height: nat, cells: seq<Cell>): Change {
    if cells == [] then Change(0, 0, multiset{})
    else Add(ChangeOf(outs, height, cells[0]), Changes(outs, height, cells[1..]))
  }

  lemma AddSwap(a: Change, b: Change, c: Change)
    ensures Add(a, Add(b, c)) == Add(b, Add(a, c))
  {
  }

  lemma {:induction false} ChangesMid(outs: map<CellId, Output>, height: nat, a: seq<Cell>, x: Cell, b: seq<Cell>)
    ensures Changes(outs, height, a + [x] + b) == Add(ChangeOf(outs, height, x), Changes(outs, height, a + b))
  {
    hide ChangeOf, Add;
    if a == [] {
      assert a + [x] + b == [x] + b && a + b == b;
    } else {
      ChangesMid(outs, height, a[1..], x, b);
      assert (a + [x] + b)[1..] == a[1..] + [x] + b && (a + b)[1..] == a[1..] + b;
      AddSwap(ChangeOf(outs, height, a[0]), ChangeOf(outs, height, x), Changes(outs, height, a[1..] + b));
    }
  }

  lemma {:induction false} ChangesPermute(outs: map<CellId, Output>, height: nat, a: seq<Cell>, b: seq<Cell>)
    requires multiset(a) == multiset(b)
    ensures Changes(outs, height, a) == Changes(outs, height, b)
    decreases |a|
  {
    hide ChangeOf, Add;
    if a == [] {
      assert |multiset(b)| == 0;
    } else {
      var j := SameHead(a, b);
      assert b == b[..j] + [b[j]] + b[j + 1..];
      hide Changes;
      ChangesMid(outs, height, b[..j], b[j], b[j + 1..]);
      ChangesPermute(outs, height, a[1..], b[..j] + b[j + 1..]);
      assert a == [] + [a[0]] + a[1..] && [] + a[1..] == a[1..];
      ChangesMid(outs, height, [], a[0], a[1..]);
    }
  }

  ghost predicate Moved(before: State, after: State, c: Change) {
    && after.spending == before.spending + c.spending && after.staking == before.staking + c.staking
    && multiset(after.validators) == multiset(before.validators) + c.validators
  }

  lemma AppliedMoves(s: State, cell: Cell, outs: map<CellId, Output>)
    requires LiveOk(s.live) && Applied(s, cell).Ok?
    requires Outs(s.live).Keys <= outs.Keys && forall id | id in Outs(s.live) :: outs[id] == Outs(s.live)[id]
    ensures Moved(s, Applied(s, cell).value, ChangeOf(outs, s.height, cell))
  {
    hide Outs, LiveOk, Rejection, Collapses, Tallied, Total;
    TotalSame(Outs(s.live), outs, cell.inputs);
  }

  /** The totals after a block, in closed form. */
  lemma {:induction false} ApplyMoves(s: State, cells: seq<Cell>, outs: map<CellId, Output>)
    requires Sound(s.live, cells) && LiveOk(s.live) && ApplyAll(s, cells).Ok?
    requires LiveOk(ApplyAll(s, cells).value.live) && outs == Outs(ApplyAll(s, cells).value.live)
    ensures Moved(s, ApplyAll(s, cells).value, Changes(outs, s.height, cells))
    decreases |cells|
  {
    hide *;
    if cells == [] {
      ApplyNone(s);
      NoMove(s, outs);
    } else {
      ApplyStep(s, cells);
      var next, after := Applied(s, cells[0]).value, ApplyAll(s, cells).value;
      assert LiveOk(next.live) by { SoundLive(next.live, cells[1..]); }
      ApplyResolves(s, cells);
      ExtendsKeeps(s.live, cells, after.live);
      OutsGrow(s.live, after.live);
      AppliedMoves(s, cells[0], outs);
      ApplyMoves(next, cells[1..], outs);
      MoveStep(s, next, after, outs, cells);
    }
  }

  lemma NoMove(s: State, outs: map<CellId, Output>)
    ensures Moved(s, s, Changes(outs, s.height, []))
  {
  }

  lemma MoveStep(s: State, next: State, after: State, outs: map<CellId, Output>, cells: seq<Cell>)
    requires cells != [] && Moved(s, next, ChangeOf(outs, s.height, cells[0]))
    requires Moved(next, after, Changes(outs, s.height, cells[1..]))
    ensures Moved(s, after, Changes(outs, s.height, cells))
  {
  }

  lemma SoundLive(live: map<Ids, Cell>, cells: seq<Cell>)
    requires Sound(live, cells)
    ensures LiveOk(live)
  {
  }

  lemma ExtendsKeeps(before: map<Ids, Cell>, cells: seq<Cell>, after: map<Ids, Cell>)
    requires Extends(before, cells, after)
    ensures forall k | k in before :: k in after && after[k] == before[k]
  {
  }

  /** The order of the cells does not show in the resulting state, except in the order of the
      validators. */
  lemma EqualStates(s: State, a: seq<Cell>, b: seq<Cell>)
    requires Sound(s.live, a) && Sound(s.live, b) && multiset(a) == multiset(b)
    requires ApplyAll(s, a).Ok? && ApplyAll(s, b).Ok?
    ensures var x, y := ApplyAll(s, a).value, ApplyAll(s, b).value;
      && x.(validators := []) == y.(validators := [])
      && multiset(x.validators) == multiset(y.validators)
  {
    hide *;
    var x, y := ApplyAll(s, a).value, ApplyAll(s, b).value;
    SoundLive(s.live, a);
    ApplyResolves(s, a);
    ApplyResolves(s, b);
    SameExtension(s.live, a, b, x.live, y.live);
    ApplyMoves(s, a, Outs(x.live));
    ApplyMoves(s, b, Outs(y.live));
    ChangesPermute(Outs(x.live), s.height, a, b);
    MovedSame(s, x, y, Changes(Outs(x.live), s.height, a));
  }

  lemma MovedSame(s: State, x: State, y: State, c: Change)
    requires Moved(s, x, c) && Moved(s, y, c) && x.height == y.height && x.live == y.live
    ensures x.(validators := []) == y.(validators := [])
    ensures multiset(x.validators) == multiset(y.validators)
  {
  }

  lemma SameExtension(before: map<Ids, Cell>, a: seq<Cell>, b: seq<Cell>, x: map<Ids, Cell>, y: map<Ids, Cell>)
    requires multiset(a) == multiset(b) && Extends(before, a, x) && Extends(before, b, y)
    ensures x == y
  {
    ExtensionWithin(before, a, b, x, y);
    ExtensionWithin(before, b, a, y, x);
  }

  lemma ExtensionWithin(before: map<Ids, Cell>, a: seq<Cell>, b: seq<Cell>, x: map<Ids, Cell>, y: map<Ids, Cell>)
    requires multiset(a) == multiset(b) && Extends(before, a, x) && Extends(before, b, y)
    ensures forall k | k in x :: k in y && x[k] == y[k]
  {
    hide Produced;
    forall k | k in x ensures k in y && x[k] == y[k] {
      if k !in before {
        var i :| 0 <= i < |a| && k == Produced(a[i]);
        assert a[i] in multiset(b);
      }
    }
  }

  // Inflation

  ghost function Coined(cells: seq<Cell>, height: nat): nat {
    if cells == [] then 0 else
    (match Tallied(cells[0].outputs, height) case Ok(t) => t.coinbase case Err(_) => 0) + Coined(cells[1..], height)
  }

  /** Capacity comes from coinbase outputs only, and those only at height 0. */
  lemma {:induction false} NoInflation(s: State, cells: seq<Cell>)
    requires Sound(s.live, cells) && ApplyAll(s, cells).Ok?
    ensures var after := ApplyAll(s, cells).value;
      after.spending + after.staking <= s.spending + s.staking + Coined(cells, s.height)
    ensures s.height != 0 ==> Coined(cells, s.height) == 0
    decreases |cells|
  {
    hide Sound, LiveOk, Applied, Tallied, Produced, Outs;
    if cells != [] {
      ApplyStep(s, cells);
      SoundLive(s.live, cells);
      AppliedBalances(s, cells[0]);
      NoInflation(Applied(s, cells[0]).value, cells[1..]);
    }
  }

  /** The totals grow by the coinbase outputs or shrink by what the cell leaves over. */
  lemma AppliedBalances(s: State, cell: Cell)
    requires LiveOk(s.live) && Applied(s, cell).Ok?
    ensures Tallied(cell.outputs, s.height).Ok? && cell.inputs <= Outs(s.live).Keys
    ensures var after, t := Applied(s, cell).value, Tallied(cell.outputs, s.height).value;
      && (s.height != 0 ==> t.coinbase == 0)
      && (t.coinbase != 0 ==>
        && CapacityOf(cell.outputs) == t.coinbase
        && after.spending + after.staking == s.spending + s.staking + CapacityOf(cell.outputs))
      && (t.coinbase == 0 ==>
        && CapacityOf(cell.outputs) <= Total(Outs(s.live), cell.inputs)
        && after.spending + after.staking ==
           s.spending + s.staking - Total(Outs(s.live), cell.inputs) + CapacityOf(cell.outputs))
  {
    hide LiveOk, Outs, Rejection, Collapses, Tallied, Total, Produced;
    TallyIsCapacity(cell.outputs, s.height);
  }

  // The operation

  lemma SameCellsSound(live: map<Ids, Cell>, cells: seq<Cell>, some: seq<Cell>)
    requires Sound(live, cells) && forall cell | cell in some :: cell in cells
    ensures Sound(live, some)
  {
  }

  lemma SameCellsResolve(live: map<Ids, Cell>, cells: seq<Cell>, others: seq<Cell>)
    requires LiveOk(live) && Resolvable(live, cells) && multiset(cells) == multiset(others)
    ensures Resolvable(live, others)
  {
    hide LiveOk, Outs, Produced;
    assert forall cell :: cell in cells <==> cell in multiset(cells);
    assert forall cell :: cell in others <==> cell in multiset(others);
    forall id | ProducedIn(cells, id) ensures ProducedIn(others, id) {
      var i :| 0 <= i < |cells| && id in Produced(cells[i]);
      assert cells[i] in others;
    }
  }

  lemma NextDistinct(cells: seq<Cell>, i: nat)
    requires i < |cells| && KeysDistinct(cells[..i])
    ensures KeysDistinct(cells[..i + 1]) <==> Produced(cells[i]) !in Built(cells[..i])
    ensures KeysDistinct(cells) ==> KeysDistinct(cells[..i + 1])
    ensures Built(cells[..i + 1]) == Built(cells[..i])[Produced(cells[i]) := cells[i].inputs]
    ensures RootsOf(cells[..i + 1]) ==
      RootsAfter(Built(cells[..i]), RootsOf(cells[..i]), Produced(cells[i]), cells[i].inputs)
  {
    hide Produced;
    BuiltKey(cells[..i], Produced(cells[i]));
    assert cells[..i + 1][..i] == cells[..i];
  }

  method BuildGraph(cells: seq<Cell>) returns (r: Result<DependencyGraph, GraphError>)
    ensures r.Ok? <==> KeysDistinct(cells)
    ensures r.Ok? ==> fresh(r.value) && r.value.Valid() && r.value.dh == Built(cells) && r.value.roots == RootsOf(cells)
    ensures r.Err? ==> r.error == DuplicateCell
  {
    var dg := new DependencyGraph();
    assert Built(cells[..0]) == map[] && RootsOf(cells[..0]) == [] && KeysDistinct(cells[..0]);
    hide *;
    for i := 0 to |cells|
      invariant fresh(dg) && dg.Valid() && dg.dh == Built(cells[..i]) && KeysDistinct(cells[..i])
      invariant dg.roots == RootsOf(cells[..i])
    {
      NextDistinct(cells, i);
      var inserted := dg.Insert(cells[i]);
      if inserted.Err? {
        return Err(inserted.error);
      }
    }
    assert cells[..|cells|] == cells;
    return Ok(dg);
  }

  lemma ApplyUnfold(s: State, cells: seq<Cell>)
    requires cells != [] && Sound(s.live, cells)
    ensures LiveOk(s.live)
    ensures Applied(s, cells[0]).Err? ==> ApplyAll(s, cells) == Err(Applied(s, cells[0]).error)
    ensures Applied(s, cells[0]).Ok? ==>
      && Sound(Applied(s, cells[0]).value.live, cells[1..])
      && ApplyAll(s, cells) == ApplyAll(Applied(s, cells[0]).value, cells[1..])
  {
    SoundLive(s.live, cells);
    hide Sound, LiveOk, Applied;
    if Applied(s, cells[0]).Ok? { AppliedKeepsSound(s, cells); }
  }

  method ApplyCells(start: State, ordered: seq<Cell>) returns (r: Result<State, AlphaError>)
    requires Sound(start.live, ordered)
    ensures r == ApplyAll(start, ordered)
  {
    var s := start;
    assert ordered[0..] == ordered;
    hide Sound, LiveOk, Applied, Outs;
    for i := 0 to |ordered|
      invariant Sound(s.live, ordered[i..]) && ApplyAll(start, ordered) == ApplyAll(s, ordered[i..])
    {
      ApplyUnfold(s, ordered[i..]);
      assert ordered[i..][1..] == ordered[i + 1..];
      var next := ApplyCell(s, ordered[i]);
      if next.Err? {
        return Err(next.error);
      }
      s := next.value;
    }
    return Ok(s);
  }

  lemma FlattenedFrom(dh: Dependencies, sorted: seq<Ids>, cells: seq<Cell>)
    requires KeysDistinct(cells) && Depends(dh, cells) && SortedAround(dh, sorted)
    ensures forall cell | cell in Flattened(sorted, cells) :: cell in cells
  {
    assert forall p | p in sorted :: p in Elems(sorted);
    hide Flattened, Depends, Produced, Stuck;
    FlattenedPointwise(dh, sorted, cells);
  }

  lemma ListedAs(cells: seq<Cell>, sorted: seq<Ids>)
    requires Listing(Built(cells), [], RootsOf(cells), sorted)
    ensures Listed(cells, Flattened(sorted, cells))
  {
    hide Listing, Built, RootsOf, Flattened;
  }

  /** The order in which a block lists its cells never makes an input undefined. */
  method Apply(s: State, cells: seq<Cell>) returns (r: Result<State, AlphaError>, ghost ordered: seq<Cell>)
    requires Sound(s.live, cells) && LiveOk(s.live)
    ensures !KeysDistinct(cells) ==> r == Err(Graph(DuplicateCell))
    ensures KeysDistinct(cells) ==> Sound(s.live, ordered) && r == ApplyAll(s, ordered) && Listed(cells, ordered)
    ensures KeysDistinct(cells) && Acyclic(Built(cells)) ==>
      && multiset(ordered) == multiset(cells) && InDependencyOrder(ordered)
      && (Resolvable(s.live, cells) ==> r != Err(UndefinedCellIds))
  {
    hide *;
    ordered := [];
    var dg := BuildGraph(cells);
    if dg.Err? {
      r := Err(Graph(dg.error));
      return;
    }
    ghost var sorted;
    var listed;
    listed, sorted := dg.value.TopologicalCells(cells);
    ordered := listed.value;
    ListedAs(cells, sorted);
    BuiltDepends(cells);
    FlattenedFrom(dg.value.dh, sorted, cells);
    SameCellsSound(s.live, cells, ordered);
    r := ApplyCells(s, listed.value);
    if Acyclic(Built(cells)) {
      FlattenedOrders(dg.value.dh, sorted, cells);
      if Resolvable(s.live, cells) {
        SameCellsResolve(s.live, cells, ordered);
        NeverUndefined(s, ordered);
      }
    }
  }
}
