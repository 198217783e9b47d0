/** Cells, their inputs and outputs, and the identifiers of outputs (`src/cell`). */
module Cells {
  import opened Basics

  type u64 = x: int | 0 <= x <= 0xFFFF_FFFF_FFFF_FFFF

  datatype CellType = Coinbase | Transfer | Stake

  /** `data` is the serialized state; `valid` says whether it deserializes for its cell type. */
  datatype Output = Output(capacity: u64, cellType: CellType, data: nat, valid: bool, lock: Hash)

  /** The id of an output: a collision-free hash of the cell hash and the output index. */
  datatype CellId = CellId(cellHash: Hash, index: u8)

  /** `hash` is the collision-free hash of the contents; `inputs` are the ids of the consumed
      outputs (`CellIds::from_inputs`; the unlock scripts are never looked at). */
  datatype Cell = Cell(hash: Hash, inputs: set<CellId>, outputs: seq<Output>)

  /** `CellIds::from_outputs`: the index is cast to a byte, so it wraps after 256 outputs. */
  function Produced(cell: Cell): set<CellId> {
    OutputIds(cell.hash, |cell.outputs|)
  }

  /** The ids of the first `n` outputs. */
  function OutputIds(hash: Hash, n: nat): set<CellId> {
    if n == 0 then {} else OutputIds(hash, n - 1) + {CellId(hash, (n - 1) % 256)}
  }

  lemma {:induction false} OutputIdsMember(hash: Hash, n: nat, id: CellId)
    ensures id in OutputIds(hash, n) <==> id.cellHash == hash && exists i :: 0 <= i < n && id.index == i % 256
  {
    if n != 0 {
      OutputIdsMember(hash, n - 1, id);
      if id == CellId(hash, (n - 1) % 256) { assert 0 <= n - 1 < n && id.index == (n - 1) % 256; }
    }
  }

  lemma {:induction false} IdAt(hash: Hash, i: nat, n: nat)
    requires i < n
    ensures CellId(hash, i % 256) in OutputIds(hash, n)
  {
    if i + 1 < n { IdAt(hash, i, n - 1); }
  }

  /** An id names its cell and one of its outputs; the only one with that id if there are at most 256. */
  lemma IdIndex(cell: Cell, id: CellId)
    requires id in Produced(cell)
    ensures id.cellHash == cell.hash && id.index < |cell.outputs|
    ensures |cell.outputs| <= 256 ==>
      forall i | 0 <= i < |cell.outputs| :: CellId(cell.hash, i % 256) == id <==> i == id.index
  {
    OutputIdsMember(cell.hash, |cell.outputs|, id);
  }

  lemma {:induction false} IdBelow(hash: Hash, n: nat, id: CellId)
    requires id in OutputIds(hash, n) && n <= 256
    ensures id.index < n
  {
    if id in OutputIds(hash, n - 1) { IdBelow(hash, n - 1, id); }
  }

  lemma IdFresh(hash: Hash, i: nat)
    ensures CellId(hash, i % 256) in OutputIds(hash, i) <==> i >= 256
  {
    hide OutputIds;
    var id := CellId(hash, i % 256);
    if i < 256 {
      if id in OutputIds(hash, i) { IdBelow(hash, i, id); }
    } else {
      IdAt(hash, i - 256, i);
      assert (i - 256) % 256 == i % 256;
    }
  }

  predicate HasCoinbaseOutput(cell: Cell) {
    exists o :: o in cell.outputs && o.cellType == Coinbase
  }

  lemma ProducedDisjoint(a: Cell, b: Cell)
    ensures Produced(a) !! Produced(b) || a.hash == b.hash
  {
    forall id | id in Produced(a) && id in Produced(b) ensures a.hash == b.hash {
      OutputIdsMember(a.hash, |a.outputs|, id);
      OutputIdsMember(b.hash, |b.outputs|, id);
    }
  }

  /** `Outputs::sum` */
  ghost function CapacityOf(outputs: seq<Output>): nat {
    if outputs == [] then 0 else CapacityOf(outputs[..|outputs| - 1]) + outputs[|outputs| - 1].capacity
  }
}
