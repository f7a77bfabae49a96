/** Transactions and mempool entries: src/mempool/entry.rs. Sizes, fees and counts are
    mathematical naturals; a subtraction that the source clamps at zero is clamped here. */
module Entries {
  import opened Policy

  /** A 32-byte identifier; only ever compared for equality. */
  type Txid = nat

  datatype OutPoint = OutPoint(txid: Txid, vout: nat)

  datatype TxIn = TxIn(previousOutput: OutPoint, sequence: nat)

  /** `vsize` and `weight` stand for the serialisation's measurements. Nothing is assumed
      of `txid`: two different transactions may even carry the same one. */
  datatype Transaction = Transaction(txid: Txid, inputs: seq<TxIn>, vsize: nat, weight: nat)

  datatype Entry = Entry(
    tx: Transaction,
    vsize: nat,
    fee: nat,
    feeRate: nat,
    time: nat,
    height: nat,
    parents: set<Txid>,
    children: set<Txid>,
    ancestorSize: nat,
    ancestorCount: nat,
    ancestorFees: nat,
    descendantSize: nat,
    descendantCount: nat,
    descendantFees: nat,
    signalsReplacement: bool)

  /** The outpoints a transaction spends. */
  function Outpoints(tx: Transaction): set<OutPoint> {
    set i | 0 <= i < |tx.inputs| :: tx.inputs[i].previousOutput
  }

  /** The transactions whose outputs a transaction spends. */
  function InputTxids(tx: Transaction): set<Txid> {
    set i | 0 <= i < |tx.inputs| :: tx.inputs[i].previousOutput.txid
  }

  /** BIP 125 signalling: some input has a sequence number below 0xfffffffe. */
  predicate SignalsRbf(tx: Transaction) {
    exists i :: 0 <= i < |tx.inputs| && tx.inputs[i].sequence < 0xffff_fffe
  }

  function NewEntry(tx: Transaction, fee: nat, height: nat, time: nat): Entry {
    Entry(tx, tx.vsize, fee, RateOf(fee, tx.vsize), time, height, {}, {},
          tx.vsize, 1, fee, tx.vsize, 1, fee, SignalsRbf(tx))
  }

  function AncestorFeeRate(e: Entry): nat {
    RateOf(e.ancestorFees, e.ancestorSize)
  }

  /** Older than the timeout; an entry stamped in the future has age zero. */
  predicate IsExpired(e: Entry, now: nat, timeout: nat) {
    SaturatingSub(now, e.time) > timeout
  }

  function UpdateAncestorState(e: Entry, sizeDelta: int, feeDelta: int, countDelta: int): Entry {
    e.(ancestorSize := Max(e.ancestorSize + sizeDelta, 0),
       ancestorFees := Max(e.ancestorFees + feeDelta, 0),
       ancestorCount := Max(e.ancestorCount + countDelta, 0))
  }

  function UpdateDescendantState(e: Entry, sizeDelta: int, feeDelta: int, countDelta: int): Entry {
    e.(descendantSize := Max(e.descendantSize + sizeDelta, 0),
       descendantFees := Max(e.descendantFees + feeDelta, 0),
       descendantCount := Max(e.descendantCount + countDelta, 0))
  }

  /** The three quantities that the pool totals over related transactions. */
  datatype Metric = Count | Size | Fees

  /** What one entry contributes by itself. */
  function Own(m: Metric, e: Entry): nat {
    match m
    case Count => 1
    case Size => e.vsize
    case Fees => e.fee
  }

  /** What an entry records for itself and its ancestors. */
  function Recorded(m: Metric, e: Entry): nat {
    match m
    case Count => e.ancestorCount
    case Size => e.ancestorSize
    case Fees => e.ancestorFees
  }

  /** What an entry records for itself and its descendants. */
  function RecordedBelow(m: Metric, e: Entry): nat {
    match m
    case Count => e.descendantCount
    case Size => e.descendantSize
    case Fees => e.descendantFees
  }
}
