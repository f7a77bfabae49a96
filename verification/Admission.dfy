/** Exactly which transactions the pool admits, and which error each of the others gets, told from the
    transaction, the pool's entries and the policy alone (src/mempool/txmempool.rs, add_tx). */
module Admission {
  import opened Policy
  import opened Entries
  import opened FiniteSums
  import opened Lists
  import opened Pools
  import opened PoolOperations

  // ---------------------------------------------------------------- the terms of the law

  /** The transaction has an input whose sequence number opts in to replacement (BIP 125). */
  ghost predicate OptsIn(tx: Transaction) {
    exists i :: 0 <= i < |tx.inputs| && tx.inputs[i].sequence < 0xffff_fffe
  }

  /** The entry spends an output that the transaction spends too. */
  ghost predicate Rivals(es: Table, c: Txid, tx: Transaction) {
    c in es && exists i, j :: 0 <= i < |tx.inputs| && 0 <= j < |es[c].tx.inputs|
                              && tx.inputs[i].previousOutput == es[c].tx.inputs[j].previousOutput
  }

  ghost predicate HasRivals(es: Table, tx: Transaction) {
    exists c :: Rivals(es, c, tx)
  }

  ghost predicate IsSpent(es: Table, o: OutPoint) {
    exists c :: SpentBy(es, o, c)
  }

  ghost predicate SpentBy(es: Table, o: OutPoint, c: Txid) {
    c in es && exists j :: 0 <= j < |es[c].tx.inputs| && es[c].tx.inputs[j].previousOutput == o
  }

  ghost function FeeOfSpender(es: Table, o: OutPoint): nat {
    if IsSpent(es, o) then var c :| SpentBy(es, o, c); es[c].fee else 0
  }

  ghost function SizeOfSpender(es: Table, o: OutPoint): nat {
    if IsSpent(es, o) then var c :| SpentBy(es, o, c); es[c].vsize else 0
  }

  /** The fees of the rivals, once for every shared input. */
  ghost function RivalFees(es: Table, tx: Transaction, n: nat): nat
    requires n <= |tx.inputs|
  {
    if n == 0 then 0 else RivalFees(es, tx, n - 1) + FeeOfSpender(es, tx.inputs[n - 1].previousOutput)
  }

  /** The sizes of the rivals, once for every shared input. */
  ghost function RivalSizes(es: Table, tx: Transaction, n: nat): nat
    requires n <= |tx.inputs|
  {
    if n == 0 then 0 else RivalSizes(es, tx, n - 1) + SizeOfSpender(es, tx.inputs[n - 1].previousOutput)
  }

  /** What the transaction must pay on top of its rivals: the incremental rate for every byte by which its
      size differs from theirs, at most 2^64 - 1. */
  ghost function Bump(policy: Policy, es: Table, tx: Transaction): nat {
    var sizes := RivalSizes(es, tx, |tx.inputs|);
    var apart := if tx.vsize >= sizes then tx.vsize - sizes else sizes - tx.vsize;
    if policy.incrementalRelayFee * apart <= 0xFFFF_FFFF_FFFF_FFFF then policy.incrementalRelayFee * apart
    else 0xFFFF_FFFF_FFFF_FFFF
  }

  ghost predicate PaysBump(policy: Policy, es: Table, tx: Transaction, fee: nat) {
    Bump(policy, es, tx) == 0 || fee >= RivalFees(es, tx, |tx.inputs|) + Bump(policy, es, tx)
  }

  /** The fee is at least the relay rate for every virtual byte, and at least the rate itself. */
  predicate PaysRelay(policy: Policy, tx: Transaction, fee: nat) {
    fee >= policy.minRelayFee * (if tx.vsize == 0 then 1 else tx.vsize)
  }

  /** The pool transactions it spends from, once its rivals are gone. */
  ghost function ParentsAfter(p: Pool, tx: Transaction): set<Txid> {
    var es := RemovedAll(p, FindConflicts(p, tx)).entries;
    set q | q in es && exists i :: 0 <= i < |tx.inputs| && tx.inputs[i].previousOutput.txid == q
  }

  ghost function CountsAfter(p: Pool): map<Txid, int> {
    map q | q in p.entries :: p.entries[q].ancestorCount
  }

  ghost function SizesAfter(p: Pool): map<Txid, int> {
    map q | q in p.entries :: p.entries[q].ancestorSize
  }

  ghost function CountWith(p: Pool, tx: Transaction): int {
    1 + Sum(ParentsAfter(p, tx), CountsAfter(RemovedAll(p, FindConflicts(p, tx))))
  }

  ghost function SizeWith(p: Pool, tx: Transaction): int {
    tx.vsize + Sum(ParentsAfter(p, tx), SizesAfter(RemovedAll(p, FindConflicts(p, tx))))
  }

  /** The verdict, check by check. */
  ghost function Verdict(policy: Policy, p: Pool, tx: Transaction, fee: nat, kernelOk: bool): Outcome {
    if tx.txid in p.entries then Fail(AlreadyInPool)
    else if !kernelOk then Fail(RejectedByKernel)
    else if tx.vsize > policy.maxTxSize then Fail(TooLarge)
    else if !PaysRelay(policy, tx, fee) then Fail(FeeRateTooLow)
    else if HasRivals(p.entries, tx) && !OptsIn(tx) then Fail(ConflictsWithoutSignal)
    else if exists c :: Rivals(p.entries, c, tx) && !OptsIn(p.entries[c].tx) then Fail(ConflictNotReplaceable)
    else if HasRivals(p.entries, tx) && !policy.enableRbf then Fail(RbfDisabled)
    else if HasRivals(p.entries, tx) && !PaysBump(policy, p.entries, tx, fee) then Fail(InsufficientFeeBump)
    else if CountWith(p, tx) > policy.maxAncestors then Fail(TooManyAncestors)
    else if SizeWith(p, tx) > policy.maxAncestorSizeKb * 1024 then Fail(AncestorSizeTooLarge)
    else Pass
  }

  // ---------------------------------------------------------------- the parts

  lemma RelayFloor(policy: Policy, tx: Transaction, fee: nat)
    ensures IsFeeAcceptable(policy, RateOf(fee, tx.vsize)) <==> PaysRelay(policy, tx, fee)
  {
    RateFloor(fee, tx.vsize, policy.minRelayFee);
  }

  lemma BasicsVerdict(policy: Policy, p: Pool, tx: Transaction, fee: nat, kernelOk: bool)
    ensures CheckBasics(policy, p, tx, fee, kernelOk)
         == if tx.txid in p.entries then Fail(AlreadyInPool)
            else if !kernelOk then Fail(RejectedByKernel)
            else if tx.vsize > policy.maxTxSize then Fail(TooLarge)
            else if !PaysRelay(policy, tx, fee) then Fail(FeeRateTooLow)
            else Pass
  {
    RelayFloor(policy, tx, fee);
  }

  lemma RivalsAreConflicts(p: Pool, tx: Transaction, c: Txid)
    requires SpendsExact(p.entries, p.spends)
    ensures c in FindConflicts(p, tx) <==> Rivals(p.entries, c, tx)
  {
    ConflictsAgreeWithScan(p, tx, c);
    if c in p.entries && !(Outpoints(p.entries[c].tx) !! Outpoints(tx)) {
      var o :| o in Outpoints(p.entries[c].tx) && o in Outpoints(tx);
      var i :| 0 <= i < |tx.inputs| && tx.inputs[i].previousOutput == o;
      var j :| 0 <= j < |p.entries[c].tx.inputs| && p.entries[c].tx.inputs[j].previousOutput == o;
      assert tx.inputs[i].previousOutput == p.entries[c].tx.inputs[j].previousOutput;
    }
    if Rivals(p.entries, c, tx) {
      var i, j :| 0 <= i < |tx.inputs| && 0 <= j < |p.entries[c].tx.inputs|
                  && tx.inputs[i].previousOutput == p.entries[c].tx.inputs[j].previousOutput;
      assert tx.inputs[i].previousOutput in Outpoints(p.entries[c].tx) * Outpoints(tx);
    }
  }

  lemma RivalsExist(p: Pool, tx: Transaction)
    requires SpendsExact(p.entries, p.spends)
    ensures FindConflicts(p, tx) != [] <==> HasRivals(p.entries, tx)
  {
    var conflicts := FindConflicts(p, tx);
    if conflicts != [] {
      RivalsAreConflicts(p, tx, conflicts[0]);
    }
    if c :| Rivals(p.entries, c, tx) {
      RivalsAreConflicts(p, tx, c);
    }
  }

  /** The index names the one entry that spends an output. */
  lemma SpenderIs(p: Pool, o: OutPoint)
    requires SpendsExact(p.entries, p.spends)
    ensures IsSpent(p.entries, o) <==> o in p.spends
    ensures o in p.spends ==> p.spends[o] in p.entries && FeeOfSpender(p.entries, o) == p.entries[p.spends[o]].fee
                              && SizeOfSpender(p.entries, o) == p.entries[p.spends[o]].vsize
  {
    forall c | SpentBy(p.entries, o, c)
      ensures o in p.spends && p.spends[o] == c
    {
      assert o in Outpoints(p.entries[c].tx);
    }
    if o in p.spends {
      var c := p.spends[o];
      assert o in Outpoints(p.entries[c].tx);
      assert SpentBy(p.entries, o, c);
    }
  }

  lemma {:induction false} ListTotalAppended(es: Table, m: Metric, ts: seq<Txid>, t: Txid)
    requires t in es
    ensures ListTotal(es, m, ts + [t]) == ListTotal(es, m, ts) + Own(m, es[t])
  {
    if ts == [] {
      assert ts + [t] == [t];
    } else {
      ListTotalAppended(es, m, ts[1..], t);
      assert (ts + [t])[1..] == ts[1..] + [t];
    }
  }

  lemma {:induction false} ListedTotals(p: Pool, tx: Transaction, n: nat)
    requires SpendsExact(p.entries, p.spends) && n <= |tx.inputs|
    ensures ListTotal(p.entries, Fees, ConflictsUpTo(p.spends, tx, n)) == RivalFees(p.entries, tx, n)
    ensures ListTotal(p.entries, Size, ConflictsUpTo(p.spends, tx, n)) == RivalSizes(p.entries, tx, n)
  {
    if n > 0 {
      var o := tx.inputs[n - 1].previousOutput;
      ListedTotals(p, tx, n - 1);
      SpenderIs(p, o);
      if o in p.spends {
        ListTotalAppended(p.entries, Fees, ConflictsUpTo(p.spends, tx, n - 1), p.spends[o]);
        ListTotalAppended(p.entries, Size, ConflictsUpTo(p.spends, tx, n - 1), p.spends[o]);
      }
    }
  }

  lemma SignalIs(es: Table, c: Txid)
    requires EntriesSound(es) && c in es
    ensures es[c].signalsReplacement <==> OptsIn(es[c].tx)
  {
  }

  lemma OwnSignalIs(tx: Transaction, fee: nat)
    ensures NewEntry(tx, fee, 0, 0).signalsReplacement <==> OptsIn(tx)
  {
  }

  /** A listed conflict that does not signal is a rival that does not opt in. */
  lemma UnwillingRival(p: Pool, tx: Transaction)
    requires EntriesSound(p.entries) && SpendsExact(p.entries, p.spends)
    ensures var conflicts := FindConflicts(p, tx);
            (exists i :: 0 <= i < |conflicts| && conflicts[i] in p.entries
                         && !p.entries[conflicts[i]].signalsReplacement)
            <==> exists c :: Rivals(p.entries, c, tx) && !OptsIn(p.entries[c].tx)
  {
    var conflicts := FindConflicts(p, tx);
    forall i | 0 <= i < |conflicts|
      ensures Rivals(p.entries, conflicts[i], tx)
      ensures p.entries[conflicts[i]].signalsReplacement <==> OptsIn(p.entries[conflicts[i]].tx)
    {
      RivalsAreConflicts(p, tx, conflicts[i]);
      SignalIs(p.entries, conflicts[i]);
    }
    if c :| Rivals(p.entries, c, tx) && !OptsIn(p.entries[c].tx) {
      RivalsAreConflicts(p, tx, c);
      SignalIs(p.entries, c);
      var i :| 0 <= i < |conflicts| && conflicts[i] == c;
    }
  }

  lemma BumpVerdict(policy: Policy, p: Pool, tx: Transaction, fee: nat)
    requires SpendsExact(p.entries, p.spends) && OptsIn(tx)
    ensures var conflicts := FindConflicts(p, tx);
            CheckRbf(policy, NewEntry(tx, fee, 0, 0).signalsReplacement,
                     SaturatingSub(fee, ListTotal(p.entries, Fees, conflicts)),
                     tx.vsize - ListTotal(p.entries, Size, conflicts))
            == if !policy.enableRbf then Fail(RbfDisabled)
               else if !PaysBump(policy, p.entries, tx, fee) then Fail(InsufficientFeeBump)
               else Pass
  {
    ListedTotals(p, tx, |tx.inputs|);
    OwnSignalIs(tx, fee);
  }

  lemma RoomVerdict(policy: Policy, p: Pool, tx: Transaction, fee: nat)
    requires EntriesSound(p.entries) && SpendsExact(p.entries, p.spends)
    ensures CheckRoom(policy, p, NewEntry(tx, fee, 0, 0))
         == if HasRivals(p.entries, tx) && !OptsIn(tx) then Fail(ConflictsWithoutSignal)
            else if exists c :: Rivals(p.entries, c, tx) && !OptsIn(p.entries[c].tx) then Fail(ConflictNotReplaceable)
            else if HasRivals(p.entries, tx) && !policy.enableRbf then Fail(RbfDisabled)
            else if HasRivals(p.entries, tx) && !PaysBump(policy, p.entries, tx, fee) then Fail(InsufficientFeeBump)
            else Pass
  {
    RivalsExist(p, tx);
    OwnSignalIs(tx, fee);
    UnwillingRival(p, tx);
    if HasRivals(p.entries, tx) && OptsIn(tx) {
      BumpVerdict(policy, p, tx, fee);
    }
  }

  lemma LimitsVerdict(policy: Policy, p: Pool, tx: Transaction, fee: nat, height: nat, time: nat)
    ensures AdmitInto(policy, RemovedAll(p, FindConflicts(p, tx)), NewEntry(tx, fee, height, time)).1
         == if CountWith(p, tx) > policy.maxAncestors then Fail(TooManyAncestors)
            else if SizeWith(p, tx) > policy.maxAncestorSizeKb * 1024 then Fail(AncestorSizeTooLarge)
            else Pass
  {
    var q := RemovedAll(p, FindConflicts(p, tx));
    assert ParentsAfter(p, tx) == FindParents(q.entries, tx);
    assert CountsAfter(q) == RecordedOf(q.entries, Count) && SizesAfter(q) == RecordedOf(q.entries, Size);
    SumNonNegative(FindParents(q.entries, tx), RecordedOf(q.entries, Count));
    SumNonNegative(FindParents(q.entries, tx), RecordedOf(q.entries, Size));
  }

  // ---------------------------------------------------------------- the law

  /** What `add_tx` answers before eviction, to every transaction in every sound pool: the first check that
      fails names the error. */
  lemma AdmissionVerdict(policy: Policy, p: Pool, tx: Transaction, fee: nat, height: nat, time: nat, kernelOk: bool)
    requires Sound(policy, p)
    ensures Admit(policy, p, tx, fee, height, time, kernelOk).1 == Verdict(policy, p, tx, fee, kernelOk)
  {
    BasicsVerdict(policy, p, tx, fee, kernelOk);
    RoomVerdict(policy, p, tx, fee);
    LimitsVerdict(policy, p, tx, fee, height, time);
  }

  /** The transaction has no rivals, or may replace all of them. */
  ghost predicate MayEnter(policy: Policy, es: Table, tx: Transaction, fee: nat) {
    || !HasRivals(es, tx)
    || (&& OptsIn(tx) && policy.enableRbf && PaysBump(policy, es, tx, fee)
        && forall c :: Rivals(es, c, tx) ==> OptsIn(es[c].tx))
  }

  lemma VerdictPasses(policy: Policy, p: Pool, tx: Transaction, fee: nat, kernelOk: bool)
    ensures Verdict(policy, p, tx, fee, kernelOk).Pass?
            <==> && tx.txid !in p.entries && kernelOk && tx.vsize <= policy.maxTxSize && PaysRelay(policy, tx, fee)
                 && MayEnter(policy, p.entries, tx, fee)
                 && CountWith(p, tx) <= policy.maxAncestors && SizeWith(p, tx) <= policy.maxAncestorSizeKb * 1024
  {
    if c :| Rivals(p.entries, c, tx) && !OptsIn(p.entries[c].tx) {
      assert HasRivals(p.entries, tx) && !MayEnter(policy, p.entries, tx, fee);
    }
  }

  /** Exactly which transactions are admitted. */
  lemma AdmittedIff(policy: Policy, p: Pool, tx: Transaction, fee: nat, height: nat, time: nat, kernelOk: bool)
    requires Sound(policy, p)
    ensures Admit(policy, p, tx, fee, height, time, kernelOk).1.Pass?
            <==> && tx.txid !in p.entries && kernelOk && tx.vsize <= policy.maxTxSize && PaysRelay(policy, tx, fee)
                 && MayEnter(policy, p.entries, tx, fee)
                 && CountWith(p, tx) <= policy.maxAncestors && SizeWith(p, tx) <= policy.maxAncestorSizeKb * 1024
  {
    AdmissionVerdict(policy, p, tx, fee, height, time, kernelOk);
    VerdictPasses(policy, p, tx, fee, kernelOk);
  }
}
