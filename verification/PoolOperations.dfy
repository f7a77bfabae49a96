/** The pool's public operations as whole steps: admission with replacement, eviction, expiry. */
module PoolOperations {
  import opened Policy
  import opened Entries
  import opened FiniteSums
  import opened Lists
  import opened Pools
  import opened PoolRemoval
  import opened PoolInsertion

  // ---------------------------------------------------------------- conflicts

  lemma {:induction false} ConflictsUpToExact(spends: map<OutPoint, Txid>, tx: Transaction, n: nat, c: Txid)
    requires n <= |tx.inputs|
    ensures c in ConflictsUpTo(spends, tx, n)
            <==> exists i :: 0 <= i < n && tx.inputs[i].previousOutput in spends
                            && spends[tx.inputs[i].previousOutput] == c
  {
    if n > 0 {
      ConflictsUpToExact(spends, tx, n - 1, c);
    }
  }

  /** Looking up the index finds exactly the transactions a scan of the whole pool would:
      those that spend an outpoint which `tx` spends. */
  lemma ConflictsAgreeWithScan(p: Pool, tx: Transaction, c: Txid)
    requires SpendsExact(p.entries, p.spends)
    ensures c in FindConflicts(p, tx) <==> c in p.entries && !(Outpoints(p.entries[c].tx) !! Outpoints(tx))
  {
    ConflictsUpToExact(p.spends, tx, |tx.inputs|, c);
    if c in p.entries && !(Outpoints(p.entries[c].tx) !! Outpoints(tx)) {
      var o :| o in Outpoints(p.entries[c].tx) && o in Outpoints(tx);
      var i :| 0 <= i < |tx.inputs| && tx.inputs[i].previousOutput == o;
      assert p.spends[o] == c;
    }
    if c in FindConflicts(p, tx) {
      var i :| 0 <= i < |tx.inputs| && tx.inputs[i].previousOutput in p.spends
        && p.spends[tx.inputs[i].previousOutput] == c;
      assert tx.inputs[i].previousOutput in Outpoints(tx);
    }
  }

  /** No two pool transactions spend the same outpoint. */
  lemma NoDoubleSpend(p: Pool, a: Txid, b: Txid)
    requires SpendsExact(p.entries, p.spends)
    requires a in p.entries && b in p.entries && a != b
    ensures Outpoints(p.entries[a].tx) !! Outpoints(p.entries[b].tx)
  {
    forall o | o in Outpoints(p.entries[a].tx)
      ensures o !in Outpoints(p.entries[b].tx)
    {
      assert p.spends[o] == a;
    }
  }

  // ---------------------------------------------------------------- removal of several

  /** `es'` is `es` without `gone`; what stays keeps its transaction, fee and rate. */
  ghost predicate Survives(es: Table, es': Table, gone: set<Txid>) {
    es'.Keys == es.Keys - gone && forall x :: x in es' ==> SameStatic(es[x], es'[x])
  }

  lemma SurvivesCompose(es: Table, es1: Table, es2: Table, a: set<Txid>, b: set<Txid>)
    requires Survives(es, es1, a) && Survives(es1, es2, b)
    ensures Survives(es, es2, a + b)
  {
    forall x | x in es2
      ensures SameStatic(es[x], es2[x])
    {
      assert SameStatic(es[x], es1[x]) && SameStatic(es1[x], es2[x]);
    }
  }

  function RemovedIfPresent(p: Pool, t: Txid): Pool {
    if t in p.entries then Removed(p, t) else p
  }

  lemma {:induction false} RemovedAllSurvives(p: Pool, ts: seq<Txid>)
    ensures Survives(p.entries, RemovedAll(p, ts).entries, Elements(ts))
    decreases |ts|
  {
    if ts != [] {
      var q := RemovedIfPresent(p, ts[0]);
      assert Survives(p.entries, q.entries, {ts[0]});
      RemovedAllSurvives(q, ts[1..]);
      ElementsStep(ts);
      SurvivesCompose(p.entries, q.entries, RemovedAll(q, ts[1..]).entries, {ts[0]}, Elements(ts[1..]));
    }
  }

  lemma RemovedIfPresentSound(policy: Policy, p: Pool, t: Txid)
    requires Sound(policy, p)
    ensures Sound(policy, RemovedIfPresent(p, t))
  {
    if t in p.entries {
      var stamp :| Inv(policy, p, stamp);
      RemovedKeepsInv(policy, p, stamp, t);
    }
  }

  lemma {:induction false} RemovedAllSound(policy: Policy, p: Pool, ts: seq<Txid>)
    requires Sound(policy, p)
    ensures Sound(policy, RemovedAll(p, ts))
    decreases |ts|
  {
    if ts != [] {
      RemovedIfPresentSound(policy, p, ts[0]);
      RemovedAllSound(policy, RemovedIfPresent(p, ts[0]), ts[1..]);
    }
  }

  /** The totals of the survivors: what was there less what went. */
  lemma SurvivorsTotal(es: Table, es': Table, gone: set<Txid>, m: Metric)
    requires Survives(es, es', gone) && gone <= es.Keys
    ensures Sum(es'.Keys, OwnOf(es', m)) == Sum(es.Keys, OwnOf(es, m)) - Sum(gone, OwnOf(es, m))
  {
    SumSubset(gone, es.Keys, OwnOf(es, m));
    forall x | x in es'
      ensures At(OwnOf(es, m), x) == At(OwnOf(es', m), x)
    {
      assert SameStatic(es[x], es'[x]);
    }
    SumCongruent(es'.Keys, OwnOf(es, m), OwnOf(es', m));
  }

  lemma SurvivorsCount(es: Table, es': Table, gone: set<Txid>)
    requires Survives(es, es', gone) && gone <= es.Keys
    ensures |es'| + |gone| == |es|
  {
    assert es.Keys == es'.Keys + gone;
  }

  lemma RemovedAllTotals(policy: Policy, p: Pool, ts: seq<Txid>)
    requires Sound(policy, p) && Elements(ts) <= p.entries.Keys
    ensures var q := RemovedAll(p, ts);
            && q.entries.Keys == p.entries.Keys - Elements(ts)
            && q.totalSize == p.totalSize - Sum(Elements(ts), OwnOf(p.entries, Size))
            && q.totalFees == p.totalFees - Sum(Elements(ts), OwnOf(p.entries, Fees))
  {
    RemovedAllSound(policy, p, ts);
    RemovedAllSurvives(p, ts);
    SurvivorsTotal(p.entries, RemovedAll(p, ts).entries, Elements(ts), Size);
    SurvivorsTotal(p.entries, RemovedAll(p, ts).entries, Elements(ts), Fees);
  }

  // ---------------------------------------------------------------- replacement

  /** A total over a list of transactions, repeats counted each time. */
  function ListTotal(es: Table, m: Metric, ts: seq<Txid>): nat {
    if ts == [] then 0 else
    (if ts[0] in es then Own(m, es[ts[0]]) else 0) + ListTotal(es, m, ts[1..])
  }

  function CheckReplacement(policy: Policy, es: Table, e: Entry, conflicts: seq<Txid>): Outcome {
    if exists i :: 0 <= i < |conflicts| && conflicts[i] in es && !es[conflicts[i]].signalsReplacement then
      Fail(ConflictNotReplaceable)
    else
      CheckRbf(policy, e.signalsReplacement, SaturatingSub(e.fee, ListTotal(es, Fees, conflicts)),
               e.vsize - ListTotal(es, Size, conflicts))
  }

  /** Counting repeats, a list weighs at least what its distinct members weigh. */
  lemma {:induction false} ListTotalCoversDistinct(es: Table, m: Metric, ts: seq<Txid>)
    requires Elements(ts) <= es.Keys
    ensures ListTotal(es, m, ts) >= Sum(Elements(ts), OwnOf(es, m))
    ensures NoRepeats(ts) ==> ListTotal(es, m, ts) == Sum(Elements(ts), OwnOf(es, m))
  {
    if ts == [] {
      assert Elements(ts) == {};
    } else {
      ElementsStep(ts);
      ListTotalCoversDistinct(es, m, ts[1..]);
      var rest := Elements(ts[1..]);
      assert At(OwnOf(es, m), ts[0]) == Own(m, es[ts[0]]);
      if ts[0] in rest {
        assert {ts[0]} + rest == rest;
        assert !NoRepeats(ts) by {
          var i :| 0 <= i < |ts[1..]| && ts[1..][i] == ts[0];
          assert ts[0] == ts[i + 1];
        }
      } else {
        SumInsert(rest, OwnOf(es, m), ts[0]);
        assert rest + {ts[0]} == {ts[0]} + rest;
        assert NoRepeats(ts) ==> NoRepeats(ts[1..]);
      }
    }
  }

  // ---------------------------------------------------------------- admission

  /** The checks on the transaction by itself. */
  function CheckBasics(policy: Policy, p: Pool, tx: Transaction, fee: nat, kernelOk: bool): Outcome {
    if tx.txid in p.entries then Fail(AlreadyInPool)
    else if !kernelOk then Fail(RejectedByKernel)
    else if !IsSizeAcceptable(policy, tx.vsize) then Fail(TooLarge)
    else if !IsFeeAcceptable(policy, RateOf(fee, tx.vsize)) then Fail(FeeRateTooLow)
    else Pass
  }

  /** Whether the conflicts of a new entry may be cleared away for it. */
  function CheckRoom(policy: Policy, p: Pool, e: Entry): Outcome {
    var conflicts := FindConflicts(p, e.tx);
    if conflicts == [] then Pass
    else if !e.signalsReplacement then Fail(ConflictsWithoutSignal)
    else CheckReplacement(policy, p.entries, e, conflicts)
  }

  /** The checks that come before anything is changed. */
  function CheckEarly(policy: Policy, p: Pool, tx: Transaction, fee: nat, kernelOk: bool): Outcome {
    var basics := CheckBasics(policy, p, tx, fee, kernelOk);
    if basics.Fail? then basics else CheckRoom(policy, p, NewEntry(tx, fee, 0, 0))
  }

  /** When a transaction arrived has no bearing on whether it may replace others. */
  lemma RoomIgnoresArrival(policy: Policy, p: Pool, tx: Transaction, fee: nat, height: nat, time: nat)
    ensures CheckRoom(policy, p, NewEntry(tx, fee, height, time)) == CheckRoom(policy, p, NewEntry(tx, fee, 0, 0))
  {
  }

  /** The pool and the verdict once the conflicts are out of the way. */
  ghost function AdmitInto(policy: Policy, q: Pool, e: Entry): (r: (Pool, Outcome)) {
    var linked := Linked(q.entries, e);
    var limits := CheckAncestorLimits(policy, linked.ancestorCount, linked.ancestorSize);
    (if limits.Pass? then Inserted(q, linked) else q, limits)
  }

  /** Admission up to, but not including, eviction. Conflicts are removed before the ancestor
      limits are looked at, so the last failure returns a pool without them. */
  ghost function Admit(policy: Policy, p: Pool, tx: Transaction, fee: nat, height: nat, time: nat,
                       kernelOk: bool): (r: (Pool, Outcome))
  {
    var early := CheckEarly(policy, p, tx, fee, kernelOk);
    if early.Fail? then (p, early)
    else AdmitInto(policy, RemovedAll(p, FindConflicts(p, tx)), NewEntry(tx, fee, height, time))
  }

  /** Once the conflicts are gone nothing in the pool spends what `tx` spends. */
  lemma ConflictsCleared(policy: Policy, p: Pool, tx: Transaction)
    requires Sound(policy, p)
    ensures var q := RemovedAll(p, FindConflicts(p, tx));
            && Sound(policy, q)
            && Survives(p.entries, q.entries, Elements(FindConflicts(p, tx)))
            && Outpoints(tx) !! q.spends.Keys
  {
    var conflicts := FindConflicts(p, tx);
    RemovedAllSound(policy, p, conflicts);
    RemovedAllSurvives(p, conflicts);
    ClearedOutpoints(p, RemovedAll(p, conflicts), tx);
  }

  lemma ClearedOutpoints(p: Pool, q: Pool, tx: Transaction)
    requires SpendsExact(p.entries, p.spends) && SpendsExact(q.entries, q.spends)
    requires Survives(p.entries, q.entries, Elements(FindConflicts(p, tx)))
    ensures Outpoints(tx) !! q.spends.Keys
  {
    forall o | o in Outpoints(tx)
      ensures o !in q.spends
    {
      if o in q.spends {
        var s := q.spends[o];
        assert s in q.entries && SameStatic(p.entries[s], q.entries[s]);
        assert o in Outpoints(p.entries[s].tx);
        ConflictsAgreeWithScan(p, tx, s);
        assert false;
      }
    }
  }

  /** Every path through admission, the failing ones included, keeps the invariant. */
  lemma AdmitSound(policy: Policy, p: Pool, tx: Transaction, fee: nat, height: nat, time: nat, kernelOk: bool)
    requires Sound(policy, p)
    ensures Sound(policy, Admit(policy, p, tx, fee, height, time, kernelOk).0)
  {
    if CheckEarly(policy, p, tx, fee, kernelOk).Pass? {
      ConflictsCleared(policy, p, tx);
      AdmitIntoSound(policy, RemovedAll(p, FindConflicts(p, tx)), NewEntry(tx, fee, height, time));
    }
  }

  lemma AdmitIntoSound(policy: Policy, q: Pool, e: Entry)
    requires Sound(policy, q) && e == NewEntry(e.tx, e.fee, e.height, e.time) && e.tx.txid !in q.entries
    requires IsFeeAcceptable(policy, e.feeRate) && Outpoints(e.tx) !! q.spends.Keys
    ensures Sound(policy, AdmitInto(policy, q, e).0)
  {
    var linked := Linked(q.entries, e);
    if CheckAncestorLimits(policy, linked.ancestorCount, linked.ancestorSize).Pass? {
      LinkedIsReady(q.entries, e.tx, e.fee, e.height, e.time);
      InsertedSound(policy, q, linked);
    }
  }

  /** Exactly when a rejected transaction leaves the pool as it was: whenever the rejection came
      from one of the early checks, or there was no conflict to remove. Otherwise the conflicts
      are gone although the transaction that was to replace them is not in. */
  lemma RejectionKeepsPool(policy: Policy, p: Pool, tx: Transaction, fee: nat, height: nat, time: nat, kernelOk: bool)
    requires Sound(policy, p)
    requires Admit(policy, p, tx, fee, height, time, kernelOk).1.Fail?
    ensures Admit(policy, p, tx, fee, height, time, kernelOk).0 == p
            <==> CheckEarly(policy, p, tx, fee, kernelOk).Fail? || FindConflicts(p, tx) == []
  {
    var conflicts := FindConflicts(p, tx);
    if conflicts != [] {
      RemovedAllSurvives(p, conflicts);
      ConflictsAgreeWithScan(p, tx, conflicts[0]);
      assert conflicts[0] in Elements(conflicts);
      assert conflicts[0] !in RemovedAll(p, conflicts).entries;
    }
  }

  lemma AdmittedOver(policy: Policy, p: Pool, tx: Transaction, fee: nat, height: nat, time: nat, kernelOk: bool)
    requires Admit(policy, p, tx, fee, height, time, kernelOk).1.Pass?
    ensures var p' := Admit(policy, p, tx, fee, height, time, kernelOk).0;
            var q := RemovedAll(p, FindConflicts(p, tx));
            && p'.entries.Keys == q.entries.Keys + {tx.txid}
            && p'.totalFees == q.totalFees + fee && p'.totalSize == q.totalSize + tx.vsize
  {
  }

  /** A replacement takes out exactly the transactions that double-spend with the new one, and
      all of them signal. */
  lemma ReplacementRemovesConflicts(policy: Policy, p: Pool, tx: Transaction, fee: nat,
                                    height: nat, time: nat, kernelOk: bool, c: Txid)
    requires Sound(policy, p) && c in p.entries
    requires Admit(policy, p, tx, fee, height, time, kernelOk).1.Pass?
    ensures c !in Admit(policy, p, tx, fee, height, time, kernelOk).0.entries
            <==> !(Outpoints(p.entries[c].tx) !! Outpoints(tx))
    ensures !(Outpoints(p.entries[c].tx) !! Outpoints(tx)) ==> SignalsRbf(p.entries[c].tx)
  {
    ConflictsSignal(policy, p, tx, NewEntry(tx, fee, 0, 0));
    ConflictsAgreeWithScan(p, tx, c);
    RemovedAllSurvives(p, FindConflicts(p, tx));
    AdmittedOver(policy, p, tx, fee, height, time, kernelOk);
  }

  /** Admission changes the pool's fees by the new fee less those of the distinct conflicts, and
      a replacement whose required bump is positive leaves the pool richer by at least that bump,
      although the check counts a conflict once for every input it shares. */
  lemma ReplacementRaisesFees(policy: Policy, p: Pool, tx: Transaction, fee: nat, height: nat, time: nat,
                              kernelOk: bool)
    requires Sound(policy, p)
    requires Admit(policy, p, tx, fee, height, time, kernelOk).1.Pass?
    ensures var p' := Admit(policy, p, tx, fee, height, time, kernelOk).0;
            var conflicts := FindConflicts(p, tx);
            var bump := FeeForVsize(policy.incrementalRelayFee, Abs(tx.vsize - ListTotal(p.entries, Size, conflicts)));
            && p'.totalFees == p.totalFees + fee - Sum(Elements(conflicts), OwnOf(p.entries, Fees))
            && (conflicts != [] && bump > 0 ==> p'.totalFees >= p.totalFees + bump)
  {
    var conflicts := FindConflicts(p, tx);
    assert conflicts != [] ==> CheckReplacement(policy, p.entries, NewEntry(tx, fee, 0, 0), conflicts).Pass?;
    ConflictsHeld(p, tx);
    AdmittedOver(policy, p, tx, fee, height, time, kernelOk);
    RemovedAllTotals(policy, p, conflicts);
    ReplacementPays(policy, p, tx, fee);
  }

  lemma ConflictsHeld(p: Pool, tx: Transaction)
    requires SpendsExact(p.entries, p.spends)
    ensures Elements(FindConflicts(p, tx)) <= p.entries.Keys
  {
    forall c | c in Elements(FindConflicts(p, tx))
      ensures c in p.entries
    {
      ConflictsAgreeWithScan(p, tx, c);
    }
  }

  lemma ConflictsSignal(policy: Policy, p: Pool, tx: Transaction, e: Entry)
    requires EntriesSound(p.entries) && SpendsExact(p.entries, p.spends)
    requires FindConflicts(p, tx) == [] || CheckReplacement(policy, p.entries, e, FindConflicts(p, tx)).Pass?
    ensures forall c :: c in Elements(FindConflicts(p, tx)) ==> c in p.entries && SignalsRbf(p.entries[c].tx)
  {
    var conflicts := FindConflicts(p, tx);
    forall c | c in Elements(conflicts)
      ensures c in p.entries && SignalsRbf(p.entries[c].tx)
    {
      var i :| 0 <= i < |conflicts| && conflicts[i] == c;
      ConflictsAgreeWithScan(p, tx, c);
    }
  }

  lemma ReplacementPays(policy: Policy, p: Pool, tx: Transaction, fee: nat)
    requires SpendsExact(p.entries, p.spends)
    ensures var conflicts := FindConflicts(p, tx);
            var bump := FeeForVsize(policy.incrementalRelayFee, Abs(tx.vsize - ListTotal(p.entries, Size, conflicts)));
            CheckReplacement(policy, p.entries, NewEntry(tx, fee, 0, 0), conflicts).Pass? && bump > 0
            ==> fee >= Sum(Elements(conflicts), OwnOf(p.entries, Fees)) + bump
  {
    var conflicts := FindConflicts(p, tx);
    ConflictsHeld(p, tx);
    ListTotalCoversDistinct(p.entries, Fees, conflicts);
    RbfFeeRule(policy, fee, ListTotal(p.entries, Fees, conflicts), tx.vsize - ListTotal(p.entries, Size, conflicts));
  }
}
