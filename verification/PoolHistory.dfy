/** What happens to one entry over the pool's history. */
module PoolHistory {
  import opened Policy
  import opened Entries
  import opened FiniteSums
  import opened Pools
  import opened PoolRemoval
  import opened PoolInsertion
  import opened PoolOperations
  import opened PoolRuns

  /** The entry is the same transaction, and none of its recorded ancestor totals has grown. */
  ghost predicate NotGrown(e: Entry, e': Entry) {
    SameStatic(e, e') && forall m :: Recorded(m, e') <= Recorded(m, e)
  }

  ghost predicate Dwindles(es: Table, es': Table) {
    forall x :: x in es' ==> x in es && NotGrown(es[x], es'[x])
  }

  lemma DwindlesCompose(es: Table, es1: Table, es2: Table)
    requires Dwindles(es, es1) && Dwindles(es1, es2)
    ensures Dwindles(es, es2)
  {
    forall x | x in es2
      ensures x in es && NotGrown(es[x], es2[x])
    {
      assert NotGrown(es1[x], es2[x]) && NotGrown(es[x], es1[x]);
      forall m
        ensures Recorded(m, es2[x]) <= Recorded(m, es[x])
      {
        assert Recorded(m, es2[x]) <= Recorded(m, es1[x]);
      }
    }
  }

  lemma RemovedDwindles(policy: Policy, p: Pool, t: Txid)
    requires Sound(policy, p)
    ensures Dwindles(p.entries, RemovedIfPresent(p, t).entries)
  {
    if t in p.entries {
      RemovedCutsOut(p, t);
      forall x | x in Removed(p, t).entries
        ensures x in p.entries && NotGrown(p.entries[x], Removed(p, t).entries[x])
      {
        assert CutFrom(p.entries[x], Removed(p, t).entries[x], t, p.entries[t]);
      }
    }
  }

  lemma {:induction false} RemovedAllDwindles(policy: Policy, p: Pool, ts: seq<Txid>)
    requires Sound(policy, p)
    ensures Dwindles(p.entries, RemovedAll(p, ts).entries)
    decreases |ts|
  {
    if ts != [] {
      var q := RemovedIfPresent(p, ts[0]);
      RemovedDwindles(policy, p, ts[0]);
      RemovedIfPresentSound(policy, p, ts[0]);
      RemovedAllDwindles(policy, q, ts[1..]);
      DwindlesCompose(p.entries, q.entries, RemovedAll(q, ts[1..]).entries);
    }
  }

  lemma {:induction false} EvictedDwindles(policy: Policy, p: Pool, order: seq<Txid>, maxSize: nat)
    requires Sound(policy, p)
    ensures Dwindles(p.entries, Evicted(p, order, maxSize).entries)
    decreases |order|
  {
    if order != [] && p.totalSize > maxSize {
      var q := RemovedIfPresent(p, order[0]);
      RemovedDwindles(policy, p, order[0]);
      RemovedIfPresentSound(policy, p, order[0]);
      EvictedDwindles(policy, q, order[1..], maxSize);
      DwindlesCompose(p.entries, q.entries, Evicted(q, order[1..], maxSize).entries);
    }
  }

  /** An entry that is in the pool before and after an operation has not grown. */
  ghost predicate KeepsDown(es: Table, es': Table) {
    forall x :: x in es && x in es' ==> NotGrown(es[x], es'[x])
  }

  lemma JoinedKeepsDown(es: Table, es': Table, t: Txid, added: Entry)
    requires Joined(es, es', t, added)
    ensures KeepsDown(es, es')
  {
    forall x | x in es
      ensures NotGrown(es[x], es'[x])
    {
      assert JoinedTo(x, es[x], es'[x], t, added);
    }
  }

  lemma AdmitIntoKeepsDown(policy: Policy, q: Pool, e: Entry)
    requires e == NewEntry(e.tx, e.fee, e.height, e.time) && e.tx.txid !in q.entries
    ensures KeepsDown(q.entries, AdmitInto(policy, q, e).0.entries)
    ensures AdmitInto(policy, q, e).0.entries.Keys <= q.entries.Keys + {e.tx.txid}
  {
    var linked := Linked(q.entries, e);
    LinkedIsReady(q.entries, e.tx, e.fee, e.height, e.time);
    InsertedJoins(q, linked);
    JoinedKeepsDown(q.entries, Inserted(q, linked).entries, e.tx.txid, linked);
  }

  lemma KeepsDownCompose(es: Table, es1: Table, es2: Table, es3: Table, t: Txid)
    requires Dwindles(es, es1) && KeepsDown(es1, es2) && Dwindles(es2, es3)
    requires es2.Keys <= es1.Keys + {t} && t !in es
    ensures KeepsDown(es, es3)
  {
    forall x | x in es && x in es3
      ensures NotGrown(es[x], es3[x])
    {
      assert x in es2 && x in es1;
      assert NotGrown(es[x], es1[x]) && NotGrown(es1[x], es2[x]) && NotGrown(es2[x], es3[x]);
      forall m
        ensures Recorded(m, es3[x]) <= Recorded(m, es[x])
      {
        assert Recorded(m, es3[x]) <= Recorded(m, es2[x]) <= Recorded(m, es1[x]);
      }
    }
  }

  lemma AddKeepsDown(policy: Policy, p: Pool, tx: Transaction, fee: nat, height: nat, time: nat, kernelOk: bool,
                     order: seq<Txid>)
    requires Sound(policy, p)
    ensures KeepsDown(p.entries, Apply(policy, p, AddTx(tx, fee, height, time, kernelOk, order)).entries)
  {
    if CheckEarly(policy, p, tx, fee, kernelOk).Pass? {
      var q, e := RemovedAll(p, FindConflicts(p, tx)), NewEntry(tx, fee, height, time);
      var q' := AdmitInto(policy, q, e).0;
      RemovedAllDwindles(policy, p, FindConflicts(p, tx));
      RemovedAllSurvives(p, FindConflicts(p, tx));
      AdmitIntoKeepsDown(policy, q, e);
      AdmitSound(policy, p, tx, fee, height, time, kernelOk);
      EvictedDwindles(policy, q', order, policy.maxSize);
      if AdmitInto(policy, q, e).1.Pass? {
        KeepsDownCompose(p.entries, q.entries, q'.entries, Evicted(q', order, policy.maxSize).entries, tx.txid);
      }
    }
  }

  /** No operation makes the recorded ancestor totals of an entry grow while it stays in the pool. */
  lemma ApplyKeepsDown(policy: Policy, p: Pool, op: Op)
    requires Sound(policy, p)
    ensures KeepsDown(p.entries, Apply(policy, p, op).entries)
  {
    match op
    case AddTx(tx, fee, height, time, kernelOk, order) =>
      AddKeepsDown(policy, p, tx, fee, height, time, kernelOk, order);
    case RemoveTx(t) => RemovedDwindles(policy, p, t);
    case RemoveExpired(now, order) => RemovedAllDwindles(policy, p, order);
    case Clear =>
  }

  /** The entries after the first `k` operations of a run. */
  ghost function Moment(policy: Policy, ops: seq<Op>, k: nat): Table
    requires k <= |ops|
  {
    Run(policy, ops[..k]).entries
  }

  lemma {:induction false} StepKeepsDown(policy: Policy, ops: seq<Op>, k: nat)
    requires k < |ops|
    ensures KeepsDown(Moment(policy, ops, k), Moment(policy, ops, k + 1))
  {
    assert ops[..k + 1][..k] == ops[..k];
    RunSound(policy, ops[..k]);
    ApplyKeepsDown(policy, Run(policy, ops[..k]), ops[k]);
  }

  /** Over any stretch of any run during which a transaction stays in the pool, its entry stands for
      the same transaction and its recorded ancestor totals never grow. */
  lemma {:induction false} RunKeepsDown(policy: Policy, ops: seq<Op>, n: nat, k: nat, x: Txid)
    requires n <= k <= |ops|
    requires forall j :: n <= j <= k ==> x in Moment(policy, ops, j)
    ensures NotGrown(Moment(policy, ops, n)[x], Moment(policy, ops, k)[x])
    decreases k - n
  {
    if n < k {
      RunKeepsDown(policy, ops, n, k - 1, x);
      StepKeepsDown(policy, ops, k - 1);
      NotGrownTransitive(Moment(policy, ops, n)[x], Moment(policy, ops, k - 1)[x], Moment(policy, ops, k)[x]);
    }
  }

  lemma NotGrownTransitive(a: Entry, b: Entry, c: Entry)
    requires NotGrown(a, b) && NotGrown(b, c)
    ensures NotGrown(a, c)
  {
    forall m
      ensures Recorded(m, c) <= Recorded(m, a)
    {
      assert Recorded(m, c) <= Recorded(m, b);
    }
  }

  // ---------------------------------------------------------------- how long an entry may stay

  /** Operation `k` of the run added the transaction, which was not in the pool before. */
  ghost predicate AddedBy(policy: Policy, ops: seq<Op>, k: nat, x: Txid) {
    && k < |ops| && ops[k].AddTx? && ops[k].tx.txid == x
    && x !in Moment(policy, ops, k) && x in Moment(policy, ops, k + 1)
  }

  lemma NewEntryStatic(policy: Policy, p: Pool, tx: Transaction, fee: nat, height: nat, time: nat, kernelOk: bool,
                       order: seq<Txid>)
    requires Sound(policy, p) && tx.txid !in p.entries
    requires tx.txid in Apply(policy, p, AddTx(tx, fee, height, time, kernelOk, order)).entries
    ensures var e := Apply(policy, p, AddTx(tx, fee, height, time, kernelOk, order)).entries[tx.txid];
            e.tx == tx && e.fee == fee && e.height == height && e.time == time
  {
    var q, e := RemovedAll(p, FindConflicts(p, tx)), NewEntry(tx, fee, height, time);
    RemovedAllSurvives(p, FindConflicts(p, tx));
    AdmitSound(policy, p, tx, fee, height, time, kernelOk);
    if CheckEarly(policy, p, tx, fee, kernelOk).Pass? && AdmitInto(policy, q, e).1.Pass? {
      var q' := AdmitInto(policy, q, e).0;
      EvictedDwindles(policy, q', order, policy.maxSize);
      assert NotGrown(q'.entries[tx.txid], Evicted(q', order, policy.maxSize).entries[tx.txid]);
    }
  }

  /** An entry carries the transaction, the fee, the height and the time of the call that added it. */
  lemma {:induction false} EntryIsAsAdded(policy: Policy, ops: seq<Op>, k: nat, x: Txid)
    requires AddedBy(policy, ops, k, x)
    ensures var e := Moment(policy, ops, k + 1)[x];
            e.tx == ops[k].tx && e.fee == ops[k].fee && e.height == ops[k].height && e.time == ops[k].time
  {
    assert ops[..k + 1][..k] == ops[..k];
    RunSound(policy, ops[..k]);
    NewEntryStatic(policy, Run(policy, ops[..k]), ops[k].tx, ops[k].fee, ops[k].height, ops[k].time,
                   ops[k].kernelOk, ops[k].order);
  }

  lemma ExpiredAre(policy: Policy, p: Pool, now: nat, order: seq<Txid>, x: Txid)
    requires x in p.entries && Legal(policy, p, RemoveExpired(now, order))
    ensures x in Apply(policy, p, RemoveExpired(now, order)).entries <==> now <= p.entries[x].time + policy.expiry
  {
    RemovedAllSurvives(p, order);
  }

  /** A transaction that was added by a call at some time, and has been in the pool ever since, is taken out by
      expiry if and only if more than the expiry period has passed since that time. */
  lemma {:induction false} ExpiryExact(policy: Policy, ops: seq<Op>, k: nat, x: Txid, now: nat, order: seq<Txid>)
    requires AddedBy(policy, ops, k, x) && forall j :: k < j <= |ops| ==> x in Moment(policy, ops, j)
    requires Legal(policy, Run(policy, ops), RemoveExpired(now, order))
    ensures x in Apply(policy, Run(policy, ops), RemoveExpired(now, order)).entries
            <==> now <= ops[k].time + policy.expiry
  {
    EntryIsAsAdded(policy, ops, k, x);
    RunKeepsDown(policy, ops, k + 1, |ops|, x);
    assert ops[..|ops|] == ops;
    ExpiredAre(policy, Run(policy, ops), now, order, x);
  }

  // ---------------------------------------------------------------- the entry that was added

  /** The ancestor count that a new entry is given is the true one if and only if its parents' counts
      are and no two of its parents share family. */
  lemma NewCountExactIff(policy: Policy, p: Pool, e: Entry)
    requires Sound(policy, p) && ReadyToJoin(p.entries, e)
    ensures var es' := Inserted(p, e).entries;
            e.ancestorCount == 1 + |Ancestors(es', e.tx.txid)|
            <==> CountsExact(p.entries, e.parents) && NoSharedAncestors(p.entries, e.parents)
  {
    var stamp :| Inv(policy, p, stamp);
    var es, es', t := p.entries, Inserted(p, e).entries, e.tx.txid;
    InsertedJoins(p, e);
    JoinSlackOfNew(es, es', stamp, t, e, Count);
    assert forall q :: q in e.parents ==> Slack(es, Count, q) >= 0;
    CountGapZero(es, stamp, e.parents);
    SumOnes(Ancestors(es', t), OwnOf(es', Count));
  }

  /** A transaction that `add_tx` reports as added is in the pool afterwards if and only if it and all
      that comes after it in the eviction order fit. */
  lemma AddedStaysIff(policy: Policy, p: Pool, tx: Transaction, fee: nat, height: nat, time: nat, kernelOk: bool,
                      order: seq<Txid>, i: nat)
    requires Sound(policy, p) && Legal(policy, p, AddTx(tx, fee, height, time, kernelOk, order))
    requires Admit(policy, p, tx, fee, height, time, kernelOk).1.Pass?
    requires Admit(policy, p, tx, fee, height, time, kernelOk).0.totalSize > policy.maxSize
    requires i < |order| && order[i] == tx.txid
    ensures tx.txid in Apply(policy, p, AddTx(tx, fee, height, time, kernelOk, order)).entries
            <==> ListTotal(Admit(policy, p, tx, fee, height, time, kernelOk).0.entries, Size, order[i..])
                 <= policy.maxSize
  {
    AdmitSound(policy, p, tx, fee, height, time, kernelOk);
    EvictionExact(Admit(policy, p, tx, fee, height, time, kernelOk).0, order, policy.maxSize);
  }
}
