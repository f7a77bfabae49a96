/** Eviction, and what holds after every run of the pool's operations. */
module PoolRuns {
  import opened Policy
  import opened Entries
  import opened FiniteSums
  import opened FiniteSets
  import opened Lists
  import opened Pools
  import opened Ancestry
  import opened PoolRemoval
  import opened PoolInsertion
  import opened PoolOperations

  // ---------------------------------------------------------------- eviction

  /** An enumeration of the pool in ascending fee rate: what sorting a snapshot yields. */
  predicate ByFeeRate(es: Table, order: seq<Txid>) {
    && NoRepeats(order)
    && Elements(order) == es.Keys
    && (forall i :: 0 <= i < |order| ==> order[i] in es)
    && forall i, j :: 0 <= i < j < |order| ==> es[order[i]].feeRate <= es[order[j]].feeRate
  }

  /** Remove from the front of the order until the pool fits. */
  function Evicted(p: Pool, order: seq<Txid>, maxSize: nat): Pool
    decreases |order|
  {
    if order == [] || p.totalSize <= maxSize then p
    else Evicted(RemovedIfPresent(p, order[0]), order[1..], maxSize)
  }

  lemma {:induction false} ListTotalSame(es: Table, es': Table, m: Metric, ts: seq<Txid>)
    requires forall x :: x in ts ==> x in es && x in es' && Own(m, es[x]) == Own(m, es'[x])
    ensures ListTotal(es, m, ts) == ListTotal(es', m, ts)
  {
    if ts != [] {
      ListTotalSame(es, es', m, ts[1..]);
    }
  }

  lemma {:induction false} ListTotalShrinks(es: Table, m: Metric, ts: seq<Txid>, i: nat)
    requires i <= |ts|
    ensures ListTotal(es, m, ts[i..]) <= ListTotal(es, m, ts)
  {
    if i > 0 {
      ListTotalShrinks(es, m, ts[1..], i - 1);
      assert ts[1..][i - 1..] == ts[i..];
    }
  }

  /** `p'` is `p` without the first `k` of the order, and every longer part was too big. */
  ghost predicate CutAt(p: Pool, p': Pool, order: seq<Txid>, k: nat, maxSize: nat) {
    && k <= |order|
    && Survives(p.entries, p'.entries, Elements(order[..k]))
    && p'.totalSize == ListTotal(p.entries, Size, order[k..]) <= maxSize
    && forall i :: 0 <= i < k ==> ListTotal(p.entries, Size, order[i..]) > maxSize
  }

  /** Every removal that eviction tries succeeds, and it stops at the first point at which what
      is left fits: the survivors are a suffix of the order, and every longer suffix was too big. */
  lemma {:induction false} EvictedSuffix(p: Pool, order: seq<Txid>, maxSize: nat) returns (k: nat)
    requires NoRepeats(order) && Elements(order) == p.entries.Keys
    requires p.totalSize == ListTotal(p.entries, Size, order)
    ensures CutAt(p, Evicted(p, order, maxSize), order, k, maxSize)
    decreases |order|
  {
    if order == [] || p.totalSize <= maxSize {
      k := 0;
      CutAtStart(p, order, maxSize);
    } else {
      assert order[0] in Elements(order);
      var q := RemovedIfPresent(p, order[0]);
      RemovedOne(p, order[0]);
      EvictedFirst(p, q, order);
      var k' := EvictedSuffix(q, order[1..], maxSize);
      k := k' + 1;
      CutOneLater(p, q, Evicted(q, order[1..], maxSize), order, k', maxSize);
    }
  }

  lemma CutAtStart(p: Pool, order: seq<Txid>, maxSize: nat)
    requires p.totalSize == ListTotal(p.entries, Size, order) <= maxSize
    ensures CutAt(p, p, order, 0, maxSize)
  {
    assert order[0..] == order && order[..0] == [];
  }

  lemma CutOneLater(p: Pool, q: Pool, p': Pool, order: seq<Txid>, k: nat, maxSize: nat)
    requires order != [] && NoRepeats(order) && Elements(order) == p.entries.Keys
    requires p.totalSize == ListTotal(p.entries, Size, order) > maxSize
    requires Survives(p.entries, q.entries, {order[0]}) && CutAt(q, p', order[1..], k, maxSize)
    ensures CutAt(p, p', order, k + 1, maxSize)
  {
    EvictedBack(p, q, order, k, maxSize);
    EvictedGone(p.entries, q.entries, p'.entries, order, k);
  }

  lemma RemovedOne(p: Pool, t: Txid)
    requires t in p.entries
    ensures Survives(p.entries, RemovedIfPresent(p, t).entries, {t})
    ensures RemovedIfPresent(p, t).totalSize == p.totalSize - p.entries[t].vsize
  {
  }

  lemma EvictedGone(es: Table, es1: Table, es2: Table, order: seq<Txid>, k: nat)
    requires k < |order| && Survives(es, es1, {order[0]}) && Survives(es1, es2, Elements(order[1..][..k]))
    ensures Survives(es, es2, Elements(order[..k + 1]))
  {
    SurvivesCompose(es, es1, es2, {order[0]}, Elements(order[1..][..k]));
    ElementsStep(order[..k + 1]);
    assert order[..k + 1][1..] == order[1..][..k];
  }

  lemma EvictedFirst(p: Pool, q: Pool, order: seq<Txid>)
    requires order != [] && NoRepeats(order) && Elements(order) == p.entries.Keys && order[0] in p.entries
    requires p.totalSize == ListTotal(p.entries, Size, order)
    requires Survives(p.entries, q.entries, {order[0]}) && q.totalSize == p.totalSize - p.entries[order[0]].vsize
    ensures NoRepeats(order[1..]) && Elements(order[1..]) == q.entries.Keys
    ensures q.totalSize == ListTotal(q.entries, Size, order[1..])
  {
    ElementsStep(order);
    assert order[0] !in Elements(order[1..]);
    forall x | x in order[1..]
      ensures x in p.entries && x in q.entries && Own(Size, p.entries[x]) == Own(Size, q.entries[x])
    {
      assert x in Elements(order[1..]);
      assert SameStatic(p.entries[x], q.entries[x]);
    }
    ListTotalSame(p.entries, q.entries, Size, order[1..]);
  }

  lemma EvictedBack(p: Pool, q: Pool, order: seq<Txid>, k: nat, maxSize: nat)
    requires order != [] && NoRepeats(order) && Elements(order) == p.entries.Keys && k < |order|
    requires Survives(p.entries, q.entries, {order[0]})
    requires ListTotal(p.entries, Size, order) > maxSize
    requires forall i :: 0 <= i < k ==> ListTotal(q.entries, Size, order[1..][i..]) > maxSize
    ensures ListTotal(q.entries, Size, order[1..][k..]) == ListTotal(p.entries, Size, order[k + 1..])
    ensures forall i :: 0 <= i < k + 1 ==> ListTotal(p.entries, Size, order[i..]) > maxSize
  {
    forall i | 0 <= i <= k
      ensures ListTotal(q.entries, Size, order[1..][i..]) == ListTotal(p.entries, Size, order[i + 1..])
    {
      assert order[1..][i..] == order[i + 1..];
      forall x | x in order[i + 1..]
        ensures x in p.entries && x in q.entries && Own(Size, p.entries[x]) == Own(Size, q.entries[x])
      {
        assert x in Elements(order) && x != order[0];
        assert SameStatic(p.entries[x], q.entries[x]);
      }
      ListTotalSame(p.entries, q.entries, Size, order[i + 1..]);
    }
    forall i | 0 <= i < k + 1
      ensures ListTotal(p.entries, Size, order[i..]) > maxSize
    {
      if i == 0 {
        assert order[0..] == order;
      } else {
        assert order[1..][i - 1..] == order[i..];
      }
    }
  }

  /** Which transactions survive eviction: exactly those whose own size together with that of
      everything after them in the order fits. No survivor pays a lower rate than an evicted one. */
  lemma EvictionExact(p: Pool, order: seq<Txid>, maxSize: nat)
    requires TotalsExact(p) && ByFeeRate(p.entries, order)
    ensures var p' := Evicted(p, order, maxSize);
            && p'.totalSize <= maxSize
            && (forall i :: 0 <= i < |order| ==>
                  (order[i] in p'.entries <==> ListTotal(p.entries, Size, order[i..]) <= maxSize))
            && (forall s, g :: s in p'.entries && g in p.entries && g !in p'.entries ==>
                  s in p.entries && p.entries[g].feeRate <= p.entries[s].feeRate)
  {
    ListTotalCoversDistinct(p.entries, Size, order);
    var k := EvictedSuffix(p, order, maxSize);
    var es' := Evicted(p, order, maxSize).entries;
    forall i | 0 <= i < |order|
      ensures order[i] in es' <==> ListTotal(p.entries, Size, order[i..]) <= maxSize
    {
      SuffixExact(p.entries, es', order, k, maxSize, i);
    }
    forall s, g | s in es' && g in p.entries && g !in es'
      ensures s in p.entries && p.entries[g].feeRate <= p.entries[s].feeRate
    {
      SuffixRates(p.entries, es', order, k, s, g);
    }
  }

  lemma SuffixExact(es: Table, es': Table, order: seq<Txid>, k: nat, maxSize: nat, i: nat)
    requires ByFeeRate(es, order) && k <= |order| && Survives(es, es', Elements(order[..k])) && i < |order|
    requires ListTotal(es, Size, order[k..]) <= maxSize && (i < k ==> ListTotal(es, Size, order[i..]) > maxSize)
    ensures order[i] in es' <==> ListTotal(es, Size, order[i..]) <= maxSize
  {
    SuffixMember(es, es', order, k, i);
    if i >= k {
      ListTotalShrinks(es, Size, order[k..], i - k);
      assert order[k..][i - k..] == order[i..];
    }
  }

  lemma SuffixMember(es: Table, es': Table, order: seq<Txid>, k: nat, i: nat)
    requires ByFeeRate(es, order) && k <= |order| && i < |order| && Survives(es, es', Elements(order[..k]))
    ensures order[i] in es' <==> i >= k
  {
    if i < k {
      assert order[..k][i] == order[i];
    } else {
      assert forall j :: 0 <= j < k ==> order[..k][j] == order[j] != order[i];
    }
  }

  lemma SuffixRates(es: Table, es': Table, order: seq<Txid>, k: nat, s: Txid, g: Txid)
    requires ByFeeRate(es, order) && k <= |order| && Survives(es, es', Elements(order[..k]))
    requires s in es' && g in es && g !in es'
    ensures s in es && es[g].feeRate <= es[s].feeRate
  {
    assert s in Elements(order) && g in Elements(order);
    var i :| 0 <= i < |order| && order[i] == s;
    var j :| 0 <= j < |order| && order[j] == g;
    SuffixMember(es, es', order, k, i);
    SuffixMember(es, es', order, k, j);
  }

  lemma {:induction false} EvictedSound(policy: Policy, p: Pool, order: seq<Txid>, maxSize: nat)
    requires Sound(policy, p)
    ensures Sound(policy, Evicted(p, order, maxSize))
    decreases |order|
  {
    if order != [] && p.totalSize > maxSize {
      RemovedIfPresentSound(policy, p, order[0]);
      EvictedSound(policy, RemovedIfPresent(p, order[0]), order[1..], maxSize);
    }
  }

  // ---------------------------------------------------------------- runs

  /** A call of a public operation. The orders stand for the iteration order of a hash map and
      for how a sort breaks ties; `kernelOk` is the verdict of consensus validation. */
  datatype Op =
    | AddTx(tx: Transaction, fee: nat, height: nat, time: nat, kernelOk: bool, order: seq<Txid>)
    | RemoveTx(txid: Txid)
    | RemoveExpired(now: nat, order: seq<Txid>)
    | Clear

  function Expired(es: Table, now: nat, timeout: nat): set<Txid> {
    set t | t in es && IsExpired(es[t], now, timeout)
  }

  ghost function Apply(policy: Policy, p: Pool, op: Op): Pool {
    match op
    case AddTx(tx, fee, height, time, kernelOk, order) =>
      var (q, outcome) := Admit(policy, p, tx, fee, height, time, kernelOk);
      if outcome.Pass? then Evicted(q, order, policy.maxSize) else q
    case RemoveTx(t) => RemovedIfPresent(p, t)
    case RemoveExpired(now, order) => RemovedAll(p, order)
    case Clear => EMPTY
  }

  ghost predicate Legal(policy: Policy, p: Pool, op: Op) {
    match op
    case AddTx(tx, fee, height, time, kernelOk, order) =>
      var (q, outcome) := Admit(policy, p, tx, fee, height, time, kernelOk);
      outcome.Pass? && q.totalSize > policy.maxSize ==> ByFeeRate(q.entries, order)
    case RemoveTx(_) => true
    case RemoveExpired(now, order) => NoRepeats(order) && Elements(order) == Expired(p.entries, now, policy.expiry)
    case Clear => true
  }

  /** The pool after a run that starts empty. */
  ghost function Run(policy: Policy, ops: seq<Op>): Pool {
    if ops == [] then EMPTY
    else Apply(policy, Run(policy, ops[..|ops| - 1]), ops[|ops| - 1])
  }

  ghost predicate LegalRun(policy: Policy, ops: seq<Op>) {
    ops != [] ==>
      && LegalRun(policy, ops[..|ops| - 1])
      && Legal(policy, Run(policy, ops[..|ops| - 1]), ops[|ops| - 1])
  }

  lemma EmptyInv(policy: Policy)
    ensures Inv(policy, EMPTY, map[])
  {
  }

  lemma EmptySound(policy: Policy)
    ensures Sound(policy, EMPTY)
  {
    EmptyInv(policy);
  }

  lemma ApplySound(policy: Policy, p: Pool, op: Op)
    requires Sound(policy, p)
    ensures Sound(policy, Apply(policy, p, op))
  {
    match op
    case AddTx(tx, fee, height, time, kernelOk, order) =>
      AdmitSound(policy, p, tx, fee, height, time, kernelOk);
      EvictedSound(policy, Admit(policy, p, tx, fee, height, time, kernelOk).0, order, policy.maxSize);
    case RemoveTx(t) => RemovedIfPresentSound(policy, p, t);
    case RemoveExpired(now, order) => RemovedAllSound(policy, p, order);
    case Clear => EmptySound(policy);
  }

  /** Every run keeps all views in agreement and all recorded totals sound. */
  lemma {:induction false} RunSound(policy: Policy, ops: seq<Op>)
    ensures Sound(policy, Run(policy, ops))
  {
    if ops == [] {
      EmptySound(policy);
    } else {
      RunSound(policy, ops[..|ops| - 1]);
      ApplySound(policy, Run(policy, ops[..|ops| - 1]), ops[|ops| - 1]);
    }
  }

  // ---------------------------------------------------------------- what the invariant gives

  /** The true closure, which nobody computes, respects the limits that were only ever checked
      against sums over direct parents. */
  lemma AncestorLimitsHold(policy: Policy, es: Table, t: Txid)
    requires AncestorsCovered(es) && WithinLimits(policy, es) && t in es
    ensures 1 + |Ancestors(es, t)| <= es[t].ancestorCount <= policy.maxAncestors
    ensures es[t].vsize + Sum(Ancestors(es, t), OwnOf(es, Size)) <= es[t].ancestorSize
    ensures es[t].ancestorSize <= policy.maxAncestorSizeKb * 1024
  {
    assert Slack(es, Count, t) >= 0 && Slack(es, Size, t) >= 0;
    SumOnes(Ancestors(es, t), OwnOf(es, Count));
  }

  lemma {:induction false} FloorOverSet(policy: Policy, es: Table, s: set<Txid>)
    requires EntriesSound(es) && FeesAcceptable(policy, es) && s <= es.Keys
    ensures Sum(s, OwnOf(es, Fees)) >= policy.minRelayFee * Sum(s, OwnOf(es, Size))
  {
    if s != {} {
      var x :| x in s;
      SumSplit(s, OwnOf(es, Fees), x);
      SumSplit(s, OwnOf(es, Size), x);
      FloorOverSet(policy, es, s - {x});
      RateFloor(es[x].fee, es[x].vsize, policy.minRelayFee);
      FloorAdds(policy.minRelayFee, es[x].fee, es[x].vsize, Sum(s - {x}, OwnOf(es, Fees)),
                Sum(s - {x}, OwnOf(es, Size)));
    }
  }

  lemma FloorAdds(rate: nat, fee: int, size: int, fees: int, sizes: int)
    requires fee >= rate * size && fees >= rate * sizes
    ensures fee + fees >= rate * (size + sizes)
  {
  }

  /** The pool as a whole pays the minimum relay rate for every byte it holds. */
  lemma PoolPaysFloor(policy: Policy, p: Pool)
    requires EntriesSound(p.entries) && TotalsExact(p) && FeesAcceptable(policy, p.entries)
    ensures p.totalSize >= 0
    ensures p.totalFees >= policy.minRelayFee * p.totalSize
  {
    FloorOverSet(policy, p.entries, p.entries.Keys);
    SumNonNegative(p.entries.Keys, OwnOf(p.entries, Size));
  }

  lemma ChildrenAreDescendants(es: Table, t: Txid)
    requires LinksClosed(es) && LinksMirror(es) && t in es
    ensures es[t].children <= Descendants(es, t)
  {
    forall c | c in es[t].children
      ensures c in Descendants(es, t)
    {
      AncestorUnfold(es, t, c);
    }
  }

  /** The recorded descendant totals cover the direct children only, so they are a lower bound on
      the true ones ... */
  lemma DescendantsLowerBound(es: Table, t: Txid, m: Metric)
    requires LinksClosed(es) && LinksMirror(es) && DescendantsExact(es) && t in es
    ensures RecordedBelow(m, es[t]) <= Own(m, es[t]) + Sum(Descendants(es, t), OwnOf(es, m))
  {
    ChildrenAreDescendants(es, t);
    SumSubset(es[t].children, Descendants(es, t), OwnOf(es, m));
    OwnTotalNonNegative(es, m, Descendants(es, t) - es[t].children);
  }

  /** ... and the count is exact if and only if every descendant is a direct child. */
  lemma DescendantCountExact(es: Table, t: Txid)
    requires LinksClosed(es) && LinksMirror(es) && DescendantsExact(es) && t in es
    ensures es[t].descendantCount == 1 + |Descendants(es, t)| <==> Descendants(es, t) == es[t].children
  {
    ChildrenAreDescendants(es, t);
    var children, all := es[t].children, Descendants(es, t);
    assert RecordedBelow(Count, es[t]) == 1 + Sum(children, OwnOf(es, Count));
    SumOnes(children, OwnOf(es, Count));
    SubsetSize(children, all);
  }

  lemma {:induction false} RemovedAllShrinks(p: Pool, ts: seq<Txid>)
    ensures RemovedAll(p, ts).totalSize <= p.totalSize
    decreases |ts|
  {
    if ts != [] {
      RemovedAllShrinks(RemovedIfPresent(p, ts[0]), ts[1..]);
    }
  }

  lemma ApplyKeepsSize(policy: Policy, p: Pool, op: Op)
    requires Sound(policy, p) && Legal(policy, p, op) && p.totalSize <= policy.maxSize
    ensures Apply(policy, p, op).totalSize <= policy.maxSize
  {
    match op
    case AddTx(tx, fee, height, time, kernelOk, order) =>
      var (q, outcome) := Admit(policy, p, tx, fee, height, time, kernelOk);
      if outcome.Pass? && q.totalSize > policy.maxSize {
        AdmitSound(policy, p, tx, fee, height, time, kernelOk);
        EvictionExact(q, order, policy.maxSize);
      } else if outcome.Fail? {
        RemovedAllShrinks(p, FindConflicts(p, tx));
      }
    case RemoveTx(t) =>
    case RemoveExpired(now, order) => RemovedAllShrinks(p, order);
    case Clear =>
  }

  /** No run ever leaves the pool above its size limit. */
  lemma {:induction false} RunWithinSize(policy: Policy, ops: seq<Op>)
    requires LegalRun(policy, ops)
    ensures Run(policy, ops).totalSize <= policy.maxSize
  {
    if ops != [] {
      var before := ops[..|ops| - 1];
      RunWithinSize(policy, before);
      RunSound(policy, before);
      ApplyKeepsSize(policy, Run(policy, before), ops[|ops| - 1]);
    }
  }

  /** The statements above, of every state that any run reaches. */
  lemma ReachablePools(policy: Policy, ops: seq<Op>)
    requires LegalRun(policy, ops)
    ensures var p := Run(policy, ops);
            && (exists stamp :: ViewsAgree(p, stamp))
            && policy.minRelayFee * p.totalSize <= p.totalFees
            && 0 <= p.totalSize <= policy.maxSize
            && forall t :: t in p.entries ==>
                 && !IsAncestor(p.entries, t, t)
                 && 1 + |Ancestors(p.entries, t)| <= p.entries[t].ancestorCount <= policy.maxAncestors
  {
    var p := Run(policy, ops);
    RunSound(policy, ops);
    RunWithinSize(policy, ops);
    var stamp :| Inv(policy, p, stamp);
    assert ViewsAgree(p, stamp);
    PoolPaysFloor(policy, p);
    forall t | t in p.entries
      ensures !IsAncestor(p.entries, t, t)
      ensures 1 + |Ancestors(p.entries, t)| <= p.entries[t].ancestorCount <= policy.maxAncestors
    {
      NotOwnAncestor(p.entries, stamp, t);
      AncestorLimitsHold(policy, p.entries, t);
    }
  }
}
