/** Removing an entry keeps every view of the pool in agreement. */
module PoolRemoval {
  import opened Policy
  import opened Entries
  import opened FiniteSums
  import opened Pools
  import opened Ancestry

  /** The fields that no operation ever changes. */
  ghost predicate SameStatic(e: Entry, e': Entry) {
    && e'.tx == e.tx && e'.vsize == e.vsize && e'.fee == e.fee && e'.feeRate == e.feeRate
    && e'.time == e.time && e'.height == e.height && e'.signalsReplacement == e.signalsReplacement
  }

  /** `e'` is what the removal of `t` (with entry `gone`) leaves of `e`: links to `t` are cut,
      an entry that had `t` as a parent drops it from its ancestor totals, an entry that had
      `t` as a child drops it from its descendant totals, and nothing else changes. */
  ghost predicate CutFrom(e: Entry, e': Entry, t: Txid, gone: Entry) {
    && SameStatic(e, e')
    && e'.parents == e.parents - {t} && e'.children == e.children - {t}
    && forall m ::
         && Recorded(m, e') == Recorded(m, e) - (if t in e.parents then Own(m, gone) else 0)
         && RecordedBelow(m, e') == RecordedBelow(m, e) - (if t in e.children then Own(m, gone) else 0)
  }

  ghost predicate CutOut(es: Table, es': Table, t: Txid) {
    && t in es
    && es'.Keys == es.Keys - {t}
    && forall x :: x in es' ==> CutFrom(es[x], es'[x], t, es[t])
  }

  lemma RecordedAtLeastParent(es: Table, m: Metric, t: Txid, x: Txid)
    requires AncestorsCovered(es)
    requires t in es && x in es && t in es[x].parents
    ensures Recorded(m, es[x]) >= Own(m, es[x]) + Own(m, es[t])
  {
    AncestorUnfold(es, t, x);
    SumSplit(Ancestors(es, x), OwnOf(es, m), t);
    SumNonNegative(Ancestors(es, x) - {t}, OwnOf(es, m));
    assert Slack(es, m, x) >= 0;
  }

  lemma BelowAtLeastChild(es: Table, m: Metric, t: Txid, x: Txid)
    requires DescendantsExact(es)
    requires t in es && x in es && t in es[x].children
    ensures RecordedBelow(m, es[x]) >= Own(m, es[t])
  {
    SumSplit(es[x].children, OwnOf(es, m), t);
    SumNonNegative(es[x].children - {t}, OwnOf(es, m));
  }

  /** Removal touches exactly the direct parents and children, and the source's clamping of
      the totals at zero never bites. */
  lemma RemovedCutsOut(p: Pool, t: Txid)
    requires LinksMirror(p.entries) && DescendantsExact(p.entries) && AncestorsCovered(p.entries)
    requires t in p.entries
    ensures CutOut(p.entries, Removed(p, t).entries, t)
  {
    var es, gone := p.entries, p.entries[t];
    forall x | x in es && x != t
      ensures CutFrom(es[x], Removed(p, t).entries[x], t, gone)
    {
      assert x in gone.parents <==> t in es[x].children;
      assert x in gone.children <==> t in es[x].parents;
      forall m
        ensures t in es[x].parents ==> Recorded(m, es[x]) >= Own(m, gone)
        ensures t in es[x].children ==> RecordedBelow(m, es[x]) >= Own(m, gone)
      {
        if t in es[x].parents { RecordedAtLeastParent(es, m, t, x); }
        if t in es[x].children { BelowAtLeastChild(es, m, t, x); }
      }
      CutFromUpdates(es[x], t, gone);
    }
  }

  lemma CutFromUpdates(e: Entry, t: Txid, gone: Entry)
    requires forall m :: t in e.parents ==> Recorded(m, e) >= Own(m, gone)
    requires forall m :: t in e.children ==> RecordedBelow(m, e) >= Own(m, gone)
    ensures var e1 := if t in e.children then WithoutChild(e, t, gone) else e;
            var e2 := if t in e.parents then WithoutParent(e1, t, gone) else e1;
            CutFrom(e, e2, t, gone)
  {
    assert t in e.parents ==> Recorded(Count, e) >= Own(Count, gone) && Recorded(Size, e) >= Own(Size, gone)
                              && Recorded(Fees, e) >= Own(Fees, gone);
    assert t in e.children ==> RecordedBelow(Count, e) >= Own(Count, gone) && RecordedBelow(Size, e) >= Own(Size, gone)
                               && RecordedBelow(Fees, e) >= Own(Fees, gone);
  }

  lemma CutLinks(es: Table, es': Table, stamp: map<Txid, nat>, t: Txid)
    requires Links(es, stamp) && CutOut(es, es', t)
    ensures Links(es', stamp - {t})
  {
  }

  lemma CutSpends(es: Table, es': Table, spends: map<OutPoint, Txid>, t: Txid)
    requires SpendsExact(es, spends) && CutOut(es, es', t)
    ensures SpendsExact(es', spends - Outpoints(es[t].tx))
  {
    var spends' := spends - Outpoints(es[t].tx);
    forall x, o | x in es' && o in Outpoints(es'[x].tx)
      ensures o in spends' && spends'[o] == x
    {
      assert CutFrom(es[x], es'[x], t, es[t]);
      assert o in spends && spends[o] == x;
    }
  }

  lemma CutPoolTotal(es: Table, es': Table, m: Metric, t: Txid)
    requires CutOut(es, es', t)
    ensures Sum(es'.Keys, OwnOf(es', m)) == Sum(es.Keys, OwnOf(es, m)) - Own(m, es[t])
  {
    SumSplit(es.Keys, OwnOf(es, m), t);
    SumCongruent(es'.Keys, OwnOf(es, m), OwnOf(es', m));
  }

  lemma CutBelow(es: Table, es': Table, m: Metric, t: Txid, x: Txid)
    requires CutOut(es, es', t) && x in es' && es[x].children <= es.Keys
    requires RecordedBelow(m, es[x]) == Own(m, es[x]) + Sum(es[x].children, OwnOf(es, m))
    ensures RecordedBelow(m, es'[x]) == Own(m, es'[x]) + Sum(es'[x].children, OwnOf(es', m))
  {
    assert CutFrom(es[x], es'[x], t, es[t]);
    var kept := es[x].children - {t};
    SumCongruent(kept, OwnOf(es, m), OwnOf(es', m));
    if t in es[x].children {
      SumSplit(es[x].children, OwnOf(es, m), t);
    } else {
      assert kept == es[x].children;
    }
  }

  lemma CutDescendants(es: Table, es': Table, t: Txid)
    requires LinksClosed(es) && DescendantsExact(es) && CutOut(es, es', t)
    ensures DescendantsExact(es')
  {
    forall m, x | x in es'
      ensures RecordedBelow(m, es'[x]) == Own(m, es'[x]) + Sum(es'[x].children, OwnOf(es', m))
    {
      CutBelow(es, es', m, t, x);
    }
  }

  /** Removal only ever loses ancestors, and loses the removed transaction itself. */
  lemma CutAncestors(es: Table, es': Table, t: Txid, x: Txid)
    requires CutOut(es, es', t)
    ensures Ancestors(es', x) <= Ancestors(es, x) - {t}
  {
    forall a | a in Ancestors(es', x)
      ensures a in Ancestors(es, x)
    {
      AncestorsShrink(es, es', a, x);
    }
  }

  /** The ancestors `x` loses with the removal of `t`, other than `t` as a direct parent. */
  ghost function CutOff(es: Table, es': Table, t: Txid, x: Txid): set<Txid>
    requires x in es
  {
    Ancestors(es, x) - Ancestors(es', x) - (if t in es[x].parents then {t} else {})
  }

  /** The exact effect of a removal on the gap between recorded and true ancestor totals: it
      grows by the weight of the ancestors that the removal cut off, other than a removed
      direct parent, whose weight the bookkeeping does take out. */
  lemma CutSlack(es: Table, es': Table, t: Txid, m: Metric, x: Txid)
    requires CutOut(es, es', t) && x in es'
    ensures Slack(es', m, x) == Slack(es, m, x) + Sum(CutOff(es, es', t, x), OwnOf(es, m))
  {
    CutAncestors(es, es', t, x);
    var before, after := Ancestors(es, x), Ancestors(es', x);
    SumCongruent(after, OwnOf(es, m), OwnOf(es', m));
    SumSubset(after, before, OwnOf(es, m));
    assert CutFrom(es[x], es'[x], t, es[t]);
    if t in es[x].parents {
      AncestorUnfold(es, t, x);
      SumSplit(before - after, OwnOf(es, m), t);
    } else {
      assert CutOff(es, es', t, x) == before - after;
    }
  }

  lemma CutCovered(es: Table, es': Table, t: Txid)
    requires CutOut(es, es', t) && AncestorsCovered(es)
    ensures AncestorsCovered(es')
  {
    forall m, x | x in es'
      ensures Slack(es', m, x) >= 0
    {
      CutSlack(es, es', t, m, x);
      assert Slack(es, m, x) >= 0;
      SumNonNegative(CutOff(es, es', t, x), OwnOf(es, m));
    }
  }

  /** Recorded ancestor totals never grow, so the limits they met at insertion hold for good. */
  lemma CutLimits(policy: Policy, es: Table, es': Table, t: Txid)
    requires CutOut(es, es', t) && WithinLimits(policy, es)
    ensures forall m, x :: x in es' ==> Recorded(m, es'[x]) <= Recorded(m, es[x])
    ensures WithinLimits(policy, es')
  {
    forall x | x in es'
      ensures forall m :: Recorded(m, es'[x]) <= Recorded(m, es[x])
      ensures CheckAncestorLimits(policy, es'[x].ancestorCount, es'[x].ancestorSize).Pass?
    {
      assert CutFrom(es[x], es'[x], t, es[t]);
      assert Recorded(Count, es'[x]) <= Recorded(Count, es[x]);
      assert Recorded(Size, es'[x]) <= Recorded(Size, es[x]);
    }
  }

  /** Removal keeps the whole invariant. */
  lemma RemovedKeepsInv(policy: Policy, p: Pool, stamp: map<Txid, nat>, t: Txid)
    requires Inv(policy, p, stamp) && t in p.entries
    ensures Inv(policy, Removed(p, t), stamp - {t})
  {
    var es, es' := p.entries, Removed(p, t).entries;
    RemovedCutsOut(p, t);
    CutKeepsInv(policy, p, Removed(p, t), stamp, t);
  }

  lemma CutKeepsInv(policy: Policy, p: Pool, p': Pool, stamp: map<Txid, nat>, t: Txid)
    requires Inv(policy, p, stamp) && CutOut(p.entries, p'.entries, t)
    requires p'.spends == p.spends - Outpoints(p.entries[t].tx)
    requires p'.totalSize == p.totalSize - p.entries[t].vsize
    requires p'.totalFees == p.totalFees - p.entries[t].fee
    ensures Inv(policy, p', stamp - {t})
  {
    CutKeepsTotals(policy, p.entries, p'.entries, t);
    CutLinks(p.entries, p'.entries, stamp, t);
    CutSpends(p.entries, p'.entries, p.spends, t);
    CutTotalsExact(p, p', t);
    CutSound(policy, p.entries, p'.entries, t);
  }

  lemma CutTotalsExact(p: Pool, p': Pool, t: Txid)
    requires TotalsExact(p) && CutOut(p.entries, p'.entries, t)
    requires p'.totalSize == p.totalSize - p.entries[t].vsize
    requires p'.totalFees == p.totalFees - p.entries[t].fee
    ensures TotalsExact(p')
  {
    CutPoolTotal(p.entries, p'.entries, Size, t);
    CutPoolTotal(p.entries, p'.entries, Fees, t);
  }

  lemma CutKeepsTotals(policy: Policy, es: Table, es': Table, t: Txid)
    requires LinksClosed(es) && EntriesSound(es) && TotalsSound(policy, es) && CutOut(es, es', t)
    ensures TotalsSound(policy, es')
  {
    CutDescendants(es, es', t);
    CutCovered(es, es', t);
    CutLimits(policy, es, es', t);
    CutSound(policy, es, es', t);
  }

  lemma CutSound(policy: Policy, es: Table, es': Table, t: Txid)
    requires EntriesSound(es) && FeesAcceptable(policy, es) && CutOut(es, es', t)
    ensures EntriesSound(es') && FeesAcceptable(policy, es')
  {
    assert forall x :: x in es' ==> CutFrom(es[x], es'[x], t, es[t]);
  }
}
