/** Inserting a linked entry keeps every view of the pool in agreement. */
module PoolInsertion {
  import opened Policy
  import opened Entries
  import opened FiniteSums
  import opened Pools
  import opened Ancestry
  import opened PoolRemoval

  /** `e'` is what an insertion of `added` under `t` leaves of `e`: a parent of the new entry
      gains it as a child and in its descendant totals, and nothing else changes. */
  ghost predicate JoinedTo(x: Txid, e: Entry, e': Entry, t: Txid, added: Entry) {
    && SameStatic(e, e')
    && e'.parents == e.parents
    && e'.children == (if x in added.parents then e.children + {t} else e.children)
    && forall m ::
         && Recorded(m, e') == Recorded(m, e)
         && RecordedBelow(m, e') == RecordedBelow(m, e) + (if x in added.parents then Own(m, added) else 0)
  }

  ghost predicate Joined(es: Table, es': Table, t: Txid, added: Entry) {
    && t !in es
    && es'.Keys == es.Keys + {t}
    && es'[t] == added
    && forall x :: x in es ==> JoinedTo(x, es[x], es'[x], t, added)
  }

  /** What `add_tx` makes of a transaction just before it inserts it. */
  ghost predicate ReadyToJoin(es: Table, e: Entry) {
    && e.tx.txid !in es
    && e.parents == FindParents(es, e.tx)
    && e.children == {}
    && e.vsize == e.tx.vsize && e.feeRate == RateOf(e.fee, e.vsize) && e.signalsReplacement == SignalsRbf(e.tx)
    && forall m ::
         && Recorded(m, e) == Sum(e.parents, RecordedOf(es, m)) + Own(m, e)
         && RecordedBelow(m, e) == Own(m, e)
  }

  lemma LinkedIsReady(es: Table, tx: Transaction, fee: nat, height: nat, time: nat)
    requires tx.txid !in es
    ensures ReadyToJoin(es, Linked(es, NewEntry(tx, fee, height, time)))
  {
    var e := NewEntry(tx, fee, height, time);
    forall m
      ensures Recorded(m, Linked(es, e)) == Sum(FindParents(es, tx), RecordedOf(es, m)) + Own(m, e)
    {
      LinkedRecords(es, e, m);
    }
  }

  lemma LinkedRecords(es: Table, e: Entry, m: Metric)
    ensures Recorded(m, Linked(es, e)) == Sum(FindParents(es, e.tx), RecordedOf(es, m)) + Own(m, e)
  {
    SumNonNegative(FindParents(es, e.tx), RecordedOf(es, m));
  }

  lemma InsertedJoins(p: Pool, e: Entry)
    requires ReadyToJoin(p.entries, e)
    ensures Joined(p.entries, Inserted(p, e).entries, e.tx.txid, e)
  {
    var es, t := p.entries, e.tx.txid;
    forall x | x in es
      ensures JoinedTo(x, es[x], Inserted(p, e).entries[x], t, e)
    {
      JoinedToUpdates(es[x], t, e);
    }
  }

  lemma JoinedToUpdates(e: Entry, t: Txid, added: Entry)
    ensures var e' := WithChild(e, t, added);
            && SameStatic(e, e') && e'.parents == e.parents && e'.children == e.children + {t}
            && (forall m :: Recorded(m, e') == Recorded(m, e))
            && (forall m :: RecordedBelow(m, e') == RecordedBelow(m, e) + Own(m, added))
  {
  }

  lemma JoinLinks(es: Table, es': Table, stamp: map<Txid, nat>, now: nat, t: Txid, e: Entry)
    requires Links(es, stamp) && Joined(es, es', t, e) && ReadyToJoin(es, e) && t == e.tx.txid
    requires forall x :: x in stamp ==> stamp[x] < now
    ensures Links(es', stamp[t := now])
  {
    forall x | x in es
      ensures es'[x].parents == es[x].parents && t !in es[x].parents
      ensures es'[x].children <= es'.Keys && (t in es'[x].children <==> x in e.parents)
    {
      assert JoinedTo(x, es[x], es'[x], t, e);
    }
  }

  lemma JoinSpends(p: Pool, es': Table, e: Entry)
    requires SpendsExact(p.entries, p.spends) && Joined(p.entries, es', e.tx.txid, e)
    requires Outpoints(e.tx) !! p.spends.Keys
    ensures SpendsExact(es', Inserted(p, e).spends)
  {
    var es, t, spends' := p.entries, e.tx.txid, Inserted(p, e).spends;
    forall x, o | x in es' && o in Outpoints(es'[x].tx)
      ensures o in spends' && spends'[o] == x
    {
      if x != t {
        assert JoinedTo(x, es[x], es'[x], t, e);
      }
    }
    forall o | o in spends'
      ensures spends'[o] in es' && o in Outpoints(es'[spends'[o]].tx)
    {
      if o !in Outpoints(e.tx) {
        assert JoinedTo(p.spends[o], es[p.spends[o]], es'[p.spends[o]], t, e);
      }
    }
  }

  lemma JoinPoolTotal(es: Table, es': Table, m: Metric, t: Txid, e: Entry)
    requires Joined(es, es', t, e)
    ensures Sum(es'.Keys, OwnOf(es', m)) == Sum(es.Keys, OwnOf(es, m)) + Own(m, e)
  {
    SumInsert(es.Keys, OwnOf(es', m), t);
    forall x | x in es
      ensures At(OwnOf(es, m), x) == At(OwnOf(es', m), x)
    {
      assert JoinedTo(x, es[x], es'[x], t, e);
    }
    SumCongruent(es.Keys, OwnOf(es, m), OwnOf(es', m));
  }

  lemma JoinBelow(es: Table, es': Table, m: Metric, t: Txid, e: Entry, x: Txid)
    requires Joined(es, es', t, e) && x in es && es[x].children <= es.Keys
    requires RecordedBelow(m, es[x]) == Own(m, es[x]) + Sum(es[x].children, OwnOf(es, m))
    ensures RecordedBelow(m, es'[x]) == Own(m, es'[x]) + Sum(es'[x].children, OwnOf(es', m))
  {
    assert JoinedTo(x, es[x], es'[x], t, e);
    forall c | c in es[x].children
      ensures At(OwnOf(es, m), c) == At(OwnOf(es', m), c)
    {
      assert JoinedTo(c, es[c], es'[c], t, e);
    }
    SumCongruent(es[x].children, OwnOf(es, m), OwnOf(es', m));
    if x in e.parents {
      SumInsert(es[x].children, OwnOf(es', m), t);
    }
  }

  lemma JoinDescendants(es: Table, es': Table, t: Txid, e: Entry)
    requires LinksClosed(es) && DescendantsExact(es) && Joined(es, es', t, e) && ReadyToJoin(es, e)
    ensures DescendantsExact(es')
  {
    forall m, x | x in es'
      ensures RecordedBelow(m, es'[x]) == Own(m, es'[x]) + Sum(es'[x].children, OwnOf(es', m))
    {
      if x != t {
        JoinBelow(es, es', m, t, e, x);
      }
    }
  }

  // ------------------------------------------------- recorded against true ancestors

  /** A transaction together with its ancestors. */
  ghost function Family(es: Table, q: Txid): set<Txid> {
    {q} + Ancestors(es, q)
  }

  /** How far the sum of what `s` records lies above the true total over all their families. */
  ghost function Gap(es: Table, m: Metric, s: set<Txid>): int {
    Sum(s, RecordedOf(es, m)) - Sum(WithAncestors(es, s), OwnOf(es, m))
  }

  /** Adding a member to a group adds its own slack and whatever its family shares with the
      families already there, which the recorded sums count twice. */
  lemma GapStep(es: Table, stamp: map<Txid, nat>, m: Metric, s: set<Txid>, q: Txid)
    requires Links(es, stamp) && q in es && q !in s
    ensures Gap(es, m, s + {q})
         == Gap(es, m, s) + Slack(es, m, q) + Sum(WithAncestors(es, s) * Family(es, q), OwnOf(es, m))
  {
    var f := OwnOf(es, m);
    SumInsert(s, RecordedOf(es, m), q);
    WithAncestorsStep(es, s, q);
    SumUnion(WithAncestors(es, s), Family(es, q), f);
    NotOwnAncestor(es, stamp, q);
    SumInsert(Ancestors(es, q), f, q);
    assert Ancestors(es, q) + {q} == Family(es, q);
  }

  lemma WithAncestorsStep(es: Table, s: set<Txid>, q: Txid)
    requires q in es
    ensures WithAncestors(es, s + {q}) == WithAncestors(es, s) + Family(es, q)
  {
  }

  lemma GapGrows(es: Table, stamp: map<Txid, nat>, m: Metric, s: set<Txid>, q: Txid)
    requires Links(es, stamp) && q in es && q !in s && Slack(es, m, q) >= 0
    ensures Gap(es, m, s + {q}) >= Gap(es, m, s)
  {
    GapStep(es, stamp, m, s, q);
    OwnTotalNonNegative(es, m, WithAncestors(es, s) * Family(es, q));
  }

  lemma GapOfNone(es: Table, m: Metric)
    ensures Gap(es, m, {}) == 0
  {
    assert WithAncestors(es, {}) == {};
  }

  lemma OwnTotalNonNegative(es: Table, m: Metric, s: set<Txid>)
    ensures Sum(s, OwnOf(es, m)) >= 0
  {
    SumNonNegative(s, OwnOf(es, m));
  }

  lemma {:induction false} GapNonNegative(es: Table, stamp: map<Txid, nat>, m: Metric, s: set<Txid>)
    requires Links(es, stamp) && s <= es.Keys
    requires forall q :: q in s ==> Slack(es, m, q) >= 0
    ensures Gap(es, m, s) >= 0
    decreases s
  {
    if s == {} {
      GapOfNone(es, m);
    } else {
      var q :| q in s;
      var rest := s - {q};
      assert rest + {q} == s;
      GapNonNegative(es, stamp, m, rest);
      GapGrows(es, stamp, m, rest, q);
    }
  }

  ghost predicate NoSharedAncestors(es: Table, s: set<Txid>) {
    forall q, r :: q in s && r in s && q != r ==> Family(es, q) !! Family(es, r)
  }

  ghost predicate CountsExact(es: Table, s: set<Txid>)
    requires s <= es.Keys
  {
    forall q :: q in s ==> Slack(es, Count, q) == 0
  }

  /** Counting by direct parents is exact if and only if every parent's own count is exact and
      no two parents share family: diamonds are what it over-counts. */
  lemma {:induction false} CountGapZero(es: Table, stamp: map<Txid, nat>, s: set<Txid>)
    requires Links(es, stamp) && s <= es.Keys
    requires forall q :: q in s ==> Slack(es, Count, q) >= 0
    ensures Gap(es, Count, s) == 0 <==> CountsExact(es, s) && NoSharedAncestors(es, s)
    decreases s
  {
    if s == {} {
      GapOfNone(es, Count);
    } else {
      var q :| q in s;
      var rest := s - {q};
      assert rest + {q} == s;
      CountGapZero(es, stamp, rest);
      CountGapStep(es, stamp, rest, q);
      NoSharedStep(es, rest, q);
      CountsExactStep(es, rest, q);
    }
  }

  lemma CountsExactStep(es: Table, rest: set<Txid>, q: Txid)
    requires rest <= es.Keys && q in es
    ensures CountsExact(es, rest + {q}) <==> CountsExact(es, rest) && Slack(es, Count, q) == 0
  {
    assert forall r :: r in rest + {q} <==> r in rest || r == q;
  }

  lemma CountGapStep(es: Table, stamp: map<Txid, nat>, rest: set<Txid>, q: Txid)
    requires Links(es, stamp) && rest <= es.Keys && q in es && q !in rest && Slack(es, Count, q) >= 0
    requires forall r :: r in rest ==> Slack(es, Count, r) >= 0
    ensures Gap(es, Count, rest + {q}) == 0
            <==> Gap(es, Count, rest) == 0 && Slack(es, Count, q) == 0 && DisjointFromAll(es, rest, q)
  {
    GapNonNegative(es, stamp, Count, rest);
    GapStep(es, stamp, Count, rest, q);
    CountOfShared(es, rest, q);
  }

  ghost predicate DisjointFromAll(es: Table, rest: set<Txid>, q: Txid) {
    forall r :: r in rest ==> Family(es, q) !! Family(es, r)
  }

  lemma CountOfShared(es: Table, rest: set<Txid>, q: Txid)
    requires rest <= es.Keys && q in es
    ensures Sum(WithAncestors(es, rest) * Family(es, q), OwnOf(es, Count)) >= 0
    ensures Sum(WithAncestors(es, rest) * Family(es, q), OwnOf(es, Count)) == 0
            <==> DisjointFromAll(es, rest, q)
  {
    SumOnes(WithAncestors(es, rest) * Family(es, q), OwnOf(es, Count));
    SharedWithRest(es, rest, q);
  }

  lemma NoSharedStep(es: Table, rest: set<Txid>, q: Txid)
    requires q !in rest
    ensures NoSharedAncestors(es, rest + {q})
            <==> NoSharedAncestors(es, rest) && DisjointFromAll(es, rest, q)
  {
    if NoSharedAncestors(es, rest) && DisjointFromAll(es, rest, q) {
      forall x, y | x in rest + {q} && y in rest + {q} && x != y
        ensures Family(es, x) !! Family(es, y)
      {
        assert x == q || y == q || (x in rest && y in rest);
      }
    }
  }

  lemma SharedWithRest(es: Table, rest: set<Txid>, q: Txid)
    requires rest <= es.Keys && q in es
    ensures WithAncestors(es, rest) * Family(es, q) == {} <==> DisjointFromAll(es, rest, q)
  {
    forall r, a | r in rest && a in Family(es, r)
      ensures a in WithAncestors(es, rest)
    {
    }
    forall a | a in WithAncestors(es, rest) * Family(es, q)
      ensures exists r :: r in rest && !(Family(es, q) !! Family(es, r))
    {
      var r :| r in rest && a in Family(es, r);
      assert a in Family(es, q) * Family(es, r);
    }
    if r :| r in rest && !(Family(es, q) !! Family(es, r)) {
      var a :| a in Family(es, q) && a in Family(es, r);
      assert a in WithAncestors(es, rest) * Family(es, q);
    }
  }

  lemma JoinAncestorsOfNew(es: Table, es': Table, stamp: map<Txid, nat>, t: Txid, e: Entry)
    requires Links(es, stamp) && Joined(es, es', t, e) && ReadyToJoin(es, e) && t == e.tx.txid
    ensures Ancestors(es', t) == WithAncestors(es, e.parents)
  {
    forall x | x in es
      ensures es'[x].parents == es[x].parents
    {
      assert JoinedTo(x, es[x], es'[x], t, e);
    }
    forall a
      ensures a in Ancestors(es', t) <==> a in WithAncestors(es, e.parents)
    {
      AncestorUnfold(es', a, t);
      forall q | q in e.parents
        ensures a in Ancestors(es', q) <==> a in Ancestors(es, q)
      {
        AncestorsKept(es, es', stamp, q);
      }
      if a in Ancestors(es', t) && a !in e.parents {
        var q :| q in e.parents && IsAncestor(es', a, q);
        assert a in Ancestors(es', q);
      }
      if a in WithAncestors(es, e.parents) && a !in e.parents {
        var q :| q in e.parents && IsAncestor(es, a, q);
        assert a in Ancestors(es, q);
      }
    }
  }

  lemma JoinKeepsOwn(es: Table, es': Table, t: Txid, e: Entry, m: Metric, s: set<Txid>)
    requires Joined(es, es', t, e) && s <= es.Keys
    ensures Sum(s, OwnOf(es', m)) == Sum(s, OwnOf(es, m))
  {
    forall y | y in s
      ensures At(OwnOf(es, m), y) == At(OwnOf(es', m), y)
    {
      assert JoinedTo(y, es[y], es'[y], t, e);
    }
    SumCongruent(s, OwnOf(es, m), OwnOf(es', m));
  }

  /** Insertion leaves everyone else's slack alone ... */
  lemma JoinSlackOfOld(es: Table, es': Table, stamp: map<Txid, nat>, t: Txid, e: Entry, m: Metric, x: Txid)
    requires Links(es, stamp) && Joined(es, es', t, e) && x in es
    ensures Slack(es', m, x) == Slack(es, m, x)
  {
    assert forall y :: y in es ==> JoinedTo(y, es[y], es'[y], t, e);
    AncestorsKept(es, es', stamp, x);
    JoinKeepsOwn(es, es', t, e, m, Ancestors(es, x));
  }

  /** ... and gives the new entry the gap of its parents. */
  lemma JoinSlackOfNew(es: Table, es': Table, stamp: map<Txid, nat>, t: Txid, e: Entry, m: Metric)
    requires Links(es, stamp) && Joined(es, es', t, e) && ReadyToJoin(es, e) && t == e.tx.txid
    ensures Slack(es', m, t) == Gap(es, m, e.parents)
  {
    JoinAncestorsOfNew(es, es', stamp, t, e);
    JoinKeepsOwn(es, es', t, e, m, WithAncestors(es, e.parents));
  }

  lemma JoinCovered(es: Table, es': Table, stamp: map<Txid, nat>, t: Txid, e: Entry)
    requires Links(es, stamp) && AncestorsCovered(es) && Joined(es, es', t, e) && ReadyToJoin(es, e) && t == e.tx.txid
    ensures AncestorsCovered(es')
  {
    forall m, x | x in es'
      ensures Slack(es', m, x) >= 0
    {
      if x == t {
        JoinSlackOfNew(es, es', stamp, t, e, m);
        assert forall q :: q in e.parents ==> Slack(es, m, q) >= 0;
        GapNonNegative(es, stamp, m, e.parents);
      } else {
        JoinSlackOfOld(es, es', stamp, t, e, m, x);
        assert Slack(es, m, x) >= 0;
      }
    }
  }

  lemma JoinLimits(policy: Policy, es: Table, es': Table, t: Txid, e: Entry)
    requires WithinLimits(policy, es) && Joined(es, es', t, e)
    requires CheckAncestorLimits(policy, e.ancestorCount, e.ancestorSize).Pass?
    ensures WithinLimits(policy, es')
  {
    forall x | x in es
      ensures CheckAncestorLimits(policy, es'[x].ancestorCount, es'[x].ancestorSize).Pass?
    {
      assert JoinedTo(x, es[x], es'[x], t, e);
      assert Recorded(Count, es'[x]) == Recorded(Count, es[x]);
      assert Recorded(Size, es'[x]) == Recorded(Size, es[x]);
    }
  }

  lemma JoinSound(policy: Policy, es: Table, es': Table, t: Txid, e: Entry)
    requires EntriesSound(es) && FeesAcceptable(policy, es)
    requires Joined(es, es', t, e) && ReadyToJoin(es, e) && t == e.tx.txid && IsFeeAcceptable(policy, e.feeRate)
    ensures EntriesSound(es') && FeesAcceptable(policy, es')
  {
    assert forall x :: x in es ==> JoinedTo(x, es[x], es'[x], t, e);
  }

  /** Insertion of an accepted, linked entry keeps the whole invariant. */
  lemma InsertedKeepsInv(policy: Policy, p: Pool, stamp: map<Txid, nat>, now: nat, e: Entry)
    requires Inv(policy, p, stamp) && ReadyToJoin(p.entries, e)
    requires Outpoints(e.tx) !! p.spends.Keys
    requires CheckAncestorLimits(policy, e.ancestorCount, e.ancestorSize).Pass?
    requires IsFeeAcceptable(policy, e.feeRate)
    requires forall x :: x in stamp ==> stamp[x] < now
    ensures Inv(policy, Inserted(p, e), stamp[e.tx.txid := now])
  {
    InsertedJoins(p, e);
    JoinSpends(p, Inserted(p, e).entries, e);
    JoinKeepsInv(policy, p, Inserted(p, e), stamp, now, e);
  }

  lemma JoinKeepsInv(policy: Policy, p: Pool, p': Pool, stamp: map<Txid, nat>, now: nat, e: Entry)
    requires Inv(policy, p, stamp) && ReadyToJoin(p.entries, e)
    requires Joined(p.entries, p'.entries, e.tx.txid, e) && SpendsExact(p'.entries, p'.spends)
    requires p'.totalSize == p.totalSize + e.vsize && p'.totalFees == p.totalFees + e.fee
    requires CheckAncestorLimits(policy, e.ancestorCount, e.ancestorSize).Pass?
    requires IsFeeAcceptable(policy, e.feeRate)
    requires forall x :: x in stamp ==> stamp[x] < now
    ensures Inv(policy, p', stamp[e.tx.txid := now])
  {
    JoinKeepsTotals(policy, p.entries, p'.entries, stamp, e);
    JoinKeepsViews(policy, p, p', stamp, now, e);
  }

  lemma JoinKeepsViews(policy: Policy, p: Pool, p': Pool, stamp: map<Txid, nat>, now: nat, e: Entry)
    requires ViewsAgree(p, stamp) && ReadyToJoin(p.entries, e)
    requires FeesAcceptable(policy, p.entries) && IsFeeAcceptable(policy, e.feeRate)
    requires Joined(p.entries, p'.entries, e.tx.txid, e) && SpendsExact(p'.entries, p'.spends)
    requires p'.totalSize == p.totalSize + e.vsize && p'.totalFees == p.totalFees + e.fee
    requires forall x :: x in stamp ==> stamp[x] < now
    ensures ViewsAgree(p', stamp[e.tx.txid := now])
  {
    JoinLinks(p.entries, p'.entries, stamp, now, e.tx.txid, e);
    JoinTotalsExact(p, p', e);
    JoinSound(policy, p.entries, p'.entries, e.tx.txid, e);
  }

  lemma JoinTotalsExact(p: Pool, p': Pool, e: Entry)
    requires TotalsExact(p) && Joined(p.entries, p'.entries, e.tx.txid, e)
    requires p'.totalSize == p.totalSize + e.vsize && p'.totalFees == p.totalFees + e.fee
    ensures TotalsExact(p')
  {
    JoinPoolTotal(p.entries, p'.entries, Size, e.tx.txid, e);
    JoinPoolTotal(p.entries, p'.entries, Fees, e.tx.txid, e);
  }

  lemma JoinKeepsTotals(policy: Policy, es: Table, es': Table, stamp: map<Txid, nat>, e: Entry)
    requires EntriesSound(es) && Links(es, stamp) && TotalsSound(policy, es) && ReadyToJoin(es, e)
    requires Joined(es, es', e.tx.txid, e)
    requires CheckAncestorLimits(policy, e.ancestorCount, e.ancestorSize).Pass?
    requires IsFeeAcceptable(policy, e.feeRate)
    ensures TotalsSound(policy, es')
  {
    var t := e.tx.txid;
    JoinDescendants(es, es', t, e);
    JoinCovered(es, es', stamp, t, e);
    JoinLimits(policy, es, es', t, e);
    JoinSound(policy, es, es', t, e);
  }

  /** Some number is above every stamp in use. */
  lemma {:induction false} FreshStamp(stamp: map<Txid, nat>) returns (now: nat)
    ensures forall x :: x in stamp ==> stamp[x] < now
    decreases |stamp|
  {
    if stamp == map[] {
      now := 0;
    } else {
      var x :| x in stamp;
      var rest := FreshStamp(stamp - {x});
      now := rest + stamp[x] + 1;
      assert forall y :: y in stamp ==> y == x || y in stamp - {x};
    }
  }

  lemma InsertedSound(policy: Policy, p: Pool, e: Entry)
    requires Sound(policy, p) && ReadyToJoin(p.entries, e) && Outpoints(e.tx) !! p.spends.Keys
    requires CheckAncestorLimits(policy, e.ancestorCount, e.ancestorSize).Pass? && IsFeeAcceptable(policy, e.feeRate)
    ensures Sound(policy, Inserted(p, e))
  {
    var stamp :| Inv(policy, p, stamp);
    var now := FreshStamp(stamp);
    InsertedKeepsInv(policy, p, stamp, now, e);
  }

  /** Removing what was just inserted gives back the same pool, in every view. */
  lemma RemoveUndoesInsert(policy: Policy, p: Pool, stamp: map<Txid, nat>, e: Entry)
    requires Inv(policy, p, stamp) && ReadyToJoin(p.entries, e)
    requires Outpoints(e.tx) !! p.spends.Keys
    ensures Removed(Inserted(p, e), e.tx.txid) == p
  {
    UnlinkUndoesLink(p.entries, e.parents, e.tx.txid, e);
    RemovedTable(p.entries, e.parents, e.tx.txid, e);
    SpendsRestored(p, e);
  }

  lemma RemovedTable(es: Table, parents: set<Txid>, t: Txid, e: Entry)
    requires t !in es
    ensures LinkToParents(es, parents, t, e)[t := e] - {t} == LinkToParents(es, parents, t, e)
    ensures UnlinkFromChildren(es, {}, t, e) == es
  {
  }

  lemma SpendsRestored(p: Pool, e: Entry)
    requires Outpoints(e.tx) !! p.spends.Keys
    ensures Inserted(p, e).spends - Outpoints(e.tx) == p.spends
  {
  }

  lemma UnlinkUndoesLink(es: Table, parents: set<Txid>, t: Txid, e: Entry)
    requires forall x :: x in es ==> t !in es[x].children
    ensures UnlinkFromParents(LinkToParents(es, parents, t, e), parents, t, e) == es
  {
    forall x | x in es
      ensures WithoutChild(WithChild(es[x], t, e), t, e) == es[x]
    {
      assert es[x].children + {t} - {t} == es[x].children;
    }
  }
}
