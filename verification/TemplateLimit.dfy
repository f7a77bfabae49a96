/** When the block template respects its weight limit, and when it lists parents first. */
module TemplateLimit {
  import opened Policy
  import opened Entries
  import opened Lists
  import opened Pools
  import opened Ancestry
  import opened AncestorWalk
  import opened PoolInsertion
  import opened BlockTemplate

  ghost predicate AncestorsBefore(es: Table, order: seq<Txid>, i: nat)
    requires i < |order|
  {
    Ancestors(es, order[i]) <= Elements(order[..i])
  }

  /** The order puts every transaction after all of its ancestors. */
  ghost predicate AncestorsFirst(es: Table, order: seq<Txid>) {
    forall i :: 0 <= i < |order| ==> AncestorsBefore(es, order, i)
  }

  /** When ancestors have had their turn, nothing is ever missing from a transaction that is taken. */
  lemma {:induction false} NothingMissing(es: Table, stamp: map<Txid, nat>, lists: map<Txid, seq<Txid>>,
                                          order: seq<Txid>, maxWeight: nat, i: nat)
    requires Inputs(es, stamp, lists, order) && i < |order| && AncestorsBefore(es, order, i)
    requires Takes(es, maxWeight, Template(es, lists, order, maxWeight, i), ListFor(lists, order[i]), order[i])
    ensures Missing(Template(es, lists, order, maxWeight, i), ListFor(lists, order[i])) == []
  {
    var template, t, list := Template(es, lists, order, maxWeight, i), order[i], ListFor(lists, order[i]);
    ListForIsListing(es, lists, t);
    MissingExact(template, list);
    forall a | a in Ancestors(es, t)
      ensures a in Elements(template)
    {
      if a !in template {
        var j :| 0 <= j < |order[..i]| && order[..i][j] == a;
        var b := TemplateMaximal(es, stamp, lists, order, maxWeight, i, j);
        FamilyOfAncestor(es, stamp, a, b, t);
        assert b in Elements(list);
        var k :| 0 <= k < |list| && list[k] == b;
        NotBlocked(es, maxWeight, template, list, k);
        assert false;
      }
    }
    NoElements(Missing(template, list));
  }

  lemma FamilyOfAncestor(es: Table, stamp: map<Txid, nat>, a: Txid, b: Txid, t: Txid)
    requires Links(es, stamp) && a in Ancestors(es, t) && b in Family(es, a)
    ensures b in Ancestors(es, t)
  {
    AncestorsOfAncestor(es, stamp, a, t);
  }

  /** An order with ancestors first gives a template within the limit, whatever the limit. */
  lemma {:induction false} FitsWhenAncestorsFirst(es: Table, stamp: map<Txid, nat>, lists: map<Txid, seq<Txid>>,
                                                  order: seq<Txid>, maxWeight: nat, n: nat)
    requires Inputs(es, stamp, lists, order) && n <= |order| && AncestorsFirst(es, order)
    ensures WeightOf(es, Template(es, lists, order, maxWeight, n)) <= maxWeight
  {
    if n > 0 {
      FitsWhenAncestorsFirst(es, stamp, lists, order, maxWeight, n - 1);
      assert AncestorsBefore(es, order, n - 1);
      FitsNext(es, stamp, lists, order, maxWeight, n - 1);
    }
  }

  lemma {:induction false} FitsNext(es: Table, stamp: map<Txid, nat>, lists: map<Txid, seq<Txid>>,
                                    order: seq<Txid>, maxWeight: nat, i: nat)
    requires Inputs(es, stamp, lists, order) && i < |order| && AncestorsBefore(es, order, i)
    requires WeightOf(es, Template(es, lists, order, maxWeight, i)) <= maxWeight
    ensures WeightOf(es, Template(es, lists, order, maxWeight, i + 1)) <= maxWeight
  {
    var before := Template(es, lists, order, maxWeight, i);
    if Takes(es, maxWeight, before, ListFor(lists, order[i]), order[i]) {
      NothingMissing(es, stamp, lists, order, maxWeight, i);
      assert before + [] + [order[i]] == before + [order[i]];
      WeightOfAppend(es, before, [order[i]]);
    }
  }

  // ---------------------------------------------------------------- the converse

  ghost predicate PositiveWeights(es: Table) {
    forall t :: t in es ==> es[t].tx.weight > 0
  }

  lemma {:induction false} WeightOfPrefix(es: Table, order: seq<Txid>, i: nat, n: nat)
    requires i <= n <= |order|
    ensures WeightOf(es, order[..i]) <= WeightOf(es, order[..n])
  {
    assert order[..n] == order[..i] + order[i..n];
    WeightOfAppend(es, order[..i], order[i..n]);
  }

  /** With room for all of them, the turns before `n` take everything, in order. */
  lemma {:induction false} TakesPrefix(es: Table, lists: map<Txid, seq<Txid>>, order: seq<Txid>, maxWeight: nat, n: nat)
    requires AreListings(es, lists) && AllIn(es, order) && NoRepeats(order) && n <= |order|
    requires forall i :: 0 <= i < n ==> AncestorsBefore(es, order, i)
    requires WeightOf(es, order[..n]) <= maxWeight
    ensures Template(es, lists, order, maxWeight, n) == order[..n]
  {
    if n > 0 {
      WeightOfPrefix(es, order, n - 1, n);
      TakesPrefix(es, lists, order, maxWeight, n - 1);
      var t, list := order[n - 1], ListFor(lists, order[n - 1]);
      ListForIsListing(es, lists, t);
      assert AncestorsBefore(es, order, n - 1);
      TakesNext(es, maxWeight, order[..n - 1], list, t);
      assert order[..n] == order[..n - 1] + [t];
      WeightOfAppend(es, order[..n - 1], [t]);
    }
  }

  lemma {:induction false} TakesNext(es: Table, maxWeight: nat, template: seq<Txid>, list: seq<Txid>, t: Txid)
    requires Elements(list) <= Elements(template)
    ensures !Blocked(es, maxWeight, template, list)
    ensures Missing(template, list) == []
  {
    MissingExact(template, list);
    NoElements(Missing(template, list));
    forall k | 0 <= k < |list|
      ensures list[k] in template
    {
      assert list[k] in Elements(list);
    }
    NotBlockedIf(es, maxWeight, template, list);
  }

  lemma {:induction false} NotBlockedIf(es: Table, maxWeight: nat, template: seq<Txid>, list: seq<Txid>)
    requires forall k :: 0 <= k < |list| && list[k] !in template ==>
               WeightOf(es, template) + WeightAt(es, list[k]) <= maxWeight
    ensures !Blocked(es, maxWeight, template, list)
  {
    if list != [] {
      assert forall k :: 0 <= k < |list[1..]| ==> list[1..][k] == list[k + 1];
      NotBlockedIf(es, maxWeight, template, list[1..]);
    }
  }

  /** The heaviest of a non-empty list. */
  lemma {:induction false} Heaviest(es: Table, ts: seq<Txid>) returns (k: nat)
    requires ts != []
    ensures k < |ts| && forall i :: 0 <= i < |ts| ==> WeightAt(es, ts[i]) <= WeightAt(es, ts[k])
  {
    k := 0;
    if |ts| > 1 {
      var k' := Heaviest(es, ts[1..]);
      assert forall i :: 1 <= i < |ts| ==> ts[i] == ts[1..][i - 1];
      k := if WeightAt(es, ts[0]) >= WeightAt(es, ts[k' + 1]) then 0 else k' + 1;
    }
  }

  lemma {:induction false} WeightOfAtLeast(es: Table, ts: seq<Txid>, k: nat)
    requires k < |ts|
    ensures WeightOf(es, ts) >= WeightAt(es, ts[k])
  {
    if k > 0 {
      WeightOfAtLeast(es, ts[1..], k - 1);
    }
  }

  /** If `order[i]` is the first to come before one of its ancestors, then with exactly enough room
      for the heaviest of it and its missing ancestors, all of them are taken and overshoot. */
  lemma {:induction false} Overshoots(es: Table, stamp: map<Txid, nat>, lists: map<Txid, seq<Txid>>, order: seq<Txid>,
                                      i: nat)
    returns (maxWeight: nat)
    requires Inputs(es, stamp, lists, order) && NoRepeats(order) && PositiveWeights(es)
    requires i < |order| && !AncestorsBefore(es, order, i)
    requires forall j :: 0 <= j < i ==> AncestorsBefore(es, order, j)
    ensures WeightOf(es, Template(es, lists, order, maxWeight, |order|)) > maxWeight
  {
    var before, t, list := order[..i], order[i], ListFor(lists, order[i]);
    ListForIsListing(es, lists, t);
    var missing := Missing(before, list);
    MissingExact(before, list);
    assert missing != [] by {
      var a :| a in Ancestors(es, t) && a !in Elements(before);
      assert a in Elements(missing);
    }
    var k := Heaviest(es, missing + [t]);
    maxWeight := WeightOf(es, before) + WeightAt(es, (missing + [t])[k]);
    TakesPrefix(es, lists, order, maxWeight, i);
    OvershootTurn(es, maxWeight, before, list, t, k);
    TemplateGrows(es, lists, order, maxWeight, i + 1, |order|);
  }

  lemma {:induction false} OvershootTurn(es: Table, maxWeight: nat, before: seq<Txid>, list: seq<Txid>, t: Txid, k: nat)
    requires IsListing(es, t, list) && t !in before && LinksClosed(es) && PositiveWeights(es)
    requires Missing(before, list) != []
    requires k < |Missing(before, list) + [t]|
    requires forall i :: 0 <= i < |Missing(before, list) + [t]| ==>
               WeightAt(es, (Missing(before, list) + [t])[i]) <= WeightAt(es, (Missing(before, list) + [t])[k])
    requires maxWeight == WeightOf(es, before) + WeightAt(es, (Missing(before, list) + [t])[k])
    ensures WeightOf(es, Extended(es, maxWeight, before, list, t)) > maxWeight
  {
    var missing := Missing(before, list);
    var added := missing + [t];
    MissingExact(before, list);
    assert added[|missing|] == t;
    forall j | 0 <= j < |list| && list[j] !in before
      ensures WeightOf(es, before) + WeightAt(es, list[j]) <= maxWeight
    {
      assert list[j] in Elements(list) && list[j] !in Elements(before);
      assert list[j] in Elements(missing);
      var j' :| 0 <= j' < |missing| && missing[j'] == list[j];
      assert added[j'] == list[j];
    }
    NotBlockedIf(es, maxWeight, before, list);
    assert Takes(es, maxWeight, before, list, t);
    assert before + missing + [t] == before + added;
    WeightOfAppend(es, before, added);
    WeightOfAppend(es, missing, [t]);
    assert missing[0] in Elements(missing);
    assert missing[0] in Ancestors(es, t);
    if k < |missing| {
      assert added[k] == missing[k];
      WeightOfAtLeast(es, missing, k);
    } else {
      WeightOfAtLeast(es, missing, 0);
    }
  }

  lemma {:induction false} FirstOutOfOrder(es: Table, order: seq<Txid>, n: nat) returns (i: nat)
    requires n <= |order|
    requires exists j :: 0 <= j < n && !AncestorsBefore(es, order, j)
    ensures i < n && !AncestorsBefore(es, order, i)
    ensures forall j :: 0 <= j < i ==> AncestorsBefore(es, order, j)
  {
    if exists j :: 0 <= j < n - 1 && !AncestorsBefore(es, order, j) {
      i := FirstOutOfOrder(es, order, n - 1);
    } else {
      i := n - 1;
    }
  }

  /** The template stays within its weight limit, for every limit, if and only if the order it works
      through puts each transaction after all of its in-pool ancestors. */
  lemma {:induction false} WithinLimitIff(es: Table, stamp: map<Txid, nat>, lists: map<Txid, seq<Txid>>,
                                          order: seq<Txid>)
    requires Inputs(es, stamp, lists, order) && NoRepeats(order) && PositiveWeights(es)
    ensures (forall w: nat :: WeightOf(es, Template(es, lists, order, w, |order|)) <= w) <==> AncestorsFirst(es, order)
  {
    if AncestorsFirst(es, order) {
      forall w: nat
        ensures WeightOf(es, Template(es, lists, order, w, |order|)) <= w
      {
        FitsWhenAncestorsFirst(es, stamp, lists, order, w, |order|);
      }
    } else {
      var i := FirstOutOfOrder(es, order, |order|);
      var w := Overshoots(es, stamp, lists, order, i);
    }
  }

  // ---------------------------------------------------------------- orders by ancestor fee rate

  /** Every transaction has a lower ancestor fee rate than each of its ancestors: recorded ancestor fees over
      recorded ancestor size, in whole satoshis. */
  ghost predicate RatesFall(es: Table) {
    forall t, a :: t in es && a in Ancestors(es, t) ==>
      es[a].ancestorFees / Max(es[a].ancestorSize, 1) > es[t].ancestorFees / Max(es[t].ancestorSize, 1)
  }

  lemma RatesFallMeans(es: Table)
    ensures RatesFall(es)
            <==> forall t, a :: t in es && a in Ancestors(es, t) ==> AncestorFeeRate(es[a]) > AncestorFeeRate(es[t])
  {
  }

  /** A list in descending ancestor fee rate. */
  ghost predicate Descends(es: Table, order: seq<Txid>) {
    && AllIn(es, order)
    && forall i, j :: 0 <= i < j < |order| ==> AncestorFeeRate(es[order[i]]) >= AncestorFeeRate(es[order[j]])
  }

  /** A transaction can be put into a descending list before everything that does not pay more. */
  lemma {:induction false} DescendsWith(es: Table, order: seq<Txid>, t: Txid) returns (all: seq<Txid>, k: nat)
    requires Descends(es, order) && NoRepeats(order) && t in es && t !in order
    ensures Descends(es, all) && NoRepeats(all) && Elements(all) == Elements(order) + {t}
    ensures k < |all| && all[k] == t && forall i :: 0 <= i < k ==> AncestorFeeRate(es[all[i]]) > AncestorFeeRate(es[t])
  {
    if order == [] || AncestorFeeRate(es[order[|order| - 1]]) > AncestorFeeRate(es[t]) {
      all, k := order + [t], |order|;
      ElementsAppended(order, t);
    } else {
      var last := order[|order| - 1];
      var front := order[..|order| - 1];
      assert order == front + [last];
      ElementsAppended(front, last);
      var rest;
      rest, k := DescendsWith(es, front, t);
      all := rest + [last];
      ElementsAppended(rest, last);
      NoRepeatsConcat(front, [last]);
      ElementsSingle(last);
      NoRepeatsAppended(rest, last);
      LastDescends(es, order, rest, last, t);
    }
  }

  lemma LastDescends(es: Table, order: seq<Txid>, rest: seq<Txid>, last: Txid, t: Txid)
    requires Descends(es, order) && order != [] && last == order[|order| - 1] && Descends(es, rest) && t in es
    requires Elements(rest) == Elements(order[..|order| - 1]) + {t}
             && AncestorFeeRate(es[last]) <= AncestorFeeRate(es[t])
    ensures Descends(es, rest + [last])
  {
    forall i | 0 <= i < |rest|
      ensures AncestorFeeRate(es[rest[i]]) >= AncestorFeeRate(es[last])
    {
      assert rest[i] in Elements(rest);
      if rest[i] != t {
        var j :| 0 <= j < |order| - 1 && order[j] == rest[i];
      }
    }
  }

  lemma {:induction false} DescendingExists(es: Table, s: set<Txid>) returns (order: seq<Txid>)
    requires s <= es.Keys
    ensures Descends(es, order) && NoRepeats(order) && Elements(order) == s
    decreases s
  {
    if s == {} {
      order := [];
    } else {
      var t :| t in s;
      var rest := DescendingExists(es, s - {t});
      var k;
      order, k := DescendsWith(es, rest, t);
    }
  }

  /** Some order by ancestor fee rate puts `t` before everything that does not pay more than it. */
  lemma {:induction false} OrderPrefers(es: Table, t: Txid, a: Txid) returns (order: seq<Txid>)
    requires t in es && a in Ancestors(es, t) && a != t && AncestorFeeRate(es[a]) <= AncestorFeeRate(es[t])
    ensures ByAncestorRate(es, order) && !AncestorsFirst(es, order)
  {
    var rest := DescendingExists(es, es.Keys - {t});
    var k;
    order, k := DescendsWith(es, rest, t);
    assert es.Keys - {t} + {t} == es.Keys;
    assert !AncestorsBefore(es, order, k);
  }

  lemma {:induction false} FallingRatesFirst(es: Table, order: seq<Txid>, i: nat)
    requires ByAncestorRate(es, order) && RatesFall(es) && i < |order|
    ensures AncestorsBefore(es, order, i)
  {
    RatesFallMeans(es);
    forall a | a in Ancestors(es, order[i])
      ensures a in Elements(order[..i])
    {
      assert a in Elements(order);
      var j :| 0 <= j < |order| && order[j] == a;
      assert AncestorFeeRate(es[a]) > AncestorFeeRate(es[order[i]]);
      assert j < i;
      assert order[..i][j] == a;
    }
  }

  /** However ties are broken, sorting by ancestor fee rate puts ancestors first if and only if every
      transaction pays a lower ancestor fee rate than each of its ancestors. */
  lemma {:induction false} AncestorsFirstIff(es: Table, stamp: map<Txid, nat>)
    requires Links(es, stamp)
    ensures (forall order :: ByAncestorRate(es, order) ==> AncestorsFirst(es, order)) <==> RatesFall(es)
  {
    RatesFallMeans(es);
    if RatesFall(es) {
      forall order | ByAncestorRate(es, order)
        ensures AncestorsFirst(es, order)
      {
        forall i | 0 <= i < |order|
          ensures AncestorsBefore(es, order, i)
        {
          FallingRatesFirst(es, order, i);
        }
      }
    } else {
      var t, a :| t in es && a in Ancestors(es, t) && AncestorFeeRate(es[a]) <= AncestorFeeRate(es[t]);
      NotOwnAncestor(es, stamp, t);
      var order := OrderPrefers(es, t, a);
    }
  }
}
