/** The greedy block template (src/mempool/txmempool.rs, get_block_template) as a fold over the
    pool in descending ancestor fee rate, and what it guarantees. */
module BlockTemplate {
  import opened Entries
  import opened FiniteSets
  import opened Lists
  import opened Pools
  import opened Ancestry
  import opened AncestorWalk
  import opened PoolInsertion

  predicate ByAncestorRate(es: Table, order: seq<Txid>) {
    && NoRepeats(order)
    && Elements(order) == es.Keys
    && AllIn(es, order)
    && forall i, j :: 0 <= i < j < |order| ==> AncestorFeeRate(es[order[i]]) >= AncestorFeeRate(es[order[j]])
  }

  predicate AllIn(es: Table, order: seq<Txid>) {
    forall i :: 0 <= i < |order| ==> order[i] in es
  }

  function WeightAt(es: Table, t: Txid): nat {
    if t in es then es[t].tx.weight else 0
  }

  function WeightOf(es: Table, ts: seq<Txid>): nat {
    if ts == [] then 0 else WeightAt(es, ts[0]) + WeightOf(es, ts[1..])
  }

  /** The members of `list` that are not in the template yet, each once, in order. */
  function Missing(template: seq<Txid>, list: seq<Txid>): seq<Txid>
    decreases |list|
  {
    if list == [] then []
    else if list[0] in template then Missing(template, list[1..])
    else [list[0]] + Missing(template + [list[0]], list[1..])
  }

  /** Some missing ancestor does not fit on top of the current weight by itself. */
  predicate Blocked(es: Table, maxWeight: nat, template: seq<Txid>, list: seq<Txid>) {
    list != [] &&
    ((list[0] !in template && WeightOf(es, template) + WeightAt(es, list[0]) > maxWeight)
     || Blocked(es, maxWeight, template, list[1..]))
  }

  /** `t` is taken at its turn: it is not in yet, and it and each missing ancestor, taken one at a
      time, fit on top of the current weight. */
  predicate Takes(es: Table, maxWeight: nat, template: seq<Txid>, list: seq<Txid>, t: Txid) {
    && t !in template
    && WeightOf(es, template) + WeightAt(es, t) <= maxWeight
    && !Blocked(es, maxWeight, template, list)
  }

  function Extended(es: Table, maxWeight: nat, template: seq<Txid>, list: seq<Txid>, t: Txid): seq<Txid> {
    if Takes(es, maxWeight, template, list, t) then template + Missing(template, list) + [t] else template
  }

  function ListFor(lists: map<Txid, seq<Txid>>, t: Txid): seq<Txid> {
    if t in lists then lists[t] else []
  }

  /** The template after the first `n` turns. */
  function Template(es: Table, lists: map<Txid, seq<Txid>>, order: seq<Txid>, maxWeight: nat, n: nat): seq<Txid>
    requires n <= |order|
  {
    if n == 0 then []
    else Extended(es, maxWeight, Template(es, lists, order, maxWeight, n - 1), ListFor(lists, order[n - 1]),
                  order[n - 1])
  }

  lemma {:induction false} ListForIsListing(es: Table, lists: map<Txid, seq<Txid>>, t: Txid)
    requires AreListings(es, lists) && t in es
    ensures IsListing(es, t, ListFor(lists, t))
  {
  }

  // ---------------------------------------------------------------- one turn

  lemma {:induction false} BlockedBy(es: Table, maxWeight: nat, template: seq<Txid>, list: seq<Txid>) returns (k: nat)
    requires Blocked(es, maxWeight, template, list)
    ensures k < |list| && list[k] !in template && WeightOf(es, template) + WeightAt(es, list[k]) > maxWeight
  {
    if list[0] !in template && WeightOf(es, template) + WeightAt(es, list[0]) > maxWeight {
      k := 0;
    } else {
      var k' := BlockedBy(es, maxWeight, template, list[1..]);
      k := k' + 1;
    }
  }

  lemma {:induction false} NotBlocked(es: Table, maxWeight: nat, template: seq<Txid>, list: seq<Txid>, k: nat)
    requires !Blocked(es, maxWeight, template, list) && k < |list| && list[k] !in template
    ensures WeightOf(es, template) + WeightAt(es, list[k]) <= maxWeight
  {
    if k > 0 {
      NotBlocked(es, maxWeight, template, list[1..], k - 1);
    }
  }

  lemma {:induction false} WeightOfAppend(es: Table, a: seq<Txid>, b: seq<Txid>)
    ensures WeightOf(es, a + b) == WeightOf(es, a) + WeightOf(es, b)
  {
    if a == [] {
      assert a + b == b;
    } else {
      WeightOfAppend(es, a[1..], b);
      assert (a + b)[1..] == a[1..] + b;
    }
  }

  lemma {:induction false} MissingExact(template: seq<Txid>, list: seq<Txid>)
    ensures Elements(Missing(template, list)) == Elements(list) - Elements(template)
    ensures NoRepeats(template) ==> NoRepeats(template + Missing(template, list))
    decreases |list|
  {
    if list == [] {
      assert template + [] == template;
      assert Elements(list) == {};
    } else {
      ElementsStep(list);
      var x := list[0];
      if x in template {
        assert x in Elements(template);
        MissingExact(template, list[1..]);
      } else {
        var more := Missing(template + [x], list[1..]);
        MissingExact(template + [x], list[1..]);
        ElementsConcat(template, [x]);
        ElementsConcat([x], more);
        ElementsSingle(x);
        assert template + [x] + more == template + ([x] + more);
        assert NoRepeats(template) ==> NoRepeats(template + [x]);
      }
    }
  }

  /** Nothing is taken twice, so no more is taken than there are distinct members. */
  lemma {:induction false} MissingCount(template: seq<Txid>, list: seq<Txid>)
    ensures |Missing(template, list)| <= |Elements(list)|
    ensures |Missing(template, list)| <= |Elements(list) - Elements(template)|
    decreases |list|
  {
    if list == [] {
    } else {
      ElementsStep(list);
      var x := list[0];
      var left := Elements(list) - Elements(template);
      if x in template {
        assert x in Elements(template);
        MissingCount(template, list[1..]);
        assert Elements(list[1..]) - Elements(template) == left;
      } else {
        MissingCount(template + [x], list[1..]);
        ElementsConcat(template, [x]);
        ElementsSingle(x);
        assert Elements(list[1..]) - Elements(template + [x]) == left - {x};
        assert x in left;
      }
      SubsetSize(left, Elements(list));
    }
  }

  /** What every prefix of the work keeps: a template without repeats that holds, with each
      transaction, all of its ancestors. */
  ghost predicate Closed(es: Table, template: seq<Txid>) {
    && NoRepeats(template)
    && Elements(template) <= es.Keys
    && forall x :: x in Elements(template) ==> Ancestors(es, x) <= Elements(template)
  }

  lemma {:induction false} ExtendedElements(es: Table, maxWeight: nat, template: seq<Txid>, list: seq<Txid>, t: Txid)
    requires IsListing(es, t, list) && Takes(es, maxWeight, template, list, t)
    ensures Elements(Extended(es, maxWeight, template, list, t)) == Elements(template) + Ancestors(es, t) + {t}
  {
    var missing := Missing(template, list);
    MissingExact(template, list);
    ElementsConcat(template, missing);
    ElementsConcat(template + missing, [t]);
    ElementsSingle(t);
  }

  lemma {:induction false} ExtendedClosed(es: Table, stamp: map<Txid, nat>, maxWeight: nat, template: seq<Txid>,
                                          list: seq<Txid>, t: Txid)
    requires Links(es, stamp) && IsListing(es, t, list) && Closed(es, template)
    ensures Closed(es, Extended(es, maxWeight, template, list, t))
  {
    if Takes(es, maxWeight, template, list, t) {
      var next := Extended(es, maxWeight, template, list, t);
      ExtendedElements(es, maxWeight, template, list, t);
      ExtendedNoRepeats(es, stamp, maxWeight, template, list, t);
      forall x | x in Elements(next)
        ensures Ancestors(es, x) <= Elements(next)
      {
        if x in Ancestors(es, t) {
          AncestorsOfAncestor(es, stamp, x, t);
        }
      }
    }
  }

  lemma {:induction false} ExtendedNoRepeats(es: Table, stamp: map<Txid, nat>, maxWeight: nat, template: seq<Txid>,
                                             list: seq<Txid>, t: Txid)
    requires Links(es, stamp) && IsListing(es, t, list) && NoRepeats(template)
    requires Takes(es, maxWeight, template, list, t)
    ensures NoRepeats(Extended(es, maxWeight, template, list, t))
  {
    var before := template + Missing(template, list);
    MissingExact(template, list);
    NotOwnAncestor(es, stamp, t);
    ElementsConcat(template, Missing(template, list));
    assert t !in Elements(before);
    assert forall i :: 0 <= i < |before| ==> before[i] in Elements(before);
  }

  lemma {:induction false} AncestorsOfAncestor(es: Table, stamp: map<Txid, nat>, x: Txid, t: Txid)
    requires Links(es, stamp) && x in Ancestors(es, t)
    ensures Ancestors(es, x) <= Ancestors(es, t)
  {
    forall a | a in Ancestors(es, x)
      ensures a in Ancestors(es, t)
    {
      AncestorTransitive(es, stamp, a, x, t);
    }
  }

  lemma {:induction false} WeightOfBounded(es: Table, ts: seq<Txid>, room: nat)
    requires forall i :: 0 <= i < |ts| ==> WeightAt(es, ts[i]) <= room
    ensures WeightOf(es, ts) <= |ts| * room
  {
    if ts != [] {
      WeightOfBounded(es, ts[1..], room);
      assert |ts| * room == room + (|ts| - 1) * room;
    }
  }

  /** A turn that takes something adds at most as many pieces as the entry has family, none of
      them larger than the room there was; the room is never measured against their sum. */
  lemma {:induction false} ExtendedWeight(es: Table, maxWeight: nat, template: seq<Txid>, list: seq<Txid>, t: Txid,
                                          limit: nat)
    requires IsListing(es, t, list) && FamilyWithin(es, t, limit)
    requires Takes(es, maxWeight, template, list, t)
    ensures WeightOf(es, Extended(es, maxWeight, template, list, t)) <= limit * maxWeight
  {
    var missing := Missing(template, list);
    var room := maxWeight - WeightOf(es, template);
    MissingExact(template, list);
    MissingCount(template, list);
    WeightOfAppend(es, template, missing);
    WeightOfAppend(es, template + missing, [t]);
    assert WeightOf(es, [t]) == WeightAt(es, t);
    forall i | 0 <= i < |missing|
      ensures WeightAt(es, missing[i]) <= room
    {
      assert missing[i] in Elements(missing);
      var j :| 0 <= j < |list| && list[j] == missing[i];
      assert missing[i] !in Elements(template);
      NotBlocked(es, maxWeight, template, list, j);
    }
    WeightOfBounded(es, missing, room);
    PiecesBound(WeightOf(es, template), |missing|, room, limit, maxWeight);
  }

  lemma {:induction false} PiecesBound(weight: nat, pieces: nat, room: nat, limit: nat, maxWeight: nat)
    requires weight + room == maxWeight && pieces + 1 <= limit
    ensures weight + pieces * room + room <= limit * maxWeight
  {
    assert pieces * room <= pieces * maxWeight;
    assert (pieces + 1) * maxWeight == pieces * maxWeight + maxWeight;
    assert (pieces + 1) * maxWeight <= limit * maxWeight;
  }

  // ---------------------------------------------------------------- the whole template

  ghost predicate Inputs(es: Table, stamp: map<Txid, nat>, lists: map<Txid, seq<Txid>>, order: seq<Txid>) {
    Links(es, stamp) && AreListings(es, lists) && AllIn(es, order)
  }

  /** The template holds each transaction once, and with it all of its ancestors. */
  lemma {:induction false} TemplateClosed(es: Table, stamp: map<Txid, nat>, lists: map<Txid, seq<Txid>>,
                                          order: seq<Txid>, maxWeight: nat, n: nat)
    requires Inputs(es, stamp, lists, order) && n <= |order|
    ensures Closed(es, Template(es, lists, order, maxWeight, n))
  {
    if n > 0 {
      TemplateClosed(es, stamp, lists, order, maxWeight, n - 1);
      ListForIsListing(es, lists, order[n - 1]);
      ExtendedClosed(es, stamp, maxWeight, Template(es, lists, order, maxWeight, n - 1), ListFor(lists, order[n - 1]),
                     order[n - 1]);
    }
  }

  /** The template weighs at most `limit * maxWeight`, where `limit` is the ancestor limit that
      every family in the pool respects. */
  lemma {:induction false} TemplateWeight(es: Table, lists: map<Txid, seq<Txid>>, order: seq<Txid>,
                                          maxWeight: nat, n: nat, limit: nat)
    requires AreListings(es, lists) && AllIn(es, order) && n <= |order|
    requires FamiliesWithin(es, limit)
    ensures WeightOf(es, Template(es, lists, order, maxWeight, n)) <= limit * maxWeight
  {
    TemplateWeightBound(es, lists, order, maxWeight, n, limit, limit * maxWeight);
  }

  ghost predicate Product(a: nat, b: nat, c: nat) {
    c == a * b
  }

  lemma {:induction false} TemplateWeightBound(es: Table, lists: map<Txid, seq<Txid>>, order: seq<Txid>,
                                               maxWeight: nat, n: nat, limit: nat, bound: nat)
    requires AreListings(es, lists) && AllIn(es, order) && n <= |order|
    requires FamiliesWithin(es, limit) && Product(limit, maxWeight, bound)
    ensures WeightOf(es, Template(es, lists, order, maxWeight, n)) <= bound
  {
    if n > 0 {
      TemplateWeightBound(es, lists, order, maxWeight, n - 1, limit, bound);
      var t := order[n - 1];
      ListForIsListing(es, lists, t);
      TurnWeight(es, maxWeight, Template(es, lists, order, maxWeight, n - 1), ListFor(lists, t), t, limit, bound);
    }
  }

  ghost predicate FamilyWithin(es: Table, t: Txid, limit: nat) {
    1 + |Ancestors(es, t)| <= limit
  }

  ghost predicate FamiliesWithin(es: Table, limit: nat) {
    forall t :: t in es ==> FamilyWithin(es, t, limit)
  }

  lemma {:induction false} TurnWeight(es: Table, maxWeight: nat, template: seq<Txid>, list: seq<Txid>, t: Txid,
                                      limit: nat, bound: nat)
    requires IsListing(es, t, list) && FamilyWithin(es, t, limit) && Product(limit, maxWeight, bound)
    requires WeightOf(es, template) <= bound
    ensures WeightOf(es, Extended(es, maxWeight, template, list, t)) <= bound
  {
    if Takes(es, maxWeight, template, list, t) {
      ExtendedWeight(es, maxWeight, template, list, t, limit);
    }
  }

  /** A turn only appends, and appends nothing once the limit is passed. */
  lemma {:induction false} ExtendedGrows(es: Table, maxWeight: nat, template: seq<Txid>, list: seq<Txid>, t: Txid)
    ensures template <= Extended(es, maxWeight, template, list, t)
    ensures WeightOf(es, template) <= WeightOf(es, Extended(es, maxWeight, template, list, t))
    ensures WeightOf(es, template) > maxWeight ==> Extended(es, maxWeight, template, list, t) == template
  {
    if Takes(es, maxWeight, template, list, t) {
      var missing := Missing(template, list);
      WeightOfAppend(es, template, missing);
      WeightOfAppend(es, template + missing, [t]);
      assert template + missing + [t] == template + (missing + [t]);
    } else {
      assert template == template + [];
    }
  }

  /** Later turns only append, and nothing is appended once the limit is passed. */
  lemma {:induction false} TemplateGrows(es: Table, lists: map<Txid, seq<Txid>>, order: seq<Txid>, maxWeight: nat,
                                         i: nat, n: nat)
    requires i <= n <= |order|
    ensures Template(es, lists, order, maxWeight, i) <= Template(es, lists, order, maxWeight, n)
    ensures WeightOf(es, Template(es, lists, order, maxWeight, i))
         <= WeightOf(es, Template(es, lists, order, maxWeight, n))
    ensures WeightOf(es, Template(es, lists, order, maxWeight, i)) > maxWeight
            ==> Template(es, lists, order, maxWeight, n) == Template(es, lists, order, maxWeight, i)
    decreases n - i
  {
    if i == n {
      assert Template(es, lists, order, maxWeight, n) == Template(es, lists, order, maxWeight, i) + [];
    } else {
      TemplateGrows(es, lists, order, maxWeight, i, n - 1);
      ExtendedGrows(es, maxWeight, Template(es, lists, order, maxWeight, n - 1), ListFor(lists, order[n - 1]),
                    order[n - 1]);
    }
  }

  /** A transaction taken at its own turn comes right at the end of the template built so far, and
      all of its ancestors come before it in the final template. */
  lemma {:induction false} SelectedAfterAncestors(es: Table, stamp: map<Txid, nat>, lists: map<Txid, seq<Txid>>,
                               order: seq<Txid>, maxWeight: nat, i: nat, a: Txid)
    requires Inputs(es, stamp, lists, order) && i < |order| && a in Ancestors(es, order[i])
    requires Takes(es, maxWeight, Template(es, lists, order, maxWeight, i), ListFor(lists, order[i]), order[i])
    ensures var final := Template(es, lists, order, maxWeight, |order|);
            exists j, k :: 0 <= j < k < |final| && final[j] == a && final[k] == order[i]
  {
    var before := Template(es, lists, order, maxWeight, i);
    var missing := Missing(before, ListFor(lists, order[i]));
    var final := Template(es, lists, order, maxWeight, |order|);
    TemplateGrows(es, lists, order, maxWeight, i + 1, |order|);
    MissingExact(before, ListFor(lists, order[i]));
    ElementsConcat(before, missing);
    assert a in Elements(before + missing);
    var j :| 0 <= j < |before + missing| && (before + missing)[j] == a;
    var k := |before + missing|;
    assert Template(es, lists, order, maxWeight, i + 1) == before + missing + [order[i]];
    assert final[j] == a && final[k] == order[i];
  }

  lemma {:induction false} StaysIn(es: Table, lists: map<Txid, seq<Txid>>, order: seq<Txid>, maxWeight: nat, i: nat,
                                   n: nat, x: Txid)
    requires i <= n <= |order| && x in Template(es, lists, order, maxWeight, i)
    ensures x in Template(es, lists, order, maxWeight, n)
  {
    TemplateGrows(es, lists, order, maxWeight, i, n);
  }

  /** Nothing is added at a turn that did not fit by itself on top of the weight at that turn. */
  lemma {:induction false} AddedFits(es: Table, maxWeight: nat, template: seq<Txid>, list: seq<Txid>, t: Txid, x: Txid)
    requires x in Extended(es, maxWeight, template, list, t) && x !in template
    ensures WeightOf(es, template) + WeightAt(es, x) <= maxWeight
  {
    if x != t {
      var missing := Missing(template, list);
      MissingExact(template, list);
      assert x in missing;
      assert x in Elements(missing);
      var k :| 0 <= k < |list| && list[k] == x;
      NotBlocked(es, maxWeight, template, list, k);
    }
  }

  /** So what does not fit once is never added later. */
  lemma {:induction false} TooBigStaysOut(es: Table, lists: map<Txid, seq<Txid>>, order: seq<Txid>, maxWeight: nat,
                                          i: nat, n: nat, x: Txid)
    requires i <= n <= |order|
    requires x !in Template(es, lists, order, maxWeight, i)
    requires WeightOf(es, Template(es, lists, order, maxWeight, i)) + WeightAt(es, x) > maxWeight
    ensures x !in Template(es, lists, order, maxWeight, n)
    decreases n - i
  {
    if i < n {
      TooBigStaysOut(es, lists, order, maxWeight, i, n - 1, x);
      TemplateGrows(es, lists, order, maxWeight, i, n - 1);
      var before := Template(es, lists, order, maxWeight, n - 1);
      if x in Extended(es, maxWeight, before, ListFor(lists, order[n - 1]), order[n - 1]) {
        AddedFits(es, maxWeight, before, ListFor(lists, order[n - 1]), order[n - 1], x);
      }
    }
  }

  /** What was passed over was passed over for a reason that still holds at the end: it, or one of
      its ancestors, is not in the template and does not fit in the room that is left. */
  lemma {:induction false} TemplateMaximal(es: Table, stamp: map<Txid, nat>, lists: map<Txid, seq<Txid>>,
                                           order: seq<Txid>, maxWeight: nat, n: nat, i: nat) returns (a: Txid)
    requires Inputs(es, stamp, lists, order) && i < n <= |order|
    requires order[i] !in Template(es, lists, order, maxWeight, n)
    ensures a in Family(es, order[i]) && a !in Template(es, lists, order, maxWeight, n)
    ensures WeightOf(es, Template(es, lists, order, maxWeight, n)) + WeightAt(es, a) > maxWeight
  {
    var before := Template(es, lists, order, maxWeight, i);
    var t, list := order[i], ListFor(lists, order[i]);
    ListForIsListing(es, lists, t);
    if t in before {
      StaysIn(es, lists, order, maxWeight, i, n, t);
    }
    if Takes(es, maxWeight, before, list, t) {
      TakenLast(es, maxWeight, before, list, t);
      StaysIn(es, lists, order, maxWeight, i + 1, n, t);
    }
    a := WhyPassedOver(es, maxWeight, before, list, t);
    TooBigStaysOut(es, lists, order, maxWeight, i, n, a);
    TemplateGrows(es, lists, order, maxWeight, i, n);
  }

  lemma {:induction false} TakenLast(es: Table, maxWeight: nat, template: seq<Txid>, list: seq<Txid>, t: Txid)
    requires Takes(es, maxWeight, template, list, t)
    ensures t in Extended(es, maxWeight, template, list, t)
  {
  }

  lemma {:induction false} WhyPassedOver(es: Table, maxWeight: nat, template: seq<Txid>, list: seq<Txid>, t: Txid)
    returns (a: Txid)
    requires IsListing(es, t, list) && t !in template && !Takes(es, maxWeight, template, list, t)
    ensures a in Family(es, t) && a !in template && WeightOf(es, template) + WeightAt(es, a) > maxWeight
  {
    a := t;
    if WeightOf(es, template) + WeightAt(es, t) <= maxWeight {
      var j := BlockedBy(es, maxWeight, template, list);
      a := list[j];
      assert a in Elements(list);
    }
  }
}
