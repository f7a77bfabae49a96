/** When the block template lists every transaction after its ancestors, and what holds of the
    template of every pool that a run reaches. */
module TemplateOrder {
  import opened Policy
  import opened Entries
  import opened FiniteSums
  import opened Lists
  import opened Pools
  import opened Ancestry
  import opened AncestorWalk
  import opened PoolInsertion
  import opened PoolRuns
  import opened BlockTemplate
  import opened TemplateLimit

  /** No transaction comes before one of its ancestors. */
  ghost predicate ParentsFirst(es: Table, ts: seq<Txid>) {
    forall i, j :: 0 <= i < j < |ts| ==> ts[j] !in Ancestors(es, ts[i])
  }

  // ---------------------------------------------------------------- the selection as a set

  ghost function Weights(es: Table): map<Txid, int> {
    map t | t in es :: es[t].tx.weight
  }

  ghost function SetWeight(es: Table, s: set<Txid>): int {
    Sum(s, Weights(es))
  }

  /** A turn takes `t` if it is not in yet and it and each missing ancestor, one at a time, fit. */
  ghost predicate IsTaken(es: Table, maxWeight: nat, s: set<Txid>, t: Txid) {
    t !in s && forall x :: x in Family(es, t) && x !in s ==> SetWeight(es, s) + WeightAt(es, x) <= maxWeight
  }

  /** What has been selected after the first `n` turns; no listing has any part in it. */
  ghost function Selected(es: Table, order: seq<Txid>, maxWeight: nat, n: nat): set<Txid>
    requires n <= |order|
  {
    if n == 0 then {}
    else
      var before, t := Selected(es, order, maxWeight, n - 1), order[n - 1];
      if IsTaken(es, maxWeight, before, t) then before + Family(es, t) else before
  }

  lemma {:induction false} WeightOfElements(es: Table, ts: seq<Txid>)
    requires NoRepeats(ts)
    ensures WeightOf(es, ts) == SetWeight(es, Elements(ts))
  {
    if ts != [] {
      ElementsStep(ts);
      TailWithoutHead(ts);
      WeightOfElements(es, ts[1..]);
      SumInsert(Elements(ts[1..]), Weights(es), ts[0]);
      assert Elements(ts[1..]) + {ts[0]} == Elements(ts);
    }
  }

  lemma {:induction false} TakesIsTaken(es: Table, maxWeight: nat, template: seq<Txid>, list: seq<Txid>, t: Txid)
    requires IsListing(es, t, list) && NoRepeats(template)
    ensures Takes(es, maxWeight, template, list, t) <==> IsTaken(es, maxWeight, Elements(template), t)
  {
    WeightOfElements(es, template);
    if Takes(es, maxWeight, template, list, t) {
      forall x | x in Family(es, t) && x !in Elements(template)
        ensures WeightOf(es, template) + WeightAt(es, x) <= maxWeight
      {
        if x != t {
          assert x in Elements(list);
          var k :| 0 <= k < |list| && list[k] == x;
          NotBlocked(es, maxWeight, template, list, k);
        }
      }
    }
    if IsTaken(es, maxWeight, Elements(template), t) {
      forall k | 0 <= k < |list| && list[k] !in template
        ensures WeightOf(es, template) + WeightAt(es, list[k]) <= maxWeight
      {
        assert list[k] in Elements(list);
      }
      NotBlockedIf(es, maxWeight, template, list);
      assert t in Family(es, t);
    }
  }

  /** Which transactions the template holds after each turn, and what they weigh, does not depend on the
      order in which the walks meet the ancestors. */
  lemma {:induction false} TemplateSelects(es: Table, stamp: map<Txid, nat>, lists: map<Txid, seq<Txid>>,
                                           order: seq<Txid>, maxWeight: nat, n: nat)
    requires Inputs(es, stamp, lists, order) && n <= |order|
    ensures Elements(Template(es, lists, order, maxWeight, n)) == Selected(es, order, maxWeight, n)
    ensures WeightOf(es, Template(es, lists, order, maxWeight, n)) == SetWeight(es, Selected(es, order, maxWeight, n))
  {
    NoRepeatsInTemplate(es, stamp, lists, order, maxWeight, n);
    WeightOfElements(es, Template(es, lists, order, maxWeight, n));
    if n > 0 {
      TemplateSelects(es, stamp, lists, order, maxWeight, n - 1);
      NoRepeatsInTemplate(es, stamp, lists, order, maxWeight, n - 1);
      ListForIsListing(es, lists, order[n - 1]);
      TurnSelects(es, maxWeight, Template(es, lists, order, maxWeight, n - 1), ListFor(lists, order[n - 1]),
                  order[n - 1]);
    } else {
      assert Elements<Txid>([]) == {};
    }
  }

  lemma {:induction false} TurnSelects(es: Table, maxWeight: nat, template: seq<Txid>, list: seq<Txid>, t: Txid)
    requires IsListing(es, t, list) && NoRepeats(template)
    ensures Elements(Extended(es, maxWeight, template, list, t))
         == if IsTaken(es, maxWeight, Elements(template), t) then Elements(template) + Family(es, t)
            else Elements(template)
  {
    TakesIsTaken(es, maxWeight, template, list, t);
    if Takes(es, maxWeight, template, list, t) {
      ExtendedElements(es, maxWeight, template, list, t);
    }
  }

  // ---------------------------------------------------------------- one turn

  /** No parent that is missing has an ancestor that is missing too. */
  ghost predicate MissingAreOrphans(es: Table, s: set<Txid>, t: Txid) {
    t in es ==> forall q :: q in es[t].parents && q !in s ==> Ancestors(es, q) <= s
  }

  /** What is missing from a closed template is a parent whose ancestors are all there. */
  lemma {:induction false} MissingIsOrphan(es: Table, template: seq<Txid>, t: Txid, a: Txid)
    requires t in es && Closed(es, template) && MissingAreOrphans(es, Elements(template), t)
    requires a in Ancestors(es, t) && a !in Elements(template)
    ensures Ancestors(es, a) <= Elements(template)
  {
    AncestorUnfold(es, a, t);
    if a !in es[t].parents {
      var q :| q in es[t].parents && IsAncestor(es, a, q);
      AboveParentIsThere(es, template, t, q);
    }
  }

  lemma {:induction false} AboveParentIsThere(es: Table, template: seq<Txid>, t: Txid, q: Txid)
    requires t in es && Closed(es, template) && MissingAreOrphans(es, Elements(template), t) && q in es[t].parents
    ensures Ancestors(es, q) <= Elements(template)
  {
  }

  /** Appending to a closed, ordered template transactions whose ancestors are all there keeps the order. */
  lemma {:induction false} AppendOrdered(es: Table, template: seq<Txid>, more: seq<Txid>)
    requires Closed(es, template) && ParentsFirst(es, template) && NoRepeats(template + more)
    requires forall i :: 0 <= i < |more| ==> Ancestors(es, more[i]) <= Elements(template)
    ensures ParentsFirst(es, template + more)
  {
    var all := template + more;
    NoRepeatsConcat(template, more);
    forall i, j | 0 <= i < j < |all|
      ensures all[j] !in Ancestors(es, all[i])
    {
      if j >= |template| {
        assert Ancestors(es, all[i]) <= Elements(template) by {
          if i < |template| {
            assert all[i] in Elements(template);
          } else {
            assert all[i] == more[i - |template|];
          }
        }
        assert all[j] in Elements(more);
      }
    }
  }

  lemma {:induction false} TurnOrdered(es: Table, stamp: map<Txid, nat>, maxWeight: nat, template: seq<Txid>,
                                       list: seq<Txid>, t: Txid)
    requires Links(es, stamp) && IsListing(es, t, list) && Closed(es, template) && ParentsFirst(es, template)
    requires Takes(es, maxWeight, template, list, t) && MissingAreOrphans(es, Elements(template), t)
    ensures ParentsFirst(es, Extended(es, maxWeight, template, list, t))
  {
    var missing := Missing(template, list);
    MissingExact(template, list);
    forall i | 0 <= i < |missing|
      ensures Ancestors(es, missing[i]) <= Elements(template)
    {
      assert missing[i] in Elements(missing);
      MissingIsOrphan(es, template, t, missing[i]);
    }
    AppendOrdered(es, template, missing);
    LastOrdered(es, stamp, maxWeight, template, list, t);
  }

  lemma {:induction false} LastOrdered(es: Table, stamp: map<Txid, nat>, maxWeight: nat, template: seq<Txid>,
                                       list: seq<Txid>, t: Txid)
    requires Links(es, stamp) && IsListing(es, t, list) && Closed(es, template)
    requires Takes(es, maxWeight, template, list, t)
    requires ParentsFirst(es, template + Missing(template, list))
    ensures ParentsFirst(es, template + Missing(template, list) + [t])
  {
    var before := template + Missing(template, list);
    MissingExact(template, list);
    ElementsConcat(template, Missing(template, list));
    forall i | 0 <= i < |before|
      ensures t !in Ancestors(es, before[i])
    {
      assert before[i] in Elements(before);
      if t in Ancestors(es, before[i]) {
        NotAbove(es, stamp, template, t, before[i]);
      }
    }
  }

  lemma {:induction false} NotAbove(es: Table, stamp: map<Txid, nat>, template: seq<Txid>, t: Txid, x: Txid)
    requires Links(es, stamp) && Closed(es, template) && t !in template
    requires x in Elements(template) || x in Ancestors(es, t)
    ensures t !in Ancestors(es, x)
  {
    if t in Ancestors(es, x) {
      if x !in Elements(template) {
        AncestorTransitive(es, stamp, t, x, t);
        NotOwnAncestor(es, stamp, t);
      }
    }
  }

  /** A listing that meets `q` first puts it before an ancestor that is missing as well. */
  lemma {:induction false} OutOfOrder(es: Table, maxWeight: nat, template: seq<Txid>, list: seq<Txid>, t: Txid, q: Txid,
                                      a: Txid)
    requires IsListing(es, t, list) && list != [] && list[0] == q && q !in template
    requires a in Ancestors(es, q) && a in Ancestors(es, t) && a != q && a !in Elements(template)
    requires Takes(es, maxWeight, template, list, t)
    ensures !ParentsFirst(es, Extended(es, maxWeight, template, list, t))
  {
    var missing := Missing(template, list);
    MissingExact(template, list);
    assert missing[0] == q;
    assert a in Elements(missing);
    var j :| 0 <= j < |missing| && missing[j] == a;
    var all := template + missing + [t];
    assert all[|template|] == q && all[|template| + j] == a;
  }

  // ---------------------------------------------------------------- the whole template

  /** Turn `i` takes nothing, or no missing parent has a missing ancestor. */
  ghost predicate TurnKeepsOrder(es: Table, order: seq<Txid>, maxWeight: nat, i: nat)
    requires i < |order|
  {
    var selected := Selected(es, order, maxWeight, i);
    IsTaken(es, maxWeight, selected, order[i]) ==> MissingAreOrphans(es, selected, order[i])
  }

  ghost predicate TurnsKeepOrder(es: Table, order: seq<Txid>, maxWeight: nat, n: nat)
    requires n <= |order|
  {
    forall i :: 0 <= i < n ==> TurnKeepsOrder(es, order, maxWeight, i)
  }

  /** The template lists ancestors first, in whatever order the sets of parents are iterated. */
  ghost predicate AlwaysParentsFirst(es: Table, order: seq<Txid>, maxWeight: nat) {
    forall orders :: Enumerates(es, orders) ==>
        ParentsFirst(es, Template(es, Listings(orders), order, maxWeight, |order|))
  }

  lemma {:induction false} TurnStaysOrdered(es: Table, stamp: map<Txid, nat>, maxWeight: nat, template: seq<Txid>,
                                            list: seq<Txid>, t: Txid)
    requires Links(es, stamp) && IsListing(es, t, list) && Closed(es, template) && ParentsFirst(es, template)
    requires IsTaken(es, maxWeight, Elements(template), t) ==> MissingAreOrphans(es, Elements(template), t)
    ensures ParentsFirst(es, Extended(es, maxWeight, template, list, t))
  {
    TakesIsTaken(es, maxWeight, template, list, t);
    if Takes(es, maxWeight, template, list, t) {
      TurnOrdered(es, stamp, maxWeight, template, list, t);
    }
  }

  /** A template so far: closed, ordered, and holding what the turns select. */
  ghost predicate OrderedSoFar(es: Table, template: seq<Txid>, selected: set<Txid>) {
    Closed(es, template) && ParentsFirst(es, template) && Elements(template) == selected
  }

  lemma {:induction false} OrderedIfTurnsKeepOrder(es: Table, stamp: map<Txid, nat>, lists: map<Txid, seq<Txid>>,
                                                   order: seq<Txid>, maxWeight: nat, n: nat)
    requires Inputs(es, stamp, lists, order) && n <= |order|
    requires forall i :: 0 <= i < n ==> TurnKeepsOrder(es, order, maxWeight, i)
    ensures OrderedSoFar(es, Template(es, lists, order, maxWeight, n), Selected(es, order, maxWeight, n))
  {
    if n == 0 {
      assert Elements<Txid>([]) == {};
    } else {
      OrderedIfTurnsKeepOrder(es, stamp, lists, order, maxWeight, n - 1);
      assert TurnKeepsOrder(es, order, maxWeight, n - 1);
      ListForIsListing(es, lists, order[n - 1]);
      OrderedOneMore(es, stamp, maxWeight, Template(es, lists, order, maxWeight, n - 1), ListFor(lists, order[n - 1]),
                     order[n - 1]);
    }
  }

  lemma {:induction false} OrderedOneMore(es: Table, stamp: map<Txid, nat>, maxWeight: nat, template: seq<Txid>,
                                          list: seq<Txid>, t: Txid)
    requires Links(es, stamp) && IsListing(es, t, list) && OrderedSoFar(es, template, Elements(template))
    requires IsTaken(es, maxWeight, Elements(template), t) ==> MissingAreOrphans(es, Elements(template), t)
    ensures OrderedSoFar(es, Extended(es, maxWeight, template, list, t),
                         if IsTaken(es, maxWeight, Elements(template), t) then Elements(template) + Family(es, t)
                         else Elements(template))
  {
    ExtendedClosed(es, stamp, maxWeight, template, list, t);
    TurnSelects(es, maxWeight, template, list, t);
    TurnStaysOrdered(es, stamp, maxWeight, template, list, t);
  }

  lemma {:induction false} PrefixOrdered(es: Table, a: seq<Txid>, b: seq<Txid>)
    requires a <= b && ParentsFirst(es, b)
    ensures ParentsFirst(es, a)
  {
    forall i, j | 0 <= i < j < |a|
      ensures a[j] !in Ancestors(es, a[i])
    {
      assert b[i] == a[i] && b[j] == a[j];
    }
  }

  /** A turn that does not keep the order breaks it for some iteration order of one set of parents. */
  lemma {:induction false} BrokenTurn(es: Table, stamp: map<Txid, nat>, order: seq<Txid>, maxWeight: nat, i: nat)
    returns (orders: Orders)
    requires Links(es, stamp) && AllIn(es, order) && i < |order| && !TurnKeepsOrder(es, order, maxWeight, i)
    ensures Enumerates(es, orders) && !ParentsFirst(es, Template(es, Listings(orders), order, maxWeight, |order|))
  {
    var t, selected := order[i], Selected(es, order, maxWeight, i);
    var q :| q in es[t].parents && q !in selected && !(Ancestors(es, q) <= selected);
    var a :| a in Ancestors(es, q) && a !in selected;
    orders := OrdersWithFirst(es, t, q);
    var lists := Listings(orders);
    ListingsExact(es, stamp, orders);
    ListingFirst(es, stamp, orders, t);
    TemplateSelects(es, stamp, lists, order, maxWeight, i);
    TemplateClosed(es, stamp, lists, order, maxWeight, i);
    var before := Template(es, lists, order, maxWeight, i);
    TakesIsTaken(es, maxWeight, before, lists[t], t);
    AncestorUnfold(es, q, t);
    AncestorTransitive(es, stamp, a, q, t);
    NotOwnAncestor(es, stamp, q);
    OutOfOrder(es, maxWeight, before, lists[t], t, q, a);
    StaysBroken(es, lists, order, maxWeight, i + 1);
  }

  lemma {:induction false} StaysBroken(es: Table, lists: map<Txid, seq<Txid>>, order: seq<Txid>, maxWeight: nat, n: nat)
    requires n <= |order| && !ParentsFirst(es, Template(es, lists, order, maxWeight, n))
    ensures !ParentsFirst(es, Template(es, lists, order, maxWeight, |order|))
  {
    TemplateGrows(es, lists, order, maxWeight, n, |order|);
    if ParentsFirst(es, Template(es, lists, order, maxWeight, |order|)) {
      PrefixOrdered(es, Template(es, lists, order, maxWeight, n), Template(es, lists, order, maxWeight, |order|));
    }
  }

  /** Exactly when the block template lists every transaction after its ancestors, whatever the iteration
      order of the parent sets: if and only if no turn that takes something finds a missing parent with a
      missing ancestor. The walk lists a parent before its grandparents, so two missing generations come
      out reversed. The condition is told from the pool, the order and the limit alone. */
  lemma {:induction false} TemplateOrderedIff(es: Table, stamp: map<Txid, nat>, order: seq<Txid>, maxWeight: nat)
    requires Links(es, stamp) && AllIn(es, order)
    ensures AlwaysParentsFirst(es, order, maxWeight) <==> TurnsKeepOrder(es, order, maxWeight, |order|)
  {
    if TurnsKeepOrder(es, order, maxWeight, |order|) {
      forall orders | Enumerates(es, orders)
        ensures ParentsFirst(es, Template(es, Listings(orders), order, maxWeight, |order|))
      {
        ListingsExact(es, stamp, orders);
        OrderedIfTurnsKeepOrder(es, stamp, Listings(orders), order, maxWeight, |order|);
      }
    } else {
      var i :| 0 <= i < |order| && !TurnKeepsOrder(es, order, maxWeight, i);
      var orders := BrokenTurn(es, stamp, order, maxWeight, i);
    }
  }

  // ---------------------------------------------------------------- the weight limit

  /** Turn `i` takes nothing, or all that it takes fits together. */
  ghost predicate TurnFits(es: Table, order: seq<Txid>, maxWeight: nat, i: nat)
    requires i < |order|
  {
    var selected := Selected(es, order, maxWeight, i);
    IsTaken(es, maxWeight, selected, order[i]) ==> SetWeight(es, selected + Family(es, order[i])) <= maxWeight
  }

  lemma {:induction false} SelectedFits(es: Table, order: seq<Txid>, maxWeight: nat, n: nat)
    requires n <= |order| && forall i :: 0 <= i < n ==> TurnFits(es, order, maxWeight, i)
    ensures SetWeight(es, Selected(es, order, maxWeight, n)) <= maxWeight
  {
    if n > 0 {
      SelectedFits(es, order, maxWeight, n - 1);
      assert TurnFits(es, order, maxWeight, n - 1);
    }
  }

  lemma {:induction false} OverweightTurn(es: Table, stamp: map<Txid, nat>, lists: map<Txid, seq<Txid>>,
                                          order: seq<Txid>, maxWeight: nat, i: nat)
    requires Inputs(es, stamp, lists, order) && i < |order| && !TurnFits(es, order, maxWeight, i)
    ensures WeightOf(es, Template(es, lists, order, maxWeight, |order|)) > maxWeight
  {
    assert SetWeight(es, Selected(es, order, maxWeight, i + 1)) > maxWeight;
    TemplateSelects(es, stamp, lists, order, maxWeight, i + 1);
    TemplateGrows(es, lists, order, maxWeight, i + 1, |order|);
  }

  /** Exactly when the block template respects the limit it is given: if and only if, at every turn that
      takes something, what was selected so far and the whole family it takes weigh no more than the limit.
      The condition is told from the pool, the order and the limit alone. */
  lemma {:induction false} TemplateFitsIff(es: Table, stamp: map<Txid, nat>, lists: map<Txid, seq<Txid>>,
                                           order: seq<Txid>, maxWeight: nat)
    requires Inputs(es, stamp, lists, order)
    ensures WeightOf(es, Template(es, lists, order, maxWeight, |order|)) <= maxWeight
            <==> forall i :: 0 <= i < |order| ==> TurnFits(es, order, maxWeight, i)
  {
    if forall i :: 0 <= i < |order| ==> TurnFits(es, order, maxWeight, i) {
      SelectedFits(es, order, maxWeight, |order|);
      TemplateSelects(es, stamp, lists, order, maxWeight, |order|);
    } else {
      var i :| 0 <= i < |order| && !TurnFits(es, order, maxWeight, i);
      OverweightTurn(es, stamp, lists, order, maxWeight, i);
    }
  }

  // ---------------------------------------------------------------- a limit with room for the whole pool

  /** With room for everything, what is selected is whatever had its turn, with all its ancestors. */
  ghost function Before(es: Table, order: seq<Txid>, i: nat): set<Txid>
    requires i <= |order|
  {
    WithAncestors(es, Elements(order[..i]))
  }

  /** The transaction at position `i` was drawn in by an earlier one, or no parent of it that was not has
      an ancestor that was not. */
  ghost predicate PlaceKeepsOrder(es: Table, order: seq<Txid>, i: nat)
    requires i < |order|
  {
    order[i] in Before(es, order, i) || MissingAreOrphans(es, Before(es, order, i), order[i])
  }

  lemma {:induction false} RoomForOne(es: Table, maxWeight: nat, s: set<Txid>, t: Txid)
    requires SetWeight(es, es.Keys) <= maxWeight && s <= es.Keys && t in es
    ensures IsTaken(es, maxWeight, s, t) <==> t !in s
  {
    forall x | x in Family(es, t) && x !in s
      ensures SetWeight(es, s) + WeightAt(es, x) <= maxWeight
    {
      SumInsert(s, Weights(es), x);
      SumSubset(s + {x}, es.Keys, Weights(es));
      SumNonNegative(es.Keys - (s + {x}), Weights(es));
    }
  }

  lemma {:induction false} SelectsAll(es: Table, stamp: map<Txid, nat>, order: seq<Txid>, maxWeight: nat, n: nat)
    requires Links(es, stamp) && AllIn(es, order) && SetWeight(es, es.Keys) <= maxWeight && n <= |order|
    ensures Selected(es, order, maxWeight, n) == Before(es, order, n)
  {
    if n > 0 {
      var before, t := Selected(es, order, maxWeight, n - 1), order[n - 1];
      SelectsAll(es, stamp, order, maxWeight, n - 1);
      RoomForOne(es, maxWeight, before, t);
      assert order[..n] == order[..n - 1] + [t];
      ElementsAppended(order[..n - 1], t);
      WithAncestorsStep(es, Elements(order[..n - 1]), t);
      if t in before {
        FamilyDrawnIn(es, stamp, Elements(order[..n - 1]), t);
      }
    }
  }

  lemma {:induction false} FamilyDrawnIn(es: Table, stamp: map<Txid, nat>, s: set<Txid>, t: Txid)
    requires Links(es, stamp) && t in WithAncestors(es, s)
    ensures WithAncestors(es, s) + Family(es, t) == WithAncestors(es, s)
  {
    forall a | a in Ancestors(es, t)
      ensures a in WithAncestors(es, s)
    {
      if t !in s {
        var q :| q in s && IsAncestor(es, t, q);
        AncestorTransitive(es, stamp, a, t, q);
      }
    }
  }

  /** When the whole pool fits, the exact condition speaks of the order alone. */
  lemma {:induction false} RoomyTemplateOrderedIff(es: Table, stamp: map<Txid, nat>, order: seq<Txid>, maxWeight: nat)
    requires Links(es, stamp) && AllIn(es, order) && SetWeight(es, es.Keys) <= maxWeight
    ensures AlwaysParentsFirst(es, order, maxWeight) <==> forall i :: 0 <= i < |order| ==> PlaceKeepsOrder(es, order, i)
  {
    TemplateOrderedIff(es, stamp, order, maxWeight);
    forall i | 0 <= i < |order|
      ensures TurnKeepsOrder(es, order, maxWeight, i) <==> PlaceKeepsOrder(es, order, i)
    {
      SelectsAll(es, stamp, order, maxWeight, i);
      RoomForOne(es, maxWeight, Selected(es, order, maxWeight, i), order[i]);
    }
  }

  /** An order with ancestors first meets the condition at every limit. */
  lemma {:induction false} OrderedWhenAncestorsFirst(es: Table, stamp: map<Txid, nat>, order: seq<Txid>, maxWeight: nat)
    requires Links(es, stamp) && AllIn(es, order) && AncestorsFirst(es, order)
    ensures AlwaysParentsFirst(es, order, maxWeight)
  {
    var orders := OrdersExist(es);
    var lists := Listings(orders);
    ListingsExact(es, stamp, orders);
    forall i | 0 <= i < |order|
      ensures TurnKeepsOrder(es, order, maxWeight, i)
    {
      if IsTaken(es, maxWeight, Selected(es, order, maxWeight, i), order[i]) {
        NothingIsMissing(es, stamp, lists, order, maxWeight, i);
      }
    }
    TemplateOrderedIff(es, stamp, order, maxWeight);
  }

  lemma {:induction false} NothingIsMissing(es: Table, stamp: map<Txid, nat>, lists: map<Txid, seq<Txid>>,
                                            order: seq<Txid>, maxWeight: nat, i: nat)
    requires Inputs(es, stamp, lists, order) && i < |order| && AncestorsBefore(es, order, i)
    requires IsTaken(es, maxWeight, Selected(es, order, maxWeight, i), order[i])
    ensures es[order[i]].parents <= Selected(es, order, maxWeight, i)
  {
    var before, t, list := Template(es, lists, order, maxWeight, i), order[i], ListFor(lists, order[i]);
    TemplateSelects(es, stamp, lists, order, maxWeight, i);
    NoRepeatsInTemplate(es, stamp, lists, order, maxWeight, i);
    ListForIsListing(es, lists, t);
    TakesIsTaken(es, maxWeight, before, list, t);
    NothingMissing(es, stamp, lists, order, maxWeight, i);
    NoneMissing(es, before, list, t);
  }

  lemma {:induction false} NoRepeatsInTemplate(es: Table, stamp: map<Txid, nat>, lists: map<Txid, seq<Txid>>,
                                               order: seq<Txid>, maxWeight: nat, n: nat)
    requires Inputs(es, stamp, lists, order) && n <= |order|
    ensures NoRepeats(Template(es, lists, order, maxWeight, n))
  {
    TemplateClosed(es, stamp, lists, order, maxWeight, n);
  }

  lemma {:induction false} NoneMissing(es: Table, template: seq<Txid>, list: seq<Txid>, t: Txid)
    requires LinksClosed(es) && IsListing(es, t, list) && Missing(template, list) == []
    ensures es[t].parents <= Elements(template)
  {
    MissingExact(template, list);
    AncestorsViaParents(es, t);
    assert Elements(list) - Elements(template) == {} by {
      assert Elements<Txid>([]) == {};
    }
    forall q | q in es[t].parents
      ensures q in Elements(template)
    {
      assert q in Elements(list) && q !in Elements(list) - Elements(template);
    }
  }

  /** The template of a sound pool: no repeats, closed under ancestors, and at most the ancestor limit
      times the weight limit. */
  lemma SoundTemplates(policy: Policy, p: Pool, lists: map<Txid, seq<Txid>>, order: seq<Txid>, maxWeight: nat)
    requires Sound(policy, p) && AreListings(p.entries, lists) && ByAncestorRate(p.entries, order)
    ensures var template := Template(p.entries, lists, order, maxWeight, |order|);
            Closed(p.entries, template) && WeightOf(p.entries, template) <= policy.maxAncestors * maxWeight
  {
    var stamp :| Inv(policy, p, stamp);
    TemplateClosed(p.entries, stamp, lists, order, maxWeight, |order|);
    forall t | t in p.entries
      ensures FamilyWithin(p.entries, t, policy.maxAncestors)
    {
      AncestorLimitsHold(policy, p.entries, t);
    }
    TemplateWeight(p.entries, lists, order, maxWeight, |order|, policy.maxAncestors);
  }

  /** Hence the template of any pool that any run reaches. */
  lemma ReachableTemplates(policy: Policy, ops: seq<Op>, lists: map<Txid, seq<Txid>>, order: seq<Txid>, maxWeight: nat)
    requires AreListings(Run(policy, ops).entries, lists) && ByAncestorRate(Run(policy, ops).entries, order)
    ensures var es := Run(policy, ops).entries;
            var template := Template(es, lists, order, maxWeight, |order|);
            Closed(es, template) && WeightOf(es, template) <= policy.maxAncestors * maxWeight
  {
    RunSound(policy, ops);
    SoundTemplates(policy, Run(policy, ops), lists, order, maxWeight);
  }
}
