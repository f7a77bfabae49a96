/** The depth-first walk over the parent links (src/mempool/txmempool.rs, get_ancestors) as a function of
    the order in which each entry's parents are iterated, and what it lists. */
module AncestorWalk {
  import opened Entries
  import opened Lists
  import opened Pools
  import opened Ancestry
  import opened FiniteSets

  /** For each entry the order in which its set of parents is iterated. A hash set yields its members in
      an order that is arbitrary, but the same every time while the set is unchanged. */
  type Orders = map<Txid, seq<Txid>>

  ghost predicate Enumerates(es: Table, orders: Orders) {
    orders.Keys == es.Keys && forall t :: t in es ==> EnumeratesParents(es, orders, t)
  }

  ghost predicate EnumeratesParents(es: Table, orders: Orders, t: Txid)
    requires t in es && t in orders
  {
    IsOrderOf(orders[t], es[t].parents)
  }

  ghost predicate IsOrderOf(s: seq<Txid>, members: set<Txid>) {
    NoRepeats(s) && Elements(s) == members
  }

  /** The members of a list that have not been visited, in order. */
  function Unseen(s: seq<Txid>, visited: set<Txid>): seq<Txid> {
    if s == [] then []
    else Unseen(s[..|s| - 1], visited) + (if s[|s| - 1] in visited then [] else [s[|s| - 1]])
  }

  /** What one visit finds. */
  function Found(orders: Orders, current: Txid, visited: set<Txid>): seq<Txid> {
    if current in orders then Unseen(orders[current], visited + {current}) else []
  }

  /** What the walk lists from a worklist on: it pops the last transaction, and unless that was visited
      before, lists and queues its unvisited parents. */
  function Walk(orders: Orders, toVisit: seq<Txid>, visited: set<Txid>): seq<Txid>
    decreases |orders.Keys - visited|, |toVisit|
  {
    if toVisit == [] then [] else
    var current, left := toVisit[|toVisit| - 1], toVisit[..|toVisit| - 1];
    OneFewer(orders.Keys, visited, current);
    if current in visited || current !in orders then Walk(orders, left, visited + {current})
    else
      var found := Found(orders, current, visited);
      found + Walk(orders, left + found, visited + {current})
  }

  /** What `get_ancestors` returns. */
  function Listing(orders: Orders, t: Txid): seq<Txid> {
    Walk(orders, [t], {})
  }

  function Listings(orders: Orders): map<Txid, seq<Txid>> {
    map t | t in orders :: Listing(orders, t)
  }

  // ---------------------------------------------------------------- what is listed

  /** A list of the ancestors of `t`, possibly repeated, each one found as a parent of `t` or of something
      listed before it. */
  ghost predicate IsListing(es: Table, t: Txid, list: seq<Txid>) {
    && t in es
    && Elements(list) == Ancestors(es, t)
    && forall i :: 0 <= i < |list| ==> FoundFrom(es, t, list, i)
  }

  ghost predicate FoundFrom(es: Table, t: Txid, list: seq<Txid>, i: nat)
    requires t in es && i < |list|
  {
    list[i] in es[t].parents || exists j :: 0 <= j < i && list[j] in es && list[i] in es[list[j]].parents
  }

  ghost predicate AreListings(es: Table, lists: map<Txid, seq<Txid>>) {
    lists.Keys == es.Keys && forall t :: t in es ==> IsListing(es, t, lists[t])
  }

  /** What the walk from `t` keeps: everything seen is `t` or an ancestor of it, everything listed
      is visited or queued, and the parents of what is visited are listed. */
  ghost predicate Walking(es: Table, t: Txid, ancestors: seq<Txid>, toVisit: seq<Txid>, visited: set<Txid>) {
    && Elements(ancestors) <= Ancestors(es, t)
    && Elements(toVisit) + visited == {t} + Elements(ancestors)
    && (forall v :: v in visited && v in es ==> es[v].parents <= Elements(ancestors))
    && (t in es ==> forall i :: 0 <= i < |ancestors| ==> FoundFrom(es, t, ancestors, i))
  }

  lemma {:induction false} UnseenExact(s: seq<Txid>, visited: set<Txid>)
    ensures Elements(Unseen(s, visited)) == Elements(s) - visited
  {
    if s != [] {
      var before, last := s[..|s| - 1], s[|s| - 1];
      UnseenExact(before, visited);
      assert s == before + [last];
      ElementsAppended(before, last);
      if last in visited {
        Reassociate<Txid>(Unseen(before, visited), [], []);
        assert Elements(before) + {last} - visited == Elements(before) - visited;
      } else {
        ElementsAppended(Unseen(before, visited), last);
        assert Elements(before) + {last} - visited == Elements(before) - visited + {last};
      }
    }
  }

  lemma {:induction false} UnseenFirst(s: seq<Txid>, visited: set<Txid>)
    requires s != [] && s[0] !in visited
    ensures Unseen(s, visited) != [] && Unseen(s, visited)[0] == s[0]
  {
    if |s| > 1 {
      UnseenFirst(s[..|s| - 1], visited);
    }
  }

  lemma FoundExact(es: Table, orders: Orders, current: Txid, visited: set<Txid>)
    requires Enumerates(es, orders)
    ensures Elements(Found(orders, current, visited))
         == (if current in es then es[current].parents else {}) - (visited + {current})
  {
    if current in es {
      assert EnumeratesParents(es, orders, current);
      UnseenExact(orders[current], visited + {current});
    }
  }

  lemma {:induction false} WalkVisits(orders: Orders, left: seq<Txid>, visited: set<Txid>, current: Txid)
    requires current !in visited
    ensures var found := Found(orders, current, visited);
            Walk(orders, left + [current], visited) == found + Walk(orders, left + found, visited + {current})
  {
    assert (left + [current])[..|left|] == left;
    if current !in orders {
      assert left + [] == left;
    }
  }

  lemma {:induction false} WalkPasses(orders: Orders, left: seq<Txid>, visited: set<Txid>, current: Txid)
    requires current in visited
    ensures Walk(orders, left + [current], visited) == Walk(orders, left, visited)
  {
    assert (left + [current])[..|left|] == left;
    assert visited + {current} == visited;
  }

  ghost predicate ListsAncestors(es: Table, t: Txid, all: seq<Txid>) {
    Elements(all) == Ancestors(es, t) && t !in all && (t in es ==> IsListing(es, t, all))
  }

  /** On a linked table the walk lists, in all, exactly the proper ancestors of its start. */
  lemma {:induction false} WalkLists(es: Table, stamp: map<Txid, nat>, orders: Orders, t: Txid,
                                     ancestors: seq<Txid>, toVisit: seq<Txid>, visited: set<Txid>)
    requires Links(es, stamp) && Enumerates(es, orders) && Walking(es, t, ancestors, toVisit, visited)
    ensures ListsAncestors(es, t, ancestors + Walk(orders, toVisit, visited))
    decreases |orders.Keys + {t} - visited|, |toVisit|
  {
    if toVisit == [] {
      Reassociate<Txid>(ancestors, [], []);
      WalkEnds(es, stamp, t, ancestors, visited);
    } else {
      var current, left := toVisit[|toVisit| - 1], toVisit[..|toVisit| - 1];
      assert toVisit == left + [current];
      OneFewer(orders.Keys + {t}, visited, current);
      if current in visited {
        WalkPasses(orders, left, visited, current);
        WalkSkips(es, t, ancestors, left, visited, current);
        WalkLists(es, stamp, orders, t, ancestors, left, visited);
      } else {
        var found := Found(orders, current, visited);
        WalkVisits(orders, left, visited, current);
        WalkGoesOn(es, stamp, orders, t, ancestors, left, visited, current);
        WalkLists(es, stamp, orders, t, ancestors + found, left + found, visited + {current});
        Reassociate(ancestors, found, Walk(orders, left + found, visited + {current}));
      }
    }
  }

  lemma WalkGoesOn(es: Table, stamp: map<Txid, nat>, orders: Orders, t: Txid,
                   ancestors: seq<Txid>, left: seq<Txid>, visited: set<Txid>, current: Txid)
    requires Links(es, stamp) && Enumerates(es, orders)
    requires Walking(es, t, ancestors, left + [current], visited) && current !in visited
    ensures var found := Found(orders, current, visited);
            Walking(es, t, ancestors + found, left + found, visited + {current})
    ensures current in orders.Keys + {t}
  {
    FoundExact(es, orders, current, visited);
    WalkSteps(es, stamp, t, ancestors, left, visited, current, Found(orders, current, visited));
    WalkStaysInside(es, t, ancestors, left, visited, current);
  }

  /** The walk from any transaction lists exactly its proper ancestors, each after what it was found from. */
  lemma ListingExact(es: Table, stamp: map<Txid, nat>, orders: Orders, t: Txid)
    requires Links(es, stamp) && Enumerates(es, orders)
    ensures ListsAncestors(es, t, Listing(orders, t))
  {
    WalkStarts(es, t);
    WalkLists(es, stamp, orders, t, [], [t], {});
    assert [] + Listing(orders, t) == Listing(orders, t);
  }

  lemma ListingsExact(es: Table, stamp: map<Txid, nat>, orders: Orders)
    requires Links(es, stamp) && Enumerates(es, orders)
    ensures AreListings(es, Listings(orders))
  {
    forall t | t in es
      ensures IsListing(es, t, Listings(orders)[t])
    {
      ListingExact(es, stamp, orders, t);
    }
  }

  /** The first parent to be iterated is the first to be listed. */
  lemma ListingFirst(es: Table, stamp: map<Txid, nat>, orders: Orders, t: Txid)
    requires Links(es, stamp) && Enumerates(es, orders) && t in es && orders[t] != []
    ensures Listing(orders, t) != [] && Listing(orders, t)[0] == orders[t][0]
  {
    var q := orders[t][0];
    assert EnumeratesParents(es, orders, t);
    assert q in Elements(orders[t]);
    assert q != t;
    UnseenFirst(orders[t], {} + {t});
    assert [t][..0] == [];
    assert Listing(orders, t) == Found(orders, t, {}) + Walk(orders, [] + Found(orders, t, {}), {} + {t});
  }

  /** The parents of every entry can be iterated in some order ... */
  lemma {:induction false} OrdersExist(es: Table) returns (orders: Orders)
    ensures Enumerates(es, orders)
  {
    forall t | t in es
      ensures exists s :: IsOrderOf(s, es[t].parents)
    {
      var s := ListOf(es[t].parents);
      assert IsOrderOf(s, es[t].parents);
    }
    orders := map t | t in es :: var s :| IsOrderOf(s, es[t].parents); s;
  }

  /** ... and any one parent of an entry may come first. */
  lemma OrdersWithFirst(es: Table, t: Txid, q: Txid) returns (orders: Orders)
    requires t in es && q in es[t].parents
    ensures Enumerates(es, orders) && orders[t] != [] && orders[t][0] == q
  {
    var some := OrdersExist(es);
    var rest := ListOf(es[t].parents - {q});
    orders := some[t := [q] + rest];
    ElementsConcat([q], rest);
    ElementsSingle(q);
    NoRepeatsConcat([q], rest);
    forall x | x in es
      ensures EnumeratesParents(es, orders, x)
    {
      assert EnumeratesParents(es, some, x);
    }
  }

  // ---------------------------------------------------------------- one step of the walk

  lemma WalkStarts(es: Table, t: Txid)
    ensures Walking(es, t, [], [t], {})
  {
    ElementsSingle(t);
    assert Elements<Txid>([]) == {};
  }

  lemma WalkSkips(es: Table, t: Txid, ancestors: seq<Txid>, toVisit: seq<Txid>, visited: set<Txid>, current: Txid)
    requires Walking(es, t, ancestors, toVisit + [current], visited) && current in visited
    ensures Walking(es, t, ancestors, toVisit, visited)
  {
    ElementsConcat(toVisit, [current]);
    ElementsSingle(current);
  }

  lemma WalkStaysInside(es: Table, t: Txid, ancestors: seq<Txid>, toVisit: seq<Txid>, visited: set<Txid>, current: Txid)
    requires Walking(es, t, ancestors, toVisit + [current], visited)
    ensures current in {t} + Elements(ancestors) && current in es.Keys + {t}
  {
    ElementsConcat(toVisit, [current]);
    ElementsSingle(current);
  }

  lemma WalkSteps(es: Table, stamp: map<Txid, nat>, t: Txid, ancestors: seq<Txid>, toVisit: seq<Txid>,
                  visited: set<Txid>, current: Txid, found: seq<Txid>)
    requires Links(es, stamp) && Walking(es, t, ancestors, toVisit + [current], visited) && current !in visited
    requires Elements(found) == (if current in es then es[current].parents else {}) - (visited + {current})
    ensures Walking(es, t, ancestors + found, toVisit + found, visited + {current})
  {
    WalkStaysInside(es, t, ancestors, toVisit, visited, current);
    ElementsConcat(toVisit, [current]);
    ElementsSingle(current);
    ElementsConcat(toVisit, found);
    ElementsConcat(ancestors, found);
    if current in es {
      ParentsAreAncestors(es, stamp, t, current);
      WalkListsParents(es, t, ancestors, toVisit, visited, current, found);
      if t in es {
        WalkFinds(es, t, ancestors, current, found);
      }
    } else {
      NoElements(found);
      assert ancestors + found == ancestors;
    }
  }

  /** Everything the walk reaches from `t` is a proper ancestor of `t`; `t` itself never recurs. */
  lemma ParentsAreAncestors(es: Table, stamp: map<Txid, nat>, t: Txid, current: Txid)
    requires Links(es, stamp) && current in es && (current == t || current in Ancestors(es, t))
    ensures es[current].parents <= Ancestors(es, t) && t !in es[current].parents && current !in es[current].parents
  {
    forall q | q in es[current].parents
      ensures q in Ancestors(es, t)
    {
      AncestorUnfold(es, q, current);
      if current != t {
        AncestorTransitive(es, stamp, q, current, t);
      }
    }
    NotOwnAncestor(es, stamp, t);
    NotOwnAncestor(es, stamp, current);
    AncestorUnfold(es, current, current);
  }

  lemma WalkListsParents(es: Table, t: Txid, ancestors: seq<Txid>, toVisit: seq<Txid>, visited: set<Txid>,
                         current: Txid, found: seq<Txid>)
    requires Walking(es, t, ancestors, toVisit + [current], visited) && current in es
    requires t !in es[current].parents && current !in es[current].parents
    requires Elements(found) == es[current].parents - (visited + {current})
    ensures es[current].parents <= Elements(ancestors) + Elements(found)
  {
    forall q | q in es[current].parents
      ensures q in Elements(ancestors) + Elements(found)
    {
      assert q in visited ==> q in {t} + Elements(ancestors);
    }
  }

  lemma WalkFinds(es: Table, t: Txid, ancestors: seq<Txid>, current: Txid, found: seq<Txid>)
    requires t in es && current in es && current in {t} + Elements(ancestors)
    requires Elements(found) <= es[current].parents
    requires forall i :: 0 <= i < |ancestors| ==> FoundFrom(es, t, ancestors, i)
    ensures forall i :: 0 <= i < |ancestors + found| ==> FoundFrom(es, t, ancestors + found, i)
  {
    var list := ancestors + found;
    forall i | 0 <= i < |list|
      ensures FoundFrom(es, t, list, i)
    {
      if i < |ancestors| {
        assert FoundFrom(es, t, ancestors, i);
        if list[i] !in es[t].parents {
          var j :| 0 <= j < i && ancestors[j] in es && ancestors[i] in es[ancestors[j]].parents;
          assert list[j] == ancestors[j];
        }
      } else {
        assert found[i - |ancestors|] in Elements(found);
        if current != t {
          var j :| 0 <= j < |ancestors| && ancestors[j] == current;
          assert list[j] == current;
        }
      }
    }
  }

  lemma WalkEnds(es: Table, stamp: map<Txid, nat>, t: Txid, ancestors: seq<Txid>, visited: set<Txid>)
    requires Links(es, stamp) && Walking(es, t, ancestors, [], visited)
    ensures Elements(ancestors) == Ancestors(es, t)
    ensures t !in ancestors
  {
    assert Elements<Txid>([]) == {};
    ClosedContainsAncestors(es, stamp, Elements(ancestors), t);
    NotOwnAncestor(es, stamp, t);
    assert t !in Elements(ancestors);
  }
}
