/** Facts about the ancestor relation of a pool's link graph. */
module Ancestry {
  import opened Entries
  import opened Pools

  /** An ancestor is a parent, or an ancestor of a parent. */
  lemma {:induction false} AncestorUnfold(es: Table, a: Txid, t: Txid)
    ensures IsAncestor(es, a, t) <==>
            t in es && (a in es[t].parents || exists q :: q in es[t].parents && IsAncestor(es, a, q))
  {
    if IsAncestor(es, a, t) {
      var walk :| WalkFromTo(es, walk, t, a);
      assert StepsUp(es, walk, 0);
      if |walk| > 2 {
        var rest := walk[1..];
        forall i | 0 <= i < |rest| - 1
          ensures StepsUp(es, rest, i)
        {
          assert StepsUp(es, walk, i + 1);
        }
        assert WalkFromTo(es, rest, walk[1], a);
      }
    }
    if t in es && a in es[t].parents {
      assert WalkFromTo(es, [t, a], t, a);
    }
    if t in es && exists q :: q in es[t].parents && IsAncestor(es, a, q) {
      var q :| q in es[t].parents && IsAncestor(es, a, q);
      var rest :| WalkFromTo(es, rest, q, a);
      var walk := [t] + rest;
      forall i | 0 <= i < |walk| - 1
        ensures StepsUp(es, walk, i)
      {
        assert i > 0 ==> StepsUp(es, rest, i - 1);
      }
      assert WalkFromTo(es, walk, t, a);
    }
  }

  /** Links run from younger to older, so ancestors are strictly older: the graph is acyclic. */
  lemma {:induction false} AncestorsOlder(es: Table, stamp: map<Txid, nat>, a: Txid, t: Txid)
    requires Links(es, stamp)
    requires IsAncestor(es, a, t)
    ensures a in es && t in es && stamp[a] < stamp[t]
    decreases if t in stamp then stamp[t] else 0
  {
    AncestorUnfold(es, a, t);
    if a !in es[t].parents {
      var q :| q in es[t].parents && IsAncestor(es, a, q);
      AncestorsOlder(es, stamp, a, q);
    }
  }

  /** No transaction is its own ancestor. */
  lemma NotOwnAncestor(es: Table, stamp: map<Txid, nat>, t: Txid)
    requires Links(es, stamp)
    ensures !IsAncestor(es, t, t)
    ensures t !in Ancestors(es, t)
  {
    if IsAncestor(es, t, t) {
      AncestorsOlder(es, stamp, t, t);
    }
  }

  lemma {:induction false} AncestorTransitive(es: Table, stamp: map<Txid, nat>, a: Txid, b: Txid, t: Txid)
    requires Links(es, stamp)
    requires IsAncestor(es, a, b) && IsAncestor(es, b, t)
    ensures IsAncestor(es, a, t)
    decreases if t in stamp then stamp[t] else 0
  {
    AncestorUnfold(es, b, t);
    AncestorUnfold(es, a, t);
    if b !in es[t].parents {
      var q :| q in es[t].parents && IsAncestor(es, b, q);
      assert stamp[q] < stamp[t];
      AncestorTransitive(es, stamp, a, b, q);
    }
  }

  /** A set that contains the parents of `t` and is closed under parents contains every
      ancestor of `t`: the closure is the least such set. */
  lemma {:induction false} ClosedContainsAncestors(es: Table, stamp: map<Txid, nat>, s: set<Txid>, t: Txid)
    requires Links(es, stamp)
    requires t in es ==> es[t].parents <= s
    requires forall x :: x in s && x in es ==> es[x].parents <= s
    ensures Ancestors(es, t) <= s
    decreases if t in stamp then stamp[t] else 0
  {
    forall a | a in Ancestors(es, t)
      ensures a in s
    {
      AncestorUnfold(es, a, t);
      if a !in es[t].parents {
        var q :| q in es[t].parents && IsAncestor(es, a, q);
        assert stamp[q] < stamp[t];
        ClosedContainsAncestors(es, stamp, s, q);
      }
    }
  }

  /** Fewer links, fewer ancestors. */
  lemma AncestorsShrink(es: Table, es': Table, a: Txid, t: Txid)
    requires forall x :: x in es' ==> x in es && es'[x].parents <= es[x].parents
    requires IsAncestor(es', a, t)
    ensures IsAncestor(es, a, t)
  {
    var walk :| WalkFromTo(es', walk, t, a);
    forall i | 0 <= i < |walk| - 1
      ensures StepsUp(es, walk, i)
    {
      assert StepsUp(es', walk, i);
    }
    assert WalkFromTo(es, walk, t, a);
  }

  /** Entries added outside a closed part of the graph give that part no new ancestors. */
  lemma {:induction false} AncestorsKept(es: Table, es': Table, stamp: map<Txid, nat>, t: Txid)
    requires Links(es, stamp)
    requires t in es
    requires forall x :: x in es ==> x in es' && es'[x].parents == es[x].parents
    ensures Ancestors(es', t) == Ancestors(es, t)
    decreases stamp[t]
  {
    forall a
      ensures a in Ancestors(es', t) <==> a in Ancestors(es, t)
    {
      AncestorUnfold(es, a, t);
      AncestorUnfold(es', a, t);
      forall q | q in es[t].parents
        ensures a in Ancestors(es', q) <==> a in Ancestors(es, q)
      {
        AncestorsKept(es, es', stamp, q);
      }
      if a in Ancestors(es', t) && a !in es[t].parents {
        var q :| q in es[t].parents && IsAncestor(es', a, q);
        assert a in Ancestors(es', q);
      }
      if a in Ancestors(es, t) && a !in es[t].parents {
        var q :| q in es[t].parents && IsAncestor(es, a, q);
        assert a in Ancestors(es, q);
      }
    }
  }

  /** A set of transactions together with all their ancestors. */
  ghost function WithAncestors(es: Table, s: set<Txid>): set<Txid> {
    set a | a in es && (a in s || exists q :: q in s && IsAncestor(es, a, q))
  }

  lemma AncestorsViaParents(es: Table, t: Txid)
    requires LinksClosed(es) && t in es
    ensures Ancestors(es, t) == WithAncestors(es, es[t].parents)
  {
    forall a
      ensures a in Ancestors(es, t) <==> a in WithAncestors(es, es[t].parents)
    {
      AncestorUnfold(es, a, t);
    }
  }
}
