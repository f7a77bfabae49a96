/** A concrete run, under the default policy, after which every block template exceeds its weight limit and
    lists a transaction before its parent. */
module TemplateWitnesses {
  import opened Entries
  import opened Lists
  import opened Pools
  import opened Ancestry
  import opened AncestorWalk
  import opened PoolRuns
  import opened BlockTemplate
  import opened TemplateLimit
  import opened TemplateOrder
  import opened Witnesses

  function Second(): Transaction { Spend(2, [OutPoint(1, 0)], 100) }
  function Third(): Transaction { Spend(3, [OutPoint(2, 0)], 100) }

  function SecondEntry(): Entry {
    ChildEntry(NewEntry(Coined(), 100, 0, 0), Second(), 400, 1)
  }

  function ThirdEntry(): Entry {
    ChildEntry(SecondEntry(), Third(), 900, 2)
  }

  /** Three transactions in a chain, each paying more than the one it spends from. */
  function TwoOfChain(): Pool {
    WithLink(OnlyCoined(100), SecondEntry(), 1)
  }

  function ChainPool(): Pool {
    WithLink(TwoOfChain(), ThirdEntry(), 2)
  }

  function ChainTable(): Table {
    map[1 := WithChild(NewEntry(Coined(), 100, 0, 0), 2, SecondEntry()), 2 := WithChild(SecondEntry(), 3, ThirdEntry()),
        3 := ThirdEntry()]
  }

  lemma {:induction false} SecondAdded(p: Pool, tx: Transaction, fee: nat)
    requires p == OnlyCoined(100) && tx == Second() && fee == 400
    ensures Adds(DEFAULT, p, tx, fee, TwoOfChain())
  {
    ChildJoins(p, tx, fee, 1);
  }

  lemma {:induction false} ThirdAdded(p: Pool, tx: Transaction, fee: nat)
    requires p == TwoOfChain() && tx == Third() && fee == 900
    ensures Adds(DEFAULT, p, tx, fee, ChainPool())
  {
    ChildJoins(p, tx, fee, 2);
  }

  lemma {:induction false} TwoReached() returns (ops: seq<Op>)
    ensures Reaches(DEFAULT, ops, TwoOfChain())
  {
    var before := CoinedReached(DEFAULT, 100);
    SecondAdded(OnlyCoined(100), Second(), 400);
    ops := ReachesNext(DEFAULT, before, OnlyCoined(100), Second(), 400, TwoOfChain());
  }

  lemma {:induction false} ChainReached() returns (ops: seq<Op>)
    ensures Reaches(DEFAULT, ops, ChainPool())
  {
    var before := TwoReached();
    ThirdAdded(TwoOfChain(), Third(), 900);
    ops := ReachesNext(DEFAULT, before, TwoOfChain(), Third(), 900, ChainPool());
  }

  lemma {:induction false} ChainIsTable()
    ensures ChainPool().entries == ChainTable()
  {
  }

  lemma {:induction false} ThirdGoesFirst(order: seq<Txid>)
    requires ByAncestorRate(ChainTable(), order)
    ensures order != [] && order[0] == 3
  {
    assert 3 in Elements(order);
    var i :| 0 <= i < |order| && order[i] == 3;
    ChainRates(order[0]);
  }

  lemma {:induction false} ChainRates(t: Txid)
    requires t in ChainTable()
    ensures t != 3 ==> AncestorFeeRate(ChainTable()[t]) < AncestorFeeRate(ChainTable()[3])
  {
    assert AncestorFeeRate(ChainTable()[1]) == 1 && AncestorFeeRate(ChainTable()[2]) == 2
           && AncestorFeeRate(ChainTable()[3]) == 4;
  }

  lemma {:induction false} ChainAncestors()
    ensures 1 in Ancestors(ChainTable(), 2) && 1 in Ancestors(ChainTable(), 3)
  {
    var es := ChainTable();
    AncestorUnfold(es, 1, 2);
    AncestorUnfold(es, 1, 3);
    assert 2 in es[3].parents;
  }

  /** A reached pool, the chain. With a limit that has room for one of its transactions, every template
      holds at least two: their weights are compared with the limit one at a time. And the second
      transaction of the chain comes out before the first, whose output it spends. */
  lemma {:induction false} TemplateOvershootsAndReverses(orders: Orders, order: seq<Txid>) returns (ops: seq<Op>)
    requires Enumerates(ChainPool().entries, orders) && ByAncestorRate(ChainPool().entries, order)
    ensures Reaches(DEFAULT, ops, ChainPool())
    ensures var template := Template(ChainPool().entries, Listings(orders), order, 400, |order|);
            WeightOf(ChainPool().entries, template) > 400 && !ParentsFirst(ChainPool().entries, template)
  {
    ops := ChainReached();
    ChainListings(ops, orders);
    ChainIsTable();
    ChainTemplate(Listings(orders), order);
  }

  lemma {:induction false} ChainListings(ops: seq<Op>, orders: Orders)
    requires Reaches(DEFAULT, ops, ChainPool()) && Enumerates(ChainPool().entries, orders)
    ensures AreListings(ChainPool().entries, Listings(orders))
  {
    RunSound(DEFAULT, ops);
    SoundListings(ChainPool(), orders);
  }

  lemma {:induction false} SoundListings(p: Pool, orders: Orders)
    requires Sound(DEFAULT, p) && Enumerates(p.entries, orders)
    ensures AreListings(p.entries, Listings(orders))
  {
    var stamp :| Inv(DEFAULT, p, stamp);
    ListingsExact(p.entries, stamp, orders);
  }

  lemma {:induction false} ChainTemplate(lists: map<Txid, seq<Txid>>, order: seq<Txid>)
    requires AreListings(ChainTable(), lists) && ByAncestorRate(ChainTable(), order)
    ensures var template := Template(ChainTable(), lists, order, 400, |order|);
            WeightOf(ChainTable(), template) > 400 && !ParentsFirst(ChainTable(), template)
  {
    ThirdGoesFirst(order);
    ChainAncestors();
    var es, list := ChainTable(), ListFor(lists, 3);
    assert 1 in Elements(list);
    assert FoundFrom(es, 3, list, 0);
    assert list[0] == 2;
    FirstTurn(es, list);
    assert Template(es, lists, order, 400, 1) == Extended(es, 400, Template(es, lists, order, 400, 0), list, 3);
    TemplateGrows(es, lists, order, 400, 1, |order|);
  }

  lemma {:induction false} FirstTurn(es: Table, list: seq<Txid>)
    requires es == ChainTable() && IsListing(es, 3, list) && list != [] && list[0] == 2
    ensures WeightOf(es, Extended(es, 400, [], list, 3)) > 400 && !ParentsFirst(es, Extended(es, 400, [], list, 3))
  {
    ChainAncestors();
    forall k | 0 <= k < |list|
      ensures WeightAt(es, list[k]) <= 400
    {
      assert list[k] in Elements(list);
    }
    NotBlockedIf(es, 400, [], list);
    OutOfOrder(es, 400, [], list, 3, 2, 1);
    var missing := Missing([], list);
    assert missing[0] == 2;
    assert [] + missing + [3] == missing + [3];
    WeightOfAppend(es, missing, [3]);
    WeightOfAtLeast(es, missing, 0);
  }
}
