/** Concrete runs, under the default policy, of what the pool does not promise: a rejected transaction
    can cost the pool the transactions it meant to replace, a replacement can lower the pool's fees, and a
    transaction that is reported as added can be gone at once. */
module Witnesses {
  import opened Policy
  import opened Entries
  import opened FiniteSums
  import opened Lists
  import opened Pools
  import opened PoolOperations
  import opened PoolRuns
  import opened PoolHistory

  const DEFAULT: Policy := Policy(300 * 1024 * 1024, 336 * 3600, 1, 25, 101, 100_000, 1, true)

  /** Two outputs of a transaction that is not in the pool. */
  const COIN: OutPoint := OutPoint(0, 0)
  const OTHER: OutPoint := OutPoint(0, 1)

  function Spend(txid: Txid, outpoints: seq<OutPoint>, vsize: nat): Transaction {
    Transaction(txid, seq(|outpoints|, i requires 0 <= i < |outpoints| => TxIn(outpoints[i], 0)), vsize, 4 * vsize)
  }

  function Add(tx: Transaction, fee: nat): Op {
    AddTx(tx, fee, 0, 0, true, [])
  }

  /** A call of `add_tx` that takes `p` to `p'` and has nothing to evict. */
  ghost predicate Adds(policy: Policy, p: Pool, tx: Transaction, fee: nat, p': Pool) {
    Legal(policy, p, Add(tx, fee)) && Apply(policy, p, Add(tx, fee)) == p'
  }

  // ---------------------------------------------------------------- runs

  /** A run that ends in this pool. */
  ghost predicate Reaches(policy: Policy, ops: seq<Op>, p: Pool) {
    LegalRun(policy, ops) && Run(policy, ops) == p
  }

  lemma {:induction false} ReachesFirst(policy: Policy, p: Pool, tx: Transaction, fee: nat, p': Pool)
    returns (ops: seq<Op>)
    requires p == EMPTY && Adds(policy, p, tx, fee, p')
    ensures Reaches(policy, ops, p')
  {
    assert Reaches(policy, [], EMPTY);
    ops := ReachesNext(policy, [], p, tx, fee, p');
  }

  lemma {:induction false} ReachesNext(policy: Policy, before: seq<Op>, p: Pool, tx: Transaction, fee: nat, p': Pool)
    returns (ops: seq<Op>)
    requires Reaches(policy, before, p) && Adds(policy, p, tx, fee, p')
    ensures Reaches(policy, ops, p')
  {
    ops := before + [Add(tx, fee)];
    assert ops[..|ops| - 1] == before;
  }

  // ---------------------------------------------------------------- what is accepted

  /** The default policy, but for the size limit. */
  ghost predicate LikeDefault(policy: Policy) {
    policy == DEFAULT.(maxSize := policy.maxSize)
  }

  /** A transaction that meets every check and conflicts with nothing is admitted ... */
  lemma {:induction false} Admitted(policy: Policy, p: Pool, tx: Transaction, fee: nat)
    requires LikeDefault(policy)
    requires tx.txid !in p.entries && 0 < tx.vsize <= DEFAULT.maxTxSize && fee >= tx.vsize && FindConflicts(p, tx) == []
    requires var e := Linked(p.entries, NewEntry(tx, fee, 0, 0));
             CheckAncestorLimits(DEFAULT, e.ancestorCount, e.ancestorSize).Pass?
    ensures Admit(policy, p, tx, fee, 0, 0, true) == (Inserted(p, Linked(p.entries, NewEntry(tx, fee, 0, 0))), Pass)
  {
    RateFloor(fee, tx.vsize, 1);
  }

  /** ... and goes in, if there is room. */
  lemma {:induction false} Joins(policy: Policy, p: Pool, tx: Transaction, fee: nat)
    requires LikeDefault(policy) && p.totalSize + tx.vsize <= policy.maxSize
    requires tx.txid !in p.entries && 0 < tx.vsize <= DEFAULT.maxTxSize && fee >= tx.vsize && FindConflicts(p, tx) == []
    requires var e := Linked(p.entries, NewEntry(tx, fee, 0, 0));
             CheckAncestorLimits(DEFAULT, e.ancestorCount, e.ancestorSize).Pass?
    ensures Adds(policy, p, tx, fee, Inserted(p, Linked(p.entries, NewEntry(tx, fee, 0, 0))))
  {
    Admitted(policy, p, tx, fee);
  }

  lemma {:induction false} SpendsOne(p: Pool, tx: Transaction, o: OutPoint)
    requires tx == Spend(tx.txid, [o], tx.vsize) && o !in p.spends
    ensures FindConflicts(p, tx) == [] && Outpoints(tx) == {o} && InputTxids(tx) == {o.txid}
  {
    assert tx.inputs[0] == TxIn(o, 0);
    assert ConflictsUpTo(p.spends, tx, 0) == [];
  }

  /** The pool with one more entry, which spends `o`. */
  function WithEntry(p: Pool, e: Entry, o: OutPoint): Pool {
    Pool(p.entries[e.tx.txid := e], p.spends[o := e.tx.txid], p.totalSize + e.vsize, p.totalFees + e.fee)
  }

  lemma {:induction false} RootInserted(p: Pool, tx: Transaction, fee: nat, o: OutPoint)
    requires tx == Spend(tx.txid, [o], tx.vsize) && o !in p.spends && o.txid !in p.entries
    ensures var e := NewEntry(tx, fee, 0, 0);
            Linked(p.entries, e) == e && Inserted(p, e) == WithEntry(p, e, o)
  {
    SpendsOne(p, tx, o);
    var e := NewEntry(tx, fee, 0, 0);
    assert Linked(p.entries, e) == e;
    assert Inserted(p, e).entries == WithEntry(p, e, o).entries;
    assert Inserted(p, e).spends == WithEntry(p, e, o).spends;
  }

  lemma {:induction false} RootAdmitted(policy: Policy, p: Pool, tx: Transaction, fee: nat, o: OutPoint)
    requires LikeDefault(policy)
    requires tx == Spend(tx.txid, [o], tx.vsize) && o !in p.spends && o.txid !in p.entries
    requires tx.txid !in p.entries && 0 < tx.vsize <= DEFAULT.maxTxSize && fee >= tx.vsize
    ensures Admit(policy, p, tx, fee, 0, 0, true) == (WithEntry(p, NewEntry(tx, fee, 0, 0), o), Pass)
  {
    SpendsOne(p, tx, o);
    RootInserted(p, tx, fee, o);
    Admitted(policy, p, tx, fee);
  }

  lemma {:induction false} RootJoins(policy: Policy, p: Pool, tx: Transaction, fee: nat, o: OutPoint)
    requires LikeDefault(policy) && p.totalSize + tx.vsize <= policy.maxSize
    requires tx == Spend(tx.txid, [o], tx.vsize) && o !in p.spends && o.txid !in p.entries
    requires tx.txid !in p.entries && 0 < tx.vsize <= DEFAULT.maxTxSize && fee >= tx.vsize
    ensures Adds(policy, p, tx, fee, WithEntry(p, NewEntry(tx, fee, 0, 0), o))
  {
    RootAdmitted(policy, p, tx, fee, o);
  }

  lemma {:induction false} OneParent(es: Table, tx: Transaction, fee: nat, q: Txid)
    requires FindParents(es, tx) == {q}
    ensures Linked(es, NewEntry(tx, fee, 0, 0)) == ChildEntry(es[q], tx, fee, q)
  {
    forall m
      ensures Sum({q}, RecordedOf(es, m)) == Recorded(m, es[q])
    {
      SumSplit({q}, RecordedOf(es, m), q);
      assert {q} - {q} == {};
    }
    assert Sum({q}, RecordedOf(es, Count)) == Recorded(Count, es[q])
           && Sum({q}, RecordedOf(es, Size)) == Recorded(Size, es[q])
           && Sum({q}, RecordedOf(es, Fees)) == Recorded(Fees, es[q]);
  }

  function ChildEntry(parent: Entry, tx: Transaction, fee: nat, q: Txid): Entry {
    NewEntry(tx, fee, 0, 0).(
      parents := {q},
      ancestorSize := parent.ancestorSize + tx.vsize,
      ancestorCount := parent.ancestorCount + 1,
      ancestorFees := parent.ancestorFees + fee)
  }

  function WithLink(p: Pool, e: Entry, q: Txid): Pool
    requires q in p.entries
  {
    WithEntry(p.(entries := p.entries[q := WithChild(p.entries[q], e.tx.txid, e)]), e, OutPoint(q, 0))
  }

  /** A transaction that spends one output of one pool transaction. */
  lemma {:induction false} ChildJoins(p: Pool, tx: Transaction, fee: nat, q: Txid)
    requires tx == Spend(tx.txid, [OutPoint(q, 0)], 100) && tx.txid !in p.entries && q in p.entries
             && OutPoint(q, 0) !in p.spends
    requires fee >= 100 && p.totalSize <= 1000 && p.entries[q].ancestorCount < 25 && p.entries[q].ancestorSize <= 1000
    ensures Adds(DEFAULT, p, tx, fee, WithLink(p, ChildEntry(p.entries[q], tx, fee, q), q))
  {
    SpendsOne(p, tx, OutPoint(q, 0));
    OneParent(p.entries, tx, fee, q);
    Joins(DEFAULT, p, tx, fee);
    var e := ChildEntry(p.entries[q], tx, fee, q);
    assert Inserted(p, e).entries == WithLink(p, e, q).entries;
    assert Inserted(p, e).spends == WithLink(p, e, q).spends;
  }

  // ---------------------------------------------------------------- replacement

  function Coined(): Transaction { Spend(1, [COIN], 100) }

  /** The pool that holds one transaction, which spends the coin and signals. */
  function OnlyCoined(fee: nat): Pool {
    Pool(map[1 := NewEntry(Coined(), fee, 0, 0)], map[COIN := 1], 100, fee)
  }

  lemma {:induction false} CoinedAdded(policy: Policy, p: Pool, tx: Transaction, fee: nat)
    requires LikeDefault(policy) && policy.maxSize >= 100 && p == EMPTY && tx == Coined() && fee >= 100
    ensures Adds(policy, p, tx, fee, OnlyCoined(fee))
  {
    RootJoins(policy, p, tx, fee, COIN);
    assert WithEntry(p, NewEntry(tx, fee, 0, 0), COIN) == OnlyCoined(fee);
  }

  lemma {:induction false} CoinedReached(policy: Policy, fee: nat) returns (ops: seq<Op>)
    requires LikeDefault(policy) && policy.maxSize >= 100 && fee >= 100
    ensures Reaches(policy, ops, OnlyCoined(fee))
  {
    CoinedAdded(policy, EMPTY, Coined(), fee);
    ops := ReachesFirst(policy, EMPTY, Coined(), fee, OnlyCoined(fee));
  }

  /** A replacement of the same size needs no bump: it gets in with a fifth of the fee, and the pool
      ends up with less. */
  lemma {:induction false} ReplacementLowersFees() returns (ops: seq<Op>)
    ensures Reaches(DEFAULT, ops, OnlyCoined(500))
    ensures var (p', outcome) := Admit(DEFAULT, OnlyCoined(500), Spend(2, [COIN], 100), 100, 0, 0, true);
            outcome == Pass && p'.totalFees == 100 < OnlyCoined(500).totalFees
  {
    ops := CoinedReached(DEFAULT, 500);
    SameSizeReplaces(OnlyCoined(500), Spend(2, [COIN], 100), 500, 100);
  }

  lemma {:induction false} SameSizeReplaces(p: Pool, tx: Transaction, paid: nat, fee: nat)
    requires p == OnlyCoined(paid) && tx == Spend(2, [COIN], 100) && fee >= 100
    ensures Admit(DEFAULT, p, tx, fee, 0, 0, true).1 == Pass
    ensures Admit(DEFAULT, p, tx, fee, 0, 0, true).0.totalFees == fee
  {
    assert tx.inputs[0].previousOutput == COIN && tx.inputs[0].sequence == 0;
    assert ConflictsUpTo(p.spends, tx, 0) == [];
    assert FindConflicts(p, tx) == [1];
    assert Coined().inputs[0].sequence == 0;
    CoinedTotals(p.entries, paid);
    RateFloor(fee, 100, 1);
    assert CheckReplacement(DEFAULT, p.entries, NewEntry(tx, fee, 0, 0), [1]) == Pass;
    RemoveCoined(p);
    assert Linked(map[], NewEntry(tx, fee, 0, 0)) == NewEntry(tx, fee, 0, 0);
  }

  lemma {:induction false} RemoveCoined(p: Pool)
    requires 1 in p.entries && p.entries[1].tx == Coined() && p.entries[1].parents == {} && p.entries[1].children == {}
    ensures RemovedAll(p, [1]).entries == p.entries - {1}
    ensures RemovedAll(p, [1]).totalFees == p.totalFees - p.entries[1].fee
  {
    assert RemovedAll(p, [1]) == RemovedAll(Removed(p, 1), []);
  }

  function Big(): Transaction { Spend(2, [OTHER], 100_000) }

  function CoinedAndBig(): Pool {
    WithEntry(OnlyCoined(100), NewEntry(Big(), 100_000, 0, 0), OTHER)
  }

  lemma {:induction false} BigAdded(p: Pool, tx: Transaction, fee: nat)
    requires p == OnlyCoined(100) && tx == Big() && fee == 100_000
    ensures Adds(DEFAULT, p, tx, fee, CoinedAndBig())
  {
    RootJoins(DEFAULT, p, tx, fee, OTHER);
  }

  lemma {:induction false} BigReached() returns (ops: seq<Op>)
    ensures Reaches(DEFAULT, ops, CoinedAndBig())
  {
    var before := CoinedReached(DEFAULT, 100);
    BigAdded(OnlyCoined(100), Big(), 100_000);
    ops := ReachesNext(DEFAULT, before, OnlyCoined(100), Big(), 100_000, CoinedAndBig());
  }

  /** A transaction whose parent is too large for it: it is turned down for its ancestors' size, but
      only after the transaction it was to replace has been taken out. */
  lemma {:induction false} RejectionLosesConflict() returns (ops: seq<Op>)
    ensures Reaches(DEFAULT, ops, CoinedAndBig()) && CoinedAndBig().entries.Keys == {1, 2}
    ensures var (p', outcome) := Admit(DEFAULT, CoinedAndBig(), Spend(3, [COIN, OutPoint(2, 0)], 4000), 4000, 0, 0,
                                       true);
            outcome == Fail(AncestorSizeTooLarge) && p'.entries.Keys == {2}
  {
    ops := BigReached();
    TooLargeTogether(CoinedAndBig(), Spend(3, [COIN, OutPoint(2, 0)], 4000), Big());
  }

  lemma {:induction false} MayReplace(q: Pool, tx: Transaction)
    requires tx == Spend(3, [COIN, OutPoint(2, 0)], 4000) && q == CoinedAndBig()
    ensures FindConflicts(q, tx) == [1] && CheckReplacement(DEFAULT, q.entries, NewEntry(tx, 4000, 0, 0), [1]) == Pass
  {
    assert tx.inputs[0] == TxIn(COIN, 0) && tx.inputs[1] == TxIn(OutPoint(2, 0), 0);
    assert ConflictsUpTo(q.spends, tx, 0) == [];
    assert ConflictsUpTo(q.spends, tx, 1) == [1];
    assert Coined().inputs[0].sequence == 0;
    CoinedTotals(q.entries, 100);
  }

  /** What the coined transaction weighs and pays, alone in a list. */
  lemma {:induction false} CoinedTotals(es: Table, fee: nat)
    requires 1 in es && es[1] == NewEntry(Coined(), fee, 0, 0)
    ensures ListTotal(es, Fees, [1]) == fee && ListTotal(es, Size, [1]) == 100
  {
    assert [1][1..] == [];
    assert ListTotal(es, Fees, [1][1..]) == 0 && ListTotal(es, Size, [1][1..]) == 0;
  }

  lemma {:induction false} BigIsParent(es: Table, tx: Transaction, big: Transaction)
    requires es == CoinedAndBig().entries - {1} && tx == Spend(3, [COIN, OutPoint(2, 0)], 4000) && big == Big()
    ensures es == map[2 := NewEntry(big, 100_000, 0, 0)] && FindParents(es, tx) == {2}
  {
    assert tx.inputs[0] == TxIn(COIN, 0) && tx.inputs[1] == TxIn(OutPoint(2, 0), 0);
    assert es == map[2 := NewEntry(big, 100_000, 0, 0)];
  }

  lemma {:induction false} TooLargeTogether(q: Pool, tx: Transaction, big: Transaction)
    requires tx == Spend(3, [COIN, OutPoint(2, 0)], 4000) && q == CoinedAndBig() && big == Big()
    ensures Admit(DEFAULT, q, tx, 4000, 0, 0, true).1 == Fail(AncestorSizeTooLarge)
    ensures Admit(DEFAULT, q, tx, 4000, 0, 0, true).0.entries.Keys == {2}
  {
    MayReplace(q, tx);
    RemoveCoined(q);
    BigIsParent(q.entries - {1}, tx, big);
    OneParent(q.entries - {1}, tx, 4000, 2);
  }

  // ---------------------------------------------------------------- eviction

  function Cheap(): Transaction { Spend(2, [OTHER], 100) }

  function CoinedAndCheap(): Pool {
    WithEntry(OnlyCoined(500), NewEntry(Cheap(), 100, 0, 0), OTHER)
  }

  lemma {:induction false} CheapAdmitted(policy: Policy, p: Pool, tx: Transaction, fee: nat)
    requires LikeDefault(policy) && p == OnlyCoined(500) && tx == Cheap() && fee == 100
    ensures Admit(policy, p, tx, fee, 0, 0, true) == (CoinedAndCheap(), Pass)
  {
    RootAdmitted(policy, p, tx, fee, OTHER);
  }

  lemma {:induction false} CheapFirst(es: Table, order: seq<Txid>)
    requires es == CoinedAndCheap().entries && order == [2, 1]
    ensures ByFeeRate(es, order) && ListTotal(es, Size, order[0..]) == 200
  {
    assert Elements(order) == es.Keys;
    assert order[0..] == order;
    assert ListTotal(es, Size, [2, 1]) == 100 + ListTotal(es, Size, [2, 1][1..]);
    assert ListTotal(es, Size, [1]) == 100 + ListTotal(es, Size, [1][1..]);
    assert [2, 1][1..] == [1] && [1][1..] == [];
  }

  /** In a pool that has room for one of them, a transaction that pays a fifth of the other's fee is reported
      as added and evicted at once. */
  lemma {:induction false} AddedIsEvicted(policy: Policy, p: Pool, tx: Transaction, order: seq<Txid>)
    returns (ops: seq<Op>)
    requires LikeDefault(policy) && policy.maxSize == 150 && p == OnlyCoined(500) && tx == Cheap() && order == [2, 1]
    ensures Reaches(policy, ops, p) && Legal(policy, p, AddTx(tx, 100, 0, 0, true, order))
    ensures Admit(policy, p, tx, 100, 0, 0, true).1 == Pass
    ensures tx.txid !in Apply(policy, p, AddTx(tx, 100, 0, 0, true, order)).entries
  {
    ops := CoinedReached(policy, 500);
    RunSound(policy, ops);
    CheapAdmitted(policy, p, tx, 100);
    CheapFirst(CoinedAndCheap().entries, order);
    AddedStaysIff(policy, p, tx, 100, 0, 0, true, order, 0);
  }
}
