/** The mempool object of src/mempool/txmempool.rs. Its fields are updated in place; each method
    is proved to take the pool to the state that the specification functions give. Every public
    operation is one atomic step. */
module Mempools {
  import opened Policy
  import opened Entries
  import opened FiniteSums
  import opened Lists
  import opened Pools
  import opened PoolInsertion
  import opened PoolOperations
  import opened Admission
  import opened PoolRuns
  import opened AncestorWalk
  import opened FiniteSets
  import opened BlockTemplate
  import opened TemplateOrder

  datatype Result<+T> = Success(value: T) | Failure(error: Error)

  /** The identifiers sorted by ascending key, ties in any order. */
  method SortBy(ts: set<Txid>, key: map<Txid, int>) returns (order: seq<Txid>)
    requires ts <= key.Keys
    ensures NoRepeats(order) && Elements(order) == ts
    ensures forall i :: 0 <= i < |order| ==> order[i] in ts
    ensures forall i, j :: 0 <= i < j < |order| ==> key[order[i]] <= key[order[j]]
  {
    order := [];
    var rest := ts;
    while rest != {}
      invariant rest <= ts && Elements(order) == ts - rest
      invariant forall i :: 0 <= i < |order| ==> order[i] in ts && order[i] !in rest
      invariant NoRepeats(order)
      invariant forall i, j :: 0 <= i < j < |order| ==> key[order[i]] <= key[order[j]]
      invariant forall i, t :: 0 <= i < |order| && t in rest ==> key[order[i]] <= key[t]
    {
      var least := LeastOf(rest, key);
      ghost var before := order;
      order := order + [least];
      rest := rest - {least};
      assert forall t :: t in Elements(before) ==> t in Elements(order) by {
        assert forall i :: 0 <= i < |before| ==> order[i] == before[i];
      }
      assert order[|before|] == least;
    }
  }

  method LeastOf(ts: set<Txid>, key: map<Txid, int>) returns (least: Txid)
    requires ts != {} && ts <= key.Keys
    ensures least in ts && forall t :: t in ts ==> key[least] <= key[t]
  {
    least :| least in ts;
    var rest := ts - {least};
    while rest != {}
      invariant least in ts && rest <= ts
      invariant forall t :: t in ts - rest ==> key[least] <= key[t]
    {
      var t :| t in rest;
      rest := rest - {t};
      if key[t] < key[least] {
        least := t;
      }
    }
  }

  class Mempool {
    const policy: Policy
    var entries: Table
    var spends: map<OutPoint, Txid>
    var totalSize: nat
    var totalFees: nat
    var currentHeight: nat

    ghost function State(): Pool
      reads this
    {
      Pool(entries, spends, totalSize, totalFees)
    }

    ghost predicate Valid()
      reads this
    {
      Sound(policy, State())
    }

    constructor (policy: Policy)
      ensures Valid() && State() == EMPTY && this.policy == policy
    {
      this.policy := policy;
      entries, spends, totalSize, totalFees, currentHeight := map[], map[], 0, 0, 0;
      new;
      EmptySound(policy);
    }

    /** The spender of each input that is already spent in the pool, in input order. */
    method FindConflicts(tx: Transaction) returns (conflicts: seq<Txid>)
      ensures conflicts == Pools.FindConflicts(State(), tx)
    {
      conflicts := [];
      for i := 0 to |tx.inputs|
        invariant conflicts == ConflictsUpTo(spends, tx, i)
      {
        if tx.inputs[i].previousOutput in spends {
          conflicts := conflicts + [spends[tx.inputs[i].previousOutput]];
        }
      }
    }

    method FindParents(tx: Transaction) returns (parents: set<Txid>)
      ensures parents == Pools.FindParents(entries, tx)
    {
      parents := {};
      for i := 0 to |tx.inputs|
        invariant parents == set k | 0 <= k < i && tx.inputs[k].previousOutput.txid in entries ::
                               tx.inputs[k].previousOutput.txid
      {
        if tx.inputs[i].previousOutput.txid in entries {
          parents := parents + {tx.inputs[i].previousOutput.txid};
        }
      }
    }

    /** Sums what the given parents record. */
    method CalculateAncestors(parents: set<Txid>) returns (count: nat, size: nat, fees: nat)
      ensures count == Sum(parents, RecordedOf(entries, Count))
      ensures size == Sum(parents, RecordedOf(entries, Size))
      ensures fees == Sum(parents, RecordedOf(entries, Fees))
    {
      count, size, fees := 0, 0, 0;
      var rest := parents;
      while rest != {}
        invariant rest <= parents
        invariant count == Sum(parents - rest, RecordedOf(entries, Count))
        invariant size == Sum(parents - rest, RecordedOf(entries, Size))
        invariant fees == Sum(parents - rest, RecordedOf(entries, Fees))
      {
        var q :| q in rest;
        SumInsert(parents - rest, RecordedOf(entries, Count), q);
        SumInsert(parents - rest, RecordedOf(entries, Size), q);
        SumInsert(parents - rest, RecordedOf(entries, Fees), q);
        assert parents - (rest - {q}) == parents - rest + {q};
        rest := rest - {q};
        if q in entries {
          count := count + entries[q].ancestorCount;
          size := size + entries[q].ancestorSize;
          fees := fees + entries[q].ancestorFees;
        }
      }
      assert parents - rest == parents;
    }

    // -------------------------------------------------------------- loops of remove_tx and add_tx

    method ClearSpends(tx: Transaction)
      modifies this`spends
      ensures spends == old(spends) - Outpoints(tx)
    {
      for i := 0 to |tx.inputs|
        invariant spends == old(spends) - set k | 0 <= k < i :: tx.inputs[k].previousOutput
      {
        spends := spends - {tx.inputs[i].previousOutput};
      }
    }

    method RecordSpends(tx: Transaction)
      modifies this`spends
      ensures spends == map o | o in old(spends).Keys + Outpoints(tx) ::
                          if o in Outpoints(tx) then tx.txid else old(spends)[o]
    {
      for i := 0 to |tx.inputs|
        invariant spends.Keys == old(spends).Keys + set k | 0 <= k < i :: tx.inputs[k].previousOutput
        invariant forall o :: o in spends ==>
          spends[o] == if o in (set k | 0 <= k < i :: tx.inputs[k].previousOutput) then tx.txid else old(spends)[o]
      {
        spends := spends[tx.inputs[i].previousOutput := tx.txid];
      }
    }

    method UnlinkParents(t: Txid, gone: Entry)
      modifies this`entries
      ensures entries == UnlinkFromParents(old(entries), gone.parents, t, gone)
    {
      var rest := gone.parents;
      while rest != {}
        invariant rest <= gone.parents
        invariant entries == UnlinkFromParents(old(entries), gone.parents - rest, t, gone)
      {
        var q :| q in rest;
        rest := rest - {q};
        if q in entries {
          entries := entries[q := WithoutChild(entries[q], t, gone)];
        }
      }
    }

    method UnlinkChildren(t: Txid, gone: Entry)
      modifies this`entries
      ensures entries == UnlinkFromChildren(old(entries), gone.children, t, gone)
    {
      var rest := gone.children;
      while rest != {}
        invariant rest <= gone.children
        invariant entries == UnlinkFromChildren(old(entries), gone.children - rest, t, gone)
      {
        var c :| c in rest;
        rest := rest - {c};
        if c in entries {
          entries := entries[c := WithoutParent(entries[c], t, gone)];
        }
      }
    }

    method LinkParents(t: Txid, added: Entry)
      modifies this`entries
      ensures entries == LinkToParents(old(entries), added.parents, t, added)
    {
      var rest := added.parents;
      while rest != {}
        invariant rest <= added.parents
        invariant entries == LinkToParents(old(entries), added.parents - rest, t, added)
      {
        var q :| q in rest;
        rest := rest - {q};
        if q in entries {
          entries := entries[q := WithChild(entries[q], t, added)];
        }
      }
    }

    // -------------------------------------------------------------- remove_tx

    /** Takes an entry out of every view. */
    method Detach(t: Txid) returns (gone: Entry)
      requires t in entries && entries[t].vsize <= totalSize && entries[t].fee <= totalFees
      modifies this`entries, this`spends, this`totalSize, this`totalFees
      ensures State() == Removed(old(State()), t)
      ensures gone == old(entries)[t]
    {
      gone := entries[t];
      entries := entries - {t};
      ClearSpends(gone.tx);
      UnlinkParents(t, gone);
      UnlinkChildren(t, gone);
      totalSize := totalSize - gone.vsize;
      totalFees := totalFees - gone.fee;
    }

    method RemoveTx(t: Txid) returns (r: Result<Entry>)
      requires Valid()
      modifies this`entries, this`spends, this`totalSize, this`totalFees
      ensures Valid()
      ensures State() == RemovedIfPresent(old(State()), t)
      ensures r == if t in old(entries) then Success(old(entries)[t]) else Failure(NotInPool)
    {
      if t !in entries {
        return Failure(NotInPool);
      }
      TotalsCover(State(), t);
      RemovedIfPresentSound(policy, State(), t);
      var gone := Detach(t);
      r := Success(gone);
    }

    /** Removes a transaction if the pool holds it; says how much that freed. */
    method Evict(t: Txid) returns (size: nat)
      requires Valid()
      modifies this`entries, this`spends, this`totalSize, this`totalFees
      ensures Valid()
      ensures State() == RemovedIfPresent(old(State()), t)
      ensures totalSize + size == old(totalSize)
    {
      size := 0;
      var removed := RemoveTx(t);
      if removed.Success? {
        size := removed.value.vsize;
      }
    }

    /** Removes a transaction if the pool holds it; counts it if so. */
    method Drop(t: Txid) returns (count: nat)
      requires Valid()
      modifies this`entries, this`spends, this`totalSize, this`totalFees
      ensures Valid()
      ensures State() == RemovedIfPresent(old(State()), t)
      ensures |entries| + count == |old(entries)|
    {
      count := 0;
      DropCounts(State(), t);
      var removed := RemoveTx(t);
      if removed.Success? {
        count := 1;
      }
    }

    // -------------------------------------------------------------- replacement and eviction

    /** All conflicts must signal, and the new fee must pay for the bump. */
    method CheckConflicts(e: Entry, conflicts: seq<Txid>) returns (outcome: Outcome)
      ensures outcome == CheckReplacement(policy, entries, e, conflicts)
    {
      var conflictFees, conflictSize := 0, 0;
      for i := 0 to |conflicts|
        invariant conflictFees + ListTotal(entries, Fees, conflicts[i..]) == ListTotal(entries, Fees, conflicts)
        invariant conflictSize + ListTotal(entries, Size, conflicts[i..]) == ListTotal(entries, Size, conflicts)
        invariant forall k :: 0 <= k < i && conflicts[k] in entries ==> entries[conflicts[k]].signalsReplacement
      {
        if conflicts[i] in entries {
          if !entries[conflicts[i]].signalsReplacement {
            return Fail(ConflictNotReplaceable);
          }
          conflictFees := conflictFees + entries[conflicts[i]].fee;
          conflictSize := conflictSize + entries[conflicts[i]].vsize;
        }
      }
      outcome := CheckRbf(policy, e.signalsReplacement, SaturatingSub(e.fee, conflictFees), e.vsize - conflictSize);
    }

    method HandleReplacement(e: Entry, conflicts: seq<Txid>) returns (outcome: Outcome)
      requires Valid()
      modifies this`entries, this`spends, this`totalSize, this`totalFees
      ensures Valid()
      ensures outcome == CheckReplacement(policy, old(entries), e, conflicts)
      ensures State() == if outcome.Pass? then RemovedAll(old(State()), conflicts) else old(State())
    {
      outcome := CheckConflicts(e, conflicts);
      if outcome.Pass? {
        var _ := RemoveEach(conflicts);
      }
    }

    /** Removes what the pool still holds of the list, and counts the removals. */
    method RemoveEach(ts: seq<Txid>) returns (removed: nat)
      requires Valid()
      modifies this`entries, this`spends, this`totalSize, this`totalFees
      ensures Valid()
      ensures State() == RemovedAll(old(State()), ts)
      ensures |entries| + removed == |old(entries)|
    {
      ghost var goal := RemovedAll(State(), ts);
      assert ts[0..] == ts;
      removed := 0;
      for i := 0 to |ts|
        invariant Valid()
        invariant goal == RemovedAll(State(), ts[i..])
        invariant |entries| + removed == |old(entries)|
      {
        RemovedAllStep(State(), ts, i);
        var count := Drop(ts[i]);
        removed := removed + count;
      }
    }

    method MaybeEvict() returns (ghost order: seq<Txid>)
      requires Valid()
      modifies this`entries, this`spends, this`totalSize, this`totalFees
      ensures Valid()
      ensures old(totalSize) > policy.maxSize ==> ByFeeRate(old(entries), order)
      ensures State() == Evicted(old(State()), order, policy.maxSize)
    {
      var currentSize := totalSize;
      if currentSize <= policy.maxSize {
        return [];
      }
      var sorted := SortBy(entries.Keys, map t | t in entries :: entries[t].feeRate);
      order := sorted;
      EvictInOrder(sorted);
    }

    method EvictInOrder(sorted: seq<Txid>)
      requires Valid()
      modifies this`entries, this`spends, this`totalSize, this`totalFees
      ensures Valid()
      ensures State() == Evicted(old(State()), sorted, policy.maxSize)
    {
      var currentSize, evictedSize, i := totalSize, 0, 0;
      ghost var goal := Evicted(State(), sorted, policy.maxSize);
      assert sorted[0..] == sorted;
      while i < |sorted| && currentSize - evictedSize > policy.maxSize
        invariant 0 <= i <= |sorted|
        invariant Valid()
        invariant currentSize - evictedSize == totalSize
        invariant goal == Evicted(State(), sorted[i..], policy.maxSize)
        decreases |sorted| - i
      {
        EvictedStep(State(), sorted, i, policy.maxSize);
        var size := Evict(sorted[i]);
        evictedSize := evictedSize + size;
        i := i + 1;
      }
      EvictedDone(State(), sorted[i..], policy.maxSize);
    }

    // -------------------------------------------------------------- add_tx

    /** Puts a linked entry into every view. */
    method Attach(e: Entry)
      modifies this`entries, this`spends, this`totalSize, this`totalFees
      ensures State() == Inserted(old(State()), e)
    {
      RecordSpends(e.tx);
      LinkParents(e.tx.txid, e);
      totalSize := totalSize + e.vsize;
      totalFees := totalFees + e.fee;
      entries := entries[e.tx.txid := e];
    }

    /** Everything `add_tx` does before eviction. `kernelOk` is the verdict of consensus validation,
        true when no kernel is attached. */
    method AdmitTx(tx: Transaction, fee: nat, height: nat, time: nat, kernelOk: bool) returns (outcome: Outcome)
      requires Valid()
      modifies this`entries, this`spends, this`totalSize, this`totalFees
      ensures Valid()
      ensures (State(), outcome) == Admit(policy, old(State()), tx, fee, height, time, kernelOk)
    {
      ghost var before := State();
      AdmitSound(policy, before, tx, fee, height, time, kernelOk);
      outcome := CheckAlone(tx, fee, kernelOk);
      if outcome.Fail? {
        return;
      }
      var e := NewEntry(tx, fee, height, time);
      outcome := MakeRoomFor(e);
      RoomIgnoresArrival(policy, before, tx, fee, height, time);
      if outcome.Fail? {
        return;
      }
      outcome := LinkAndAttach(e);
    }

    method CheckAlone(tx: Transaction, fee: nat, kernelOk: bool) returns (outcome: Outcome)
      ensures outcome == CheckBasics(policy, State(), tx, fee, kernelOk)
    {
      if tx.txid in entries {
        return Fail(AlreadyInPool);
      }
      if !kernelOk {
        return Fail(RejectedByKernel);
      }
      if !IsSizeAcceptable(policy, tx.vsize) {
        return Fail(TooLarge);
      }
      if !IsFeeAcceptable(policy, RateOf(fee, tx.vsize)) {
        return Fail(FeeRateTooLow);
      }
      return Pass;
    }

    /** Clears the conflicts away, if there are any and replacement is allowed. */
    method MakeRoomFor(e: Entry) returns (outcome: Outcome)
      requires Valid()
      modifies this`entries, this`spends, this`totalSize, this`totalFees
      ensures Valid()
      ensures outcome == CheckRoom(policy, old(State()), e)
      ensures State() == if outcome.Pass? then RemovedAll(old(State()), Pools.FindConflicts(old(State()), e.tx))
                         else old(State())
    {
      var conflicts := FindConflicts(e.tx);
      if conflicts == [] {
        return Pass;
      }
      if !e.signalsReplacement {
        return Fail(ConflictsWithoutSignal);
      }
      outcome := HandleReplacement(e, conflicts);
    }

    /** Links the entry to the parents the pool holds and attaches it, if the limits allow. */
    method LinkAndAttach(e: Entry) returns (outcome: Outcome)
      modifies this`entries, this`spends, this`totalSize, this`totalFees
      ensures (State(), outcome) == AdmitInto(policy, old(State()), e)
    {
      var parents := FindParents(e.tx);
      var count, size, fees := CalculateAncestors(parents);
      LinkedBy(entries, e, count, size, fees);
      outcome := CheckAncestorLimits(policy, count + 1, size + e.vsize);
      if outcome.Pass? {
        Attach(e.(parents := parents, ancestorCount := count + 1, ancestorSize := size + e.vsize,
                  ancestorFees := fees + e.fee));
      }
    }

    /** Admission followed by eviction. Success does not mean that the transaction is still in the
        pool: it may have been evicted at once. */
    method AddTx(tx: Transaction, fee: nat, height: nat, time: nat, kernelOk: bool)
      returns (r: Result<Txid>, ghost order: seq<Txid>)
      requires Valid()
      modifies this`entries, this`spends, this`totalSize, this`totalFees
      ensures Valid()
      ensures Legal(policy, old(State()), PoolRuns.AddTx(tx, fee, height, time, kernelOk, order))
      ensures State() == Apply(policy, old(State()), PoolRuns.AddTx(tx, fee, height, time, kernelOk, order))
      ensures r == match Verdict(policy, old(State()), tx, fee, kernelOk)
                   case Pass => Success(tx.txid)
                   case Fail(error) => Failure(error)
    {
      AdmissionVerdict(policy, State(), tx, fee, height, time, kernelOk);
      var outcome := AdmitTx(tx, fee, height, time, kernelOk);
      if outcome.Fail? {
        return Failure(outcome.error), [];
      }
      order := MaybeEvict();
      r := Success(tx.txid);
    }

    // -------------------------------------------------------------- expiry and clear

    method RemoveExpired(now: nat) returns (removed: nat, ghost order: seq<Txid>)
      requires Valid()
      modifies this`entries, this`spends, this`totalSize, this`totalFees
      ensures Valid()
      ensures Legal(policy, old(State()), PoolRuns.RemoveExpired(now, order))
      ensures State() == Apply(policy, old(State()), PoolRuns.RemoveExpired(now, order))
      ensures removed == |Expired(old(entries), now, policy.expiry)|
    {
      var expired := Expired(entries, now, policy.expiry);
      var list := SortBy(expired, map t | t in expired :: 0);
      order := list;
      ghost var before := State();
      removed := RemoveEach(list);
      RemovedAllSurvives(before, list);
      SurvivorsCount(before.entries, entries, expired);
    }

    /** Records the height, then drops what has expired. */
    method UpdateHeight(height: nat, now: nat) returns (ghost order: seq<Txid>)
      requires Valid()
      modifies this
      ensures Valid() && currentHeight == height
      ensures Legal(policy, old(State()), PoolRuns.RemoveExpired(now, order))
      ensures State() == Apply(policy, old(State()), PoolRuns.RemoveExpired(now, order))
    {
      currentHeight := height;
      var _, removed := RemoveExpired(now);
      order := removed;
    }

    method Clear()
      modifies this`entries, this`spends, this`totalSize, this`totalFees
      ensures Valid() && State() == EMPTY
    {
      entries, spends, totalSize, totalFees := map[], map[], 0, 0;
      EmptySound(policy);
    }

    // -------------------------------------------------------------- get_ancestors

    /** Everything the walk lists is a proper ancestor, and every ancestor is listed, each after what it
        was found from. */
    method GetAncestors(t: Txid) returns (ancestors: seq<Txid>, ghost orders: Orders)
      requires Valid()
      ensures Elements(ancestors) == Ancestors(entries, t) && t !in ancestors
      ensures t in entries ==> IsListing(entries, t, ancestors)
      ensures Enumerates(entries, orders) && ancestors == Listing(orders, t)
    {
      ghost var stamp :| Inv(policy, State(), stamp);
      var iteration := IterationOrders(entries);
      orders := iteration;
      ancestors := WalkAncestors(iteration, t);
    }

    // -------------------------------------------------------------- get_block_template

    /** Works through the pool in descending ancestor fee rate. The result is the specified template
        for that order and the iteration orders of the parent sets; each of its transactions is the
        pool's own, none occurs twice, and all their ancestors are among them. */
    method GetBlockTemplate(maxWeight: nat)
      returns (template: seq<Transaction>, ghost order: seq<Txid>, ghost orders: Orders)
      requires Valid()
      ensures IsTemplateOf(entries, template, Ids(template))
      ensures Closed(entries, Ids(template)) && WeightOf(entries, Ids(template)) <= policy.maxAncestors * maxWeight
      ensures ByAncestorRate(entries, order) && Enumerates(entries, orders)
      ensures forall i, j :: 0 <= i < j < |order| ==>
                entries[order[i]].ancestorFees / Max(entries[order[i]].ancestorSize, 1)
                >= entries[order[j]].ancestorFees / Max(entries[order[j]].ancestorSize, 1)
      ensures Ids(template) == Template(entries, Listings(orders), order, maxWeight, |order|)
    {
      ghost var stamp :| Inv(policy, State(), stamp);
      var iteration := IterationOrders(entries);
      orders := iteration;
      ghost var picked;
      template, picked, order := BuildTemplate(entries, iteration, maxWeight, stamp);
      PickedAreIds(entries, template, picked);
      ListingsExact(entries, stamp, orders);
      SoundTemplates(policy, State(), Listings(orders), order, maxWeight);
    }
  }

  /** Fixes in which order each set of parents is iterated; any will do. */
  method IterationOrders(es: Table) returns (orders: Orders)
    ensures Enumerates(es, orders)
  {
    orders := map[];
    var rest := es.Keys;
    while rest != {}
      invariant rest <= es.Keys && orders.Keys == es.Keys - rest
      invariant forall t :: t in orders ==> EnumeratesParents(es, orders, t)
    {
      var t :| t in rest;
      var parents := SortBy(es[t].parents, map q | q in es[t].parents :: 0);
      ghost var before := orders;
      orders := orders[t := parents];
      rest := rest - {t};
      assert forall x :: x in before ==> EnumeratesParents(es, before, x);
    }
  }

  method BuildTemplate(es: Table, orders: Orders, maxWeight: nat, ghost stamp: map<Txid, nat>)
    returns (template: seq<Transaction>, ghost picked: seq<Txid>, ghost order: seq<Txid>)
    requires Links(es, stamp) && Enumerates(es, orders)
    ensures ByAncestorRate(es, order)
    ensures picked == Template(es, Listings(orders), order, maxWeight, |order|)
    ensures IsTemplateOf(es, template, picked)
  {
    var sorted := SortBy(es.Keys, map t | t in es :: -(AncestorFeeRate(es[t]) as int));
    order := sorted;
    template, picked := FillTemplate(es, orders, maxWeight, sorted, stamp);
  }

  method FillTemplate(es: Table, orders: Orders, maxWeight: nat, order: seq<Txid>, ghost stamp: map<Txid, nat>)
    returns (template: seq<Transaction>, ghost picked: seq<Txid>)
    requires Links(es, stamp) && Enumerates(es, orders) && AllIn(es, order)
    ensures picked == Template(es, Listings(orders), order, maxWeight, |order|)
    ensures IsTemplateOf(es, template, picked)
  {
    template, picked := [], [];
    var included, currentWeight := {}, 0;
    for i := 0 to |order|
      invariant picked == Template(es, Listings(orders), order, maxWeight, i)
      invariant Tracks(es, template, picked, included, currentWeight)
    {
      template, picked, included, currentWeight :=
        TakeTurn(es, orders, order[i], maxWeight, template, picked, included, currentWeight, stamp);
    }
  }

  function Ids(template: seq<Transaction>): seq<Txid> {
    seq(|template|, i requires 0 <= i < |template| => template[i].txid)
  }

  lemma PickedAreIds(es: Table, template: seq<Transaction>, picked: seq<Txid>)
    requires EntriesSound(es) && IsTemplateOf(es, template, picked)
    ensures Ids(template) == picked
  {
    assert forall i :: 0 <= i < |picked| ==> picked[i] in es && Ids(template)[i] == picked[i];
  }

  ghost predicate IsTemplateOf(es: Table, template: seq<Transaction>, picked: seq<Txid>) {
    |template| == |picked| && forall i :: 0 <= i < |picked| ==> picked[i] in es && template[i] == es[picked[i]].tx
  }

  /** The loop's variables describe the transactions picked so far. */
  ghost predicate Tracks(es: Table, template: seq<Transaction>, picked: seq<Txid>, included: set<Txid>, weight: nat) {
    IsTemplateOf(es, template, picked) && included == Elements(picked) && weight == WeightOf(es, picked)
  }

  method TakeTurn(es: Table, orders: Orders, t: Txid, maxWeight: nat, template: seq<Transaction>,
                  ghost picked: seq<Txid>, included: set<Txid>, weight: nat, ghost stamp: map<Txid, nat>)
    returns (template': seq<Transaction>, ghost picked': seq<Txid>, included': set<Txid>, weight': nat)
    requires Links(es, stamp) && Enumerates(es, orders) && t in es
    requires Tracks(es, template, picked, included, weight)
    ensures picked' == Extended(es, maxWeight, picked, Listing(orders, t), t)
    ensures Tracks(es, template', picked', included', weight')
  {
    template', picked', included', weight' := template, picked, included, weight;
    if t in included || weight + es[t].tx.weight > maxWeight {
      return;
    }
    var ancestors := WalkAncestors(orders, t);
    var canInclude := AncestorsFit(es, maxWeight, picked, included, weight, ancestors);
    if !canInclude {
      return;
    }
    template', picked', included', weight' := IncludeMissing(es, t, template, picked, included, weight, ancestors);
    TracksNext(es, template', picked', included', weight', t);
    template', picked', included', weight' :=
      template' + [es[t].tx], picked' + [t], included' + {t}, weight' + es[t].tx.weight;
  }

  method AncestorsFit(es: Table, maxWeight: nat, ghost picked: seq<Txid>, included: set<Txid>, weight: nat,
                      ancestors: seq<Txid>)
    returns (fits: bool)
    requires included == Elements(picked) && weight == WeightOf(es, picked)
    ensures fits == !Blocked(es, maxWeight, picked, ancestors)
  {
    assert ancestors[0..] == ancestors;
    for i := 0 to |ancestors|
      invariant Blocked(es, maxWeight, picked, ancestors) == Blocked(es, maxWeight, picked, ancestors[i..])
    {
      var a := ancestors[i];
      assert ancestors[i..][1..] == ancestors[i + 1..];
      assert a in included <==> a in picked;
      if a !in included && weight + WeightAt(es, a) > maxWeight {
        return false;
      }
    }
    return true;
  }

  method IncludeMissing(es: Table, t: Txid, template: seq<Transaction>, ghost picked: seq<Txid>, included: set<Txid>,
                        weight: nat, ancestors: seq<Txid>)
    returns (template': seq<Transaction>, ghost picked': seq<Txid>, included': set<Txid>, weight': nat)
    requires Tracks(es, template, picked, included, weight) && Elements(ancestors) <= es.Keys
    ensures picked' == picked + Missing(picked, ancestors)
    ensures Tracks(es, template', picked', included', weight')
  {
    template', picked', included', weight' := template, picked, included, weight;
    assert ancestors[0..] == ancestors;
    for i := 0 to |ancestors|
      invariant picked' + Missing(picked', ancestors[i..]) == picked + Missing(picked, ancestors)
      invariant Tracks(es, template', picked', included', weight')
    {
      var a := ancestors[i];
      assert a in Elements(ancestors);
      MissingStep(picked', ancestors, i);
      if a !in included' {
        TracksNext(es, template', picked', included', weight', a);
        template', picked', included', weight' :=
          template' + [es[a].tx], picked' + [a], included' + {a}, weight' + es[a].tx.weight;
      }
    }
  }

  lemma {:induction false} MissingStep(picked: seq<Txid>, ancestors: seq<Txid>, i: nat)
    requires i < |ancestors|
    ensures ancestors[i] in picked ==> Missing(picked, ancestors[i..]) == Missing(picked, ancestors[i + 1..])
    ensures ancestors[i] !in picked ==>
              picked + Missing(picked, ancestors[i..])
              == picked + [ancestors[i]] + Missing(picked + [ancestors[i]], ancestors[i + 1..])
    ensures ancestors[i] in picked <==> ancestors[i] in Elements(picked)
  {
    assert ancestors[i..][1..] == ancestors[i + 1..];
    if ancestors[i] !in picked {
      assert Missing(picked, ancestors[i..]) == [ancestors[i]] + Missing(picked + [ancestors[i]], ancestors[i + 1..]);
    }
  }

  lemma {:induction false} TracksNext(es: Table, template: seq<Transaction>, picked: seq<Txid>, included: set<Txid>,
                                      weight: nat, a: Txid)
    requires Tracks(es, template, picked, included, weight) && a in es
    ensures Tracks(es, template + [es[a].tx], picked + [a], included + {a}, weight + es[a].tx.weight)
  {
    ElementsConcat(picked, [a]);
    ElementsSingle(a);
    WeightOfAppend(es, picked, [a]);
  }

  /** What one visit finds: the parents that have not been visited, in iteration order. */
  method UnvisitedParents(parents: seq<Txid>, visited: set<Txid>) returns (found: seq<Txid>)
    ensures found == Unseen(parents, visited)
  {
    found := [];
    for i := 0 to |parents|
      invariant found == Unseen(parents[..i], visited)
    {
      assert parents[..i + 1][..i] == parents[..i];
      if parents[i] !in visited {
        found := found + [parents[i]];
      }
    }
    assert parents[..|parents|] == parents;
  }

  /** Pops the last queued transaction and, unless it was visited before, lists and queues what it finds. */
  method Advance(orders: Orders, ancestors: seq<Txid>, toVisit: seq<Txid>, visited: set<Txid>)
    returns (ancestors': seq<Txid>, toVisit': seq<Txid>, visited': set<Txid>)
    requires toVisit != []
    ensures ancestors' + Walk(orders, toVisit', visited') == ancestors + Walk(orders, toVisit, visited)
    ensures |orders.Keys - visited'| < |orders.Keys - visited|
            || (orders.Keys - visited' == orders.Keys - visited && |toVisit'| < |toVisit|)
  {
    var current := toVisit[|toVisit| - 1];
    var left := toVisit[..|toVisit| - 1];
    assert toVisit == left + [current];
    if current in visited {
      WalkPasses(orders, left, visited, current);
      return ancestors, left, visited;
    }
    var found := [];
    if current in orders {
      found := UnvisitedParents(orders[current], visited + {current});
    }
    WalkVisits(orders, left, visited, current);
    Reassociate(ancestors, found, Walk(orders, left + found, visited + {current}));
    OneFewer(orders.Keys, visited, current);
    return ancestors + found, left + found, visited + {current};
  }

  /** The worklist walk over the parent links. It terminates whatever the links are; on a linked table it
      never lists the start, and as a set yields exactly the transitive closure. */
  method WalkAncestors(orders: Orders, t: Txid) returns (ancestors: seq<Txid>)
    ensures ancestors == Listing(orders, t)
    ensures forall es, stamp :: Links(es, stamp) && Enumerates(es, orders) ==> ListsAncestors(es, t, ancestors)
  {
    ancestors := [];
    var toVisit, visited := [t], {};
    while toVisit != []
      invariant ancestors + Walk(orders, toVisit, visited) == Listing(orders, t)
      decreases |orders.Keys - visited|, |toVisit|
    {
      ancestors, toVisit, visited := Advance(orders, ancestors, toVisit, visited);
    }
    Reassociate<Txid>(ancestors, [], []);
    forall es, stamp | Links(es, stamp) && Enumerates(es, orders)
      ensures ListsAncestors(es, t, ancestors)
    {
      ListingExact(es, stamp, orders, t);
    }
  }

  /** An entry is part of the running totals, so taking it out cannot underflow them. */
  lemma TotalsCover(p: Pool, t: Txid)
    requires TotalsExact(p) && t in p.entries
    ensures p.totalSize >= p.entries[t].vsize && p.totalFees >= p.entries[t].fee
  {
    SumSplit(p.entries.Keys, OwnOf(p.entries, Size), t);
    SumSplit(p.entries.Keys, OwnOf(p.entries, Fees), t);
    OwnTotalNonNegative(p.entries, Size, p.entries.Keys - {t});
    OwnTotalNonNegative(p.entries, Fees, p.entries.Keys - {t});
  }

  lemma LinkedBy(es: Table, e: Entry, count: nat, size: nat, fees: nat)
    requires count == Sum(FindParents(es, e.tx), RecordedOf(es, Count))
    requires size == Sum(FindParents(es, e.tx), RecordedOf(es, Size))
    requires fees == Sum(FindParents(es, e.tx), RecordedOf(es, Fees))
    ensures Linked(es, e) == e.(parents := FindParents(es, e.tx), ancestorCount := count + 1,
                                ancestorSize := size + e.vsize, ancestorFees := fees + e.fee)
  {
  }

  lemma DropCounts(p: Pool, t: Txid)
    ensures |RemovedIfPresent(p, t).entries| == |p.entries| - (if t in p.entries then 1 else 0)
  {
    if t in p.entries {
      SurvivorsCount(p.entries, Removed(p, t).entries, {t});
    }
  }

  lemma {:induction false} EvictedDone(p: Pool, order: seq<Txid>, maxSize: nat)
    requires order == [] || p.totalSize <= maxSize
    ensures Evicted(p, order, maxSize) == p
  {
  }

  lemma {:induction false} EvictedStep(p: Pool, order: seq<Txid>, i: nat, maxSize: nat)
    requires i < |order| && p.totalSize > maxSize
    ensures Evicted(p, order[i..], maxSize) == Evicted(RemovedIfPresent(p, order[i]), order[i + 1..], maxSize)
  {
    assert order[i..][1..] == order[i + 1..];
  }

  lemma {:induction false} RemovedAllStep(p: Pool, ts: seq<Txid>, i: nat)
    requires i < |ts|
    ensures RemovedAll(p, ts[i..]) == RemovedAll(RemovedIfPresent(p, ts[i]), ts[i + 1..])
  {
    assert ts[i..][1..] == ts[i + 1..];
  }
}
