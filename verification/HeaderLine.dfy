/** When the header vector is a chain, and when it is only a tree (src/p2p/legacy.rs, extend_headers). */
module HeaderLine {
  import opened Headers
  import opened ChainParams
  import opened HeaderChain

  /** Each header links to the one before it in the vector. */
  predicate Linear(c: Chain) {
    |c.recent| == |c.headers| + 1 && forall i :: 0 <= i < |c.headers| ==> c.headers[i].prev == c.recent[i]
  }

  /** A new header keeps the vector linear if and only if it links to the last one. */
  lemma {:induction false} AppendedLinearIff(hash: HashFn, c: Chain, h: Header)
    requires |c.recent| == |c.headers| + 1
    ensures Linear(Appended(hash, c, h)) <==> Linear(c) && h.prev == c.recent[|c.recent| - 1]
  {
    var c' := Appended(hash, c, h);
    if Linear(c') {
      forall i | 0 <= i < |c.headers|
        ensures c.headers[i].prev == c.recent[i]
      {
        assert c'.headers[i].prev == c'.recent[i];
      }
      assert c'.headers[|c.headers|].prev == c'.recent[|c.headers|];
    }
  }

  /** Each header that the scan accepts finds the last hash of the vector as the tip it links to. The tip
      is something else only right after a known header other than the last. */
  predicate KeepsLine(hash: HashFn, table: seq<Checkpoint>, c: Chain, tip: Hash, batch: seq<Header>, i: nat)
    requires i <= |batch|
    decreases |batch| - i
  {
    if i == |batch| then true
    else if hash(batch[i]) in c.have then KeepsLine(hash, table, c, hash(batch[i]), batch, i + 1)
    else if Rejects(hash, table, c.height, tip, batch[i]) then true
    else tip == LastHash(c) && KeepsLine(hash, table, Appended(hash, c, batch[i]), hash(batch[i]), batch, i + 1)
  }

  lemma {:induction false} ScanLinearIff(hash: HashFn, table: seq<Checkpoint>, c: Chain, tip: Hash, batch: seq<Header>,
                                         i: nat)
    requires i <= |batch| && |c.recent| == |c.headers| + 1
    ensures Linear(ScanFrom(hash, table, c, tip, batch, i).chain)
            <==> Linear(c) && KeepsLine(hash, table, c, tip, batch, i)
    decreases |batch| - i
  {
    if i < |batch| {
      if hash(batch[i]) in c.have {
        ScanLinearIff(hash, table, c, hash(batch[i]), batch, i + 1);
      } else if !Rejects(hash, table, c.height, tip, batch[i]) {
        AppendedLinearIff(hash, c, batch[i]);
        ScanLinearIff(hash, table, Appended(hash, c, batch[i]), hash(batch[i]), batch, i + 1);
      }
    }
  }

  /** Exactly when a batch leaves the vector a chain: if and only if it was one, and no header is accepted
      right after a known header other than the last. */
  lemma {:induction false} ExtendLinearIff(hash: HashFn, table: seq<Checkpoint>, c: Chain, batch: seq<Header>)
    requires |c.recent| == |c.headers| + 1
    ensures Linear(Extend(hash, table, c, batch).chain)
            <==> Linear(c) && KeepsLine(hash, table, c, LastHash(c), batch, 0)
  {
    ScanLinearIff(hash, table, c, LastHash(c), batch, 0);
  }

  /** Batch `k` of a run keeps the line. */
  predicate BatchKeepsLine(hash: HashFn, genesis: Hash, table: seq<Checkpoint>, batches: seq<seq<Header>>, k: nat)
    requires k < |batches|
  {
    var c := RunBatches(hash, genesis, table, batches[..k]);
    KeepsLine(hash, table, c, LastHash(c), batches[k], 0)
  }

  /** The header vector after a run is a chain if and only if every batch of the run kept the line. */
  lemma {:induction false} RunLinearIff(hash: HashFn, genesis: Hash, table: seq<Checkpoint>, batches: seq<seq<Header>>)
    ensures Linear(RunBatches(hash, genesis, table, batches))
            <==> forall k :: 0 <= k < |batches| ==> BatchKeepsLine(hash, genesis, table, batches, k)
  {
    if batches != [] {
      var n := |batches| - 1;
      var before := batches[..n];
      RunLinearIff(hash, genesis, table, before);
      RunInv(hash, genesis, table, before);
      ExtendLinearIff(hash, table, RunBatches(hash, genesis, table, before), batches[n]);
      forall k | 0 <= k < n
        ensures BatchKeepsLine(hash, genesis, table, before, k) <==> BatchKeepsLine(hash, genesis, table, batches, k)
      {
        assert before[..k] == batches[..k];
      }
      var c := RunBatches(hash, genesis, table, before);
      assert BatchKeepsLine(hash, genesis, table, batches, n)
             <==> KeepsLine(hash, table, c, LastHash(c), batches[n], 0);
    }
  }

  /** A known header makes the scan go on from wherever it stands in the tree: a batch of a known
      header other than the last, and a new child of it, is appended at the end all the same, so the
      vector is not a chain any more. */
  lemma {:induction false} ForkIsAppended(hash: HashFn, genesis: Hash, table: seq<Checkpoint>, c: Chain, known: Header,
                                          child: Header)
    requires ChainInv(hash, genesis, table, c)
    requires hash(known) in c.have && hash(known) != LastHash(c)
    requires hash(child) !in c.have && child.prev == hash(known)
    requires GetCheckpoint(table, c.height + 1).None?
    ensures Extend(hash, table, c, [known, child]) == Scan(Appended(hash, c, child), 2, 1)
    ensures !Linear(Appended(hash, c, child))
  {
    var batch := [known, child];
    var c' := Appended(hash, c, child);
    assert ScanFrom(hash, table, c', hash(child), batch, 2) == Scan(c', 2, 0);
    assert ScanFrom(hash, table, c, hash(known), batch, 1) == Scan(c', 2, 1);
    AppendedLinearIff(hash, c, child);
  }
}
