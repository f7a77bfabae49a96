/** Exactly where a batch of headers stops, told from the headers, the checkpoint table and what was known,
    and what it leaves behind (src/p2p/legacy.rs, extend_headers). */
module HeaderScan {
  import opened Headers
  import opened Lists
  import opened ChainParams
  import opened HeaderChain

  /** The chain after the first `i` headers of a batch. */
  function Upto(hash: HashFn, table: seq<Checkpoint>, c: Chain, batch: seq<Header>, i: nat): Chain
    requires i <= |batch|
  {
    Extend(hash, table, c, batch[..i]).chain
  }

  /** The hash before position `i` of a batch: that of the header before it, or the last of the vector. */
  function HashBefore(hash: HashFn, c: Chain, batch: seq<Header>, i: nat): Hash
    requires i <= |batch|
  {
    if i == 0 then LastHash(c) else hash(batch[i - 1])
  }

  /** Header `i` of the batch is not known to the chain at that point, and does not name the hash before it as
      its parent, or is not the checkpoint of the height it would get. */
  ghost predicate Breaks(hash: HashFn, table: seq<Checkpoint>, c: Chain, batch: seq<Header>, i: nat)
    requires i < |batch|
  {
    var before := Upto(hash, table, c, batch, i);
    && hash(batch[i]) !in before.have
    && (|| batch[i].prev != HashBefore(hash, c, batch, i)
        || (exists h :: GetCheckpoint(table, before.height + 1) == Some(h) && h != hash(batch[i])))
  }

  // ---------------------------------------------------------------- scanning part of a batch

  /** A batch that is passed to its end can be continued by another one. */
  lemma {:induction false} ScanContinues(hash: HashFn, table: seq<Checkpoint>, c: Chain, tip: Hash,
                                         batch: seq<Header>, i: nat, h: Header)
    requires i <= |batch| && ScanFrom(hash, table, c, tip, batch, i).stop == |batch|
    ensures var s := ScanFrom(hash, table, c, tip, batch, i);
            var last := if i == |batch| then tip else hash(batch[|batch| - 1]);
            var t := ScanFrom(hash, table, c, tip, batch + [h], i);
            if hash(h) in s.chain.have then t == Scan(s.chain, |batch| + 1, s.added)
            else if Rejects(hash, table, s.chain.height, last, h) then t == Scan(s.chain, |batch|, s.added)
            else t == Scan(Appended(hash, s.chain, h), |batch| + 1, s.added + 1)
    decreases |batch| - i
  {
    var all := batch + [h];
    if i < |batch| {
      assert all[i] == batch[i];
      if hash(batch[i]) in c.have {
        ScanContinues(hash, table, c, hash(batch[i]), batch, i + 1, h);
      } else {
        ScanContinues(hash, table, Appended(hash, c, batch[i]), hash(batch[i]), batch, i + 1, h);
      }
    } else {
      assert all[i] == h;
      assert ScanFrom(hash, table, c, hash(h), all, i + 1) == Scan(c, i + 1, 0);
      assert ScanFrom(hash, table, Appended(hash, c, h), hash(h), all, i + 1) == Scan(Appended(hash, c, h), i + 1, 0);
    }
  }

  /** A batch that stops before its end stops there whatever follows. */
  lemma {:induction false} ScanStaysStopped(hash: HashFn, table: seq<Checkpoint>, c: Chain, tip: Hash,
                                            batch: seq<Header>, i: nat, h: Header)
    requires i <= |batch| && ScanFrom(hash, table, c, tip, batch, i).stop < |batch|
    ensures ScanFrom(hash, table, c, tip, batch + [h], i) == ScanFrom(hash, table, c, tip, batch, i)
    decreases |batch| - i
  {
    if i < |batch| {
      assert (batch + [h])[i] == batch[i];
      if hash(batch[i]) in c.have {
        ScanStaysStopped(hash, table, c, hash(batch[i]), batch, i + 1, h);
      } else if !Rejects(hash, table, c.height, tip, batch[i]) {
        ScanStaysStopped(hash, table, Appended(hash, c, batch[i]), hash(batch[i]), batch, i + 1, h);
      }
    }
  }

  // ---------------------------------------------------------------- one header further

  /** What the first `n` headers of a batch come to, if none of them breaks off. */
  ghost predicate PassedUpto(hash: HashFn, table: seq<Checkpoint>, c: Chain, batch: seq<Header>, n: nat)
    requires n <= |batch|
  {
    Extend(hash, table, c, batch[..n]).stop == n && forall i :: 0 <= i < n ==> !Breaks(hash, table, c, batch, i)
  }

  lemma {:induction false} OneFurther(hash: HashFn, table: seq<Checkpoint>, c: Chain, batch: seq<Header>, n: nat)
    requires n < |batch| && Extend(hash, table, c, batch[..n]).stop == n
    ensures var s := Extend(hash, table, c, batch[..n]);
            var h := batch[n];
            Extend(hash, table, c, batch[..n + 1])
            == if Breaks(hash, table, c, batch, n) then Scan(s.chain, n, s.added)
               else if hash(h) in s.chain.have then Scan(s.chain, n + 1, s.added)
               else Scan(Appended(hash, s.chain, h), n + 1, s.added + 1)
  {
    assert batch[..n + 1] == batch[..n] + [batch[n]];
    ScanContinues(hash, table, c, LastHash(c), batch[..n], 0, batch[n]);
  }

  lemma {:induction false} NoFurther(hash: HashFn, table: seq<Checkpoint>, c: Chain, batch: seq<Header>, n: nat)
    requires n < |batch| && Extend(hash, table, c, batch[..n]).stop < n
    ensures Extend(hash, table, c, batch[..n + 1]) == Extend(hash, table, c, batch[..n])
  {
    assert batch[..n + 1] == batch[..n] + [batch[n]];
    ScanStaysStopped(hash, table, c, LastHash(c), batch[..n], 0, batch[n]);
  }

  /** Where the first `n` headers of a batch stop: at the first one that breaks off, or at their end. */
  ghost predicate StopsRight(hash: HashFn, table: seq<Checkpoint>, c: Chain, batch: seq<Header>, n: nat, s: Scan)
    requires n <= |batch|
  {
    && s.stop <= n
    && (s.stop < n ==> Breaks(hash, table, c, batch, s.stop))
    && (forall i :: 0 <= i < s.stop ==> !Breaks(hash, table, c, batch, i))
    && s.chain == Upto(hash, table, c, batch, s.stop)
    && (s.stop == n || Extend(hash, table, c, batch[..s.stop]).stop == s.stop)
  }

  lemma {:induction false} PrefixStops(hash: HashFn, table: seq<Checkpoint>, c: Chain, batch: seq<Header>, n: nat)
    requires n <= |batch|
    ensures StopsRight(hash, table, c, batch, n, Extend(hash, table, c, batch[..n]))
  {
    if n > 0 {
      var before := Extend(hash, table, c, batch[..n - 1]);
      PrefixStops(hash, table, c, batch, n - 1);
      if before.stop == n - 1 {
        OneFurther(hash, table, c, batch, n - 1);
      } else {
        NoFurther(hash, table, c, batch, n - 1);
      }
    }
  }

  // ---------------------------------------------------------------- the law

  /** A batch stops at the first header that breaks off, and only there: one that is not known at that point
      and either does not link to the hash before it or misses the checkpoint of its height. */
  lemma {:induction false} StopsAtFirstBreak(hash: HashFn, table: seq<Checkpoint>, c: Chain, batch: seq<Header>)
    ensures var s := Extend(hash, table, c, batch);
            && s.stop <= |batch|
            && (s.stop < |batch| ==> Breaks(hash, table, c, batch, s.stop))
            && (forall i :: 0 <= i < s.stop ==> !Breaks(hash, table, c, batch, i))
            && s.chain == Upto(hash, table, c, batch, s.stop)
  {
    assert batch[..|batch|] == batch;
    PrefixStops(hash, table, c, batch, |batch|);
  }

  /** Every header before that is passed over if it is known at that point, and appended to the vector, with
      its parent and as the new height, if it is not. */
  lemma {:induction false} EachIsTaken(hash: HashFn, table: seq<Checkpoint>, c: Chain, batch: seq<Header>, i: nat)
    requires i < Extend(hash, table, c, batch).stop
    ensures i < |batch|
    ensures var before, after := Upto(hash, table, c, batch, i), Upto(hash, table, c, batch, i + 1);
            if hash(batch[i]) in before.have then after == before
            else && after.headers == before.headers + [batch[i]] && after.recent == before.recent + [hash(batch[i])]
                 && after.have == before.have + {hash(batch[i])} && after.height == before.height + 1
                 && after.prevMap == before.prevMap[hash(batch[i]) := batch[i].prev] && after.tip == hash(batch[i])
  {
    StopsAtFirstBreak(hash, table, c, batch);
    PrefixPassed(hash, table, c, batch, i);
    OneFurther(hash, table, c, batch, i);
  }

  lemma {:induction false} PrefixPassed(hash: HashFn, table: seq<Checkpoint>, c: Chain, batch: seq<Header>, i: nat)
    requires i <= Extend(hash, table, c, batch).stop && i <= |batch|
    ensures Extend(hash, table, c, batch[..i]).stop == i
  {
    StopsAtFirstBreak(hash, table, c, batch);
    PrefixStops(hash, table, c, batch, i);
  }

  // ---------------------------------------------------------------- batches that are accepted whole

  /** No header of the batch is known or occurs in it twice. */
  ghost predicate AllNew(hash: HashFn, c: Chain, batch: seq<Header>) {
    forall i :: 0 <= i < |batch| ==>
      hash(batch[i]) !in c.have && forall j :: 0 <= j < i ==> hash(batch[j]) != hash(batch[i])
  }

  /** Each header names the hash before it as its parent. */
  ghost predicate AllLink(hash: HashFn, c: Chain, batch: seq<Header>) {
    forall i :: 0 <= i < |batch| ==> batch[i].prev == HashBefore(hash, c, batch, i)
  }

  /** Wherever there is a checkpoint for the height that a header would get, the header is that checkpoint. */
  ghost predicate AllMatch(hash: HashFn, table: seq<Checkpoint>, c: Chain, batch: seq<Header>) {
    forall i, h :: 0 <= i < |batch| && GetCheckpoint(table, c.height + 1 + i) == Some(h) ==> h == hash(batch[i])
  }

  /** The first `n` headers of the batch are in, and the others are still unknown. */
  ghost predicate InUpto(hash: HashFn, c: Chain, batch: seq<Header>, n: nat, s: Scan)
    requires n <= |batch|
  {
    && s.stop == n && s.added == n && s.chain.height == c.height + n && s.chain.headers == c.headers + batch[..n]
    && forall j :: n <= j < |batch| ==> hash(batch[j]) !in s.chain.have
  }

  lemma {:induction false} DoesNotBreak(hash: HashFn, table: seq<Checkpoint>, c: Chain, batch: seq<Header>, n: nat)
    requires n < |batch| && AllLink(hash, c, batch) && AllMatch(hash, table, c, batch)
    requires Upto(hash, table, c, batch, n).height == c.height + n
    ensures !Breaks(hash, table, c, batch, n)
  {
  }

  lemma InOneMore(hash: HashFn, c: Chain, batch: seq<Header>, n: nat, s: Scan)
    requires n < |batch| && AllNew(hash, c, batch) && InUpto(hash, c, batch, n, s)
    ensures InUpto(hash, c, batch, n + 1, Scan(Appended(hash, s.chain, batch[n]), n + 1, n + 1))
  {
    assert batch[..n + 1] == batch[..n] + [batch[n]];
    Reassociate(c.headers, batch[..n], [batch[n]]);
  }

  lemma {:induction false} AcceptedUpto(hash: HashFn, table: seq<Checkpoint>, c: Chain, batch: seq<Header>, n: nat)
    requires n <= |batch| && AllNew(hash, c, batch) && AllLink(hash, c, batch) && AllMatch(hash, table, c, batch)
    ensures InUpto(hash, c, batch, n, Extend(hash, table, c, batch[..n]))
  {
    if n == 0 {
      assert c.headers + batch[..0] == c.headers;
    } else {
      var s := Extend(hash, table, c, batch[..n - 1]);
      AcceptedUpto(hash, table, c, batch, n - 1);
      OneFurther(hash, table, c, batch, n - 1);
      DoesNotBreak(hash, table, c, batch, n - 1);
      InOneMore(hash, c, batch, n - 1, s);
    }
  }

  /** A batch of new headers that link, each to the one before it and the first to the last of the vector, and
      that match every checkpoint they reach, is accepted whole. */
  lemma {:induction false} AcceptedWhole(hash: HashFn, table: seq<Checkpoint>, c: Chain, batch: seq<Header>)
    requires AllNew(hash, c, batch) && AllLink(hash, c, batch) && AllMatch(hash, table, c, batch)
    ensures var s := Extend(hash, table, c, batch);
            s.stop == |batch| && s.added == |batch| && s.chain.headers == c.headers + batch
  {
    assert batch[..|batch|] == batch;
    AcceptedUpto(hash, table, c, batch, |batch|);
  }
}
