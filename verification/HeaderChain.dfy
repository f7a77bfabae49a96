/** The header chain as a value: how a batch extends it, what every run keeps, and how it is
    rebuilt from disk (src/p2p/legacy.rs, extend_headers and with_start_height). The block hash is
    an arbitrary function; nothing is assumed of it, not even that it is free of collisions. */
module HeaderChain {
  import opened Headers
  import opened Lists
  import opened ChainParams

  type HashFn = Header -> Hash

  datatype Chain = Chain(
    headers: seq<Header>,
    recent: seq<Hash>,
    have: set<Hash>,
    prevMap: map<Hash, Hash>,
    height: nat,
    tip: Hash)

  function Fresh(genesis: Hash): Chain {
    Chain([], [genesis], {genesis}, map[], 0, genesis)
  }

  function Appended(hash: HashFn, c: Chain, h: Header): Chain {
    Chain(c.headers + [h], c.recent + [hash(h)], c.have + {hash(h)}, c.prevMap[hash(h) := h.prev], c.height + 1,
          hash(h))
  }

  /** The state built from a list of headers read from disk. */
  function Rebuilt(hash: HashFn, genesis: Hash, headers: seq<Header>): Chain {
    if headers == [] then Fresh(genesis)
    else Appended(hash, Rebuilt(hash, genesis, headers[..|headers| - 1]), headers[|headers| - 1])
  }

  /** Why a header that is not known yet is turned away: it does not link to the header before it in
      the batch, or it is not the checkpoint of the height it would get. */
  predicate Rejects(hash: HashFn, table: seq<Checkpoint>, height: nat, tip: Hash, h: Header) {
    || h.prev != tip
    || (GetCheckpoint(table, height + 1).Some? && GetCheckpoint(table, height + 1).value != hash(h))
  }

  datatype Scan = Scan(chain: Chain, stop: nat, added: nat)

  /** Works through a batch from position `i`; `tip` is the header the next new one must link to. A
      known header is skipped, but becomes the tip. */
  function ScanFrom(hash: HashFn, table: seq<Checkpoint>, c: Chain, tip: Hash, batch: seq<Header>, i: nat): Scan
    requires i <= |batch|
    decreases |batch| - i
  {
    if i == |batch| then Scan(c, i, 0)
    else if hash(batch[i]) in c.have then ScanFrom(hash, table, c, hash(batch[i]), batch, i + 1)
    else if Rejects(hash, table, c.height, tip, batch[i]) then Scan(c, i, 0)
    else
      var rest := ScanFrom(hash, table, Appended(hash, c, batch[i]), hash(batch[i]), batch, i + 1);
      rest.(added := rest.added + 1)
  }

  /** The last hash of the vector, which is never empty in a running node. */
  function LastHash(c: Chain): Hash {
    if c.recent == [] then c.tip else c.recent[|c.recent| - 1]
  }

  function Extend(hash: HashFn, table: seq<Checkpoint>, c: Chain, batch: seq<Header>): Scan {
    ScanFrom(hash, table, c, LastHash(c), batch, 0)
  }

  // ---------------------------------------------------------------- the invariant

  /** Index `i + 1` of the chain is header `i`, whose parent stands at some smaller index. */
  ghost predicate Rooted(hash: HashFn, c: Chain, i: nat)
    requires i < |c.headers| && |c.recent| == |c.headers| + 1
  {
    && c.recent[i + 1] == hash(c.headers[i])
    && c.recent[i + 1] in c.prevMap && c.prevMap[c.recent[i + 1]] == c.headers[i].prev
    && exists j :: 0 <= j <= i && c.recent[j] == c.headers[i].prev
  }

  /** The views agree, no hash occurs twice, the headers form a tree rooted at genesis whose parents
      come first, and every checkpoint reached is matched. */
  ghost predicate ChainInv(hash: HashFn, genesis: Hash, table: seq<Checkpoint>, c: Chain) {
    && c.height == |c.headers| && |c.recent| == c.height + 1
    && c.recent[0] == genesis && c.tip == c.recent[c.height]
    && NoRepeats(c.recent)
    && c.have == Elements(c.recent)
    && c.prevMap.Keys == c.have - {genesis}
    && (forall i :: 0 <= i < |c.headers| ==> Rooted(hash, c, i))
    && (forall k :: 1 <= k <= c.height && GetCheckpoint(table, k).Some? ==>
        c.recent[k] == GetCheckpoint(table, k).value)
  }

  lemma {:induction false} FreshInv(hash: HashFn, genesis: Hash, table: seq<Checkpoint>)
    ensures ChainInv(hash, genesis, table, Fresh(genesis))
  {
    assert Elements([genesis]) == {genesis};
  }

  /** Accepting a header keeps the invariant, as long as the header it links to is known. */
  lemma {:induction false} AppendedInv(hash: HashFn, genesis: Hash, table: seq<Checkpoint>, c: Chain, tip: Hash,
                                       h: Header)
    requires ChainInv(hash, genesis, table, c) && tip in c.have && hash(h) !in c.have
    requires !Rejects(hash, table, c.height, tip, h)
    ensures ChainInv(hash, genesis, table, Appended(hash, c, h))
  {
    var c' := Appended(hash, c, h);
    forall i | 0 <= i < |c'.headers|
      ensures Rooted(hash, c', i)
    {
      AppendedRooted(hash, genesis, table, c, tip, h, i);
    }
    ElementsAppended(c.recent, hash(h));
    NoRepeatsAppended(c.recent, hash(h));
    assert c.recent[0] in c.recent;
    KeysWithout(c.prevMap, c.have, genesis, hash(h), h.prev);
  }

  lemma {:induction false} KeysWithout(m: map<Hash, Hash>, have: set<Hash>, genesis: Hash, x: Hash, v: Hash)
    requires m.Keys == have - {genesis} && x !in have && genesis in have
    ensures m[x := v].Keys == have + {x} - {genesis}
  {
  }

  lemma {:induction false} AppendedRooted(hash: HashFn, genesis: Hash, table: seq<Checkpoint>, c: Chain, tip: Hash,
                                          h: Header, i: nat)
    requires ChainInv(hash, genesis, table, c) && tip in c.have && hash(h) !in c.have && h.prev == tip
    requires i <= |c.headers|
    ensures Rooted(hash, Appended(hash, c, h), i)
  {
    var c' := Appended(hash, c, h);
    if i < |c.headers| {
      assert Rooted(hash, c, i);
      assert c.recent[i + 1] in c.recent;
      var j :| 0 <= j <= i && c.recent[j] == c.headers[i].prev;
      assert c'.recent[j] == c'.headers[i].prev;
    } else {
      var j :| 0 <= j < |c.recent| && c.recent[j] == tip;
      assert c'.recent[j] == c'.headers[i].prev;
    }
  }

  /** Every batch keeps the invariant, wherever it stops. */
  lemma {:induction false} ScanInv(hash: HashFn, genesis: Hash, table: seq<Checkpoint>, c: Chain, tip: Hash,
                                   batch: seq<Header>, i: nat)
    requires ChainInv(hash, genesis, table, c) && tip in c.have && i <= |batch|
    ensures ChainInv(hash, genesis, table, ScanFrom(hash, table, c, tip, batch, i).chain)
    decreases |batch| - i
  {
    if i < |batch| {
      var h := batch[i];
      if hash(h) in c.have {
        ScanInv(hash, genesis, table, c, hash(h), batch, i + 1);
      } else if !Rejects(hash, table, c.height, tip, h) {
        AppendedInv(hash, genesis, table, c, tip, h);
        ScanInv(hash, genesis, table, Appended(hash, c, h), hash(h), batch, i + 1);
      }
    }
  }

  lemma {:induction false} ExtendInv(hash: HashFn, genesis: Hash, table: seq<Checkpoint>, c: Chain, batch: seq<Header>)
    requires ChainInv(hash, genesis, table, c)
    ensures ChainInv(hash, genesis, table, Extend(hash, table, c, batch).chain)
  {
    assert c.recent[c.height] in c.recent;
    ScanInv(hash, genesis, table, c, c.recent[c.height], batch, 0);
  }

  /** The chain after a run of batches that starts from genesis. */
  function RunBatches(hash: HashFn, genesis: Hash, table: seq<Checkpoint>, batches: seq<seq<Header>>): Chain {
    if batches == [] then Fresh(genesis)
    else Extend(hash, table, RunBatches(hash, genesis, table, batches[..|batches| - 1]), batches[|batches| - 1]).chain
  }

  /** Every run of header batches keeps the invariant. */
  lemma {:induction false} RunInv(hash: HashFn, genesis: Hash, table: seq<Checkpoint>, batches: seq<seq<Header>>)
    ensures ChainInv(hash, genesis, table, RunBatches(hash, genesis, table, batches))
  {
    if batches == [] {
      FreshInv(hash, genesis, table);
    } else {
      RunInv(hash, genesis, table, batches[..|batches| - 1]);
      ExtendInv(hash, genesis, table, RunBatches(hash, genesis, table, batches[..|batches| - 1]),
                batches[|batches| - 1]);
    }
  }

  // ---------------------------------------------------------------- the way back to genesis

  ghost predicate StepsBack(prevMap: map<Hash, Hash>, walk: seq<Hash>, i: nat) {
    i + 1 < |walk| && walk[i] in prevMap && prevMap[walk[i]] == walk[i + 1]
  }

  ghost predicate WalksBack(prevMap: map<Hash, Hash>, walk: seq<Hash>, start: Hash, end: Hash) {
    |walk| > 0 && walk[0] == start && walk[|walk| - 1] == end
    && forall i :: 0 <= i < |walk| - 1 ==> StepsBack(prevMap, walk, i)
  }

  /** From every header the parent map leads to genesis, in at most as many steps as its index. */
  lemma {:induction false} LeadsToGenesis(hash: HashFn, genesis: Hash, table: seq<Checkpoint>, c: Chain, k: nat)
    returns (walk: seq<Hash>)
    requires ChainInv(hash, genesis, table, c) && k <= c.height
    ensures WalksBack(c.prevMap, walk, c.recent[k], genesis) && |walk| <= k + 1
  {
    if k == 0 {
      walk := [genesis];
    } else {
      assert Rooted(hash, c, k - 1);
      var j :| 0 <= j <= k - 1 && c.recent[j] == c.headers[k - 1].prev;
      var rest := LeadsToGenesis(hash, genesis, table, c, j);
      walk := [c.recent[k]] + rest;
      forall i | 0 <= i < |walk| - 1
        ensures StepsBack(c.prevMap, walk, i)
      {
        assert i > 0 ==> StepsBack(c.prevMap, rest, i - 1);
      }
    }
  }

  // ---------------------------------------------------------------- applying a batch twice

  /** What the next new header must link to, once `stop` headers of the batch are behind. */
  function TipAt(hash: HashFn, tip: Hash, batch: seq<Header>, i: nat, stop: nat): Hash
    requires i <= stop <= |batch|
  {
    if stop == i then tip else hash(batch[stop - 1])
  }

  /** All that a scan leaves behind: everything it passed is known, and what it stopped at is not
      and is turned away. */
  ghost predicate Stopped(hash: HashFn, table: seq<Checkpoint>, c: Chain, tip: Hash, batch: seq<Header>, i: nat,
                          stop: nat) {
    && i <= stop <= |batch|
    && (forall j :: i <= j < stop ==> hash(batch[j]) in c.have)
    && (stop < |batch| ==> hash(batch[stop]) !in c.have
                           && Rejects(hash, table, c.height, TipAt(hash, tip, batch, i, stop), batch[stop]))
  }

  lemma {:induction false} ScanStops(hash: HashFn, table: seq<Checkpoint>, c: Chain, tip: Hash, batch: seq<Header>,
                                     i: nat)
    requires i <= |batch|
    ensures var s := ScanFrom(hash, table, c, tip, batch, i);
            && Stopped(hash, table, s.chain, tip, batch, i, s.stop)
            && c.have <= s.chain.have
            && s.chain.height == c.height + s.added
            && (s.stop == i ==> s.chain == c)
    decreases |batch| - i
  {
    if i < |batch| {
      var h := batch[i];
      if hash(h) in c.have {
        ScanStops(hash, table, c, hash(h), batch, i + 1);
      } else if !Rejects(hash, table, c.height, tip, h) {
        ScanStops(hash, table, Appended(hash, c, h), hash(h), batch, i + 1);
      }
    }
  }

  lemma {:induction false} ScanOfKnown(hash: HashFn, table: seq<Checkpoint>, c: Chain, tip: Hash, batch: seq<Header>,
                                       i: nat, stop: nat)
    requires Stopped(hash, table, c, tip, batch, i, stop)
    ensures ScanFrom(hash, table, c, tip, batch, i) == Scan(c, stop, 0)
    decreases stop - i
  {
    if i < stop {
      ScanOfKnown(hash, table, c, hash(batch[i]), batch, i + 1, stop);
    }
  }

  /** Applying a batch a second time adds nothing and stops at the same place, whether the first
      pass ended at a broken link, at a checkpoint or at the end of the batch. */
  lemma {:induction false} ExtendTwice(hash: HashFn, genesis: Hash, table: seq<Checkpoint>, c: Chain,
                                       batch: seq<Header>)
    requires ChainInv(hash, genesis, table, c)
    ensures var once := Extend(hash, table, c, batch);
            Extend(hash, table, once.chain, batch) == Scan(once.chain, once.stop, 0)
  {
    var once := Extend(hash, table, c, batch);
    ExtendInv(hash, genesis, table, c, batch);
    ScanStops(hash, table, c, c.recent[c.height], batch, 0);
    ScanOfKnown(hash, table, once.chain, once.chain.recent[once.chain.height], batch, 0, once.stop);
  }

  // ---------------------------------------------------------------- reloading from disk

  /** The views that a list of headers builds, whatever they are. */
  lemma {:induction false} RebuiltViews(hash: HashFn, genesis: Hash, headers: seq<Header>)
    ensures Rebuilt(hash, genesis, headers).headers == headers && ViewsFit(Rebuilt(hash, genesis, headers))
  {
    RebuiltHeaders(hash, genesis, headers);
    RebuiltFits(hash, genesis, headers);
  }

  lemma {:induction false} RebuiltAppended(hash: HashFn, genesis: Hash, front: seq<Header>, last: Header)
    ensures Rebuilt(hash, genesis, front + [last]) == Appended(hash, Rebuilt(hash, genesis, front), last)
  {
    assert (front + [last])[..|front|] == front;
  }

  ghost predicate BuiltFrom(c: Chain, headers: seq<Header>) {
    c.headers == headers
  }

  lemma {:induction false} RebuiltHeadersNext(hash: HashFn, genesis: Hash, front: seq<Header>, last: Header)
    requires BuiltFrom(Rebuilt(hash, genesis, front), front)
    ensures BuiltFrom(Rebuilt(hash, genesis, front + [last]), front + [last])
  {
    RebuiltAppended(hash, genesis, front, last);
  }

  lemma SplitLast<T>(s: seq<T>)
    requires s != []
    ensures s == s[..|s| - 1] + [s[|s| - 1]]
  {
  }

  lemma {:induction false} RebuiltHeaders(hash: HashFn, genesis: Hash, headers: seq<Header>)
    ensures BuiltFrom(Rebuilt(hash, genesis, headers), headers)
  {
    if headers != [] {
      RebuiltHeaders(hash, genesis, headers[..|headers| - 1]);
      RebuiltHeadersNext(hash, genesis, headers[..|headers| - 1], headers[|headers| - 1]);
      SplitLast(headers);
    }
  }

  lemma {:induction false} RebuiltFits(hash: HashFn, genesis: Hash, headers: seq<Header>)
    ensures ViewsFit(Rebuilt(hash, genesis, headers))
  {
    if headers != [] {
      var front, last := headers[..|headers| - 1], headers[|headers| - 1];
      RebuiltFits(hash, genesis, front);
      RebuiltAppended(hash, genesis, front, last);
      AppendedViews(hash, Rebuilt(hash, genesis, front), last);
      assert headers == front + [last];
    } else {
      ElementsSingle(genesis);
    }
  }

  ghost predicate ViewsFit(c: Chain) {
    |c.recent| == |c.headers| + 1 && c.have == Elements(c.recent) && LastHash(c) == c.tip
  }

  lemma AppendedViews(hash: HashFn, c: Chain, h: Header)
    requires ViewsFit(c)
    ensures ViewsFit(Appended(hash, c, h))
  {
    ElementsAppended(c.recent, hash(h));
  }

  lemma {:induction false} ScanRebuilds(hash: HashFn, genesis: Hash, table: seq<Checkpoint>, c: Chain, tip: Hash,
                                        batch: seq<Header>, i: nat)
    requires i <= |batch| && c == Rebuilt(hash, genesis, c.headers)
    ensures var s := ScanFrom(hash, table, c, tip, batch, i);
            s.chain == Rebuilt(hash, genesis, s.chain.headers)
    decreases |batch| - i
  {
    if i < |batch| {
      if hash(batch[i]) in c.have {
        ScanRebuilds(hash, genesis, table, c, hash(batch[i]), batch, i + 1);
      } else if !Rejects(hash, table, c.height, tip, batch[i]) {
        AppendedRebuilt(hash, genesis, c, batch[i]);
        ScanRebuilds(hash, genesis, table, Appended(hash, c, batch[i]), hash(batch[i]), batch, i + 1);
      }
    }
  }

  lemma {:induction false} AppendedRebuilt(hash: HashFn, genesis: Hash, c: Chain, h: Header)
    requires c == Rebuilt(hash, genesis, c.headers)
    ensures Appended(hash, c, h) == Rebuilt(hash, genesis, Appended(hash, c, h).headers)
  {
    var all := c.headers + [h];
    assert all[..|all| - 1] == c.headers;
  }

  /** After any run of batches, reloading the log of the accepted headers rebuilds exactly the
      running state, in every view; a trailing fragment of a record makes no difference. */
  lemma {:induction false} ReloadRestores(hash: HashFn, genesis: Hash, table: seq<Checkpoint>,
                                          batches: seq<seq<Header>>, fragment: seq<byte>)
    requires |fragment| < RECORD
    ensures var c := RunBatches(hash, genesis, table, batches);
            Rebuilt(hash, genesis, Loaded(Log(c.headers) + fragment)) == c
  {
    var c := RunBatches(hash, genesis, table, batches);
    LogRoundTrip(c.headers, fragment);
    RunRebuilds(hash, genesis, table, batches);
  }

  lemma {:induction false} RunRebuilds(hash: HashFn, genesis: Hash, table: seq<Checkpoint>, batches: seq<seq<Header>>)
    ensures var c := RunBatches(hash, genesis, table, batches);
            c == Rebuilt(hash, genesis, c.headers)
  {
    if batches != [] {
      var before := RunBatches(hash, genesis, table, batches[..|batches| - 1]);
      RunRebuilds(hash, genesis, table, batches[..|batches| - 1]);
      ScanRebuilds(hash, genesis, table, before, LastHash(before), batches[|batches| - 1], 0);
    }
  }
}
