/** What the header file holds after batches have been appended to it, with writes that may be cut short,
    and exactly when it reloads as the headers in memory (src/p2p/legacy.rs). */
module HeaderLog {
  import opened Headers
  import opened Lists
  import opened ChainParams
  import opened HeaderChain

  /** How many bytes of record `i` of a batch reach the file: all of them, unless the write was cut short.
      A failed write is only reported. */
  function WrittenAt(written: seq<nat>, i: nat): (n: nat)
    ensures n <= RECORD
  {
    if i < |written| && written[i] <= RECORD then written[i] else RECORD
  }

  /** The part of a record that a write of `n` bytes leaves in the file. */
  function Part(h: Header, n: nat): (s: seq<byte>)
    ensures |s| == if n <= RECORD then n else RECORD
    ensures s <= Encode(h) && (n >= RECORD ==> s == Encode(h))
  {
    Encode(h)[..if n <= RECORD then n else RECORD]
  }

  /** The bytes that a list of headers adds to the file, given how much of each was written. */
  function Written(headers: seq<Header>, counts: seq<nat>): seq<byte>
    requires |headers| == |counts|
  {
    if headers == [] then []
    else
      var n := |headers| - 1;
      Written(headers[..n], counts[..n]) + Part(headers[n], counts[n])
  }

  /** The file after a batch: each accepted header is appended as it is accepted. */
  function ScanFile(hash: HashFn, table: seq<Checkpoint>, c: Chain, tip: Hash, batch: seq<Header>, written: seq<nat>,
                    i: nat, file: seq<byte>): seq<byte>
    requires i <= |batch|
    decreases |batch| - i
  {
    if i == |batch| then file
    else if hash(batch[i]) in c.have then ScanFile(hash, table, c, hash(batch[i]), batch, written, i + 1, file)
    else if Rejects(hash, table, c.height, tip, batch[i]) then file
    else ScanFile(hash, table, Appended(hash, c, batch[i]), hash(batch[i]), batch, written, i + 1,
                  file + Part(batch[i], WrittenAt(written, i)))
  }

  /** How much of each accepted header was written. */
  function ScanCounts(hash: HashFn, table: seq<Checkpoint>, c: Chain, tip: Hash, batch: seq<Header>, written: seq<nat>,
                      i: nat): seq<nat>
    requires i <= |batch|
    decreases |batch| - i
  {
    if i == |batch| then []
    else if hash(batch[i]) in c.have then ScanCounts(hash, table, c, hash(batch[i]), batch, written, i + 1)
    else if Rejects(hash, table, c.height, tip, batch[i]) then []
    else [WrittenAt(written, i)] + ScanCounts(hash, table, Appended(hash, c, batch[i]), hash(batch[i]), batch, written,
                                              i + 1)
  }

  function ExtendFile(hash: HashFn, table: seq<Checkpoint>, c: Chain, batch: seq<Header>, written: seq<nat>,
                      file: seq<byte>): seq<byte> {
    ScanFile(hash, table, c, LastHash(c), batch, written, 0, file)
  }

  function ExtendCounts(hash: HashFn, table: seq<Checkpoint>, c: Chain, batch: seq<Header>,
                        written: seq<nat>): seq<nat> {
    ScanCounts(hash, table, c, LastHash(c), batch, written, 0)
  }

  // ---------------------------------------------------------------- the file as a sum of its writes

  lemma {:induction false} WrittenAppended(a: seq<Header>, m: seq<nat>, h: Header, n: nat)
    requires |a| == |m|
    ensures Written(a + [h], m + [n]) == Written(a, m) + Part(h, n)
  {
    assert (a + [h])[..|a|] == a && (m + [n])[..|a|] == m;
  }

  lemma {:induction false} WrittenConcat(a: seq<Header>, m: seq<nat>, b: seq<Header>, n: seq<nat>)
    requires |a| == |m| && |b| == |n|
    ensures Written(a + b, m + n) == Written(a, m) + Written(b, n)
  {
    if b == [] {
      assert a + b == a && m + n == m;
      Reassociate<byte>(Written(a, m), [], []);
    } else {
      var b', n', h, k := b[..|b| - 1], n[..|b| - 1], b[|b| - 1], n[|b| - 1];
      WrittenConcat(a, m, b', n');
      AppendLast(a, b);
      AppendLast(m, n);
      WrittenAppended(a + b', m + n', h, k);
      Reassociate(Written(a, m), Written(b', n'), Part(h, k));
    }
  }

  lemma WrittenOne(h: Header, n: nat)
    ensures Written([h], [n]) == Part(h, n)
  {
    WrittenAppended([], [], h, n);
    assert [] + [h] == [h] && [] + [n] == [n] && [] + Part(h, n) == Part(h, n);
  }

  lemma {:induction false} WrittenLength(headers: seq<Header>, counts: seq<nat>)
    requires |headers| == |counts|
    ensures |Written(headers, counts)| <= RECORD * |headers|
    ensures |Written(headers, counts)| == RECORD * |headers| <==> AllWritten(counts)
  {
    if headers != [] {
      var n := |headers| - 1;
      WrittenLength(headers[..n], counts[..n]);
      AllWrittenStep(counts, n);
    }
  }

  /** Every write went through. */
  predicate AllWritten(counts: seq<nat>) {
    forall i :: 0 <= i < |counts| ==> counts[i] >= RECORD
  }

  lemma AllWrittenStep(counts: seq<nat>, n: nat)
    requires |counts| == n + 1
    ensures AllWritten(counts) <==> AllWritten(counts[..n]) && counts[n] >= RECORD
  {
  }

  lemma {:induction false} WrittenInFull(headers: seq<Header>, counts: seq<nat>)
    requires |headers| == |counts| && AllWritten(counts)
    ensures Written(headers, counts) == Log(headers)
  {
    if headers != [] {
      var n := |headers| - 1;
      AllWrittenStep(counts, n);
      WrittenInFull(headers[..n], counts[..n]);
    }
  }

  /** `c'` is `c` with more headers, `counts` says how much of each was written, and `file'` is `file` with
      those bytes appended. */
  ghost predicate Stored(c: Chain, c': Chain, counts: seq<nat>, file: seq<byte>, file': seq<byte>) {
    && c.headers <= c'.headers && |counts| == |c'.headers| - |c.headers|
    && file' == file + Written(c'.headers[|c.headers|..], counts)
  }

  lemma StoredNothing(c: Chain, file: seq<byte>)
    ensures Stored(c, c, [], file, file)
  {
    assert c.headers[|c.headers|..] == [];
    Reassociate<byte>(file, [], []);
  }

  lemma StoredTwice(c: Chain, c1: Chain, c2: Chain, m: seq<nat>, n: seq<nat>, file: seq<byte>, file1: seq<byte>,
                    file2: seq<byte>)
    requires Stored(c, c1, m, file, file1) && Stored(c1, c2, n, file1, file2)
    ensures Stored(c, c2, m + n, file, file2)
  {
    var a, b := c1.headers[|c.headers|..], c2.headers[|c1.headers|..];
    assert c2.headers[|c.headers|..] == a + b;
    WrittenConcat(a, m, b, n);
    Reassociate(file, Written(a, m), Written(b, n));
  }

  lemma StoredOne(hash: HashFn, c: Chain, h: Header, n: nat, file: seq<byte>)
    ensures Stored(c, Appended(hash, c, h), [n], file, file + Part(h, n))
  {
    assert (c.headers + [h])[|c.headers|..] == [h];
    WrittenOne(h, n);
  }

  lemma {:induction false} ScanStores(hash: HashFn, table: seq<Checkpoint>, c: Chain, tip: Hash, batch: seq<Header>,
                                      written: seq<nat>, i: nat, file: seq<byte>)
    requires i <= |batch|
    ensures Stored(c, ScanFrom(hash, table, c, tip, batch, i).chain, ScanCounts(hash, table, c, tip, batch, written, i),
                   file, ScanFile(hash, table, c, tip, batch, written, i, file))
    decreases |batch| - i
  {
    if i == |batch| {
      StoredNothing(c, file);
    } else if hash(batch[i]) in c.have {
      ScanStores(hash, table, c, hash(batch[i]), batch, written, i + 1, file);
    } else if Rejects(hash, table, c.height, tip, batch[i]) {
      StoredNothing(c, file);
    } else {
      var c1, n := Appended(hash, c, batch[i]), WrittenAt(written, i);
      var file1 := file + Part(batch[i], n);
      StoredOne(hash, c, batch[i], n, file);
      ScanStores(hash, table, c1, hash(batch[i]), batch, written, i + 1, file1);
      StoredTwice(c, c1, ScanFrom(hash, table, c1, hash(batch[i]), batch, i + 1).chain, [n],
                  ScanCounts(hash, table, c1, hash(batch[i]), batch, written, i + 1), file, file1,
                  ScanFile(hash, table, c1, hash(batch[i]), batch, written, i + 1, file1));
    }
  }

  // ---------------------------------------------------------------- when the file reloads right

  lemma LoadsAsLog(bytes: seq<byte>)
    ensures Log(Loaded(bytes)) <= bytes
  {
    FileIsLog(bytes);
  }

  lemma LogLoads(bytes: seq<byte>, headers: seq<Header>)
    requires |bytes| < RECORD * |headers| + RECORD && Log(headers) <= bytes
    ensures Loaded(bytes) == headers
  {
    LogLength(headers);
    var rest := bytes[|Log(headers)|..];
    assert bytes == Log(headers) + rest;
    LogRoundTrip(headers, rest);
  }

  /** With less than a record to spare, bytes load as given headers if and only if they begin with their log. */
  lemma LoadsAsIff(bytes: seq<byte>, headers: seq<Header>)
    requires |bytes| < RECORD * |headers| + RECORD
    ensures Loaded(bytes) == headers <==> Log(headers) <= bytes
  {
    LoadsAsLog(bytes);
    if Log(headers) <= bytes {
      LogLoads(bytes, headers);
    }
  }

  lemma LoadedAfter(file: seq<byte>, more: seq<byte>)
    ensures Loaded(file + more) == Loaded(file) + Loaded(Fragment(file) + more)
  {
    var whole := file[..|file| / RECORD * RECORD];
    assert file == whole + Fragment(file);
    Reassociate(whole, Fragment(file), more);
    LoadedSplit(whole, Fragment(file) + more);
    LoadedSplit(whole, Fragment(file));
    assert Loaded(Fragment(file)) == [];
  }

  /** The file reloads as the headers in memory if and only if the fragment it began with, together with
      the bytes written since, begins with the log of the headers accepted since. */
  lemma ReloadsIff(c: Chain, c': Chain, counts: seq<nat>, file: seq<byte>, file': seq<byte>)
    requires c.headers == Loaded(file) && Stored(c, c', counts, file, file')
    ensures var since := c'.headers[|c.headers|..];
            Loaded(file') == c'.headers <==> Log(since) <= Fragment(file) + Written(since, counts)
  {
    var since := c'.headers[|c.headers|..];
    assert c'.headers == c.headers + since;
    LoadedAfter(file, Written(since, counts));
    WrittenLength(since, counts);
    LoadsAsIff(Fragment(file) + Written(since, counts), since);
    SameRest(c.headers, Loaded(Fragment(file) + Written(since, counts)), since);
  }

  lemma SameRest<T>(a: seq<T>, b: seq<T>, c: seq<T>)
    ensures a + b == a + c <==> b == c
  {
    if a + b == a + c {
      assert b == (a + b)[|a|..] && c == (a + c)[|a|..];
    }
  }

  /** From a file that ends at a record boundary: if and only if every write went through ... */
  lemma CleanReloadsIff(c: Chain, c': Chain, counts: seq<nat>, file: seq<byte>, file': seq<byte>)
    requires c.headers == Loaded(file) && Stored(c, c', counts, file, file') && |file| % RECORD == 0
    ensures Loaded(file') == c'.headers <==> AllWritten(counts)
  {
    var since := c'.headers[|c.headers|..];
    ReloadsIff(c, c', counts, file, file');
    WrittenLength(since, counts);
    LogLength(since);
    assert Fragment(file) + Written(since, counts) == Written(since, counts);
    if AllWritten(counts) {
      WrittenInFull(since, counts);
    }
  }

  /** ... and then the file is the log of the headers in memory. */
  lemma CleanStaysLog(c: Chain, c': Chain, counts: seq<nat>, file: seq<byte>, file': seq<byte>)
    requires c.headers == Loaded(file) && Stored(c, c', counts, file, file') && |file| % RECORD == 0
             && AllWritten(counts)
    ensures file' == Log(c'.headers)
  {
    var since := c'.headers[|c.headers|..];
    assert c'.headers == c.headers + since;
    WrittenInFull(since, counts);
    CleanLog(c, c', since, file, file');
  }

  lemma CleanLog(c: Chain, c': Chain, since: seq<Header>, file: seq<byte>, file': seq<byte>)
    requires c.headers == Loaded(file) && c'.headers == c.headers + since && file' == file + Log(since)
             && |file| % RECORD == 0
    ensures file' == Log(c'.headers)
  {
    FileIsLog(file);
    assert Log(c.headers) == file;
    LogConcat(c.headers, since);
  }

  lemma {:induction false} LogConcat(a: seq<Header>, b: seq<Header>)
    ensures Log(a + b) == Log(a) + Log(b)
  {
    if b == [] {
      assert a + b == a;
    } else {
      var n := |b| - 1;
      LogConcat(a, b[..n]);
      AppendLast(a, b);
      assert (a + b)[..|a| + n] == a + b[..n];
      Reassociate(Log(a), Log(b[..n]), Encode(b[n]));
    }
  }

  /** `bytes` is what `fragment` spells when it is repeated over and over. */
  predicate Repeats(fragment: seq<byte>, bytes: seq<byte>)
    requires fragment != []
    decreases |bytes|
  {
    if |bytes| <= |fragment| then bytes <= fragment
    else fragment <= bytes && Repeats(fragment, bytes[|fragment|..])
  }

  lemma {:induction false} RepeatsIff(fragment: seq<byte>, bytes: seq<byte>)
    requires fragment != []
    ensures bytes <= fragment + bytes <==> Repeats(fragment, bytes)
    decreases |bytes|
  {
    if |bytes| <= |fragment| {
      assert (fragment + bytes)[..|bytes|] == fragment[..|bytes|];
    } else {
      var rest := bytes[|fragment|..];
      assert (fragment + bytes)[..|fragment|] == fragment;
      if fragment <= bytes {
        assert bytes == fragment + rest;
        RepeatsIff(fragment, rest);
        SamePrefix(fragment, rest, bytes);
      }
    }
  }

  lemma SamePrefix<T>(a: seq<T>, b: seq<T>, c: seq<T>)
    ensures a + b <= a + c <==> b <= c
  {
    if a + b <= a + c {
      assert forall i :: 0 <= i < |b| ==> b[i] == (a + b)[|a| + i] == (a + c)[|a| + i] == c[i];
    }
  }

  /** From a file that ends in a fragment, with every write going through: if and only if the log of what
      was accepted since is that fragment over and over, which holds when nothing was accepted. */
  lemma FragmentReloadsIff(c: Chain, c': Chain, counts: seq<nat>, file: seq<byte>, file': seq<byte>)
    requires c.headers == Loaded(file) && Stored(c, c', counts, file, file') && AllWritten(counts)
             && |file| % RECORD != 0
    ensures Loaded(file') == c'.headers <==> Repeats(Fragment(file), Log(c'.headers[|c.headers|..]))
  {
    var since := c'.headers[|c.headers|..];
    ReloadsIff(c, c', counts, file, file');
    WrittenInFull(since, counts);
    RepeatsIff(Fragment(file), Log(since));
  }
}
