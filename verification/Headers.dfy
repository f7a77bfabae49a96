/** Block headers and the header log on disk: the 80-byte records of src/p2p/legacy.rs
    (load_headers_from_disk, append_header_to_disk). */
module Headers {
  import opened Lists

  type byte = b: int | 0 <= b < 256

  type u32 = n: int | 0 <= n < 0x1_0000_0000

  type Bytes32 = s: seq<byte> | |s| == 32 witness seq(32, i => 0)

  datatype Hash = Hash(raw: Bytes32)

  datatype Header = Header(version: u32, prev: Hash, merkleRoot: Hash, time: u32, bits: u32, nonce: u32)

  const RECORD: nat := 80

  function EncodeU32(n: u32): (s: seq<byte>)
    ensures |s| == 4
  {
    [n % 256, n / 256 % 256, n / 256 / 256 % 256, n / 256 / 256 / 256]
  }

  function DecodeU32(s: seq<byte>): u32
    requires |s| == 4
  {
    var b0: int, b1: int, b2: int, b3: int := s[0], s[1], s[2], s[3];
    b0 + 256 * (b1 + 256 * (b2 + 256 * b3))
  }

  lemma U32RoundTrip(n: u32)
    ensures DecodeU32(EncodeU32(n)) == n
  {
  }

  lemma Digit(low: int, high: int)
    requires 0 <= low < 256 && 0 <= high
    ensures (low + 256 * high) % 256 == low && (low + 256 * high) / 256 == high
  {
  }

  lemma U32Inverse(s: seq<byte>)
    requires |s| == 4
    ensures EncodeU32(DecodeU32(s)) == s
  {
    Digit(s[2], s[3]);
    Digit(s[1], s[2] + 256 * (s[3] as int));
    Digit(s[0], s[1] + 256 * (s[2] + 256 * (s[3] as int)));
  }

  /** The consensus serialisation: little-endian integers around two hashes. */
  function Encode(h: Header): (s: seq<byte>)
    ensures |s| == RECORD
  {
    EncodeU32(h.version) + h.prev.raw + h.merkleRoot.raw + EncodeU32(h.time) + EncodeU32(h.bits) + EncodeU32(h.nonce)
  }

  function Decode(s: seq<byte>): Header
    requires |s| == RECORD
  {
    Header(DecodeU32(s[0..4]), Hash(s[4..36]), Hash(s[36..68]), DecodeU32(s[68..72]), DecodeU32(s[72..76]),
           DecodeU32(s[76..80]))
  }

  lemma HeaderRoundTrip(h: Header)
    ensures Decode(Encode(h)) == h
  {
    var s := Encode(h);
    assert s[0..4] == EncodeU32(h.version);
    assert s[4..36] == h.prev.raw;
    assert s[36..68] == h.merkleRoot.raw;
    assert s[68..72] == EncodeU32(h.time);
    assert s[72..76] == EncodeU32(h.bits);
    assert s[76..80] == EncodeU32(h.nonce);
    U32RoundTrip(h.version);
    U32RoundTrip(h.time);
    U32RoundTrip(h.bits);
    U32RoundTrip(h.nonce);
  }

  /** Four bytes of a record, read as an integer with the least significant byte first. */
  function LittleEndian(s: seq<byte>, at: nat): int
    requires at + 4 <= |s|
  {
    (s[at] as int) + 0x100 * (s[at + 1] as int) + 0x1_0000 * (s[at + 2] as int) + 0x100_0000 * (s[at + 3] as int)
  }

  lemma LittleEndianU32(n: u32)
    ensures LittleEndian(EncodeU32(n), 0) == n
  {
    U32RoundTrip(n);
  }

  lemma ReadsAt(s: seq<byte>, at: nat, n: u32)
    requires at + 4 <= |s| && s[at..at + 4] == EncodeU32(n)
    ensures LittleEndian(s, at) == n
  {
    LittleEndianU32(n);
    var four := s[at..at + 4];
    assert four[0] == s[at] && four[1] == s[at + 1] && four[2] == s[at + 2] && four[3] == s[at + 3];
  }

  /** Where each field of a header stands in its 80 bytes: integers with the least significant byte first, the
      two hashes byte for byte. */
  lemma HeaderLayout(h: Header)
    ensures var s := Encode(h);
            && LittleEndian(s, 0) == h.version && s[4..36] == h.prev.raw && s[36..68] == h.merkleRoot.raw
            && LittleEndian(s, 68) == h.time && LittleEndian(s, 72) == h.bits && LittleEndian(s, 76) == h.nonce
  {
    var s := Encode(h);
    assert s[0..4] == EncodeU32(h.version);
    assert s[4..36] == h.prev.raw;
    assert s[36..68] == h.merkleRoot.raw;
    assert s[68..72] == EncodeU32(h.time);
    assert s[72..76] == EncodeU32(h.bits);
    assert s[76..80] == EncodeU32(h.nonce);
    ReadsAt(s, 0, h.version);
    ReadsAt(s, 68, h.time);
    ReadsAt(s, 72, h.bits);
    ReadsAt(s, 76, h.nonce);
  }

  /** Every 80-byte record is the serialisation of exactly one header, so loading cannot fail. */
  lemma RecordRoundTrip(s: seq<byte>)
    requires |s| == RECORD
    ensures Encode(Decode(s)) == s
  {
    U32Inverse(s[0..4]);
    U32Inverse(s[68..72]);
    U32Inverse(s[72..76]);
    U32Inverse(s[76..80]);
    assert s == s[0..4] + s[4..36] + s[36..68] + s[68..72] + s[72..76] + s[76..80];
  }

  // ---------------------------------------------------------------- the log

  /** The log of a list of headers. */
  function Log(headers: seq<Header>): seq<byte> {
    if headers == [] then [] else Log(headers[..|headers| - 1]) + Encode(headers[|headers| - 1])
  }

  /** What a file loads as: its complete records, in order; a trailing fragment is ignored. */
  function Loaded(file: seq<byte>): seq<Header>
    decreases |file|
  {
    if |file| < RECORD then [] else [Decode(file[..RECORD])] + Loaded(file[RECORD..])
  }

  lemma {:induction false} LogLength(headers: seq<Header>)
    ensures |Log(headers)| == RECORD * |headers|
  {
    if headers != [] {
      LogLength(headers[..|headers| - 1]);
    }
  }

  /** Loading distributes over a split at a record boundary. */
  lemma {:induction false} LoadedSplit(a: seq<byte>, b: seq<byte>)
    requires |a| % RECORD == 0
    ensures Loaded(a + b) == Loaded(a) + Loaded(b)
    decreases |a|
  {
    if a == [] {
      assert a + b == b;
    } else {
      assert (a + b)[..RECORD] == a[..RECORD];
      assert (a + b)[RECORD..] == a[RECORD..] + b;
      LoadedSplit(a[RECORD..], b);
    }
  }

  lemma LoadedRecord(h: Header, fragment: seq<byte>)
    requires |fragment| < RECORD
    ensures Loaded(Encode(h) + fragment) == [h]
  {
    HeaderRoundTrip(h);
    assert (Encode(h) + fragment)[..RECORD] == Encode(h);
    assert (Encode(h) + fragment)[RECORD..] == fragment;
  }

  /** Reloading a log gives back the headers that were appended, also when it ends in a fragment of
      a record whose write was cut short. */
  lemma {:induction false} LogRoundTrip(headers: seq<Header>, fragment: seq<byte>)
    requires |fragment| < RECORD
    ensures Loaded(Log(headers) + fragment) == headers
  {
    if headers == [] {
      assert Log(headers) + fragment == fragment;
    } else {
      var before, last := headers[..|headers| - 1], headers[|headers| - 1];
      LogRoundTrip(before, []);
      LogLength(before);
      LoadedSplit(Log(before), Encode(last) + fragment);
      LoadedRecord(last, fragment);
      Reassociate(Log(before), Encode(last), fragment);
      assert headers == before + [last];
    }
  }

  /** Conversely every file is the log of what it loads as, followed by a fragment. */
  lemma {:induction false} FileIsLog(file: seq<byte>)
    ensures Log(Loaded(file)) + file[|file| / RECORD * RECORD..] == file
    decreases |file|
  {
    if |file| >= RECORD {
      var rest := file[RECORD..];
      FileIsLog(rest);
      RecordRoundTrip(file[..RECORD]);
      LogPrepend(Decode(file[..RECORD]), Loaded(rest));
      assert |file| / RECORD == |rest| / RECORD + 1;
      assert rest[|rest| / RECORD * RECORD..] == file[|file| / RECORD * RECORD..];
      assert file == file[..RECORD] + rest;
    }
  }

  lemma {:induction false} LogPrepend(h: Header, headers: seq<Header>)
    ensures Log([h] + headers) == Encode(h) + Log(headers)
  {
    if headers == [] {
      assert [h] + headers == [h];
      assert Log([h]) == Log([]) + Encode(h);
    } else {
      var n := |headers|;
      LogPrepend(h, headers[..n - 1]);
      assert ([h] + headers)[..n] == [h] + headers[..n - 1];
      assert ([h] + headers)[n] == headers[n - 1];
      Reassociate(Encode(h), Log(headers[..n - 1]), Encode(headers[n - 1]));
    }
  }

  /** The bytes after the last complete record. */
  function Fragment(file: seq<byte>): (f: seq<byte>)
    ensures |f| == |file| % RECORD
  {
    file[|file| / RECORD * RECORD..]
  }

  /** The record that an append completes: what was left over, filled up with the new bytes. */
  function Straddling(file: seq<byte>, h: Header): (s: seq<byte>)
    ensures |s| == RECORD
  {
    Fragment(file) + Encode(h)[..RECORD - |Fragment(file)|]
  }

  /** An append always adds exactly one record to what is loaded. */
  lemma AppendLoadsOne(file: seq<byte>, h: Header)
    ensures Loaded(file + Encode(h)) == Loaded(file) + [Decode(Straddling(file, h))]
  {
    var cut := |file| / RECORD * RECORD;
    var whole, fragment, split := file[..cut], Fragment(file), RECORD - |Fragment(file)|;
    var filler, left := Encode(h)[..split], Encode(h)[split..];
    assert whole + fragment == file && filler + left == Encode(h);
    Regroup(whole, fragment, filler, left);
    LoadedSplit(whole, Straddling(file, h) + left);
    LoadedSplit(whole, fragment);
    RecordRoundTrip(Straddling(file, h));
    LoadedRecord(Decode(Straddling(file, h)), left);
  }

  /** It adds the appended header if and only if the file ended at a record boundary, or the bytes
      that straddle the boundary happen to spell out the same header. A fragment left by a failed
      write is never trimmed, so it shifts every later record. */
  lemma AppendLoadsIff(file: seq<byte>, h: Header)
    ensures Loaded(file + Encode(h)) == Loaded(file) + [h] <==> |file| % RECORD == 0 || Straddling(file, h) == Encode(h)
  {
    AppendLoadsOne(file, h);
    LastOf(Loaded(file), Decode(Straddling(file, h)), h);
    DecodesTo(Straddling(file, h), h);
    NothingStraddles(file, h);
  }

  /** One stray byte is enough: a file of the byte 1, with a header of all zeroes appended in full, loads
      as some other header. */
  lemma FragmentIsMisread(file: seq<byte>, h: Header)
    requires file == [1] && h.version == 0
    ensures |Loaded(file + Encode(h))| == 1 && Loaded(file + Encode(h)) != Loaded(file) + [h]
  {
    AppendLoadsOne(file, h);
    AppendLoadsIff(file, h);
    assert Straddling(file, h)[0] == 1 && Encode(h)[0] == 0;
  }

  lemma DecodesTo(s: seq<byte>, h: Header)
    requires |s| == RECORD
    ensures Decode(s) == h <==> s == Encode(h)
  {
    RecordRoundTrip(s);
    HeaderRoundTrip(h);
  }

  lemma NothingStraddles(file: seq<byte>, h: Header)
    ensures |file| % RECORD == 0 ==> Straddling(file, h) == Encode(h)
  {
  }

  lemma Regroup<T>(a: seq<T>, b: seq<T>, c: seq<T>, d: seq<T>)
    ensures a + b + (c + d) == a + (b + c + d)
  {
  }

  lemma LastOf<T>(s: seq<T>, x: T, y: T)
    ensures s + [x] == s + [y] <==> x == y
  {
    assert (s + [x])[|s|] == x && (s + [y])[|s|] == y;
  }

  /** Reads a file record by record, as `read_exact` into an 80-byte buffer does. */
  method LoadHeaders(file: seq<byte>) returns (headers: seq<Header>)
    ensures headers == Loaded(file)
  {
    headers := [];
    var pos := 0;
    assert file[0..] == file;
    while |file| - pos >= RECORD
      invariant 0 <= pos <= |file|
      invariant headers + Loaded(file[pos..]) == Loaded(file)
    {
      var buffer := file[pos..pos + RECORD];
      assert file[pos..][..RECORD] == buffer;
      assert file[pos..][RECORD..] == file[pos + RECORD..];
      headers := headers + [Decode(buffer)];
      pos := pos + RECORD;
    }
  }
}
