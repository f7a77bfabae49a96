/** The address manager of src/addrman.rs as a value: two tables of addresses, each mirrored in
    buckets, and what every run of its operations keeps. The bucket hashes are arbitrary functions. */
module AddressTables {
  import opened ChainParams
  import opened FiniteSets

  type Addr = nat

  const MAX_ADDRESSES: nat := 20000
  const NEW_BUCKETS_COUNT: nat := 1024
  const TRIED_BUCKETS_COUNT: nat := 256
  const BUCKET_SIZE: nat := 64

  datatype Info = Info(
    services: nat,
    lastSuccess: Option<nat>,
    lastTry: Option<nat>,
    lastSeen: nat,
    attempts: nat,
    source: Option<Addr>)

  datatype Hashes = Hashes(newHash: (Addr, Option<Addr>) -> nat, triedHash: Addr -> nat)

  datatype Kind = New | Tried

  datatype Table = Table(addrs: map<Addr, Info>, buckets: seq<set<Addr>>)

  datatype Tables = Tables(untried: Table, tried: Table, own: set<Addr>)

  function BucketCount(kind: Kind): nat {
    match kind
    case New => NEW_BUCKETS_COUNT
    case Tried => TRIED_BUCKETS_COUNT
  }

  /** The bucket of an address: by address and source in the new table, by address alone in the
      tried table. */
  function Place(hs: Hashes, kind: Kind, a: Addr, source: Option<Addr>): (b: nat)
    ensures b < BucketCount(kind)
  {
    match kind
    case New => hs.newHash(a, source) % NEW_BUCKETS_COUNT
    case Tried => hs.triedHash(a) % TRIED_BUCKETS_COUNT
  }

  function EmptyTable(kind: Kind): Table {
    Table(map[], seq(BucketCount(kind), i => {}))
  }

  function EmptyTables(own: set<Addr>): Tables {
    Tables(EmptyTable(New), EmptyTable(Tried), own)
  }

  // ---------------------------------------------------------------- one table and its buckets

  /** The buckets mirror the table: each address is in the bucket computed for it and in no other,
      nothing else is in a bucket, and no bucket is overfull. */
  ghost predicate Mirrors(place: map<Addr, nat>, buckets: seq<set<Addr>>) {
    && (forall a :: a in place ==> place[a] < |buckets| && a in buckets[place[a]])
    && (forall b, a :: 0 <= b < |buckets| && a in buckets[b] ==> a in place && place[a] == b)
    && (forall b :: 0 <= b < |buckets| ==> |buckets[b]| <= BUCKET_SIZE)
  }

  ghost function Places(hs: Hashes, kind: Kind, addrs: map<Addr, Info>): map<Addr, nat> {
    map a | a in addrs :: Place(hs, kind, a, addrs[a].source)
  }

  ghost predicate TableOk(hs: Hashes, kind: Kind, tb: Table) {
    |tb.buckets| == BucketCount(kind) && Mirrors(Places(hs, kind, tb.addrs), tb.buckets)
  }

  predicate IsFull(tb: Table, b: nat) {
    b < |tb.buckets| && |tb.buckets[b]| >= BUCKET_SIZE
  }

  function Drop(tb: Table, b: nat, a: Addr): Table {
    Table(tb.addrs - {a}, if b < |tb.buckets| then tb.buckets[b := tb.buckets[b] - {a}] else tb.buckets)
  }

  function Put(tb: Table, b: nat, a: Addr, info: Info): Table {
    Table(tb.addrs[a := info], if b < |tb.buckets| then tb.buckets[b := tb.buckets[b] + {a}] else tb.buckets)
  }

  /** If the bucket is full, `victim`, some member of it, goes. */
  function MakeRoom(tb: Table, b: nat, victim: Addr): Table {
    if IsFull(tb, b) then Drop(tb, b, victim) else tb
  }

  predicate VictimOk(tb: Table, b: nat, victim: Addr) {
    IsFull(tb, b) ==> victim in tb.buckets[b]
  }

  lemma DropOk(hs: Hashes, kind: Kind, tb: Table, a: Addr)
    requires TableOk(hs, kind, tb) && a in tb.addrs
    ensures var b := Place(hs, kind, a, tb.addrs[a].source);
            && a in tb.buckets[b] && TableOk(hs, kind, Drop(tb, b, a))
            && |Drop(tb, b, a).buckets[b]| < BUCKET_SIZE
            && |Drop(tb, b, a).addrs| == |tb.addrs| - 1
  {
    var b := Place(hs, kind, a, tb.addrs[a].source);
    assert Places(hs, kind, tb.addrs)[a] == b;
    assert Places(hs, kind, tb.addrs - {a}) == Places(hs, kind, tb.addrs) - {a};
    MirrorsWithout(Places(hs, kind, tb.addrs), tb.buckets, a);
    assert (tb.addrs - {a}).Keys == tb.addrs.Keys - {a};
  }

  lemma MirrorsWithout(place: map<Addr, nat>, buckets: seq<set<Addr>>, a: Addr)
    requires Mirrors(place, buckets) && a in place
    ensures Mirrors(place - {a}, buckets[place[a] := buckets[place[a]] - {a}])
    ensures |buckets[place[a]] - {a}| < BUCKET_SIZE
  {
    var b := place[a];
    assert |buckets[b] - {a}| == |buckets[b]| - 1;
  }

  lemma PutOk(hs: Hashes, kind: Kind, tb: Table, a: Addr, info: Info)
    requires TableOk(hs, kind, tb) && a !in tb.addrs
    requires |tb.buckets[Place(hs, kind, a, info.source)]| < BUCKET_SIZE
    ensures TableOk(hs, kind, Put(tb, Place(hs, kind, a, info.source), a, info))
    ensures |Put(tb, Place(hs, kind, a, info.source), a, info).addrs| == |tb.addrs| + 1
  {
    var b := Place(hs, kind, a, info.source);
    MirrorsWith(Places(hs, kind, tb.addrs), tb.buckets, b, a);
    PlacesPut(hs, kind, tb.addrs, a, info);
    OneMore(tb.addrs, a, info);
  }

  lemma OneMore(addrs: map<Addr, Info>, a: Addr, info: Info)
    requires a !in addrs
    ensures |addrs[a := info]| == |addrs| + 1
  {
    assert addrs[a := info].Keys == addrs.Keys + {a};
  }

  lemma PlacesPut(hs: Hashes, kind: Kind, addrs: map<Addr, Info>, a: Addr, info: Info)
    ensures Places(hs, kind, addrs[a := info]) == Places(hs, kind, addrs)[a := Place(hs, kind, a, info.source)]
  {
  }

  lemma MirrorsWith(place: map<Addr, nat>, buckets: seq<set<Addr>>, b: nat, a: Addr)
    requires Mirrors(place, buckets) && a !in place && b < |buckets| && |buckets[b]| < BUCKET_SIZE
    ensures Mirrors(place[a := b], buckets[b := buckets[b] + {a}])
  {
  }

  /** Changing an entry in place, but not its source, leaves its bucket right. */
  lemma UpdateOk(hs: Hashes, kind: Kind, tb: Table, a: Addr, info: Info)
    requires TableOk(hs, kind, tb) && a in tb.addrs && info.source == tb.addrs[a].source
    ensures TableOk(hs, kind, tb.(addrs := tb.addrs[a := info]))
    ensures tb.addrs[a := info].Keys == tb.addrs.Keys
  {
    assert Places(hs, kind, tb.addrs[a := info]) == Places(hs, kind, tb.addrs);
  }

  lemma MakeRoomOk(hs: Hashes, kind: Kind, tb: Table, b: nat, victim: Addr)
    requires TableOk(hs, kind, tb) && b < BucketCount(kind) && VictimOk(tb, b, victim)
    ensures TableOk(hs, kind, MakeRoom(tb, b, victim))
    ensures |MakeRoom(tb, b, victim).buckets[b]| < BUCKET_SIZE
    ensures MakeRoom(tb, b, victim).addrs.Keys <= tb.addrs.Keys
    ensures |MakeRoom(tb, b, victim).addrs| == |tb.addrs| - (if IsFull(tb, b) then 1 else 0)
  {
    if IsFull(tb, b) {
      assert victim in Places(hs, kind, tb.addrs) && Places(hs, kind, tb.addrs)[victim] == b;
      DropOk(hs, kind, tb, victim);
    }
  }

  // ---------------------------------------------------------------- how much a table holds

  ghost predicate SmallBuckets(buckets: seq<set<Addr>>) {
    forall b :: 0 <= b < |buckets| ==> |buckets[b]| <= BUCKET_SIZE
  }

  /** Everything in the first `n` buckets. */
  ghost function Union(buckets: seq<set<Addr>>, n: nat): set<Addr>
    requires n <= |buckets|
  {
    if n == 0 then {} else Union(buckets, n - 1) + buckets[n - 1]
  }

  lemma {:induction false} UnionHolds(buckets: seq<set<Addr>>, n: nat, b: nat)
    requires b < n <= |buckets|
    ensures buckets[b] <= Union(buckets, n)
  {
    if b < n - 1 {
      UnionHolds(buckets, n - 1, b);
    }
  }

  lemma {:induction false} UnionBounded(buckets: seq<set<Addr>>, n: nat)
    requires SmallBuckets(buckets) && n <= |buckets|
    ensures |Union(buckets, n)| <= n * BUCKET_SIZE
  {
    if n > 0 {
      UnionBounded(buckets, n - 1);
      UnionSize(Union(buckets, n - 1), buckets[n - 1]);
    }
  }

  /** A mirrored table holds at most a full set of buckets. */
  lemma TableSize(hs: Hashes, kind: Kind, tb: Table)
    requires TableOk(hs, kind, tb)
    ensures |tb.addrs| <= BucketCount(kind) * BUCKET_SIZE
  {
    var n, place := |tb.buckets|, Places(hs, kind, tb.addrs);
    forall a | a in tb.addrs
      ensures a in Union(tb.buckets, n)
    {
      assert place[a] < n && a in tb.buckets[place[a]];
      UnionHolds(tb.buckets, n, place[a]);
    }
    SubsetSize(tb.addrs.Keys, Union(tb.buckets, n));
    UnionBounded(tb.buckets, n);
  }

  // ---------------------------------------------------------------- operations

  function AddNew(hs: Hashes, t: Tables, a: Addr, services: nat, source: Option<Addr>, now: nat,
                  victim: Addr): (Tables, bool)
  {
    var b := Place(hs, New, a, source);
    var room := MakeRoom(t.untried, b, victim);
    if |room.addrs| >= MAX_ADDRESSES then (t.(untried := room), false)
    else (t.(untried := Put(room, b, a, Info(services, None, None, now, 0, source))), true)
  }

  function Heard(info: Info, services: nat, now: nat): Info {
    info.(lastSeen := now, services := if services != 0 then services else info.services)
  }

  function Add(hs: Hashes, t: Tables, a: Addr, services: nat, source: Option<Addr>, now: nat,
               victim: Addr): (Tables, bool)
  {
    if a in t.own || a in t.tried.addrs then (t, false)
    else if a in t.untried.addrs then
      (t.(untried := t.untried.(addrs := t.untried.addrs[a := Heard(t.untried.addrs[a], services, now)])), false)
    else AddNew(hs, t, a, services, source, now, victim)
  }

  function Succeeded(info: Info, now: nat): Info {
    info.(lastSuccess := Some(now), lastTry := Some(now), attempts := 0)
  }

  /** Moves an address from the new table to the tried table. */
  function Promote(hs: Hashes, t: Tables, a: Addr, now: nat, victim: Addr): Tables
    requires a in t.untried.addrs
  {
    var info := Succeeded(t.untried.addrs[a], now);
    var b := Place(hs, Tried, a, info.source);
    t.(untried := Drop(t.untried, Place(hs, New, a, info.source), a),
       tried := Put(MakeRoom(t.tried, b, victim), b, a, info))
  }

  function Good(hs: Hashes, t: Tables, a: Addr, now: nat, victim: Addr): Tables
  {
    if a in t.untried.addrs then Promote(hs, t, a, now, victim)
    else if a in t.tried.addrs then
      t.(tried := t.tried.(addrs := t.tried.addrs[a := Succeeded(t.tried.addrs[a], now)]))
    else t
  }

  function Attempted(info: Info, now: nat): Info {
    info.(lastTry := Some(now), attempts := info.attempts + 1)
  }

  function Attempt(t: Tables, a: Addr, now: nat): Tables {
    if a in t.untried.addrs then
      t.(untried := t.untried.(addrs := t.untried.addrs[a := Attempted(t.untried.addrs[a], now)]))
    else if a in t.tried.addrs then
      t.(tried := t.tried.(addrs := t.tried.addrs[a := Attempted(t.tried.addrs[a], now)]))
    else t
  }

  // ---------------------------------------------------------------- the invariant

  ghost predicate TablesInv(hs: Hashes, t: Tables) {
    && TableOk(hs, New, t.untried) && TableOk(hs, Tried, t.tried)
    && t.untried.addrs.Keys !! t.tried.addrs.Keys
    && |t.untried.addrs| <= MAX_ADDRESSES
  }

  lemma EmptyTableOk(hs: Hashes, kind: Kind)
    ensures TableOk(hs, kind, EmptyTable(kind))
  {
  }

  lemma EmptyInv(hs: Hashes, own: set<Addr>)
    ensures TablesInv(hs, EmptyTables(own))
  {
    EmptyTableOk(hs, New);
    EmptyTableOk(hs, Tried);
  }

  /** A new address is refused if and only if the table is at its limit and its bucket is not full,
      and then nothing changes: an eviction always leaves room for the address that caused it. */
  lemma AddNewInv(hs: Hashes, t: Tables, a: Addr, services: nat, source: Option<Addr>, now: nat, victim: Addr)
    requires TablesInv(hs, t) && a !in t.untried.addrs && a !in t.tried.addrs
    requires VictimOk(t.untried, Place(hs, New, a, source), victim)
    ensures var (t', added) := AddNew(hs, t, a, services, source, now, victim);
            && TablesInv(hs, t')
            && (!added <==> |t.untried.addrs| == MAX_ADDRESSES && !IsFull(t.untried, Place(hs, New, a, source)))
            && (!added ==> t' == t)
            && (added ==> a in t'.untried.addrs)
  {
    var b := Place(hs, New, a, source);
    var room := MakeRoom(t.untried, b, victim);
    MakeRoomOk(hs, New, t.untried, b, victim);
    if |room.addrs| < MAX_ADDRESSES {
      PutOk(hs, New, room, a, Info(services, None, None, now, 0, source));
    }
  }

  lemma AddInv(hs: Hashes, t: Tables, a: Addr, services: nat, source: Option<Addr>, now: nat, victim: Addr)
    requires TablesInv(hs, t)
    requires VictimOk(t.untried, Place(hs, New, a, source), victim)
    ensures TablesInv(hs, Add(hs, t, a, services, source, now, victim).0)
  {
    if a in t.own || a in t.tried.addrs {
    } else if a in t.untried.addrs {
      UpdateOk(hs, New, t.untried, a, Heard(t.untried.addrs[a], services, now));
    } else {
      AddNewInv(hs, t, a, services, source, now, victim);
    }
  }

  lemma PromoteInv(hs: Hashes, t: Tables, a: Addr, now: nat, victim: Addr)
    requires TablesInv(hs, t) && a in t.untried.addrs
    requires VictimOk(t.tried, Place(hs, Tried, a, None), victim)
    ensures TablesInv(hs, Promote(hs, t, a, now, victim))
    ensures a in Promote(hs, t, a, now, victim).tried.addrs && a !in Promote(hs, t, a, now, victim).untried.addrs
  {
    var info := Succeeded(t.untried.addrs[a], now);
    var b := Place(hs, Tried, a, info.source);
    DropOk(hs, New, t.untried, a);
    MakeRoomOk(hs, Tried, t.tried, b, victim);
    PutOk(hs, Tried, MakeRoom(t.tried, b, victim), a, info);
  }

  lemma GoodInv(hs: Hashes, t: Tables, a: Addr, now: nat, victim: Addr)
    requires TablesInv(hs, t)
    requires VictimOk(t.tried, Place(hs, Tried, a, None), victim)
    ensures TablesInv(hs, Good(hs, t, a, now, victim))
  {
    if a in t.untried.addrs {
      PromoteInv(hs, t, a, now, victim);
    } else if a in t.tried.addrs {
      UpdateOk(hs, Tried, t.tried, a, Succeeded(t.tried.addrs[a], now));
    }
  }

  lemma AttemptInv(hs: Hashes, t: Tables, a: Addr, now: nat)
    requires TablesInv(hs, t)
    ensures TablesInv(hs, Attempt(t, a, now))
  {
    if a in t.untried.addrs {
      UpdateOk(hs, New, t.untried, a, Attempted(t.untried.addrs[a], now));
    } else if a in t.tried.addrs {
      UpdateOk(hs, Tried, t.tried, a, Attempted(t.tried.addrs[a], now));
    }
  }

  // ---------------------------------------------------------------- runs

  /** A call; `victim` stands for the member a full bucket's iterator happens to yield first. */
  datatype Op =
    | OpAdd(addr: Addr, services: nat, source: Option<Addr>, now: nat, victim: Addr)
    | OpGood(addr: Addr, now: nat, victim: Addr)
    | OpAttempt(addr: Addr, now: nat)
    | OpAddOwn(addr: Addr)
    | OpClear

  predicate Legal(hs: Hashes, t: Tables, op: Op) {
    match op
    case OpAdd(a, _, source, _, victim) => VictimOk(t.untried, Place(hs, New, a, source), victim)
    case OpGood(a, _, victim) => VictimOk(t.tried, Place(hs, Tried, a, None), victim)
    case _ => true
  }

  function Apply(hs: Hashes, t: Tables, op: Op): Tables {
    match op
    case OpAdd(a, services, source, now, victim) => Add(hs, t, a, services, source, now, victim).0
    case OpGood(a, now, victim) => Good(hs, t, a, now, victim)
    case OpAttempt(a, now) => Attempt(t, a, now)
    case OpAddOwn(a) => t.(own := t.own + {a})
    case OpClear => EmptyTables(t.own)
  }

  lemma {:induction false} ApplyInv(hs: Hashes, t: Tables, op: Op)
    requires TablesInv(hs, t) && Legal(hs, t, op)
    ensures TablesInv(hs, Apply(hs, t, op))
  {
    match op
    case OpAdd(a, services, source, now, victim) => AddInv(hs, t, a, services, source, now, victim);
    case OpGood(a, now, victim) => GoodInv(hs, t, a, now, victim);
    case OpAttempt(a, now) => AttemptInv(hs, t, a, now);
    case OpAddOwn(a) =>
    case OpClear => EmptyInv(hs, t.own);
  }

  /** The tables after a run of calls that starts empty. */
  function Run(hs: Hashes, ops: seq<Op>): Tables {
    if ops == [] then EmptyTables({}) else Apply(hs, Run(hs, ops[..|ops| - 1]), ops[|ops| - 1])
  }

  predicate LegalRun(hs: Hashes, ops: seq<Op>) {
    ops != [] ==> LegalRun(hs, ops[..|ops| - 1]) && Legal(hs, Run(hs, ops[..|ops| - 1]), ops[|ops| - 1])
  }

  /** Every run keeps the tables mirrored and disjoint ... */
  lemma {:induction false} RunInv(hs: Hashes, ops: seq<Op>)
    requires LegalRun(hs, ops)
    ensures TablesInv(hs, Run(hs, ops))
  {
    if ops == [] {
      EmptyInv(hs, {});
    } else {
      RunInv(hs, ops[..|ops| - 1]);
      ApplyInv(hs, Run(hs, ops[..|ops| - 1]), ops[|ops| - 1]);
    }
  }

  /** ... hence within their sizes. */
  lemma {:induction false} RunWithinSizes(hs: Hashes, ops: seq<Op>)
    requires LegalRun(hs, ops)
    ensures |Run(hs, ops).untried.addrs| <= 20000
    ensures |Run(hs, ops).tried.addrs| <= 256 * 64
  {
    RunInv(hs, ops);
    TableSize(hs, Tried, Run(hs, ops).tried);
  }

  // ---------------------------------------------------------------- our own addresses

  ghost predicate NoOwn(t: Tables) {
    t.own !! t.untried.addrs.Keys && t.own !! t.tried.addrs.Keys
  }

  /** Our own addresses are kept out of the tables by every call but one: registering an address that
      a table already holds does not take it out. */
  lemma {:induction false} NoOwnKeptIff(hs: Hashes, t: Tables, op: Op)
    requires TablesInv(hs, t) && Legal(hs, t, op) && NoOwn(t)
    ensures NoOwn(Apply(hs, t, op)) <==> !(op.OpAddOwn? && (op.addr in t.untried.addrs || op.addr in t.tried.addrs))
  {
    match op
    case OpAdd(a, services, source, now, victim) =>
      var t' := Add(hs, t, a, services, source, now, victim).0;
      assert t'.untried.addrs.Keys <= t.untried.addrs.Keys + (if a in t.own then {} else {a});
    case OpGood(a, now, victim) =>
      var t' := Good(hs, t, a, now, victim);
      assert t'.untried.addrs.Keys <= t.untried.addrs.Keys;
      assert t'.tried.addrs.Keys <= t.tried.addrs.Keys + t.untried.addrs.Keys;
    case OpAttempt(a, now) =>
      assert Attempt(t, a, now).untried.addrs.Keys == t.untried.addrs.Keys;
      assert Attempt(t, a, now).tried.addrs.Keys == t.tried.addrs.Keys;
    case OpAddOwn(a) =>
      assert a in t.own + {a};
    case OpClear =>
  }
}
