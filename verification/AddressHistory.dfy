/** What the address manager knows about an address, told from the calls, and how long a connection or an
    attempt counts (src/addrman.rs). */
module AddressHistory {
  import opened ChainParams
  import opened AddressTables
  import opened AddressManagers

  /** An address stands in one of the two tables. */
  predicate Stands(t: Tables, a: Addr) {
    a in t.untried.addrs || a in t.tried.addrs
  }

  function EntryOf(t: Tables, a: Addr): Info
    requires Stands(t, a)
  {
    if a in t.tried.addrs then t.tried.addrs[a] else t.untried.addrs[a]
  }

  /** Each address is in the one bucket that its hash, in the new table with that of its source, names. */
  lemma BucketsExact(hs: Hashes, t: Tables, a: Addr)
    requires TablesInv(hs, t)
    ensures a in t.untried.addrs ==> a in t.untried.buckets[hs.newHash(a, t.untried.addrs[a].source) % 1024]
    ensures a in t.tried.addrs ==> a in t.tried.buckets[hs.triedHash(a) % 256]
  {
    if a in t.untried.addrs {
      assert a in Places(hs, New, t.untried.addrs);
    }
    if a in t.tried.addrs {
      assert a in Places(hs, Tried, t.tried.addrs);
    }
  }

  lemma FullIs64(hs: Hashes, kind: Kind, tb: Table, b: nat)
    requires TableOk(hs, kind, tb) && b < BucketCount(kind)
    ensures IsFull(tb, b) <==> |tb.buckets[b]| == 64
  {
  }

  lemma RoomKeys(tb: Table, b: nat, victim: Addr)
    ensures MakeRoom(tb, b, victim).addrs.Keys == tb.addrs.Keys - (if IsFull(tb, b) then {victim} else {})
  {
  }

  lemma AddNewKeys(hs: Hashes, t: Tables, a: Addr, services: nat, source: Option<Addr>, now: nat, victim: Addr)
    ensures var (t', added) := AddNew(hs, t, a, services, source, now, victim);
            t'.untried.addrs.Keys == MakeRoom(t.untried, Place(hs, New, a, source), victim).addrs.Keys
                                     + (if added then {a} else {})
  {
  }

  /** Adding an address that neither table holds and that is not our own: it comes in unless the new table
      holds 20000 addresses and its bucket fewer than 64, and one address goes, some member of its bucket, if
      and only if that bucket holds 64. */
  lemma AddExact(hs: Hashes, t: Tables, a: Addr, services: nat, source: Option<Addr>, now: nat, victim: Addr)
    requires TablesInv(hs, t) && !Stands(t, a) && a !in t.own
    requires VictimOk(t.untried, Place(hs, New, a, source), victim)
    ensures var bucket := t.untried.buckets[hs.newHash(a, source) % 1024];
            var (t', added) := Add(hs, t, a, services, source, now, victim);
            && (added <==> !(|t.untried.addrs| == 20000 && |bucket| < 64))
            && (|bucket| == 64 ==> victim in bucket)
            && t'.untried.addrs.Keys
               == t.untried.addrs.Keys - (if |bucket| == 64 then {victim} else {}) + (if added then {a} else {})
  {
    var b := Place(hs, New, a, source);
    FullIs64(hs, New, t.untried, b);
    RoomKeys(t.untried, b, victim);
    AddNewKeys(hs, t, a, services, source, now, victim);
    AddNewRefused(hs, t, a, services, source, now, victim);
  }

  lemma AddNewRefused(hs: Hashes, t: Tables, a: Addr, services: nat, source: Option<Addr>, now: nat, victim: Addr)
    requires TablesInv(hs, t) && !Stands(t, a) && VictimOk(t.untried, Place(hs, New, a, source), victim)
    ensures AddNew(hs, t, a, services, source, now, victim).1
            <==> !(|t.untried.addrs| == 20000 && |t.untried.buckets[Place(hs, New, a, source)]| < 64)
  {
    AddNewInv(hs, t, a, services, source, now, victim);
  }

  lemma PromoteKeys(hs: Hashes, t: Tables, a: Addr, now: nat, victim: Addr)
    requires a in t.untried.addrs
    ensures var t' := Promote(hs, t, a, now, victim);
            && t'.untried.addrs.Keys == t.untried.addrs.Keys - {a}
            && t'.tried.addrs.Keys == MakeRoom(t.tried, Place(hs, Tried, a, None), victim).addrs.Keys + {a}
  {
  }

  /** Marking a new address good moves it to the tried table, and one address goes, some member of its bucket
      there, if and only if that bucket holds 64. */
  lemma GoodExact(hs: Hashes, t: Tables, a: Addr, now: nat, victim: Addr)
    requires TablesInv(hs, t) && a in t.untried.addrs && VictimOk(t.tried, Place(hs, Tried, a, None), victim)
    ensures var bucket := t.tried.buckets[hs.triedHash(a) % 256];
            var t' := Good(hs, t, a, now, victim);
            && (|bucket| == 64 ==> victim in bucket)
            && t'.untried.addrs.Keys == t.untried.addrs.Keys - {a}
            && t'.tried.addrs.Keys == t.tried.addrs.Keys - (if |bucket| == 64 then {victim} else {}) + {a}
  {
    var b := Place(hs, Tried, a, None);
    FullIs64(hs, Tried, t.tried, b);
    RoomKeys(t.tried, b, victim);
    PromoteKeys(hs, t, a, now, victim);
  }

  // ---------------------------------------------------------------- one call

  predicate IsAttemptOn(op: Op, a: Addr) {
    op.OpAttempt? && op.addr == a
  }

  predicate IsGoodOn(op: Op, a: Addr) {
    op.OpGood? && op.addr == a
  }

  /** Heard of again while it is still new. */
  predicate IsHeardOf(t: Tables, op: Op, a: Addr) {
    op.OpAdd? && op.addr == a && a !in t.own && a !in t.tried.addrs
  }

  /** What a call makes of the entry of an address that stays. */
  ghost predicate EntryFollows(t: Tables, op: Op, a: Addr, e: Info, e': Info) {
    && e'.source == e.source
    && e'.attempts == (if IsAttemptOn(op, a) then e.attempts + 1 else if IsGoodOn(op, a) then 0 else e.attempts)
    && e'.lastTry == (if IsAttemptOn(op, a) || IsGoodOn(op, a) then Some(op.now) else e.lastTry)
    && e'.lastSuccess == (if IsGoodOn(op, a) then Some(op.now) else e.lastSuccess)
    && e'.lastSeen == (if IsHeardOf(t, op, a) then op.now else e.lastSeen)
    && e'.services == (if IsHeardOf(t, op, a) && op.services != 0 then op.services else e.services)
  }

  ghost predicate Apart(t: Tables) {
    t.untried.addrs.Keys !! t.tried.addrs.Keys
  }

  lemma {:induction false} AddFollows(hs: Hashes, t: Tables, op: Op, a: Addr)
    requires Apart(t) && op.OpAdd? && Stands(t, a) && Stands(Apply(hs, t, op), a)
    ensures EntryFollows(t, op, a, EntryOf(t, a), EntryOf(Apply(hs, t, op), a))
  {
  }

  lemma {:induction false} GoodFollows(hs: Hashes, t: Tables, op: Op, a: Addr)
    requires Apart(t) && op.OpGood? && Stands(t, a) && Stands(Apply(hs, t, op), a)
    ensures EntryFollows(t, op, a, EntryOf(t, a), EntryOf(Apply(hs, t, op), a))
  {
  }

  /** What every call makes of the entry of an address that stands before and after it. */
  lemma {:induction false} StepFollows(hs: Hashes, t: Tables, op: Op, a: Addr)
    requires TablesInv(hs, t) && Legal(hs, t, op) && Stands(t, a) && Stands(Apply(hs, t, op), a)
    ensures EntryFollows(t, op, a, EntryOf(t, a), EntryOf(Apply(hs, t, op), a))
  {
    match op
    case OpAdd(_, _, _, _, _) => AddFollows(hs, t, op, a);
    case OpGood(_, _, _) => GoodFollows(hs, t, op, a);
    case OpAttempt(_, _) =>
    case OpAddOwn(_) =>
    case OpClear =>
  }

  lemma {:induction false} AddAdds(hs: Hashes, t: Tables, op: Op, a: Addr)
    requires op.OpAdd? && !Stands(t, a) && Stands(Apply(hs, t, op), a)
    ensures op.addr == a && a in Apply(hs, t, op).untried.addrs && a !in Apply(hs, t, op).tried.addrs
    ensures EntryOf(Apply(hs, t, op), a) == Info(op.services, None, None, op.now, 0, op.source)
  {
  }

  /** An address comes in only by being added, as a new one that was never tried. */
  lemma {:induction false} StepAdds(hs: Hashes, t: Tables, op: Op, a: Addr)
    requires !Stands(t, a) && Stands(Apply(hs, t, op), a)
    ensures op.OpAdd? && op.addr == a && a in Apply(hs, t, op).untried.addrs
    ensures EntryOf(Apply(hs, t, op), a) == Info(op.services, None, None, op.now, 0, op.source)
  {
    match op
    case OpAdd(_, _, _, _, _) => AddAdds(hs, t, op, a);
    case OpGood(_, _, _) =>
    case OpAttempt(_, _) =>
    case OpAddOwn(_) =>
    case OpClear =>
  }

  // ---------------------------------------------------------------- runs

  /** The attempts on an address since it was added or last marked good. */
  function Tries(hs: Hashes, ops: seq<Op>, a: Addr): nat {
    if ops == [] then 0
    else
      var before, last := ops[..|ops| - 1], ops[|ops| - 1];
      if !Stands(Run(hs, before), a) || IsGoodOn(last, a) then 0
      else if IsAttemptOn(last, a) then Tries(hs, before, a) + 1
      else Tries(hs, before, a)
  }

  /** The count of attempts that is kept is the number of attempts since the address was added or last marked
      good. */
  lemma {:induction false} AttemptsCounted(hs: Hashes, ops: seq<Op>, a: Addr)
    requires LegalRun(hs, ops) && Stands(Run(hs, ops), a)
    ensures EntryOf(Run(hs, ops), a).attempts == Tries(hs, ops, a)
  {
    if ops != [] {
      var before, last := ops[..|ops| - 1], ops[|ops| - 1];
      RunInv(hs, before);
      if Stands(Run(hs, before), a) {
        AttemptsCounted(hs, before, a);
        StepFollows(hs, Run(hs, before), last, a);
      } else {
        StepAdds(hs, Run(hs, before), last, a);
      }
    }
  }

  predicate Registered(ops: seq<Op>, a: Addr) {
    exists k :: 0 <= k < |ops| && ops[k] == OpAddOwn(a)
  }

  lemma RegisteredStep(ops: seq<Op>, a: Addr)
    requires ops != []
    ensures Registered(ops, a) <==> Registered(ops[..|ops| - 1], a) || ops[|ops| - 1] == OpAddOwn(a)
  {
    var front := ops[..|ops| - 1];
    if k :| 0 <= k < |front| && front[k] == OpAddOwn(a) {
      assert ops[k] == OpAddOwn(a);
    }
    if k :| 0 <= k < |ops| && ops[k] == OpAddOwn(a) {
      assert k < |front| ==> front[k] == OpAddOwn(a);
    }
  }

  /** Our own addresses are those that were ever registered; nothing takes one back. */
  lemma {:induction false} OwnExact(hs: Hashes, ops: seq<Op>, a: Addr)
    ensures a in Run(hs, ops).own <==> Registered(ops, a)
  {
    if ops != [] {
      OwnExact(hs, ops[..|ops| - 1], a);
      OwnStep(hs, Run(hs, ops[..|ops| - 1]), ops[|ops| - 1], a);
      RegisteredStep(ops, a);
    }
  }

  lemma OwnStep(hs: Hashes, t: Tables, op: Op, a: Addr)
    ensures a in Apply(hs, t, op).own <==> a in t.own || op == OpAddOwn(a)
  {
  }

  // ---------------------------------------------------------------- what time does

  /** An address that was just marked good is shared, and may be drawn, from a minute after that; it is shared
      as a good one until an hour has passed. */
  lemma GoodIsShared(hs: Hashes, t: Tables, a: Addr, at: nat, victim: Addr, now: nat)
    requires TablesInv(hs, t) && Legal(hs, t, OpGood(a, at, victim)) && Stands(t, a) && now >= at
    ensures var t' := Good(hs, t, a, at, victim);
            && a in t'.tried.addrs
            && (a in GoodTried(t', now) <==> at + 60 <= now < at + 3600)
            && (Usable(t', a, now) <==> at + 60 <= now)
  {
    GoodStands(hs, t, a, at, victim);
    GoodFollows(hs, t, OpGood(a, at, victim), a);
  }

  lemma GoodStands(hs: Hashes, t: Tables, a: Addr, at: nat, victim: Addr)
    requires Apart(t) && Stands(t, a)
    ensures a in Good(hs, t, a, at, victim).tried.addrs && a !in Good(hs, t, a, at, victim).untried.addrs
  {
  }

  /** An address that was just tried may not be drawn or shared for a minute, and never again once it has been
      tried more than ten times without success. */
  lemma AttemptRests(hs: Hashes, t: Tables, a: Addr, at: nat, now: nat)
    requires TablesInv(hs, t) && Stands(t, a) && now >= at
    ensures var t' := Attempt(t, a, at);
            && Stands(t', a)
            && (Usable(t', a, now) <==> at + 60 <= now && EntryOf(t, a).attempts < 10)
            && (a in GoodTried(t', now) <==>
                  && a in t.tried.addrs && at + 60 <= now && EntryOf(t, a).attempts < 2
                  && exists success :: EntryOf(t, a).lastSuccess == Some(success) && now < success + 3600)
            && (a in FineNew(t', now) <==> a in t.untried.addrs && at + 60 <= now && EntryOf(t, a).attempts < 10)
  {
    AttemptInv(hs, t, a, at);
  }
}
