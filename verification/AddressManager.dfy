/** The address manager object of src/addrman.rs. Time is a parameter, and a random choice is an
    arbitrary one. */
module AddressManagers {
  import opened ChainParams
  import opened Lists
  import opened AddressTables

  /** Connected within the last hour and without repeated failures. */
  predicate IsGood(info: Info, now: nat) {
    info.lastSuccess.Some? && Elapsed(info.lastSuccess.value, now) < 3600 && info.attempts < 3
  }

  /** Tried too often, or within the last minute. */
  predicate IsTerrible(info: Info, now: nat) {
    info.attempts > 10 || (info.lastTry.Some? && Elapsed(info.lastTry.value, now) < 60)
  }

  function Elapsed(since: nat, now: nat): nat {
    if now >= since then now - since else 0
  }

  class AddressManager {
    const hashes: Hashes
    var newAddrs: map<Addr, Info>
    var triedAddrs: map<Addr, Info>
    var newBuckets: seq<set<Addr>>
    var triedBuckets: seq<set<Addr>>
    var ownAddrs: set<Addr>

    ghost function State(): Tables
      reads this
    {
      Tables(Table(newAddrs, newBuckets), Table(triedAddrs, triedBuckets), ownAddrs)
    }

    ghost predicate Valid()
      reads this
    {
      TablesInv(hashes, State())
    }

    constructor (hashes: Hashes)
      ensures this.hashes == hashes && Valid() && State() == EmptyTables({})
    {
      this.hashes := hashes;
      newAddrs, triedAddrs, ownAddrs := map[], map[], {};
      newBuckets, triedBuckets := seq(NEW_BUCKETS_COUNT, i => {}), seq(TRIED_BUCKETS_COUNT, i => {});
      new;
      assert newBuckets == EmptyTable(New).buckets && triedBuckets == EmptyTable(Tried).buckets;
      EmptyInv(hashes, {});
    }

    method Add(a: Addr, services: nat, source: Option<Addr>, now: nat) returns (added: bool, ghost victim: Addr)
      requires Valid()
      modifies this`newAddrs, this`newBuckets
      ensures Valid() && Legal(hashes, old(State()), OpAdd(a, services, source, now, victim))
      ensures (State(), added) == AddressTables.Add(hashes, old(State()), a, services, source, now, victim)
    {
      if a in ownAddrs || a in triedAddrs || a in newAddrs {
        victim := AnyVictim(State().untried, Place(hashes, New, a, source));
        AddInv(hashes, State(), a, services, source, now, victim);
        if a !in ownAddrs && a !in triedAddrs {
          newAddrs := newAddrs[a := Heard(newAddrs[a], services, now)];
        }
        return false, victim;
      }
      ghost var before := State();
      added, victim := PutIntoNew(a, services, source, now);
      AddInv(hashes, before, a, services, source, now, victim);
    }

    /** Adds an address that neither table holds, evicting a member of a full bucket first. */
    method PutIntoNew(a: Addr, services: nat, source: Option<Addr>, now: nat) returns (added: bool, ghost victim: Addr)
      requires |newBuckets| == NEW_BUCKETS_COUNT
      modifies this`newAddrs, this`newBuckets
      ensures VictimOk(old(State()).untried, Place(hashes, New, a, source), victim)
      ensures (State(), added) == AddNew(hashes, old(State()), a, services, source, now, victim)
    {
      var b := Place(hashes, New, a, source);
      victim := 0;
      if |newBuckets[b]| >= BUCKET_SIZE {
        var evicted :| evicted in newBuckets[b];
        victim := evicted;
        newBuckets := newBuckets[b := newBuckets[b] - {evicted}];
        newAddrs := newAddrs - {evicted};
      }
      if |newAddrs| >= MAX_ADDRESSES {
        return false, victim;
      }
      newBuckets := newBuckets[b := newBuckets[b] + {a}];
      newAddrs := newAddrs[a := Info(services, None, None, now, 0, source)];
      added := true;
    }

    method Good(a: Addr, now: nat) returns (ghost victim: Addr)
      requires Valid()
      modifies this`newAddrs, this`newBuckets, this`triedAddrs, this`triedBuckets
      ensures Valid() && Legal(hashes, old(State()), OpGood(a, now, victim))
      ensures State() == AddressTables.Good(hashes, old(State()), a, now, victim)
    {
      victim := AnyVictim(State().tried, Place(hashes, Tried, a, None));
      GoodInv(hashes, State(), a, now, victim);
      if a in newAddrs {
        victim := MoveToTried(a, now);
      } else if a in triedAddrs {
        triedAddrs := triedAddrs[a := Succeeded(triedAddrs[a], now)];
      }
    }

    method MoveToTried(a: Addr, now: nat) returns (ghost victim: Addr)
      requires Valid() && a in newAddrs
      modifies this`newAddrs, this`newBuckets, this`triedAddrs, this`triedBuckets
      ensures Valid() && VictimOk(old(State()).tried, Place(hashes, Tried, a, None), victim)
      ensures State() == Promote(hashes, old(State()), a, now, victim)
    {
      ghost var before := State();
      var info := Succeeded(newAddrs[a], now);
      newAddrs := newAddrs - {a};
      var b := Place(hashes, New, a, info.source);
      newBuckets := newBuckets[b := newBuckets[b] - {a}];
      victim := PutIntoTried(a, info);
      PromoteInv(hashes, before, a, now, victim);
    }

    method PutIntoTried(a: Addr, info: Info) returns (ghost victim: Addr)
      requires |triedBuckets| == TRIED_BUCKETS_COUNT
      modifies this`triedAddrs, this`triedBuckets
      ensures VictimOk(old(State()).tried, Place(hashes, Tried, a, None), victim)
      ensures var b := Place(hashes, Tried, a, None);
              State().tried == Put(MakeRoom(old(State()).tried, b, victim), b, a, info)
    {
      var t := Place(hashes, Tried, a, None);
      victim := 0;
      if |triedBuckets[t]| >= BUCKET_SIZE {
        var evicted :| evicted in triedBuckets[t];
        victim := evicted;
        triedBuckets := triedBuckets[t := triedBuckets[t] - {evicted}];
        triedAddrs := triedAddrs - {evicted};
      }
      triedBuckets := triedBuckets[t := triedBuckets[t] + {a}];
      triedAddrs := triedAddrs[a := info];
    }

    method Attempt(a: Addr, now: nat)
      requires Valid()
      modifies this`newAddrs, this`triedAddrs
      ensures Valid() && State() == AddressTables.Attempt(old(State()), a, now)
    {
      AttemptInv(hashes, State(), a, now);
      if a in newAddrs {
        newAddrs := newAddrs[a := Attempted(newAddrs[a], now)];
      } else if a in triedAddrs {
        triedAddrs := triedAddrs[a := Attempted(triedAddrs[a], now)];
      }
    }

    method AddOwnAddress(a: Addr)
      requires Valid()
      modifies this`ownAddrs
      ensures Valid() && State() == old(State()).(own := old(ownAddrs) + {a})
    {
      ownAddrs := ownAddrs + {a};
    }

    method Clear()
      requires Valid()
      modifies this`newAddrs, this`newBuckets, this`triedAddrs, this`triedBuckets
      ensures Valid() && State() == EmptyTables(ownAddrs)
    {
      newAddrs, triedAddrs := map[], map[];
      newBuckets := ClearBuckets(newBuckets);
      triedBuckets := ClearBuckets(triedBuckets);
      assert newBuckets == EmptyTable(New).buckets && triedBuckets == EmptyTable(Tried).buckets;
      EmptyInv(hashes, ownAddrs);
    }

    /** At most `maxCount` addresses, the good tried ones first, none twice, each with the services
        recorded for it; all that may be shared, unless the limit cuts them short. */
    method GetAddresses(maxCount: nat, now: nat) returns (result: seq<(Addr, nat)>)
      requires Valid()
      ensures |result| <= maxCount && NoRepeats(Addresses(result))
      ensures Elements(Addresses(result)) <= GoodTried(State(), now) + FineNew(State(), now)
      ensures |result| < maxCount ==> Elements(Addresses(result)) == GoodTried(State(), now) + FineNew(State(), now)
      ensures exists k :: 0 <= k <= |result| && Listed(triedAddrs, result[..k], GoodTried(State(), now))
                          && Listed(newAddrs, result[k..], FineNew(State(), now))
    {
      var good := set a | a in triedAddrs && IsGood(triedAddrs[a], now) && !IsTerrible(triedAddrs[a], now);
      var fromTried := Pick(triedAddrs, good, maxCount);
      var fromNew := Pick(newAddrs, (set a | a in newAddrs && !IsTerrible(newAddrs[a], now)), maxCount - |fromTried|);
      result := fromTried + fromNew;
      assert result[..|fromTried|] == fromTried && result[|fromTried|..] == fromNew;
      assert Addresses(result) == Addresses(fromTried) + Addresses(fromNew);
      NoRepeatsConcat(Addresses(fromTried), Addresses(fromNew));
      ElementsConcat(Addresses(fromTried), Addresses(fromNew));
    }

    /** Any address that is not terrible, from the table the coin chose if that is not empty; none if
        all of that table are terrible, whatever the other table holds. */
    method Select(useTried: bool, now: nat) returns (r: Option<Addr>)
      requires Valid()
      ensures r.Some? ==> r.value in Chosen(State(), useTried) && !IsTerrible(Chosen(State(), useTried)[r.value], now)
      ensures r.None? ==> AllTerrible(Chosen(State(), useTried), now)
      ensures r.Some? && useTried && triedAddrs != map[] ==> r.value in triedAddrs
      ensures r.Some? && !useTried && newAddrs != map[] ==> r.value in newAddrs
    {
      if useTried && triedAddrs != map[] {
        r := SelectFrom(triedAddrs, now);
      } else if newAddrs != map[] {
        r := SelectFrom(newAddrs, now);
      } else {
        r := SelectFrom(triedAddrs, now);
      }
    }

    /** Up to `count` different usable addresses, found in at most three times as many draws; none only if
        every table that was drawn from holds nothing but terrible ones. */
    method SelectMultiple(count: nat, coins: seq<bool>, now: nat) returns (result: seq<Addr>)
      requires Valid() && |coins| == 3 * count
      ensures |result| <= count
      ensures NoRepeats(result)
      ensures forall i :: 0 <= i < |result| ==> Usable(State(), result[i], now)
      ensures count > 0 && result == [] ==>
                forall i :: 0 <= i < |coins| ==> AllTerrible(Chosen(State(), coins[i]), now)
    {
      result := [];
      var selected := {};
      for i := 0 to |coins|
        invariant |result| <= count && forall a :: a in selected <==> a in result
        invariant NoRepeats(result)
        invariant forall k :: 0 <= k < |result| ==> Usable(State(), result[k], now)
        invariant result == [] ==> forall k :: 0 <= k < i ==> AllTerrible(Chosen(State(), coins[k]), now)
      {
        if |result| >= count {
          break;
        }
        var r := Select(coins[i], now);
        if r.Some? && r.value !in selected {
          selected := selected + {r.value};
          result := result + [r.value];
        }
      }
    }
  }

  /** Some member of a full bucket; which one does not matter where nothing is evicted. */
  lemma AnyVictim(tb: Table, b: nat) returns (victim: Addr)
    requires b < |tb.buckets|
    ensures VictimOk(tb, b, victim)
  {
    victim := 0;
    if |tb.buckets[b]| >= BUCKET_SIZE {
      victim :| victim in tb.buckets[b];
    }
  }

  ghost predicate AllTerrible(addrs: map<Addr, Info>, now: nat) {
    forall a :: a in addrs ==> IsTerrible(addrs[a], now)
  }

  /** The table a draw is made from: the tried one if the coin says so and it is not empty, or if
      there is nothing in the new one. */
  ghost function Chosen(t: Tables, useTried: bool): map<Addr, Info> {
    if (useTried && t.tried.addrs != map[]) || t.untried.addrs == map[] then t.tried.addrs else t.untried.addrs
  }

  ghost function GoodTried(t: Tables, now: nat): set<Addr> {
    set a | a in t.tried.addrs && IsGood(t.tried.addrs[a], now) && !IsTerrible(t.tried.addrs[a], now)
  }

  ghost function FineNew(t: Tables, now: nat): set<Addr> {
    set a | a in t.untried.addrs && !IsTerrible(t.untried.addrs[a], now)
  }

  function Addresses(r: seq<(Addr, nat)>): (s: seq<Addr>)
    ensures |s| == |r|
  {
    seq(|r|, i requires 0 <= i < |r| => r[i].0)
  }

  /** Entries of `addrs`, all from `from`, with the services recorded for them. */
  ghost predicate Listed(addrs: map<Addr, Info>, r: seq<(Addr, nat)>, from: set<Addr>) {
    forall i :: 0 <= i < |r| ==> r[i].0 in from && r[i].0 in addrs && r[i].1 == addrs[r[i].0].services
  }

  ghost predicate Usable(t: Tables, a: Addr, now: nat) {
    || (a in t.tried.addrs && !IsTerrible(t.tried.addrs[a], now))
    || (a in t.untried.addrs && !IsTerrible(t.untried.addrs[a], now))
  }

  /** The first candidates of an arbitrary iteration, as far as the limit allows. */
  method Pick(addrs: map<Addr, Info>, candidates: set<Addr>, limit: nat) returns (result: seq<(Addr, nat)>)
    requires candidates <= addrs.Keys
    ensures |result| <= limit && NoRepeats(Addresses(result))
    ensures Elements(Addresses(result)) <= candidates
            && (|result| < limit ==> Elements(Addresses(result)) == candidates)
    ensures Listed(addrs, result, candidates)
  {
    result := [];
    var rest := candidates;
    while rest != {} && |result| < limit
      invariant rest <= candidates && |result| <= limit
      invariant Elements(Addresses(result)) == candidates - rest && NoRepeats(Addresses(result))
      invariant Listed(addrs, result, candidates)
    {
      var a :| a in rest;
      assert Addresses(result + [(a, addrs[a].services)]) == Addresses(result) + [a];
      NoRepeatsAppended(Addresses(result), a);
      ElementsAppended(Addresses(result), a);
      result := result + [(a, addrs[a].services)];
      rest := rest - {a};
    }
  }

  method SelectFrom(addrs: map<Addr, Info>, now: nat) returns (r: Option<Addr>)
    ensures r.Some? ==> r.value in addrs && !IsTerrible(addrs[r.value], now)
    ensures r.None? ==> AllTerrible(addrs, now)
  {
    var candidates := set a | a in addrs && !IsTerrible(addrs[a], now);
    if candidates == {} {
      r := None;
      assert forall a :: a in addrs && !IsTerrible(addrs[a], now) ==> a in candidates;
    } else {
      var a :| a in candidates;
      r := Some(a);
    }
  }

  method ClearBuckets(buckets: seq<set<Addr>>) returns (cleared: seq<set<Addr>>)
    ensures cleared == seq(|buckets|, i => {})
  {
    cleared := buckets;
    for i := 0 to |buckets|
      invariant |cleared| == |buckets| && forall k :: 0 <= k < i ==> cleared[k] == {}
    {
      cleared := cleared[i := {}];
    }
  }
}
