/** The download scheduler object of src/p2p/legacy.rs. Its history is kept in a ghost field. */
module Downloaders {
  import opened Headers
  import opened Lists
  import opened Downloads

  class Downloader {
    const windows: Windows
    var inflight: map<Hash, Request>
    var perPeer: map<Addr, nat>
    var queue: seq<Hash>
    var total: nat
    var downloaded: nat

    ghost var past: History

    ghost function State(): Ledger
      reads this
    {
      Ledger(Scheduler(inflight, perPeer, queue, total, downloaded), past)
    }

    ghost predicate Valid()
      reads this
    {
      LedgerInv(windows, State())
    }

    constructor (windows: Windows)
      ensures this.windows == windows && Valid() && State() == Ledger(EMPTY, NOTHING)
    {
      this.windows := windows;
      inflight, perPeer, queue, total, downloaded, past := map[], map[], [], 0, 0, NOTHING;
      new;
      EmptyInv(windows);
    }

    method PushMany(hs: seq<Hash>)
      requires Valid()
      modifies this
      ensures Valid() && State() == Push(old(State()), hs)
    {
      PushInv(windows, State(), hs);
      AppendEach(hs);
      past := past.(pushed := past.pushed + hs);
    }

    method AppendEach(hs: seq<Hash>)
      modifies this`queue, this`total
      ensures queue == old(queue) + hs && total == old(total) + |hs|
    {
      for i := 0 to |hs|
        invariant queue == old(queue) + hs[..i] && total == old(total) + i
      {
        queue := queue + [hs[i]];
        total := total + 1;
      }
    }

    /** Hands the next queued blocks to a peer, as far as both windows allow. */
    method PollAssign(a: Addr, now: nat) returns (out: seq<Hash>)
      requires Valid()
      modifies this
      ensures Valid() && State() == Assign(windows, old(State()), a, now)
      ensures past.handedOut == old(past).handedOut + out
    {
      out := [];
      ghost var goal := Assign(windows, State(), a, now);
      while CanAssign(windows, Scheduler(inflight, perPeer, queue, total, downloaded), a)
        invariant Valid() && goal == Assign(windows, State(), a, now)
        invariant past.handedOut == old(past).handedOut + out
        decreases |queue|
      {
        AssignOneInv(windows, State(), a, now);
        var h := queue[0];
        HandOut(a, now);
        out := out + [h];
      }
    }

    /** Moves the head of the queue into flight. An earlier request for the same block is overwritten,
        and the count of the peer it went to stays as it is. */
    method HandOut(a: Addr, now: nat)
      requires queue != []
      modifies this`inflight, this`perPeer, this`queue, this`past
      ensures State() == AssignOne(old(State()), a, now)
    {
      var h := queue[0];
      past := past.(handedOut := past.handedOut + [h],
                    displaced := if h in inflight then past.displaced + [inflight[h].peer] else past.displaced);
      queue := queue[1..];
      inflight := inflight[h := Request(a, now + BLK_TIMEOUT)];
      perPeer := perPeer[a := CountOf(perPeer, a) + 1];
    }

    method Complete(h: Hash)
      requires Valid()
      modifies this
      ensures Valid() && State() == Downloads.Complete(old(State()), h)
    {
      CompleteInv(windows, State(), h);
      if h in inflight {
        var a := inflight[h].peer;
        inflight := inflight - {h};
        if a in perPeer && perPeer[a] > 0 {
          perPeer := perPeer[a := perPeer[a] - 1];
        }
        downloaded := downloaded + 1;
        past := past.(received := past.received + [h]);
      }
    }

    /** Takes overdue requests out of flight and lists them, in any order. */
    method ReassignTimeouts(now: nat) returns (expired: seq<Hash>)
      modifies this`inflight, this`perPeer
      ensures NoRepeats(expired) && Elements(expired) == Overdue(old(inflight), now)
      ensures State() == Ledger(TimedOut(old(State()).d, now), old(past))
    {
      var dec: map<Addr, nat>;
      expired, dec := CollectOverdue(inflight, now);
      inflight := inflight - Elements(expired);
      LowerCounts(dec);
    }

    method LowerCounts(dec: map<Addr, nat>)
      modifies this`perPeer
      ensures perPeer == map a | a in old(perPeer) :: Lowered(old(perPeer)[a], CountOf(dec, a))
    {
      var rest := dec.Keys;
      while rest != {}
        invariant rest <= dec.Keys
        invariant perPeer == map a | a in old(perPeer) ::
          if a in rest then old(perPeer)[a] else Lowered(old(perPeer)[a], CountOf(dec, a))
      {
        var a :| a in rest;
        rest := rest - {a};
        if a in perPeer {
          perPeer := perPeer[a := Lowered(perPeer[a], dec[a])];
        }
      }
    }

    /** One tick of the event loop: overdue blocks go back to the end of the queue. */
    method Tick(now: nat) returns (ghost order: seq<Hash>)
      requires Valid()
      modifies this
      ensures Valid() && State() == Requeue(old(State()), now, order)
      ensures NoRepeats(order) && Elements(order) == Overdue(old(inflight), now)
    {
      ghost var before := State();
      var expired := Retry(now);
      order := expired;
      RequeueInv(windows, before, now, order);
    }

    method Retry(now: nat) returns (expired: seq<Hash>)
      modifies this
      ensures State() == Requeue(old(State()), now, expired)
      ensures NoRepeats(expired) && Elements(expired) == Overdue(old(inflight), now)
    {
      expired := ReassignTimeouts(now);
      AppendEach(expired);
      past := past.(pushed := past.pushed + expired, timedOut := past.timedOut + expired);
    }
  }

  /** Scans the requests in any order: which are overdue, and how many of them each peer has. */
  method CollectOverdue(inflight: map<Hash, Request>, now: nat) returns (expired: seq<Hash>, dec: map<Addr, nat>)
    ensures NoRepeats(expired) && Elements(expired) == Overdue(inflight, now)
    ensures forall a :: CountOf(dec, a) == |OverdueFrom(inflight, now, a)|
  {
    expired, dec := [], map[];
    var rest := inflight.Keys;
    ghost var seen: set<Hash> := {};
    while rest != {}
      invariant seen + rest == inflight.Keys && seen !! rest
      invariant Collected(inflight, now, seen, expired, dec)
    {
      var h :| h in rest;
      CollectNext(inflight, now, seen, expired, dec, h);
      rest, seen := rest - {h}, seen + {h};
      if inflight[h].deadline <= now {
        expired := expired + [h];
        dec := dec[inflight[h].peer := CountOf(dec, inflight[h].peer) + 1];
      }
    }
    CollectedAll(inflight, now, expired, dec);
  }

  ghost function OverdueIn(seen: set<Hash>, inflight: map<Hash, Request>, now: nat): set<Hash> {
    set h | h in seen && h in inflight && inflight[h].deadline <= now
  }

  ghost function OverdueInFrom(seen: set<Hash>, inflight: map<Hash, Request>, now: nat, a: Addr): set<Hash> {
    set h | h in seen && h in inflight && inflight[h].deadline <= now && inflight[h].peer == a
  }

  /** The two results, for the part of the requests seen so far. */
  ghost predicate Collected(inflight: map<Hash, Request>, now: nat, seen: set<Hash>, expired: seq<Hash>,
                            dec: map<Addr, nat>) {
    && NoRepeats(expired) && Elements(expired) == OverdueIn(seen, inflight, now)
    && forall a :: CountOf(dec, a) == |OverdueInFrom(seen, inflight, now, a)|
  }

  lemma CollectNext(inflight: map<Hash, Request>, now: nat, seen: set<Hash>, expired: seq<Hash>, dec: map<Addr, nat>,
                    h: Hash)
    requires Collected(inflight, now, seen, expired, dec) && h in inflight && h !in seen
    ensures if inflight[h].deadline <= now
            then Collected(inflight, now, seen + {h}, expired + [h],
                           dec[inflight[h].peer := CountOf(dec, inflight[h].peer) + 1])
            else Collected(inflight, now, seen + {h}, expired, dec)
  {
    CollectNextIn(inflight, now, seen, h);
    if inflight[h].deadline <= now {
      ElementsAppended(expired, h);
      NoRepeatsAppended(expired, h);
    }
    forall a
      ensures |OverdueInFrom(seen + {h}, inflight, now, a)|
           == |OverdueInFrom(seen, inflight, now, a)|
            + (if inflight[h].deadline <= now && inflight[h].peer == a then 1 else 0)
    {
      CollectNextFrom(inflight, now, seen, h, a);
    }
  }

  lemma CollectNextIn(inflight: map<Hash, Request>, now: nat, seen: set<Hash>, h: Hash)
    requires h in inflight && h !in seen
    ensures OverdueIn(seen + {h}, inflight, now)
         == OverdueIn(seen, inflight, now) + (if inflight[h].deadline <= now then {h} else {})
    ensures h !in OverdueIn(seen, inflight, now)
  {
  }

  lemma CollectNextFrom(inflight: map<Hash, Request>, now: nat, seen: set<Hash>, h: Hash, a: Addr)
    requires h in inflight && h !in seen
    ensures |OverdueInFrom(seen + {h}, inflight, now, a)|
         == |OverdueInFrom(seen, inflight, now, a)|
          + (if inflight[h].deadline <= now && inflight[h].peer == a then 1 else 0)
  {
    if inflight[h].deadline <= now && inflight[h].peer == a {
      assert OverdueInFrom(seen + {h}, inflight, now, a) == OverdueInFrom(seen, inflight, now, a) + {h};
    } else {
      assert OverdueInFrom(seen + {h}, inflight, now, a) == OverdueInFrom(seen, inflight, now, a);
    }
  }

  lemma CollectedAll(inflight: map<Hash, Request>, now: nat, expired: seq<Hash>, dec: map<Addr, nat>)
    requires Collected(inflight, now, inflight.Keys, expired, dec)
    ensures Elements(expired) == Overdue(inflight, now)
    ensures forall a :: CountOf(dec, a) == |OverdueFrom(inflight, now, a)|
  {
    assert OverdueIn(inflight.Keys, inflight, now) == Overdue(inflight, now);
    forall a
      ensures CountOf(dec, a) == |OverdueFrom(inflight, now, a)|
    {
      assert OverdueInFrom(inflight.Keys, inflight, now, a) == OverdueFrom(inflight, now, a);
    }
  }
}
