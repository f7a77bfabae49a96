/** How long a requested block stays with the peer it was requested from, over whole runs: 120 seconds from
    the event that handed it out, unless it arrives (src/p2p/legacy.rs, poll_assign and reassign_timeouts). */
module RequestTimeouts {
  import opened Headers
  import opened Lists
  import opened HeaderChain
  import opened Downloads
  import opened HeadersFirst

  // ---------------------------------------------------------------- history only grows

  /** What was handed out between two states. */
  function HandedOutSince(s: Sync, s': Sync): seq<Hash>
  {
    if s.dl.past.handedOut <= s'.dl.past.handedOut then s'.dl.past.handedOut[|s.dl.past.handedOut|..] else []
  }

  /** What arrived between two states. */
  function ReceivedSince(s: Sync, s': Sync): seq<Hash>
  {
    if s.dl.past.received <= s'.dl.past.received then s'.dl.past.received[|s.dl.past.received|..] else []
  }

  ghost predicate Later(s: Sync, s': Sync) {
    s.dl.past.handedOut <= s'.dl.past.handedOut && s.dl.past.received <= s'.dl.past.received
  }

  lemma {:induction false} AssignLater(w: Windows, l: Ledger, a: Addr, now: nat)
    ensures l.past.handedOut <= Assign(w, l, a, now).past.handedOut
    ensures l.past.received == Assign(w, l, a, now).past.received
    decreases |l.d.queue|
  {
    if CanAssign(w, l.d, a) {
      AssignLater(w, AssignOne(l, a, now), a, now);
    }
  }

  lemma {:induction false} StepLater(cfg: Config, s: Sync, ev: Event)
    ensures Later(s, Step(cfg, s, ev))
  {
    match ev
    case PeerAdded(peer, height, now) => AssignLater(cfg.windows, s.dl, peer, now);
    case HeadersReceived(peer, batch, written, now) =>
      AssignLater(cfg.windows, CompleteSync(cfg, Extended(cfg, s, batch, written)).dl, peer, now);
    case InvReceived(peer, hashes, now) =>
      AssignLater(cfg.windows, Push(s.dl, Known(s.chain, hashes)), peer, now);
    case BlockReceived(peer, h, now) => AssignLater(cfg.windows, Complete(s.dl, h), peer, now);
    case Ticked(now, order) =>
  }

  lemma {:induction false} RunLater(cfg: Config, s: Sync, events: seq<Event>)
    ensures Later(s, Run(cfg, s, events))
  {
    if events != [] {
      RunLater(cfg, s, events[..|events| - 1]);
      StepLater(cfg, Run(cfg, s, events[..|events| - 1]), events[|events| - 1]);
    }
  }

  // ---------------------------------------------------------------- one assignment

  /** The block is in flight with this peer until 120 seconds after `t`. */
  ghost predicate Flying(l: Ledger, h: Hash, a: Addr, t: nat) {
    h in l.d.inflight && l.d.inflight[h] == Request(a, t + 120)
  }

  lemma {:induction false} AssignFlies(w: Windows, l: Ledger, a: Addr, now: nat, h: Hash)
    ensures l.past.handedOut <= Assign(w, l, a, now).past.handedOut
    ensures h in Assign(w, l, a, now).past.handedOut[|l.past.handedOut|..] ==> Flying(Assign(w, l, a, now), h, a, now)
    ensures h !in Assign(w, l, a, now).past.handedOut[|l.past.handedOut|..] ==>
              (h in Assign(w, l, a, now).d.inflight <==> h in l.d.inflight)
              && (h in l.d.inflight ==> Assign(w, l, a, now).d.inflight[h] == l.d.inflight[h])
    decreases |l.d.queue|
  {
    if CanAssign(w, l.d, a) {
      var next := AssignOne(l, a, now);
      AssignFlies(w, next, a, now, h);
      SuffixAfterOne(l.past.handedOut, l.d.queue[0], Assign(w, next, a, now).past.handedOut);
      if h == l.d.queue[0] && h !in Assign(w, next, a, now).past.handedOut[|next.past.handedOut|..] {
        assert next.d.inflight[h] == Request(a, now + 120);
      }
    }
  }

  lemma SuffixAfterOne(before: seq<Hash>, h: Hash, after: seq<Hash>)
    requires before + [h] <= after
    ensures before <= after && after[|before|..] == [h] + after[|before| + 1..]
  {
    assert after[|before|] == (before + [h])[|before|];
  }

  // ---------------------------------------------------------------- one event

  /** Serving a peer: what it is handed flies from now on, and everything else as before. */
  lemma {:induction false} ServeFlies(cfg: Config, s: Sync, peer: Addr, now: nat, h: Hash)
    ensures Later(s, Serve(cfg, s, peer, now))
    ensures h in HandedOutSince(s, Serve(cfg, s, peer, now)) ==> Flying(Serve(cfg, s, peer, now).dl, h, peer, now)
    ensures h !in HandedOutSince(s, Serve(cfg, s, peer, now)) ==>
              (forall a, t: nat :: Flying(s.dl, h, a, t) ==> Flying(Serve(cfg, s, peer, now).dl, h, a, t))
  {
    AssignLater(cfg.windows, s.dl, peer, now);
    AssignFlies(cfg.windows, s.dl, peer, now, h);
  }

  /** Whatever an event hands out is in flight with its peer for 120 seconds from then. */
  lemma {:induction false} EventFlies(cfg: Config, s: Sync, ev: Event, h: Hash)
    requires !ev.Ticked?
    ensures Later(s, Step(cfg, s, ev))
    ensures h in HandedOutSince(s, Step(cfg, s, ev)) ==> Flying(Step(cfg, s, ev).dl, h, ev.peer, ev.now)
  {
    StepLater(cfg, s, ev);
    match ev
    case PeerAdded(peer, height, now) =>
      ServeFlies(cfg, s.(bestKnown := if height > s.bestKnown then height else s.bestKnown), peer, now, h);
    case HeadersReceived(peer, batch, written, now) =>
      ServeFlies(cfg, CompleteSync(cfg, Extended(cfg, s, batch, written)), peer, now, h);
    case InvReceived(peer, hashes, now) =>
      ServeFlies(cfg, s.(dl := Push(s.dl, Known(s.chain, hashes))), peer, now, h);
    case BlockReceived(peer, b, now) => ServeFlies(cfg, s.(dl := Complete(s.dl, b)), peer, now, h);
  }

  /** A tick before its time leaves a request alone. */
  lemma {:induction false} EarlyTick(s: Sync, now: nat, order: seq<Hash>, h: Hash, a: Addr, t: nat)
    requires Flying(s.dl, h, a, t) && now < t + 120
    ensures Flying(OnTick(s, now, order).dl, h, a, t)
  {
  }

  /** What flies goes on flying through an event that neither brings it nor hands it out again, and is no tick
      that comes 120 seconds after it was handed out. */
  lemma {:induction false} EventKeepsFlying(cfg: Config, s: Sync, ev: Event, h: Hash, a: Addr, t: nat)
    requires Flying(s.dl, h, a, t) && (ev.Ticked? ==> ev.now < t + 120)
    requires Later(s, Step(cfg, s, ev))
    requires h !in HandedOutSince(s, Step(cfg, s, ev)) && h !in ReceivedSince(s, Step(cfg, s, ev))
    ensures Flying(Step(cfg, s, ev).dl, h, a, t)
  {
    match ev
    case PeerAdded(peer, height, now) =>
      ServeFlies(cfg, s.(bestKnown := if height > s.bestKnown then height else s.bestKnown), peer, now, h);
    case HeadersReceived(peer, batch, written, now) =>
      ServeFlies(cfg, CompleteSync(cfg, Extended(cfg, s, batch, written)), peer, now, h);
    case InvReceived(peer, hashes, now) =>
      ServeFlies(cfg, s.(dl := Push(s.dl, Known(s.chain, hashes))), peer, now, h);
    case BlockReceived(peer, b, now) => BlockKeepsFlying(cfg, s, peer, b, now, h, a, t);
    case Ticked(now, order) => EarlyTick(s, now, order, h, a, t);
  }

  lemma {:induction false} BlockKeepsFlying(cfg: Config, s: Sync, peer: Addr, b: Hash, now: nat,
                                            h: Hash, a: Addr, t: nat)
    requires Flying(s.dl, h, a, t) && Later(s, OnBlock(cfg, s, peer, b, now))
    requires h !in HandedOutSince(s, OnBlock(cfg, s, peer, b, now))
    requires h !in ReceivedSince(s, OnBlock(cfg, s, peer, b, now))
    ensures Flying(OnBlock(cfg, s, peer, b, now).dl, h, a, t)
  {
    if s.synced {
      ServeFlies(cfg, s.(dl := Complete(s.dl, b)), peer, now, h);
      AssignLater(cfg.windows, Complete(s.dl, b), peer, now);
      ArrivalIsReceived(cfg, s, peer, b, now);
    }
  }

  lemma {:induction false} ArrivalIsReceived(cfg: Config, s: Sync, peer: Addr, b: Hash, now: nat)
    requires s.synced && Later(s, OnBlock(cfg, s, peer, b, now))
    ensures b in s.dl.d.inflight ==> b in ReceivedSince(s, OnBlock(cfg, s, peer, b, now))
  {
    AssignLater(cfg.windows, Complete(s.dl, b), peer, now);
    if b in s.dl.d.inflight {
      assert ReceivedSince(s, OnBlock(cfg, s, peer, b, now)) == [b];
    }
  }

  // ---------------------------------------------------------------- over a run

  /** No tick of the run comes 120 seconds or more after `t`. */
  predicate TicksBefore(events: seq<Event>, t: nat) {
    forall k :: 0 <= k < |events| && events[k].Ticked? ==> events[k].now < t + 120
  }

  lemma SinceSplits(s: Sync, s1: Sync, s2: Sync, h: Hash)
    requires Later(s, s1) && Later(s1, s2) && Later(s, s2)
    requires h !in HandedOutSince(s, s2) && h !in ReceivedSince(s, s2)
    ensures h !in HandedOutSince(s, s1) && h !in ReceivedSince(s, s1)
    ensures h !in HandedOutSince(s1, s2) && h !in ReceivedSince(s1, s2)
  {
    SuffixSplits(s.dl.past.handedOut, s1.dl.past.handedOut, s2.dl.past.handedOut);
    SuffixSplits(s.dl.past.received, s1.dl.past.received, s2.dl.past.received);
  }

  lemma SuffixSplits(a: seq<Hash>, b: seq<Hash>, c: seq<Hash>)
    requires a <= b <= c
    ensures c[|a|..] == b[|a|..] + c[|b|..]
  {
  }

  lemma {:induction false} RunKeepsFlying(cfg: Config, s: Sync, later: seq<Event>, h: Hash, a: Addr, t: nat)
    requires Flying(s.dl, h, a, t) && TicksBefore(later, t)
    requires Later(s, Run(cfg, s, later))
    requires h !in HandedOutSince(s, Run(cfg, s, later)) && h !in ReceivedSince(s, Run(cfg, s, later))
    ensures Flying(Run(cfg, s, later).dl, h, a, t)
  {
    if later != [] {
      var before, last := later[..|later| - 1], later[|later| - 1];
      RunLater(cfg, s, before);
      StepLater(cfg, Run(cfg, s, before), last);
      SinceSplits(s, Run(cfg, s, before), Run(cfg, s, later), h);
      RunKeepsFlying(cfg, s, before, h, a, t);
      EventKeepsFlying(cfg, Run(cfg, s, before), last, h, a, t);
    }
  }

  /** A block that an event handed out, and that was neither received nor handed out again since, is still in
      flight with the peer of that event, as long as every tick came before 120 seconds had passed. */
  lemma {:induction false} StillInFlight(cfg: Config, s: Sync, ev: Event, later: seq<Event>, h: Hash)
    requires !ev.Ticked? && h in HandedOutSince(s, Step(cfg, s, ev))
    requires h !in HandedOutSince(Step(cfg, s, ev), Run(cfg, Step(cfg, s, ev), later))
    requires h !in ReceivedSince(Step(cfg, s, ev), Run(cfg, Step(cfg, s, ev), later))
    requires forall k :: 0 <= k < |later| && later[k].Ticked? ==> later[k].now < ev.now + 120
    ensures var d := Run(cfg, Step(cfg, s, ev), later).dl.d;
            h in d.inflight && d.inflight[h].peer == ev.peer
  {
    EventFlies(cfg, s, ev, h);
    RunLater(cfg, Step(cfg, s, ev), later);
    RunKeepsFlying(cfg, Step(cfg, s, ev), later, h, ev.peer, ev.now);
  }

  /** The first tick that comes 120 seconds or more after that puts it back into the queue. */
  lemma {:induction false} BackInQueue(cfg: Config, s: Sync, ev: Event, later: seq<Event>, h: Hash,
                                       now: nat, order: seq<Hash>)
    requires !ev.Ticked? && h in HandedOutSince(s, Step(cfg, s, ev))
    requires h !in HandedOutSince(Step(cfg, s, ev), Run(cfg, Step(cfg, s, ev), later))
    requires h !in ReceivedSince(Step(cfg, s, ev), Run(cfg, Step(cfg, s, ev), later))
    requires forall k :: 0 <= k < |later| && later[k].Ticked? ==> later[k].now < ev.now + 120
    requires now >= ev.now + 120 && Legal(Run(cfg, Step(cfg, s, ev), later), Ticked(now, order))
    ensures var d := Step(cfg, Run(cfg, Step(cfg, s, ev), later), Ticked(now, order)).dl.d;
            h !in d.inflight && h in d.queue
  {
    EventFlies(cfg, s, ev, h);
    RunLater(cfg, Step(cfg, s, ev), later);
    RunKeepsFlying(cfg, Step(cfg, s, ev), later, h, ev.peer, ev.now);
    LateTick(Run(cfg, Step(cfg, s, ev), later), now, order, h, ev.peer, ev.now);
  }

  lemma {:induction false} LateTick(s: Sync, now: nat, order: seq<Hash>, h: Hash, a: Addr, t: nat)
    requires Flying(s.dl, h, a, t) && now >= t + 120 && Elements(order) == Overdue(s.dl.d.inflight, now)
    ensures h !in OnTick(s, now, order).dl.d.inflight && h in OnTick(s, now, order).dl.d.queue
  {
    assert h in Elements(order);
    assert OnTick(s, now, order).dl.d.queue == s.dl.d.queue + order;
  }
}
