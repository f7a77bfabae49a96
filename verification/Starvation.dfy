/** Requests that are overwritten: over a whole run their peers never get the place in their window back,
    and ordinary announcements can cost a peer its whole window. */
module Starvation {
  import opened Headers
  import opened Lists
  import opened FiniteSets
  import opened HeaderChain
  import opened Downloads
  import opened HeadersFirst

  // ---------------------------------------------------------------- nothing is given back

  lemma {:induction false} ServeForgetsNothing(cfg: Config, s: Sync, peer: Addr, now: nat)
    ensures s.dl.past.displaced <= Serve(cfg, s, peer, now).dl.past.displaced
  {
    AssignForgetsNothing(cfg.windows, s.dl, peer, now);
  }

  /** No step takes a peer off the list of those whose requests were overwritten. */
  lemma {:induction false} StepForgetsNothing(cfg: Config, s: Sync, ev: Event)
    ensures s.dl.past.displaced <= Step(cfg, s, ev).dl.past.displaced
  {
    match ev
    case PeerAdded(peer, height, now) =>
      ServeForgetsNothing(cfg, s.(bestKnown := if height > s.bestKnown then height else s.bestKnown), peer, now);
    case HeadersReceived(peer, batch, written, now) =>
      ServeForgetsNothing(cfg, CompleteSync(cfg, Extended(cfg, s, batch, written)), peer, now);
    case InvReceived(peer, hashes, now) =>
      ServeForgetsNothing(cfg, s.(dl := Push(s.dl, Known(s.chain, hashes))), peer, now);
    case BlockReceived(peer, h, now) =>
      ServeForgetsNothing(cfg, s.(dl := Complete(s.dl, h)), peer, now);
    case Ticked(now, order) =>
  }

  lemma {:induction false} RunForgetsNothing(cfg: Config, first: Sync, events: seq<Event>)
    ensures first.dl.past.displaced <= Run(cfg, first, events).dl.past.displaced
  {
    if events != [] {
      RunForgetsNothing(cfg, first, events[..|events| - 1]);
      StepForgetsNothing(cfg, Run(cfg, first, events[..|events| - 1]), events[|events| - 1]);
    }
  }

  lemma {:induction false} OccurrencesGrow(s: seq<Addr>, t: seq<Addr>, a: Addr)
    requires s <= t
    ensures Occurrences(s, a) <= Occurrences(t, a)
    decreases |t|
  {
    if |s| < |t| {
      OccurrencesGrow(s, t[..|t| - 1], a);
    } else {
      assert s == t;
    }
  }

  /** From any state that satisfies the invariant, over any run: a peer's count never falls below the
      number of its requests that had been overwritten, whatever arrives or times out. */
  lemma {:induction false} CountNeverRecovers(cfg: Config, first: Sync, events: seq<Event>, a: Addr)
    requires SyncInv(cfg, first) && LegalRun(cfg, first, events)
    ensures CountOf(Run(cfg, first, events).dl.d.perPeer, a) >= Occurrences(first.dl.past.displaced, a)
  {
    var s := Run(cfg, first, events);
    HeadersFirst.RunInv(cfg, first, events);
    RunForgetsNothing(cfg, first, events);
    OccurrencesGrow(first.dl.past.displaced, s.dl.past.displaced, a);
    assert PeerBalanced(cfg.windows, s.dl, a);
  }

  /** A peer that has lost its whole window is never given a block again. */
  lemma {:induction false} StarvedForGood(cfg: Config, first: Sync, events: seq<Event>, a: Addr)
    requires SyncInv(cfg, first) && LegalRun(cfg, first, events)
    requires first.dl.d.inflight == map[] && CountOf(first.dl.d.perPeer, a) == cfg.windows.perPeer
    ensures !CanAssign(cfg.windows, Run(cfg, first, events).dl.d, a)
  {
    assert PeerBalanced(cfg.windows, first.dl, a);
    assert FromPeer(first.dl.d.inflight, a) == {};
    CountNeverRecovers(cfg, first, events, a);
  }

  // ---------------------------------------------------------------- how a peer loses its window

  /** When its window and the global one have room for all that is queued, one peer is given all of it. */
  lemma {:induction false} AssignWhole(w: Windows, l: Ledger, a: Addr, now: nat, all: set<Hash>)
    requires CountOf(l.d.perPeer, a) + |l.d.queue| <= w.perPeer
    requires l.d.inflight.Keys <= all && Elements(l.d.queue) <= all && |all| < w.global
    ensures var l' := Assign(w, l, a, now);
            l'.d.queue == [] && CountOf(l'.d.perPeer, a) == CountOf(l.d.perPeer, a) + |l.d.queue|
    decreases |l.d.queue|
  {
    if l.d.queue != [] {
      SubsetSize(l.d.inflight.Keys, all);
      ElementsStep(l.d.queue);
      KeysAfterInsert(l.d.inflight, l.d.queue[0], Request(a, now + BLK_TIMEOUT));
      AssignWhole(w, AssignOne(l, a, now), a, now, all);
    }
  }

  /** Assignment only moves blocks from the queue into flight. */
  lemma {:induction false} AssignMoves(w: Windows, l: Ledger, a: Addr, now: nat)
    ensures var l' := Assign(w, l, a, now);
            l'.d.inflight.Keys + Elements(l'.d.queue) == l.d.inflight.Keys + Elements(l.d.queue)
    decreases |l.d.queue|
  {
    if CanAssign(w, l.d, a) {
      ElementsStep(l.d.queue);
      KeysAfterInsert(l.d.inflight, l.d.queue[0], Request(a, now + BLK_TIMEOUT));
      AssignMoves(w, AssignOne(l, a, now), a, now);
    }
  }

  /** What it is given, and what it had, is in flight from it. */
  lemma {:induction false} AssignedPeer(w: Windows, l: Ledger, a: Addr, now: nat, h: Hash)
    requires (h in l.d.inflight && l.d.inflight[h].peer == a) || (h in l.d.queue && Assign(w, l, a, now).d.queue == [])
    ensures var l' := Assign(w, l, a, now);
            h in l'.d.inflight && l'.d.inflight[h].peer == a
    decreases |l.d.queue|
  {
    if CanAssign(w, l.d, a) {
      assert h in l.d.queue ==> h == l.d.queue[0] || h in l.d.queue[1..];
      AssignedPeer(w, AssignOne(l, a, now), a, now, h);
    }
  }

  ghost predicate AllFrom(inflight: map<Hash, Request>, a: Addr) {
    forall h :: h in inflight ==> inflight[h].peer == a
  }

  /** One peer is given all that is queued, which includes all that is in flight. */
  lemma {:induction false} AssignAllFrom(w: Windows, l: Ledger, a: Addr, now: nat)
    requires CountOf(l.d.perPeer, a) + |l.d.queue| <= w.perPeer
    requires l.d.inflight.Keys <= Elements(l.d.queue) && |Elements(l.d.queue)| < w.global
    ensures var l' := Assign(w, l, a, now);
            && l'.d.queue == [] && CountOf(l'.d.perPeer, a) == CountOf(l.d.perPeer, a) + |l.d.queue|
            && l'.d.inflight.Keys == Elements(l.d.queue) && AllFrom(l'.d.inflight, a)
  {
    AssignWhole(w, l, a, now, Elements(l.d.queue));
    AssignMoves(w, l, a, now);
    assert l.d.inflight.Keys + Elements(l.d.queue) == Elements(l.d.queue) && Elements<Hash>([]) == {};
    forall h | h in Assign(w, l, a, now).d.inflight
      ensures Assign(w, l, a, now).d.inflight[h].peer == a
    {
      assert h in Elements(l.d.queue);
      AssignedPeer(w, l, a, now, h);
    }
  }

  /** Nothing is queued, and every block in flight was asked from `b`. */
  ghost predicate OnlyFrom(s: Sync, b: Addr) {
    s.synced && s.dl.d.queue == [] && AllFrom(s.dl.d.inflight, b)
  }

  /** A new peer takes all that is queued ... */
  lemma {:induction false} FirstTakesAll(cfg: Config, s: Sync, a: Addr, now: nat)
    requires s.synced && s.dl.d.inflight == map[] && CountOf(s.dl.d.perPeer, a) == 0
    requires |s.dl.d.queue| <= cfg.windows.perPeer && |Elements(s.dl.d.queue)| < cfg.windows.global
    ensures var s' := Step(cfg, s, PeerAdded(a, 0, now));
            && OnlyFrom(s', a) && s'.chain == s.chain && s'.dl.d.inflight.Keys == Elements(s.dl.d.queue)
            && CountOf(s'.dl.d.perPeer, a) == |s.dl.d.queue|
  {
    AssignAllFrom(cfg.windows, s.dl, a, now);
  }

  lemma {:induction false} KnownAll(c: Chain, hashes: seq<Hash>)
    requires Elements(hashes) <= c.have
    ensures Known(c, hashes) == hashes
  {
    if hashes != [] {
      var before, last := hashes[..|hashes| - 1], hashes[|hashes| - 1];
      assert hashes == before + [last];
      ElementsAppended(before, last);
      KnownAll(c, before);
    }
  }

  lemma {:induction false} TakenOver(w: Windows, l: Ledger, a: Addr, b: Addr, hs: seq<Hash>, now: nat)
    requires a != b && l.d.queue == [] && l.d.inflight.Keys == Elements(hs) && CountOf(l.d.perPeer, b) == 0
    requires |hs| <= w.perPeer && |Elements(hs)| < w.global
    ensures var l' := Assign(w, Push(l, hs), b, now);
            && l'.d.queue == [] && l'.d.inflight.Keys == Elements(hs)
              && CountOf(l'.d.perPeer, a) == CountOf(l.d.perPeer, a)
            && AllFrom(l'.d.inflight, b)
  {
    assert [] + hs == hs;
    AssignAllFrom(w, Push(l, hs), b, now);
    AssignTouchesOne(w, Push(l, hs), b, now, a);
  }

  /** ... a second peer joins, for which nothing is left ... */
  lemma {:induction false} SecondJoins(cfg: Config, s: Sync, b: Addr, now: nat)
    requires s.dl.d.queue == []
    ensures var s' := Step(cfg, s, PeerAdded(b, 0, now));
            s' == s.(bestKnown := s'.bestKnown)
  {
  }

  /** ... announces the same blocks, and takes all of them over ... */
  lemma {:induction false} SecondTakesOver(cfg: Config, s: Sync, a: Addr, b: Addr, hs: seq<Hash>, now: nat)
    requires a != b && OnlyFrom(s, a) && s.dl.d.inflight.Keys == Elements(hs) && CountOf(s.dl.d.perPeer, b) == 0
    requires Elements(hs) <= s.chain.have && |hs| <= cfg.windows.perPeer && |Elements(hs)| < cfg.windows.global
    ensures var s' := Step(cfg, s, InvReceived(b, hs, now));
            && OnlyFrom(s', b) && s'.chain == s.chain && s'.dl.d.inflight.Keys == Elements(hs)
            && CountOf(s'.dl.d.perPeer, a) == CountOf(s.dl.d.perPeer, a)
  {
    KnownAll(s.chain, hs);
    TakenOver(cfg.windows, s.dl, a, b, hs, now);
  }

  /** ... and delivers them: `s'` is `s` after `b` delivered some of what it was asked for. */
  ghost predicate Delivered(s: Sync, s': Sync, a: Addr, b: Addr, gone: set<Hash>) {
    && OnlyFrom(s', b) && s'.chain == s.chain && s'.dl.d.inflight == s.dl.d.inflight - gone
    && CountOf(s'.dl.d.perPeer, a) == CountOf(s.dl.d.perPeer, a)
  }

  lemma {:induction false} OneArrives(cfg: Config, s: Sync, a: Addr, b: Addr, h: Hash, now: nat)
    requires a != b && OnlyFrom(s, b)
    ensures Delivered(s, Step(cfg, s, BlockReceived(b, h, now)), a, b, {h})
  {
  }

  lemma DeliveredBoth(s: Sync, s1: Sync, s2: Sync, a: Addr, b: Addr, gone: set<Hash>, h: Hash)
    requires Delivered(s, s1, a, b, gone) && Delivered(s1, s2, a, b, {h})
    ensures Delivered(s, s2, a, b, gone + {h})
  {
    assert s.dl.d.inflight - gone - {h} == s.dl.d.inflight - (gone + {h});
  }

  lemma {:induction false} RunAppended(cfg: Config, s: Sync, events: seq<Event>, ev: Event)
    requires !ev.Ticked?
    ensures Run(cfg, s, events + [ev]) == Step(cfg, Run(cfg, s, events), ev)
    ensures LegalRun(cfg, s, events + [ev]) <==> LegalRun(cfg, s, events)
  {
    assert (events + [ev])[..|events|] == events;
  }

  /** After these events, `b` has delivered those blocks. */
  ghost predicate Delivers(cfg: Config, s: Sync, events: seq<Event>, a: Addr, b: Addr, gone: set<Hash>) {
    LegalRun(cfg, s, events) && Delivered(s, Run(cfg, s, events), a, b, gone)
  }

  lemma {:induction false} DeliversOneMore(cfg: Config, s: Sync, events: seq<Event>, a: Addr, b: Addr, gone: set<Hash>,
                                           h: Hash, now: nat)
    requires a != b && Delivers(cfg, s, events, a, b, gone)
    ensures Delivers(cfg, s, events + [BlockReceived(b, h, now)], a, b, gone + {h})
  {
    var s1 := Run(cfg, s, events);
    RunAppended(cfg, s, events, BlockReceived(b, h, now));
    OneArrives(cfg, s1, a, b, h, now);
    DeliveredBoth(s, s1, Step(cfg, s1, BlockReceived(b, h, now)), a, b, gone, h);
  }

  lemma {:induction false} DeliversNothing(cfg: Config, s: Sync, a: Addr, b: Addr)
    requires OnlyFrom(s, b)
    ensures Delivers(cfg, s, [], a, b, {})
  {
    assert s.dl.d.inflight - {} == s.dl.d.inflight;
  }

  lemma {:induction false} AllArrive(cfg: Config, s: Sync, a: Addr, b: Addr, hs: seq<Hash>, now: nat)
    returns (events: seq<Event>)
    requires a != b && OnlyFrom(s, b)
    ensures Delivers(cfg, s, events, a, b, Elements(hs))
  {
    if hs == [] {
      events := [];
      DeliversNothing(cfg, s, a, b);
      assert Elements(hs) == {};
    } else {
      var before, last := hs[..|hs| - 1], hs[|hs| - 1];
      var earlier := AllArrive(cfg, s, a, b, before, now);
      DeliversOneMore(cfg, s, earlier, a, b, Elements(before), last, now);
      events := earlier + [BlockReceived(b, last, now)];
      assert hs == before + [last];
      ElementsAppended(before, last);
    }
  }

  lemma {:induction false} RunOne(cfg: Config, first: Sync, ev: Event)
    requires !ev.Ticked?
    ensures Run(cfg, first, [ev]) == Step(cfg, first, ev) && LegalRun(cfg, first, [ev])
  {
    assert [ev][..0] == [];
  }

  /** A block that the first peer then announces stays in the queue: the peer is refused it. */
  lemma {:induction false} ThenRefused(cfg: Config, s: Sync, a: Addr, h: Hash, now: nat)
    requires s.synced && s.dl.d.queue == [] && h in s.chain.have && CountOf(s.dl.d.perPeer, a) == cfg.windows.perPeer
    ensures var s' := Step(cfg, s, InvReceived(a, [h], now));
            && s'.dl.d.queue == [h] && s'.dl.d.inflight == s.dl.d.inflight && !CanAssign(cfg.windows, s'.dl.d, a)
            && CountOf(s'.dl.d.perPeer, a) == cfg.windows.perPeer
  {
    ElementsSingle(h);
    KnownAll(s.chain, [h]);
    assert [] + [h] == [h];
  }

  /** With a peer's window full of planned blocks, a second peer that announces the same blocks and
      delivers them leaves the first with a full window and nothing in flight. It is then refused a block
      that it announces itself, although the whole download stands still. */
  lemma {:induction false} LosesWindow(cfg: Config, s: Sync, a: Addr, b: Addr, now: nat) returns (events: seq<Event>)
    requires s.synced && s.dl.d.inflight == map[] && CountOf(s.dl.d.perPeer, a) == CountOf(s.dl.d.perPeer, b) == 0
             && a != b
    requires Elements(s.dl.d.queue) <= s.chain.have
    requires 0 < |s.dl.d.queue| == cfg.windows.perPeer && |Elements(s.dl.d.queue)| < cfg.windows.global
    ensures LegalRun(cfg, s, events)
    ensures var d := Run(cfg, s, events).dl.d;
            d.inflight == map[] && d.queue != [] && !CanAssign(cfg.windows, d, a)
              && CountOf(d.perPeer, a) == cfg.windows.perPeer
  {
    var hs := s.dl.d.queue;
    var s1 := Step(cfg, s, PeerAdded(a, 0, now));
    FirstTakesAll(cfg, s, a, now);
    AssignTouchesOne(cfg.windows, s.dl, a, now, b);
    var joined := Step(cfg, s1, PeerAdded(b, 0, now));
    SecondJoins(cfg, s1, b, now);
    var s2 := Step(cfg, joined, InvReceived(b, hs, now));
    SecondTakesOver(cfg, joined, a, b, hs, now);
    var deliveries := AllArrive(cfg, s2, a, b, hs, now);
    var s3 := Run(cfg, s2, deliveries);
    assert s3.dl.d.inflight == map[];
    assert hs[0] in Elements(hs);
    ThenRefused(cfg, s3, a, hs[0], now);
    events := StringTogether(cfg, s, PeerAdded(a, 0, now), PeerAdded(b, 0, now), InvReceived(b, hs, now), deliveries,
                             InvReceived(a, [hs[0]], now));
  }

  lemma {:induction false} RunThree(cfg: Config, s: Sync, e1: Event, e2: Event, e3: Event)
    requires !e1.Ticked? && !e2.Ticked? && !e3.Ticked?
    ensures LegalRun(cfg, s, [e1] + [e2] + [e3])
    ensures Run(cfg, s, [e1] + [e2] + [e3]) == Step(cfg, Step(cfg, Step(cfg, s, e1), e2), e3)
  {
    RunOne(cfg, s, e1);
    RunAppended(cfg, s, [e1], e2);
    RunAppended(cfg, s, [e1] + [e2], e3);
  }

  lemma {:induction false} StringTogether(cfg: Config, s: Sync, e1: Event, e2: Event, e3: Event, es: seq<Event>,
                                          e4: Event)
    returns (events: seq<Event>)
    requires !e1.Ticked? && !e2.Ticked? && !e3.Ticked? && !e4.Ticked?
    requires LegalRun(cfg, Step(cfg, Step(cfg, Step(cfg, s, e1), e2), e3), es)
    ensures LegalRun(cfg, s, events)
    ensures Run(cfg, s, events) == Step(cfg, Run(cfg, Step(cfg, Step(cfg, Step(cfg, s, e1), e2), e3), es), e4)
  {
    var opening := [e1] + [e2] + [e3];
    RunThree(cfg, s, e1, e2, e3);
    RunConcat(cfg, s, opening, es);
    RunAppended(cfg, s, opening + es, e4);
    events := opening + es + [e4];
  }

  /** Nothing is in flight and work is queued, but this peer gets none. */
  ghost predicate Starved(cfg: Config, s: Sync, a: Addr) {
    s.dl.d.inflight == map[] && s.dl.d.queue != [] && !CanAssign(cfg.windows, s.dl.d, a)
  }

  /** The peer is refused work after any continuation. */
  ghost predicate RefusedForGood(cfg: Config, s: Sync, a: Addr) {
    forall later :: LegalRun(cfg, s, later) ==> !CanAssign(cfg.windows, Run(cfg, s, later).dl.d, a)
  }

  lemma {:induction false} FullWindowForGood(cfg: Config, s: Sync, a: Addr)
    requires SyncInv(cfg, s) && s.dl.d.inflight == map[] && CountOf(s.dl.d.perPeer, a) == cfg.windows.perPeer
    ensures RefusedForGood(cfg, s, a)
  {
    forall later | LegalRun(cfg, s, later)
      ensures !CanAssign(cfg.windows, Run(cfg, s, later).dl.d, a)
    {
      StarvedForGood(cfg, s, later, a);
    }
  }

  lemma {:induction false} QueuedAtStart(cfg: Config, file: seq<byte>)
    requires Loaded(file) != []
    ensures var s := Start(cfg, file);
            && s.synced && s.dl.d.inflight == map[] && s.dl.d.perPeer == map[] && s.dl.d.queue == Planned(cfg, s.chain)
            && s.chain == Rebuilt(cfg.hash, cfg.genesis, s.chain.headers) && s.chain.headers == Loaded(file)
  {
    var chain := Rebuilt(cfg.hash, cfg.genesis, Loaded(file));
    RebuiltViews(cfg.hash, cfg.genesis, Loaded(file));
    assert [] + Planned(cfg, chain) == Planned(cfg, chain);
  }

  lemma {:induction false} PlannedSize(cfg: Config, c: Chain)
    requires c == Rebuilt(cfg.hash, cfg.genesis, c.headers) && cfg.startHeight <= |c.headers|
    ensures |Planned(cfg, c)| == |c.headers| - cfg.startHeight
            && |Elements(Planned(cfg, c))| <= |c.headers| - cfg.startHeight
  {
    RebuiltViews(cfg.hash, cfg.genesis, c.headers);
    CountElements(Planned(cfg, c));
  }

  /** A node that starts with one window's worth of blocks to fetch is exposed to it: two peers suffice, and
      then the first is never given a block again, whatever happens afterwards. */
  lemma {:induction false} StartedNodeStarves(cfg: Config, file: seq<byte>, a: Addr, b: Addr, now: nat)
    returns (events: seq<Event>)
    requires a != b && 0 < cfg.windows.perPeer < cfg.windows.global
    requires |Loaded(file)| == cfg.startHeight + cfg.windows.perPeer
    ensures LegalRun(cfg, Start(cfg, file), events)
    ensures Starved(cfg, Run(cfg, Start(cfg, file), events), a)
            && RefusedForGood(cfg, Run(cfg, Start(cfg, file), events), a)
  {
    QueuedAtStart(cfg, file);
    PlannedSize(cfg, Start(cfg, file).chain);
    PlannedKnown(cfg, Start(cfg, file).chain);
    StartInv(cfg, file);
    events := LosesWindow(cfg, Start(cfg, file), a, b, now);
    HeadersFirst.RunInv(cfg, Start(cfg, file), events);
    FullWindowForGood(cfg, Run(cfg, Start(cfg, file), events), a);
  }
}
