/** When the headers are in, and what every event of the loop does for the peer it comes from, told from the
    events alone (src/p2p/legacy.rs, event_loop and check_headers_sync_complete). */
module HeaderPhase {
  import opened Headers
  import opened Lists
  import opened HeaderChain
  import opened Downloads
  import opened HeadersFirst
  import opened DownloadPlan

  // ---------------------------------------------------------------- the best height that a peer reported

  /** The largest height among the peers added so far, 0 if none reported more. */
  function BestSeen(events: seq<Event>): int {
    if events == [] then 0
    else
      var before, last := BestSeen(events[..|events| - 1]), events[|events| - 1];
      if last.PeerAdded? && last.height > before then last.height else before
  }

  lemma {:induction false} BestSeenExact(events: seq<Event>)
    ensures BestSeen(events) >= 0
    ensures forall k :: 0 <= k < |events| && events[k].PeerAdded? ==> events[k].height <= BestSeen(events)
    ensures BestSeen(events) > 0 ==>
              exists k :: 0 <= k < |events| && events[k].PeerAdded? && events[k].height == BestSeen(events)
  {
    if events != [] {
      var before, last := events[..|events| - 1], events[|events| - 1];
      BestSeenExact(before);
      if BestSeen(events) > 0 {
        if last.PeerAdded? && last.height > BestSeen(before) {
          assert events[|events| - 1].height == BestSeen(events);
        } else {
          var k :| 0 <= k < |before| && before[k].PeerAdded? && before[k].height == BestSeen(before);
          assert events[k] == before[k];
        }
      }
    }
  }

  lemma {:induction false} BestKnownIsBestSeen(cfg: Config, file: seq<byte>, events: seq<Event>)
    ensures Run(cfg, Start(cfg, file), events).bestKnown == BestSeen(events)
  {
    if events != [] {
      BestKnownIsBestSeen(cfg, file, events[..|events| - 1]);
    }
  }

  // ---------------------------------------------------------------- when the headers are in

  lemma {:induction false} StepSynced(cfg: Config, s: Sync, ev: Event)
    ensures var s' := Step(cfg, s, ev);
            s'.synced <==> || s.synced
                           || (&& ev.HeadersReceived? && |ev.batch| != 2000 && s.bestKnown > 0
                               && s'.chain.height + 144 >= s.bestKnown)
  {
  }

  /** Event `k` is a headers message that is not full and leaves the chain within 144 of the best height that
      a peer had reported, if any had. */
  ghost predicate ClosesGap(cfg: Config, file: seq<byte>, events: seq<Event>, k: nat)
    requires k < |events|
  {
    && events[k].HeadersReceived? && |events[k].batch| != 2000
    && BestSeen(events[..k]) > 0
    && Run(cfg, Start(cfg, file), events[..k + 1]).chain.height + 144 >= BestSeen(events[..k])
  }

  lemma {:induction false} StartSynced(cfg: Config, file: seq<byte>)
    ensures Start(cfg, file).synced <==> |file| >= 80
  {
    StartsFromFile(cfg, file);
  }

  lemma {:induction false} SyncedByLast(cfg: Config, file: seq<byte>, events: seq<Event>)
    requires events != []
    ensures var n := |events| - 1;
            Run(cfg, Start(cfg, file), events).synced
            <==> Run(cfg, Start(cfg, file), events[..n]).synced || ClosesGap(cfg, file, events, n)
  {
    var n := |events| - 1;
    assert events[..n + 1] == events;
    BestKnownIsBestSeen(cfg, file, events[..n]);
    StepSynced(cfg, Run(cfg, Start(cfg, file), events[..n]), events[n]);
  }

  lemma {:induction false} GapsAgree(cfg: Config, file: seq<byte>, events: seq<Event>, n: nat, k: nat)
    requires k < n <= |events|
    ensures ClosesGap(cfg, file, events[..n], k) <==> ClosesGap(cfg, file, events, k)
  {
    assert events[..n][..k] == events[..k] && events[..n][..k + 1] == events[..k + 1];
  }

  ghost predicate SomeClosesGap(cfg: Config, file: seq<byte>, events: seq<Event>) {
    exists k :: 0 <= k < |events| && ClosesGap(cfg, file, events, k)
  }

  lemma {:induction false} SomeClosesGapStep(cfg: Config, file: seq<byte>, events: seq<Event>)
    requires events != []
    ensures var n := |events| - 1;
            SomeClosesGap(cfg, file, events)
            <==> SomeClosesGap(cfg, file, events[..n]) || ClosesGap(cfg, file, events, n)
  {
    var n := |events| - 1;
    forall k | 0 <= k < n
      ensures ClosesGap(cfg, file, events[..n], k) <==> ClosesGap(cfg, file, events, k)
    {
      GapsAgree(cfg, file, events, n, k);
    }
  }

  /** Exactly when the headers are in, after any run from any header file: if the file held a header, or if
      some event of the run closed the gap. */
  lemma {:induction false} SyncedIff(cfg: Config, file: seq<byte>, events: seq<Event>)
    ensures Run(cfg, Start(cfg, file), events).synced <==> |file| >= 80 || SomeClosesGap(cfg, file, events)
  {
    if events == [] {
      StartSynced(cfg, file);
    } else {
      SyncedIff(cfg, file, events[..|events| - 1]);
      SyncedByLast(cfg, file, events);
      SomeClosesGapStep(cfg, file, events);
    }
  }

  // ---------------------------------------------------------------- what is planned

  /** The plan, position by position: block `i` of it stands `i + 1` above the start height. */
  lemma {:induction false} PlannedExact(cfg: Config, c: Chain)
    requires |c.recent| > 0
    ensures |Planned(cfg, c)| == if |c.recent| > cfg.startHeight + 1 then |c.recent| - cfg.startHeight - 1 else 0
    ensures forall i :: 0 <= i < |Planned(cfg, c)| ==> Planned(cfg, c)[i] == c.recent[cfg.startHeight + 1 + i]
  {
  }

  /** Which blocks a run that gets the headers in plans: all above the start height, in chain order, as the
      chain is at the moment at which they come in. */
  lemma {:induction false} PlanIsRange(cfg: Config, file: seq<byte>, events: seq<Event>) returns (k: nat)
    requires Run(cfg, Start(cfg, file), events).synced
    ensures SyncedAt(cfg, Start(cfg, file), events, k)
    ensures var recent := Moment(cfg, Start(cfg, file), events, k).chain.recent;
            Run(cfg, Start(cfg, file), events).plan
            == if |recent| > cfg.startHeight + 1 then recent[cfg.startHeight + 1..] else []
  {
    k := PlanIsFixed(cfg, file, events);
  }

  // ---------------------------------------------------------------- what an announcement queues

  lemma {:induction false} KnownExact(c: Chain, hashes: seq<Hash>)
    ensures Elements(Known(c, hashes)) == Elements(hashes) * c.have
  {
    if hashes == [] {
      assert Elements(hashes) == {};
    } else {
      var before, last := hashes[..|hashes| - 1], hashes[|hashes| - 1];
      KnownExact(c, before);
      assert hashes == before + [last];
      ElementsAppended(before, last);
      if last in c.have {
        ElementsAppended(Known(c, before), last);
      } else {
        Reassociate<Hash>(Known(c, before), [], []);
      }
    }
  }

  /** The blocks are kept in the order in which they are announced. */
  lemma {:induction false} KnownConcat(c: Chain, a: seq<Hash>, b: seq<Hash>)
    ensures Known(c, a + b) == Known(c, a) + Known(c, b)
  {
    if b == [] {
      Reassociate<Hash>(a, [], []);
    } else {
      var front, last := b[..|b| - 1], b[|b| - 1];
      KnownConcat(c, a, front);
      AppendLast(a, b);
      assert (a + b)[..|a + b| - 1] == a + front;
      Reassociate(Known(c, a), Known(c, front), if last in c.have then [last] else []);
    }
  }

  /** Once the headers are in, an announcement queues exactly those of its blocks whose header is known; before
      that it does nothing. */
  lemma {:induction false} AnnouncementQueues(cfg: Config, s: Sync, peer: Addr, hashes: seq<Hash>, now: nat)
    ensures var s' := Step(cfg, s, InvReceived(peer, hashes, now));
            if s.synced then Elements(s'.dl.past.pushed) == Elements(s.dl.past.pushed) + Elements(hashes) * s.chain.have
            else s' == s
  {
    if s.synced {
      KnownExact(s.chain, hashes);
      ServeQueuesNothing(cfg, s.(dl := Push(s.dl, Known(s.chain, hashes))), peer, now);
      ElementsConcat(s.dl.past.pushed, Known(s.chain, hashes));
    }
  }

  // ---------------------------------------------------------------- every event serves its peer

  lemma {:induction false} ServeExhausts(cfg: Config, s: Sync, peer: Addr, now: nat)
    ensures var d := Serve(cfg, s, peer, now).dl.d;
            s.synced ==> || |d.inflight| >= cfg.windows.global || CountOf(d.perPeer, peer) >= cfg.windows.perPeer
                         || d.queue == []
  {
    AssignExhausts(cfg.windows, s.dl, peer, now);
  }

  /** No event leaves the peer it comes from without work that it could have: once the headers are in, after
      every message but a full headers message, one of the windows is full or nothing is queued. */
  lemma {:induction false} EveryEventServes(cfg: Config, s: Sync, ev: Event)
    requires !ev.Ticked? && !(ev.HeadersReceived? && |ev.batch| == 2000)
    ensures var s' := Step(cfg, s, ev);
            s'.synced ==> || |s'.dl.d.inflight| >= cfg.windows.global
                          || CountOf(s'.dl.d.perPeer, ev.peer) >= cfg.windows.perPeer
                          || s'.dl.d.queue == []
  {
    match ev
    case PeerAdded(peer, height, now) =>
      ServeExhausts(cfg, s.(bestKnown := if height > s.bestKnown then height else s.bestKnown), peer, now);
    case HeadersReceived(peer, batch, written, now) =>
      ServeExhausts(cfg, CompleteSync(cfg, Extended(cfg, s, batch, written)), peer, now);
    case InvReceived(peer, hashes, now) =>
      ServeExhausts(cfg, s.(dl := Push(s.dl, Known(s.chain, hashes))), peer, now);
    case BlockReceived(peer, h, now) => ServeExhausts(cfg, s.(dl := Complete(s.dl, h)), peer, now);
  }
}
