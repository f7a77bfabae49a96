/** Which blocks the node plans to download, when it plans them, and which it never asks for
    (src/p2p/legacy.rs, check_headers_sync_complete and queue_blocks_from_headers). */
module DownloadPlan {
  import opened Headers
  import opened Lists
  import opened ChainParams
  import opened HeaderChain
  import opened Downloads
  import opened HeadersFirst

  // ---------------------------------------------------------------- what the plan is

  /** What one step does to the plan: nothing once the headers are in, and when they come in, the plan is
      the chain above the start height as it then is. */
  lemma {:induction false} StepPlan(cfg: Config, s: Sync, ev: Event)
    ensures s.synced ==> Step(cfg, s, ev).synced && Step(cfg, s, ev).plan == s.plan
    ensures !s.synced && Step(cfg, s, ev).synced ==> Step(cfg, s, ev).plan == Planned(cfg, Step(cfg, s, ev).chain)
  {
  }

  /** The state after the first `k` events of a run. */
  function Moment(cfg: Config, first: Sync, events: seq<Event>, k: nat): Sync
    requires k <= |events|
  {
    Run(cfg, first, events[..k])
  }

  lemma {:induction false} MomentStep(cfg: Config, first: Sync, events: seq<Event>, k: nat)
    requires k < |events|
    ensures Moment(cfg, first, events, k + 1) == Step(cfg, Moment(cfg, first, events, k), events[k])
  {
    assert events[..k + 1][..k] == events[..k];
  }

  /** The headers come in with event `k` of a run, or are in from the start if that is 0. */
  ghost predicate SyncedAt(cfg: Config, first: Sync, events: seq<Event>, k: nat) {
    && k <= |events| && Moment(cfg, first, events, k).synced
    && forall j :: 0 <= j < k ==> !Moment(cfg, first, events, j).synced
  }

  lemma {:induction false} FirstSynced(cfg: Config, first: Sync, events: seq<Event>, n: nat) returns (k: nat)
    requires n <= |events| && Moment(cfg, first, events, n).synced
    ensures k <= n && SyncedAt(cfg, first, events, k)
  {
    if j :| 0 <= j < n && Moment(cfg, first, events, j).synced {
      k := FirstSynced(cfg, first, events, j);
    } else {
      k := n;
    }
  }

  lemma {:induction false} PlanStays(cfg: Config, s: Sync, later: seq<Event>)
    requires s.synced
    ensures Run(cfg, s, later).synced && Run(cfg, s, later).plan == s.plan
  {
    if later != [] {
      PlanStays(cfg, s, later[..|later| - 1]);
      StepPlan(cfg, Run(cfg, s, later[..|later| - 1]), later[|later| - 1]);
    }
  }

  lemma {:induction false} PlanAtSync(cfg: Config, file: seq<byte>, events: seq<Event>, k: nat)
    requires SyncedAt(cfg, Start(cfg, file), events, k)
    ensures Moment(cfg, Start(cfg, file), events, k).plan
         == Planned(cfg, Moment(cfg, Start(cfg, file), events, k).chain)
  {
    var first := Start(cfg, file);
    if k == 0 {
      assert events[..0] == [];
    } else {
      assert !Moment(cfg, first, events, k - 1).synced;
      MomentStep(cfg, first, events, k - 1);
      StepPlan(cfg, Moment(cfg, first, events, k - 1), events[k - 1]);
    }
  }

  lemma {:induction false} RestOfRun(cfg: Config, first: Sync, events: seq<Event>, k: nat)
    requires k <= |events|
    ensures Run(cfg, first, events) == Run(cfg, Moment(cfg, first, events, k), events[k..])
  {
    RunConcat(cfg, first, events[..k], events[k..]);
    assert events == events[..k] + events[k..];
  }

  /** In every run that gets the headers in, from whatever the header file holds, there is one moment at
      which they come in, and from then on the plan is the chain above the start height as it was at that
      moment. Headers accepted later do not change it. */
  lemma {:induction false} PlanIsFixed(cfg: Config, file: seq<byte>, events: seq<Event>) returns (k: nat)
    requires Run(cfg, Start(cfg, file), events).synced
    ensures SyncedAt(cfg, Start(cfg, file), events, k)
    ensures Run(cfg, Start(cfg, file), events).plan == Planned(cfg, Moment(cfg, Start(cfg, file), events, k).chain)
  {
    assert events[..|events|] == events;
    k := FirstSynced(cfg, Start(cfg, file), events, |events|);
    RestOfRun(cfg, Start(cfg, file), events, k);
    PlanStays(cfg, Moment(cfg, Start(cfg, file), events, k), events[k..]);
    PlanAtSync(cfg, file, events, k);
  }

  // ---------------------------------------------------------------- the plan and the chain

  lemma {:induction false} ScanOnlyAppends(hash: HashFn, table: seq<Checkpoint>, c: Chain, tip: Hash,
                                           batch: seq<Header>, i: nat)
    requires i <= |batch|
    ensures c.recent <= ScanFrom(hash, table, c, tip, batch, i).chain.recent
    ensures c.have <= ScanFrom(hash, table, c, tip, batch, i).chain.have
    decreases |batch| - i
  {
    if i < |batch| {
      if hash(batch[i]) in c.have {
        ScanOnlyAppends(hash, table, c, hash(batch[i]), batch, i + 1);
      } else if !Rejects(hash, table, c.height, tip, batch[i]) {
        ScanOnlyAppends(hash, table, Appended(hash, c, batch[i]), hash(batch[i]), batch, i + 1);
      }
    }
  }

  lemma {:induction false} StepOnlyAppends(cfg: Config, s: Sync, ev: Event)
    ensures s.chain.recent <= Step(cfg, s, ev).chain.recent && s.chain.have <= Step(cfg, s, ev).chain.have
  {
    StepChain(cfg, s, ev);
    if ev.HeadersReceived? {
      ScanOnlyAppends(cfg.hash, cfg.checkpoints, s.chain, LastHash(s.chain), ev.batch, 0);
    }
  }

  lemma {:induction false} MomentsOnlyAppend(cfg: Config, first: Sync, events: seq<Event>, k: nat, n: nat)
    requires k <= n <= |events|
    ensures Moment(cfg, first, events, k).chain.recent <= Moment(cfg, first, events, n).chain.recent
  {
    if k < n {
      MomentsOnlyAppend(cfg, first, events, k, n - 1);
      MomentStep(cfg, first, events, n - 1);
      StepOnlyAppends(cfg, Moment(cfg, first, events, n - 1), events[n - 1]);
    }
  }

  lemma PlannedGrows(cfg: Config, c: Chain, c': Chain)
    requires c.recent <= c'.recent
    ensures Planned(cfg, c) <= Planned(cfg, c')
    ensures Planned(cfg, c) == Planned(cfg, c') <==> |c.recent| == |c'.recent| || |c'.recent| <= cfg.startHeight + 1
  {
    var skip := cfg.startHeight + 1;
    if skip <= |c.recent| {
      assert forall i :: 0 <= i < |c.recent| ==> c.recent[i] == c'.recent[i];
    }
  }

  lemma PrefixWithAll(a: seq<Hash>, b: seq<Hash>)
    requires a <= b && NoRepeats(b)
    ensures Elements(a) == Elements(b) <==> a == b
  {
    var rest := b[|a|..];
    assert b == a + rest;
    NoRepeatsConcat(a, rest);
    ElementsConcat(a, rest);
    if rest != [] {
      assert rest[0] in Elements(rest);
    } else {
      assert b == a;
    }
  }

  /** In a run without announcements every planned block is, at all times, queued, in flight or received,
      and in only one of the three; the progress counter counts the received ones; the total counts the
      plan once and each timeout once more; and nothing is left queued or in flight exactly when the whole
      plan has been received. */
  lemma {:induction false} PlanIsPartitioned(cfg: Config, batches: seq<seq<Header>>, fragment: seq<byte>,
                                             events: seq<Event>)
    requires |fragment| < RECORD
    requires LegalRun(cfg, Restart(cfg, batches, fragment), events) && NoAnnouncements(events)
    ensures var s := Run(cfg, Restart(cfg, batches, fragment), events);
            && Partitioned(s.dl, Elements(s.plan))
            && |Elements(s.plan)| == |s.plan| == |s.dl.d.queue| + |s.dl.d.inflight| + s.dl.d.downloaded
            && s.dl.d.total == |s.plan| + |s.dl.past.timedOut|
            && (s.dl.d.queue == [] && s.dl.d.inflight == map[] <==> Elements(s.dl.past.received) == Elements(s.plan))
  {
    var first := Restart(cfg, batches, fragment);
    var s := Run(cfg, first, events);
    RestartInv(cfg, batches, fragment);
    HeadersFirst.RunInv(cfg, first, events);
    RunOnPlan(cfg, first, events);
    PartitionCounts(cfg.windows, s.dl, Elements(s.plan));
    TotalExact(cfg.windows, s.dl);
    PlanDistinct(cfg, batches, fragment, events);
    CountElements(s.plan);
  }

  lemma {:induction false} PlanDistinct(cfg: Config, batches: seq<seq<Header>>, fragment: seq<byte>, events: seq<Event>)
    requires |fragment| < RECORD && LegalRun(cfg, Restart(cfg, batches, fragment), events)
    ensures NoRepeats(Run(cfg, Restart(cfg, batches, fragment), events).plan)
  {
    var first := Restart(cfg, batches, fragment);
    RestartInv(cfg, batches, fragment);
    HeadersFirst.RunInv(cfg, first, events);
    if Run(cfg, first, events).synced {
      var file := Log(RunBatches(cfg.hash, cfg.genesis, cfg.checkpoints, batches).headers) + fragment;
      var k := PlanIsFixed(cfg, file, events);
      RunChainSound(cfg, first, events[..k]);
      PlannedDistinct(cfg, Moment(cfg, first, events, k).chain);
    }
  }

  /** Exactly when the whole chain above the start height is being downloaded: in a run without
      announcements, once the headers are in, that range is queued, in flight or received if and only if it
      is the plan, that is, if and only if no header above the start height was accepted after event `k`,
      with which the headers came in. */
  lemma {:induction false} RangeIsCoveredIff(cfg: Config, batches: seq<seq<Header>>, fragment: seq<byte>,
                                             events: seq<Event>)
    returns (k: nat)
    requires |fragment| < RECORD
    requires LegalRun(cfg, Restart(cfg, batches, fragment), events) && NoAnnouncements(events)
    requires Run(cfg, Restart(cfg, batches, fragment), events).synced
    ensures SyncedAt(cfg, Restart(cfg, batches, fragment), events, k)
    ensures var s := Run(cfg, Restart(cfg, batches, fragment), events);
            var at := Moment(cfg, Restart(cfg, batches, fragment), events, k);
            && s.plan == Planned(cfg, at.chain)
            && (Elements(Planned(cfg, s.chain))
                == Elements(s.dl.d.queue) + s.dl.d.inflight.Keys + Elements(s.dl.past.received)
                <==> s.chain.height == at.chain.height || s.chain.height <= cfg.startHeight)
  {
    var first := Restart(cfg, batches, fragment);
    var s := Run(cfg, first, events);
    k := PlanIsFixed(cfg, Log(RunBatches(cfg.hash, cfg.genesis, cfg.checkpoints, batches).headers) + fragment, events);
    PlanIsPartitioned(cfg, batches, fragment, events);
    PlanIsCovered(s);
    MomentsSound(cfg, batches, fragment, events, k);
    PlannedCoversIff(cfg, Moment(cfg, first, events, k).chain, s.chain);
  }

  lemma PlanIsCovered(s: Sync)
    requires Partitioned(s.dl, Elements(s.plan))
    ensures Elements(s.plan) == Elements(s.dl.d.queue) + s.dl.d.inflight.Keys + Elements(s.dl.past.received)
  {
  }

  lemma {:induction false} SoundMoments(cfg: Config, first: Sync, events: seq<Event>, k: nat)
    requires ChainSound(cfg, first) && k <= |events|
    ensures ChainSound(cfg, Moment(cfg, first, events, k)) && ChainSound(cfg, Run(cfg, first, events))
    ensures Moment(cfg, first, events, k).chain.recent <= Run(cfg, first, events).chain.recent
  {
    RunChainSound(cfg, first, events);
    RunChainSound(cfg, first, events[..k]);
    assert events[..|events|] == events;
    MomentsOnlyAppend(cfg, first, events, k, |events|);
  }

  lemma {:induction false} MomentsSound(cfg: Config, batches: seq<seq<Header>>, fragment: seq<byte>,
                                        events: seq<Event>, k: nat)
    requires |fragment| < RECORD && k <= |events|
    ensures var first := Restart(cfg, batches, fragment);
            var c, c' := Moment(cfg, first, events, k).chain, Run(cfg, first, events).chain;
            && ChainInv(cfg.hash, cfg.genesis, cfg.checkpoints, c)
            && ChainInv(cfg.hash, cfg.genesis, cfg.checkpoints, c')
            && c.recent <= c'.recent
  {
    RestartInv(cfg, batches, fragment);
    SoundMoments(cfg, Restart(cfg, batches, fragment), events, k);
  }

  lemma PlannedCoversIff(cfg: Config, c: Chain, c': Chain)
    requires ChainInv(cfg.hash, cfg.genesis, cfg.checkpoints, c) && ChainInv(cfg.hash, cfg.genesis, cfg.checkpoints, c')
    requires c.recent <= c'.recent
    ensures Elements(Planned(cfg, c')) == Elements(Planned(cfg, c))
            <==> c'.height == c.height || c'.height <= cfg.startHeight
  {
    PlannedGrows(cfg, c, c');
    PlannedDistinct(cfg, c');
    PrefixWithAll(Planned(cfg, c), Planned(cfg, c'));
  }

  // ---------------------------------------------------------------- what is never asked for

  lemma {:induction false} TickQueuesNothingNew(cfg: Config, s: Sync, now: nat, order: seq<Hash>)
    requires SyncInv(cfg, s) && Elements(order) == Overdue(s.dl.d.inflight, now)
    ensures Elements(OnTick(s, now, order).dl.past.pushed) == Elements(s.dl.past.pushed)
  {
    ElementsConcat(s.dl.past.pushed, order);
    assert NothingLost(s.dl);
    assert Elements(order) <= s.dl.d.inflight.Keys;
  }

  lemma {:induction false} ServeQueuesNothing(cfg: Config, s: Sync, peer: Addr, now: nat)
    ensures Serve(cfg, s, peer, now).dl.past.pushed == s.dl.past.pushed
  {
    AssignKeepsPast(cfg.windows, s.dl, peer, now);
  }

  /** Once the headers are in, no event but an announcement queues a block that was not queued before. */
  lemma {:induction false} OnlyAnnouncementsQueue(cfg: Config, s: Sync, ev: Event)
    requires SyncInv(cfg, s) && s.synced && Legal(s, ev) && !ev.InvReceived?
    ensures Elements(Step(cfg, s, ev).dl.past.pushed) == Elements(s.dl.past.pushed)
  {
    match ev
    case PeerAdded(peer, height, now) =>
      ServeQueuesNothing(cfg, s.(bestKnown := if height > s.bestKnown then height else s.bestKnown), peer, now);
    case HeadersReceived(peer, batch, written, now) =>
      ServeQueuesNothing(cfg, CompleteSync(cfg, Extended(cfg, s, batch, written)), peer, now);
    case BlockReceived(peer, h, now) => ServeQueuesNothing(cfg, s.(dl := Complete(s.dl, h)), peer, now);
    case Ticked(now, order) => TickQueuesNothingNew(cfg, s, now, order);
  }

  lemma {:induction false} QueuedStays(cfg: Config, s: Sync, later: seq<Event>)
    requires SyncInv(cfg, s) && s.synced && LegalRun(cfg, s, later) && NoAnnouncements(later)
    ensures Elements(Run(cfg, s, later).dl.past.pushed) == Elements(s.dl.past.pushed) && Run(cfg, s, later).synced
  {
    if later != [] {
      var before, last := later[..|later| - 1], later[|later| - 1];
      QueuedStays(cfg, s, before);
      HeadersFirst.RunInv(cfg, s, before);
      OnlyAnnouncementsQueue(cfg, Run(cfg, s, before), last);
      StepPlan(cfg, Run(cfg, s, before), last);
    }
  }

  /** The block is not requested in any continuation without announcements. */
  ghost predicate NeverRequested(cfg: Config, s: Sync, h: Hash) {
    forall later :: LegalRun(cfg, s, later) && NoAnnouncements(later) ==>
      h !in Elements(Run(cfg, s, later).dl.past.handedOut)
  }

  lemma {:induction false} UnqueuedNeverRequested(cfg: Config, s: Sync, h: Hash)
    requires SyncInv(cfg, s) && s.synced && h !in Elements(s.dl.past.pushed)
    ensures NeverRequested(cfg, s, h)
  {
    forall later | LegalRun(cfg, s, later) && NoAnnouncements(later)
      ensures h !in Elements(Run(cfg, s, later).dl.past.handedOut)
    {
      QueuedStays(cfg, s, later);
      HeadersFirst.RunInv(cfg, s, later);
      var l := Run(cfg, s, later).dl;
      assert FirstInFirstOut(l);
      ElementsConcat(l.past.handedOut, l.d.queue);
    }
  }

  /** A block whose header is accepted after the headers are in is never requested, in any continuation,
      unless some peer announces it: a headers message queues nothing any more. */
  lemma {:induction false} LateHeaderNeverRequested(cfg: Config, s: Sync, ev: Event, h: Hash)
    requires SyncInv(cfg, s) && s.synced && Legal(s, ev) && ev.HeadersReceived?
    requires h in Step(cfg, s, ev).chain.have && h !in s.chain.have
    ensures NeverRequested(cfg, Step(cfg, s, ev), h)
  {
    StepInv(cfg, s, ev);
    StepPlan(cfg, s, ev);
    OnlyAnnouncementsQueue(cfg, s, ev);
    UnqueuedNeverRequested(cfg, Step(cfg, s, ev), h);
  }
}
