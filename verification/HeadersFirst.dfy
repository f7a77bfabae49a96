/** The headers-first event loop of src/p2p/legacy.rs as a step relation over whole states: which
    events there are, what each does, and what holds after every run. */
module HeadersFirst {
  import opened Headers
  import opened Lists
  import opened ChainParams
  import opened HeaderChain
  import opened HeaderLog
  import opened Downloads

  const MAX_HEADERS_PER_MSG: nat := 2000
  const HEADER_SYNC_THRESHOLD: nat := 144

  datatype Config = Config(hash: HashFn, genesis: Hash, checkpoints: seq<Checkpoint>, startHeight: nat,
                           windows: Windows)

  /** `plan` remembers which blocks were queued when the header sync completed; `file` is the header file. */
  datatype Sync = Sync(chain: Chain, synced: bool, bestKnown: int, dl: Ledger, plan: seq<Hash>, file: seq<byte>)

  /** `written` says how many bytes of each record of a batch reach the header file, should it be accepted. */
  datatype Event =
    | PeerAdded(peer: Addr, height: int, now: nat)
    | HeadersReceived(peer: Addr, batch: seq<Header>, written: seq<nat>, now: nat)
    | InvReceived(peer: Addr, hashes: seq<Hash>, now: nat)
    | BlockReceived(peer: Addr, hash: Hash, now: nat)
    | Ticked(now: nat, order: seq<Hash>)

  /** The blocks above the height we already have. */
  function Planned(cfg: Config, c: Chain): seq<Hash> {
    if cfg.startHeight + 1 <= |c.recent| then c.recent[cfg.startHeight + 1..] else []
  }

  function Known(c: Chain, hashes: seq<Hash>): seq<Hash> {
    if hashes == [] then []
    else Known(c, hashes[..|hashes| - 1]) + (if hashes[|hashes| - 1] in c.have then [hashes[|hashes| - 1]] else [])
  }

  function CompleteSync(cfg: Config, s: Sync): Sync {
    if !s.synced && s.bestKnown > 0 && s.chain.height >= s.bestKnown - HEADER_SYNC_THRESHOLD then
      s.(synced := true, dl := Push(s.dl, Planned(cfg, s.chain)), plan := Planned(cfg, s.chain))
    else s
  }

  function Serve(cfg: Config, s: Sync, peer: Addr, now: nat): Sync {
    if s.synced then s.(dl := Assign(cfg.windows, s.dl, peer, now)) else s
  }

  function OnPeer(cfg: Config, s: Sync, peer: Addr, height: int, now: nat): Sync {
    Serve(cfg, s.(bestKnown := if height > s.bestKnown then height else s.bestKnown), peer, now)
  }

  function Extended(cfg: Config, s: Sync, batch: seq<Header>, written: seq<nat>): Sync {
    s.(chain := Extend(cfg.hash, cfg.checkpoints, s.chain, batch).chain,
       file := ExtendFile(cfg.hash, cfg.checkpoints, s.chain, batch, written, s.file))
  }

  /** A full message is followed by a request for more headers; only a shorter one can complete the
      sync, and an empty one says that there are no more. */
  function OnHeaders(cfg: Config, s: Sync, peer: Addr, batch: seq<Header>, written: seq<nat>, now: nat): Sync {
    if |batch| == MAX_HEADERS_PER_MSG then Extended(cfg, s, batch, written)
    else Serve(cfg, CompleteSync(cfg, Extended(cfg, s, batch, written)), peer, now)
  }

  function OnInv(cfg: Config, s: Sync, peer: Addr, hashes: seq<Hash>, now: nat): Sync {
    if s.synced then Serve(cfg, s.(dl := Push(s.dl, Known(s.chain, hashes))), peer, now) else s
  }

  function OnBlock(cfg: Config, s: Sync, peer: Addr, h: Hash, now: nat): Sync {
    if s.synced then Serve(cfg, s.(dl := Complete(s.dl, h)), peer, now) else s
  }

  function OnTick(s: Sync, now: nat, order: seq<Hash>): Sync {
    s.(dl := Requeue(s.dl, now, order))
  }

  function Step(cfg: Config, s: Sync, ev: Event): Sync {
    match ev
    case PeerAdded(peer, height, now) => OnPeer(cfg, s, peer, height, now)
    case HeadersReceived(peer, batch, written, now) => OnHeaders(cfg, s, peer, batch, written, now)
    case InvReceived(peer, hashes, now) => OnInv(cfg, s, peer, hashes, now)
    case BlockReceived(peer, h, now) => OnBlock(cfg, s, peer, h, now)
    case Ticked(now, order) => OnTick(s, now, order)
  }

  /** Start-up from the header file: with any header in it, the blocks above the start height are
      queued at once. */
  function Start(cfg: Config, file: seq<byte>): Sync {
    var chain := Rebuilt(cfg.hash, cfg.genesis, Loaded(file));
    if chain.headers == [] then Sync(chain, false, 0, Ledger(EMPTY, NOTHING), [], file)
    else Sync(chain, true, 0, Push(Ledger(EMPTY, NOTHING), Planned(cfg, chain)), Planned(cfg, chain), file)
  }

  /** A tick lists the overdue requests, each once, in any order. */
  predicate Legal(s: Sync, ev: Event) {
    ev.Ticked? ==> NoRepeats(ev.order) && Elements(ev.order) == Overdue(s.dl.d.inflight, ev.now)
  }

  // ---------------------------------------------------------------- the invariant

  /** The chain is what its headers build, the scheduler is sound, nothing is queued before the headers
      are in, and only blocks whose header is known are ever queued. None of this takes a sound file. */
  ghost predicate SyncInv(cfg: Config, s: Sync) {
    && s.chain == Rebuilt(cfg.hash, cfg.genesis, s.chain.headers)
    && LedgerInv(cfg.windows, s.dl) && Conserved(s.dl)
    && (!s.synced ==> s.dl == Ledger(EMPTY, NOTHING) && s.plan == [])
    && Elements(s.dl.past.pushed) <= s.chain.have
  }

  lemma {:induction false} PlannedKnown(cfg: Config, c: Chain)
    requires c == Rebuilt(cfg.hash, cfg.genesis, c.headers)
    ensures Elements(Planned(cfg, c)) <= c.have
  {
    var skip := cfg.startHeight + 1;
    RebuiltViews(cfg.hash, cfg.genesis, c.headers);
    if skip <= |c.recent| {
      assert c.recent == c.recent[..skip] + c.recent[skip..];
      ElementsConcat(c.recent[..skip], c.recent[skip..]);
    }
  }

  lemma {:induction false} PlannedDistinct(cfg: Config, c: Chain)
    requires ChainInv(cfg.hash, cfg.genesis, cfg.checkpoints, c)
    ensures NoRepeats(Planned(cfg, c))
  {
    var skip := cfg.startHeight + 1;
    if skip <= |c.recent| {
      assert c.recent == c.recent[..skip] + c.recent[skip..];
      NoRepeatsConcat(c.recent[..skip], c.recent[skip..]);
    }
  }

  lemma {:induction false} KnownInHave(c: Chain, hashes: seq<Hash>)
    ensures Elements(Known(c, hashes)) <= c.have
  {
    if hashes != [] {
      var before, last := hashes[..|hashes| - 1], hashes[|hashes| - 1];
      KnownInHave(c, before);
      ElementsAppended(Known(c, before), last);
      assert Known(c, before) + [] == Known(c, before);
    }
  }

  /** Nothing has happened yet but that the chain was built. */
  lemma {:induction false} IdleInv(cfg: Config, s: Sync)
    requires s.chain == Rebuilt(cfg.hash, cfg.genesis, s.chain.headers)
    requires s.dl == Ledger(EMPTY, NOTHING) && s.plan == []
    ensures SyncInv(cfg, s)
  {
    EmptyInv(cfg.windows);
    assert Elements<Hash>([]) == {};
  }

  lemma {:induction false} PlanQueuedInv(cfg: Config, s: Sync)
    requires SyncInv(cfg, s)
    ensures SyncInv(cfg, s.(synced := true, dl := Push(s.dl, Planned(cfg, s.chain)), plan := Planned(cfg, s.chain)))
  {
    PushInv(cfg.windows, s.dl, Planned(cfg, s.chain));
    PlannedKnown(cfg, s.chain);
    ElementsConcat(s.dl.past.pushed, Planned(cfg, s.chain));
  }

  lemma {:induction false} StartInv(cfg: Config, file: seq<byte>)
    ensures SyncInv(cfg, Start(cfg, file))
  {
    var chain := Rebuilt(cfg.hash, cfg.genesis, Loaded(file));
    var idle := Sync(chain, false, 0, Ledger(EMPTY, NOTHING), [], file);
    RebuiltViews(cfg.hash, cfg.genesis, Loaded(file));
    IdleInv(cfg, idle);
    if chain.headers != [] {
      PlanQueuedInv(cfg, idle);
      assert Start(cfg, file) == idle.(synced := true, dl := Push(idle.dl, Planned(cfg, chain)),
                                       plan := Planned(cfg, chain));
    }
  }

  lemma {:induction false} CompleteSyncInv(cfg: Config, s: Sync)
    requires SyncInv(cfg, s)
    ensures SyncInv(cfg, CompleteSync(cfg, s))
  {
    PlanQueuedInv(cfg, s);
  }

  lemma {:induction false} ServeInv(cfg: Config, s: Sync, peer: Addr, now: nat)
    requires SyncInv(cfg, s)
    ensures SyncInv(cfg, Serve(cfg, s, peer, now))
  {
    AssignInv(cfg.windows, s.dl, peer, now);
    AssignConserves(cfg.windows, s.dl, peer, now);
    AssignKeepsPast(cfg.windows, s.dl, peer, now);
  }

  lemma {:induction false} ExtendedInv(cfg: Config, s: Sync, batch: seq<Header>, written: seq<nat>)
    requires SyncInv(cfg, s)
    ensures SyncInv(cfg, Extended(cfg, s, batch, written))
  {
    ScanRebuilds(cfg.hash, cfg.genesis, cfg.checkpoints, s.chain, LastHash(s.chain), batch, 0);
    ScanStops(cfg.hash, cfg.checkpoints, s.chain, LastHash(s.chain), batch, 0);
  }

  lemma {:induction false} OnHeadersInv(cfg: Config, s: Sync, peer: Addr, batch: seq<Header>, written: seq<nat>,
                                        now: nat)
    requires SyncInv(cfg, s)
    ensures SyncInv(cfg, OnHeaders(cfg, s, peer, batch, written, now))
  {
    ExtendedInv(cfg, s, batch, written);
    if |batch| != MAX_HEADERS_PER_MSG {
      CompleteSyncInv(cfg, Extended(cfg, s, batch, written));
      ServeInv(cfg, CompleteSync(cfg, Extended(cfg, s, batch, written)), peer, now);
    }
  }

  lemma {:induction false} OnPeerInv(cfg: Config, s: Sync, peer: Addr, height: int, now: nat)
    requires SyncInv(cfg, s)
    ensures SyncInv(cfg, OnPeer(cfg, s, peer, height, now))
  {
    ServeInv(cfg, s.(bestKnown := if height > s.bestKnown then height else s.bestKnown), peer, now);
  }

  lemma {:induction false} OnInvInv(cfg: Config, s: Sync, peer: Addr, hashes: seq<Hash>, now: nat)
    requires SyncInv(cfg, s)
    ensures SyncInv(cfg, OnInv(cfg, s, peer, hashes, now))
  {
    if s.synced {
      PushInv(cfg.windows, s.dl, Known(s.chain, hashes));
      KnownInHave(s.chain, hashes);
      ElementsConcat(s.dl.past.pushed, Known(s.chain, hashes));
      ServeInv(cfg, s.(dl := Push(s.dl, Known(s.chain, hashes))), peer, now);
    }
  }

  lemma {:induction false} OnBlockInv(cfg: Config, s: Sync, peer: Addr, h: Hash, now: nat)
    requires SyncInv(cfg, s)
    ensures SyncInv(cfg, OnBlock(cfg, s, peer, h, now))
  {
    if s.synced {
      CompleteInv(cfg.windows, s.dl, h);
      CompleteConserves(s.dl, h);
      ServeInv(cfg, s.(dl := Complete(s.dl, h)), peer, now);
    }
  }

  lemma {:induction false} OnTickInv(cfg: Config, s: Sync, now: nat, order: seq<Hash>)
    requires SyncInv(cfg, s) && NoRepeats(order) && Elements(order) == Overdue(s.dl.d.inflight, now)
    ensures SyncInv(cfg, OnTick(s, now, order))
  {
    RequeueInv(cfg.windows, s.dl, now, order);
    RequeueConserves(s.dl, now, order);
    ElementsConcat(s.dl.past.pushed, order);
    if !s.synced {
      RequeueNothing(s.dl, now, order);
    }
  }

  lemma {:induction false} RequeueNothing(l: Ledger, now: nat, order: seq<Hash>)
    requires l == Ledger(EMPTY, NOTHING) && Elements(order) == Overdue(l.d.inflight, now)
    ensures Requeue(l, now, order) == l
  {
    assert Overdue(l.d.inflight, now) == {};
    if order != [] {
      ElementsStep(order);
    }
    assert TimedOut(EMPTY, now) == EMPTY;
  }

  /** Every step keeps the invariant. */
  lemma {:induction false} StepInv(cfg: Config, s: Sync, ev: Event)
    requires SyncInv(cfg, s) && Legal(s, ev)
    ensures SyncInv(cfg, Step(cfg, s, ev))
  {
    match ev
    case PeerAdded(peer, height, now) =>
      OnPeerInv(cfg, s, peer, height, now);
      assert Step(cfg, s, ev) == OnPeer(cfg, s, peer, height, now);
    case HeadersReceived(peer, batch, written, now) =>
      OnHeadersInv(cfg, s, peer, batch, written, now);
      assert Step(cfg, s, ev) == OnHeaders(cfg, s, peer, batch, written, now);
    case InvReceived(peer, hashes, now) =>
      OnInvInv(cfg, s, peer, hashes, now);
      assert Step(cfg, s, ev) == OnInv(cfg, s, peer, hashes, now);
    case BlockReceived(peer, h, now) =>
      OnBlockInv(cfg, s, peer, h, now);
      assert Step(cfg, s, ev) == OnBlock(cfg, s, peer, h, now);
    case Ticked(now, order) =>
      OnTickInv(cfg, s, now, order);
      assert Step(cfg, s, ev) == OnTick(s, now, order);
  }

  // ---------------------------------------------------------------- runs

  /** The state after a run of events. */
  function Run(cfg: Config, first: Sync, events: seq<Event>): Sync {
    if events == [] then first
    else Step(cfg, Run(cfg, first, events[..|events| - 1]), events[|events| - 1])
  }

  predicate LegalRun(cfg: Config, first: Sync, events: seq<Event>) {
    events != [] ==>
      && LegalRun(cfg, first, events[..|events| - 1])
      && Legal(Run(cfg, first, events[..|events| - 1]), events[|events| - 1])
  }

  lemma {:induction false} RunConcat(cfg: Config, first: Sync, e: seq<Event>, f: seq<Event>)
    ensures Run(cfg, first, e + f) == Run(cfg, Run(cfg, first, e), f)
    ensures LegalRun(cfg, first, e) && LegalRun(cfg, Run(cfg, first, e), f) ==> LegalRun(cfg, first, e + f)
  {
    if f == [] {
      assert e + f == e;
    } else {
      var n := |f| - 1;
      RunConcat(cfg, first, e, f[..n]);
      AppendLast(e, f);
      assert (e + f)[..|e| + n] == e + f[..n];
    }
  }

  /** Every run keeps the invariant. */
  lemma {:induction false} RunInv(cfg: Config, first: Sync, events: seq<Event>)
    requires SyncInv(cfg, first) && LegalRun(cfg, first, events)
    ensures SyncInv(cfg, Run(cfg, first, events))
  {
    if events != [] {
      RunInv(cfg, first, events[..|events| - 1]);
      StepInv(cfg, Run(cfg, first, events[..|events| - 1]), events[|events| - 1]);
    }
  }

  /** After every run, from whatever the header file holds at the start: only blocks with a known header
      have been requested; both windows hold, also for the requests really in flight; no block is lost
      and blocks are handed out in the order they were queued; the progress never exceeds the total; and
      before the headers are in, nothing is requested at all. */
  lemma {:induction false} RequestsAreSafe(cfg: Config, file: seq<byte>, events: seq<Event>, a: Addr)
    requires LegalRun(cfg, Start(cfg, file), events)
    ensures var s := Run(cfg, Start(cfg, file), events);
            && Elements(s.dl.past.handedOut) <= s.chain.have && s.dl.d.inflight.Keys <= s.chain.have
            && |s.dl.d.inflight| <= cfg.windows.global
            && |FromPeer(s.dl.d.inflight, a)| <= CountOf(s.dl.d.perPeer, a) <= cfg.windows.perPeer
            && (!s.synced ==> s.dl.past.handedOut == [])
            && NothingLost(s.dl) && FirstInFirstOut(s.dl) && s.dl.d.downloaded <= s.dl.d.total
  {
    StartInv(cfg, file);
    RunInv(cfg, Start(cfg, file), events);
    var s := Run(cfg, Start(cfg, file), events);
    ElementsConcat(s.dl.past.handedOut, s.dl.d.queue);
    RecordExactIff(cfg.windows, s.dl, a);
    TotalExact(cfg.windows, s.dl);
  }

  // ---------------------------------------------------------------- starts from an intact log

  ghost predicate ChainSound(cfg: Config, s: Sync) {
    ChainInv(cfg.hash, cfg.genesis, cfg.checkpoints, s.chain)
  }

  lemma {:induction false} StepChainSound(cfg: Config, s: Sync, ev: Event)
    requires ChainSound(cfg, s)
    ensures ChainSound(cfg, Step(cfg, s, ev))
  {
    StepChain(cfg, s, ev);
    if ev.HeadersReceived? {
      ExtendInv(cfg.hash, cfg.genesis, cfg.checkpoints, s.chain, ev.batch);
    }
  }

  /** From a sound chain, every run keeps the header tree: views in agreement, no repeats, parents first,
      checkpoints matched. */
  lemma {:induction false} RunChainSound(cfg: Config, first: Sync, events: seq<Event>)
    requires ChainSound(cfg, first)
    ensures ChainSound(cfg, Run(cfg, first, events))
  {
    if events != [] {
      RunChainSound(cfg, first, events[..|events| - 1]);
      StepChainSound(cfg, Run(cfg, first, events[..|events| - 1]), events[|events| - 1]);
    }
  }

  /** A start from what an earlier run of header batches left on disk. */
  function Restart(cfg: Config, batches: seq<seq<Header>>, fragment: seq<byte>): Sync {
    Start(cfg, Log(RunBatches(cfg.hash, cfg.genesis, cfg.checkpoints, batches).headers) + fragment)
  }

  lemma {:induction false} RestartInv(cfg: Config, batches: seq<seq<Header>>, fragment: seq<byte>)
    requires |fragment| < RECORD
    ensures SyncInv(cfg, Restart(cfg, batches, fragment)) && ChainSound(cfg, Restart(cfg, batches, fragment))
    ensures OnPlan(Restart(cfg, batches, fragment))
  {
    var c := RunBatches(cfg.hash, cfg.genesis, cfg.checkpoints, batches);
    ReloadRestores(cfg.hash, cfg.genesis, cfg.checkpoints, batches, fragment);
    HeaderChain.RunInv(cfg.hash, cfg.genesis, cfg.checkpoints, batches);
    StartInv(cfg, Log(c.headers) + fragment);
    StartOnPlan(cfg, Log(c.headers) + fragment);
  }

  // ---------------------------------------------------------------- runs without announcements

  ghost predicate OnPlan(s: Sync) {
    Partitioned(s.dl, Elements(s.plan))
  }

  lemma {:induction false} StartOnPlan(cfg: Config, file: seq<byte>)
    requires ChainInv(cfg.hash, cfg.genesis, cfg.checkpoints, Rebuilt(cfg.hash, cfg.genesis, Loaded(file)))
    ensures OnPlan(Start(cfg, file))
  {
    var chain := Rebuilt(cfg.hash, cfg.genesis, Loaded(file));
    PlannedDistinct(cfg, chain);
    PlanPartitioned(Ledger(EMPTY, NOTHING), Planned(cfg, chain));
    NothingPartitioned();
  }

  lemma {:induction false} NothingPartitioned()
    ensures Partitioned(Ledger(EMPTY, NOTHING), Elements<Hash>([]))
  {
  }

  lemma {:induction false} ServeOnPlan(cfg: Config, s: Sync, peer: Addr, now: nat)
    requires OnPlan(s)
    ensures OnPlan(Serve(cfg, s, peer, now))
  {
    AssignPartitioned(cfg.windows, s.dl, Elements(s.plan), peer, now);
  }

  lemma {:induction false} CompleteSyncOnPlan(cfg: Config, s: Sync)
    requires SyncInv(cfg, s) && ChainSound(cfg, s) && OnPlan(s)
    ensures OnPlan(CompleteSync(cfg, s))
  {
    if !s.synced {
      PlannedDistinct(cfg, s.chain);
      PlanPartitioned(s.dl, Planned(cfg, s.chain));
    }
  }

  lemma {:induction false} OnHeadersOnPlan(cfg: Config, s: Sync, peer: Addr, batch: seq<Header>, written: seq<nat>,
                                           now: nat)
    requires SyncInv(cfg, s) && ChainSound(cfg, s) && OnPlan(s)
    ensures OnPlan(OnHeaders(cfg, s, peer, batch, written, now))
  {
    ExtendedInv(cfg, s, batch, written);
    ExtendInv(cfg.hash, cfg.genesis, cfg.checkpoints, s.chain, batch);
    CompleteSyncOnPlan(cfg, Extended(cfg, s, batch, written));
    ServeOnPlan(cfg, CompleteSync(cfg, Extended(cfg, s, batch, written)), peer, now);
  }

  lemma {:induction false} OnBlockOnPlan(cfg: Config, s: Sync, peer: Addr, h: Hash, now: nat)
    requires OnPlan(s)
    ensures OnPlan(OnBlock(cfg, s, peer, h, now))
  {
    if s.synced {
      CompletePartitioned(s.dl, Elements(s.plan), h);
      ServeOnPlan(cfg, s.(dl := Complete(s.dl, h)), peer, now);
    }
  }

  lemma {:induction false} OnPeerOnPlan(cfg: Config, s: Sync, peer: Addr, height: int, now: nat)
    requires OnPlan(s)
    ensures OnPlan(OnPeer(cfg, s, peer, height, now))
  {
    ServeOnPlan(cfg, s.(bestKnown := if height > s.bestKnown then height else s.bestKnown), peer, now);
  }

  lemma {:induction false} OnTickOnPlan(s: Sync, now: nat, order: seq<Hash>)
    requires OnPlan(s) && NoRepeats(order) && Elements(order) == Overdue(s.dl.d.inflight, now)
    ensures OnPlan(OnTick(s, now, order))
  {
    RequeuePartitioned(s.dl, Elements(s.plan), now, order);
  }

  lemma {:induction false} QuietStepOnPlan(cfg: Config, s: Sync, ev: Event)
    requires Legal(s, ev) && OnPlan(s) && !ev.InvReceived? && !ev.HeadersReceived?
    ensures OnPlan(Step(cfg, s, ev))
  {
    match ev
    case PeerAdded(peer, height, now) => OnPeerOnPlan(cfg, s, peer, height, now);
    case BlockReceived(peer, h, now) => OnBlockOnPlan(cfg, s, peer, h, now);
    case Ticked(now, order) => OnTickOnPlan(s, now, order);
  }

  /** Every step but an announcement keeps each planned block in exactly one place. */
  lemma {:induction false} StepOnPlan(cfg: Config, s: Sync, ev: Event)
    requires SyncInv(cfg, s) && ChainSound(cfg, s) && Legal(s, ev) && OnPlan(s) && !ev.InvReceived?
    ensures OnPlan(Step(cfg, s, ev))
  {
    if ev.HeadersReceived? {
      OnHeadersOnPlan(cfg, s, ev.peer, ev.batch, ev.written, ev.now);
      assert Step(cfg, s, ev) == OnHeaders(cfg, s, ev.peer, ev.batch, ev.written, ev.now);
    } else {
      QuietStepOnPlan(cfg, s, ev);
    }
  }

  predicate NoAnnouncements(events: seq<Event>) {
    forall i :: 0 <= i < |events| ==> !events[i].InvReceived?
  }

  lemma {:induction false} RunOnPlan(cfg: Config, first: Sync, events: seq<Event>)
    requires SyncInv(cfg, first) && ChainSound(cfg, first) && OnPlan(first)
    requires LegalRun(cfg, first, events) && NoAnnouncements(events)
    ensures OnPlan(Run(cfg, first, events))
  {
    if events != [] {
      RunOnPlan(cfg, first, events[..|events| - 1]);
      RunInv(cfg, first, events[..|events| - 1]);
      RunChainSound(cfg, first, events[..|events| - 1]);
      StepOnPlan(cfg, Run(cfg, first, events[..|events| - 1]), events[|events| - 1]);
    }
  }

  // ---------------------------------------------------------------- stopping and starting again

  /** The header batches among the events of a run. */
  function BatchesIn(events: seq<Event>): seq<seq<Header>> {
    if events == [] then []
    else BatchesIn(events[..|events| - 1]) + BatchOf(events[|events| - 1])
  }

  function BatchOf(ev: Event): seq<seq<Header>> {
    if ev.HeadersReceived? then [ev.batch] else []
  }

  lemma {:induction false} StepChain(cfg: Config, s: Sync, ev: Event)
    ensures Step(cfg, s, ev).chain
            == if ev.HeadersReceived? then Extend(cfg.hash, cfg.checkpoints, s.chain, ev.batch).chain else s.chain
  {
  }

  lemma {:induction false} RunBatchesNext(cfg: Config, batches: seq<seq<Header>>, batch: seq<Header>)
    ensures RunBatches(cfg.hash, cfg.genesis, cfg.checkpoints, batches + [batch])
         == Extend(cfg.hash, cfg.checkpoints, RunBatches(cfg.hash, cfg.genesis, cfg.checkpoints, batches), batch).chain
  {
    assert (batches + [batch])[..|batches|] == batches;
  }

  /** The header chain after any run is the one that all its batches, with those of earlier runs,
      build from genesis; no other event has any part in it. */
  lemma {:induction false} RunChain(cfg: Config, batches: seq<seq<Header>>, fragment: seq<byte>, events: seq<Event>)
    requires |fragment| < RECORD
    ensures Run(cfg, Restart(cfg, batches, fragment), events).chain
         == RunBatches(cfg.hash, cfg.genesis, cfg.checkpoints, batches + BatchesIn(events))
  {
    if events == [] {
      ReloadRestores(cfg.hash, cfg.genesis, cfg.checkpoints, batches, fragment);
      assert batches + [] == batches;
    } else {
      var before, last := events[..|events| - 1], events[|events| - 1];
      RunChain(cfg, batches, fragment, before);
      StepChain(cfg, Run(cfg, Restart(cfg, batches, fragment), before), last);
      if last.HeadersReceived? {
        assert batches + BatchesIn(events) == batches + BatchesIn(before) + [last.batch];
        RunBatchesNext(cfg, batches + BatchesIn(before), last.batch);
      } else {
        assert BatchesIn(events) == BatchesIn(before);
      }
    }
  }

  // ---------------------------------------------------------------- the header file over a run

  /** How much of each header accepted during a run was written. */
  function RunCounts(cfg: Config, first: Sync, events: seq<Event>): seq<nat> {
    if events == [] then []
    else RunCounts(cfg, first, events[..|events| - 1])
         + StepCounts(cfg, Run(cfg, first, events[..|events| - 1]), events[|events| - 1])
  }

  function StepCounts(cfg: Config, s: Sync, ev: Event): seq<nat> {
    if ev.HeadersReceived? then ExtendCounts(cfg.hash, cfg.checkpoints, s.chain, ev.batch, ev.written) else []
  }

  lemma {:induction false} StepStores(cfg: Config, s: Sync, ev: Event)
    ensures Stored(s.chain, Step(cfg, s, ev).chain, StepCounts(cfg, s, ev), s.file, Step(cfg, s, ev).file)
  {
    if ev.HeadersReceived? {
      ScanStores(cfg.hash, cfg.checkpoints, s.chain, LastHash(s.chain), ev.batch, ev.written, 0, s.file);
    } else {
      StoredNothing(s.chain, s.file);
    }
  }

  /** The file after a run is the file it began with, followed by what was written of each header
      accepted since, in order; nothing is ever taken out of it. */
  lemma {:induction false} RunStores(cfg: Config, first: Sync, events: seq<Event>)
    ensures Stored(first.chain, Run(cfg, first, events).chain, RunCounts(cfg, first, events), first.file,
                   Run(cfg, first, events).file)
  {
    if events == [] {
      StoredNothing(first.chain, first.file);
    } else {
      var before, last := events[..|events| - 1], events[|events| - 1];
      var s := Run(cfg, first, before);
      RunStores(cfg, first, before);
      StepStores(cfg, s, last);
      StoredTwice(first.chain, s.chain, Step(cfg, s, last).chain, RunCounts(cfg, first, before),
                  StepCounts(cfg, s, last),
                  first.file, s.file, Step(cfg, s, last).file);
    }
  }

  /** The headers accepted during a run that began with the given file. */
  function Since(file: seq<byte>, s: Sync): seq<Header> {
    if |Loaded(file)| <= |s.chain.headers| then s.chain.headers[|Loaded(file)|..] else []
  }

  lemma {:induction false} StartsFromFile(cfg: Config, file: seq<byte>)
    ensures Start(cfg, file).chain.headers == Loaded(file) && Start(cfg, file).file == file
  {
    RebuiltViews(cfg.hash, cfg.genesis, Loaded(file));
  }

  lemma {:induction false} StepRebuilt(cfg: Config, s: Sync, ev: Event)
    requires s.chain == Rebuilt(cfg.hash, cfg.genesis, s.chain.headers)
    ensures Step(cfg, s, ev).chain == Rebuilt(cfg.hash, cfg.genesis, Step(cfg, s, ev).chain.headers)
  {
    StepChain(cfg, s, ev);
    if ev.HeadersReceived? {
      ScanRebuilds(cfg.hash, cfg.genesis, cfg.checkpoints, s.chain, LastHash(s.chain), ev.batch, 0);
    }
  }

  lemma {:induction false} RunRebuilt(cfg: Config, first: Sync, events: seq<Event>)
    requires first.chain == Rebuilt(cfg.hash, cfg.genesis, first.chain.headers)
    ensures Run(cfg, first, events).chain == Rebuilt(cfg.hash, cfg.genesis, Run(cfg, first, events).chain.headers)
  {
    if events != [] {
      RunRebuilt(cfg, first, events[..|events| - 1]);
      StepRebuilt(cfg, Run(cfg, first, events[..|events| - 1]), events[|events| - 1]);
    }
  }

  /** A restart gives back the chain in every view if and only if the file loads as its headers. */
  lemma {:induction false} ResumesIffLoads(cfg: Config, file: seq<byte>, events: seq<Event>)
    ensures var s := Run(cfg, Start(cfg, file), events);
            Start(cfg, s.file).chain == s.chain <==> Loaded(s.file) == s.chain.headers
  {
    var s := Run(cfg, Start(cfg, file), events);
    StartsFromFile(cfg, file);
    RunRebuilt(cfg, Start(cfg, file), events);
    StartsFromFile(cfg, s.file);
  }

  /** Stopping after any run and starting again from the file it left gives back the header chain if and
      only if the fragment the run began with, followed by the bytes it wrote, begins with the log of the
      headers it accepted. */
  lemma {:induction false} RestartResumesIff(cfg: Config, file: seq<byte>, events: seq<Event>)
    ensures var s := Run(cfg, Start(cfg, file), events);
            var counts := RunCounts(cfg, Start(cfg, file), events);
            |counts| == |Since(file, s)|
            && (Start(cfg, s.file).chain == s.chain
              <==> Log(Since(file, s)) <= Fragment(file) + Written(Since(file, s), counts))
  {
    var first := Start(cfg, file);
    var s := Run(cfg, first, events);
    StartsFromFile(cfg, file);
    RunStores(cfg, first, events);
    ReloadsIff(first.chain, s.chain, RunCounts(cfg, first, events), file, s.file);
    ResumesIffLoads(cfg, file, events);
  }

  /** From a file that ends at a record boundary: if and only if every write went through; and then the
      file is, at all times, the log of the headers in memory. */
  lemma {:induction false} RestartResumes(cfg: Config, file: seq<byte>, events: seq<Event>)
    requires |file| % RECORD == 0
    ensures var s := Run(cfg, Start(cfg, file), events);
            var counts := RunCounts(cfg, Start(cfg, file), events);
            && (Start(cfg, s.file).chain == s.chain <==> AllWritten(counts))
            && (AllWritten(counts) ==> s.file == Log(s.chain.headers))
  {
    var first := Start(cfg, file);
    var s, counts := Run(cfg, first, events), RunCounts(cfg, first, events);
    StartsFromFile(cfg, file);
    RunStores(cfg, first, events);
    CleanReloadsIff(first.chain, s.chain, counts, file, s.file);
    if AllWritten(counts) {
      CleanStaysLog(first.chain, s.chain, counts, file, s.file);
    }
    ResumesIffLoads(cfg, file, events);
  }

  /** From a file that ends in a fragment, with every write going through: if and only if the log of what
      was accepted is that fragment over and over, as it is when nothing was accepted. */
  lemma {:induction false} RestartAfterFragment(cfg: Config, file: seq<byte>, events: seq<Event>)
    requires |file| % RECORD != 0 && AllWritten(RunCounts(cfg, Start(cfg, file), events))
    ensures var s := Run(cfg, Start(cfg, file), events);
            Start(cfg, s.file).chain == s.chain <==> Repeats(Fragment(file), Log(Since(file, s)))
  {
    var first := Start(cfg, file);
    var s := Run(cfg, first, events);
    StartsFromFile(cfg, file);
    RunStores(cfg, first, events);
    FragmentReloadsIff(first.chain, s.chain, RunCounts(cfg, first, events), file, s.file);
    ResumesIffLoads(cfg, file, events);
  }
}
