/** The peer manager object of src/p2p/legacy.rs: each arm of its event loop is a method, proved to
    take the step that the event specifies. What a method returns is the list of blocks it asks the
    peer for. Sockets, the handshake and the choice of the sync peer are outside the model. */
module PeerManagers {
  import opened Headers
  import opened HeaderStores
  import opened Downloads
  import opened Downloaders
  import opened HeadersFirst

  class PeerManager {
    const cfg: Config
    const store: HeaderStore
    const downloader: Downloader
    var headersSynced: bool
    var bestKnownHeight: int

    /** The blocks queued when the header sync completed. */
    ghost var plan: seq<Hash>

    ghost function State(): Sync
      reads this, store, downloader
    {
      Sync(store.State(), headersSynced, bestKnownHeight, downloader.State(), plan, store.file)
    }

    ghost predicate Valid()
      reads this, store, downloader
    {
      && store.hash == cfg.hash && store.genesis == cfg.genesis && store.checkpoints == cfg.checkpoints
      && downloader.windows == cfg.windows
      && store.Valid() && downloader.Valid()
    }

    constructor (cfg: Config, file: seq<byte>)
      ensures this.cfg == cfg && fresh(store) && fresh(downloader)
      ensures Valid() && State() == Start(cfg, file)
    {
      this.cfg := cfg;
      var store := new HeaderStore(cfg.hash, cfg.genesis, cfg.checkpoints, file);
      var downloader := new Downloader(cfg.windows);
      this.store, this.downloader := store, downloader;
      headersSynced, bestKnownHeight, plan := store.headerChain != [], 0, [];
      new;
      if headersSynced {
        QueueBlocks();
      }
    }

    /** Queues the blocks above the start height. */
    method QueueBlocks()
      requires Valid()
      modifies this`plan, downloader
      ensures Valid() && plan == Planned(cfg, old(store.State()))
      ensures downloader.State() == Push(old(downloader.State()), plan)
    {
      var skip := cfg.startHeight + 1;
      var blocks := [];
      var i := skip;
      while i < |store.recentChain|
        invariant i >= skip
        invariant skip <= |store.recentChain| ==> i <= |store.recentChain| && blocks == store.recentChain[skip..i]
        invariant skip > |store.recentChain| ==> blocks == []
      {
        blocks := blocks + [store.recentChain[i]];
        i := i + 1;
      }
      assert blocks == Planned(cfg, store.State());
      downloader.PushMany(blocks);
      plan := blocks;
    }

    method CheckHeadersSyncComplete()
      requires Valid()
      modifies this`headersSynced, this`plan, downloader
      ensures Valid() && State() == CompleteSync(cfg, old(State()))
    {
      if !headersSynced && bestKnownHeight > 0 && store.height >= bestKnownHeight - HEADER_SYNC_THRESHOLD {
        headersSynced := true;
        QueueBlocks();
      }
    }

    method ServePeer(peer: Addr, now: nat) returns (wanted: seq<Hash>)
      requires Valid()
      modifies downloader
      ensures Valid() && State() == Serve(cfg, old(State()), peer, now)
      ensures downloader.past.handedOut == old(downloader.past.handedOut) + wanted
    {
      wanted := [];
      if headersSynced {
        wanted := downloader.PollAssign(peer, now);
      }
    }

    method OnPeerAdded(peer: Addr, height: int, now: nat) returns (wanted: seq<Hash>)
      requires Valid()
      modifies this`bestKnownHeight, downloader
      ensures Valid() && State() == OnPeer(cfg, old(State()), peer, height, now)
      ensures downloader.past.handedOut == old(downloader.past.handedOut) + wanted
    {
      if height > bestKnownHeight {
        bestKnownHeight := height;
      }
      wanted := ServePeer(peer, now);
    }

    /** `written` says how many bytes of each accepted record reach the disk. */
    method OnHeadersMessage(peer: Addr, batch: seq<Header>, written: seq<nat>, now: nat) returns (wanted: seq<Hash>)
      requires Valid()
      modifies this`headersSynced, this`plan, store, downloader
      ensures Valid() && State() == OnHeaders(cfg, old(State()), peer, batch, written, now)
      ensures downloader.past.handedOut == old(downloader.past.handedOut) + wanted
    {
      wanted := [];
      var added, stop := store.ExtendHeaders(batch, written);
      assert State() == Extended(cfg, old(State()), batch, written);
      if |batch| != MAX_HEADERS_PER_MSG {
        CheckHeadersSyncComplete();
        wanted := ServePeer(peer, now);
      }
    }

    method OnInvMessage(peer: Addr, hashes: seq<Hash>, now: nat) returns (wanted: seq<Hash>)
      requires Valid()
      modifies downloader
      ensures Valid() && State() == OnInv(cfg, old(State()), peer, hashes, now)
      ensures downloader.past.handedOut == old(downloader.past.handedOut) + wanted
    {
      wanted := [];
      if headersSynced {
        var need := FilterKnown(hashes);
        downloader.PushMany(need);
        wanted := ServePeer(peer, now);
      }
    }

    method FilterKnown(hashes: seq<Hash>) returns (need: seq<Hash>)
      ensures need == Known(store.State(), hashes)
    {
      need := [];
      for i := 0 to |hashes|
        invariant need == Known(store.State(), hashes[..i])
      {
        assert hashes[..i + 1][..i] == hashes[..i];
        if hashes[i] in store.haveHeader {
          need := need + [hashes[i]];
        }
      }
      assert hashes[..|hashes|] == hashes;
    }

    method OnBlockMessage(peer: Addr, h: Hash, now: nat) returns (wanted: seq<Hash>)
      requires Valid()
      modifies downloader
      ensures Valid() && State() == OnBlock(cfg, old(State()), peer, h, now)
      ensures downloader.past.handedOut == old(downloader.past.handedOut) + wanted
    {
      wanted := [];
      if headersSynced {
        downloader.Complete(h);
        wanted := ServePeer(peer, now);
      }
    }

    method OnTimer(now: nat) returns (ghost order: seq<Hash>)
      requires Valid()
      modifies downloader
      ensures Valid() && Legal(old(State()), Ticked(now, order))
      ensures State() == OnTick(old(State()), now, order)
    {
      order := downloader.Tick(now);
    }
  }
}
