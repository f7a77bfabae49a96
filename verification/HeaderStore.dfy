/** The header part of the peer manager object of src/p2p/legacy.rs: fields updated in place, with
    the log on disk as one of them. */
module HeaderStores {
  import opened Headers
  import opened ChainParams
  import opened HeaderChain
  import opened HeaderLog

  class HeaderStore {
    const hash: HashFn
    const genesis: Hash
    const checkpoints: seq<Checkpoint>

    var headerChain: seq<Header>
    var recentChain: seq<Hash>
    var haveHeader: set<Hash>
    var prevMap: map<Hash, Hash>
    var height: nat
    var bestTip: Hash

    /** The bytes of the header file. */
    var file: seq<byte>

    ghost function State(): Chain
      reads this
    {
      Chain(headerChain, recentChain, haveHeader, prevMap, height, bestTip)
    }

    ghost predicate Valid()
      reads this
    {
      recentChain != [] && bestTip == recentChain[|recentChain| - 1]
    }

    /** Rebuilds the state from the header file, as at start-up. */
    constructor (hash: HashFn, genesis: Hash, checkpoints: seq<Checkpoint>, file: seq<byte>)
      ensures this.hash == hash && this.genesis == genesis && this.checkpoints == checkpoints && this.file == file
      ensures Valid() && State() == Rebuilt(hash, genesis, Loaded(file))
    {
      this.hash, this.genesis, this.checkpoints, this.file := hash, genesis, checkpoints, file;
      var loaded := LoadHeaders(file);
      var recent, have, prev, last := RebuildViews(hash, genesis, loaded);
      headerChain, recentChain, haveHeader, prevMap := loaded, recent, have, prev;
      height, bestTip := |loaded|, last;
    }

    /** Appends one header to every view. `written` is how many bytes of its record reach the disk;
        a failed write is only reported. */
    method Accept(h: Header, written: nat)
      modifies this`headerChain, this`recentChain, this`haveHeader, this`prevMap, this`height, this`file
      ensures State().(tip := hash(h)) == Appended(hash, old(State()), h)
      ensures file == old(file) + Part(h, written)
    {
      prevMap := prevMap[hash(h) := h.prev];
      haveHeader := haveHeader + {hash(h)};
      recentChain := recentChain + [hash(h)];
      headerChain := headerChain + [h];
      height := height + 1;
      file := file + Part(h, written);
    }

    /** Works through a batch of headers from a peer. `written` says how many bytes of each accepted
        record reach the disk. */
    method ExtendHeaders(batch: seq<Header>, written: seq<nat>) returns (added: nat, ghost stop: nat)
      requires Valid()
      modifies this
      ensures Valid()
      ensures Scan(State(), stop, added) == Extend(hash, checkpoints, old(State()), batch)
      ensures file == ExtendFile(hash, checkpoints, old(State()), batch, written, old(file))
    {
      ghost var goal := Extend(hash, checkpoints, State(), batch);
      ghost var goalFile := ExtendFile(hash, checkpoints, State(), batch, written, file);
      var processingTip := recentChain[|recentChain| - 1];
      ghost var c := State();
      added := 0;
      var i := 0;
      while i < |batch|
        invariant 0 <= i <= |batch|
        invariant recentChain != [] && c == State().(tip := recentChain[|recentChain| - 1])
        invariant goal == AddTo(ScanFrom(hash, checkpoints, c, processingTip, batch, i), added)
        invariant goalFile == ScanFile(hash, checkpoints, c, processingTip, batch, written, i, file)
      {
        var h := hash(batch[i]);
        if h in haveHeader {
          processingTip := h;
        } else if Rejects(hash, checkpoints, height, processingTip, batch[i]) {
          break;
        } else {
          Accept(batch[i], WrittenAt(written, i));
          c := Appended(hash, c, batch[i]);
          processingTip := h;
          added := added + 1;
        }
        i := i + 1;
      }
      stop := i;
      bestTip := recentChain[|recentChain| - 1];
    }
  }

  method RebuildViews(hash: HashFn, genesis: Hash, loaded: seq<Header>)
    returns (recent: seq<Hash>, have: set<Hash>, prev: map<Hash, Hash>, last: Hash)
    ensures Chain(loaded, recent, have, prev, |loaded|, last) == Rebuilt(hash, genesis, loaded)
    ensures recent != [] && last == recent[|recent| - 1]
  {
    recent, have, prev, last := [genesis], {genesis}, map[], genesis;
    for i := 0 to |loaded|
      invariant Chain(loaded[..i], recent, have, prev, i, last) == Rebuilt(hash, genesis, loaded[..i])
      invariant recent != [] && last == recent[|recent| - 1]
    {
      RebuiltNext(hash, genesis, loaded, i);
      var h := hash(loaded[i]);
      have := have + {h};
      prev := prev[h := loaded[i].prev];
      recent := recent + [h];
      last := h;
    }
    assert loaded[..|loaded|] == loaded;
  }

  lemma {:induction false} RebuiltNext(hash: HashFn, genesis: Hash, loaded: seq<Header>, i: nat)
    requires i < |loaded|
    ensures loaded[..i + 1] == loaded[..i] + [loaded[i]]
    ensures Rebuilt(hash, genesis, loaded[..i + 1]) == Appended(hash, Rebuilt(hash, genesis, loaded[..i]), loaded[i])
  {
    assert loaded[..i + 1][..i] == loaded[..i];
  }

  ghost function AddTo(s: Scan, n: nat): Scan {
    s.(added := s.added + n)
  }
}
