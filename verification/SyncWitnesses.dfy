/** Concrete runs of what header sync and the downloader do not promise: a header that forks below the tip
    is appended, a header file that began with a stray byte does not reload, a block whose header came late is
    never requested, and a peer is starved. */
module SyncWitnesses {
  import opened Headers
  import opened Lists
  import opened HeaderChain
  import opened HeaderLine
  import opened HeaderLog
  import opened Downloads
  import opened HeadersFirst
  import opened DownloadPlan
  import opened Starvation

  function Numbered(n: byte): Hash {
    Hash(seq(32, i => if i == 0 then n else 0))
  }

  lemma NumberedDistinct(m: byte, n: byte)
    requires m != n
    ensures Numbered(m) != Numbered(n)
  {
    assert Numbered(m).raw[0] == m && Numbered(n).raw[0] == n;
  }

  /** A hash function that tells these few headers apart. */
  function ByNonce(h: Header): Hash {
    Numbered(h.nonce % 256)
  }

  /** Block `n`, on top of block `prev`. */
  function Block(n: byte, prev: byte): Header {
    Header(0, Numbered(prev), Numbered(0), 0, 0, n)
  }

  /** With the download windows of the source. */
  function NodeConfig(): Config {
    Config(ByNonce, Numbered(0), [], 0, Windows(16, 4))
  }

  // ---------------------------------------------------------------- a fork below the tip

  lemma ScanOfTwo(hash: HashFn, c: Chain, a: Header, b: Header)
    requires hash(a) !in c.have && hash(b) !in c.have + {hash(a)} && a.prev == LastHash(c) && b.prev == hash(a)
    ensures Extend(hash, [], c, [a, b]).chain == Appended(hash, Appended(hash, c, a), b)
  {
    var c1 := Appended(hash, c, a);
    var c2 := Appended(hash, c1, b);
    assert ScanFrom(hash, [], c2, hash(b), [a, b], 2) == Scan(c2, 2, 0);
    assert ScanFrom(hash, [], c1, hash(a), [a, b], 1) == Scan(c2, 2, 1);
  }

  /** Two blocks, then a batch that repeats the first and continues with another child of it. */
  lemma ForkRun(hash: HashFn, genesis: Hash, a: Header, b: Header, fork: Header)
    requires a.prev == genesis && b.prev == hash(a) && fork.prev == hash(a)
    requires hash(a) != genesis && hash(b) !in {genesis, hash(a)} && hash(fork) !in {genesis, hash(a), hash(b)}
    ensures var c := RunBatches(hash, genesis, [], [[a, b], [a, fork]]);
            c.recent == [genesis, hash(a), hash(b), hash(fork)] && !Linear(c)
  {
    var c := Appended(hash, Appended(hash, Fresh(genesis), a), b);
    ScanOfTwo(hash, Fresh(genesis), a, b);
    RunOfOne(hash, genesis, [a, b]);
    HeaderChain.RunInv(hash, genesis, [], [[a, b]]);
    ForkIsAppended(hash, genesis, [], c, a, fork);
    assert [[a, b], [a, fork]][..1] == [[a, b]];
  }

  lemma RunOfOne(hash: HashFn, genesis: Hash, batch: seq<Header>)
    ensures RunBatches(hash, genesis, [], [batch]) == Extend(hash, [], Fresh(genesis), batch).chain
  {
    assert [batch][..0] == [];
  }

  /** A run whose header vector is not a chain: its last header does not link to the one before it. */
  lemma ForkHappens()
    ensures var batches := [[Block(1, 0), Block(2, 1)], [Block(1, 0), Block(3, 1)]];
            !Linear(RunBatches(ByNonce, Numbered(0), [], batches))
  {
    NumberedDistinct(0, 1);
    NumberedDistinct(0, 2);
    NumberedDistinct(0, 3);
    NumberedDistinct(1, 2);
    NumberedDistinct(1, 3);
    NumberedDistinct(2, 3);
    ForkRun(ByNonce, Numbered(0), Block(1, 0), Block(2, 1), Block(3, 1));
  }

  // ---------------------------------------------------------------- a header file with a stray byte

  /** A message of one header, written to the file in full. */
  function OneHeader(h: Header): Event {
    HeadersReceived(0, [h], [RECORD], 0)
  }

  lemma NextHeaderAccepted(cfg: Config, s: Sync, h: Header)
    requires cfg.checkpoints == [] && h.prev == LastHash(s.chain) && cfg.hash(h) !in s.chain.have
    ensures Step(cfg, s, OneHeader(h)).chain == Appended(cfg.hash, s.chain, h)
    ensures StepCounts(cfg, s, OneHeader(h)) == [RECORD]
  {
    var c := Appended(cfg.hash, s.chain, h);
    assert ScanFrom(cfg.hash, [], c, cfg.hash(h), [h], 1) == Scan(c, 1, 0);
    assert ScanCounts(cfg.hash, [], c, cfg.hash(h), [h], [RECORD], 1) == [];
    StepChain(cfg, s, OneHeader(h));
  }

  /** The peer is added first, as every peer is that is listened to. */
  function Opening(h: Header): seq<Event> {
    [PeerAdded(0, 0, 0)] + [OneHeader(h)]
  }

  lemma OpeningRun(cfg: Config, first: Sync, h: Header)
    ensures LegalRun(cfg, first, Opening(h))
    ensures Run(cfg, first, Opening(h)) == Step(cfg, Step(cfg, first, PeerAdded(0, 0, 0)), OneHeader(h))
    ensures RunCounts(cfg, first, Opening(h)) == StepCounts(cfg, Step(cfg, first, PeerAdded(0, 0, 0)), OneHeader(h))
  {
    RunOne(cfg, first, PeerAdded(0, 0, 0));
    RunAppended(cfg, first, [PeerAdded(0, 0, 0)], OneHeader(h));
    CountsOfOne(cfg, first, PeerAdded(0, 0, 0));
    assert Opening(h)[..1] == [PeerAdded(0, 0, 0)];
  }

  lemma CountsOfOne(cfg: Config, first: Sync, ev: Event)
    ensures RunCounts(cfg, first, [ev]) == StepCounts(cfg, first, ev)
  {
    assert [ev][..0] == [];
    assert [] + StepCounts(cfg, first, ev) == StepCounts(cfg, first, ev);
  }

  lemma StrayByte(cfg: Config, file: seq<byte>, h: Header)
    requires file == [1] && h.version == 0
    requires cfg.checkpoints == [] && h.prev == cfg.genesis && cfg.hash(h) != cfg.genesis
    ensures var s := Run(cfg, Start(cfg, file), Opening(h));
            Start(cfg, s.file).chain != s.chain
  {
    var first := Start(cfg, file);
    StartsFromFile(cfg, file);
    NextHeaderAccepted(cfg, Step(cfg, first, PeerAdded(0, 0, 0)), h);
    OpeningRun(cfg, first, h);
    RestartAfterFragment(cfg, file, Opening(h));
    assert [] + [h] == [h];
    StrayByteSpells(file, h);
  }

  lemma StrayByteSpells(file: seq<byte>, h: Header)
    requires file == [1] && h.version == 0
    ensures Fragment(file) == [1] && !Repeats(Fragment(file), Log([h]))
  {
    assert Log([h][..0]) == [];
    assert Log([h]) == [] + Encode(h);
    assert Log([h])[0] == 0;
  }

  /** A node that finds one stray byte in its header file, and accepts a header and writes it in full, has
      another chain when it is started again. */
  lemma RestartDiffers()
    ensures var s := Run(NodeConfig(), Start(NodeConfig(), [1]), Opening(Block(1, 0)));
            Start(NodeConfig(), s.file).chain != s.chain
  {
    NumberedDistinct(0, 1);
    StrayByte(NodeConfig(), [1], Block(1, 0));
  }

  // ---------------------------------------------------------------- a block that is never asked for

  lemma StartOfOne(cfg: Config, file: seq<byte>, b: Header)
    requires Loaded(file) == [b]
    ensures var s := Start(cfg, file);
            && s.synced && s.chain == Appended(cfg.hash, Fresh(cfg.genesis), b)
              && s.dl.past.pushed == Planned(cfg, s.chain)
  {
    assert [b][..0] == [];
    RebuiltViews(cfg.hash, cfg.genesis, [b]);
    assert [] + Planned(cfg, Start(cfg, file).chain) == Planned(cfg, Start(cfg, file).chain);
  }

  /** The block lies above the start height, but as long as no peer announces it, it is never requested. */
  ghost predicate LeftBehind(cfg: Config, s: Sync, h: Hash) {
    h in Elements(Planned(cfg, s.chain)) && NeverRequested(cfg, s, h)
  }

  lemma LateStep(cfg: Config, s: Sync, h: Header)
    requires cfg.checkpoints == [] && SyncInv(cfg, s) && s.synced && h.prev == LastHash(s.chain)
             && cfg.hash(h) !in s.chain.have
    requires cfg.startHeight < |s.chain.recent|
    ensures LeftBehind(cfg, Step(cfg, s, OneHeader(h)), cfg.hash(h))
  {
    NextHeaderAccepted(cfg, s, h);
    LateHeaderNeverRequested(cfg, s, OneHeader(h), cfg.hash(h));
    var planned := Planned(cfg, Appended(cfg.hash, s.chain, h));
    assert planned[|planned| - 1] == cfg.hash(h);
  }

  ghost predicate Ready(cfg: Config, s: Sync, c: Chain) {
    SyncInv(cfg, s) && s.synced && s.chain == c
  }

  lemma PeerJoins(cfg: Config, s: Sync, c: Chain)
    requires Ready(cfg, s, c)
    ensures Ready(cfg, Step(cfg, s, PeerAdded(0, 0, 0)), c)
  {
    StepInv(cfg, s, PeerAdded(0, 0, 0));
    StepChain(cfg, s, PeerAdded(0, 0, 0));
  }

  lemma StartReady(cfg: Config, file: seq<byte>, b: Header)
    requires Loaded(file) == [b]
    ensures Ready(cfg, Start(cfg, file), Appended(cfg.hash, Fresh(cfg.genesis), b))
  {
    StartOfOne(cfg, file, b);
    StartInv(cfg, file);
  }

  /** A peer joins and sends one header. */
  lemma LateOpening(cfg: Config, first: Sync, c: Chain, h: Header) returns (events: seq<Event>)
    requires Ready(cfg, first, c) && cfg.checkpoints == [] && cfg.startHeight < |c.recent|
    requires h.prev == LastHash(c) && cfg.hash(h) !in c.have
    ensures events == Opening(h) && LegalRun(cfg, first, events)
    ensures LeftBehind(cfg, Run(cfg, first, events), cfg.hash(h))
  {
    events := Opening(h);
    PeerJoins(cfg, first, c);
    OpeningRun(cfg, first, h);
    LateStep(cfg, Step(cfg, first, PeerAdded(0, 0, 0)), h);
  }

  lemma OneBlockChain(hash: HashFn, genesis: Hash, b: Header)
    ensures var c := Appended(hash, Fresh(genesis), b);
            LastHash(c) == hash(b) && c.have == {genesis, hash(b)} && |c.recent| == 2
  {
  }

  lemma LateReady(cfg: Config, file: seq<byte>, b: Header, h: Header) returns (c: Chain)
    requires cfg == NodeConfig() && b == Block(1, 0) && h == Block(2, 1) && file == Log([b])
    ensures Ready(cfg, Start(cfg, file), c) && h.prev == LastHash(c) && cfg.hash(h) !in c.have && |c.recent| == 2
  {
    LateHeadersDistinct(cfg, b, h);
    LogOfOne(file, b);
    StartReady(cfg, file, b);
    OneBlockChain(cfg.hash, cfg.genesis, b);
    c := Appended(cfg.hash, Fresh(cfg.genesis), b);
  }

  /** A node that starts with one header and then accepts a second one. */
  lemma LateBlockRun(cfg: Config, file: seq<byte>, b: Header, h: Header) returns (events: seq<Event>)
    requires cfg == NodeConfig() && b == Block(1, 0) && h == Block(2, 1) && file == Log([b])
    ensures LegalRun(cfg, Start(cfg, file), events)
    ensures LeftBehind(cfg, Run(cfg, Start(cfg, file), events), cfg.hash(h))
  {
    var c := LateReady(cfg, file, b, h);
    events := LateOpening(cfg, Start(cfg, file), c, h);
  }

  lemma LogOfOne(file: seq<byte>, b: Header)
    requires file == Log([b])
    ensures Loaded(file) == [b]
  {
    LogRoundTrip([b], []);
    Reassociate<byte>(file, [], []);
  }

  lemma LateHeadersDistinct(cfg: Config, b: Header, h: Header)
    requires cfg == NodeConfig() && b == Block(1, 0) && h == Block(2, 1)
    ensures h.prev == cfg.hash(b) && cfg.hash(h) !in {cfg.genesis, cfg.hash(b)}
  {
    NumberedDistinct(0, 2);
    NumberedDistinct(1, 2);
  }

  // ---------------------------------------------------------------- a starved peer

  /** A node with four blocks to fetch and the windows of the source: a run of two peers after which nothing
      is in flight, a block is queued, and the first peer is refused it, then and for good. */
  lemma StarvedRun(headers: seq<Header>) returns (events: seq<Event>)
    requires headers == [Block(1, 0), Block(2, 1), Block(3, 2), Block(4, 3)]
    ensures LegalRun(NodeConfig(), Start(NodeConfig(), Log(headers)), events)
    ensures var s := Run(NodeConfig(), Start(NodeConfig(), Log(headers)), events);
            Starved(NodeConfig(), s, 1) && RefusedForGood(NodeConfig(), s, 1)
  {
    LogRoundTrip(headers, []);
    Reassociate<byte>(Log(headers), [], []);
    events := StartedNodeStarves(NodeConfig(), Log(headers), 1, 2, 0);
  }
}
