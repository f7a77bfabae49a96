/** The inventory tracker of src/p2p/inventory.rs: a request window with retries, what every run of
    its operations keeps, and the object itself. */
module Inventories {
  import opened FiniteSets

  type Addr = nat

  datatype InvId = TxInv(txid: nat) | BlockInv(hash: nat)

  datatype RequestState = RequestState(peer: Addr, requestedAt: nat, attempts: nat)

  const REQUEST_TIMEOUT: nat := 120
  const MAX_PER_PEER: nat := 16
  const MAX_IN_FLIGHT: nat := 256
  const MAX_ATTEMPTS: nat := 3

  datatype Inventory = Inventory(
    wanted: set<InvId>,
    inFlight: map<InvId, RequestState>,
    have: set<InvId>,
    announced: map<InvId, set<Addr>>)

  const EMPTY: Inventory := Inventory({}, map[], {}, map[])

  function Announcers(announced: map<InvId, set<Addr>>, id: InvId): set<Addr> {
    if id in announced then announced[id] else {}
  }

  function FromPeer(inFlight: map<InvId, RequestState>, peer: Addr): set<InvId> {
    set id | id in inFlight && inFlight[id].peer == peer
  }

  // ---------------------------------------------------------------- operations

  function Want(v: Inventory, id: InvId): Inventory {
    if id !in v.have && id !in v.inFlight then v.(wanted := v.wanted + {id}) else v
  }

  function MarkReceived(v: Inventory, id: InvId): Inventory {
    v.(wanted := v.wanted - {id}, inFlight := v.inFlight - {id}, have := v.have + {id})
  }

  function Announce(v: Inventory, id: InvId, peer: Addr): Inventory {
    var v' := v.(announced := v.announced[id := Announcers(v.announced, id) + {peer}]);
    if id in v.have then v' else v'.(wanted := v.wanted + {id})
  }

  /** What a peer may be asked for. */
  function Eligible(v: Inventory, peer: Addr): set<InvId> {
    Offered(v.wanted, v.announced, peer)
  }

  function Offered(wanted: set<InvId>, announced: map<InvId, set<Addr>>, peer: Addr): set<InvId> {
    set id | id in wanted && peer in Announcers(announced, id)
  }

  /** How much it may be asked for now. */
  function Room(v: Inventory, peer: Addr): nat {
    var current := |FromPeer(v.inFlight, peer)|;
    var forPeer := if current < MAX_PER_PEER then MAX_PER_PEER - current else 0;
    var overall := if |v.inFlight| < MAX_IN_FLIGHT then MAX_IN_FLIGHT - |v.inFlight| else 0;
    if forPeer < overall then forPeer else overall
  }

  /** As many eligible items as there is room for, whichever they are. */
  predicate IsSelection(v: Inventory, peer: Addr, ids: set<InvId>) {
    ids <= Eligible(v, peer) && |ids| <= Room(v, peer) && (|ids| == Room(v, peer) || ids == Eligible(v, peer))
  }

  function Requested(v: Inventory, peer: Addr, now: nat, ids: set<InvId>): Inventory {
    v.(wanted := v.wanted - ids,
       inFlight := v.inFlight + map id | id in ids :: RequestState(peer, now, 1))
  }

  predicate IsLate(r: RequestState, now: nat) {
    now >= r.requestedAt && now - r.requestedAt > REQUEST_TIMEOUT
  }

  function Late(inFlight: map<InvId, RequestState>, now: nat): set<InvId> {
    set id | id in inFlight && IsLate(inFlight[id], now)
  }

  function Retried(inFlight: map<InvId, RequestState>, now: nat): set<InvId> {
    set id | id in inFlight && IsLate(inFlight[id], now) && inFlight[id].attempts < MAX_ATTEMPTS
  }

  function CheckTimeouts(v: Inventory, now: nat): Inventory {
    v.(inFlight := v.inFlight - Late(v.inFlight, now), wanted := v.wanted + Retried(v.inFlight, now))
  }

  /** `gone` are the items that an arbitrary iteration yields first. */
  function PruneHave(v: Inventory, gone: set<InvId>): Inventory {
    v.(have := v.have - gone)
  }

  // ---------------------------------------------------------------- the invariant

  ghost predicate PeerWindow(v: Inventory, peer: Addr) {
    |FromPeer(v.inFlight, peer)| <= MAX_PER_PEER
  }

  ghost predicate Asked(v: Inventory, id: InvId)
    requires id in v.inFlight
  {
    v.inFlight[id].peer in Announcers(v.announced, id) && v.inFlight[id].attempts == 1
  }

  ghost predicate Windows(v: Inventory) {
    |v.inFlight| <= MAX_IN_FLIGHT && forall peer :: PeerWindow(v, peer)
  }

  ghost predicate AllAsked(v: Inventory) {
    forall id :: id in v.inFlight ==> Asked(v, id)
  }

  /** What is held is neither wanted nor in flight. */
  ghost predicate HeldOutOfPlay(v: Inventory) {
    v.have !! v.wanted && v.have !! v.inFlight.Keys
  }

  ghost predicate InventoryInv(v: Inventory) {
    HeldOutOfPlay(v) && Windows(v) && AllAsked(v)
  }

  lemma EmptyInv()
    ensures InventoryInv(EMPTY)
  {
    forall peer
      ensures PeerWindow(EMPTY, peer)
    {
      assert FromPeer(EMPTY.inFlight, peer) == {};
    }
  }

  /** Taking requests out of flight keeps both windows. */
  lemma FewerInFlight(v: Inventory, v': Inventory, gone: set<InvId>)
    requires Windows(v) && v'.inFlight == v.inFlight - gone
    ensures Windows(v')
  {
    SubsetSize(v'.inFlight.Keys, v.inFlight.Keys);
    forall peer
      ensures PeerWindow(v', peer)
    {
      assert PeerWindow(v, peer);
      SubsetSize(FromPeer(v'.inFlight, peer), FromPeer(v.inFlight, peer));
    }
  }

  /** Nothing about the requests in flight changes, and no announcement is forgotten. */
  lemma SameFlight(v: Inventory, v': Inventory)
    requires Windows(v) && AllAsked(v) && v'.inFlight == v.inFlight
    requires forall id :: id in v.announced ==> id in v'.announced && v.announced[id] <= v'.announced[id]
    ensures Windows(v') && AllAsked(v')
  {
    forall peer
      ensures PeerWindow(v', peer)
    {
      assert PeerWindow(v, peer);
    }
    forall id | id in v'.inFlight
      ensures Asked(v', id)
    {
      assert Asked(v, id);
    }
  }

  lemma WantInv(v: Inventory, id: InvId)
    requires InventoryInv(v)
    ensures InventoryInv(Want(v, id))
  {
    SameFlight(v, Want(v, id));
  }

  lemma MarkReceivedInv(v: Inventory, id: InvId)
    requires InventoryInv(v)
    ensures InventoryInv(MarkReceived(v, id))
  {
    var v' := MarkReceived(v, id);
    FewerInFlight(v, v', {id});
    forall x | x in v'.inFlight
      ensures Asked(v', x)
    {
      assert Asked(v, x);
    }
  }

  lemma AnnounceInv(v: Inventory, id: InvId, peer: Addr)
    requires InventoryInv(v)
    ensures InventoryInv(Announce(v, id, peer))
  {
    SameFlight(v, Announce(v, id, peer));
  }

  /** Asking for a selection keeps both windows, although an item that is already in flight from
      another peer is asked for again. */
  lemma RequestedWindows(v: Inventory, peer: Addr, now: nat, ids: set<InvId>)
    requires Windows(v) && |ids| <= Room(v, peer)
    ensures Windows(Requested(v, peer, now, ids))
  {
    var v' := Requested(v, peer, now, ids);
    assert v'.inFlight.Keys == v.inFlight.Keys + ids;
    UnionSize(v.inFlight.Keys, ids);
    forall p
      ensures PeerWindow(v', p)
    {
      assert PeerWindow(v, p);
      if p == peer {
        SubsetSize(FromPeer(v'.inFlight, p), FromPeer(v.inFlight, p) + ids);
        UnionSize(FromPeer(v.inFlight, p), ids);
      } else {
        SubsetSize(FromPeer(v'.inFlight, p), FromPeer(v.inFlight, p));
      }
    }
  }

  lemma RequestedAsked(v: Inventory, peer: Addr, now: nat, ids: set<InvId>)
    requires AllAsked(v) && ids <= Eligible(v, peer)
    ensures AllAsked(Requested(v, peer, now, ids))
  {
    var v' := Requested(v, peer, now, ids);
    forall id | id in v'.inFlight
      ensures Asked(v', id)
    {
      if id !in ids {
        assert Asked(v, id);
      }
    }
  }

  lemma RequestedOutOfPlay(v: Inventory, peer: Addr, now: nat, ids: set<InvId>)
    requires HeldOutOfPlay(v) && ids <= v.wanted
    ensures HeldOutOfPlay(Requested(v, peer, now, ids))
  {
    assert Requested(v, peer, now, ids).inFlight.Keys == v.inFlight.Keys + ids;
  }

  lemma RequestedInv(v: Inventory, peer: Addr, now: nat, ids: set<InvId>)
    requires InventoryInv(v) && IsSelection(v, peer, ids)
    ensures InventoryInv(Requested(v, peer, now, ids))
  {
    RequestedWindows(v, peer, now, ids);
    RequestedAsked(v, peer, now, ids);
    RequestedOutOfPlay(v, peer, now, ids);
  }

  /** Since every request counts as the first attempt, no item is ever given up: each late one is
      wanted again. */
  lemma LateIsRetried(v: Inventory, now: nat)
    requires InventoryInv(v)
    ensures Retried(v.inFlight, now) == Late(v.inFlight, now)
    ensures Late(v.inFlight, now) <= CheckTimeouts(v, now).wanted
  {
    forall id | id in Late(v.inFlight, now)
      ensures id in Retried(v.inFlight, now)
    {
      assert Asked(v, id);
    }
  }

  lemma CheckTimeoutsInv(v: Inventory, now: nat)
    requires InventoryInv(v)
    ensures InventoryInv(CheckTimeouts(v, now))
  {
    var v' := CheckTimeouts(v, now);
    FewerInFlight(v, v', Late(v.inFlight, now));
    LateIsRetried(v, now);
    forall x | x in v'.inFlight
      ensures Asked(v', x)
    {
      assert Asked(v, x);
    }
  }

  lemma PruneHaveInv(v: Inventory, gone: set<InvId>)
    requires InventoryInv(v)
    ensures InventoryInv(PruneHave(v, gone))
  {
    SameFlight(v, PruneHave(v, gone));
  }

  // ---------------------------------------------------------------- runs

  datatype Op =
    | OpWant(id: InvId)
    | OpReceived(id: InvId)
    | OpAnnounce(id: InvId, peer: Addr)
    | OpRequests(peer: Addr, now: nat, ids: set<InvId>)
    | OpTimeouts(now: nat)
    | OpPrune(gone: set<InvId>)

  function Apply(v: Inventory, op: Op): Inventory {
    match op
    case OpWant(id) => Want(v, id)
    case OpReceived(id) => MarkReceived(v, id)
    case OpAnnounce(id, peer) => Announce(v, id, peer)
    case OpRequests(peer, now, ids) => Requested(v, peer, now, ids)
    case OpTimeouts(now) => CheckTimeouts(v, now)
    case OpPrune(gone) => PruneHave(v, gone)
  }

  predicate Legal(v: Inventory, op: Op) {
    op.OpRequests? ==> IsSelection(v, op.peer, op.ids)
  }

  function Run(ops: seq<Op>): Inventory {
    if ops == [] then EMPTY else Apply(Run(ops[..|ops| - 1]), ops[|ops| - 1])
  }

  predicate LegalRun(ops: seq<Op>) {
    ops != [] ==> LegalRun(ops[..|ops| - 1]) && Legal(Run(ops[..|ops| - 1]), ops[|ops| - 1])
  }

  lemma {:induction false} ApplyInv(v: Inventory, op: Op)
    requires InventoryInv(v) && Legal(v, op)
    ensures InventoryInv(Apply(v, op))
  {
    match op
    case OpWant(id) => WantInv(v, id);
    case OpReceived(id) => MarkReceivedInv(v, id);
    case OpAnnounce(id, peer) => AnnounceInv(v, id, peer);
    case OpRequests(peer, now, ids) => RequestedInv(v, peer, now, ids);
    case OpTimeouts(now) => CheckTimeoutsInv(v, now);
    case OpPrune(gone) => PruneHaveInv(v, gone);
  }

  /** After every run: held items are neither wanted nor in flight, both windows hold, and each item in
      flight was announced by the peer it was asked from. */
  lemma {:induction false} RunInv(ops: seq<Op>)
    requires LegalRun(ops)
    ensures InventoryInv(Run(ops))
  {
    if ops == [] {
      EmptyInv();
    } else {
      RunInv(ops[..|ops| - 1]);
      ApplyInv(Run(ops[..|ops| - 1]), ops[|ops| - 1]);
    }
  }

  // ---------------------------------------------------------------- nothing is forgotten

  /** What is outstanding after a run, told from the calls alone: an item is sought from the first time
      that it is asked for or announced while it is not held, until it arrives. Pruning it later makes
      it an item like any other. */
  function Sought(ops: seq<Op>): set<InvId> {
    if ops == [] then {}
    else SoughtAfter(Run(ops[..|ops| - 1]).have, Sought(ops[..|ops| - 1]), ops[|ops| - 1])
  }

  function SoughtAfter(have: set<InvId>, sought: set<InvId>, op: Op): set<InvId> {
    match op
    case OpWant(id) => if id in have then sought else sought + {id}
    case OpAnnounce(id, _) => if id in have then sought else sought + {id}
    case OpReceived(id) => sought - {id}
    case _ => sought
  }

  function Open(v: Inventory): set<InvId> {
    v.wanted + v.inFlight.Keys
  }

  lemma WantOpen(v: Inventory, id: InvId)
    ensures Open(Want(v, id)) == if id in v.have then Open(v) else Open(v) + {id}
  {
  }

  lemma ReceivedOpen(v: Inventory, id: InvId)
    ensures Open(MarkReceived(v, id)) == Open(v) - {id}
  {
    assert (v.inFlight - {id}).Keys == v.inFlight.Keys - {id};
  }

  lemma AnnounceOpen(v: Inventory, id: InvId, peer: Addr)
    ensures Open(Announce(v, id, peer)) == if id in v.have then Open(v) else Open(v) + {id}
  {
  }

  lemma RequestedOpen(v: Inventory, peer: Addr, now: nat, ids: set<InvId>)
    requires ids <= v.wanted
    ensures Open(Requested(v, peer, now, ids)) == Open(v)
  {
    assert Requested(v, peer, now, ids).inFlight.Keys == v.inFlight.Keys + ids;
  }

  lemma TimeoutsOpen(v: Inventory, now: nat)
    requires InventoryInv(v)
    ensures Open(CheckTimeouts(v, now)) == Open(v)
  {
    LateIsRetried(v, now);
    assert (v.inFlight - Late(v.inFlight, now)).Keys == v.inFlight.Keys - Late(v.inFlight, now);
  }

  lemma {:induction false} ApplySought(v: Inventory, op: Op)
    requires InventoryInv(v) && Legal(v, op)
    ensures Open(Apply(v, op)) == SoughtAfter(v.have, Open(v), op)
  {
    match op
    case OpWant(id) => WantOpen(v, id);
    case OpReceived(id) => ReceivedOpen(v, id);
    case OpAnnounce(id, peer) => AnnounceOpen(v, id, peer);
    case OpRequests(peer, now, ids) => RequestedOpen(v, peer, now, ids);
    case OpTimeouts(now) => TimeoutsOpen(v, now);
    case OpPrune(gone) =>
  }

  /** After every run exactly the sought items are wanted or in flight: none is given up, however often
      its requests time out, and none is fetched that nobody asked for. */
  lemma {:induction false} SoughtIsOpen(ops: seq<Op>)
    requires LegalRun(ops)
    ensures Open(Run(ops)) == Sought(ops) && Run(ops).have !! Sought(ops)
  {
    RunInv(ops);
    if ops != [] {
      var before := ops[..|ops| - 1];
      SoughtIsOpen(before);
      RunInv(before);
      ApplySought(Run(before), ops[|ops| - 1]);
    }
  }

  // ---------------------------------------------------------------- who announced what, told from the calls

  /** A peer counts as an announcer of an item if and only if it announced it. */
  lemma {:induction false} AnnouncersExact(ops: seq<Op>, id: InvId, peer: Addr)
    ensures peer in Announcers(Run(ops).announced, id)
            <==> exists k :: 0 <= k < |ops| && ops[k] == OpAnnounce(id, peer)
  {
    if ops != [] {
      var n := |ops| - 1;
      AnnouncersExact(ops[..n], id, peer);
      AnnouncersStep(Run(ops[..n]), ops[n], id, peer);
      if k :| 0 <= k < |ops| && ops[k] == OpAnnounce(id, peer) {
        assert k < n ==> ops[..n][k] == OpAnnounce(id, peer);
      }
      if k :| 0 <= k < n && ops[..n][k] == OpAnnounce(id, peer) {
        assert ops[k] == OpAnnounce(id, peer);
      }
    }
  }

  lemma AnnouncersStep(v: Inventory, op: Op, id: InvId, peer: Addr)
    ensures peer in Announcers(Apply(v, op).announced, id)
            <==> peer in Announcers(v.announced, id) || op == OpAnnounce(id, peer)
  {
  }

  /** A peer is asked for everything that is wanted and that it announced, unless that makes 16 requests to it
      or 256 in all. */
  lemma SelectionIsMaximal(v: Inventory, peer: Addr, ids: set<InvId>, id: InvId)
    requires InventoryInv(v) && IsSelection(v, peer, ids)
    ensures id in ids ==> id in v.wanted && id in v.announced && peer in v.announced[id]
    ensures id in v.wanted && id in v.announced && peer in v.announced[id] ==>
              || id in ids
              || |set x | x in v.inFlight && v.inFlight[x].peer == peer| + |ids| >= 16
              || |v.inFlight| + |ids| >= 256
  {
    assert FromPeer(v.inFlight, peer) == set x | x in v.inFlight && v.inFlight[x].peer == peer;
  }

  // ---------------------------------------------------------------- how long a request stays

  /** The item is in flight from the peer since `t`. */
  ghost predicate Flying(v: Inventory, id: InvId, peer: Addr, t: nat) {
    id in v.inFlight && v.inFlight[id] == RequestState(peer, t, 1)
  }

  /** A call that neither brings the item nor asks for it again, nor looks for late requests more than 120
      seconds after `t`. */
  predicate LeavesAlone(op: Op, id: InvId, t: nat) {
    && op != OpReceived(id) && !(op.OpRequests? && id in op.ids)
    && (op.OpTimeouts? ==> op.now <= t + 120)
  }

  lemma {:induction false} StaysFlying(v: Inventory, op: Op, id: InvId, peer: Addr, t: nat)
    requires Flying(v, id, peer, t) && LeavesAlone(op, id, t)
    ensures Flying(Apply(v, op), id, peer, t)
  {
  }

  /** An item that was asked for at some time, and neither arrived nor was asked for again since, is still in
      flight from the same peer, as long as every look for late requests came within 120 seconds. */
  lemma {:induction false} StillAsked(ops: seq<Op>, k: nat, id: InvId)
    requires k < |ops| && ops[k].OpRequests? && id in ops[k].ids
    requires forall j :: k < j < |ops| ==> LeavesAlone(ops[j], id, ops[k].now)
    ensures Flying(Run(ops), id, ops[k].peer, ops[k].now)
    decreases |ops|
  {
    var n := |ops| - 1;
    if k < n {
      assert forall j :: k < j < n ==> ops[..n][j] == ops[j];
      StillAsked(ops[..n], k, id);
      StaysFlying(Run(ops[..n]), ops[n], id, ops[k].peer, ops[k].now);
    }
  }

  /** The first look after that puts it back among the wanted items. */
  lemma {:induction false} WantedAgain(ops: seq<Op>, k: nat, id: InvId, now: nat)
    requires k < |ops| && ops[k].OpRequests? && id in ops[k].ids
    requires forall j :: k < j < |ops| ==> LeavesAlone(ops[j], id, ops[k].now)
    requires now > ops[k].now + 120
    ensures id in CheckTimeouts(Run(ops), now).wanted && id !in CheckTimeouts(Run(ops), now).inFlight
  {
    StillAsked(ops, k, id);
  }

  /** Walks the wanted items in any order until one of the two windows would be exceeded. */
  method WalkWanted(wanted: set<InvId>, announced: map<InvId, set<Addr>>, peer: Addr, forPeer: nat, overall: nat)
      returns (requests: set<InvId>)
    ensures requests <= Offered(wanted, announced, peer) && |requests| <= forPeer && |requests| <= overall
    ensures |requests| < forPeer && |requests| < overall ==> requests == Offered(wanted, announced, peer)
  {
    requests := {};
    var rest := wanted;
    while rest != {} && |requests| < forPeer && |requests| < overall
      invariant requests <= Offered(wanted, announced, peer) <= requests + rest && requests !! rest
      invariant rest <= wanted
      invariant |requests| <= forPeer && |requests| <= overall
    {
      var id :| id in rest;
      rest := rest - {id};
      if peer in Announcers(announced, id) {
        assert id !in requests;
        requests := requests + {id};
      }
    }
  }

  // ---------------------------------------------------------------- the object

  class InventoryManager {
    var wanted: set<InvId>
    var inFlight: map<InvId, RequestState>
    var have: set<InvId>
    var announced: map<InvId, set<Addr>>

    ghost function State(): Inventory
      reads this
    {
      Inventory(wanted, inFlight, have, announced)
    }

    ghost predicate Valid()
      reads this
    {
      InventoryInv(State())
    }

    constructor ()
      ensures Valid() && State() == EMPTY
    {
      wanted, inFlight, have, announced := {}, map[], {}, map[];
      new;
      EmptyInv();
    }

    method MarkWanted(id: InvId)
      requires Valid()
      modifies this`wanted
      ensures Valid() && State() == Want(old(State()), id)
    {
      WantInv(State(), id);
      if id !in have && id !in inFlight {
        wanted := wanted + {id};
      }
    }

    method Receive(id: InvId)
      requires Valid()
      modifies this`wanted, this`inFlight, this`have
      ensures Valid() && State() == MarkReceived(old(State()), id)
    {
      MarkReceivedInv(State(), id);
      Settle(id);
    }

    method Settle(id: InvId)
      modifies this`wanted, this`inFlight, this`have
      ensures State() == MarkReceived(old(State()), id)
    {
      wanted := wanted - {id};
      inFlight := inFlight - {id};
      have := have + {id};
    }

    method NoteAnnouncement(id: InvId, peer: Addr)
      requires Valid()
      modifies this`announced, this`wanted
      ensures Valid() && State() == Announce(old(State()), id, peer)
    {
      AnnounceInv(State(), id, peer);
      announced := announced[id := Announcers(announced, id) + {peer}];
      if id !in have {
        wanted := wanted + {id};
      }
    }

    /** Chooses what to ask a peer for and marks it as in flight. */
    method GetRequests(peer: Addr, now: nat) returns (requests: set<InvId>)
      requires Valid()
      modifies this`wanted, this`inFlight
      ensures Valid() && IsSelection(old(State()), peer, requests)
      ensures State() == Requested(old(State()), peer, now, requests)
    {
      requests := ChooseRequests(peer);
      RequestedInv(State(), peer, now, requests);
      PutInFlight(peer, now, requests);
    }

    method PutInFlight(peer: Addr, now: nat, requests: set<InvId>)
      modifies this`wanted, this`inFlight
      ensures State() == Requested(old(State()), peer, now, requests)
    {
      wanted, inFlight := wanted - requests, inFlight + map id | id in requests :: RequestState(peer, now, 1);
    }

    /** Looks at the wanted items unless one of the two windows is full already. */
    method ChooseRequests(peer: Addr) returns (requests: set<InvId>)
      ensures IsSelection(State(), peer, requests)
    {
      var current := |FromPeer(inFlight, peer)|;
      if |inFlight| >= MAX_IN_FLIGHT || current >= MAX_PER_PEER {
        return {};
      }
      requests := WalkWanted(wanted, announced, peer, MAX_PER_PEER - current, MAX_IN_FLIGHT - |inFlight|);
    }

    /** Walks the late requests in any order. */
    method RequeueLate(now: nat)
      modifies this`wanted, this`inFlight
      ensures State() == CheckTimeouts(old(State()), now)
    {
      var late := Late(inFlight, now);
      var rest := late;
      while rest != {}
        invariant rest <= late
        invariant inFlight == old(inFlight) - (late - rest)
        invariant wanted == old(wanted) + Retried(old(inFlight), now) - (rest - old(wanted))
      {
        var id :| id in rest;
        rest := rest - {id};
        var attempts := inFlight[id].attempts;
        inFlight := inFlight - {id};
        if attempts < MAX_ATTEMPTS {
          wanted := wanted + {id};
        }
      }
    }

    method RetryLate(now: nat) returns (open: set<InvId>)
      requires Valid()
      modifies this`wanted, this`inFlight
      ensures Valid() && State() == CheckTimeouts(old(State()), now) && open == wanted
    {
      ghost var before := State();
      RequeueLate(now);
      CheckTimeoutsInv(before, now);
      open := wanted;
    }

    /** Forgets arbitrary held items until at most `keep` are left. */
    method Prune(keep: nat) returns (ghost forgotten: set<InvId>)
      requires Valid()
      modifies this`have
      ensures Valid() && State() == PruneHave(old(State()), forgotten)
      ensures forgotten <= old(have) && |have| == if |old(have)| > keep then keep else |old(have)|
    {
      ghost var before := State();
      forgotten := {};
      while |have| > keep
        invariant have == before.have - forgotten && forgotten <= before.have
        invariant |have| <= keep ==> |have| == if |before.have| > keep then keep else |before.have|
      {
        var id :| id in have;
        have := have - {id};
        forgotten := forgotten + {id};
      }
      PruneHaveInv(before, forgotten);
    }
  }
}
