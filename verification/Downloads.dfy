/** The block download scheduler of src/p2p/legacy.rs (Downloader) as a value, with the history of
    what went through it, and what every interleaving of its operations keeps. */
module Downloads {
  import opened Headers
  import opened Lists

  type Addr = nat

  /** How long a requested block may take, in seconds. */
  const BLK_TIMEOUT: nat := 120

  datatype Request = Request(peer: Addr, deadline: nat)

  datatype Windows = Windows(global: nat, perPeer: nat)

  datatype Scheduler = Scheduler(
    inflight: map<Hash, Request>,
    perPeer: map<Addr, nat>,
    queue: seq<Hash>,
    total: nat,
    downloaded: nat)

  const EMPTY: Scheduler := Scheduler(map[], map[], [], 0, 0)

  function CountOf(perPeer: map<Addr, nat>, a: Addr): nat {
    if a in perPeer then perPeer[a] else 0
  }

  /** The blocks that are really in flight from a peer. */
  function FromPeer(inflight: map<Hash, Request>, a: Addr): set<Hash> {
    set h | h in inflight && inflight[h].peer == a
  }

  // ---------------------------------------------------------------- operations

  function Pushed(d: Scheduler, hs: seq<Hash>): Scheduler {
    d.(queue := d.queue + hs, total := d.total + |hs|)
  }

  predicate CanAssign(w: Windows, d: Scheduler, a: Addr) {
    |d.inflight| < w.global && CountOf(d.perPeer, a) < w.perPeer && d.queue != []
  }

  function AssignedOne(d: Scheduler, a: Addr, now: nat): Scheduler
    requires d.queue != []
  {
    d.(inflight := d.inflight[d.queue[0] := Request(a, now + BLK_TIMEOUT)],
       perPeer := d.perPeer[a := CountOf(d.perPeer, a) + 1],
       queue := d.queue[1..])
  }

  function Completed(d: Scheduler, h: Hash): Scheduler {
    if h !in d.inflight then d else
    var a := d.inflight[h].peer;
    d.(inflight := d.inflight - {h},
       perPeer := if CountOf(d.perPeer, a) > 0 then d.perPeer[a := CountOf(d.perPeer, a) - 1] else d.perPeer,
       downloaded := d.downloaded + 1)
  }

  function Overdue(inflight: map<Hash, Request>, now: nat): set<Hash> {
    set h | h in inflight && inflight[h].deadline <= now
  }

  function OverdueFrom(inflight: map<Hash, Request>, now: nat, a: Addr): set<Hash> {
    set h | h in inflight && inflight[h].deadline <= now && inflight[h].peer == a
  }

  function Lowered(n: nat, amount: nat): nat {
    if n >= amount then n - amount else 0
  }

  /** Takes the overdue requests out of flight. */
  function TimedOut(d: Scheduler, now: nat): Scheduler {
    d.(inflight := d.inflight - Overdue(d.inflight, now),
       perPeer := map a | a in d.perPeer :: Lowered(d.perPeer[a], |OverdueFrom(d.inflight, now, a)|))
  }

  // ---------------------------------------------------------------- history

  /** All that was ever queued, handed out, received and timed out, in order, and for each request that
      was overwritten by a second request for the same block, the peer it had been sent to. */
  datatype History = History(
    pushed: seq<Hash>,
    handedOut: seq<Hash>,
    received: seq<Hash>,
    displaced: seq<Addr>,
    timedOut: seq<Hash>)

  const NOTHING: History := History([], [], [], [], [])

  function Occurrences(s: seq<Addr>, a: Addr): nat {
    if s == [] then 0 else Occurrences(s[..|s| - 1], a) + (if s[|s| - 1] == a then 1 else 0)
  }

  /** The scheduler together with its history. */
  datatype Ledger = Ledger(d: Scheduler, past: History)

  function Push(l: Ledger, hs: seq<Hash>): Ledger {
    Ledger(Pushed(l.d, hs), l.past.(pushed := l.past.pushed + hs))
  }

  function AssignOne(l: Ledger, a: Addr, now: nat): Ledger
    requires l.d.queue != []
  {
    var h := l.d.queue[0];
    Ledger(AssignedOne(l.d, a, now),
           l.past.(handedOut := l.past.handedOut + [h],
                   displaced := if h in l.d.inflight then l.past.displaced + [l.d.inflight[h].peer]
                                else l.past.displaced))
  }

  function Assign(w: Windows, l: Ledger, a: Addr, now: nat): Ledger
    decreases |l.d.queue|
  {
    if CanAssign(w, l.d, a) then Assign(w, AssignOne(l, a, now), a, now) else l
  }

  function Complete(l: Ledger, h: Hash): Ledger {
    Ledger(Completed(l.d, h), if h in l.d.inflight then l.past.(received := l.past.received + [h]) else l.past)
  }

  /** The event loop's tick: overdue blocks go back to the end of the queue, in any order. */
  function Requeue(l: Ledger, now: nat, order: seq<Hash>): Ledger {
    Push(Ledger(TimedOut(l.d, now), l.past.(timedOut := l.past.timedOut + order)), order)
  }

  // ---------------------------------------------------------------- the invariant

  /** What is recorded for a peer is what is really in flight from it plus the requests that were
      overwritten under it; the record never exceeds the window. */
  ghost predicate PeerBalanced(w: Windows, l: Ledger, a: Addr) {
    && CountOf(l.d.perPeer, a) == |FromPeer(l.d.inflight, a)| + Occurrences(l.past.displaced, a)
    && CountOf(l.d.perPeer, a) <= w.perPeer
  }

  ghost predicate NothingLost(l: Ledger) {
    Elements(l.past.pushed) == Elements(l.d.queue) + l.d.inflight.Keys + Elements(l.past.received)
  }

  /** Blocks are handed out in the order in which they were queued. */
  ghost predicate FirstInFirstOut(l: Ledger) {
    l.past.pushed == l.past.handedOut + l.d.queue
  }

  ghost predicate AllBalanced(w: Windows, l: Ledger) {
    forall a :: PeerBalanced(w, l, a)
  }

  ghost predicate LedgerInv(w: Windows, l: Ledger) {
    && FirstInFirstOut(l)
    && NothingLost(l)
    && |l.d.inflight| <= w.global
    && AllBalanced(w, l)
    && l.d.total == |l.past.pushed| && l.d.downloaded == |l.past.received|
  }

  lemma EmptyInv(w: Windows)
    ensures LedgerInv(w, Ledger(EMPTY, NOTHING))
  {
    forall a
      ensures PeerBalanced(w, Ledger(EMPTY, NOTHING), a)
    {
      assert FromPeer(EMPTY.inflight, a) == {};
    }
  }

  lemma PushFirstInFirstOut(l: Ledger, hs: seq<Hash>)
    requires FirstInFirstOut(l)
    ensures FirstInFirstOut(Push(l, hs))
  {
  }

  lemma PushBalanced(w: Windows, l: Ledger, hs: seq<Hash>)
    requires AllBalanced(w, l)
    ensures AllBalanced(w, Push(l, hs))
  {
    forall a
      ensures PeerBalanced(w, Push(l, hs), a)
    {
      assert PeerBalanced(w, l, a);
    }
  }

  lemma PushInv(w: Windows, l: Ledger, hs: seq<Hash>)
    requires LedgerInv(w, l)
    ensures LedgerInv(w, Push(l, hs))
  {
    PushFirstInFirstOut(l, hs);
    PushBalanced(w, l, hs);
    ElementsConcat(l.past.pushed, hs);
    ElementsConcat(l.d.queue, hs);
  }

  // ---------------------------------------------------------------- one assignment

  /** Putting a request into flight: it joins its peer, and leaves the peer it was with before. */
  lemma FromPeerAfterInsert(inflight: map<Hash, Request>, h: Hash, r: Request, a: Addr)
    ensures |FromPeer(inflight[h := r], a)|
         == |FromPeer(inflight, a)| + (if r.peer == a then 1 else 0)
          - (if h in inflight && inflight[h].peer == a then 1 else 0)
  {
    var rest := FromPeer(inflight, a) - {h};
    if r.peer == a {
      assert FromPeer(inflight[h := r], a) == rest + {h};
    } else {
      assert FromPeer(inflight[h := r], a) == rest;
    }
    if h in FromPeer(inflight, a) {
      assert FromPeer(inflight, a) == rest + {h};
    } else {
      assert FromPeer(inflight, a) == rest;
    }
  }

  lemma {:induction false} OccurrencesAppend(s: seq<Addr>, b: Addr, a: Addr)
    ensures Occurrences(s + [b], a) == Occurrences(s, a) + (if b == a then 1 else 0)
  {
    assert (s + [b])[..|s|] == s;
  }

  lemma AssignOneBalanced(w: Windows, l: Ledger, a: Addr, now: nat, b: Addr)
    requires CanAssign(w, l.d, a) && PeerBalanced(w, l, b)
    ensures PeerBalanced(w, AssignOne(l, a, now), b)
  {
    var h := l.d.queue[0];
    FromPeerAfterInsert(l.d.inflight, h, Request(a, now + BLK_TIMEOUT), b);
    if h in l.d.inflight {
      OccurrencesAppend(l.past.displaced, l.d.inflight[h].peer, b);
    }
  }

  lemma AssignOneInv(w: Windows, l: Ledger, a: Addr, now: nat)
    requires LedgerInv(w, l) && CanAssign(w, l.d, a)
    ensures LedgerInv(w, AssignOne(l, a, now))
  {
    forall b
      ensures PeerBalanced(w, AssignOne(l, a, now), b)
    {
      assert PeerBalanced(w, l, b);
      AssignOneBalanced(w, l, a, now, b);
    }
    AssignOneFirstInFirstOut(l, a, now);
    AssignOneNothingLost(l, a, now);
  }

  lemma AssignOneFirstInFirstOut(l: Ledger, a: Addr, now: nat)
    requires l.d.queue != [] && FirstInFirstOut(l)
    ensures FirstInFirstOut(AssignOne(l, a, now))
  {
    ElementsStep(l.d.queue);
  }

  lemma AssignOneNothingLost(l: Ledger, a: Addr, now: nat)
    requires l.d.queue != [] && NothingLost(l)
    ensures NothingLost(AssignOne(l, a, now))
    ensures |AssignOne(l, a, now).d.inflight| <= |l.d.inflight| + 1
  {
    ElementsStep(l.d.queue);
    assert AssignOne(l, a, now).d.inflight.Keys == l.d.inflight.Keys + {l.d.queue[0]};
  }

  lemma {:induction false} AssignInv(w: Windows, l: Ledger, a: Addr, now: nat)
    requires LedgerInv(w, l)
    ensures LedgerInv(w, Assign(w, l, a, now))
    decreases |l.d.queue|
  {
    if CanAssign(w, l.d, a) {
      AssignOneInv(w, l, a, now);
      AssignInv(w, AssignOne(l, a, now), a, now);
    }
  }

  /** Assignment goes on until a window is full or nothing is queued, and hands out blocks in queue
      order ... */
  lemma {:induction false} AssignExhausts(w: Windows, l: Ledger, a: Addr, now: nat)
    ensures var l' := Assign(w, l, a, now);
            && !CanAssign(w, l'.d, a)
            && |l'.d.queue| <= |l.d.queue|
            && l'.d.queue == l.d.queue[|l.d.queue| - |l'.d.queue|..]
            && l'.past.handedOut == l.past.handedOut + l.d.queue[..|l.d.queue| - |l'.d.queue|]
    decreases |l.d.queue|
  {
    var q := l.d.queue;
    if CanAssign(w, l.d, a) {
      AssignExhausts(w, AssignOne(l, a, now), a, now);
      HeadThenRest(l.past.handedOut, q, |q| - |Assign(w, l, a, now).d.queue|);
    } else {
      assert q[0..] == q;
      assert l.past.handedOut + q[..0] == l.past.handedOut;
    }
  }

  /** ... and touches only the peer it serves. */
  lemma {:induction false} AssignTouchesOne(w: Windows, l: Ledger, a: Addr, now: nat, b: Addr)
    requires b != a
    ensures var l' := Assign(w, l, a, now);
            CountOf(l'.d.perPeer, b) == CountOf(l.d.perPeer, b)
    decreases |l.d.queue|
  {
    if CanAssign(w, l.d, a) {
      AssignTouchesOne(w, AssignOne(l, a, now), a, now, b);
    }
  }

  /** Assignment neither queues nor receives anything. */
  lemma {:induction false} AssignKeepsPast(w: Windows, l: Ledger, a: Addr, now: nat)
    ensures var past' := Assign(w, l, a, now).past;
            past'.pushed == l.past.pushed && past'.received == l.past.received
    decreases |l.d.queue|
  {
    if CanAssign(w, l.d, a) {
      AssignKeepsPast(w, AssignOne(l, a, now), a, now);
    }
  }

  lemma HeadThenRest(s: seq<Hash>, q: seq<Hash>, n: nat)
    requires 0 < n <= |q|
    ensures q[1..][n - 1..] == q[n..]
    ensures s + [q[0]] + q[1..][..n - 1] == s + q[..n]
  {
    assert [q[0]] + q[1..][..n - 1] == q[..n];
    assert s + [q[0]] + q[1..][..n - 1] == s + ([q[0]] + q[1..][..n - 1]);
  }

  // ---------------------------------------------------------------- completion and timeout

  lemma FromPeerAfterRemove(inflight: map<Hash, Request>, gone: set<Hash>, a: Addr)
    ensures |FromPeer(inflight - gone, a)| == |FromPeer(inflight, a)| - |FromPeer(inflight, a) * gone|
  {
    var all, out := FromPeer(inflight, a), FromPeer(inflight, a) * gone;
    assert FromPeer(inflight - gone, a) == all - out;
    assert all == (all - out) + out;
  }

  lemma CompleteBalanced(w: Windows, l: Ledger, h: Hash, b: Addr)
    requires PeerBalanced(w, l, b) && h in l.d.inflight && PeerBalanced(w, l, l.d.inflight[h].peer)
    ensures PeerBalanced(w, Complete(l, h), b)
  {
    FromPeerAfterRemove(l.d.inflight, {h}, b);
    if l.d.inflight[h].peer == b {
      assert FromPeer(l.d.inflight, b) * {h} == {h};
      FromPeerAfterRemove(l.d.inflight, {h}, b);
    } else {
      assert FromPeer(l.d.inflight, b) * {h} == {};
    }
  }

  lemma CompleteInv(w: Windows, l: Ledger, h: Hash)
    requires LedgerInv(w, l)
    ensures LedgerInv(w, Complete(l, h))
  {
    if h in l.d.inflight {
      var l' := Complete(l, h);
      forall b
        ensures PeerBalanced(w, l', b)
      {
        assert PeerBalanced(w, l, b) && PeerBalanced(w, l, l.d.inflight[h].peer);
        CompleteBalanced(w, l, h, b);
      }
      ElementsAppended(l.past.received, h);
      MapShrinks(l.d.inflight, {h});
    }
  }

  lemma MapShrinks<K, V>(m: map<K, V>, gone: set<K>)
    ensures |m - gone| <= |m|
  {
    assert (m - gone).Keys == m.Keys - gone;
    assert |m.Keys| == |m.Keys - gone| + |m.Keys * gone| by {
      assert m.Keys == (m.Keys - gone) + (m.Keys * gone);
    }
  }

  lemma TimedOutBalanced(w: Windows, l: Ledger, now: nat, b: Addr)
    requires PeerBalanced(w, l, b)
    ensures forall order :: PeerBalanced(w, Ledger(TimedOut(l.d, now), l.past.(timedOut := order)), b)
  {
    var gone := Overdue(l.d.inflight, now);
    FromPeerAfterRemove(l.d.inflight, gone, b);
    assert FromPeer(l.d.inflight, b) * gone == OverdueFrom(l.d.inflight, now, b);
  }

  lemma RequeueInv(w: Windows, l: Ledger, now: nat, order: seq<Hash>)
    requires LedgerInv(w, l) && Elements(order) == Overdue(l.d.inflight, now)
    ensures LedgerInv(w, Requeue(l, now, order))
  {
    var out := Ledger(TimedOut(l.d, now), l.past.(timedOut := l.past.timedOut + order));
    forall b
      ensures PeerBalanced(w, out, b)
    {
      assert PeerBalanced(w, l, b);
      TimedOutBalanced(w, l, now, b);
    }
    PushBalanced(w, out, order);
    PushFirstInFirstOut(out, order);
    RequeueNothingLost(l, now, order);
    MapShrinks(l.d.inflight, Overdue(l.d.inflight, now));
  }

  lemma RequeueNothingLost(l: Ledger, now: nat, order: seq<Hash>)
    requires NothingLost(l) && Elements(order) == Overdue(l.d.inflight, now)
    ensures NothingLost(Requeue(l, now, order))
  {
    ElementsConcat(l.past.pushed, order);
    ElementsConcat(l.d.queue, order);
    assert l.d.inflight.Keys == (l.d.inflight.Keys - Overdue(l.d.inflight, now)) + Overdue(l.d.inflight, now);
  }

  // ---------------------------------------------------------------- where every request went

  /** Every request that was ever handed out is in flight, was answered, was overwritten or timed out, and
      only one of these. */
  ghost predicate Conserved(l: Ledger) {
    |l.past.handedOut| == |l.d.inflight| + |l.past.received| + |l.past.displaced| + |l.past.timedOut|
  }

  lemma AssignOneConserves(l: Ledger, a: Addr, now: nat)
    requires l.d.queue != [] && Conserved(l)
    ensures Conserved(AssignOne(l, a, now))
  {
    var h := l.d.queue[0];
    KeysAfterInsert(l.d.inflight, h, Request(a, now + BLK_TIMEOUT));
    if h in l.d.inflight {
      assert l.d.inflight.Keys + {h} == l.d.inflight.Keys;
    }
  }

  lemma {:induction false} AssignConserves(w: Windows, l: Ledger, a: Addr, now: nat)
    requires Conserved(l)
    ensures Conserved(Assign(w, l, a, now))
    decreases |l.d.queue|
  {
    if CanAssign(w, l.d, a) {
      AssignOneConserves(l, a, now);
      AssignConserves(w, AssignOne(l, a, now), a, now);
    }
  }

  lemma CompleteConserves(l: Ledger, h: Hash)
    requires Conserved(l)
    ensures Conserved(Complete(l, h))
  {
    if h in l.d.inflight {
      KeysAfterRemove(l.d.inflight, {h});
    }
  }

  lemma RequeueConserves(l: Ledger, now: nat, order: seq<Hash>)
    requires Conserved(l) && NoRepeats(order) && Elements(order) == Overdue(l.d.inflight, now)
    ensures Conserved(Requeue(l, now, order))
  {
    CountElements(order);
    KeysAfterRemove(l.d.inflight, Elements(order));
    assert l.d.inflight.Keys == (l.d.inflight.Keys - Elements(order)) + Elements(order);
  }

  /** What the total stands for: everything still queued or in flight, everything downloaded, and once more
      each request that was overwritten or timed out. So the progress never exceeds the total, and reaches
      it if and only if nothing is outstanding and no request was ever overwritten or timed out. */
  lemma TotalExact(w: Windows, l: Ledger)
    requires LedgerInv(w, l) && Conserved(l)
    ensures l.d.total == |l.d.queue| + |l.d.inflight| + l.d.downloaded + |l.past.displaced| + |l.past.timedOut|
    ensures l.d.downloaded <= l.d.total
    ensures l.d.downloaded == l.d.total
            <==> l.d.queue == [] && l.d.inflight == map[] && l.past.displaced == [] && l.past.timedOut == []
  {
    assert |l.past.pushed| == |l.past.handedOut| + |l.d.queue|;
  }

  // ---------------------------------------------------------------- what the balance says

  /** The record of a peer is exact if and only if no request to it was ever overwritten. */
  lemma RecordExactIff(w: Windows, l: Ledger, a: Addr)
    requires LedgerInv(w, l)
    ensures |FromPeer(l.d.inflight, a)| <= CountOf(l.d.perPeer, a) <= w.perPeer
    ensures CountOf(l.d.perPeer, a) == |FromPeer(l.d.inflight, a)| <==> Occurrences(l.past.displaced, a) == 0
  {
    assert PeerBalanced(w, l, a);
  }

  /** Overwritten requests are never given back to the peer that lost them. With blocks queued and
      nothing in flight, a peer is refused work if and only if it has lost its whole window that way
      (or a window is zero). */
  lemma StarvedIff(w: Windows, l: Ledger, a: Addr)
    requires LedgerInv(w, l) && l.d.inflight == map[] && l.d.queue != [] && w.global > 0
    ensures !CanAssign(w, l.d, a) <==> Occurrences(l.past.displaced, a) == w.perPeer
  {
    assert PeerBalanced(w, l, a);
    assert FromPeer(l.d.inflight, a) == {};
  }

  // ---------------------------------------------------------------- when a request is overwritten

  /** Assignment only adds to the list of peers whose requests were overwritten. */
  lemma {:induction false} AssignForgetsNothing(w: Windows, l: Ledger, a: Addr, now: nat)
    ensures l.past.displaced <= Assign(w, l, a, now).past.displaced
    decreases |l.d.queue|
  {
    if CanAssign(w, l.d, a) {
      AssignForgetsNothing(w, AssignOne(l, a, now), a, now);
    }
  }

  /** The blocks that an assignment takes from the front of the queue. */
  ghost function TakenBy(w: Windows, l: Ledger, a: Addr, now: nat): seq<Hash> {
    AssignExhausts(w, l, a, now);
    l.d.queue[..|l.d.queue| - |Assign(w, l, a, now).d.queue|]
  }

  lemma {:induction false} TakenStep(w: Windows, l: Ledger, a: Addr, now: nat)
    requires CanAssign(w, l.d, a)
    ensures TakenBy(w, l, a, now) == [l.d.queue[0]] + TakenBy(w, AssignOne(l, a, now), a, now)
  {
    var q := l.d.queue;
    AssignExhausts(w, AssignOne(l, a, now), a, now);
    var n := |q| - |Assign(w, l, a, now).d.queue|;
    assert q[..n] == [q[0]] + q[1..][..n - 1];
  }

  /** An assignment overwrites no request if and only if the blocks it hands out are all different and none
      of them is in flight. */
  lemma {:induction false} AssignDisplacesIff(w: Windows, l: Ledger, a: Addr, now: nat)
    ensures var taken := TakenBy(w, l, a, now);
            Assign(w, l, a, now).past.displaced == l.past.displaced
            <==> NoRepeats(taken) && Elements(taken) !! l.d.inflight.Keys
    decreases |l.d.queue|
  {
    if CanAssign(w, l.d, a) {
      var h, next := l.d.queue[0], AssignOne(l, a, now);
      var rest := TakenBy(w, next, a, now);
      AssignDisplacesIff(w, next, a, now);
      AssignForgetsNothing(w, next, a, now);
      TakenStep(w, l, a, now);
      HeadSharesNothing(h, rest, l.d.inflight.Keys);
      KeysAfterInsert(l.d.inflight, h, Request(a, now + BLK_TIMEOUT));
    } else {
      assert TakenBy(w, l, a, now) == [];
    }
  }

  lemma HeadSharesNothing(h: Hash, rest: seq<Hash>, flying: set<Hash>)
    ensures NoRepeats([h] + rest) && Elements([h] + rest) !! flying
            <==> h !in flying && NoRepeats(rest) && Elements(rest) !! flying + {h}
  {
    NoRepeatsConcat([h], rest);
    ElementsConcat([h], rest);
    ElementsSingle(h);
  }

  // ---------------------------------------------------------------- runs without a repeated block

  /** Three places hold the plan between them, and share nothing. */
  ghost predicate InOnePlace(plan: set<Hash>, queued: set<Hash>, flying: set<Hash>, received: set<Hash>) {
    plan == queued + flying + received && queued !! flying && queued !! received && flying !! received
  }

  /** Every planned block is in exactly one place: queued, in flight, or received. */
  ghost predicate Partitioned(l: Ledger, plan: set<Hash>) {
    && NoRepeats(l.d.queue) && NoRepeats(l.past.received)
    && InOnePlace(plan, Elements(l.d.queue), l.d.inflight.Keys, Elements(l.past.received))
    && l.past.displaced == []
  }

  lemma PlanPartitioned(l: Ledger, plan: seq<Hash>)
    requires l == Ledger(EMPTY, NOTHING) && NoRepeats(plan)
    ensures Partitioned(Push(l, plan), Elements(plan))
  {
    assert [] + plan == plan;
  }

  lemma QueueToFlight(plan: set<Hash>, q: set<Hash>, f: set<Hash>, r: set<Hash>, h: Hash, q': set<Hash>)
    requires InOnePlace(plan, q, f, r) && q == {h} + q' && h !in q'
    ensures InOnePlace(plan, q', f + {h}, r) && h !in f
  {
  }

  lemma FlightToReceived(plan: set<Hash>, q: set<Hash>, f: set<Hash>, r: set<Hash>, h: Hash)
    requires InOnePlace(plan, q, f, r) && h in f
    ensures InOnePlace(plan, q, f - {h}, r + {h}) && h !in r
  {
  }

  lemma FlightToQueue(plan: set<Hash>, q: set<Hash>, f: set<Hash>, r: set<Hash>, late: set<Hash>)
    requires InOnePlace(plan, q, f, r) && late <= f
    ensures InOnePlace(plan, q + late, f - late, r) && q !! late
  {
  }

  lemma AssignOnePartitioned(l: Ledger, plan: set<Hash>, a: Addr, now: nat)
    requires Partitioned(l, plan) && l.d.queue != []
    ensures Partitioned(AssignOne(l, a, now), plan)
  {
    var h, rest := l.d.queue[0], l.d.queue[1..];
    ElementsStep(l.d.queue);
    TailWithoutHead(l.d.queue);
    QueueToFlight(plan, Elements(l.d.queue), l.d.inflight.Keys, Elements(l.past.received), h, Elements(rest));
    KeysAfterInsert(l.d.inflight, h, Request(a, now + BLK_TIMEOUT));
  }

  lemma KeysAfterInsert(inflight: map<Hash, Request>, h: Hash, r: Request)
    ensures inflight[h := r].Keys == inflight.Keys + {h}
  {
  }

  lemma {:induction false} AssignPartitioned(w: Windows, l: Ledger, plan: set<Hash>, a: Addr, now: nat)
    requires Partitioned(l, plan)
    ensures Partitioned(Assign(w, l, a, now), plan)
    decreases |l.d.queue|
  {
    if CanAssign(w, l.d, a) {
      AssignOnePartitioned(l, plan, a, now);
      AssignPartitioned(w, AssignOne(l, a, now), plan, a, now);
    }
  }

  lemma CompletePartitioned(l: Ledger, plan: set<Hash>, h: Hash)
    requires Partitioned(l, plan)
    ensures Partitioned(Complete(l, h), plan)
  {
    if h in l.d.inflight {
      FlightToReceived(plan, Elements(l.d.queue), l.d.inflight.Keys, Elements(l.past.received), h);
      ElementsAppended(l.past.received, h);
      NoRepeatsAppended(l.past.received, h);
      KeysAfterRemove(l.d.inflight, {h});
    }
  }

  lemma KeysAfterRemove(inflight: map<Hash, Request>, gone: set<Hash>)
    ensures (inflight - gone).Keys == inflight.Keys - gone
  {
  }

  lemma RequeuePartitioned(l: Ledger, plan: set<Hash>, now: nat, order: seq<Hash>)
    requires Partitioned(l, plan) && NoRepeats(order) && Elements(order) == Overdue(l.d.inflight, now)
    ensures Partitioned(Requeue(l, now, order), plan)
  {
    FlightToQueue(plan, Elements(l.d.queue), l.d.inflight.Keys, Elements(l.past.received), Elements(order));
    ElementsConcat(l.d.queue, order);
    NoRepeatsConcat(l.d.queue, order);
    KeysAfterRemove(l.d.inflight, Elements(order));
  }

  /** The progress counter counts distinct planned blocks: what is planned is what is still queued
      plus what is in flight plus what was downloaded, so once nothing is queued or in flight all of
      the plan, and nothing else, has been received. */
  lemma PartitionCounts(w: Windows, l: Ledger, plan: set<Hash>)
    requires LedgerInv(w, l) && Partitioned(l, plan)
    ensures |plan| == |l.d.queue| + |l.d.inflight| + l.d.downloaded
    ensures l.d.queue == [] && l.d.inflight == map[] <==> Elements(l.past.received) == plan
    ensures forall a :: CountOf(l.d.perPeer, a) == |FromPeer(l.d.inflight, a)|
  {
    CountElements(l.d.queue);
    CountElements(l.past.received);
    PlacesCount(plan, Elements(l.d.queue), l.d.inflight.Keys, Elements(l.past.received));
    forall a
      ensures CountOf(l.d.perPeer, a) == |FromPeer(l.d.inflight, a)|
    {
      RecordExactIff(w, l, a);
    }
  }

  lemma PlacesCount(plan: set<Hash>, q: set<Hash>, f: set<Hash>, r: set<Hash>)
    requires InOnePlace(plan, q, f, r)
    ensures |plan| == |q| + |f| + |r|
    ensures r == plan <==> q == {} && f == {}
  {
    assert |q + f| == |q| + |f|;
    assert |(q + f) + r| == |q + f| + |r|;
    if r == plan {
      assert forall x :: x in q ==> x in plan;
      assert forall x :: x in f ==> x in plan;
    }
  }
}
