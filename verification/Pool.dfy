/** The mempool as a value: its redundant views, what each public operation does to
    them, and the invariant that says the views agree (src/mempool/txmempool.rs). */
module Pools {
  import opened Policy
  import opened Entries
  import opened FiniteSums

  type Table = map<Txid, Entry>

  datatype Pool = Pool(entries: Table, spends: map<OutPoint, Txid>, totalSize: int, totalFees: int)

  const EMPTY: Pool := Pool(map[], map[], 0, 0)

  // ---------------------------------------------------------------- lookups

  /** The spender recorded for each of the first `n` inputs, in input order, with repeats. */
  function ConflictsUpTo(spends: map<OutPoint, Txid>, tx: Transaction, n: nat): seq<Txid>
    requires n <= |tx.inputs|
  {
    if n == 0 then [] else
    var before := ConflictsUpTo(spends, tx, n - 1);
    var o := tx.inputs[n - 1].previousOutput;
    if o in spends then before + [spends[o]] else before
  }

  function FindConflicts(p: Pool, tx: Transaction): seq<Txid> {
    ConflictsUpTo(p.spends, tx, |tx.inputs|)
  }

  function FindParents(es: Table, tx: Transaction): set<Txid> {
    set q | q in InputTxids(tx) && q in es
  }

  // ---------------------------------------------------------------- link updates

  function WithChild(e: Entry, t: Txid, added: Entry): Entry {
    UpdateDescendantState(e.(children := e.children + {t}), added.vsize, added.fee, 1)
  }

  function WithoutChild(e: Entry, t: Txid, gone: Entry): Entry {
    UpdateDescendantState(e.(children := e.children - {t}), -(gone.vsize as int), -(gone.fee as int), -1)
  }

  function WithoutParent(e: Entry, t: Txid, gone: Entry): Entry {
    UpdateAncestorState(e.(parents := e.parents - {t}), -(gone.vsize as int), -(gone.fee as int), -1)
  }

  function LinkToParents(es: Table, parents: set<Txid>, t: Txid, added: Entry): Table {
    map x | x in es :: if x in parents then WithChild(es[x], t, added) else es[x]
  }

  function UnlinkFromParents(es: Table, parents: set<Txid>, t: Txid, gone: Entry): Table {
    map x | x in es :: if x in parents then WithoutChild(es[x], t, gone) else es[x]
  }

  function UnlinkFromChildren(es: Table, children: set<Txid>, t: Txid, gone: Entry): Table {
    map x | x in es :: if x in children then WithoutParent(es[x], t, gone) else es[x]
  }

  // ---------------------------------------------------------------- operations

  /** The pool after removing an entry it holds. */
  function Removed(p: Pool, t: Txid): Pool
    requires t in p.entries
  {
    var gone := p.entries[t];
    Pool(
      UnlinkFromChildren(UnlinkFromParents(p.entries - {t}, gone.parents, t, gone), gone.children, t, gone),
      p.spends - Outpoints(gone.tx),
      p.totalSize - gone.vsize,
      p.totalFees - gone.fee)
  }

  /** Removal in sequence; identifiers the pool no longer holds are passed over. */
  function RemovedAll(p: Pool, ts: seq<Txid>): Pool
    decreases |ts|
  {
    if ts == [] then p
    else RemovedAll(if ts[0] in p.entries then Removed(p, ts[0]) else p, ts[1..])
  }

  function OwnOf(es: Table, m: Metric): map<Txid, int> {
    map t | t in es :: Own(m, es[t])
  }

  function RecordedOf(es: Table, m: Metric): map<Txid, int> {
    map t | t in es :: Recorded(m, es[t])
  }

  /** The entry as it is inserted: linked to the parents the pool holds, its ancestor
      totals the sum of what its direct parents record, plus itself. */
  ghost function Linked(es: Table, e: Entry): Entry {
    var parents := FindParents(es, e.tx);
    e.(parents := parents,
       ancestorCount := Max(Sum(parents, RecordedOf(es, Count)), 0) + 1,
       ancestorSize := Max(Sum(parents, RecordedOf(es, Size)), 0) + e.vsize,
       ancestorFees := Max(Sum(parents, RecordedOf(es, Fees)), 0) + e.fee)
  }

  /** The pool after inserting a linked entry. */
  function Inserted(p: Pool, e: Entry): Pool {
    var t := e.tx.txid;
    Pool(
      LinkToParents(p.entries, e.parents, t, e)[t := e],
      map o | o in p.spends.Keys + Outpoints(e.tx) :: if o in Outpoints(e.tx) then t else p.spends[o],
      p.totalSize + e.vsize,
      p.totalFees + e.fee)
  }

  // ---------------------------------------------------------------- ancestry

  ghost predicate StepsUp(es: Table, walk: seq<Txid>, i: nat) {
    i + 1 < |walk| && walk[i] in es && walk[i + 1] in es[walk[i]].parents
  }

  /** A walk from child to parent along recorded links. */
  ghost predicate IsWalk(es: Table, walk: seq<Txid>) {
    forall i :: 0 <= i < |walk| - 1 ==> StepsUp(es, walk, i)
  }

  ghost predicate WalkFromTo(es: Table, walk: seq<Txid>, t: Txid, a: Txid) {
    |walk| >= 2 && walk[0] == t && walk[|walk| - 1] == a && IsWalk(es, walk)
  }

  /** `a` is a proper ancestor of `t`: some non-empty walk leads from `t` to `a`. */
  ghost predicate IsAncestor(es: Table, a: Txid, t: Txid) {
    exists walk :: WalkFromTo(es, walk, t, a)
  }

  /** The transitive closure of the parent links, inside the pool. */
  ghost function Ancestors(es: Table, t: Txid): set<Txid> {
    set a | a in es && IsAncestor(es, a, t)
  }

  ghost function Descendants(es: Table, t: Txid): set<Txid> {
    set d | d in es && IsAncestor(es, t, d)
  }

  // ---------------------------------------------------------------- the invariant

  ghost predicate EntriesSound(es: Table) {
    forall t :: t in es ==>
      var e := es[t];
      e.tx.txid == t && e.vsize == e.tx.vsize && e.feeRate == RateOf(e.fee, e.vsize)
      && e.signalsReplacement == SignalsRbf(e.tx)
  }

  ghost predicate LinksClosed(es: Table) {
    forall t :: t in es ==> es[t].parents <= es.Keys && es[t].children <= es.Keys
  }

  ghost predicate LinksMirror(es: Table) {
    forall c, q {:trigger q in es[c].parents} {:trigger c in es[q].children} ::
      c in es && q in es ==> (q in es[c].parents <==> c in es[q].children)
  }

  /** The recorded parents of an entry are exactly the pool transactions it spends from
      that were inserted before it; `stamp` numbers the insertions. */
  ghost predicate LinksByAge(es: Table, stamp: map<Txid, nat>) {
    && stamp.Keys == es.Keys
    && forall c, q {:trigger q in es[c].parents} {:trigger q in InputTxids(es[c].tx)} :: c in es && q in es ==>
         (q in es[c].parents <==> q in InputTxids(es[c].tx) && stamp[q] < stamp[c])
  }

  ghost predicate Links(es: Table, stamp: map<Txid, nat>) {
    LinksClosed(es) && LinksMirror(es) && LinksByAge(es, stamp)
  }

  /** `spends` is the inverse index of all pool inputs. */
  ghost predicate SpendsExact(es: Table, spends: map<OutPoint, Txid>) {
    && (forall t, o :: t in es && o in Outpoints(es[t].tx) ==> o in spends && spends[o] == t)
    && (forall o :: o in spends ==> spends[o] in es && o in Outpoints(es[spends[o]].tx))
  }

  ghost predicate TotalsExact(p: Pool) {
    && p.totalSize == Sum(p.entries.Keys, OwnOf(p.entries, Size))
    && p.totalFees == Sum(p.entries.Keys, OwnOf(p.entries, Fees))
  }

  /** Descendant totals cover the entry and its direct children. */
  ghost predicate DescendantsExact(es: Table) {
    forall m, t :: t in es ==>
      RecordedBelow(m, es[t]) == Own(m, es[t]) + Sum(es[t].children, OwnOf(es, m))
  }

  /** How far an entry's recorded ancestor total lies above the true one. */
  ghost function Slack(es: Table, m: Metric, t: Txid): int
    requires t in es
  {
    Recorded(m, es[t]) - Own(m, es[t]) - Sum(Ancestors(es, t), OwnOf(es, m))
  }

  ghost predicate AncestorsCovered(es: Table) {
    forall m, t :: t in es ==> Slack(es, m, t) >= 0
  }

  ghost predicate WithinLimits(policy: Policy, es: Table) {
    forall t :: t in es ==> CheckAncestorLimits(policy, es[t].ancestorCount, es[t].ancestorSize).Pass?
  }

  ghost predicate FeesAcceptable(policy: Policy, es: Table) {
    forall t :: t in es ==> IsFeeAcceptable(policy, es[t].feeRate)
  }

  /** The redundant views describe one and the same set of transactions. */
  ghost predicate ViewsAgree(p: Pool, stamp: map<Txid, nat>) {
    && EntriesSound(p.entries)
    && Links(p.entries, stamp)
    && SpendsExact(p.entries, p.spends)
    && TotalsExact(p)
  }

  /** The totals each entry carries bound what they stand for. */
  ghost predicate TotalsSound(policy: Policy, es: Table) {
    && DescendantsExact(es)
    && AncestorsCovered(es)
    && WithinLimits(policy, es)
    && FeesAcceptable(policy, es)
  }

  ghost predicate Inv(policy: Policy, p: Pool, stamp: map<Txid, nat>) {
    ViewsAgree(p, stamp) && TotalsSound(policy, p.entries)
  }

  /** The invariant of every reachable pool, for some numbering of the insertions. */
  ghost predicate Sound(policy: Policy, p: Pool) {
    exists stamp :: Inv(policy, p, stamp)
  }
}
