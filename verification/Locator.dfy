/** The exponential block locator of src/p2p/legacy.rs (build_locator): which positions it names,
    and how closely they bracket any fork point. */
module Locator {
  import opened Headers
  import opened Lists

  const LIMIT: nat := 32

  function Pow2(n: nat): (p: nat)
    ensures p >= 1
  {
    if n == 0 then 1 else 2 * Pow2(n - 1)
  }

  /** How far below the tip entry `k` lies: the first ten one apart, then twice as far each time. */
  function Depth(k: nat): nat {
    if k < 10 then k else 7 + Pow2(k - 8)
  }

  function Position(top: nat, k: nat): nat {
    if Depth(k) >= top then 0 else top - Depth(k)
  }

  /** The step taken once `k` entries are in. */
  function Step(k: nat): nat {
    if k < 10 then 1 else Pow2(k - 9)
  }

  lemma DepthStep(k: nat)
    ensures k > 0 ==> Depth(k) == Depth(k - 1) + Step(k)
    ensures Step(k + 1) == if k + 1 >= 10 then 2 * Step(k) else Step(k)
  {
    if k == 10 {
      assert Pow2(2) == 2 * Pow2(1) && Pow2(1) == 2 * Pow2(0);
    }
  }

  lemma {:induction false} DepthGrows(i: nat, k: nat)
    requires i < k
    ensures Depth(i) < Depth(k)
    decreases k - i
  {
    DepthStep(k);
    if i < k - 1 {
      DepthGrows(i, k - 1);
    }
  }

  /** Consecutive depths at most double, so some depth lies between `f` and twice `f`. */
  lemma {:induction false} DepthCovers(f: nat, n: nat) returns (k: nat)
    requires f <= Depth(n)
    ensures k <= n && f <= Depth(k) <= 2 * f
  {
    k := n;
    if n > 0 {
      DepthStep(n);
      if f <= Depth(n - 1) {
        k := DepthCovers(f, n - 1);
      } else if n == 10 {
        assert Pow2(2) == 2 * Pow2(1) && Pow2(1) == 2 * Pow2(0);
      } else if n > 10 {
        assert Pow2(n - 8) == 2 * Pow2(n - 9);
      }
    }
  }

  lemma DepthLimit()
    ensures Depth(LIMIT - 1) == DEEPEST
  {
    assert Pow2(5) == 32;
    assert Pow2(10) == 32 * Pow2(5);
    assert Pow2(15) == 32 * Pow2(10);
    assert Pow2(20) == 32 * Pow2(15);
    assert Pow2(23) == 8 * Pow2(20);
  }

  /** The positions a locator names, from the tip down to genesis. */
  ghost predicate IsLocator(top: nat, at: seq<nat>) {
    && 1 <= |at| <= LIMIT + 1
    && at[0] == top && at[|at| - 1] == 0
    && forall i, j :: 0 <= i < j < |at| ==> at[i] > at[j]
  }

  /** For a fork `f` blocks deep the locator holds an entry that is at least as deep and at most
      twice as deep. */
  ghost predicate Covers(top: nat, at: seq<nat>, f: nat) {
    exists j :: 0 <= j < |at| && at[j] <= top && f <= top - at[j] <= 2 * f
  }

  /** The entries are the first positions of the sequence, up to the one that reaches genesis. */
  ghost predicate Follows(top: nat, at: seq<nat>) {
    && (forall j :: 0 <= j < |at| ==> at[j] == Position(top, j))
    && (forall j :: 0 <= j < |at| - 1 ==> at[j] > 0)
  }

  lemma FollowsNext(top: nat, at: seq<nat>, idx: nat)
    requires Follows(top, at) && at != [] && at[|at| - 1] > 0 && idx == Position(top, |at|)
    ensures Follows(top, at + [idx])
  {
  }

  lemma FollowsDecreases(top: nat, at: seq<nat>, i: nat, j: nat)
    requires Follows(top, at) && i < j < |at|
    ensures at[i] > at[j]
  {
    DepthGrows(i, j);
    assert at[i] > 0;
  }

  lemma FollowsCovers(top: nat, at: seq<nat>, f: nat)
    requires Follows(top, at) && |at| > 0 && f <= top && f <= Depth(LIMIT - 1)
    requires at[|at| - 1] == 0 || |at| >= LIMIT
    ensures Covers(top, at, f)
  {
    var k := DepthCovers(f, LIMIT - 1);
    if k < |at| {
      assert at[k] == Position(top, k);
    } else {
      var last := |at| - 1;
      assert at[last] == Position(top, last);
      DepthGrows(last, k);
    }
  }

  /** Every fork up to this depth is bracketed; genesis covers the deeper ones. */
  const DEEPEST: nat := 0x80_0000 + 7

  ghost predicate CoversAll(top: nat, at: seq<nat>) {
    forall f :: 0 <= f <= top && f <= DEEPEST ==> Covers(top, at, f)
  }

  lemma NextPosition(top: nat, k: nat, step: nat)
    requires k > 0 && Position(top, k - 1) > 0 && step == Step(k)
    ensures Position(top, k) == if Position(top, k - 1) >= step then Position(top, k - 1) - step else 0
  {
    DepthStep(k);
  }

  /** The entries chosen while stepping back, ever faster, from the tip. */
  method StepBack(recent: seq<Hash>) returns (locator: seq<Hash>, ghost at: seq<nat>)
    requires recent != []
    ensures 0 < |at| <= LIMIT && Follows(|recent| - 1, at)
    ensures at[|at| - 1] == 0 || |at| == LIMIT
    ensures |locator| == |at| && forall j :: 0 <= j < |at| ==> at[j] < |recent| && locator[j] == recent[at[j]]
  {
    ghost var top := |recent| - 1;
    var step, idx := 1, |recent| - 1;
    locator, at := [recent[idx]], [idx];
    while |locator| < LIMIT && idx != 0
      invariant 0 < |locator| <= LIMIT && |locator| == |at|
      invariant step == Step(|locator| - 1)
      invariant idx == at[|at| - 1]
      invariant Follows(top, at)
      invariant forall j :: 0 <= j < |at| ==> at[j] <= top && locator[j] == recent[at[j]]
    {
      DepthStep(|locator| - 1);
      if |locator| >= 10 {
        step := step * 2;
      }
      NextPosition(top, |locator|, step);
      idx := if idx >= step then idx - step else 0;
      FollowsNext(top, at, idx);
      locator, at := locator + [recent[idx]], at + [idx];
    }
  }

  /** At most 33 entries, the last of them genesis. In a chain without repeats, which every run of
      header batches keeps, they stand at strictly decreasing heights from the tip to genesis and
      bracket every fork. */
  method BuildLocator(recent: seq<Hash>) returns (locator: seq<Hash>, ghost at: seq<nat>)
    requires recent != []
    ensures 1 <= |locator| <= 33 && locator[0] == recent[|recent| - 1] && locator[|locator| - 1] == recent[0]
    ensures |locator| == |at| && forall j :: 0 <= j < |at| ==> at[j] < |recent| && locator[j] == recent[at[j]]
    ensures NoRepeats(recent) ==> IsLocator(|recent| - 1, at) && CoversAll(|recent| - 1, at)
  {
    locator, at := StepBack(recent);
    ghost var walked := at;
    if locator[|locator| - 1] != recent[0] {
      locator, at := locator + [recent[0]], at + [0];
    }
    if NoRepeats(recent) {
      assert walked[|walked| - 1] > 0 ==> recent[0] != recent[walked[|walked| - 1]];
      LocatorFinished(|recent| - 1, walked, at);
    }
  }

  lemma LocatorFinished(top: nat, walked: seq<nat>, at: seq<nat>)
    requires Follows(top, walked) && 0 < |walked| <= LIMIT
    requires walked[|walked| - 1] == 0 || |walked| == LIMIT
    requires at == if walked[|walked| - 1] == 0 then walked else walked + [0]
    ensures IsLocator(top, at)
    ensures CoversAll(top, at)
  {
    forall i, j | 0 <= i < j < |at|
      ensures at[i] > at[j]
    {
      if j < |walked| {
        FollowsDecreases(top, walked, i, j);
      }
    }
    DepthLimit();
    forall f | 0 <= f <= top && f <= DEEPEST
      ensures Covers(top, at, f)
    {
      FollowsCovers(top, walked, f);
      var j :| 0 <= j < |walked| && walked[j] <= top && f <= top - walked[j] <= 2 * f;
      assert at[j] == walked[j];
    }
  }
}
