/** Relay policy of the mempool: the pure checks of src/mempool/policy.rs and the
    fee-rate arithmetic of src/mempool/entry.rs. Fee rates are whole satoshis per
    virtual byte. */
module Policy {

  const U64_MAX: nat := 0xFFFF_FFFF_FFFF_FFFF

  /** The fields of the policy record that the pool consults. */
  datatype Policy = Policy(
    maxSize: nat,
    expiry: nat,
    minRelayFee: nat,
    maxAncestors: nat,
    maxAncestorSizeKb: nat,
    maxTxSize: nat,
    incrementalRelayFee: nat,
    enableRbf: bool)

  datatype Error =
    | AlreadyInPool
    | RejectedByKernel
    | TooLarge
    | FeeRateTooLow
    | ConflictsWithoutSignal
    | ConflictNotReplaceable
    | RbfDisabled
    | RbfNotSignaled
    | InsufficientFeeBump
    | TooManyAncestors
    | AncestorSizeTooLarge
    | NotInPool

  datatype Outcome = Pass | Fail(error: Error)

  function Max(a: int, b: int): int {
    if a >= b then a else b
  }

  function Abs(a: int): nat {
    if a >= 0 then a else -a
  }

  function SaturatingSub(a: nat, b: nat): nat {
    if a >= b then a - b else 0
  }

  /** 64-bit saturating product. */
  function FeeForVsize(rate: nat, vsize: nat): nat {
    if rate * vsize <= U64_MAX then rate * vsize else U64_MAX
  }

  function RateOf(fee: nat, vsize: nat): nat {
    fee / Max(vsize, 1)
  }

  predicate IsFeeAcceptable(policy: Policy, rate: nat) {
    rate >= policy.minRelayFee
  }

  predicate IsSizeAcceptable(policy: Policy, vsize: nat) {
    vsize <= policy.maxTxSize
  }

  function MinFeeForSize(policy: Policy, vsize: nat): nat {
    FeeForVsize(policy.minRelayFee, vsize)
  }

  function CheckAncestorLimits(policy: Policy, count: nat, size: nat): Outcome {
    if count > policy.maxAncestors then Fail(TooManyAncestors)
    else if size > policy.maxAncestorSizeKb * 1024 then Fail(AncestorSizeTooLarge)
    else Pass
  }

  function CheckRbf(policy: Policy, signals: bool, feeDelta: nat, sizeDelta: int): Outcome {
    if !policy.enableRbf then Fail(RbfDisabled)
    else if !signals then Fail(RbfNotSignaled)
    else if feeDelta < FeeForVsize(policy.incrementalRelayFee, Abs(sizeDelta)) then Fail(InsufficientFeeBump)
    else Pass
  }

  /** The floor-division rate test is a test on the fee itself: a rate of at least
      `rate` means a fee of at least `rate` for every virtual byte, and for a
      transaction of positive size the converse holds too. */
  lemma RateFloor(fee: nat, vsize: nat, rate: nat)
    ensures RateOf(fee, vsize) >= rate ==> fee >= rate * vsize
    ensures vsize > 0 && fee >= rate * vsize ==> RateOf(fee, vsize) >= rate
  {
    if vsize > 0 {
      var q := fee / vsize;
      assert fee == q * vsize + fee % vsize;
      if q >= rate {
        assert q * vsize >= rate * vsize;
      } else {
        assert (q + 1) * vsize <= rate * vsize;
        assert (q + 1) * vsize == q * vsize + vsize;
      }
    }
  }

  /** The two ways the policy states its fee floor (a rate test, and a minimum fee for
      a size) agree on every transaction of positive size, up to the point where the
      minimum fee saturates. */
  lemma FeeFloorsAgree(policy: Policy, fee: nat, vsize: nat)
    requires vsize > 0
    requires policy.minRelayFee * vsize <= U64_MAX
    ensures IsFeeAcceptable(policy, RateOf(fee, vsize)) <==> fee >= MinFeeForSize(policy, vsize)
  {
    RateFloor(fee, vsize, policy.minRelayFee);
  }

  /** Exactly what the replacement fee rule demands. Because the fee delta saturates at
      zero, the rule constrains the fee if and only if the required bump is positive:
      a replacement whose bump rounds to zero passes whatever it pays. */
  lemma RbfFeeRule(policy: Policy, fee: nat, conflictFees: nat, sizeDelta: int)
    ensures var bump := FeeForVsize(policy.incrementalRelayFee, Abs(sizeDelta));
            CheckRbf(policy, true, SaturatingSub(fee, conflictFees), sizeDelta).Pass?
            <==> policy.enableRbf && (bump == 0 || fee >= conflictFees + bump)
  {
  }
}
