/** The choice of the next block to vote on, and how fast it catches up with GRANDPA. */
module VoteTarget {
  import opened Basics
  import opened PowerOfTwo

  const U32_MAX: nat := 0xFFFF_FFFF

  /** Conversion to 32 bits, saturating. */
  function SaturateU32(n: nat): (r: nat)
  {
    if n > U32_MAX then U32_MAX else n
  }

  function SaturatingSub(a: nat, b: nat): (r: nat)
  {
    if a >= b then a - b else 0
  }

  /** The next block number to vote on, if that block is already final for GRANDPA. */
  function Target(bestGrandpa: nat, bestBeefy: nat, sessionStart: nat, minDelta: nat): (target: Option<nat>)
  {
    var candidate :=
      if bestBeefy < sessionStart then sessionStart
      else
        var diff := SaturateU32(SaturatingSub(bestGrandpa, bestBeefy) + 1) / 2;
        bestBeefy + Max(minDelta, NextPowerOfTwo(diff));
    if candidate > bestGrandpa then None else Some(candidate)
  }

  /** While the mandatory block lacks a proof it is the only target; afterwards there is a target exactly
      when the gap to GRANDPA is at least the configured minimum, and it lies above the best BEEFY block. */
  lemma TargetExists(bestGrandpa: nat, bestBeefy: nat, sessionStart: nat, minDelta: nat)
    requires minDelta >= 1
    ensures var t := Target(bestGrandpa, bestBeefy, sessionStart, minDelta);
            && (bestBeefy < sessionStart ==> t == if sessionStart <= bestGrandpa then Some(sessionStart) else None)
            && (bestBeefy >= sessionStart ==> (t.Some? <==> bestGrandpa >= bestBeefy + minDelta))
            && (t.Some? ==> bestBeefy < t.value <= bestGrandpa)
  {
  }

  /** The least power of two that is at least half of a gap, rounded up and counted in 32 bits, or a minimum if
      that is larger. */
  ghost predicate LeastStep(gap: nat, minDelta: nat, step: nat)
  {
    var half := (if gap + 1 > 0xFFFF_FFFF then 0xFFFF_FFFF else gap + 1) / 2;
    && step >= minDelta && step >= half
    && (step == minDelta || exists k: nat :: step == Pow2(k))
    && (forall j: nat :: half <= Pow2(j) ==> step <= minDelta || step <= Pow2(j))
    && (step == minDelta ==> exists k: nat :: half <= Pow2(k) <= minDelta)
  }

  /** Past the mandatory block, the target is the least step above the best BEEFY block. */
  lemma TargetIsExact(bestGrandpa: nat, bestBeefy: nat, sessionStart: nat, minDelta: nat)
    requires bestBeefy >= sessionStart && Target(bestGrandpa, bestBeefy, sessionStart, minDelta).Some?
    ensures var t := Target(bestGrandpa, bestBeefy, sessionStart, minDelta).value;
            bestBeefy <= t <= bestGrandpa && LeastStep(bestGrandpa - bestBeefy, minDelta, t - bestBeefy)
  {
    var half := SaturateU32(bestGrandpa - bestBeefy + 1) / 2;
    var k := NextPowerOfTwoIsLeast(half);
    forall j: nat | half <= Pow2(j)
      ensures Pow2(k) <= Pow2(j)
    {
      Pow2Monotone(k, j);
    }
  }

  /** Past the mandatory block, finalizing the target closes at least half of the gap, or 2^31 blocks of
      a gap beyond 32 bits. */
  lemma TargetHalvesGap(bestGrandpa: nat, bestBeefy: nat, sessionStart: nat, minDelta: nat)
    requires minDelta >= 1 && bestBeefy >= sessionStart
    requires Target(bestGrandpa, bestBeefy, sessionStart, minDelta).Some?
    ensures var gap, t := bestGrandpa - bestBeefy, Target(bestGrandpa, bestBeefy, sessionStart, minDelta).value;
            && (gap <= U32_MAX ==> bestGrandpa - t <= gap / 2)
            && (gap > U32_MAX ==> bestGrandpa - t <= gap - 0x8000_0000)
  {
    if bestGrandpa - bestBeefy > U32_MAX {
      SaturatedHalf();
    }
  }

  lemma SaturatedHalf()
    ensures NextPowerOfTwo(U32_MAX / 2) == 0x8000_0000
  {
    PowersAround31();
    var k := NextPowerOfTwoIsLeast(U32_MAX / 2);
    if k <= 30 {
      Pow2Monotone(k, 30);
    }
  }

  lemma PowersAround31()
    ensures Pow2(30) == 0x4000_0000 && Pow2(31) == 0x8000_0000 && Pow2(32) == U32_MAX + 1
  {
    assert Pow2(8) == 256;
    assert Pow2(16) == 65536;
    assert Pow2(24) == 0x100_0000;
  }

  /** The block numbers finalized when GRANDPA stands still and every target is finalized in turn. */
  function CatchUp(bestGrandpa: nat, bestBeefy: nat, sessionStart: nat, minDelta: nat): (targets: seq<nat>)
    requires minDelta >= 1
    decreases SaturatingSub(bestGrandpa, bestBeefy)
  {
    TargetExists(bestGrandpa, bestBeefy, sessionStart, minDelta);
    match Target(bestGrandpa, bestBeefy, sessionStart, minDelta)
    case None => []
    case Some(t) => [t] + CatchUp(bestGrandpa, t, sessionStart, minDelta)
  }

  ghost predicate Increasing(s: seq<nat>)
  {
    forall i, j :: 0 <= i < j < |s| ==> s[i] < s[j]
  }

  /** Catching up goes strictly upwards without passing GRANDPA and ends less than the minimum away from it. */
  lemma {:induction false} CatchUpConverges(bestGrandpa: nat, bestBeefy: nat, sessionStart: nat, minDelta: nat)
    requires minDelta >= 1 && sessionStart <= bestBeefy <= bestGrandpa
    ensures var targets := CatchUp(bestGrandpa, bestBeefy, sessionStart, minDelta);
            && Increasing([bestBeefy] + targets)
            && (forall t <- targets :: t <= bestGrandpa)
            && bestGrandpa - ([bestBeefy] + targets)[|targets|] < minDelta
    decreases bestGrandpa - bestBeefy
  {
    hide Target;
    TargetExists(bestGrandpa, bestBeefy, sessionStart, minDelta);
    var target := Target(bestGrandpa, bestBeefy, sessionStart, minDelta);
    if target.Some? {
      var t := target.value;
      CatchUpConverges(bestGrandpa, t, sessionStart, minDelta);
      var rest := CatchUp(bestGrandpa, t, sessionStart, minDelta);
      var all := [bestBeefy] + CatchUp(bestGrandpa, bestBeefy, sessionStart, minDelta);
      var up := [t] + rest;
      assert all[1..] == up && Increasing(up);
      forall i, j | 0 <= i < j < |all|
        ensures all[i] < all[j]
      {
        assert all[j] == up[j - 1] && (j > 1 ==> up[0] < up[j - 1]);
        if i > 0 {
          assert all[i] == up[i - 1];
        }
      }
    }
  }

  /** A gap of k blocks, k below 2^32, is closed within floor(log2 k) + 1 rounds. */
  lemma {:induction false} CatchUpIsLogarithmic(bestGrandpa: nat, bestBeefy: nat, sessionStart: nat, minDelta: nat)
    requires minDelta >= 1 && sessionStart <= bestBeefy <= bestGrandpa && bestGrandpa - bestBeefy <= U32_MAX
    ensures var gap := bestGrandpa - bestBeefy;
            |CatchUp(bestGrandpa, bestBeefy, sessionStart, minDelta)| <= if gap == 0 then 0 else Log2(gap) + 1
    decreases bestGrandpa - bestBeefy
  {
    hide Target;
    TargetExists(bestGrandpa, bestBeefy, sessionStart, minDelta);
    var target := Target(bestGrandpa, bestBeefy, sessionStart, minDelta);
    if target.Some? {
      TargetHalvesGap(bestGrandpa, bestBeefy, sessionStart, minDelta);
      CatchUpIsLogarithmic(bestGrandpa, target.value, sessionStart, minDelta);
      if bestGrandpa > target.value {
        Log2Monotone(bestGrandpa - target.value, (bestGrandpa - bestBeefy) / 2);
      }
    }
  }

  lemma {:induction false} Log2Monotone(a: nat, b: nat)
    requires 0 < a <= b
    ensures Log2(a) <= Log2(b)
  {
    if a > 1 {
      Log2Monotone(a / 2, b / 2);
    }
  }

  /** Any gap at all is closed within one round for each 2^31 blocks and 32 more. */
  lemma {:induction false} CatchUpIsBounded(bestGrandpa: nat, bestBeefy: nat, sessionStart: nat, minDelta: nat)
    requires minDelta >= 1 && sessionStart <= bestBeefy <= bestGrandpa
    ensures |CatchUp(bestGrandpa, bestBeefy, sessionStart, minDelta)| <= (bestGrandpa - bestBeefy) / 0x8000_0000 + 32
    decreases bestGrandpa - bestBeefy
  {
    hide Target, Log2;
    var gap := bestGrandpa - bestBeefy;
    if gap <= U32_MAX {
      CatchUpIsLogarithmic(bestGrandpa, bestBeefy, sessionStart, minDelta);
      if gap > 0 {
        Log2Below32(gap);
      }
    } else {
      TargetExists(bestGrandpa, bestBeefy, sessionStart, minDelta);
      var target := Target(bestGrandpa, bestBeefy, sessionStart, minDelta);
      if target.Some? {
        TargetHalvesGap(bestGrandpa, bestBeefy, sessionStart, minDelta);
        CatchUpIsBounded(bestGrandpa, target.value, sessionStart, minDelta);
      }
    }
  }

  lemma Log2Below32(n: nat)
    requires 0 < n <= U32_MAX
    ensures Log2(n) < 32
  {
    PowersAround31();
    if Log2(n) >= 32 {
      Pow2Monotone(32, Log2(n));
    }
  }
}
