/** Powers of two, and the two unsigned-integer operations the node uses on them:
    rounding up to a power of two and counting trailing zero bits. */
module PowerOfTwo {

  function Pow2(k: nat): (p: nat)
    ensures p >= 1
  {
    if k == 0 then 1 else 2 * Pow2(k - 1)
  }

  /** `next_power_of_two` of an unsigned integer: 1 for 0, the argument itself if it is a power of two. */
  function NextPowerOfTwo(n: nat): (p: nat)
    ensures n <= p
    ensures n >= 1 ==> p < 2 * n
    ensures n == 0 ==> p == 1
  {
    if n <= 1 then 1 else 2 * NextPowerOfTwo((n + 1) / 2)
  }

  function TrailingZeros(n: nat): (k: nat)
    requires n > 0
  {
    if n % 2 == 1 then 0 else 1 + TrailingZeros(n / 2)
  }

  /** Floor of the binary logarithm. */
  function Log2(n: nat): (k: nat)
    requires n > 0
    ensures Pow2(k) <= n < 2 * Pow2(k)
  {
    if n == 1 then 0 else 1 + Log2(n / 2)
  }

  lemma {:induction false} TrailingZerosOfPow2(k: nat)
    ensures TrailingZeros(Pow2(k)) == k
  {
    if k > 0 {
      TrailingZerosOfPow2(k - 1);
      assert Pow2(k) / 2 == Pow2(k - 1);
    }
  }

  lemma {:induction false} Pow2Monotone(a: nat, b: nat)
    requires a <= b
    ensures Pow2(a) <= Pow2(b)
    ensures a < b ==> 2 * Pow2(a) <= Pow2(b)
  {
    if a < b {
      Pow2Monotone(a, b - 1);
    }
  }

  /** The rounded value is a power of two, and the least one that is not below the argument. */
  lemma {:induction false} NextPowerOfTwoIsLeast(n: nat) returns (k: nat)
    ensures NextPowerOfTwo(n) == Pow2(k)
    ensures forall j: nat :: n <= Pow2(j) ==> k <= j
  {
    if n <= 1 {
      k := 0;
    } else {
      var h := NextPowerOfTwoIsLeast((n + 1) / 2);
      k := h + 1;
      forall j: nat | n <= Pow2(j)
        ensures k <= j
      {
        assert j > 0;
        assert (n + 1) / 2 <= Pow2(j - 1);
      }
    }
  }
}
