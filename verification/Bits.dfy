/** Binary arithmetic on natural numbers, by recursion on the lowest bit. */
module Bits {
  function Pow2(k: nat): (r: nat)
    ensures r >= 1
  {
    if k == 0 then 1 else 2 * Pow2(k - 1)
  }

  function Ones(n: nat): (r: nat)
    ensures r <= n
  {
    if n == 0 then 0 else n % 2 + Ones(n / 2)
  }

  function TrailingOnes(n: nat): nat {
    if n % 2 == 1 then 1 + TrailingOnes(n / 2) else 0
  }

  predicate Bit(n: nat, k: nat) {
    if k == 0 then n % 2 == 1 else Bit(n / 2, k - 1)
  }

  function BitLen(n: nat): nat {
    if n == 0 then 0 else 1 + BitLen(n / 2)
  }

  /** Bitwise conjunction. */
  function And(a: nat, b: nat): nat {
    if a == 0 || b == 0 then 0
    else 2 * And(a / 2, b / 2) + (if a % 2 == 1 && b % 2 == 1 then 1 else 0)
  }

  lemma {:induction false} AndSelf(a: nat)
    ensures And(a, a) == a
  {
    if a > 0 { AndSelf(a / 2); }
  }

  lemma {:induction false} DoubleOnes(n: nat)
    ensures Ones(2 * n) == Ones(n)
    ensures Ones(2 * n + 1) == Ones(n) + 1
    ensures TrailingOnes(2 * n) == 0
    ensures TrailingOnes(2 * n + 1) == TrailingOnes(n) + 1
  {
    assert (2 * n + 1) / 2 == n;
  }

  /** `n & (n - 1)` clears exactly one set bit. */
  lemma {:induction false} ClearLowest(n: nat)
    requires n > 0
    ensures And(n, n - 1) < n
    ensures Ones(And(n, n - 1)) == Ones(n) - 1
  {
    if n == 1 {
    } else if n % 2 == 1 {
      AndSelf(n / 2);
      assert (n - 1) / 2 == n / 2;
      assert And(n, n - 1) == n - 1;
    } else {
      ClearLowest(n / 2);
      var m := And(n / 2, n / 2 - 1);
      assert (n - 1) / 2 == n / 2 - 1;
      assert And(n, n - 1) == 2 * m;
      DoubleOnes(m);
    }
  }

  lemma {:induction false} AndPow2(a: nat, k: nat)
    ensures And(a, Pow2(k)) != 0 <==> Bit(a, k)
  {
    if a == 0 {
      ZeroHasNoBits(k);
    } else if k == 0 {
      assert And(a / 2, 0) == 0;
    } else {
      AndPow2(a / 2, k - 1);
      assert Pow2(k) / 2 == Pow2(k - 1);
    }
  }

  lemma {:induction false} ZeroHasNoBits(k: nat)
    ensures !Bit(0, k)
  {
    if k > 0 { ZeroHasNoBits(k - 1); }
  }

  lemma {:induction false} Pow2Monotone(j: nat, k: nat)
    requires j <= k
    ensures Pow2(j) <= Pow2(k)
  {
    if j < k { Pow2Monotone(j, k - 1); }
  }

  lemma {:induction false} Pow2Sum(j: nat, k: nat)
    ensures Pow2(j + k) == Pow2(j) * Pow2(k)
  {
    if j > 0 {
      Pow2Sum(j - 1, k);
    }
  }

  lemma {:induction false} BitLenBound(n: nat)
    ensures n < Pow2(BitLen(n))
    ensures n > 0 ==> Pow2(BitLen(n) - 1) <= n
  {
    if n > 0 { BitLenBound(n / 2); }
  }

  lemma {:induction false} TopBitOf(n: nat)
    requires n > 0
    ensures BitLen(n) >= 1
    ensures Pow2(BitLen(n) - 1) <= n < 2 * Pow2(BitLen(n) - 1)
  {
    BitLenBound(n);
  }

  lemma {:induction false} BitLenUnique(n: nat, k: nat)
    requires Pow2(k) <= n < Pow2(k + 1)
    ensures BitLen(n) == k + 1
  {
    BitLenBound(n);
    if BitLen(n) <= k {
      Pow2Monotone(BitLen(n), k);
    } else if BitLen(n) > k + 1 {
      Pow2Monotone(k + 1, BitLen(n) - 1);
    }
  }

  /** No bit is set at or above the bit length, and the top bit below it is. */
  lemma {:induction false} BitsWithinLength(n: nat, k: nat)
    ensures Bit(n, k) ==> k < BitLen(n)
    ensures n > 0 && k == BitLen(n) - 1 ==> Bit(n, k)
  {
    if n == 0 {
      ZeroHasNoBits(k);
    } else if k > 0 {
      BitsWithinLength(n / 2, k - 1);
    }
  }

  // ----- the binary counter -----

  lemma {:induction false} OnesOfSuccessor(n: nat)
    ensures Ones(n + 1) + TrailingOnes(n) == Ones(n) + 1
  {
    if n % 2 == 1 {
      OnesOfSuccessor(n / 2);
      assert (n + 1) / 2 == n / 2 + 1;
    } else {
      assert (n + 1) / 2 == n / 2;
    }
  }

  /** All bits below the number of trailing ones are set, and the next one is not. */
  lemma {:induction false} BitAtTrailing(n: nat, k: nat)
    requires k <= TrailingOnes(n)
    ensures Bit(n, k) <==> k < TrailingOnes(n)
    ensures Pow2(k) <= n + 1
  {
    if k > 0 { BitAtTrailing(n / 2, k - 1); }
  }

  /** Clearing bit `k` of a number whose bits `0..k` are all set. */
  lemma {:induction false} ClearTrailing(n: nat, k: nat)
    requires k < TrailingOnes(n)
    ensures Pow2(k) <= n
    ensures Ones(n - Pow2(k)) == Ones(n) - 1
    ensures TrailingOnes(n - Pow2(k)) == k
  {
    if k == 0 {
      assert (n - 1) / 2 == n / 2;
      assert n == 1 ==> Ones(n) == 1 + Ones(0);
    } else {
      ClearTrailing(n / 2, k - 1);
      var m := n / 2 - Pow2(k - 1);
      assert n - Pow2(k) == 2 * m + 1;
      assert (2 * m + 1) / 2 == m;
    }
  }

  /** Setting the lowest clear bit. */
  lemma {:induction false} SetTrailing(n: nat)
    ensures Ones(n + Pow2(TrailingOnes(n))) == Ones(n) + 1
    ensures TrailingOnes(n + Pow2(TrailingOnes(n))) > TrailingOnes(n)
  {
    if n % 2 == 0 {
      assert (n + 1) / 2 == n / 2;
    } else {
      SetTrailing(n / 2);
      var m := n / 2 + Pow2(TrailingOnes(n / 2));
      assert n + Pow2(TrailingOnes(n)) == 2 * m + 1;
      assert (2 * m + 1) / 2 == m;
    }
  }

  /** What adding one does to each bit: the carry clears the trailing ones and sets the next bit. */
  lemma {:induction false} BitOfSuccessor(n: nat, k: nat)
    ensures k < TrailingOnes(n) ==> !Bit(n + 1, k)
    ensures k == TrailingOnes(n) ==> Bit(n + 1, k)
    ensures k > TrailingOnes(n) ==> (Bit(n + 1, k) <==> Bit(n, k))
  {
    if n % 2 == 0 {
      assert (n + 1) / 2 == n / 2;
    } else if k > 0 {
      BitOfSuccessor(n / 2, k - 1);
      assert (n + 1) / 2 == n / 2 + 1;
    }
  }

  lemma {:induction false} BitLenOfSuccessor(n: nat)
    ensures TrailingOnes(n) <= BitLen(n)
    ensures BitLen(n + 1) == if TrailingOnes(n) < BitLen(n) then BitLen(n) else BitLen(n) + 1
  {
    if n == 0 {
      assert BitLen(1) == 1 + BitLen(0);
    } else if n % 2 == 0 {
      assert (n + 1) / 2 == n / 2;
    } else {
      BitLenOfSuccessor(n / 2);
      assert (n + 1) / 2 == n / 2 + 1;
    }
  }

  lemma {:induction false} MulDouble(a: nat, b: nat)
    ensures 2 * a * b == a * (2 * b)
    ensures (2 * a + 1) * b == 2 * a * b + b
  {
  }

  // ----- splitting off the top bit -----

  lemma {:induction false} TopBit(k: nat, m: nat)
    requires m < Pow2(k)
    ensures Ones(Pow2(k) + m) == 1 + Ones(m)
    ensures BitLen(Pow2(k) + m) == k + 1
  {
    if k == 0 {
      assert Ones(1) == 1 + Ones(0);
      assert BitLen(1) == 1 + BitLen(0);
    } else {
      TopBit(k - 1, m / 2);
      assert (Pow2(k) + m) / 2 == Pow2(k - 1) + m / 2;
    }
  }

  lemma {:induction false} TopBitBits(k: nat, m: nat, j: nat)
    requires m < Pow2(k)
    requires j < k
    ensures Bit(Pow2(k) + m, j) <==> Bit(m, j)
  {
    assert (Pow2(k) + m) / 2 == Pow2(k - 1) + m / 2;
    if j > 0 {
      TopBitBits(k - 1, m / 2, j - 1);
    }
  }
}
