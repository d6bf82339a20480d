/** JavaScript's bitwise operators on non-negative numbers, and the bit reversal that
    the search worker tabulates.

    Every operator peels off the lowest bit, so that facts about words of any width
    follow by induction. Nothing in the modelled code sets the sign bit of a 32-bit
    word, so unbounded naturals are exact here. */
module Bits {

  type Bit = b: nat | b < 2

  function Pow2(n: nat): (r: nat)
    ensures r > 0
  {
    if n == 0 then 1 else 2 * Pow2(n - 1)
  }

  /** `a & b` */
  function And(a: nat, b: nat): nat
    decreases a, b
  {
    if a == 0 then 0
    else (if a % 2 == 1 && b % 2 == 1 then 1 else 0) + 2 * And(a / 2, b / 2)
  }

  /** `a | b` */
  function Or(a: nat, b: nat): nat
    decreases a + b, b
  {
    if a + b == 0 then 0
    else (if a % 2 == 1 || b % 2 == 1 then 1 else 0) + 2 * Or(a / 2, b / 2)
  }

  /** `a << k` */
  function Shl(a: nat, k: nat): nat
    decreases k, a
  {
    if k == 0 then a else Shl(2 * a, k - 1)
  }

  /** `a >>> k` */
  function Shr(a: nat, k: nat): nat
    decreases k, a
  {
    if k == 0 then a else Shr(a / 2, k - 1)
  }

  /** Bit `j` of `a`, counting from the least significant one. */
  function BitOf(a: nat, j: nat): Bit
    decreases j, a
  {
    if j == 0 then a % 2 else BitOf(a / 2, j - 1)
  }

  /** The number made of the `k` lowest bits of `a`. */
  function Low(a: nat, k: nat): nat
    decreases k, a
  {
    if k == 0 then 0 else a % 2 + 2 * Low(a / 2, k - 1)
  }

  /** The `n` lowest bits of `v` in the opposite order. */
  function RevBits(v: nat, n: nat): nat
    decreases n, v
  {
    if n == 0 then 0 else (if v % 2 == 1 then Pow2(n - 1) else 0) + RevBits(v / 2, n - 1)
  }

  // ----- sizes -----

  lemma {:induction false} LowBound(a: nat, k: nat)
    ensures Low(a, k) < Pow2(k)
  {
    if k > 0 { LowBound(a / 2, k - 1); }
  }

  lemma {:induction false} LowSmall(a: nat, k: nat)
    requires a < Pow2(k)
    ensures Low(a, k) == a
  {
    if k > 0 { LowSmall(a / 2, k - 1); }
  }

  lemma {:induction false} LowLow(a: nat, j: nat, k: nat)
    requires j <= k
    ensures Low(Low(a, k), j) == Low(a, j)
    decreases j
  {
    if j > 0 { LowLow(a / 2, j - 1, k - 1); }
  }

  lemma {:induction false} RevBound(v: nat, n: nat)
    ensures RevBits(v, n) < Pow2(n)
  {
    if n > 0 { RevBound(v / 2, n - 1); }
  }

  lemma {:induction false} Pow2Add(a: nat, b: nat)
    ensures Pow2(a + b) == Pow2(a) * Pow2(b)
  {
    if a > 0 { Pow2Add(a - 1, b); }
  }

  lemma {:induction false} Pow2Monotone(a: nat, b: nat)
    requires a <= b
    ensures Pow2(a) <= Pow2(b)
    decreases b
  {
    if a < b { Pow2Monotone(a, b - 1); }
  }

  // ----- shifts and masks -----

  lemma {:induction false} ShlMul(a: nat, k: nat)
    ensures Shl(a, k) == a * Pow2(k)
    decreases k
  {
    if k > 0 {
      ShlMul(2 * a, k - 1);
      assert (2 * a) * Pow2(k - 1) == a * (2 * Pow2(k - 1));
    }
  }

  lemma {:induction false} ShrStep(a: nat, k: nat)
    ensures Shr(a, k + 1) == Shr(a, k) / 2
    decreases k
  {
    if k > 0 { ShrStep(a / 2, k - 1); }
  }

  lemma {:induction false} ShrBit(a: nat, k: nat, j: nat)
    ensures BitOf(Shr(a, k), j) == BitOf(a, k + j)
    decreases k
  {
    if k > 0 { ShrBit(a / 2, k - 1, j); }
  }

  lemma {:induction false} ShlBit(a: nat, k: nat, j: nat)
    ensures BitOf(Shl(a, k), j) == if j < k then 0 else BitOf(a, j - k)
    decreases k
  {
    if k > 0 {
      ShlBit(2 * a, k - 1, j);
      if j >= k { assert BitOf(2 * a, j - k + 1) == BitOf(a, j - k); }
    }
  }

  lemma TwiceMul(a: nat, p: nat)
    ensures a * (2 * p) == 2 * (a * p)
  {
  }

  lemma HalfRange(x: nat, lo: nat, hi: nat)
    ensures lo <= x / 2 < hi <==> 2 * lo <= x < 2 * hi
  {
  }

  /** `x` lies in the block of numbers whose upper part is `a` exactly when shifting
      the lower part away leaves `a`. */
  lemma {:induction false} ShrRange(x: nat, a: nat, k: nat)
    ensures a * Pow2(k) <= x < (a + 1) * Pow2(k) <==> Shr(x, k) == a
    decreases k
  {
    if k > 0 {
      var p := Pow2(k - 1);
      ShrRange(x / 2, a, k - 1);
      TwiceMul(a, p);
      TwiceMul(a + 1, p);
      HalfRange(x, a * p, (a + 1) * p);
    }
  }

  lemma {:induction false} AndMask(a: nat, k: nat)
    ensures And(a, Pow2(k) - 1) == Low(a, k)
    decreases k
  {
    if k == 0 {
      AndZero(a);
    } else {
      AndMask(a / 2, k - 1);
      assert (Pow2(k) - 1) / 2 == Pow2(k - 1) - 1;
      if a == 0 { LowSmall(0, k); }
    }
  }

  lemma {:induction false} AndZero(a: nat)
    ensures And(a, 0) == 0
  {
    if a > 0 { AndZero(a / 2); }
  }

  lemma {:induction false} OrZero(a: nat)
    ensures Or(a, 0) == a
  {
    if a > 0 { OrZero(a / 2); }
  }

  /** Combining a shifted number with something below the shift is an addition. */
  lemma {:induction false} OrDisjoint(a: nat, b: nat, k: nat)
    requires b < Pow2(k)
    ensures Or(Shl(a, k), b) == a * Pow2(k) + b
    decreases k
  {
    ShlMul(a, k);
    if k == 0 {
      OrZero(a);
    } else {
      var x := a * Pow2(k - 1);
      assert a * Pow2(k) == 2 * x;
      OrDisjoint(a, b / 2, k - 1);
      ShlMul(a, k - 1);
    }
  }

  // ----- pointwise facts -----

  lemma {:induction false} AndBit(a: nat, b: nat, j: nat)
    ensures BitOf(And(a, b), j) == if BitOf(a, j) == 1 then BitOf(b, j) else 0
    decreases j
  {
    if a == 0 { ZeroBit(j); }
    else if j > 0 { AndBit(a / 2, b / 2, j - 1); }
  }

  lemma {:induction false} OrBit(a: nat, b: nat, j: nat)
    ensures BitOf(Or(a, b), j) == if BitOf(a, j) == 1 then 1 else BitOf(b, j)
    decreases j
  {
    if a + b == 0 { ZeroBit(j); }
    else if j > 0 { OrBit(a / 2, b / 2, j - 1); }
  }

  lemma {:induction false} ZeroBit(j: nat)
    ensures BitOf(0, j) == 0
  {
    if j > 0 { ZeroBit(j - 1); }
  }

  lemma {:induction false} HighBit(a: nat, k: nat, j: nat)
    requires a < Pow2(k) && k <= j
    ensures BitOf(a, j) == 0
    decreases k
  {
    if k == 0 { ZeroBit(j); } else { HighBit(a / 2, k - 1, j - 1); }
  }

  /** Numbers of `k` bits with the same bits are equal. */
  lemma {:induction false} SameBits(a: nat, b: nat, k: nat)
    requires a < Pow2(k) && b < Pow2(k)
    requires forall j: nat :: j < k ==> BitOf(a, j) == BitOf(b, j)
    ensures a == b
    decreases k
  {
    if k > 0 {
      forall j: nat | j < k - 1 ensures BitOf(a / 2, j) == BitOf(b / 2, j) {
        assert BitOf(a, j + 1) == BitOf(b, j + 1);
      }
      SameBits(a / 2, b / 2, k - 1);
      assert BitOf(a, 0) == BitOf(b, 0);
    }
  }

  lemma {:induction false} BelowPow2(a: nat, k: nat, m: nat)
    requires a < Pow2(m)
    requires forall j: nat :: k <= j < m ==> BitOf(a, j) == 0
    ensures a < Pow2(k)
    decreases m
  {
    if k == 0 {
      forall j: nat | j < m ensures BitOf(a, j) == BitOf(0, j) { ZeroBit(j); }
      SameBits(a, 0, m);
    } else if m > 0 {
      forall j: nat | k - 1 <= j < m - 1 ensures BitOf(a / 2, j) == 0 {
        assert BitOf(a, j + 1) == 0;
      }
      BelowPow2(a / 2, k - 1, m - 1);
    } else {
      Pow2Monotone(0, k);
    }
  }

  // ----- reversal -----

  lemma {:induction false} RevTop(v: nat, n: nat)
    ensures RevBits(v, n + 1) == BitOf(v, n) + 2 * RevBits(v, n)
    decreases n
  {
    if n > 0 {
      RevTop(v / 2, n - 1);
    }
  }

  lemma {:induction false} RevBit(v: nat, n: nat, j: nat)
    requires j < n
    ensures BitOf(RevBits(v, n), j) == BitOf(v, n - 1 - j)
    decreases j
  {
    RevTop(v, n - 1);
    if j > 0 { RevBit(v, n - 1, j - 1); }
  }

  lemma {:induction false} RevRev(v: nat, n: nat)
    requires v < Pow2(n)
    ensures RevBits(RevBits(v, n), n) == v
  {
    var r := RevBits(v, n);
    RevBound(v, n);
    RevBound(r, n);
    forall j: nat | j < n ensures BitOf(RevBits(r, n), j) == BitOf(v, j) {
      RevBit(r, n, j);
      RevBit(v, n, n - 1 - j);
    }
    SameBits(RevBits(r, n), v, n);
  }

  /** Dropping low bits of a reversal is reversing fewer bits. */
  lemma {:induction false} ShrRev(v: nat, n: nat, k: nat)
    requires k <= n
    ensures Shr(RevBits(v, n), n - k) == RevBits(v, k)
    decreases n - k
  {
    if k < n {
      RevTop(v, n - 1);
      assert Shr(RevBits(v, n), n - k) == Shr(RevBits(v, n) / 2, n - k - 1);
      ShrRev(v, n - 1, k);
    }
  }

  lemma {:induction false} RevLow(v: nat, k: nat)
    ensures RevBits(Low(v, k), k) == RevBits(v, k)
  {
    if k > 0 { RevLow(v / 2, k - 1); }
  }
}
