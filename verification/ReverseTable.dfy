/** The worker's table of 15-bit reversals, filled by swapping ever larger groups of
    bits inside a 16-bit word. */
module ReverseTable {
  import opened Bits

  /** Position `i` of the table holds `i` with its fifteen bits reversed. */
  ghost predicate IsReverseTable(rev: seq<nat>) {
    |rev| == 32768 && forall i | 0 <= i < 32768 :: rev[i] == RevBits(i, 15)
  }

  method BuildReverseTable() returns (rev: seq<nat>)
    ensures IsReverseTable(rev)
  {
    var table := new nat[32768];
    for i := 0 to 32768
      invariant forall k | 0 <= k < i :: table[k] == RevBits(k, 15)
    {
      var r := ReverseWord(i);
      table[i] := r;
    }
    rev := table[..];
  }

  method ReverseWord(i: nat) returns (r: nat)
    requires i < 32768
    ensures r == RevBits(i, 15)
  {
    var a := SwapGroups(i, 43690, 21845, 1);
    var b := SwapGroups(a, 52428, 13107, 2);
    var c := SwapGroups(b, 61680, 3855, 4);
    var d := SwapGroups(c, 65280, 255, 8);
    r := Shr(d, 1);
    FourSwapsReverse(i, a, b, c, d, 15);
  }

  /** `(x & hi) >>> k | (x & lo) << k` */
  function SwapGroups(x: nat, hi: nat, lo: nat, k: nat): nat {
    Or(Shr(And(x, hi), k), Shl(And(x, lo), k))
  }

  // ----- what one swap does -----

  /** Whether place `j` of a 16-bit word lies in the upper one of two neighbouring groups
      of `k` places. */
  predicate Upper(j: nat, k: nat)
    requires k > 0
  {
    j / k % 2 == 1
  }

  /** The place that changes places with `j`. */
  function Partner(j: nat, k: nat): nat
    requires k > 0
  {
    if Upper(j, k) && k <= j then j - k else j + k
  }

  ghost predicate Bit16(a: nat, j: nat, on: bool) {
    BitOf(a, j) == if j < 16 && on then 1 else 0
  }

  /** `hi` has ones in the upper groups and `lo` in the lower groups of a 16-bit word. */
  ghost predicate Masks(hi: nat, lo: nat, k: nat)
    requires k > 0
  {
    forall j: nat :: Bit16(hi, j, Upper(j, k)) && Bit16(lo, j, !Upper(j, k))
  }

  lemma SwapBit(x: nat, hi: nat, lo: nat, k: nat, j: nat)
    requires k > 0 && Masks(hi, lo, k) && Partner(j, k) < 16 && j < 16
    requires Upper(j, k) ==> k <= j
    requires Upper(j + k, k) == !Upper(j, k) && (k <= j ==> Upper(j - k, k) == !Upper(j, k))
    ensures BitOf(SwapGroups(x, hi, lo, k), j) == BitOf(x, Partner(j, k))
  {
    SwapBitRaw(x, hi, lo, k, j);
    assert Bit16(hi, j + k, Upper(j + k, k));
    if k <= j { assert Bit16(lo, j - k, !Upper(j - k, k)); }
  }

  lemma SwapBitRaw(x: nat, hi: nat, lo: nat, k: nat, j: nat)
    ensures BitOf(SwapGroups(x, hi, lo, k), j) ==
      if BitOf(hi, j + k) == 1 && BitOf(x, j + k) == 1 then 1
      else if k <= j && BitOf(lo, j - k) == 1 then BitOf(x, j - k) else 0
  {
    OrBit(Shr(And(x, hi), k), Shl(And(x, lo), k), j);
    ShrBit(And(x, hi), k, j);
    AndBit(x, hi, k + j);
    ShlBit(And(x, lo), k, j);
    if k <= j { AndBit(x, lo, j - k); }
  }

  ghost predicate Swapped(x: nat, y: nat, k: nat)
    requires k > 0
  {
    forall j: nat | j < 16 :: Partner(j, k) < 16 && BitOf(y, j) == BitOf(x, Partner(j, k))
  }

  lemma SwapIsSwapped(x: nat, hi: nat, lo: nat, k: nat)
    requires k in {1, 2, 4, 8} && Masks(hi, lo, k)
    ensures Swapped(x, SwapGroups(x, hi, lo, k), k)
  {
    forall j: nat | j < 16
      ensures Partner(j, k) < 16 && BitOf(SwapGroups(x, hi, lo, k), j) == BitOf(x, Partner(j, k))
    {
      PartnerIsNear(j, k);
      SwapBit(x, hi, lo, k, j);
    }
  }

  lemma PartnerIsNear(j: nat, k: nat)
    requires k in {1, 2, 4, 8} && j < 16
    ensures Partner(j, k) < 16 && (Upper(j, k) ==> k <= j)
    ensures Upper(j + k, k) == !Upper(j, k) && (k <= j ==> Upper(j - k, k) == !Upper(j, k))
  {
    if k == 1 {} else if k == 2 {} else if k == 4 {} else {}
  }

  // ----- the masks -----

  /** The number with the given four hexadecimal digits. */
  function Hex(d3: nat, d2: nat, d1: nat, d0: nat): nat {
    16 * (16 * (16 * d3 + d2) + d1) + d0
  }

  lemma LowDigit(b: nat, d: nat, j: nat)
    requires d < 16
    ensures BitOf(16 * b + d, j) == if j < 4 then BitOf(d, j) else BitOf(b, j - 4)
  {
    var d1, d2, d3 := d / 2, d / 2 / 2, d / 2 / 2 / 2;
    HalfBit(16 * b + d, 8 * b + d1, d, d1, j);
    if j > 0 {
      HalfBit(8 * b + d1, 4 * b + d2, d1, d2, j - 1);
      if j > 1 {
        HalfBit(4 * b + d2, 2 * b + d3, d2, d3, j - 2);
        if j > 2 { HalfBit(2 * b + d3, b, d3, 0, j - 3); }
      }
    }
  }

  lemma HalfBit(a: nat, a1: nat, d: nat, d1: nat, j: nat)
    requires a / 2 == a1 && d / 2 == d1 && a % 2 == d % 2
    ensures BitOf(a, j) == if j == 0 then d % 2 else BitOf(a1, j - 1)
    ensures BitOf(d, j) == if j == 0 then d % 2 else BitOf(d1, j - 1)
  {
  }

  lemma HexBit(d3: nat, d2: nat, d1: nat, d0: nat, j: nat)
    requires d0 < 16 && d1 < 16 && d2 < 16 && d3 < 16
    ensures BitOf(Hex(d3, d2, d1, d0), j) ==
      if j < 4 then BitOf(d0, j) else if j < 8 then BitOf(d1, j - 4)
      else if j < 12 then BitOf(d2, j - 8) else if j < 16 then BitOf(d3, j - 12) else 0
  {
    LowDigit(16 * (16 * d3 + d2) + d1, d0, j);
    if j >= 4 { LowDigit(16 * d3 + d2, d1, j - 4); }
    if j >= 8 { LowDigit(d3, d2, j - 8); }
    if j >= 12 {
      assert 16 * 0 + d3 == d3;
      LowDigit(0, d3, j - 12);
      if j >= 16 { ZeroBit(j - 16); }
    }
  }

  /** The digits that the masks are made of. */
  lemma Digit(d: nat, j: nat)
    requires d < 16 && j < 4
    ensures BitOf(d, j) == if j == 0 then d % 2 else if j == 1 then d / 2 % 2
                           else if j == 2 then d / 2 / 2 % 2 else d / 2 / 2 / 2 % 2
  {
    assert j > 0 ==> BitOf(d, j) == BitOf(d / 2, j - 1);
    assert j > 1 ==> BitOf(d / 2, j - 1) == BitOf(d / 2 / 2, j - 2);
    assert j > 2 ==> BitOf(d / 2 / 2, j - 2) == BitOf(d / 2 / 2 / 2, j - 3);
  }

  lemma MaskDigits(hi: nat, lo: nat, h1: nat, h0: nat, k: nat)
    requires (h1, h0, k) in {(10, 10, 1), (12, 12, 2), (15, 0, 4)}
    requires hi == Hex(h1, h0, h1, h0) && lo == Hex(15 - h1, 15 - h0, 15 - h1, 15 - h0)
    ensures Masks(hi, lo, k)
  {
    forall j: nat ensures Bit16(hi, j, Upper(j, k)) && Bit16(lo, j, !Upper(j, k)) {
      HexBit(h1, h0, h1, h0, j);
      HexBit(15 - h1, 15 - h0, 15 - h1, 15 - h0, j);
      if j < 16 {
        var i := if j < 4 then j else if j < 8 then j - 4 else if j < 12 then j - 8 else j - 12;
        Digit(h1, i);
        Digit(h0, i);
        Digit(15 - h1, i);
        Digit(15 - h0, i);
        if k == 1 {} else if k == 2 {} else {}
      }
    }
  }

  lemma ByteMasks(hi: nat, lo: nat)
    requires hi == Hex(15, 15, 0, 0) && lo == Hex(0, 0, 15, 15)
    ensures Masks(hi, lo, 8)
  {
    forall j: nat ensures Bit16(hi, j, Upper(j, 8)) && Bit16(lo, j, !Upper(j, 8)) {
      HexBit(15, 15, 0, 0, j);
      HexBit(0, 0, 15, 15, j);
      if j < 16 {
        var i := if j < 4 then j else if j < 8 then j - 4 else if j < 12 then j - 8 else j - 12;
        Digit(15, i);
        Digit(0, i);
      }
    }
  }

  // ----- the whole word -----

  lemma FifteenBits(n: nat)
    requires n == 15
    ensures Pow2(n) == 32768
  {
    assert Pow2(n - 12) == 8;
    Pow2Add(6, 6);
    Pow2Add(3, 3);
    Pow2Add(12, n - 12);
  }

  lemma {:induction false} BelowOwnPow2(a: nat)
    ensures a < Pow2(a)
  {
    if a > 0 { BelowOwnPow2(a - 1); }
  }

  /** After the last swap nothing lies above the sixteenth place. */
  lemma LastSwapFits(x: nat, hi: nat, lo: nat, n: nat)
    requires n == 16 && hi == Hex(15, 15, 0, 0) && lo == Hex(0, 0, 15, 15)
    ensures SwapGroups(x, hi, lo, 8) < Pow2(n)
  {
    var y := SwapGroups(x, hi, lo, 8);
    forall j: nat | n <= j ensures BitOf(y, j) == 0 {
      HexBit(15, 15, 0, 0, j + 8);
      HexBit(0, 0, 15, 15, j - 8);
      if j - 8 < 16 {
        Digit(0, if j - 8 < 12 then j - 16 else j - 20);
      }
      SwapBitRaw(x, hi, lo, 8, j);
    }
    BelowOwnPow2(y);
    if y >= n { BelowPow2(y, n, y); } else { Pow2Monotone(y, n); }
  }

  /** Place by place, four swaps bring to `j` what was at `15 - j`. */
  lemma Mirror(j: nat)
    requires j < 16
    ensures Partner(Partner(Partner(Partner(j, 8), 4), 2), 1) == 15 - j
  {
    assert Partner(j, 8) == if j < 8 then j + 8 else j - 8;
    assert Partner(Partner(j, 8), 4) == if j < 4 then j + 12 else if j < 8 then j + 4
                                        else if j < 12 then j - 4 else j - 12;
  }

  /** Four swaps and a shift by one reverse fifteen bits. */
  lemma FourSwapsReverse(i: nat, a: nat, b: nat, c: nat, d: nat, n: nat)
    requires i < 32768 && n == 15
    requires a == SwapGroups(i, 43690, 21845, 1) && b == SwapGroups(a, 52428, 13107, 2)
    requires c == SwapGroups(b, 61680, 3855, 4) && d == SwapGroups(c, 65280, 255, 8)
    ensures Shr(d, 1) == RevBits(i, n)
  {
    MaskDigits(43690, 21845, 10, 10, 1);
    MaskDigits(52428, 13107, 12, 12, 2);
    MaskDigits(61680, 3855, 15, 0, 4);
    ByteMasks(65280, 255);
    SwapIsSwapped(i, 43690, 21845, 1);
    SwapIsSwapped(a, 52428, 13107, 2);
    SwapIsSwapped(b, 61680, 3855, 4);
    SwapIsSwapped(c, 65280, 255, 8);
    LastSwapFits(c, 65280, 255, n + 1);
    SwapsReverse(i, a, b, c, d, n);
  }

  lemma SwapsReverse(i: nat, a: nat, b: nat, c: nat, d: nat, n: nat)
    requires n == 15 && d < Pow2(n + 1)
    requires Swapped(i, a, 1) && Swapped(a, b, 2) && Swapped(b, c, 4) && Swapped(c, d, 8)
    ensures Shr(d, 1) == RevBits(i, n)
  {
    assert Shr(d, 1) == d / 2 < Pow2(n);
    RevBound(i, n);
    forall j: nat | j < n ensures BitOf(d / 2, j) == BitOf(RevBits(i, n), j) {
      assert BitOf(d / 2, j) == BitOf(d, j + 1);
      Mirror(j + 1);
      RevBit(i, n, j);
    }
    SameBits(d / 2, RevBits(i, n), n);
  }
}
