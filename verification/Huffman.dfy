/** Canonical Huffman codes (section 3.2.2 of RFC 1951) and the worker's lookup table. */
module Huffman {
  import opened Bits
  import opened ReverseTable

  const MAX_BITS: nat := 15

  /** Code lengths by symbol; 0 marks a symbol that is not used. */
  type Lengths = seq<nat>

  ghost predicate ValidLengths(cd: Lengths, mb: nat) {
    && mb <= MAX_BITS
    && |cd| <= 320
    && forall i | 0 <= i < |cd| :: cd[i] <= mb
  }

  // ----- the code of the standard -----

  /** How many of the first `n` symbols have length `len`. */
  function Count(cd: Lengths, n: nat, len: nat): (c: nat)
    requires n <= |cd|
    ensures c <= n
  {
    if n == 0 then 0 else Count(cd, n - 1, len) + if cd[n - 1] == len then 1 else 0
  }

  /** The smallest code of length `len` (step 2 of the section). */
  function FirstCode(cd: Lengths, len: nat): nat
    requires len > 0
  {
    if len == 1 then 0 else 2 * (FirstCode(cd, len - 1) + Count(cd, |cd|, len - 1))
  }

  /** The code of symbol `i` (step 3 of the section). */
  function Code(cd: Lengths, i: nat): nat
    requires i < |cd| && cd[i] != 0
  {
    FirstCode(cd, cd[i]) + Count(cd, i, cd[i])
  }

  /** How many leaves of a full tree of depth `mb` the first `n` symbols occupy. */
  function Leaves(cd: Lengths, mb: nat, n: nat): nat
    requires n <= |cd| && forall i | 0 <= i < |cd| :: cd[i] <= mb
  {
    if n == 0 then 0
    else Leaves(cd, mb, n - 1) + if cd[n - 1] == 0 then 0 else Pow2(mb - cd[n - 1])
  }

  /** The Kraft inequality: the code lengths fit into one binary tree. */
  ghost predicate Kraft(cd: Lengths, mb: nat)
    requires ValidLengths(cd, mb)
  {
    Leaves(cd, mb, |cd|) <= Pow2(mb)
  }

  // ----- what the table holds -----

  /** The code of symbol `i` as the worker computes it, in 16-bit cells. */
  function FirstCell(cd: Lengths, len: nat): (c: nat)
    requires len > 0
    ensures c < 65536
  {
    if len == 1 then 0 else (2 * (FirstCell(cd, len - 1) + Count(cd, |cd|, len - 1))) % 65536
  }

  function CodeCell(cd: Lengths, i: nat): (c: nat)
    requires i < |cd| && cd[i] != 0
    ensures c < 65536
  {
    (FirstCell(cd, cd[i]) + Count(cd, i, cd[i])) % 65536
  }

  /** The slot of a table of 2^mb entries in which the value `v` is stored; a position
      outside the reversal table reads as 0. */
  function Slot(v: nat, mb: nat): nat
    requires mb <= 15
  {
    if v < 32768 then Shr(RevBits(v, 15), 15 - mb) else 0
  }

  ghost predicate Fills(lo: nat, hi: nat, mb: nat, p: nat)
    requires mb <= 15
  {
    exists v: nat | lo <= v < hi :: Slot(v, mb) == p
  }

  /** The first value of the block that symbol `i` fills. */
  function BlockStart(cd: Lengths, mb: nat, i: nat): nat
    requires i < |cd| && 0 < cd[i] <= mb
  {
    CodeCell(cd, i) * Pow2(mb - cd[i])
  }

  /** Entry `p` of the table after the first `n` symbols: the symbol that wrote it last,
      together with its length, or 0. It is defined for every length vector, also one
      that breaks the Kraft inequality. */
  ghost function Entry(cd: Lengths, mb: nat, n: nat, p: nat): nat
    requires ValidLengths(cd, mb) && n <= |cd|
  {
    if n == 0 then 0
    else if cd[n - 1] != 0
         && Fills(BlockStart(cd, mb, n - 1), BlockStart(cd, mb, n - 1) + Pow2(mb - cd[n - 1]), mb, p)
    then 16 * (n - 1) + cd[n - 1]
    else Entry(cd, mb, n - 1, p)
  }

  ghost predicate IsTable(co: seq<nat>, cd: Lengths, mb: nat)
    requires ValidLengths(cd, mb)
  {
    TableSoFar(co, cd, mb, |cd|)
  }

  // ----- building the table -----

  /** The cell that holds the next code of length `len` after `n` symbols have taken theirs. */
  function NextCell(cd: Lengths, len: nat, n: nat): nat
    requires n <= |cd| && len > 0
  {
    (FirstCell(cd, len) + Count(cd, n, len)) % 65536
  }

  ghost predicate Counters(le: seq<nat>, cd: Lengths, mb: nat, n: nat)
    requires n <= |cd|
  {
    |le| == mb && forall k | 0 <= k < mb :: le[k] == NextCell(cd, k + 1, n)
  }

  method FirstCodes(cd: Lengths, mb: nat) returns (le: array<nat>)
    requires ValidLengths(cd, mb)
    ensures fresh(le) && Counters(le[..], cd, mb, 0)
  {
    var l := CountLengths(cd, mb);
    le := new nat[mb](_ => 0);
    for i := 0 to mb
      invariant forall k | 0 <= k < i :: le[k] == FirstCell(cd, k + 1)
    {
      if i > 0 {
        FirstCellStep(cd, i);
        le[i] := Shl(le[i - 1] + l[i - 1], 1) % 65536;
      } else {
        le[i] := 0;
      }
    }
  }

  method CountLengths(cd: Lengths, mb: nat) returns (counts: seq<nat>)
    requires ValidLengths(cd, mb)
    ensures |counts| == mb && forall k | 0 <= k < mb :: counts[k] == Count(cd, |cd|, k + 1)
  {
    var l := new nat[mb](_ => 0);
    for i := 0 to |cd|
      invariant forall k | 0 <= k < mb :: l[k] == Count(cd, i, k + 1)
    {
      if cd[i] != 0 { l[cd[i] - 1] := l[cd[i] - 1] + 1; }
    }
    counts := l[..];
  }

  lemma FirstCellStep(cd: Lengths, i: nat)
    requires i > 0
    ensures FirstCell(cd, i + 1) == Shl(FirstCell(cd, i) + Count(cd, |cd|, i), 1) % 65536
  {
    ShlMul(FirstCell(cd, i) + Count(cd, |cd|, i), 1);
  }

  lemma CountersStep(le: seq<nat>, next: seq<nat>, cd: Lengths, mb: nat, i: nat)
    requires ValidLengths(cd, mb) && i < |cd| && Counters(le, cd, mb, i)
    requires next == if cd[i] == 0 then le else le[cd[i] - 1 := (le[cd[i] - 1] + 1) % 65536]
    ensures Counters(next, cd, mb, i + 1)
  {
    forall k | 0 <= k < mb ensures next[k] == NextCell(cd, k + 1, i + 1) {
      if cd[i] == k + 1 {
        assert le[k] == NextCell(cd, k + 1, i);
        ModStep(FirstCell(cd, k + 1) + Count(cd, i, k + 1));
      }
    }
  }

  lemma ModStep(x: nat)
    ensures (x % 65536 + 1) % 65536 == (x + 1) % 65536
  {
  }

  /** What storing `sv` for all values from `lo` up to `hi` makes of a table. */
  ghost predicate Filled(co: seq<nat>, next: seq<nat>, mb: nat, lo: nat, hi: nat, sv: nat)
    requires mb <= 15
  {
    && |next| == |co|
    && forall p: nat | p < |co| :: next[p] == if Fills(lo, hi, mb, p) then sv else co[p]
  }

  /** Stores `sv` for every value from `v` to `m`. */
  method FillBlock(rev: seq<nat>, co: array<nat>, mb: nat, v: nat, m: nat, sv: nat)
    requires IsReverseTable(rev) && mb <= MAX_BITS && co.Length == Pow2(mb)
    modifies co
    ensures Filled(old(co[..]), co[..], mb, v, m + 1, sv)
  {
    var rvb := 15 - mb;
    var x := v;
    while x <= m
      invariant v <= x
      invariant x <= m + 1 || x == v
      invariant Filled(old(co[..]), co[..], mb, v, x, sv)
    {
      SlotBound(x, mb);
      ZeroShr(rvb);
      var slot := Shr(if x < |rev| then rev[x] else 0, rvb);
      assert slot == Slot(x, mb);
      ghost var before := co[..];
      co[slot] := sv;
      FilledNext(old(co[..]), before, mb, v, x, sv);
      assert co[..] == before[slot := sv];
      x := x + 1;
    }
  }

  lemma FilledNext(co: seq<nat>, before: seq<nat>, mb: nat, v: nat, x: nat, sv: nat)
    requires mb <= 15 && v <= x && |co| == Pow2(mb) && Filled(co, before, mb, v, x, sv)
    ensures Slot(x, mb) < |before|
    ensures Filled(co, before[Slot(x, mb) := sv], mb, v, x + 1, sv)
  {
    SlotBound(x, mb);
    forall p: nat | p < |co|
      ensures Fills(v, x + 1, mb, p) <==> Fills(v, x, mb, p) || Slot(x, mb) == p
    {
      FillsNext(v, x, mb, p);
    }
  }

  lemma FillsNext(v: nat, x: nat, mb: nat, p: nat)
    requires mb <= 15 && v <= x
    ensures Fills(v, x + 1, mb, p) <==> Fills(v, x, mb, p) || Slot(x, mb) == p
  {
    if Fills(v, x + 1, mb, p) {
      var w: nat :| v <= w < x + 1 && Slot(w, mb) == p;
      if w != x { assert Fills(v, x, mb, p); }
    }
    if Fills(v, x, mb, p) {
      var w: nat :| v <= w < x && Slot(w, mb) == p;
      assert v <= w < x + 1;
    }
  }

  lemma {:induction false} ZeroShr(k: nat)
    ensures Shr(0, k) == 0
  {
    if k > 0 { ZeroShr(k - 1); }
  }

  lemma SlotBound(v: nat, mb: nat)
    requires mb <= 15
    ensures Slot(v, mb) < Pow2(mb)
  {
    if v < 32768 {
      ShrRev(v, 15, mb);
      RevBound(v, mb);
    }
  }

  /** The table that decodes: `hMap(cd, mb, 1)`. */
  method BuildTable(rev: seq<nat>, cd: Lengths, mb: nat) returns (table: seq<nat>)
    requires IsReverseTable(rev) && ValidLengths(cd, mb)
    ensures IsTable(table, cd, mb)
  {
    var le := FirstCodes(cd, mb);
    var co := new nat[Pow2(mb)](_ => 0);
    for i := 0 to |cd|
      invariant Counters(le[..], cd, mb, i)
      invariant TableSoFar(co[..], cd, mb, i)
    {
      if cd[i] != 0 {
        StoreSymbol(rev, cd, mb, i, le, co);
      } else {
        CountersStep(le[..], le[..], cd, mb, i);
        TableStep(co[..], co[..], cd, mb, i);
      }
    }
    table := co[..];
  }

  /** One round of the table-filling loop, for a symbol that is used. */
  method StoreSymbol(rev: seq<nat>, cd: Lengths, mb: nat, i: nat, le: array<nat>, co: array<nat>)
    requires IsReverseTable(rev) && ValidLengths(cd, mb) && i < |cd| && cd[i] != 0
    requires le != co && Counters(le[..], cd, mb, i) && TableSoFar(co[..], cd, mb, i)
    modifies le, co
    ensures Counters(le[..], cd, mb, i + 1)
    ensures TableSoFar(co[..], cd, mb, i + 1)
  {
    ghost var counters, filled := le[..], co[..];
    SymbolValues(counters, cd, mb, i);
    var sv := Or(Shl(i, 4), cd[i]);
    var rest := mb - cd[i];
    var code := le[cd[i] - 1];
    var v := Shl(code, rest);
    le[cd[i] - 1] := (code + 1) % 65536;
    assert le[..] == counters[cd[i] - 1 := (code + 1) % 65536];
    CountersStep(counters, le[..], cd, mb, i);
    var m := Or(v, Shl(1, rest) - 1);
    FillBlock(rev, co, mb, v, m, sv);
    TableStep(filled, co[..], cd, mb, i);
  }

  lemma SymbolValues(counters: seq<nat>, cd: Lengths, mb: nat, i: nat)
    requires ValidLengths(cd, mb) && i < |cd| && cd[i] != 0 && Counters(counters, cd, mb, i)
    ensures
      var v := Shl(counters[cd[i] - 1], mb - cd[i]);
      && Or(Shl(i, 4), cd[i]) == 16 * i + cd[i]
      && v == BlockStart(cd, mb, i) && Shl(1, mb - cd[i]) > 0
      && Or(v, Shl(1, mb - cd[i]) - 1) + 1 == BlockStart(cd, mb, i) + Pow2(mb - cd[i])
  {
    BlockBounds(CodeCell(cd, i), mb - cd[i]);
    SymbolWord(i, cd[i]);
    assert counters[cd[i] - 1] == NextCell(cd, cd[i] - 1 + 1, i);
  }

  lemma TableStep(co: seq<nat>, next: seq<nat>, cd: Lengths, mb: nat, i: nat)
    requires ValidLengths(cd, mb) && i < |cd| && TableSoFar(co, cd, mb, i)
    requires cd[i] == 0 ==> next == co
    requires cd[i] != 0 ==>
      var lo := BlockStart(cd, mb, i);
      Filled(co, next, mb, lo, lo + Pow2(mb - cd[i]), 16 * i + cd[i])
    ensures TableSoFar(next, cd, mb, i + 1)
  {
  }

  ghost predicate TableSoFar(co: seq<nat>, cd: Lengths, mb: nat, n: nat)
    requires ValidLengths(cd, mb) && n <= |cd|
  {
    |co| == Pow2(mb) && forall p: nat | p < |co| :: co[p] == Entry(cd, mb, n, p)
  }

  lemma BlockBounds(c: nat, rest: nat)
    ensures Shl(c, rest) == c * Pow2(rest) && Shl(1, rest) == Pow2(rest)
    ensures Or(Shl(c, rest), Shl(1, rest) - 1) == c * Pow2(rest) + Pow2(rest) - 1
  {
    ShlMul(c, rest);
    ShlMul(1, rest);
    OrDisjoint(c, Pow2(rest) - 1, rest);
  }

  lemma SymbolWord(i: nat, len: nat)
    requires len <= 15
    ensures Or(Shl(i, 4), len) == 16 * i + len
  {
    assert Pow2(4) == 16;
    OrDisjoint(i, len, 4);
  }

  /** The codes themselves, ready to be written lowest bit first: `hMap(cd, mb, 0)`. */
  method BuildCodes(rev: seq<nat>, cd: Lengths, mb: nat) returns (codes: seq<nat>)
    requires IsReverseTable(rev) && ValidLengths(cd, mb)
    ensures |codes| == |cd|
    ensures forall i | 0 <= i < |cd| :: codes[i] == CellOnWire(cd, i)
    ensures Kraft(cd, mb) ==> forall i | 0 <= i < |cd| :: codes[i] == CodeOnWire(cd, i)
  {
    var le := FirstCodes(cd, mb);
    var co := new nat[|cd|](_ => 0);
    for i := 0 to |cd|
      invariant Counters(le[..], cd, mb, i)
      invariant forall k | 0 <= k < |cd| :: co[k] == if k < i then CellOnWire(cd, k) else 0
    {
      ghost var counters := le[..];
      if cd[i] != 0 {
        var cell := le[cd[i] - 1];
        assert cell == counters[cd[i] - 1] == NextCell(cd, cd[i], i) == CodeCell(cd, i);
        co[i] := if cell < |rev| then Shr(rev[cell], 15 - cd[i]) else 0;
        le[cd[i] - 1] := (cell + 1) % 65536;
        assert le[..] == counters[cd[i] - 1 := (counters[cd[i] - 1] + 1) % 65536];
      }
      CountersStep(counters, le[..], cd, mb, i);
    }
    codes := co[..];
    if Kraft(cd, mb) {
      forall i | 0 <= i < |cd| ensures codes[i] == CodeOnWire(cd, i) { CodeWord(cd, mb, i); }
    }
  }

  /** What a code becomes for any length vector; a position outside the reversal table reads as 0. */
  function CellOnWire(cd: Lengths, i: nat): nat
    requires i < |cd| && cd[i] <= 15
  {
    if cd[i] == 0 || CodeCell(cd, i) >= 32768 then 0 else Shr(RevBits(CodeCell(cd, i), 15), 15 - cd[i])
  }

  /** A code goes onto the wire highest bit first, so it is written reversed. */
  function CodeOnWire(cd: Lengths, i: nat): nat
    requires i < |cd|
  {
    if cd[i] == 0 then 0 else RevBits(Code(cd, i), cd[i])
  }

  lemma CodeWord(cd: Lengths, mb: nat, i: nat)
    requires ValidLengths(cd, mb) && Kraft(cd, mb) && i < |cd|
    ensures CellOnWire(cd, i) == CodeOnWire(cd, i)
  {
    if cd[i] != 0 {
      CodeFits(cd, mb, i);
      Pow2Monotone(cd[i], 15);
      FifteenBits(15);
      ShrRev(Code(cd, i), 15, cd[i]);
    }
  }

  // ----- counting leaves -----

  /** The leaves that those of the first `n` symbols take whose codes are shorter than `len`. */
  function ShorterLeaves(cd: Lengths, mb: nat, n: nat, len: nat): nat
    requires n <= |cd| && 0 < len <= mb + 1
  {
    if len == 1 then 0
    else ShorterLeaves(cd, mb, n, len - 1) + Count(cd, n, len - 1) * Pow2(mb - (len - 1))
  }

  lemma {:induction false} ShorterLeavesStep(cd: Lengths, mb: nat, n: nat, len: nat)
    requires 0 < n <= |cd| && 0 < len <= mb + 1
    ensures ShorterLeaves(cd, mb, n, len) == ShorterLeaves(cd, mb, n - 1, len)
              + if 0 < cd[n - 1] < len then Pow2(mb - cd[n - 1]) else 0
  {
    if len > 1 {
      ShorterLeavesStep(cd, mb, n, len - 1);
      OneMore(Count(cd, n - 1, len - 1), Pow2(mb - (len - 1)));
    }
  }

  lemma OneMore(c: nat, p: nat)
    ensures (c + 1) * p == c * p + p
  {
  }

  /** Counting leaves by symbol or by length gives the same number. */
  lemma {:induction false} LeavesByLength(cd: Lengths, mb: nat, n: nat)
    requires ValidLengths(cd, mb) && n <= |cd|
    ensures ShorterLeaves(cd, mb, n, mb + 1) == Leaves(cd, mb, n)
  {
    if n == 0 {
      NoLeaves(cd, mb, mb + 1);
    } else {
      LeavesByLength(cd, mb, n - 1);
      ShorterLeavesStep(cd, mb, n, mb + 1);
    }
  }

  lemma {:induction false} NoLeaves(cd: Lengths, mb: nat, len: nat)
    requires 0 < len <= mb + 1
    ensures ShorterLeaves(cd, mb, 0, len) == 0
  {
    if len > 1 { NoLeaves(cd, mb, len - 1); }
  }

  lemma {:induction false} ShorterLeavesMonotone(cd: Lengths, mb: nat, a: nat, b: nat)
    requires 0 < a <= b <= mb + 1
    ensures ShorterLeaves(cd, mb, |cd|, a) <= ShorterLeaves(cd, mb, |cd|, b)
    decreases b
  {
    if a < b { ShorterLeavesMonotone(cd, mb, a, b - 1); }
  }

  /** The first code of a length starts where the shorter codes end. */
  lemma {:induction false} FirstCodeLeaf(cd: Lengths, mb: nat, len: nat)
    requires 0 < len <= mb
    ensures FirstCode(cd, len) * Pow2(mb - len) == ShorterLeaves(cd, mb, |cd|, len)
  {
    if len > 1 {
      FirstCodeLeaf(cd, mb, len - 1);
      var f, c, p := FirstCode(cd, len - 1), Count(cd, |cd|, len - 1), Pow2(mb - len);
      assert Pow2(mb - (len - 1)) == 2 * p;
      Distribute(f, c, p);
    }
  }

  lemma Distribute(f: nat, c: nat, p: nat)
    ensures 2 * (f + c) * p == f * (2 * p) + c * (2 * p)
  {
  }

  lemma {:induction false} CountMonotone(cd: Lengths, m: nat, n: nat, len: nat)
    requires m <= n <= |cd|
    ensures Count(cd, m, len) <= Count(cd, n, len)
    decreases n
  {
    if m < n { CountMonotone(cd, m, n - 1, len); }
  }

  /** The leaves below symbol `i` lie between those of shorter and those of longer codes. */
  lemma CodeLeaves(cd: Lengths, mb: nat, i: nat)
    requires ValidLengths(cd, mb) && i < |cd| && cd[i] != 0
    ensures ShorterLeaves(cd, mb, |cd|, cd[i]) <= Code(cd, i) * Pow2(mb - cd[i])
    ensures (Code(cd, i) + 1) * Pow2(mb - cd[i]) <= ShorterLeaves(cd, mb, |cd|, cd[i] + 1)
  {
    var len := cd[i];
    FirstCodeLeaf(cd, mb, len);
    CountMonotone(cd, i + 1, |cd|, len);
    LeafRange(FirstCode(cd, len), Count(cd, i, len), Count(cd, |cd|, len), Pow2(mb - len));
  }

  lemma LeafRange(f: nat, k: nat, c: nat, p: nat)
    requires k < c
    ensures f * p <= (f + k) * p
    ensures (f + k + 1) * p <= f * p + c * p
  {
    assert (f + k) * p == f * p + k * p;
    assert (f + k + 1) * p == f * p + (k + 1) * p;
    MulMonotone(k + 1, c, p);
  }

  lemma MulMonotone(a: nat, b: nat, p: nat)
    requires a <= b
    ensures a * p <= b * p
  {
  }

  /** No code of a valid length vector needs more bits than its length, nor more than 16. */
  lemma CodeFits(cd: Lengths, mb: nat, i: nat)
    requires ValidLengths(cd, mb) && Kraft(cd, mb) && i < |cd| && cd[i] != 0
    ensures Code(cd, i) < Pow2(cd[i])
    ensures (Code(cd, i) + 1) * Pow2(mb - cd[i]) <= Pow2(mb)
    ensures CodeCell(cd, i) == Code(cd, i)
  {
    var len := cd[i];
    CodeLeaves(cd, mb, i);
    ShorterLeavesMonotone(cd, mb, len + 1, mb + 1);
    LeavesByLength(cd, mb, |cd|);
    Pow2Add(len, mb - len);
    MulCancel(Code(cd, i) + 1, Pow2(len), Pow2(mb - len));
    Pow2Monotone(len, 15);
    FifteenBits(15);
    FirstCellExact(cd, mb, len);
  }

  lemma MulCancel(a: nat, b: nat, p: nat)
    requires p > 0 && a * p <= b * p
    ensures a <= b
  {
    if a > b {
      MulMonotone(b + 1, a, p);
      OneMore(b, p);
    }
  }

  lemma {:induction false} FirstCellExact(cd: Lengths, mb: nat, len: nat)
    requires ValidLengths(cd, mb) && Kraft(cd, mb) && 0 < len <= mb
    ensures FirstCell(cd, len) == FirstCode(cd, len)
  {
    if len > 1 {
      FirstCellExact(cd, mb, len - 1);
      FirstCodeLeaf(cd, mb, len);
      ShorterLeavesMonotone(cd, mb, len, mb + 1);
      LeavesByLength(cd, mb, |cd|);
      Pow2Add(len, mb - len);
      MulCancel(FirstCode(cd, len), Pow2(len), Pow2(mb - len));
      Pow2Monotone(len, 15);
      FifteenBits(15);
    }
  }

  // ----- the table is the canonical code -----

  /** Different symbols own disjoint intervals of the code space. */
  lemma IntervalsDisjoint(cd: Lengths, mb: nat, i: nat, j: nat)
    requires ValidLengths(cd, mb) && i < |cd| && j < |cd| && i != j && cd[i] != 0 && cd[j] != 0
    ensures (Code(cd, i) + 1) * Pow2(mb - cd[i]) <= Code(cd, j) * Pow2(mb - cd[j])
         || (Code(cd, j) + 1) * Pow2(mb - cd[j]) <= Code(cd, i) * Pow2(mb - cd[i])
  {
    CodeLeaves(cd, mb, i);
    CodeLeaves(cd, mb, j);
    if cd[i] < cd[j] {
      ShorterLeavesMonotone(cd, mb, cd[i] + 1, cd[j]);
    } else if cd[j] < cd[i] {
      ShorterLeavesMonotone(cd, mb, cd[j] + 1, cd[i]);
    } else if i < j {
      CountMonotone(cd, i + 1, j, cd[i]);
      MulMonotone(Code(cd, i) + 1, Code(cd, j), Pow2(mb - cd[i]));
    } else {
      CountMonotone(cd, j + 1, i, cd[i]);
      MulMonotone(Code(cd, j) + 1, Code(cd, i), Pow2(mb - cd[i]));
    }
  }

  /** The bits at the front of a pattern are the code of symbol `i`. */
  ghost predicate StartsWithCode(cd: Lengths, i: nat, p: nat)
    requires i < |cd|
  {
    cd[i] != 0 && Low(p, cd[i]) == RevBits(Code(cd, i), cd[i])
  }

  lemma BlockIsCode(cd: Lengths, mb: nat, i: nat, p: nat)
    requires ValidLengths(cd, mb) && Kraft(cd, mb) && i < |cd| && cd[i] != 0 && p < Pow2(mb)
    ensures StartsWithCode(cd, i, p) <==>
              Code(cd, i) * Pow2(mb - cd[i]) <= RevBits(p, mb) < (Code(cd, i) + 1) * Pow2(mb - cd[i])
  {
    CodeFits(cd, mb, i);
    ShrRange(RevBits(p, mb), Code(cd, i), mb - cd[i]);
    ShrRev(p, mb, cd[i]);
    ReversedCode(p, Code(cd, i), cd[i]);
  }

  lemma FillsIsRange(lo: nat, hi: nat, mb: nat, p: nat)
    requires mb <= 15 && hi <= Pow2(mb) && p < Pow2(mb)
    ensures Fills(lo, hi, mb, p) <==> lo <= RevBits(p, mb) < hi
  {
    var v := RevBits(p, mb);
    RevBound(p, mb);
    SlotOfReverse(p, mb);
    if Fills(lo, hi, mb, p) {
      var w: nat :| lo <= w < hi && Slot(w, mb) == p;
      SlotInjective(w, v, mb);
    }
    if lo <= v < hi { assert Slot(v, mb) == p; }
  }

  lemma FillsIsCode(cd: Lengths, mb: nat, i: nat, p: nat)
    requires ValidLengths(cd, mb) && Kraft(cd, mb) && i < |cd| && cd[i] != 0 && p < Pow2(mb)
    ensures Fills(BlockStart(cd, mb, i), BlockStart(cd, mb, i) + Pow2(mb - cd[i]), mb, p)
       <==> StartsWithCode(cd, i, p)
  {
    BlockIsCode(cd, mb, i, p);
    CodeFits(cd, mb, i);
    OneMore(Code(cd, i), Pow2(mb - cd[i]));
    FillsIsRange(BlockStart(cd, mb, i), BlockStart(cd, mb, i) + Pow2(mb - cd[i]), mb, p);
  }

  lemma SlotIsReverse(v: nat, mb: nat)
    requires mb <= 15 && v < Pow2(mb)
    ensures Slot(v, mb) == RevBits(v, mb)
  {
    Pow2Monotone(mb, 15);
    FifteenBits(15);
    ShrRev(v, 15, mb);
  }

  lemma SlotOfReverse(p: nat, mb: nat)
    requires mb <= 15 && p < Pow2(mb)
    ensures Slot(RevBits(p, mb), mb) == p
  {
    RevBound(p, mb);
    SlotIsReverse(RevBits(p, mb), mb);
    RevRev(p, mb);
  }

  lemma SlotInjective(v: nat, w: nat, mb: nat)
    requires mb <= 15 && v < Pow2(mb) && w < Pow2(mb) && Slot(v, mb) == Slot(w, mb)
    ensures v == w
  {
    SlotIsReverse(v, mb);
    SlotIsReverse(w, mb);
    RevRev(v, mb);
    RevRev(w, mb);
  }

  lemma ReversedCode(p: nat, c: nat, len: nat)
    requires c < Pow2(len)
    ensures RevBits(p, len) == c <==> Low(p, len) == RevBits(c, len)
  {
    RevLow(p, len);
    LowBound(p, len);
    RevRev(Low(p, len), len);
    RevRev(c, len);
  }

  /** At most one symbol's code starts a given pattern. */
  lemma PrefixFree(cd: Lengths, mb: nat, i: nat, j: nat, p: nat)
    requires ValidLengths(cd, mb) && Kraft(cd, mb) && p < Pow2(mb)
    requires i < |cd| && j < |cd| && StartsWithCode(cd, i, p) && StartsWithCode(cd, j, p)
    ensures i == j
  {
    if i != j {
      BlockIsCode(cd, mb, i, p);
      BlockIsCode(cd, mb, j, p);
      IntervalsDisjoint(cd, mb, i, j);
    }
  }

  /** No cell of the table is filled by two symbols. */
  lemma BlocksDisjoint(cd: Lengths, mb: nat, i: nat, j: nat, p: nat)
    requires ValidLengths(cd, mb) && Kraft(cd, mb) && p < Pow2(mb)
    requires i < |cd| && j < |cd| && i != j && cd[i] != 0 && cd[j] != 0
    ensures !(Fills(BlockStart(cd, mb, i), BlockStart(cd, mb, i) + Pow2(mb - cd[i]), mb, p)
              && Fills(BlockStart(cd, mb, j), BlockStart(cd, mb, j) + Pow2(mb - cd[j]), mb, p))
  {
    FillsIsCode(cd, mb, i, p);
    FillsIsCode(cd, mb, j, p);
    if StartsWithCode(cd, i, p) && StartsWithCode(cd, j, p) { PrefixFree(cd, mb, i, j, p); }
  }

  /** The table is the canonical code: a pattern decodes to symbol `i` exactly when it
      starts with the reversed code of `i`, and to nothing when it starts with no code. */
  lemma TableIsCanonical(cd: Lengths, mb: nat, p: nat)
    requires ValidLengths(cd, mb) && Kraft(cd, mb) && p < Pow2(mb)
    ensures forall i: nat | i < |cd| ::
              StartsWithCode(cd, i, p) <==> cd[i] != 0 && Entry(cd, mb, |cd|, p) == 16 * i + cd[i]
    ensures Entry(cd, mb, |cd|, p) == 0 <==> forall i: nat | i < |cd| :: !StartsWithCode(cd, i, p)
  {
    var e := Entry(cd, mb, |cd|, p);
    forall i: nat | i < |cd| && StartsWithCode(cd, i, p) ensures e == 16 * i + cd[i] {
      EntryOfCode(cd, mb, |cd|, p, i);
    }
    if e != 0 {
      var k := CodeOfEntry(cd, mb, |cd|, p);
      assert forall i: nat | i < |cd| && e == 16 * i + cd[i] :: i == k;
    }
  }

  lemma EntryStep(cd: Lengths, mb: nat, n: nat, p: nat)
    requires ValidLengths(cd, mb) && Kraft(cd, mb) && p < Pow2(mb) && 0 < n <= |cd|
    ensures Entry(cd, mb, n, p) ==
      if StartsWithCode(cd, n - 1, p) then 16 * (n - 1) + cd[n - 1] else Entry(cd, mb, n - 1, p)
  {
    if cd[n - 1] != 0 { FillsIsCode(cd, mb, n - 1, p); }
  }

  lemma {:induction false} EntryOfCode(cd: Lengths, mb: nat, n: nat, p: nat, i: nat)
    requires ValidLengths(cd, mb) && Kraft(cd, mb) && p < Pow2(mb)
    requires i < n <= |cd| && StartsWithCode(cd, i, p)
    ensures Entry(cd, mb, n, p) == 16 * i + cd[i]
  {
    EntryStep(cd, mb, n, p);
    if i < n - 1 {
      if StartsWithCode(cd, n - 1, p) { PrefixFree(cd, mb, i, n - 1, p); }
      EntryOfCode(cd, mb, n - 1, p, i);
    }
  }

  lemma {:induction false} CodeOfEntry(cd: Lengths, mb: nat, n: nat, p: nat) returns (i: nat)
    requires ValidLengths(cd, mb) && Kraft(cd, mb) && p < Pow2(mb) && n <= |cd|
    requires Entry(cd, mb, n, p) != 0
    ensures i < n && StartsWithCode(cd, i, p) && Entry(cd, mb, n, p) == 16 * i + cd[i]
  {
    EntryStep(cd, mb, n, p);
    if StartsWithCode(cd, n - 1, p) {
      i := n - 1;
    } else {
      i := CodeOfEntry(cd, mb, n - 1, p);
    }
  }
}
