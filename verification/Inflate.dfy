/** The worker's inflater: table lookups on a window of two or three bytes, and a match
    copy unrolled by four that writes past the end of the match. Each method is proved
    equal to the reference decoder of module Deflate, on every byte string. */
module Inflate {
  import opened Bits
  import opened ReverseTable
  import opened Huffman
  import opened Deflate

  // ----- reading through a window -----

  /** `bits(d, p, m)`: two bytes, shifted and masked. */
  function Window2(d: seq<Byte>, p: nat, m: nat): nat {
    var o := p / 8;
    And(Shr(Or(Shl(At(d, o + 1), 8), At(d, o)), And(p, 7)), m)
  }

  /** `bits16(d, p)`: three bytes, shifted. */
  function Window3(d: seq<Byte>, p: nat): nat {
    var o := p / 8;
    Shr(Or(Shl(At(d, o + 2), 16), Or(Shl(At(d, o + 1), 8), At(d, o))), And(p, 7))
  }

  lemma BitInByte(p: nat)
    ensures And(p, 7) == p % 8
  {
    assert Pow2(3) == 8;
    AndMask(p, 3);
    LowThree(p, 3);
  }

  lemma LowThree(p: nat, k: nat)
    requires k == 3
    ensures Low(p, k) == p % 8
  {
    assert Low(p / 2 / 2 / 2, k - 3) == 0;
    assert Low(p / 2 / 2, k - 2) == p / 2 / 2 % 2;
    assert Low(p / 2, k - 1) == p / 2 % 2 + 2 * (p / 2 / 2 % 2);
  }

  /** Bit `j` of a window of bytes is bit `j` of the stream, counted from its first byte. */
  lemma WindowBit(d: seq<Byte>, o: nat, j: nat, eight: nat)
    requires eight == 8
    ensures j < 16 ==> BitOf(Or(Shl(At(d, o + 1), eight), At(d, o)), j) == BitAt(d, 8 * o + j)
    ensures j < 24 ==> BitOf(Or(Shl(At(d, o + 2), 2 * eight), Or(Shl(At(d, o + 1), eight), At(d, o))), j)
                       == BitAt(d, 8 * o + j)
  {
    var a, b, c := At(d, o), At(d, o + 1), At(d, o + 2);
    BytePlace(o, j);
    BytesBit(a, b, j, eight);
    ByteBound(eight);
    if j >= 16 { HighBit(b, eight, j - 8); }
    HighByteBit(c, Or(Shl(b, eight), a), j, 2 * eight);
  }

  lemma BytesBit(a: Byte, b: Byte, j: nat, eight: nat)
    requires eight == 8
    ensures BitOf(Or(Shl(b, eight), a), j) == if j < 8 then BitOf(a, j) else BitOf(b, j - 8)
  {
    ByteBound(eight);
    OrBit(Shl(b, eight), a, j);
    ShlBit(b, eight, j);
    if j >= 8 { HighBit(a, eight, j); }
  }

  lemma HighByteBit(c: Byte, low: nat, j: nat, sixteen: nat)
    requires sixteen == 16 && (j >= 16 ==> BitOf(low, j) == 0)
    ensures BitOf(Or(Shl(c, sixteen), low), j) == if j < 16 then BitOf(low, j) else BitOf(c, j - 16)
  {
    OrBit(Shl(c, sixteen), low, j);
    ShlBit(c, sixteen, j);
  }

  lemma BytePlace(o: nat, j: nat)
    ensures j < 8 ==> (8 * o + j) / 8 == o && (8 * o + j) % 8 == j
    ensures 8 <= j < 16 ==> (8 * o + j) / 8 == o + 1 && (8 * o + j) % 8 == j - 8
    ensures 16 <= j < 24 ==> (8 * o + j) / 8 == o + 2 && (8 * o + j) % 8 == j - 16
  {
  }

  /** The two-byte window shows up to nine bits. */
  lemma Window2IsPeek(d: seq<Byte>, p: nat, k: nat, m: nat)
    requires k <= 9 && m + 1 == Pow2(k)
    ensures Window2(d, p, m) == Peek(d, p, k)
  {
    var o, sh := p / 8, p % 8;
    var w := Or(Shl(At(d, o + 1), 8), At(d, o));
    BitInByte(p);
    AndMask(Shr(w, sh), k);
    forall j: nat | sh <= j < sh + k ensures BitOf(w, j) == BitAt(d, p + (j - sh)) {
      WindowBit(d, o, j, 8);
      assert p + (j - sh) == 8 * o + j;
    }
    LowOfShift(d, p, w, sh, k);
  }

  /** The three-byte window shows up to seventeen bits. */
  lemma Window3IsPeek(d: seq<Byte>, p: nat, k: nat)
    requires k <= 17
    ensures Shl(1, k) == Pow2(k)
    ensures And(Window3(d, p), Shl(1, k) - 1) == Peek(d, p, k)
  {
    var o, sh := p / 8, p % 8;
    var w := Or(Shl(At(d, o + 2), 16), Or(Shl(At(d, o + 1), 8), At(d, o)));
    ShlMul(1, k);
    BitInByte(p);
    AndMask(Shr(w, sh), k);
    BitsOfWindow3(d, p, o, sh, w, k, 8);
  }

  lemma BitsOfWindow3(d: seq<Byte>, p: nat, o: nat, sh: nat, w: nat, k: nat, eight: nat)
    requires eight == 8 && p == 8 * o + sh && sh < 8 && k <= 17
    requires w == Or(Shl(At(d, o + 2), 2 * eight), Or(Shl(At(d, o + 1), eight), At(d, o)))
    ensures Low(Shr(w, sh), k) == Peek(d, p, k)
  {
    forall j: nat | sh <= j < sh + k ensures BitOf(w, j) == BitAt(d, p + (j - sh)) {
      WindowBit(d, o, j, eight);
      assert p + (j - sh) == 8 * o + j;
    }
    LowOfShift(d, p, w, sh, k);
  }

  method ReadBits(d: seq<Byte>, p: nat, k: nat) returns (v: nat)
    requires k <= 9
    ensures v == Peek(d, p, k)
  {
    ShlMul(1, k);
    Window2IsPeek(d, p, k, Pow2(k) - 1);
    v := Window2(d, p, Shl(1, k) - 1);
  }

  method ReadBits16(d: seq<Byte>, p: nat, k: nat) returns (v: nat)
    requires k <= 17
    ensures v == Peek(d, p, k)
  {
    Window3IsPeek(d, p, k);
    v := And(Window3(d, p), Shl(1, k) - 1);
  }

  // ----- the tables made when the worker starts -----

  const LENGTH_EXTRA: seq<nat> :=
    [0, 0, 0, 0, 0, 0, 0, 0, 1, 1, 1, 1, 2, 2, 2, 2, 3, 3, 3, 3, 4, 4, 4, 4, 5, 5, 5, 5, 0, 0, 0, 0]

  const DISTANCE_EXTRA: seq<nat> :=
    [0, 0, 0, 0, 1, 1, 2, 2, 3, 3, 4, 4, 5, 5, 6, 6, 7, 7, 8, 8, 9, 9, 10, 10, 11, 11, 12, 12, 13, 13, 0, 0]

  const LENGTH_ORDER: seq<nat> := [16, 17, 18, 0, 8, 7, 9, 6, 10, 5, 11, 4, 12, 3, 13, 2, 14, 1, 15]

  lemma OrderIsRight(i: nat)
    requires i < 19
    ensures |LENGTH_ORDER| == 19 && LENGTH_ORDER[i] == OrderAt(i)
  {
  }

  ghost predicate IsExtras(fleb: seq<nat>, fdeb: seq<nat>) {
    && |fleb| == 32 && (forall i | 0 <= i < 32 :: fleb[i] == LengthExtra(i))
    && |fdeb| == 32 && (forall i | 0 <= i < 32 :: fdeb[i] == DistanceExtra(i))
  }

  lemma ExtrasAreRight()
    ensures IsExtras(LENGTH_EXTRA, DISTANCE_EXTRA)
  {
  }

  datatype Tables = Tables(rev: seq<nat>, fleb: seq<nat>, fdeb: seq<nat>, fl: seq<nat>, fd: seq<nat>, flrm: seq<nat>, fdrm: seq<nat>)

  ghost predicate ValidTables(t: Tables) {
    && IsReverseTable(t.rev) && IsExtras(t.fleb, t.fdeb)
    && |t.fl| == 31 && (forall i | 0 <= i < 31 :: t.fl[i] == LengthBase(i))
    && |t.fd| == 31 && (forall i | 0 <= i < 31 :: t.fd[i] == DistanceBase(i))
    && IsTable(t.flrm, FixedLiterals(), 9)
    && IsTable(t.fdrm, FixedDistances(), 5)
  }

  /** What `freb(eb, start)` puts into its first table. */
  function Base(extra: seq<nat>, start: nat, i: nat): nat
    requires i <= |extra|
  {
    if i == 0 then start + 1 else Base(extra, start, i - 1) + Pow2(extra[i - 1])
  }

  ghost predicate BasesSoFar(b: seq<nat>, extra: seq<nat>, start: nat, n: nat)
    requires n <= |extra|
  {
    n <= |b| && forall k: nat | k < n :: b[k] == Base(extra, start, k)
  }

  /** `freb(eb, start)`: the bases, and the symbol for each value. */
  method BuildBasesAndLookup(extra: seq<nat>, start: nat) returns (bases: seq<nat>, symbols: seq<nat>)
    requires |extra| >= 31
    ensures |bases| == 31 && BasesSoFar(bases, extra, start, 31)
    ensures |symbols| == bases[30] && forall j | 0 <= j < |symbols| :: IsLookup(bases, j, symbols[j])
  {
    bases := BuildBases(extra, start);
    BasesGrow(extra, start, bases);
    symbols := BuildLookup(bases);
  }

  ghost predicate Growing(b: seq<nat>) {
    forall i, k | 0 <= i <= k < |b| :: b[i] <= b[k]
  }

  lemma {:induction false} BaseGrows(extra: seq<nat>, start: nat, i: nat, k: nat)
    requires i <= k <= |extra|
    ensures Base(extra, start, i) <= Base(extra, start, k)
    decreases k
  {
    if i < k { BaseGrows(extra, start, i, k - 1); }
  }

  lemma BasesGrow(extra: seq<nat>, start: nat, b: seq<nat>)
    requires |extra| >= 31 && |b| == 31 && BasesSoFar(b, extra, start, 31)
    ensures Growing(b)
  {
    forall i: nat, k: nat | i <= k < |b| ensures b[i] <= b[k] { BaseGrows(extra, start, i, k); }
  }

  /** What a value between the bases is looked up as: how far it is behind the base of its symbol,
      above the five bits of the symbol. Values below the second base are not looked up. */
  ghost predicate IsLookup(b: seq<nat>, j: int, entry: nat)
    requires |b| == 31
  {
    && (j < b[1] ==> entry == 0)
    && forall i: nat | 1 <= i < 30 && b[i] <= j < b[i + 1] :: entry == 32 * (j - b[i]) + i
  }

  /** The loop for the lookup. */
  method BuildLookup(b: seq<nat>) returns (symbols: seq<nat>)
    requires |b| == 31 && Growing(b)
    ensures |symbols| == b[30] && forall j | 0 <= j < |symbols| :: IsLookup(b, j, symbols[j])
  {
    var r := new nat[b[30]](_ => 0);
    for i := 1 to 30
      invariant forall j | 0 <= j < b[30] :: if j < b[i] then IsLookup(b, j, r[j]) else r[j] == 0
    {
      for j := b[i] to b[i + 1]
        invariant forall k | 0 <= k < b[30] :: if k < j then IsLookup(b, k, r[k]) else r[k] == 0
      {
        LookupEntry(b, i, j);
        r[j] := Or(Shl(j - b[i], 5), i);
      }
    }
    symbols := r[..];
  }

  lemma OneSymbol(b: seq<nat>, i: nat, k: nat, j: nat)
    requires Growing(b) && i + 1 < |b| && k + 1 < |b| && b[i] <= j < b[i + 1] && b[k] <= j < b[k + 1]
    ensures k == i
  {}

  lemma LookupEntry(b: seq<nat>, i: nat, j: nat)
    requires |b| == 31 && Growing(b) && 1 <= i < 30 && b[i] <= j < b[i + 1]
    ensures IsLookup(b, j, Or(Shl(j - b[i], 5), i))
  {
    assert Pow2(5) == 32;
    OrDisjoint(j - b[i], i, 5);
    forall k: nat | 1 <= k < 30 && b[k] <= j < b[k + 1] ensures k == i { OneSymbol(b, i, k, j); }
  }

  /** Its first loop. */
  method BuildBases(extra: seq<nat>, start: nat) returns (bases: seq<nat>)
    requires |extra| >= 31
    ensures |bases| == 31 && BasesSoFar(bases, extra, start, 31)
  {
    var b := new nat[31](_ => 0);
    var next: nat := start;
    for i := 0 to 31
      invariant next == if i == 0 then start else Base(extra, start, i - 1)
      invariant BasesSoFar(b[..], extra, start, i)
    {
      var shift := if i == 0 then 0 else extra[i - 1];
      BaseStep(extra, start, i, next, shift);
      next := next + Shl(1, shift);
      ghost var before := b[..];
      b[i] := next;
      assert b[..] == before[i := next];
    }
    bases := b[..];
  }

  lemma BaseStep(extra: seq<nat>, start: nat, i: nat, next: nat, shift: nat)
    requires i <= |extra| && next == (if i == 0 then start else Base(extra, start, i - 1))
    requires shift == if i == 0 then 0 else extra[i - 1]
    ensures next + Shl(1, shift) == Base(extra, start, i)
  {
    ShlMul(1, shift);
  }

  lemma {:induction false} BasesAreRight(fleb: seq<nat>, fdeb: seq<nat>, i: nat)
    requires IsExtras(fleb, fdeb) && i < 32
    ensures Base(fleb, 2, i) == LengthStart(i) && Base(fdeb, 0, i) == DistanceBase(i)
  {
    if i > 0 { BasesAreRight(fleb, fdeb, i - 1); }
  }

  method LoadTables() returns (t: Tables)
    ensures ValidTables(t)
  {
    var rev := BuildReverseTable();
    var fleb, fdeb := LENGTH_EXTRA, DISTANCE_EXTRA;
    ExtrasAreRight();
    var fl, fd := LoadBases(fleb, fdeb);
    var flrm := BuildTable(rev, FixedLiterals(), 9);
    var fdrm := BuildTable(rev, FixedDistances(), 5);
    t := Tables(rev, fleb, fdeb, fl, fd, flrm, fdrm);
  }

  method LoadBases(fleb: seq<nat>, fdeb: seq<nat>) returns (fl: seq<nat>, fd: seq<nat>)
    requires IsExtras(fleb, fdeb)
    ensures |fl| == 31 && forall i | 0 <= i < 31 :: fl[i] == LengthBase(i)
    ensures |fd| == 31 && forall i | 0 <= i < 31 :: fd[i] == DistanceBase(i)
  {
    fl := BuildBases(fleb, 2);
    fl := fl[28 := 258];
    fd := BuildBases(fdeb, 0);
    forall i: nat | i < 31 ensures i != 28 ==> fl[i] == LengthStart(i) {
      BasesAreRight(fleb, fdeb, i);
    }
    forall i: nat | i < 31 ensures fd[i] == DistanceBase(i) {
      BasesAreRight(fleb, fdeb, i);
    }
  }

  // ----- the output buffer -----

  /** The buffer holds as much of `out` as it has room for. */
  ghost predicate Holds(buf: seq<Byte>, out: seq<Byte>) {
    forall k | 0 <= k < |buf| && k < |out| :: buf[k] == out[k]
  }

  /** `buf[bt] = v`: a write past the end of a typed array is dropped. */
  method Put(buf: array<Byte>, bt: nat, v: Byte, ghost out: seq<Byte>)
    requires bt == |out| && Holds(buf[..], out)
    modifies buf
    ensures Holds(buf[..], out + [v])
  {
    if bt < buf.Length { buf[bt] := v; }
  }

  /** `buf[x] = buf[x - dt]`: a read outside the array gives 0. */
  method CopyByte(buf: array<Byte>, x: nat, dt: nat, ghost out: seq<Byte>)
    requires x == |out| && Holds(buf[..], out)
    modifies buf
    ensures Holds(buf[..], out + [Back(out, dt)])
  {
    var v: Byte := 0;
    if 1 <= dt <= x && x - dt < buf.Length { v := buf[..][x - dt]; }
    if x < buf.Length { assert v == Back(out, dt); }
    if x < buf.Length { buf[x] := v; }
  }

  /** The match copy. It always writes a multiple of four bytes; what lies past the match
      is overwritten by what follows or cut off at the end. */
  method CopyMatch(buf: array<Byte>, bt: nat, add: nat, dt: nat, ghost out: seq<Byte>)
    requires bt == |out| && Holds(buf[..], out)
    modifies buf
    ensures Holds(buf[..], CopyBack(out, dt, add))
  {
    var end := bt + add;
    var x := bt;
    while x < end
      invariant bt <= x && Holds(buf[..], CopyBack(out, dt, x - bt))
      invariant x <= end + 3
    {
      CopyByte(buf, x, dt, CopyBack(out, dt, x - bt));
      CopyByte(buf, x + 1, dt, CopyBack(out, dt, x + 1 - bt));
      CopyByte(buf, x + 2, dt, CopyBack(out, dt, x + 2 - bt));
      CopyByte(buf, x + 3, dt, CopyBack(out, dt, x + 3 - bt));
      x := x + 4;
    }
    CopyBackPrefix(out, dt, add, x - bt);
  }

  lemma {:induction false} CopyBackPrefix(out: seq<Byte>, d: nat, m: nat, n: nat)
    requires m <= n
    ensures CopyBack(out, d, m) <= CopyBack(out, d, n)
    decreases n
  {
    if m < n { CopyBackPrefix(out, d, m, n - 1); }
  }

  // ----- dynamic headers -----

  /** `max(a)` */
  method MaxOf(a: seq<nat>) returns (m: nat)
    requires |a| > 0
    ensures m == Max(a)
  {
    m := a[0];
    for i := 1 to |a|
      invariant m == Max(a[..i])
    {
      assert a[..i + 1][..i] == a[..i];
      if a[i] > m { m := a[i]; }
    }
    assert a[..|a|] == a;
  }

  /** The lengths of the code-length codes, in the order of the format. */
  method ReadCodeLengthLengths(dat: seq<Byte>, pos: nat, hcLen: nat) returns (clt: Lengths)
    requires hcLen <= 19
    ensures clt == CodeLengthLengths(dat, pos, hcLen)
  {
    clt := seq(19, _ => 0);
    for i := 0 to hcLen
      invariant clt == CodeLengthLengths(dat, pos, i)
    {
      var v := ReadBits(dat, pos + 3 * i, 3);
      OrderIsRight(i);
      clt := clt[LENGTH_ORDER[i] := v];
    }
  }

  /** The array `ldt` after the loop has come to `i2` holds the first lengths of `lens`. */
  ghost predicate LengthsHeld(ldt: seq<nat>, i2: nat, lens: Lengths) {
    i2 == |lens| && forall k | 0 <= k < |ldt| && k < i2 :: ldt[k] == lens[k]
  }

  /** `while (n--) ldt[i2++] = c`, with writes past the end dropped. */
  method Append(ldt: array<nat>, i: nat, c: nat, count: nat, ghost lens: Lengths) returns (i2: nat)
    requires LengthsHeld(ldt[..], i, lens)
    modifies ldt
    ensures LengthsHeld(ldt[..], i2, lens + Repeat(c, count))
  {
    var n := count;
    i2 := i;
    while n > 0
      invariant 0 <= n <= count
      invariant LengthsHeld(ldt[..], i2, lens + Repeat(c, count - n))
    {
      if i2 < ldt.Length { ldt[i2] := c; }
      assert lens + Repeat(c, count - n + 1) == lens + Repeat(c, count - n) + [c];
      i2 := i2 + 1;
      n := n - 1;
    }
  }

  /** What a repeat symbol stands for. */
  method ReadRepeat(dat: seq<Byte>, start: nat, s: nat, previous: nat) returns (c: nat, n: nat, pos: nat)
    requires 16 <= s < 19
    ensures Run(c, n, pos) == ReadRun(dat, start, s, previous)
  {
    c, n, pos := 0, 0, start;
    if s == 16 {
      n := ReadBits(dat, pos, 2);
      n := 3 + n;
      pos := pos + 2;
      c := previous;
    } else if s == 17 {
      n := ReadBits(dat, pos, 3);
      n := 3 + n;
      pos := pos + 3;
    } else if s == 18 {
      n := ReadBits(dat, pos, 7);
      n := 11 + n;
      pos := pos + 7;
    }
  }

  /** One round of the loop over the code lengths: one length, or a run of equal ones. */
  method ReadCodeLength(dat: seq<Byte>, start: nat, clm: seq<nat>, ghost cl: Lengths, clb: nat, ldt: array<nat>,
                        i: nat, ghost lens: Lengths, ghost run: Run)
    returns (i2: nat, pos: nat)
    requires |cl| == 19 && ValidLengths(cl, clb) && clb <= 7 && IsTable(clm, cl, clb)
    requires LengthsHeld(ldt[..], i, lens) && i < ldt.Length
    requires IsRunAt(dat, start, cl, clb, lens, run)
    modifies ldt
    ensures pos == run.next && LengthsHeld(ldt[..], i2, lens + Repeat(run.value, run.count))
  {
    var pattern := ReadBits(dat, start, clb);
    var r := clm[pattern];
    SymbolForm(dat, start, cl, clb);
    EntryParts(r);
    var s := Shr(r, 4);
    pos := start + And(r, 15);
    var c, n := s, 1;
    if s >= 16 {
      var previous := if i > 0 then ldt[i - 1] else 0;
      c, n, pos := ReadRepeat(dat, pos, s, previous);
    }
    i2 := Append(ldt, i, c, n, lens);
  }

  /** The run that the code-length symbol at this place stands for. */
  ghost predicate IsRunAt(dat: seq<Byte>, p: nat, cl: Lengths, clb: nat, lens: Lengths, run: Run)
    requires |cl| == 19 && ValidLengths(cl, clb)
  {
    var e := Symbol(dat, p, cl, clb);
    SymbolForm(dat, p, cl, clb);
    run == ReadRun(dat, p + e % 16, e / 16, Last(lens))
  }

  /** The loop over the run-length coded code lengths. */
  method ReadCodeLengths(dat: seq<Byte>, start: nat, clm: seq<nat>, ghost cl: Lengths, clb: nat, tl: nat)
    returns (lengths: Lengths, pos: nat)
    requires |cl| == 19 && ValidLengths(cl, clb) && clb <= 7 && IsTable(clm, cl, clb)
    ensures (lengths, pos) == ReadLengths(dat, start, cl, clb, tl, [])
  {
    var ldt := new nat[tl](_ => 0);
    var i2 := 0;
    pos := start;
    ghost var lens: Lengths := [];
    while i2 < tl
      invariant forall i | 0 <= i < |lens| :: lens[i] <= 15
      invariant LengthsHeld(ldt[..], i2, lens)
      invariant ReadLengths(dat, start, cl, clb, tl, []) == ReadLengths(dat, pos, cl, clb, tl, lens)
      decreases tl - i2
    {
      ghost var run, more := NextRun(dat, pos, cl, clb, tl, lens);
      i2, pos := ReadCodeLength(dat, pos, clm, cl, clb, ldt, i2, lens, run);
      lens := more;
    }
    lengths := ldt[..];
    assert lengths == lens[..tl];
  }

  lemma NextRun(dat: seq<Byte>, p: nat, cl: Lengths, clb: nat, total: nat, lens: Lengths) returns (run: Run, more: Lengths)
    requires |cl| == 19 && ValidLengths(cl, clb) && |lens| < total && forall i | 0 <= i < |lens| :: lens[i] <= 15
    ensures IsRunAt(dat, p, cl, clb, lens, run) && more == lens + Repeat(run.value, run.count)
    ensures |more| > |lens| && forall i | 0 <= i < |more| :: more[i] <= 15
    ensures ReadLengths(dat, p, cl, clb, total, lens) == ReadLengths(dat, run.next, cl, clb, total, more)
  {
    var e := Symbol(dat, p, cl, clb);
    SymbolForm(dat, p, cl, clb);
    run := ReadRun(dat, p + e % 16, e / 16, Last(lens));
    more := lens + Repeat(run.value, run.count);
  }

  /** A table entry splits into symbol and length. */
  lemma EntryParts(r: nat)
    ensures And(r, 15) == r % 16 && Shr(r, 4) == r / 16
  {
    assert Pow2(4) == 16;
    AndMask(r, 4);
    LowFour(r, 4);
  }

  lemma LowFour(r: nat, k: nat)
    requires k == 4
    ensures Low(r, k) == r % 16 && Shr(r, k) == r / 16
  {
    LowThree(r / 2, k - 1);
    assert Shr(r / 2 / 2 / 2 / 2, k - 4) == r / 16;
    assert Shr(r / 2 / 2, k - 2) == r / 16;
  }

  /** The fields of a dynamic header up to the list of code lengths. */
  method ReadDynamicHeader(t: Tables, dat: seq<Byte>, start: nat) returns (h: Header)
    requires ValidTables(t)
    ensures h == ReadHeader(dat, start)
  {
    var hLit, tl, hcLen := ReadSizes(dat, start);
    HeaderOfSizes(dat, start, hLit, tl, hcLen, start + 14);
    h := ReadListedLengths(t, dat, start + 14, hLit, tl, hcLen);
  }

  method ReadListedLengths(t: Tables, dat: seq<Byte>, start: nat, hLit: nat, tl: nat, hcLen: nat)
    returns (h: Header)
    requires ValidTables(t) && hcLen <= 19
    ensures h == ListedLengths(dat, start, hLit, tl, hcLen)
  {
    var clt := ReadCodeLengthLengths(dat, start, hcLen);
    var clb := MaxOf(clt);
    var clm := BuildTable(t.rev, clt, clb);
    var ldt, pos := ReadCodeLengths(dat, start + 3 * hcLen, clm, clt, clb, tl);
    h := Header(ldt, hLit, pos);
  }

  method ReadSizes(dat: seq<Byte>, start: nat) returns (hLit: nat, tl: nat, hcLen: nat)
    ensures hLit == Peek(dat, start, 5) + 257 <= 288
    ensures tl == hLit + Peek(dat, start + 5, 5) + 1 <= hLit + 32
    ensures hcLen == Peek(dat, start + 10, 4) + 4 <= 19
  {
    FiveBits(dat, start);
    var v := ReadBits(dat, start, 5);
    hLit := v + 257;
    v := ReadBits(dat, start + 10, 4);
    hcLen := v + 4;
    v := ReadBits(dat, start + 5, 5);
    tl := hLit + v + 1;
  }

  /** The two tables of a dynamic block. */
  method DynamicTables(t: Tables, ldt: Lengths, hLit: nat)
    returns (codes: Codes, lm: seq<nat>, dm: seq<nat>)
    requires ValidTables(t)
    requires 0 < hLit <= 288 && hLit < |ldt| <= hLit + 32
    requires forall i | 0 <= i < |ldt| :: ldt[i] <= 15
    ensures codes == HeaderCodes(ldt, hLit)
    ensures IsTable(lm, codes.lit, codes.litBits) && IsTable(dm, codes.dist, codes.distBits)
  {
    var lt, dt := ldt[..hLit], ldt[hLit..];
    var lbt := MaxOf(lt);
    var dbt := MaxOf(dt);
    codes := Codes(lt, lbt, dt, dbt);
    assert codes == HeaderCodes(ldt, hLit);
    lm := BuildTable(t.rev, lt, lbt);
    dm := BuildTable(t.rev, dt, dbt);
  }

  // ----- blocks -----

  /** The length that symbol `sym` stands for, and where its extra bits end. */
  method ReadLength(t: Tables, dat: seq<Byte>, start: nat, sym: nat) returns (add: nat, pos: nat)
    requires ValidTables(t) && 256 < sym < 288
    ensures add == MatchLength(dat, start, sym) && pos == start + LengthBits(sym)
  {
    pos := start;
    add := sym - 254;
    if sym <= 264 { ShortLengths(sym - 257); }
    if sym > 264 {
      var i := sym - 257;
      var b := t.fleb[i];
      var v := ReadBits(dat, pos, b);
      add := v + t.fl[i];
      pos := pos + b;
    }
  }

  /** The rest of a match after its length symbol. Without a distance code the reader
      stops there. */
  method ReadMatchRest(t: Tables, dat: seq<Byte>, start: nat, sym: nat, dm: seq<nat>, ghost codes: Codes,
                       dbt: nat)
    returns (m: Match)
    requires ValidTables(t) && ValidCodes(codes) && 256 < sym < 288
    requires dbt == codes.distBits && IsTable(dm, codes.dist, dbt)
    ensures m.entry == ReadMatch(dat, start, sym, codes).entry
    ensures m.entry != 0 ==> m == ReadMatch(dat, start, sym, codes)
  {
    var add, pos := ReadLength(t, dat, start, sym);
    var d, dsym, next := LookUp(dat, pos, dm, codes.dist, dbt);
    if d == 0 { return Match(0, add, 0, pos); }
    var distance;
    distance, next := ReadDistance(t, dat, next, dsym);
    m := Match(d, add, distance, next);
  }

  /** The distance that symbol `dsym` stands for, and where its extra bits end. */
  method ReadDistance(t: Tables, dat: seq<Byte>, start: nat, dsym: nat) returns (distance: nat, next: nat)
    requires ValidTables(t) && dsym < 32
    ensures distance == MatchDistance(dat, start, dsym) && next == start + DistanceBits(dsym)
  {
    var b := if dsym > 3 then t.fdeb[dsym] else 0;
    var v := ReadBits16(dat, start, b);
    distance, next := if dsym < |t.fd| then t.fd[dsym] + v else 0, start + b;
  }

  /** The symbol at a position, with the entry it was looked up as and the place behind it. */
  method LookUp(dat: seq<Byte>, pos: nat, table: seq<nat>, ghost cd: Lengths, mb: nat)
    returns (c: nat, sym: nat, next: nat)
    requires ValidLengths(cd, mb) && IsTable(table, cd, mb)
    ensures c == Symbol(dat, pos, cd, mb) && sym == c / 16 && next == pos + c % 16
    ensures c != 0 ==> sym < |cd| && pos < next
  {
    var w := ReadBits16(dat, pos, mb);
    c := table[w];
    SymbolForm(dat, pos, cd, mb);
    EntryParts(c);
    sym, next := Shr(c, 4), pos + And(c, 15);
  }

  /** What one round leaves in the buffer. */
  ghost predicate Reached(step: Step, done: bool, r: Result<nat>, next: nat, bt: nat, out: seq<Byte>, buf: seq<Byte>) {
    match step
    case Stop(Err(e)) => done && r == Err(e)
    case Stop(Ok(v)) => done && r == Ok(v.0) && out == v.1 && bt == |out| && Holds(buf, out)
    case Go(n, o) => !done && next == n && out == o && bt == |out| && Holds(buf, out)
  }

  /** One round of the loop over the symbols. */
  method DecodeToken(t: Tables, dat: seq<Byte>, pos: nat, lm: seq<nat>, lbt: nat, dm: seq<nat>, dbt: nat,
                     ghost codes: Codes, buf: array<Byte>, bt0: nat, ghost out0: seq<Byte>)
    returns (done: bool, r: Result<nat>, next: nat, bt: nat, ghost out: seq<Byte>)
    requires ValidTables(t) && ValidCodes(codes) && pos <= 8 * |dat|
    requires lbt == codes.litBits && IsTable(lm, codes.lit, lbt)
    requires dbt == codes.distBits && IsTable(dm, codes.dist, dbt)
    requires bt0 == |out0| && Holds(buf[..], out0)
    modifies buf
    ensures Reached(TokenStep(dat, pos, codes, out0), done, r, next, bt, out, buf[..])
  {
    bt, out := bt0, out0;
    var c, sym;
    c, sym, next := LookUp(dat, pos, lm, codes.lit, lbt);
    done, r := true, Ok(next);
    if next > 8 * |dat| {
      r := Err(UnexpectedEnd);
    } else if c == 0 {
      r := Err(InvalidSymbol);
    } else if sym < 256 {
      Put(buf, bt, sym, out);
      done, bt, out := false, bt + 1, out + [sym];
    } else if sym > 256 {
      done, r, next, bt, out := DecodeMatch(t, dat, next, sym, dm, dbt, codes, buf, bt, out);
    }
  }

  method DecodeMatch(t: Tables, dat: seq<Byte>, pos: nat, sym: nat, dm: seq<nat>, dbt: nat,
                     ghost codes: Codes, buf: array<Byte>, bt0: nat, ghost out0: seq<Byte>)
    returns (done: bool, r: Result<nat>, next: nat, bt: nat, ghost out: seq<Byte>)
    requires ValidTables(t) && ValidCodes(codes) && 256 < sym < 288
    requires dbt == codes.distBits && IsTable(dm, codes.dist, dbt)
    requires bt0 == |out0| && Holds(buf[..], out0)
    modifies buf
    ensures Reached(MatchStep(dat, ReadMatch(dat, pos, sym, codes), out0), done, r, next, bt, out, buf[..])
  {
    bt, out := bt0, out0;
    var m := ReadMatchRest(t, dat, pos, sym, dm, codes, dbt);
    done, r, next := true, Ok(m.next), m.next;
    if m.entry == 0 {
      r := Err(InvalidDistance);
    } else if m.next > 8 * |dat| {
      r := Err(UnexpectedEnd);
    } else {
      CopyMatch(buf, bt, m.length, m.distance, out);
      done, bt, out := false, bt + m.length, CopyBack(out, m.distance, m.length);
    }
  }

  /** The loop over the symbols of one block. */
  method DecodeTokens(t: Tables, dat: seq<Byte>, start: nat, lm: seq<nat>, lbt: nat, dm: seq<nat>, dbt: nat,
                      ghost codes: Codes, buf: array<Byte>, bt0: nat, ghost out0: seq<Byte>)
    returns (r: Result<nat>, bt: nat, ghost out: seq<Byte>)
    requires ValidTables(t) && ValidCodes(codes) && start <= 8 * |dat|
    requires lbt == codes.litBits && IsTable(lm, codes.lit, lbt)
    requires dbt == codes.distBits && IsTable(dm, codes.dist, dbt)
    requires bt0 == |out0| && Holds(buf[..], out0)
    modifies buf
    ensures match Tokens(dat, start, codes, out0)
            case Err(e) => r == Err(e)
            case Ok(v) => r == Ok(v.0) && out == v.1 && bt == |out| && Holds(buf[..], out)
  {
    var pos := start;
    bt := bt0;
    out := out0;
    while true
      invariant pos <= 8 * |dat| && bt == |out| && Holds(buf[..], out)
      invariant Tokens(dat, start, codes, out0) == Tokens(dat, pos, codes, out)
      decreases 8 * |dat| - pos
    {
      var done;
      done, r, pos, bt, out := DecodeToken(t, dat, pos, lm, lbt, dm, dbt, codes, buf, bt, out);
      if done { return; }
    }
  }

  /** `buf.set(dat.subarray(s, t), bt)`, which throws when the buffer is too small. */
  method CopyStored(dat: seq<Byte>, start: nat, buf: array<Byte>, bt0: nat, ghost out0: seq<Byte>)
    returns (r: Result<nat>, bt: nat, ghost out: seq<Byte>)
    requires bt0 == |out0| && Holds(buf[..], out0)
    modifies buf
    ensures match StoredBlock(dat, start, out0, buf.Length)
            case Err(e) => r == Err(e)
            case Ok(v) => r == Ok(v.0) && out == v.1 && bt == |out| && Holds(buf[..], out)
  {
    out := out0;
    bt := bt0;
    var s := (start + 7) / 8 + 4;
    var l := Or(Shl(At(dat, s - 3), 8), At(dat, s - 4));
    TwoBytes(At(dat, s - 4), At(dat, s - 3), 8);
    var t := s + l;
    if t > |dat| { return Err(UnexpectedEnd), bt, out; }
    if bt + l > buf.Length { return Err(BufferOverrun), bt, out; }
    forall k | 0 <= k < l { buf[bt + k] := dat[s + k]; }
    out := out + dat[s..t];
    bt := bt + l;
    r := Ok(t * 8);
  }

  lemma TwoBytes(a: Byte, b: Byte, eight: nat)
    requires eight == 8
    ensures Or(Shl(b, eight), a) == a + 256 * b
  {
    ByteBound(eight);
    OrDisjoint(b, a, eight);
  }

  /** One round of the loop over blocks. */
  method DecodeBlock(t: Tables, dat: seq<Byte>, start: nat, buf: array<Byte>, bt0: nat, ghost out0: seq<Byte>)
    returns (r: Result<nat>, bt: nat, ghost out: seq<Byte>)
    requires ValidTables(t) && start <= 8 * |dat|
    requires bt0 == |out0| && Holds(buf[..], out0)
    modifies buf
    ensures match Block(dat, start, out0, buf.Length)
            case Err(e) => r == Err(e)
            case Ok(v) => r == Ok(v.0) && out == v.1 && bt == |out| && Holds(buf[..], out)
  {
    var kind := ReadBits(dat, start + 1, 2);
    TwoBits(dat, start + 1, 2);
    var pos := start + 3;
    if kind == 0 {
      r, bt, out := CopyStored(dat, pos, buf, bt0, out0);
      return;
    }
    if kind == 3 { return Err(InvalidBlockType), bt0, out0; }
    var codes, lm, dm := FixedCodes(), t.flrm, t.fdrm;
    if kind == 2 {
      var h := ReadDynamicHeader(t, dat, pos);
      codes, lm, dm := DynamicTables(t, h.lens, h.hLit);
      pos := h.next;
    }
    if pos > 8 * |dat| { return Err(UnexpectedEnd), bt0, out0; }
    r, bt, out := DecodeTokens(t, dat, pos, lm, codes.litBits, dm, codes.distBits, codes, buf, bt0, out0);
  }

  lemma TwoBits(dat: seq<Byte>, p: nat, k: nat)
    requires k == 2
    ensures Peek(dat, p, k) < 4
  {
    assert Pow2(k - 1) == 2;
  }

  /** The loop over blocks. */
  method DecodeBlocks(t: Tables, dat: seq<Byte>, buf: array<Byte>)
    returns (r: Result<nat>, ghost out: seq<Byte>)
    requires ValidTables(t)
    modifies buf
    ensures match Blocks(dat, 0, [], buf.Length)
            case Err(e) => r == Err(e)
            case Ok(o) => out == o && r == Ok(|out|) && Holds(buf[..], out)
  {
    var final, pos, bt := 0, 0, 0;
    out := [];
    ghost var goal := Blocks(dat, pos, out, buf.Length);
    while final == 0
      invariant pos <= 8 * |dat| && bt == |out| && Holds(buf[..], out)
      invariant goal == if final == 0 then Blocks(dat, pos, out, buf.Length) else Ok(out)
      decreases if final == 0 then 1 else 0, 8 * |dat| - pos
    {
      OneBit(dat, pos, 1);
      BlocksStep(dat, pos, out, buf.Length);
      final := ReadBits(dat, pos, 1);
      var block;
      block, bt, out := DecodeBlock(t, dat, pos, buf, bt, out);
      if block.Err? { return Err(block.error), out; }
      pos := block.value;
    }
    r := Ok(bt);
  }

  /** `inflt(dat, buf)` for a buffer of known size. */
  method Inflate(t: Tables, dat: seq<Byte>, buf: array<Byte>) returns (r: Result<seq<Byte>>)
    requires ValidTables(t)
    modifies buf
    ensures r == if dat == [] then Ok(old(buf[..])) else Inflated(dat, buf.Length)
  {
    if |dat| == 0 { return Ok(buf[..]); }
    var done;
    ghost var out;
    done, out := DecodeBlocks(t, dat, buf);
    if done.Err? {
      r := Err(done.error);
    } else {
      var bytes := Slice(buf, done.value, out);
      r := Ok(bytes);
    }
  }

  /** `bt == buf.length ? buf : slc(buf, 0, bt)` */
  method Slice(buf: array<Byte>, bt: nat, ghost out: seq<Byte>) returns (bytes: seq<Byte>)
    requires bt == |out| && Holds(buf[..], out)
    ensures bytes == Clip(out, buf.Length)
  {
    bytes := buf[..];
    if bt != buf.Length {
      bytes := buf[..if bt > buf.Length then buf.Length else bt];
    }
  }

  lemma OneBit(dat: seq<Byte>, p: nat, k: nat)
    requires k == 1
    ensures Peek(dat, p, k) < 2
  {
    assert Pow2(k - 1) == 1;
  }

  lemma BlocksStep(dat: seq<Byte>, p: nat, out: seq<Byte>, cap: nat)
    requires p <= 8 * |dat|
    ensures
      var step := Block(dat, p, out, cap);
      Blocks(dat, p, out, cap) ==
        if step.Err? then Err(step.error)
        else if Peek(dat, p, 1) == 1 then Ok(step.value.1)
        else Blocks(dat, step.value.0, step.value.1, cap)
  {
  }
}
