/** The DEFLATE format of RFC 1951, as a reference decoder that goes bit by bit and byte
    by byte. It is defined on every byte string: it gives the error or the output that
    the worker's `inflt` gives. */
module Deflate {
  import opened Bits
  import opened Huffman

  type Byte = b: nat | b < 256

  datatype Error =
    | UnexpectedEnd
    | InvalidBlockType
    | InvalidSymbol
    | InvalidDistance
    | BufferOverrun

  datatype Result<T> = Ok(value: T) | Err(error: Error)

  // ----- the constants of the format -----

  /** How many extra bits the length symbol 257 + `i` has (section 3.2.5). */
  function LengthExtra(i: nat): nat {
    if i < 8 || i >= 28 then 0 else (i - 4) / 4
  }

  /** How many extra bits distance symbol `i` has. */
  function DistanceExtra(i: nat): nat {
    if i < 4 || i >= 30 then 0 else (i - 2) / 2
  }

  /** The first length that the length symbol 257 + `i` stands for: each symbol goes on
      where the one before it ends, except that the last one is the single length 258. */
  function LengthBase(i: nat): nat {
    if i == 28 then 258 else LengthStart(i)
  }

  function LengthStart(i: nat): nat {
    if i == 0 then 3 else LengthStart(i - 1) + Pow2(LengthExtra(i - 1))
  }

  /** Lengths up to 10 have one symbol each. */
  lemma {:induction false} ShortLengths(i: nat)
    requires i <= 8
    ensures LengthStart(i) == 3 + i
  {
    if i > 0 { ShortLengths(i - 1); }
  }

  function DistanceBase(i: nat): nat {
    if i == 0 then 1 else DistanceBase(i - 1) + Pow2(DistanceExtra(i - 1))
  }

  /** The symbol whose code length a dynamic header lists at place `k` (section 3.2.7):
      16, 17, 18, 0, 8, 7, 9, 6, 10, 5, 11, 4, 12, 3, 13, 2, 14, 1, 15. */
  function OrderAt(k: nat): (s: nat)
    requires k < 19
    ensures s < 19
  {
    if k < 3 then 16 + k else if k == 3 then 0 else if k % 2 == 0 then 6 + k / 2 else (19 - k) / 2
  }

  /** The code lengths of section 3.2.6. */
  function FixedLiteralLength(i: int): nat {
    if i < 144 then 8 else if i < 256 then 9 else if i < 280 then 7 else 8
  }

  function FixedLiterals(): (cd: Lengths)
    ensures ValidLengths(cd, 9) && |cd| == 288
  {
    seq(288, i => FixedLiteralLength(i))
  }

  function FixedDistances(): (cd: Lengths)
    ensures ValidLengths(cd, 5) && |cd| == 32
  {
    seq(32, _ => 5)
  }

  /** The codes of one compressed block, with the widths of their tables. */
  datatype Codes = Codes(lit: Lengths, litBits: nat, dist: Lengths, distBits: nat)

  ghost predicate ValidCodes(c: Codes) {
    && ValidLengths(c.lit, c.litBits) && |c.lit| <= 288
    && ValidLengths(c.dist, c.distBits) && |c.dist| <= 32
  }

  function FixedCodes(): (c: Codes)
    ensures ValidCodes(c)
  {
    Codes(FixedLiterals(), 9, FixedDistances(), 5)
  }

  // ----- reading -----

  /** Bytes past the end read as 0. */
  function At(dat: seq<Byte>, o: nat): Byte {
    if o < |dat| then dat[o] else 0
  }

  /** Bits are numbered from the lowest bit of the first byte on (section 3.1.1). */
  function BitAt(dat: seq<Byte>, p: nat): Bit {
    BitOf(At(dat, p / 8), p % 8)
  }

  /** The `k` bits from position `p` on, the first one being the lowest. */
  function Peek(dat: seq<Byte>, p: nat, k: nat): (v: nat)
    ensures v < Pow2(k)
    decreases k, p, |dat|
  {
    if k == 0 then 0 else BitAt(dat, p) + 2 * Peek(dat, p + 1, k - 1)
  }

  lemma ByteBound(eight: nat)
    requires eight == 8
    ensures Pow2(eight) == 256
  {
    assert Pow2(4) == 16;
    Pow2Add(4, eight - 4);
  }

  lemma {:induction false} LowOfShift(d: seq<Byte>, p: nat, w: nat, sh: nat, k: nat)
    requires forall j: nat | sh <= j < sh + k :: BitOf(w, j) == BitAt(d, p + (j - sh))
    ensures Low(Shr(w, sh), k) == Peek(d, p, k)
    decreases k
  {
    if k > 0 {
      ShrBit(w, sh, 0);
      ShrStep(w, sh);
      assert BitOf(w, sh) == BitAt(d, p + (sh - sh));
      forall j: nat | sh + 1 <= j < sh + 1 + (k - 1)
        ensures BitOf(w, j) == BitAt(d, p + 1 + (j - (sh + 1)))
      {
        assert p + 1 + (j - (sh + 1)) == p + (j - sh);
      }
      LowOfShift(d, p + 1, w, sh + 1, k - 1);
    }
  }

  /** The symbol at position `p` and its length, as one entry 16 * symbol + length; 0 when
      the bits are no code. */
  ghost function Symbol(dat: seq<Byte>, p: nat, cd: Lengths, mb: nat): nat
    requires ValidLengths(cd, mb)
  {
    Entry(cd, mb, |cd|, Peek(dat, p, mb))
  }

  lemma {:induction false} EntryForm(cd: Lengths, mb: nat, n: nat, p: nat)
    requires ValidLengths(cd, mb) && n <= |cd|
    ensures
      var e := Entry(cd, mb, n, p);
      e == 0 || (e / 16 < n && 0 < e % 16 == cd[e / 16])
  {
    if n > 0 { EntryForm(cd, mb, n - 1, p); }
  }

  lemma SymbolForm(dat: seq<Byte>, p: nat, cd: Lengths, mb: nat)
    requires ValidLengths(cd, mb)
    ensures
      var e := Symbol(dat, p, cd, mb);
      e == 0 || (e / 16 < |cd| && 0 < e % 16 == cd[e / 16])
  {
    EntryForm(cd, mb, |cd|, Peek(dat, p, mb));
  }

  // ----- the output -----

  /** The byte `d` places back. Nothing lies before the start, where the buffer reads as 0;
      distance 0 stands for the one distance symbol that has no table entry. */
  function Back(out: seq<Byte>, d: nat): Byte {
    if 1 <= d <= |out| then out[|out| - d] else 0
  }

  /** Byte-by-byte expansion of a match; it may overlap what it produces. */
  function CopyBack(out: seq<Byte>, d: nat, n: nat): (r: seq<Byte>)
    ensures |r| == |out| + n && r[..|out|] == out
    decreases n
  {
    if n == 0 then out
    else
      var o := CopyBack(out, d, n - 1);
      o + [Back(o, d)]
  }

  // ----- compressed data -----

  datatype Match = Match(entry: nat, length: nat, distance: nat, next: nat)

  /** How many extra bits follow length symbol `sym`. */
  function LengthBits(sym: nat): nat
    requires 256 < sym < 288
  {
    LengthExtra(sym - 257)
  }

  /** The match length that `sym` and the bits at `p` stand for. */
  function MatchLength(dat: seq<Byte>, p: nat, sym: nat): nat
    requires 256 < sym < 288
  {
    LengthBase(sym - 257) + Peek(dat, p, LengthBits(sym))
  }

  function DistanceBits(dsym: nat): nat
    requires dsym < 32
  {
    DistanceExtra(dsym)
  }

  function MatchDistance(dat: seq<Byte>, p: nat, dsym: nat): nat
    requires dsym < 32
  {
    if dsym < 31 then DistanceBase(dsym) + Peek(dat, p, DistanceBits(dsym)) else 0
  }

  /** The length and distance whose length symbol `sym` ends at `p`; an `entry` of 0 tells
      that there is no distance code. */
  ghost function ReadMatch(dat: seq<Byte>, p: nat, sym: nat, c: Codes): (m: Match)
    requires ValidCodes(c) && 256 < sym < 288
    ensures p <= m.next
  {
    ReadRest(dat, p + LengthBits(sym), MatchLength(dat, p, sym), c)
  }

  /** The distance at `p`, for a match of this length. */
  ghost function ReadRest(dat: seq<Byte>, p: nat, length: nat, c: Codes): (m: Match)
    requires ValidCodes(c)
    ensures p <= m.next
  {
    var d := Symbol(dat, p, c.dist, c.distBits);
    SymbolForm(dat, p, c.dist, c.distBits);
    var q := p + d % 16;
    Match(d, length, MatchDistance(dat, q, d / 16), q + DistanceBits(d / 16))
  }

  /** What the symbol at `p` does: it ends the block, or decoding goes on behind it. */
  datatype Step = Stop(result: Result<(nat, seq<Byte>)>) | Go(next: nat, out: seq<Byte>)

  ghost function TokenStep(dat: seq<Byte>, p: nat, c: Codes, out: seq<Byte>): (s: Step)
    requires ValidCodes(c) && p <= 8 * |dat|
    ensures s.Go? ==> p < s.next <= 8 * |dat|
    ensures s.Stop? && s.result.Ok? ==> p < s.result.value.0 <= 8 * |dat|
  {
    var e := Symbol(dat, p, c.lit, c.litBits);
    SymbolForm(dat, p, c.lit, c.litBits);
    var q := p + e % 16;
    var sym := e / 16;
    if q > 8 * |dat| then Stop(Err(UnexpectedEnd))
    else if e == 0 then Stop(Err(InvalidSymbol))
    else if sym < 256 then Go(q, out + [sym])
    else if sym == 256 then Stop(Ok((q, out)))
    else MatchStep(dat, ReadMatch(dat, q, sym, c), out)
  }

  function MatchStep(dat: seq<Byte>, m: Match, out: seq<Byte>): Step {
    if m.entry == 0 then Stop(Err(InvalidDistance))
    else if m.next > 8 * |dat| then Stop(Err(UnexpectedEnd))
    else Go(m.next, CopyBack(out, m.distance, m.length))
  }

  /** Decodes from position `p` up to the end-of-block symbol, appending to `out`. */
  ghost function Tokens(dat: seq<Byte>, p: nat, c: Codes, out: seq<Byte>): (r: Result<(nat, seq<Byte>)>)
    requires ValidCodes(c) && p <= 8 * |dat|
    ensures r.Ok? ==> p < r.value.0 <= 8 * |dat|
    decreases 8 * |dat| - p
  {
    match TokenStep(dat, p, c, out)
    case Stop(r) => r
    case Go(next, o) => Tokens(dat, next, c, o)
  }

  // ----- dynamic headers -----

  function Max(a: seq<nat>): (m: nat)
    requires |a| > 0
    ensures m in a && forall i | 0 <= i < |a| :: a[i] <= m
  {
    if |a| == 1 then a[0]
    else
      var m := Max(a[..|a| - 1]);
      assert forall i | 0 <= i < |a| - 1 :: a[i] == a[..|a| - 1][i];
      if a[|a| - 1] > m then a[|a| - 1] else m
  }

  /** The lengths of the code-length codes after `n` of them were read. */
  function CodeLengthLengths(dat: seq<Byte>, p: nat, n: nat): (cl: Lengths)
    requires n <= 19
    ensures |cl| == 19 && forall i | 0 <= i < 19 :: cl[i] < 8
  {
    if n == 0 then seq(19, _ => 0)
    else
      assert Pow2(3) == 8;
      CodeLengthLengths(dat, p, n - 1)[OrderAt(n - 1) := Peek(dat, p + 3 * (n - 1), 3)]
  }

  function Repeat(v: nat, n: nat): (s: seq<nat>)
    ensures |s| == n && forall i | 0 <= i < n :: s[i] == v
  {
    seq(n, _ => v)
  }

  function Last(s: seq<nat>): nat {
    if s == [] then 0 else s[|s| - 1]
  }

  /** A run of equal code lengths. */
  datatype Run = Run(value: nat, count: nat, next: nat)

  /** The run that code-length symbol `s` at `q` stands for; 16 repeats the last length. */
  function ReadRun(dat: seq<Byte>, q: nat, s: nat, last: nat): (r: Run)
    requires s < 19
    ensures q <= r.next && r.count > 0 && (r.value == s < 16 || r.value in {0, last})
  {
    if s < 16 then Run(s, 1, q)
    else if s == 16 then Run(last, 3 + Peek(dat, q, 2), q + 2)
    else if s == 17 then Run(0, 3 + Peek(dat, q, 3), q + 3)
    else Run(0, 11 + Peek(dat, q, 7), q + 7)
  }

  /** Reads code lengths until there are `total` of them; what a repeat produces beyond
      that is dropped (section 3.2.7). Bits that are no code count as length 0. */
  ghost function ReadLengths(dat: seq<Byte>, p: nat, cl: Lengths, clb: nat, total: nat, lens: Lengths)
    : (r: (Lengths, nat))
    requires |cl| == 19 && ValidLengths(cl, clb)
    requires forall i | 0 <= i < |lens| :: lens[i] <= 15
    ensures |r.0| == total && (forall i | 0 <= i < total :: r.0[i] <= 15) && p <= r.1
    decreases total - |lens|
  {
    if |lens| >= total then (lens[..total], p)
    else
      var e := Symbol(dat, p, cl, clb);
      SymbolForm(dat, p, cl, clb);
      var run := ReadRun(dat, p + e % 16, e / 16, Last(lens));
      ReadLengths(dat, run.next, cl, clb, total, lens + Repeat(run.value, run.count))
  }

  /** The code lengths that a dynamic header at `p` lists. */
  datatype Header = Header(lens: Lengths, hLit: nat, next: nat)

  ghost function ReadHeader(dat: seq<Byte>, p: nat): (h: Header)
    ensures |h.lens| <= 320 && 257 <= h.hLit <= 288 && h.hLit < |h.lens| <= h.hLit + 32
    ensures forall i | 0 <= i < |h.lens| :: h.lens[i] <= 15
    ensures p <= h.next
  {
    FiveBits(dat, p);
    var hLit := Peek(dat, p, 5) + 257;
    var total := hLit + Peek(dat, p + 5, 5) + 1;
    var hcLen := Peek(dat, p + 10, 4) + 4;
    ListedLengths(dat, p + 14, hLit, total, hcLen)
  }

  ghost function ListedLengths(dat: seq<Byte>, p: nat, hLit: nat, total: nat, hcLen: nat): (h: Header)
    requires hcLen <= 19
    ensures |h.lens| == total && h.hLit == hLit && p <= h.next
    ensures forall i | 0 <= i < |h.lens| :: h.lens[i] <= 15
  {
    var cl := CodeLengthLengths(dat, p, hcLen);
    var lens := ReadLengths(dat, p + 3 * hcLen, cl, Max(cl), total, []);
    Header(lens.0, hLit, lens.1)
  }

  lemma HeaderOfSizes(dat: seq<Byte>, start: nat, hLit: nat, tl: nat, hcLen: nat, next: nat)
    requires hLit == Peek(dat, start, 5) + 257 && tl == hLit + Peek(dat, start + 5, 5) + 1
    requires hcLen == Peek(dat, start + 10, 4) + 4 <= 19 && next == start + 14
    ensures ReadHeader(dat, start) == ListedLengths(dat, next, hLit, tl, hcLen)
  {
  }

  /** The two codes whose lengths the header lists one after the other. */
  function HeaderCodes(lens: Lengths, hLit: nat): (c: Codes)
    requires 0 < hLit <= 288 && hLit < |lens| <= hLit + 32
    requires forall i | 0 <= i < |lens| :: lens[i] <= 15
    ensures ValidCodes(c)
  {
    var lit, dist := lens[..hLit], lens[hLit..];
    Codes(lit, Max(lit), dist, Max(dist))
  }

  lemma FiveBits(dat: seq<Byte>, p: nat)
    ensures Peek(dat, p, 5) < 32 && Peek(dat, p + 5, 5) < 32 && Peek(dat, p + 10, 4) < 16
  {
    assert Pow2(4) == 16;
  }

  // ----- blocks -----

  /** Decodes block after block from position `p` on into a buffer of `cap` bytes. Only
      stored blocks notice that the buffer is full. */
  ghost function Blocks(dat: seq<Byte>, p: nat, out: seq<Byte>, cap: nat): Result<seq<Byte>>
    requires p <= 8 * |dat|
    decreases 8 * |dat| - p
  {
    var step := Block(dat, p, out, cap);
    if step.Err? then Err(step.error)
    else if Peek(dat, p, 1) == 1 then Ok(step.value.1)
    else Blocks(dat, step.value.0, step.value.1, cap)
  }

  ghost function Block(dat: seq<Byte>, p: nat, out: seq<Byte>, cap: nat): (r: Result<(nat, seq<Byte>)>)
    requires p <= 8 * |dat|
    ensures r.Ok? ==> p < r.value.0 <= 8 * |dat|
  {
    var kind := Peek(dat, p + 1, 2);
    if kind == 0 then StoredBlock(dat, p + 3, out, cap)
    else if kind == 1 then CodedBlock(dat, FixedCodes(), p + 3, out)
    else if kind == 2 then
      var h := ReadHeader(dat, p + 3);
      CodedBlock(dat, HeaderCodes(h.lens, h.hLit), h.next, out)
    else Err(InvalidBlockType)
  }

  ghost function CodedBlock(dat: seq<Byte>, c: Codes, p: nat, out: seq<Byte>): (r: Result<(nat, seq<Byte>)>)
    requires ValidCodes(c)
    ensures r.Ok? ==> p < r.value.0 <= 8 * |dat|
  {
    if p > 8 * |dat| then Err(UnexpectedEnd) else Tokens(dat, p, c, out)
  }

  /** A stored block starts at the next byte boundary with its length and the complement
      of that, which is skipped unread (section 3.2.4). */
  ghost function StoredBlock(dat: seq<Byte>, p: nat, out: seq<Byte>, cap: nat): (r: Result<(nat, seq<Byte>)>)
    ensures r.Ok? ==> p < r.value.0 <= 8 * |dat|
  {
    var s := (p + 7) / 8 + 4;
    var t := s + At(dat, s - 4) + 256 * At(dat, s - 3);
    if t > |dat| then Err(UnexpectedEnd)
    else if |out| + (t - s) > cap then Err(BufferOverrun)
    else Ok((8 * t, out + dat[s..t]))
  }

  /** As much of `out` as fits into `cap` bytes. */
  function Clip(out: seq<Byte>, cap: nat): (r: seq<Byte>)
    ensures r <= out && |r| <= cap
  {
    if |out| <= cap then out else out[..cap]
  }

  /** What decoding `dat` into a buffer of `cap` bytes gives. */
  ghost function Inflated(dat: seq<Byte>, cap: nat): Result<seq<Byte>> {
    var r := Blocks(dat, 0, [], cap);
    if r.Err? then r else Ok(Clip(r.value, cap))
  }
}
