/** The tables of RFC 1951 as the standard lists them, and two streams spelled out byte by byte. They
    tie the format that encoder and decoder share to the standard. */
module DeflateExamples {
  import opened Bits
  import opened Huffman
  import opened Deflate
  import opened DeflateEncoding

  // ----- the tables -----

  /** Section 3.2.7: the order of the code length codes. */
  lemma OrderIsListed()
    ensures seq(19, k requires 0 <= k < 19 => OrderAt(k))
         == [16, 17, 18, 0, 8, 7, 9, 6, 10, 5, 11, 4, 12, 3, 13, 2, 14, 1, 15]
  {
    var order := seq(19, k requires 0 <= k < 19 => OrderAt(k));
    assert order[..4] == [16, 17, 18, 0];
    assert order[4..12] == [8, 7, 9, 6, 10, 5, 11, 4];
  }

  /** From one length symbol to the next. */
  lemma NextLength(i: nat, base: nat, extra: nat, more: nat)
    requires i < 28 && LengthStart(i) == base && LengthExtra(i) == extra && Pow2(extra) == more
    ensures LengthStart(i + 1) == base + more
  {
  }

  /** Section 3.2.5: the extra bits of the length symbols 257 to 285 and of the distance symbols. */
  lemma ExtraBitsAreListed()
    ensures seq(29, i requires 0 <= i => LengthExtra(i))
         == [0, 0, 0, 0, 0, 0, 0, 0, 1, 1, 1, 1, 2, 2, 2, 2, 3, 3, 3, 3, 4, 4, 4, 4, 5, 5, 5, 5, 0]
    ensures seq(30, i requires 0 <= i => DistanceExtra(i))
         == [0, 0, 0, 0, 1, 1, 2, 2, 3, 3, 4, 4, 5, 5, 6, 6, 7, 7, 8, 8, 9, 9, 10, 10, 11, 11, 12, 12, 13, 13]
  {
    assert LengthExtra(28) == 0 && DistanceExtra(29) == 13;
  }

  /** Section 3.2.5: the first lengths of the symbols 257 to 285. */
  lemma LengthsAreListed()
    ensures seq(29, i requires 0 <= i => LengthBase(i))
         == [3, 4, 5, 6, 7, 8, 9, 10, 11, 13, 15, 17, 19, 23, 27, 31, 35, 43, 51, 59, 67, 83, 99, 115, 131, 163,
             195, 227, 258]
  {
    ShortLengths(8);
    forall i: nat | i < 8 ensures LengthBase(i) == 3 + i { ShortLengths(i); }
    NextLength(8, 11, 1, 2);
    NextLength(9, 13, 1, 2);
    NextLength(10, 15, 1, 2);
    NextLength(11, 17, 1, 2);
    NextLength(12, 19, 2, 4);
    NextLength(13, 23, 2, 4);
    NextLength(14, 27, 2, 4);
    NextLength(15, 31, 2, 4);
    NextLength(16, 35, 3, 8);
    NextLength(17, 43, 3, 8);
    NextLength(18, 51, 3, 8);
    NextLength(19, 59, 3, 8);
    NextLength(20, 67, 4, 16);
    NextLength(21, 83, 4, 16);
    NextLength(22, 99, 4, 16);
    NextLength(23, 115, 4, 16);
    NextLength(24, 131, 5, 32);
    NextLength(25, 163, 5, 32);
    NextLength(26, 195, 5, 32);
  }

  lemma NextDistances(i: nat, base: nat, extra: nat, more: nat)
    requires i % 2 == 0 && i < 29 && DistanceBase(i) == base && DistanceExtra(i) == extra && Pow2(extra) == more
    ensures DistanceBase(i + 1) == base + more && DistanceBase(i + 2) == base + 2 * more
  {
    assert DistanceExtra(i + 1) == extra;
  }

  lemma NearDistances()
    ensures DistanceBase(1) == 2 && DistanceBase(2) == 3 && DistanceBase(3) == 4 && DistanceBase(4) == 5
    ensures DistanceBase(5) == 7 && DistanceBase(6) == 9 && DistanceBase(7) == 13 && DistanceBase(8) == 17
    ensures DistanceBase(9) == 25 && DistanceBase(10) == 33 && DistanceBase(11) == 49 && DistanceBase(12) == 65
    ensures DistanceBase(13) == 97 && DistanceBase(14) == 129 && DistanceBase(15) == 193 && DistanceBase(16) == 257
  {
    NextDistances(0, 1, 0, 1);
    NextDistances(2, 3, 0, 1);
    NextDistances(4, 5, 1, 2);
    NextDistances(6, 9, 2, 4);
    NextDistances(8, 17, 3, 8);
    NextDistances(10, 33, 4, 16);
    NextDistances(12, 65, 5, 32);
    NextDistances(14, 129, 6, 64);
  }

  /** Section 3.2.5: the first distances of the symbols 0 to 29. */
  lemma DistancesAreListed()
    ensures seq(30, i requires 0 <= i => DistanceBase(i))
         == [1, 2, 3, 4, 5, 7, 9, 13, 17, 25, 33, 49, 65, 97, 129, 193, 257, 385, 513, 769, 1025, 1537, 2049, 3073,
             4097, 6145, 8193, 12289, 16385, 24577]
  {
    NearDistances();
    NextDistances(16, 257, 7, 128);
    NextDistances(18, 513, 8, 256);
    NextDistances(20, 1025, 9, 512);
    NextDistances(22, 2049, 10, 1024);
    NextDistances(24, 4097, 11, 2048);
    NextDistances(26, 8193, 12, 4096);
    NextDistances(28, 16385, 13, 8192);
  }

  // ----- the fixed codes -----

  function Within(n: int, lo: int, hi: int): int {
    if n < lo then 0 else if n < hi then n - lo else hi - lo
  }

  lemma {:induction false} FixedCounts(n: nat, len: nat)
    requires n <= 288
    ensures Count(FixedLiterals(), n, len) ==
      if len == 7 then Within(n, 256, 280) else if len == 8 then Within(n, 0, 144) + Within(n, 280, 288)
      else if len == 9 then Within(n, 144, 256) else 0
  {
    if n > 0 { FixedCounts(n - 1, len); }
  }

  lemma {:induction false} NoShortCodes(len: nat)
    requires 0 < len <= 7
    ensures FirstCode(FixedLiterals(), len) == 0
  {
    if len > 1 {
      NoShortCodes(len - 1);
      FixedCounts(288, len - 1);
    }
  }

  /** Section 3.2.6: the code words of the fixed code, and their lengths. */
  lemma FixedCodeWords(i: nat)
    requires i < 288
    ensures
      var (word, len) :=
        if i < 144 then (48 + i, 8) else if i < 256 then (400 + (i - 144), 9)
        else if i < 280 then (i - 256, 7) else (192 + (i - 280), 8);
      FixedLiterals()[i] == len && Code(FixedLiterals(), i) == word
  {
    NoShortCodes(7);
    FixedCounts(288, 7);
    FixedCounts(288, 8);
    FixedCounts(i, FixedLiterals()[i]);
    FixedFirst(FixedLiterals(), 7);
  }

  lemma FixedFirst(cd: Lengths, seven: nat)
    requires seven == 7 && FirstCode(cd, seven) == 0 && Count(cd, |cd|, seven) == 24 && Count(cd, |cd|, seven + 1) == 152
    ensures FirstCode(cd, seven + 1) == 48 && FirstCode(cd, seven + 2) == 400
  {
  }

  lemma {:induction false} FixedDistanceCount(n: nat, len: nat)
    requires n <= 32
    ensures Count(FixedDistances(), n, len) == if len == 5 then n else 0
  {
    if n > 0 { FixedDistanceCount(n - 1, len); }
  }

  lemma {:induction false} FixedDistanceFirst(len: nat)
    requires 0 < len <= 5
    ensures FirstCode(FixedDistances(), len) == 0
  {
    if len > 1 {
      FixedDistanceFirst(len - 1);
      FixedDistanceCount(32, len - 1);
    }
  }

  lemma FixedDistanceWords(i: nat)
    requires i < 32
    ensures FixedDistances()[i] == 5 && Code(FixedDistances(), i) == i
  {
    FixedDistanceFirst(5);
    FixedDistanceCount(i, 5);
  }

  // ----- bits that are put on the wire -----

  lemma SameQuotient(r: nat, q: nat, r': nat, q': nat, d: nat)
    requires r + q * d == r' + q' * d && r < d && r' < d
    ensures q == q' && r == r'
  {
    if q < q' {
      Larger(q, q', d);
    } else if q' < q {
      Larger(q', q, d);
    }
  }

  lemma Larger(q: nat, q': nat, d: nat)
    requires q < q'
    ensures q' * d >= q * d + d
  {
    assert (q' - q - 1) * d >= 0;
    assert q' * d == q * d + d + (q' - q - 1) * d;
  }

  lemma Euclid(w: nat, d: nat)
    requires d > 0
    ensures w == w % d + (w / d) * d && w % d < d && w / d >= 0
  {
  }

  lemma QuotientIs(w: nat, d: nat, r: nat, q: nat)
    requires w == r + q * d && r < d
    ensures w / d == q && w % d == r
  {
    Euclid(w, d);
    SameQuotient(w % d, w / d, r, q, d);
  }

  lemma Split(dat: seq<Byte>, p: nat, n: nat, k: nat, d: nat, q: nat, m: nat, w: nat)
    requires n == k + m && q == p + k && d == Pow2(k) && w == Peek(dat, p, n)
    ensures Peek(dat, p, k) == w % d && Peek(dat, q, m) == w / d
  {
    PeekSplit(dat, p, k, m);
    QuotientIs(w, d, Peek(dat, p, k), Peek(dat, q, m));
  }

  /** The numbers that have `k` bits. */
  function Range(k: nat): nat
    requires k <= 8
  {
    if k == 0 then 1 else if k == 1 then 2 else if k == 2 then 4 else if k == 3 then 8 else if k == 4 then 16
    else if k == 5 then 32 else if k == 6 then 64 else if k == 7 then 128 else 256
  }

  lemma {:induction false} RangeIsPow2(k: nat)
    requires k <= 8
    ensures Pow2(k) == Range(k) > 0
  {
    if k > 0 { RangeIsPow2(k - 1); }
  }

  /** The three bytes from `o` on are `x`, `y` and `z`, and their `k` bits from bit `sh` on are `v`.
      There are `a` numbers of `sh` bits and `b` of `k` bits. */
  predicate Has(dat: seq<Byte>, o: nat, x: Byte, y: Byte, z: Byte, sh: nat, a: nat, k: nat, b: nat, v: nat) {
    && At(dat, o) == x && At(dat, o + 1) == y && At(dat, o + 2) == z
    && sh <= 8 && k <= 8 && 8 * o + sh + k <= 8 * |dat| && a == Range(sh) > 0 && b == Range(k) > 0
    && v == (x + 256 * y + 65536 * z) / a % b
  }

  lemma Read(dat: seq<Byte>, o: nat, x: Byte, y: Byte, z: Byte, sh: nat, a: nat, k: nat, b: nat, v: nat, p: nat)
    requires Has(dat, o, x, y, z, sh, a, k, b, v) && p == 8 * o + sh
    ensures Peek(dat, p, k) == v
  {
    RangeIsPow2(sh);
    RangeIsPow2(k);
    ReadFrom(dat, o, x + 256 * y + 65536 * z, sh, a, k, b, p, 8);
  }

  lemma ReadFrom(dat: seq<Byte>, o: nat, w: nat, sh: nat, a: nat, k: nat, b: nat, p: nat, eight: nat)
    requires eight == 8 && sh + k <= 24 && p == 8 * o + sh && a == Pow2(sh) && b == Pow2(k)
    requires w == At(dat, o) + 256 * At(dat, o + 1) + 65536 * At(dat, o + 2)
    ensures Peek(dat, p, k) == w / a % b
  {
    var z, n := 8 * o, 3 * eight;
    var m := n - sh;
    PeekThree(dat, o, w, eight, z, n);
    Euclid(w, a);
    TwoSplits(dat, z, w, n, sh, a, m, k, b, m - k, p, w / a);
  }

  lemma TwoSplits(dat: seq<Byte>, z: nat, w: nat, n: nat, sh: nat, a: nat, m: nat, k: nat, b: nat, rest: nat, p: nat, x: nat)
    requires n == sh + m && m == k + rest && p == z + sh && a == Pow2(sh) && b == Pow2(k)
    requires Peek(dat, z, n) == w && x == w / a
    ensures Peek(dat, p, k) == x % b
  {
    Split(dat, z, n, sh, a, p, m, w);
    Split(dat, p, m, k, b, p + k, rest, x);
  }

  lemma PeekThree(dat: seq<Byte>, o: nat, w: nat, eight: nat, z: nat, n: nat)
    requires eight == 8 && w == At(dat, o) + 256 * At(dat, o + 1) + 65536 * At(dat, o + 2) && z == 8 * o && n == 3 * eight
    ensures Peek(dat, z, n) == w
  {
    ByteBound(eight);
    Pow2Add(eight, eight);
    PeekWord(dat, o, eight);
    PeekByte(dat, o + 2, eight);
    PeekSplit(dat, z, eight + eight, eight);
  }

  lemma WireJoin(dat: seq<Byte>, p: nat, a: seq<Bit>, b: seq<Bit>, q: nat)
    requires Wire(dat, p, a) && q == p + |a| && Wire(dat, q, b)
    ensures Wire(dat, p, a + b)
    decreases |a|
  {
    if a == [] {
      assert a + b == b;
    } else {
      assert (a + b)[1..] == a[1..] + b;
      WireJoin(dat, p + 1, a[1..], b, q);
    }
  }

  lemma {:induction false} NumIsWired(dat: seq<Byte>, p: nat, k: nat, v: nat)
    requires Peek(dat, p, k) == v && p + k <= 8 * |dat|
    ensures Wire(dat, p, NumBits(v, k))
    decreases k
  {
    if k > 0 { NumIsWired(dat, p + 1, k - 1, v / 2); }
  }

  lemma {:induction false} CodeIsWired(dat: seq<Byte>, p: nat, len: nat, c: nat)
    requires Peek(dat, p, len) == RevBits(c, len) && p + len <= 8 * |dat|
    ensures Wire(dat, p, CodeBits(c, len))
    decreases len
  {
    if len > 0 {
      PeekTop(dat, p, len - 1);
      RevBound(c / 2, len - 1);
      CodeIsWired(dat, p, len - 1, c / 2);
      WireJoin(dat, p, CodeBits(c / 2, len - 1), [c % 2], p + (len - 1));
    }
  }

  /** The code word of symbol `i` is there; read as a number it is `v`. */
  lemma SymbolIsThere(dat: seq<Byte>, p: nat, cd: Lengths, i: nat, len: nat, word: nat, v: nat)
    requires i < |cd| && cd[i] == len > 0 && Code(cd, i) == word && RevBits(word, len) == v
    requires Peek(dat, p, len) == v && p + len <= 8 * |dat|
    ensures Wire(dat, p, SymbolBits(cd, i))
  {
    CodeIsWired(dat, p, len, word);
  }

  lemma FirstIsThere(dat: seq<Byte>, p: nat, c: Codes, t: Token, rest: seq<Token>, q: nat) returns (ts: seq<Token>)
    requires ValidTokens(rest, c) && ValidToken(t, c) && Wire(dat, p, TokenBits(t, c)) && q == p + |TokenBits(t, c)|
    requires Wire(dat, q, TokensBits(rest, c))
    ensures ts == [t] + rest && ValidTokens(ts, c) && Wire(dat, p, TokensBits(ts, c))
  {
    ts := [t] + rest;
    assert ts[1..] == rest;
    WireJoin(dat, p, TokenBits(t, c), TokensBits(rest, c), q);
  }

  /** The four parts of a match. */
  lemma CopyIsThere(dat: seq<Byte>, c: Codes, t: Token, kl: nat, kd: nat, rest: seq<Token>,
                    p: nat, q: nat, u: nat, v: nat, w: nat)
    returns (ts: seq<Token>)
    requires ValidTokens(rest, c) && t.Copy? && ValidToken(t, c) && kl == LengthBits(t.sym) && kd == DistanceBits(t.dsym)
    requires q == p + c.lit[t.sym] && u == q + kl && v == u + c.dist[t.dsym] && w == v + kd
    requires Wire(dat, p, SymbolBits(c.lit, t.sym)) && Wire(dat, q, NumBits(t.lx, kl))
    requires Wire(dat, u, SymbolBits(c.dist, t.dsym)) && Wire(dat, v, NumBits(t.dx, kd))
    requires Wire(dat, w, TokensBits(rest, c))
    ensures ts == [t] + rest && ValidTokens(ts, c) && Wire(dat, p, TokensBits(ts, c))
  {
    WireJoin(dat, p, SymbolBits(c.lit, t.sym), NumBits(t.lx, kl), q);
    WireJoin(dat, u, SymbolBits(c.dist, t.dsym), NumBits(t.dx, kd), v);
    WireJoin(dat, p, SymbolBits(c.lit, t.sym) + NumBits(t.lx, kl), SymbolBits(c.dist, t.dsym) + NumBits(t.dx, kd), u);
    ts := FirstIsThere(dat, p, c, t, rest, w);
  }

  // ----- the text of both streams -----

  /** A match repeats the last `d` bytes over and over. */
  lemma {:induction false} MatchRepeats(out: seq<Byte>, d: nat, n: nat)
    requires 1 <= d <= |out|
    ensures forall k | 0 <= k < n :: CopyBack(out, d, n)[|out| + k] == out[|out| - d + k % d]
  {
    if n > 0 {
      var m := n - 1;
      MatchRepeats(out, d, m);
      if m < d {
        assert m % d == m;
      } else {
        Rounds(m, d);
      }
    }
  }

  lemma Rounds(m: nat, d: nat)
    requires 1 <= d <= m
    ensures (m - d) % d == m % d
  {
    Euclid(m, d);
    Euclid(m - d, d);
    SameQuotient((m - d) % d, (m - d) / d + 1, m % d, m / d, d);
  }

  /** The letter "a", and then 12 bytes from one byte back. */
  function ExampleTokens(): seq<Token> {
    [Literal(97), Copy(265, 1, 0, 0)]
  }

  /** "aaaaaaaaaaaaa" */
  function ExampleText(): seq<Byte> {
    [97, 97, 97, 97, 97, 97, 97, 97, 97, 97, 97, 97, 97]
  }

  lemma ExampleExpands()
    ensures Expand([], ExampleTokens()) == ExampleText()
  {
    var ts, copy, a := ExampleTokens(), Copy(265, 1, 0, 0), [97];
    var all := ThirteenTimes(a, 1, 12);
    ShortLengths(8);
    assert ExpandToken(a, copy) == all;
    ExpandNext([], ts, 0, a);
    ExpandNext(a, ts, 1, all);
    assert ts[0..] == ts && ts[2..] == [];
  }

  lemma ThirteenTimes(a: seq<Byte>, one: nat, n: nat) returns (all: seq<Byte>)
    requires one == 1 && n == 12 && a == [97]
    ensures all == CopyBack(a, one, n) && all == ExampleText()
  {
    all := CopyBack(a, one, n);
    MatchRepeats(a, one, n);
    forall k | 0 <= k < 13 ensures all[k] == 97 {
      if k == 0 { assert all[0] == all[..1][0]; } else { assert all[|a| + (k - 1)] == a[|a| - one + (k - 1) % one]; }
    }
  }

  lemma ExpandNext(out: seq<Byte>, ts: seq<Token>, k: nat, next: seq<Byte>)
    requires k < |ts| && forall t | t in ts && t.Copy? :: 257 <= t.sym <= 285 && t.dsym < 30
    requires next == ExpandToken(out, ts[k])
    ensures Expand(out, ts[k..]) == Expand(next, ts[k + 1..])
  {
    assert ts[k..][0] == ts[k] && ts[k..][1..] == ts[k + 1..];
  }

  /** The tokens of the text are there, when their parts are. */
  lemma ExampleIsThere(d: seq<Byte>, c: Codes, p: nat, q: nat, u: nat, v: nat, w: nat, one: nat) returns (ts: seq<Token>)
    requires 266 <= |c.lit| <= 288 && c.lit[97] != 0 && c.lit[256] != 0 && c.lit[265] != 0 && 0 < |c.dist| && c.dist[0] != 0
    requires one == 1 && q == p + c.lit[97] && u == q + c.lit[265] && v == u + one && w == v + c.dist[0]
    requires Wire(d, p, SymbolBits(c.lit, 97)) && Wire(d, q, SymbolBits(c.lit, 265)) && Wire(d, u, NumBits(one, one))
    requires Wire(d, v, SymbolBits(c.dist, 0)) && Wire(d, w, SymbolBits(c.lit, 256))
    ensures ts == ExampleTokens() && ValidTokens(ts, c) && Wire(d, p, TokensBits(ts, c))
  {
    ts := CopyIsThere(d, c, Copy(265, one, 0, 0), one, 0, [], q, u, v, w, w);
    ts := FirstIsThere(d, p, c, Literal(97), ts, q);
  }

  /** The three bits that begin the only block of a stream, and the block. */
  lemma OnlyBlock(d: seq<Byte>, b: BlockData, kind: nat, one: nat)
    requires ValidBlock(b) && Kind(b) == kind && one == 1 && 3 <= 8 * |d|
    requires Peek(d, 0, one) == 1 && Peek(d, 1, one + 1) == kind && Wire(d, 3, BodyBits(3, b))
    requires !b.Stored? && b.tokens == ExampleTokens()
    ensures Inflated(d, 13) == Ok(ExampleText())
  {
    NumIsWired(d, 0, one, one);
    NumIsWired(d, 1, one + 1, kind);
    WireJoin(d, 0, NumBits(one, one), NumBits(kind, one + 1), 1);
    WireJoin(d, 0, NumBits(one, one) + NumBits(kind, one + 1), BodyBits(3, b), 3);
    BlockInflates(d, b, 13);
  }

  lemma BlockInflates(d: seq<Byte>, b: BlockData, cap: nat)
    requires !b.Stored? && b.tokens == ExampleTokens() && ValidBlock(b) && Wire(d, 0, BlockBits(0, b, 1)) && cap == 13
    ensures Inflated(d, cap) == Ok(ExampleText())
  {
    assert ValidBlocks([b]);
    InflateUndoesEncoding(d, [b], cap);
    ExampleExpands();
    assert ExpandBlock([], b) == ExampleText();
  }

  // ----- a stream with the fixed codes -----

  ghost predicate IsFixedStream(d: seq<Byte>) {
    |d| == 4 && d[0] == 75 && d[1] == 68 && d[2] == 6 && d[3] == 0
  }

  /** What can be read at the places of the stream's parts. */
  lemma FixedReads(d: seq<Byte>)
    requires IsFixedStream(d)
    ensures Peek(d, 0, 1) == 1 && Peek(d, 1, 2) == 1 && Peek(d, 3, 8) == 137 && Peek(d, 11, 7) == 72
    ensures Peek(d, 18, 1) == 1 && Peek(d, 19, 5) == 0 && Peek(d, 24, 7) == 0
  {
    Read(d, 0, 75, 68, 6, 0, 1, 1, 2, 1, 0);
    Read(d, 0, 75, 68, 6, 1, 2, 2, 4, 1, 1);
    Read(d, 0, 75, 68, 6, 3, 8, 8, 256, 137, 3);
    Read(d, 1, 68, 6, 0, 3, 8, 7, 128, 72, 11);
    Read(d, 2, 6, 0, 0, 2, 4, 1, 2, 1, 18);
    Read(d, 2, 6, 0, 0, 3, 8, 5, 32, 0, 19);
    Read(d, 3, 0, 0, 0, 0, 1, 7, 128, 0, 24);
  }

  lemma FixedWord(d: seq<Byte>, p: nat, cd: Lengths, i: nat, len: nat, word: nat, v: nat)
    requires cd == FixedLiterals() && i < 288 && FixedLiteralLength(i) == len && Peek(d, p, len) == v && p + len <= 8 * |d|
    requires RevBits(word, len) == v
    requires word == if i < 144 then 48 + i else if i < 256 then 400 + (i - 144) else if i < 280 then i - 256 else 192 + (i - 280)
    ensures cd[i] == len && Wire(d, p, SymbolBits(cd, i))
  {
    FixedCodeWords(i);
    SymbolIsThere(d, p, cd, i, len, word, v);
  }

  lemma FixedParts(d: seq<Byte>, lit: Lengths, seven: nat)
    requires IsFixedStream(d) && lit == FixedLiterals() && seven == 7
    ensures Wire(d, 3, SymbolBits(lit, 97)) && lit[97] == seven + 1 && lit[265] == seven && lit[256] == seven
    ensures Wire(d, 11, SymbolBits(lit, 265)) && Wire(d, 24, SymbolBits(lit, 256))
  {
    FixedReads(d);
    FixedWord(d, 3, lit, 97, seven + 1, 145, 137);
    FixedWords(d, lit, seven);
  }

  lemma FixedWords(d: seq<Byte>, lit: Lengths, seven: nat)
    requires seven == 7 && lit == FixedLiterals() && Peek(d, 11, seven) == 72 && Peek(d, 24, seven) == 0 && |d| >= 4
    ensures lit[265] == seven && lit[256] == seven
    ensures Wire(d, 11, SymbolBits(lit, 265)) && Wire(d, 24, SymbolBits(lit, 256))
  {
    FixedWord(d, 11, lit, 265, seven, 9, 72);
    FixedWord(d, 24, lit, 256, seven, 0, 0);
  }

  lemma FixedRest(d: seq<Byte>, c: Codes, five: nat)
    requires IsFixedStream(d) && c == FixedCodes() && five == 5
    ensures Wire(d, 18, NumBits(1, 1)) && Wire(d, 19, SymbolBits(c.dist, 0)) && c.dist[0] == five
  {
    FixedReads(d);
    FixedDistanceWords(0);
    NumIsWired(d, 18, 1, 1);
    SymbolIsThere(d, 19, c.dist, 0, five, 0, 0);
  }

  /** These four bytes are inflated to the text. */
  lemma FixedStreamInflates(d: seq<Byte>)
    requires d == [75, 68, 6, 0]
    ensures Inflated(d, 13) == Ok(ExampleText())
  {
    FixedInflates(d);
  }

  lemma FixedInflates(d: seq<Byte>)
    requires IsFixedStream(d)
    ensures Inflated(d, 13) == Ok(ExampleText())
  {
    FixedReads(d);
    FixedParts(d, FixedLiterals(), 7);
    FixedRest(d, FixedCodes(), 5);
    var ts := ExampleIsThere(d, FixedCodes(), 3, 11, 18, 19, 24, 1);
    OnlyBlock(d, Fixed(ts), 1, 1);
  }

  // ----- a stream with its own codes -----

  ghost predicate IsDynamicStream(d: seq<Byte>) {
    && |d| == 16 && d[0] == 77 && d[1] == 195 && d[2] == 55 && d[3] == 1 && d[4] == 0 && d[5] == 0 && d[6] == 0
    && d[7] == 128 && d[8] == 160 && d[9] == 172 && d[10] == 244 && d[11] == 47 && d[12] == 225 && d[13] == 235
    && d[14] == 114 && d[15] == 2
  }

  /** The mark of the block and the sizes of its lists. */
  lemma SizesAreRead(d: seq<Byte>)
    requires IsDynamicStream(d)
    ensures Peek(d, 0, 1) == 1 && Peek(d, 1, 2) == 2
    ensures Peek(d, 3, 5) == 9 && Peek(d, 8, 5) == 3 && Peek(d, 13, 4) == 14
  {
    Read(d, 0, 77, 195, 55, 0, 1, 1, 2, 1, 0);
    Read(d, 0, 77, 195, 55, 1, 2, 2, 4, 2, 1);
    Read(d, 0, 77, 195, 55, 3, 8, 5, 32, 9, 3);
    Read(d, 1, 195, 55, 1, 0, 1, 5, 32, 3, 8);
    Read(d, 1, 195, 55, 1, 5, 32, 4, 16, 14, 13);
  }

  /** The lengths of the code-length codes. */
  function ExampleOrder(): (cl: Lengths)
    ensures |cl| == 19
  {
    [0, 2, 2, 0, 0, 0, 0, 0, 0, 0, 0, 0, 0, 0, 0, 0, 3, 3, 2]
  }

  lemma TripleIsThere(d: seq<Byte>, p: nat, cl: Lengths, n: nat, v: nat, q: nat, m: nat)
    requires |cl| == 19 && n < 19 && m == n + 1 && q == p + 3 * n && cl[OrderAt(n)] == v
    requires Wire(d, p, OrderBits(cl, n)) && Peek(d, q, 3) == v && q + 3 <= 8 * |d|
    ensures Wire(d, p, OrderBits(cl, m))
  {
    NumIsWired(d, q, 3, v);
    WireJoin(d, p, OrderBits(cl, n), NumBits(v, 3), q);
  }

  lemma FirstTriples(d: seq<Byte>, cl: Lengths)
    requires IsDynamicStream(d) && cl == ExampleOrder()
    ensures Wire(d, 17, OrderBits(cl, 4))
  {
    Read(d, 2, 55, 1, 0, 1, 2, 3, 8, 3, 17);
    TripleIsThere(d, 17, cl, 0, 3, 17, 1);
    Read(d, 2, 55, 1, 0, 4, 16, 3, 8, 3, 20);
    TripleIsThere(d, 17, cl, 1, 3, 20, 2);
    Read(d, 2, 55, 1, 0, 7, 128, 3, 8, 2, 23);
    TripleIsThere(d, 17, cl, 2, 2, 23, 3);
    Read(d, 3, 1, 0, 0, 2, 4, 3, 8, 0, 26);
    TripleIsThere(d, 17, cl, 3, 0, 26, 4);
  }

  lemma SecondTriples(d: seq<Byte>, cl: Lengths)
    requires IsDynamicStream(d) && cl == ExampleOrder() && Wire(d, 17, OrderBits(cl, 4))
    ensures Wire(d, 17, OrderBits(cl, 8))
  {
    Read(d, 3, 1, 0, 0, 5, 32, 3, 8, 0, 29);
    TripleIsThere(d, 17, cl, 4, 0, 29, 5);
    Read(d, 4, 0, 0, 0, 0, 1, 3, 8, 0, 32);
    TripleIsThere(d, 17, cl, 5, 0, 32, 6);
    Read(d, 4, 0, 0, 0, 3, 8, 3, 8, 0, 35);
    TripleIsThere(d, 17, cl, 6, 0, 35, 7);
    Read(d, 4, 0, 0, 0, 6, 64, 3, 8, 0, 38);
    TripleIsThere(d, 17, cl, 7, 0, 38, 8);
  }

  lemma ThirdTriples(d: seq<Byte>, cl: Lengths)
    requires IsDynamicStream(d) && cl == ExampleOrder() && Wire(d, 17, OrderBits(cl, 8))
    ensures Wire(d, 17, OrderBits(cl, 11))
  {
    Read(d, 5, 0, 0, 128, 1, 2, 3, 8, 0, 41);
    TripleIsThere(d, 17, cl, 8, 0, 41, 9);
    Read(d, 5, 0, 0, 128, 4, 16, 3, 8, 0, 44);
    TripleIsThere(d, 17, cl, 9, 0, 44, 10);
    Read(d, 5, 0, 0, 128, 7, 128, 3, 8, 0, 47);
    TripleIsThere(d, 17, cl, 10, 0, 47, 11);
  }

  lemma FourthTriples(d: seq<Byte>, cl: Lengths)
    requires IsDynamicStream(d) && cl == ExampleOrder() && Wire(d, 17, OrderBits(cl, 11))
    ensures Wire(d, 17, OrderBits(cl, 14))
  {
    Read(d, 6, 0, 128, 160, 2, 4, 3, 8, 0, 50);
    TripleIsThere(d, 17, cl, 11, 0, 50, 12);
    Read(d, 6, 0, 128, 160, 5, 32, 3, 8, 0, 53);
    TripleIsThere(d, 17, cl, 12, 0, 53, 13);
    Read(d, 7, 128, 160, 172, 0, 1, 3, 8, 0, 56);
    TripleIsThere(d, 17, cl, 13, 0, 56, 14);
  }

  lemma FifthTriples(d: seq<Byte>, cl: Lengths)
    requires IsDynamicStream(d) && cl == ExampleOrder() && Wire(d, 17, OrderBits(cl, 14))
    ensures Wire(d, 17, OrderBits(cl, 18))
  {
    Read(d, 7, 128, 160, 172, 3, 8, 3, 8, 0, 59);
    TripleIsThere(d, 17, cl, 14, 0, 59, 15);
    Read(d, 7, 128, 160, 172, 6, 64, 3, 8, 2, 62);
    TripleIsThere(d, 17, cl, 15, 2, 62, 16);
    Read(d, 8, 160, 172, 244, 1, 2, 3, 8, 0, 65);
    TripleIsThere(d, 17, cl, 16, 0, 65, 17);
    Read(d, 8, 160, 172, 244, 4, 16, 3, 8, 2, 68);
    TripleIsThere(d, 17, cl, 17, 2, 68, 18);
  }

  function If(b: bool): nat {
    if b then 1 else 0
  }

  lemma {:induction false} OrderCounts(cl: Lengths, n: nat, len: nat)
    requires cl == ExampleOrder() && n <= 19
    ensures len == 1 ==> Count(cl, n, len) == 0
    ensures len == 2 ==> Count(cl, n, len) == If(n > 1) + If(n > 2) + If(n > 18)
    ensures len == 3 ==> Count(cl, n, len) == If(n > 16) + If(n > 17)
  {
    if n > 0 { OrderCounts(cl, n - 1, len); }
  }

  lemma {:induction false} OrderLeaves(cl: Lengths, three: nat, n: nat)
    requires cl == ExampleOrder() && n <= 19 && three == 3
    ensures Leaves(cl, three, n) == 2 * (If(n > 1) + If(n > 2) + If(n > 18)) + If(n > 16) + If(n > 17)
  {
    if n > 0 {
      OrderLeaves(cl, three, n - 1);
      assert Pow2(three - 3) == 1 && Pow2(three - 2) == 2;
    }
  }

  lemma OrderFits(cl: Lengths, three: nat)
    requires cl == ExampleOrder() && three == 3
    ensures Max(cl) == three && ValidLengths(cl, three) && Kraft(cl, three)
  {
    assert cl[16] == three;
    OrderLeaves(cl, three, 19);
    ThreeBits(three);
  }

  /** The code words of the code-length code. */
  lemma OrderWords(cl: Lengths, three: nat)
    requires cl == ExampleOrder() && three == 3
    ensures Code(cl, 1) == 0 && Code(cl, 2) == 1 && Code(cl, 18) == 2 && Code(cl, 16) == 6 && Code(cl, 17) == 7
  {
    OrderCounts(cl, 19, three - 2);
    OrderCounts(cl, 19, three - 1);
    assert FirstCode(cl, three - 1) == 0;
    assert FirstCode(cl, three) == 6;
    OrderCounts(cl, 1, three - 1);
    OrderCounts(cl, 2, three - 1);
    OrderCounts(cl, 18, three - 1);
    OrderCounts(cl, 16, three);
    OrderCounts(cl, 17, three);
  }

  // the code lengths that the stream lists

  function ExampleLength(i: int): nat {
    if i == 97 then 1 else if i == 256 || 265 <= i < 270 then 2 else 0
  }

  function ExampleLengths(): (all: Lengths)
    ensures |all| == 270 && forall i | 0 <= i < 270 :: all[i] == ExampleLength(i)
  {
    seq(270, i => ExampleLength(i))
  }

  /** The runs of the list: 97 zeros, 1, 138 and 20 zeros, 2, 8 zeros, 2, and that 4 times more. */
  function ExampleRuns(): seq<RunCode> {
    [ManyZeros(97), One(1), ManyZeros(138), ManyZeros(20), One(2), FewZeros(8), One(2), Again(4)]
  }

  ghost predicate AreExampleRuns(runs: seq<RunCode>) {
    && |runs| == 8 && runs[0] == ManyZeros(97) && runs[1] == One(1) && runs[2] == ManyZeros(138) && runs[3] == ManyZeros(20)
    && runs[4] == One(2) && runs[5] == FewZeros(8) && runs[6] == One(2) && runs[7] == Again(4)
  }

  lemma NextRun(runs: seq<RunCode>, k: nat, all: Lengths, n: nat, m: nat, v: nat)
    requires k < |runs| && n < m <= |all| && (forall i | n <= i < m :: all[i] == v)
    requires match runs[k]
             case One(len) => len == v && m == n + 1
             case Again(c) => 0 < n && all[n - 1] == v && m == n + c
             case FewZeros(c) => v == 0 && m == n + c
             case ManyZeros(c) => v == 0 && m == n + c
    ensures ListLengths(all[..n], runs[k..]) == ListLengths(all[..m], runs[k + 1..])
  {
    assert runs[k..][0] == runs[k] && runs[k..][1..] == runs[k + 1..];
    assert all[..n] + Repeat(v, m - n) == all[..m];
    assert runs[k].One? ==> Repeat(v, 1) == [v];
    assert runs[k].Again? ==> Last(all[..n]) == v;
  }

  lemma RunsListLengths(runs: seq<RunCode>, all: Lengths)
    requires AreExampleRuns(runs) && all == ExampleLengths()
    ensures ListLengths([], runs) == all
  {
    NextRun(runs, 0, all, 0, 97, 0);
    NextRun(runs, 1, all, 97, 98, 1);
    NextRun(runs, 2, all, 98, 236, 0);
    LastRuns(runs, all);
    assert all[..0] == [] && runs[0..] == runs;
  }

  lemma LastRuns(runs: seq<RunCode>, all: Lengths)
    requires AreExampleRuns(runs) && all == ExampleLengths()
    ensures ListLengths(all[..236], runs[3..]) == all
  {
    NextRun(runs, 3, all, 236, 256, 0);
    NextRun(runs, 4, all, 256, 257, 2);
    NextRun(runs, 5, all, 257, 265, 0);
    NextRun(runs, 6, all, 265, 266, 2);
    NextRun(runs, 7, all, 266, 270, 2);
    assert all[..270] == all && runs[8..] == [];
  }

  lemma {:induction false} LiteralCounts(lit: Lengths, n: nat, len: nat)
    requires lit == ExampleLengths()[..266] && n <= 266
    ensures len == 1 ==> Count(lit, n, len) == If(n > 97)
    ensures len == 2 ==> Count(lit, n, len) == If(n > 256) + If(n > 265)
  {
    if n > 0 { LiteralCounts(lit, n - 1, len); }
  }

  lemma {:induction false} LiteralLeaves(lit: Lengths, two: nat, n: nat)
    requires lit == ExampleLengths()[..266] && n <= 266 && two == 2
    ensures Leaves(lit, two, n) == 2 * If(n > 97) + If(n > 256) + If(n > 265)
  {
    if n > 0 {
      LiteralLeaves(lit, two, n - 1);
      assert Pow2(two - 2) == 1 && Pow2(two - 1) == 2;
    }
  }

  /** The code words of the literal code. */
  lemma LiteralWords(lit: Lengths, two: nat)
    requires lit == ExampleLengths()[..266] && two == 2
    ensures Code(lit, 97) == 0 && Code(lit, 256) == 2 && Code(lit, 265) == 3
    ensures Max(lit) == two && Kraft(lit, two)
  {
    LiteralCounts(lit, 266, two - 1);
    LiteralCounts(lit, 97, two - 1);
    assert FirstCode(lit, two) == 2;
    LiteralCounts(lit, 256, two);
    LiteralCounts(lit, 265, two);
    assert lit[256] == two;
    LiteralLeaves(lit, two, 266);
    ThreeBits(two + 1);
  }

  lemma {:induction false} TwosCount(dist: Lengths, two: nat, n: nat)
    requires dist == [2, 2, 2, 2] && two == 2 && n <= 4
    ensures Count(dist, n, two - 1) == 0 && Leaves(dist, two, n) == n
  {
    if n > 0 {
      TwosCount(dist, two, n - 1);
      assert Pow2(two - 2) == 1;
    }
  }

  /** The code of the distances: four words of two bits. */
  lemma DistanceWords(dist: Lengths, two: nat)
    requires dist == [2, 2, 2, 2] && two == 2
    ensures Code(dist, 0) == 0 && Max(dist) == two && Kraft(dist, two)
  {
    assert dist[0] == two;
    TwosCount(dist, two, 4);
    assert FirstCode(dist, two) == 0;
    ThreeBits(two + 1);
  }

  /** A run on the wire, in front of others. */
  lemma RunIsThere(d: seq<Byte>, p: nat, cl: Lengths, r: RunCode, len: nat, word: nat, v: nat, k: nat, m: nat, q: nat,
                   rest: seq<RunCode>)
    returns (runs: seq<RunCode>)
    requires |cl| == 19 && ValidRuns(rest, cl) && r.Valid() && cl[r.Sym()] == len > 0 && Code(cl, r.Sym()) == word
    requires RevBits(word, len) == v && Peek(d, p, len) == v && k == r.ExtraBits() && m == p + len && q == m + k
    requires Peek(d, m, k) == r.Extra() && q <= 8 * |d| && Wire(d, q, RunsBits(rest, cl))
    ensures runs == [r] + rest && ValidRuns(runs, cl) && Wire(d, p, RunsBits(runs, cl))
  {
    SymbolIsThere(d, p, cl, r.Sym(), len, word, v);
    NumIsWired(d, m, k, r.Extra());
    WireJoin(d, p, SymbolBits(cl, r.Sym()), NumBits(r.Extra(), k), m);
    runs := [r] + rest;
    assert runs[1..] == rest;
    WireJoin(d, p, RunBits(r, cl), RunsBits(rest, cl), q);
  }

  /** The code words by which the runs are written. */
  ghost predicate OrderCode(cl: Lengths) {
    && |cl| == 19 && cl[1] == 2 && cl[2] == 2 && cl[16] == 3 && cl[17] == 3 && cl[18] == 2
    && Code(cl, 1) == 0 && Code(cl, 2) == 1 && Code(cl, 18) == 2 && Code(cl, 16) == 6 && Code(cl, 17) == 7
  }

  lemma RunsEnd(d: seq<Byte>, cl: Lengths, two: nat) returns (runs: seq<RunCode>)
    requires IsDynamicStream(d) && OrderCode(cl) && two == 2
    ensures runs == [One(2), FewZeros(8), One(2), Again(4)] && ValidRuns(runs, cl) && Wire(d, 100, RunsBits(runs, cl))
  {
    Read(d, 13, 235, 114, 2, 6, 64, 3, 8, 3, 110);
    Read(d, 14, 114, 2, 0, 1, 2, 2, 4, 1, 113);
    runs := RunIsThere(d, 110, cl, Again(4), two + 1, 6, 3, two, 113, 115, []);
    Read(d, 13, 235, 114, 2, 4, 16, 2, 4, 2, 108);
    runs := RunIsThere(d, 108, cl, One(two), two, 1, 2, 0, 110, 110, runs);
    Read(d, 12, 225, 235, 114, 6, 64, 3, 8, 7, 102);
    Read(d, 13, 235, 114, 2, 1, 2, 3, 8, 5, 105);
    runs := RunIsThere(d, 102, cl, FewZeros(8), two + 1, 7, 7, two + 1, 105, 108, runs);
    Read(d, 12, 225, 235, 114, 4, 16, 2, 4, 2, 100);
    runs := RunIsThere(d, 100, cl, One(two), two, 1, 2, 0, 102, 102, runs);
  }

  lemma RunsGoOn(d: seq<Byte>, cl: Lengths, two: nat) returns (runs: seq<RunCode>)
    requires IsDynamicStream(d) && OrderCode(cl) && two == 2
    ensures runs == [ManyZeros(138), ManyZeros(20), One(2), FewZeros(8), One(2), Again(4)]
    ensures ValidRuns(runs, cl) && Wire(d, 82, RunsBits(runs, cl))
  {
    runs := RunsEnd(d, cl, two);
    Read(d, 11, 47, 225, 235, 3, 8, 2, 4, 1, 91);
    Read(d, 11, 47, 225, 235, 5, 32, 7, 128, 9, 93);
    runs := RunIsThere(d, 91, cl, ManyZeros(20), two, 2, 1, two + 5, 93, 100, runs);
    Read(d, 10, 244, 47, 225, 2, 4, 2, 4, 1, 82);
    Read(d, 10, 244, 47, 225, 4, 16, 7, 128, 127, 84);
    runs := RunIsThere(d, 82, cl, ManyZeros(138), two, 2, 1, two + 5, 84, 91, runs);
  }

  lemma FirstZeros(d: seq<Byte>, cl: Lengths, two: nat, rest: seq<RunCode>) returns (runs: seq<RunCode>)
    requires IsDynamicStream(d) && OrderCode(cl) && two == 2 && ValidRuns(rest, cl) && Wire(d, 80, RunsBits(rest, cl))
    ensures runs == [ManyZeros(97)] + rest && ValidRuns(runs, cl) && Wire(d, 71, RunsBits(runs, cl))
  {
    Read(d, 8, 160, 172, 244, 7, 128, 2, 4, 1, 71);
    Read(d, 9, 172, 244, 47, 1, 2, 7, 128, 86, 73);
    runs := RunIsThere(d, 71, cl, ManyZeros(97), two, 2, 1, two + 5, 73, 80, rest);
  }

  lemma FirstLength(d: seq<Byte>, cl: Lengths, two: nat, rest: seq<RunCode>) returns (runs: seq<RunCode>)
    requires IsDynamicStream(d) && OrderCode(cl) && two == 2 && ValidRuns(rest, cl) && Wire(d, 82, RunsBits(rest, cl))
    ensures runs == [One(1)] + rest && ValidRuns(runs, cl) && Wire(d, 80, RunsBits(runs, cl))
  {
    Read(d, 10, 244, 47, 225, 0, 1, 2, 4, 0, 80);
    runs := RunIsThere(d, 80, cl, One(1), two, 0, 0, 0, 82, 82, rest);
  }

  lemma RunsStart(d: seq<Byte>, cl: Lengths, two: nat) returns (runs: seq<RunCode>)
    requires IsDynamicStream(d) && OrderCode(cl) && two == 2
    ensures AreExampleRuns(runs) && ValidRuns(runs, cl) && Wire(d, 71, RunsBits(runs, cl))
  {
    runs := RunsGoOn(d, cl, two);
    runs := FirstLength(d, cl, two, runs);
    runs := FirstZeros(d, cl, two, runs);
  }

  lemma RunsAreThere(d: seq<Byte>, cl: Lengths, two: nat) returns (runs: seq<RunCode>)
    requires IsDynamicStream(d) && OrderCode(cl) && two == 2
    ensures runs == ExampleRuns() && ValidRuns(runs, cl) && Wire(d, 71, RunsBits(runs, cl))
  {
    runs := RunsStart(d, cl, two);
    SameRuns(runs, ExampleRuns());
  }

  lemma SameRuns(runs: seq<RunCode>, same: seq<RunCode>)
    requires AreExampleRuns(runs) && AreExampleRuns(same)
    ensures runs == same
  {
  }

  lemma DynamicParts(d: seq<Byte>, lit: Lengths, two: nat)
    requires IsDynamicStream(d) && lit == ExampleLengths()[..266] && two == 2
    ensures Wire(d, 115, SymbolBits(lit, 97)) && Wire(d, 116, SymbolBits(lit, 265)) && Wire(d, 121, SymbolBits(lit, 256))
  {
    LiteralWords(lit, two);
    Read(d, 14, 114, 2, 0, 3, 8, 1, 2, 0, 115);
    SymbolIsThere(d, 115, lit, 97, two - 1, 0, 0);
    Read(d, 14, 114, 2, 0, 4, 16, 2, 4, 3, 116);
    SymbolIsThere(d, 116, lit, 265, two, 3, 3);
    Read(d, 15, 2, 0, 0, 1, 2, 2, 4, 1, 121);
    SymbolIsThere(d, 121, lit, 256, two, 2, 1);
  }

  lemma DynamicRest(d: seq<Byte>, dist: Lengths, two: nat)
    requires IsDynamicStream(d) && dist == [2, 2, 2, 2] && two == 2
    ensures Wire(d, 118, NumBits(1, 1)) && Wire(d, 119, SymbolBits(dist, 0))
  {
    DistanceWords(dist, two);
    Read(d, 14, 114, 2, 0, 6, 64, 1, 2, 1, 118);
    NumIsWired(d, 118, 1, 1);
    Read(d, 14, 114, 2, 0, 7, 128, 2, 4, 0, 119);
    SymbolIsThere(d, 119, dist, 0, two, 0, 0);
  }

  function ExampleHeader(): Announced {
    Announced(266, 18, ExampleOrder(), ExampleRuns())
  }

  lemma HeaderIsValid(h: Announced, all: Lengths) returns (c: Codes)
    requires h == ExampleHeader() && all == ExampleLengths()
    ensures h.Lens() == all && ValidAnnounced(h)
    ensures c == HeaderCodes(all, 266) && c.lit == all[..266] && c.dist == [2, 2, 2, 2]
  {
    RunsListLengths(h.runs, all);
    OrderFits(h.cl, 3);
    OrderAtEnd(h.cl);
    c := CodesFit(all, 266);
  }

  lemma CodesFit(all: Lengths, hLit: nat) returns (c: Codes)
    requires all == ExampleLengths() && hLit == 266
    ensures c == HeaderCodes(all, hLit) && c.lit == all[..266] && c.dist == [2, 2, 2, 2] && KraftCodes(c)
  {
    c := HeaderCodes(all, hLit);
    assert all[266..] == [2, 2, 2, 2];
    LiteralWords(c.lit, 2);
    DistanceWords(c.dist, 2);
  }

  lemma OrderAtEnd(cl: Lengths)
    requires cl == ExampleOrder()
    ensures (forall k | 18 <= k < 19 :: cl[OrderAt(k)] == 0) && ValidRuns(ExampleRuns(), cl)
  {
  }

  lemma HeaderIsThere(d: seq<Byte>, h: Announced, five: nat, all: Lengths)
    requires IsDynamicStream(d) && h == ExampleHeader() && ValidAnnounced(h) && five == 5 && |all| == 270 && h.Lens() == all
    ensures Wire(d, 3, HeaderBits(h)) && |HeaderBits(h)| == 112
  {
    FirstTriples(d, h.cl);
    SecondTriples(d, h.cl);
    ThirdTriples(d, h.cl);
    FourthTriples(d, h.cl);
    FifthTriples(d, h.cl);
    OrderWords(h.cl, 3);
    var runs := RunsAreThere(d, h.cl, 2);
    WireJoin(d, 17, OrderBits(h.cl, 18), RunsBits(runs, h.cl), 71);
    SizesAreThere(d, five);
    WireJoin(d, 3, SizeBits(266, 270, 18), OrderBits(h.cl, 18) + RunsBits(runs, h.cl), 17);
  }

  lemma SizesAreThere(d: seq<Byte>, five: nat)
    requires IsDynamicStream(d) && five == 5
    ensures Wire(d, 3, SizeBits(266, 270, 18))
  {
    SizesAreRead(d);
    NumIsWired(d, 3, five, 9);
    NumIsWired(d, 8, five, 3);
    NumIsWired(d, 13, five - 1, 14);
    WireJoin(d, 8, NumBits(3, five), NumBits(14, five - 1), 13);
    WireJoin(d, 3, NumBits(9, five), NumBits(3, five) + NumBits(14, five - 1), 8);
  }

  /** These sixteen bytes are inflated to the text. */
  lemma DynamicStreamInflates(d: seq<Byte>)
    requires d == [77, 195, 55, 1, 0, 0, 0, 128, 160, 172, 244, 47, 225, 235, 114, 2]
    ensures Inflated(d, 13) == Ok(ExampleText())
  {
    DynamicInflates(d, ExampleHeader(), ExampleLengths());
  }

  lemma DynamicInflates(d: seq<Byte>, h: Announced, all: Lengths)
    requires IsDynamicStream(d) && h == ExampleHeader() && all == ExampleLengths()
    ensures Inflated(d, 13) == Ok(ExampleText())
  {
    var c := HeaderIsValid(h, all);
    DynamicParts(d, c.lit, 2);
    DynamicRest(d, c.dist, 2);
    var ts := ExampleIsThere(d, c, 115, 116, 118, 119, 121, 1);
    HeaderIsThere(d, h, 5, all);
    WireJoin(d, 3, HeaderBits(h), TokensBits(ts, c), 115);
    SizesAreRead(d);
    OnlyBlock(d, Dynamic(h, ts), 2, 1);
  }
}
