/** How data is written in the format of RFC 1951, and the proof that decoding it gives
    the data back. A block carries every choice that an encoder has: the code, the order
    and kind of run-length codes, the split into literals and matches, and the padding. */
module DeflateEncoding {
  import opened Bits
  import opened Huffman
  import opened Deflate

  // ----- what is encoded -----

  /** A literal byte, or a match named by its length and distance symbols with the values
      of their extra bits. */
  datatype Token =
    | Literal(byte: Byte)
    | Copy(sym: nat, lx: nat, dsym: nat, dx: nat)

  ghost predicate ValidToken(t: Token, c: Codes) {
    match t
    case Literal(b) => b < |c.lit| && c.lit[b] != 0
    case Copy(sym, lx, dsym, dx) =>
      && 257 <= sym <= 285 && sym < |c.lit| && c.lit[sym] != 0 && lx < Pow2(LengthBits(sym))
      && dsym < 30 && dsym < |c.dist| && c.dist[dsym] != 0 && dx < Pow2(DistanceBits(dsym))
  }

  /** The match length of section 3.2.5. */
  function TokenLength(sym: nat, lx: nat): nat
    requires 257 <= sym <= 285
  {
    LengthBase(sym - 257) + lx
  }

  /** The match distance of section 3.2.5. */
  function TokenDistance(dsym: nat, dx: nat): nat
    requires dsym < 30
  {
    DistanceBase(dsym) + dx
  }

  ghost predicate ValidTokens(ts: seq<Token>, c: Codes) {
    && (forall i | 0 <= i < |ts| :: ValidToken(ts[i], c))
    && 256 < |c.lit| && c.lit[256] != 0
  }

  function ExpandToken(out: seq<Byte>, t: Token): seq<Byte>
    requires t.Copy? ==> 257 <= t.sym <= 285 && t.dsym < 30
  {
    match t
    case Literal(b) => out + [b]
    case Copy(sym, lx, dsym, dx) => CopyBack(out, TokenDistance(dsym, dx), TokenLength(sym, lx))
  }

  /** The data that tokens stand for, after `out`. */
  function Expand(out: seq<Byte>, ts: seq<Token>): seq<Byte>
    requires forall t | t in ts && t.Copy? :: 257 <= t.sym <= 285 && t.dsym < 30
    decreases |ts|
  {
    if ts == [] then out else Expand(ExpandToken(out, ts[0]), ts[1..])
  }

  // ----- bits on the wire -----

  /** `k` bits of a number, lowest first. */
  function NumBits(v: nat, k: nat): (s: seq<Bit>)
    ensures |s| == k
    decreases k, v
  {
    if k == 0 then [] else [v % 2] + NumBits(v / 2, k - 1)
  }

  /** A Huffman code of length `len`, highest bit first. */
  function CodeBits(c: nat, len: nat): (s: seq<Bit>)
    ensures |s| == len
    decreases len, c
  {
    if len == 0 then [] else CodeBits(c / 2, len - 1) + [c % 2]
  }

  function SymbolBits(cd: Lengths, i: nat): seq<Bit>
    requires i < |cd| && cd[i] != 0
  {
    CodeBits(Code(cd, i), cd[i])
  }

  /** From bit `p` on, the bytes of `dat` spell `s`. */
  ghost predicate Wire(dat: seq<Byte>, p: nat, s: seq<Bit>)
    ensures Wire(dat, p, s) ==> p + |s| <= 8 * |dat|
    decreases |s|
  {
    if s == [] then p <= 8 * |dat| else BitAt(dat, p) == s[0] && Wire(dat, p + 1, s[1..])
  }

  lemma {:induction false} WireSplit(dat: seq<Byte>, p: nat, a: seq<Bit>, b: seq<Bit>)
    requires Wire(dat, p, a + b)
    ensures Wire(dat, p, a) && Wire(dat, p + |a|, b)
    decreases |a|
  {
    if a == [] {
      assert a + b == b;
    } else {
      assert (a + b)[1..] == a[1..] + b;
      WireSplit(dat, p + 1, a[1..], b);
    }
  }

  lemma WireSplitAt(dat: seq<Byte>, p: nat, a: seq<Bit>, b: seq<Bit>, q: nat)
    requires Wire(dat, p, a + b) && q == p + |a|
    ensures Wire(dat, p, a) && Wire(dat, q, b)
  {
    WireSplit(dat, p, a, b);
  }

  lemma {:induction false} WireNum(dat: seq<Byte>, p: nat, v: nat, k: nat)
    requires v < Pow2(k) && Wire(dat, p, NumBits(v, k))
    ensures Peek(dat, p, k) == v
    decreases k
  {
    if k > 0 {
      assert NumBits(v, k)[1..] == NumBits(v / 2, k - 1);
      WireNum(dat, p + 1, v / 2, k - 1);
    }
  }

  lemma {:induction false} PeekTop(dat: seq<Byte>, p: nat, k: nat)
    ensures Peek(dat, p, k + 1) == Peek(dat, p, k) + if BitAt(dat, p + k) == 1 then Pow2(k) else 0
    decreases k
  {
    if k > 0 { PeekTop(dat, p + 1, k - 1); }
  }

  lemma {:induction false} WireCode(dat: seq<Byte>, p: nat, c: nat, len: nat)
    requires Wire(dat, p, CodeBits(c, len))
    ensures Peek(dat, p, len) == RevBits(c, len)
    decreases len
  {
    if len > 0 {
      WireSplit(dat, p, CodeBits(c / 2, len - 1), [c % 2]);
      WireCode(dat, p, c / 2, len - 1);
      PeekTop(dat, p, len - 1);
      assert BitAt(dat, p + (len - 1)) == [c % 2][0];
    }
  }

  lemma {:induction false} LowPeek(dat: seq<Byte>, p: nat, n: nat, k: nat)
    requires k <= n
    ensures Low(Peek(dat, p, n), k) == Peek(dat, p, k)
    decreases k
  {
    if k > 0 { LowPeek(dat, p + 1, n - 1, k - 1); }
  }

  /** A written symbol is the one that is read, whatever follows it. */
  lemma WireSymbol(dat: seq<Byte>, p: nat, cd: Lengths, mb: nat, i: nat)
    requires ValidLengths(cd, mb) && Kraft(cd, mb) && i < |cd| && cd[i] != 0
    requires Wire(dat, p, SymbolBits(cd, i))
    ensures Symbol(dat, p, cd, mb) == 16 * i + cd[i]
  {
    WireCode(dat, p, Code(cd, i), cd[i]);
    LowPeek(dat, p, mb, cd[i]);
    EntryOfCode(cd, mb, |cd|, Peek(dat, p, mb), i);
  }

  // ----- tokens -----

  function TokenBits(t: Token, c: Codes): seq<Bit>
    requires match t
             case Literal(b) => b < |c.lit| && c.lit[b] != 0
             case Copy(sym, lx, dsym, dx) =>
               && 257 <= sym <= 285 && sym < |c.lit| && c.lit[sym] != 0
               && dsym < 30 && dsym < |c.dist| && c.dist[dsym] != 0
  {
    match t
    case Literal(b) => SymbolBits(c.lit, b)
    case Copy(sym, lx, dsym, dx) =>
      (SymbolBits(c.lit, sym) + NumBits(lx, LengthBits(sym)))
      + (SymbolBits(c.dist, dsym) + NumBits(dx, DistanceBits(dsym)))
  }

  /** The tokens of a block and the end-of-block symbol. */
  ghost function TokensBits(ts: seq<Token>, c: Codes): seq<Bit>
    requires ValidTokens(ts, c)
  {
    if ts == [] then SymbolBits(c.lit, 256) else TokenBits(ts[0], c) + TokensBits(ts[1..], c)
  }

  lemma EntrySplit(i: nat, len: nat)
    requires 0 < len < 16
    ensures (16 * i + len) / 16 == i && (16 * i + len) % 16 == len
  {
  }

  /** A symbol and its extra bits. */
  lemma WireSymbolExtra(dat: seq<Byte>, p: nat, cd: Lengths, mb: nat, i: nat, v: nat, k: nat, q: nat)
    requires ValidLengths(cd, mb) && Kraft(cd, mb) && i < |cd| && cd[i] != 0 && v < Pow2(k)
    requires Wire(dat, p, SymbolBits(cd, i) + NumBits(v, k)) && q == p + cd[i]
    ensures Symbol(dat, p, cd, mb) == 16 * i + cd[i] && Peek(dat, q, k) == v
    ensures q + k <= 8 * |dat|
  {
    WireSplitAt(dat, p, SymbolBits(cd, i), NumBits(v, k), q);
    WireSymbol(dat, p, cd, mb, i);
    WireNum(dat, q, v, k);
  }

  /** The pieces of a written match, each read on its own. */
  lemma MatchPieces(dat: seq<Byte>, p: nat, c: Codes, sym: nat, lx: nat, kl: nat, dsym: nat, dx: nat, kd: nat,
                    q: nat, s: nat, u: nat)
    requires ValidCodes(c) && Kraft(c.lit, c.litBits) && Kraft(c.dist, c.distBits)
    requires sym < |c.lit| && c.lit[sym] != 0 && lx < Pow2(kl)
    requires dsym < |c.dist| && c.dist[dsym] != 0 && dx < Pow2(kd)
    requires Wire(dat, p, (SymbolBits(c.lit, sym) + NumBits(lx, kl)) + (SymbolBits(c.dist, dsym) + NumBits(dx, kd)))
    requires q == p + c.lit[sym] && s == q + kl && u == s + c.dist[dsym]
    ensures Symbol(dat, p, c.lit, c.litBits) == 16 * sym + c.lit[sym] && Peek(dat, q, kl) == lx
    ensures Symbol(dat, s, c.dist, c.distBits) == 16 * dsym + c.dist[dsym] && Peek(dat, u, kd) == dx
    ensures u + kd <= 8 * |dat|
  {
    var a, b := SymbolBits(c.lit, sym) + NumBits(lx, kl), SymbolBits(c.dist, dsym) + NumBits(dx, kd);
    WireSplitAt(dat, p, a, b, s);
    WireSymbolExtra(dat, p, c.lit, c.litBits, sym, lx, kl, q);
    WireSymbolExtra(dat, s, c.dist, c.distBits, dsym, dx, kd, u);
  }

  function TokenSize(t: Token, c: Codes): nat
    requires t.Copy? && 257 <= t.sym <= 285 && t.sym < |c.lit| && t.dsym < 30 && t.dsym < |c.dist|
  {
    c.lit[t.sym] + LengthBits(t.sym) + c.dist[t.dsym] + DistanceBits(t.dsym)
  }

  lemma MatchOnWire(dat: seq<Byte>, p: nat, t: Token, c: Codes, q: nat, next: nat) returns (m: Match)
    requires ValidCodes(c) && Kraft(c.lit, c.litBits) && Kraft(c.dist, c.distBits)
    requires t.Copy? && ValidToken(t, c) && Wire(dat, p, TokenBits(t, c))
    requires q == p + c.lit[t.sym] && next == p + TokenSize(t, c)
    ensures Symbol(dat, p, c.lit, c.litBits) == 16 * t.sym + c.lit[t.sym]
    ensures m == ReadMatch(dat, q, t.sym, c) && m.entry != 0 && m.next == next <= 8 * |dat|
    ensures m.length == TokenLength(t.sym, t.lx) && m.distance == TokenDistance(t.dsym, t.dx)
  {
    var kl, kd := LengthBits(t.sym), DistanceBits(t.dsym);
    var s := q + kl;
    var u := s + c.dist[t.dsym];
    var length := MatchLength(dat, q, t.sym);
    MatchPieces(dat, p, c, t.sym, t.lx, kl, t.dsym, t.dx, kd, q, s, u);
    m := DistanceRead(dat, s, t.dsym, t.dx, c, kd, u, length, 16 * t.dsym + c.dist[t.dsym]);
    RestOfMatch(dat, q, t.sym, c, s, length);
  }

  lemma RestOfMatch(dat: seq<Byte>, q: nat, sym: nat, c: Codes, s: nat, length: nat)
    requires ValidCodes(c) && 256 < sym < 288 && s == q + LengthBits(sym) && length == MatchLength(dat, q, sym)
    ensures ReadMatch(dat, q, sym, c) == ReadRest(dat, s, length, c)
  {
  }

  lemma DistanceRead(dat: seq<Byte>, s: nat, dsym: nat, dx: nat, c: Codes, kd: nat, u: nat, length: nat, e: nat)
    returns (m: Match)
    requires ValidCodes(c) && dsym < 30 && dsym < |c.dist| && c.dist[dsym] != 0 && kd == DistanceBits(dsym)
    requires e == 16 * dsym + c.dist[dsym] && Symbol(dat, s, c.dist, c.distBits) == e
    requires u == s + c.dist[dsym] && Peek(dat, u, kd) == dx
    ensures m == ReadRest(dat, s, length, c)
    ensures m == Match(e, length, TokenDistance(dsym, dx), u + kd)
  {
    EntrySplit(dsym, c.dist[dsym]);
    m := Match(e, length, TokenDistance(dsym, dx), u + kd);
  }

  lemma LiteralStep(dat: seq<Byte>, p: nat, b: Byte, c: Codes, out: seq<Byte>)
    requires ValidCodes(c) && Kraft(c.lit, c.litBits) && b < |c.lit| && c.lit[b] != 0
    requires Wire(dat, p, SymbolBits(c.lit, b))
    ensures TokenStep(dat, p, c, out) == Go(p + c.lit[b], out + [b])
  {
    WireSymbol(dat, p, c.lit, c.litBits, b);
    EntrySplit(b, c.lit[b]);
  }

  lemma EndStep(dat: seq<Byte>, p: nat, c: Codes, out: seq<Byte>)
    requires ValidCodes(c) && Kraft(c.lit, c.litBits) && 256 < |c.lit| && c.lit[256] != 0
    requires Wire(dat, p, SymbolBits(c.lit, 256))
    ensures TokenStep(dat, p, c, out) == Stop(Ok((p + c.lit[256], out)))
  {
    WireSymbol(dat, p, c.lit, c.litBits, 256);
    EntrySplit(256, c.lit[256]);
  }

  lemma StepAtMatch(dat: seq<Byte>, p: nat, c: Codes, out: seq<Byte>, sym: nat, e: nat, q: nat, m: Match)
    requires ValidCodes(c) && 256 < sym < |c.lit| && p + e % 16 == q <= 8 * |dat| && e != 0 && e / 16 == sym
    requires Symbol(dat, p, c.lit, c.litBits) == e && m == ReadMatch(dat, q, sym, c)
    ensures TokenStep(dat, p, c, out) == MatchStep(dat, m, out)
  {
  }

  lemma CopyStep(dat: seq<Byte>, p: nat, t: Token, c: Codes, out: seq<Byte>, next: nat)
    requires ValidCodes(c) && Kraft(c.lit, c.litBits) && Kraft(c.dist, c.distBits)
    requires t.Copy? && ValidToken(t, c) && Wire(dat, p, TokenBits(t, c)) && next == p + |TokenBits(t, c)|
    ensures TokenStep(dat, p, c, out) == Go(next, ExpandToken(out, t))
  {
    var q := p + c.lit[t.sym];
    var m := MatchOnWire(dat, p, t, c, q, next);
    EntrySplit(t.sym, c.lit[t.sym]);
    StepAtMatch(dat, p, c, out, t.sym, 16 * t.sym + c.lit[t.sym], q, m);
  }

  /** A token on the wire is decoded as that token. */
  lemma TokenOnWire(dat: seq<Byte>, p: nat, t: Token, c: Codes, out: seq<Byte>, next: nat)
    requires ValidCodes(c) && Kraft(c.lit, c.litBits) && Kraft(c.dist, c.distBits)
    requires ValidToken(t, c) && Wire(dat, p, TokenBits(t, c)) && next == p + |TokenBits(t, c)|
    ensures TokenStep(dat, p, c, out) == Go(next, ExpandToken(out, t))
  {
    if t.Literal? { LiteralStep(dat, p, t.byte, c, out); } else { CopyStep(dat, p, t, c, out, next); }
  }

  lemma TokensEnd(dat: seq<Byte>, p: nat, c: Codes, out: seq<Byte>, next: nat)
    requires ValidCodes(c) && Kraft(c.lit, c.litBits) && 256 < |c.lit| && c.lit[256] != 0
    requires Wire(dat, p, SymbolBits(c.lit, 256)) && next == p + |SymbolBits(c.lit, 256)|
    ensures Tokens(dat, p, c, out) == Ok((next, out))
  {
    EndStep(dat, p, c, out);
  }

  lemma FirstToken(dat: seq<Byte>, p: nat, ts: seq<Token>, c: Codes, q: nat)
    requires ValidTokens(ts, c) && ts != [] && Wire(dat, p, TokensBits(ts, c))
    requires q == p + |TokenBits(ts[0], c)|
    ensures ValidToken(ts[0], c) && ValidTokens(ts[1..], c)
    ensures Wire(dat, p, TokenBits(ts[0], c)) && Wire(dat, q, TokensBits(ts[1..], c))
    ensures p + |TokensBits(ts, c)| == q + |TokensBits(ts[1..], c)|
  {
    WireSplitAt(dat, p, TokenBits(ts[0], c), TokensBits(ts[1..], c), q);
  }

  lemma TokensGo(dat: seq<Byte>, p: nat, c: Codes, out: seq<Byte>, q: nat, o: seq<Byte>)
    requires ValidCodes(c) && p <= 8 * |dat|
    requires TokenStep(dat, p, c, out) == Go(q, o)
    ensures Tokens(dat, p, c, out) == Tokens(dat, q, c, o)
  {
  }

  /** Decoding and writing move on together. */
  lemma TokensAdvance(dat: seq<Byte>, p: nat, ts: seq<Token>, c: Codes, out: seq<Byte>)
    returns (q: nat, o: seq<Byte>)
    requires ValidCodes(c) && Kraft(c.lit, c.litBits) && Kraft(c.dist, c.distBits)
    requires ts != [] && ValidTokens(ts, c) && Wire(dat, p, TokensBits(ts, c))
    ensures ValidTokens(ts[1..], c) && Wire(dat, q, TokensBits(ts[1..], c))
    ensures p + |TokensBits(ts, c)| == q + |TokensBits(ts[1..], c)|
    ensures o == ExpandToken(out, ts[0]) && q <= 8 * |dat|
    ensures Tokens(dat, p, c, out) == Tokens(dat, q, c, o)
  {
    q, o := p + |TokenBits(ts[0], c)|, ExpandToken(out, ts[0]);
    FirstToken(dat, p, ts, c, q);
    TokenOnWire(dat, p, ts[0], c, out, q);
    TokensGo(dat, p, c, out, q, o);
  }

  /** Decoding what was written for a block gives the data of its tokens. */
  lemma {:induction false} TokensOnWire(dat: seq<Byte>, p: nat, ts: seq<Token>, c: Codes, out: seq<Byte>,
                                        next: nat)
    requires ValidCodes(c) && Kraft(c.lit, c.litBits) && Kraft(c.dist, c.distBits)
    requires ValidTokens(ts, c) && Wire(dat, p, TokensBits(ts, c)) && next == p + |TokensBits(ts, c)|
    ensures Tokens(dat, p, c, out) == Ok((next, Expand(out, ts)))
    decreases |ts|
  {
    if ts == [] {
      TokensEnd(dat, p, c, out, next);
    } else {
      var q, o := TokensAdvance(dat, p, ts, c, out);
      TokensOnWire(dat, q, ts[1..], c, o, next);
    }
  }

  // ----- dynamic headers -----

  /** One item of the run-length coded list of code lengths (section 3.2.7). */
  datatype RunCode =
    | One(len: nat)
    | Again(n: nat)
    | FewZeros(n: nat)
    | ManyZeros(n: nat)
  {
    predicate Valid() {
      match this
      case One(len) => len < 16
      case Again(n) => 3 <= n <= 6
      case FewZeros(n) => 3 <= n <= 10
      case ManyZeros(n) => 11 <= n <= 138
    }

    function Sym(): (s: nat)
      requires Valid()
      ensures s < 19
    {
      match this
      case One(len) => len
      case Again(_) => 16
      case FewZeros(_) => 17
      case ManyZeros(_) => 18
    }

    function ExtraBits(): nat {
      match this
      case One(_) => 0
      case Again(_) => 2
      case FewZeros(_) => 3
      case ManyZeros(_) => 7
    }

    function Extra(): (v: nat)
      requires Valid()
    {
      match this
      case One(_) => 0
      case Again(n) => n - 3
      case FewZeros(n) => n - 3
      case ManyZeros(n) => n - 11
    }

    /** What the item adds to the lengths listed so far. */
    function Listed(lens: Lengths): (s: seq<nat>) {
      match this
      case One(len) => [len]
      case Again(n) => Repeat(Last(lens), n)
      case FewZeros(n) => Repeat(0, n)
      case ManyZeros(n) => Repeat(0, n)
    }
  }

  ghost predicate ValidRun(r: RunCode, cl: Lengths)
    requires |cl| == 19
  {
    r.Valid() && cl[r.Sym()] != 0
  }

  ghost predicate ValidRuns(runs: seq<RunCode>, cl: Lengths)
    requires |cl| == 19
  {
    forall i | 0 <= i < |runs| :: ValidRun(runs[i], cl)
  }

  function ListLengths(lens: Lengths, runs: seq<RunCode>): (r: Lengths)
    ensures lens <= r
    decreases |runs|
  {
    if runs == [] then lens else ListLengths(lens + runs[0].Listed(lens), runs[1..])
  }

  function RunBits(r: RunCode, cl: Lengths): seq<Bit>
    requires |cl| == 19 && r.Valid() && cl[r.Sym()] != 0
  {
    SymbolBits(cl, r.Sym()) + NumBits(r.Extra(), r.ExtraBits())
  }

  ghost function RunsBits(runs: seq<RunCode>, cl: Lengths): seq<Bit>
    requires |cl| == 19 && ValidRuns(runs, cl)
  {
    if runs == [] then [] else RunBits(runs[0], cl) + RunsBits(runs[1..], cl)
  }

  lemma ExtraFits(r: RunCode, k: nat)
    requires r.Valid() && k == r.ExtraBits()
    ensures r.Extra() < Pow2(k)
  {
    if r.Again? {
      assert Pow2(k - 1) == 2;
    } else if r.FewZeros? {
      assert Pow2(k - 2) == 2;
      assert Pow2(k - 1) == 4;
    } else if r.ManyZeros? {
      Pow2Add(3, k - 3);
      assert Pow2(k - 5) == 4;
      assert Pow2(k - 4) == 8;
      assert Pow2(k - 3) == 16;
    }
  }

  /** A written run is read as that run. */
  lemma RunOnWire(dat: seq<Byte>, p: nat, r: RunCode, cl: Lengths, clb: nat, lens: Lengths)
    requires |cl| == 19 && ValidLengths(cl, clb) && Kraft(cl, clb) && ValidRun(r, cl)
    requires Wire(dat, p, RunBits(r, cl))
    ensures Symbol(dat, p, cl, clb) == 16 * r.Sym() + cl[r.Sym()]
    ensures
      var run := ReadRun(dat, p + cl[r.Sym()], r.Sym(), Last(lens));
      run.next == p + |RunBits(r, cl)| && Repeat(run.value, run.count) == r.Listed(lens)
  {
    ExtraFits(r, r.ExtraBits());
    WireSymbolExtra(dat, p, cl, clb, r.Sym(), r.Extra(), r.ExtraBits(), p + cl[r.Sym()]);
    assert r.One? ==> Repeat(r.len, 1) == [r.len];
  }

  lemma ReadLengthsStep(dat: seq<Byte>, p: nat, r: RunCode, cl: Lengths, clb: nat, total: nat, lens: Lengths,
                        q: nat)
    requires |cl| == 19 && ValidLengths(cl, clb) && Kraft(cl, clb) && ValidRun(r, cl)
    requires Wire(dat, p, RunBits(r, cl)) && |lens| < total && q == p + |RunBits(r, cl)|
    requires forall i | 0 <= i < |lens| :: lens[i] <= 15
    ensures forall i | 0 <= i < |lens + r.Listed(lens)| :: (lens + r.Listed(lens))[i] <= 15
    ensures ReadLengths(dat, p, cl, clb, total, lens)
         == ReadLengths(dat, q, cl, clb, total, lens + r.Listed(lens))
  {
    RunOnWire(dat, p, r, cl, clb, lens);
    EntrySplit(r.Sym(), cl[r.Sym()]);
  }

  /** Reading the list of code lengths gives the list that was written. */
  lemma {:induction false} RunsOnWire(dat: seq<Byte>, p: nat, runs: seq<RunCode>, cl: Lengths, clb: nat,
                                      total: nat, lens: Lengths, next: nat)
    requires |cl| == 19 && ValidLengths(cl, clb) && Kraft(cl, clb) && ValidRuns(runs, cl)
    requires Wire(dat, p, RunsBits(runs, cl)) && |ListLengths(lens, runs)| == total
    requires (forall i | 0 <= i < |lens| :: lens[i] <= 15) && next == p + |RunsBits(runs, cl)|
    ensures ReadLengths(dat, p, cl, clb, total, lens) == (ListLengths(lens, runs), next)
    decreases |runs|
  {
    if runs == [] {
      assert lens[..total] == lens;
    } else {
      var r, rest := runs[0], runs[1..];
      var q := p + |RunBits(r, cl)|;
      assert ValidRun(r, cl);
      WireSplitAt(dat, p, RunBits(r, cl), RunsBits(rest, cl), q);
      ReadLengthsStep(dat, p, r, cl, clb, total, lens, q);
      RunsOnWire(dat, q, rest, cl, clb, total, lens + r.Listed(lens), next);
    }
  }

  // ----- the lengths of the code-length codes -----

  /** The first `n` lengths in the order of the format, three bits each. */
  function OrderBits(cl: Lengths, n: nat): (s: seq<Bit>)
    requires |cl| == 19 && n <= 19
    ensures |s| == 3 * n
  {
    if n == 0 then [] else OrderBits(cl, n - 1) + NumBits(cl[OrderAt(n - 1)], 3)
  }

  /** The place of symbol `v` in the order of the format. */
  function PlaceOf(v: nat): (k: nat)
    requires v < 19
    ensures k < 19 && OrderAt(k) == v
  {
    if v >= 16 then v - 16 else if v == 0 then 3 else if v >= 8 then 2 * v - 12 else 19 - 2 * v
  }

  lemma OrderIsInjective(j: nat, k: nat)
    requires j < 19 && k < 19 && OrderAt(j) == OrderAt(k)
    ensures j == k
  {
  }

  lemma {:induction false} OrderOnWire(dat: seq<Byte>, p: nat, cl: Lengths, n: nat, k: nat)
    requires |cl| == 19 && (forall i | 0 <= i < 19 :: cl[i] < 8)
    requires n <= 19 && Wire(dat, p, OrderBits(cl, n)) && k < 19
    ensures CodeLengthLengths(dat, p, n)[OrderAt(k)] == if k < n then cl[OrderAt(k)] else 0
  {
    if n > 0 {
      OrderOnWire1(dat, p, cl, n - 1, 3);
      OrderOnWire(dat, p, cl, n - 1, k);
      if OrderAt(k) == OrderAt(n - 1) { OrderIsInjective(k, n - 1); }
    }
  }

  lemma OrderOnWire1(dat: seq<Byte>, p: nat, cl: Lengths, n: nat, three: nat)
    requires |cl| == 19 && (forall i | 0 <= i < 19 :: cl[i] < 8) && three == 3
    requires n < 19 && Wire(dat, p, OrderBits(cl, n) + NumBits(cl[OrderAt(n)], three))
    ensures Wire(dat, p, OrderBits(cl, n)) && Peek(dat, p + 3 * n, three) == cl[OrderAt(n)]
  {
    var q := p + 3 * n;
    WireSplitAt(dat, p, OrderBits(cl, n), NumBits(cl[OrderAt(n)], three), q);
    ThreeBits(three);
    WireNum(dat, q, cl[OrderAt(n)], three);
  }

  lemma ThreeBits(k: nat)
    requires k == 3
    ensures Pow2(k) == 8
  {
    assert Pow2(k - 1) == 4;
  }

  lemma CodeLengthsOnWire(dat: seq<Byte>, p: nat, cl: Lengths, n: nat)
    requires |cl| == 19 && (forall i | 0 <= i < 19 :: cl[i] < 8)
    requires n <= 19 && (forall k | n <= k < 19 :: cl[OrderAt(k)] == 0)
    requires Wire(dat, p, OrderBits(cl, n))
    ensures CodeLengthLengths(dat, p, n) == cl
  {
    var read := CodeLengthLengths(dat, p, n);
    forall v: nat | v < 19 ensures read[v] == cl[v] {
      OrderOnWire(dat, p, cl, n, PlaceOf(v));
    }
  }

  // ----- the header as a whole -----

  datatype Announced = Announced(hLit: nat, hcLen: nat, cl: Lengths, runs: seq<RunCode>)
  {
    /** The code lengths that are announced. */
    function Lens(): Lengths { ListLengths([], runs) }
  }

  ghost predicate ValidAnnounced(h: Announced) {
    && |h.cl| == 19 && (forall i | 0 <= i < 19 :: h.cl[i] < 8)
    && 4 <= h.hcLen <= 19 && (forall k | h.hcLen <= k < 19 :: h.cl[OrderAt(k)] == 0)
    && Kraft(h.cl, Max(h.cl)) && ValidRuns(h.runs, h.cl)
    && 257 <= h.hLit <= 288 && h.hLit < |h.Lens()| <= h.hLit + 32
    && (forall i | 0 <= i < |h.Lens()| :: h.Lens()[i] <= 15)
    && KraftCodes(HeaderCodes(h.Lens(), h.hLit))
  }

  ghost predicate KraftCodes(c: Codes)
    requires ValidCodes(c)
  {
    Kraft(c.lit, c.litBits) && Kraft(c.dist, c.distBits)
  }

  ghost function HeaderBits(h: Announced): seq<Bit>
    requires ValidAnnounced(h)
  {
    ListBits(h.hLit, |h.Lens()|, h.hcLen, h.cl, h.runs)
  }

  ghost function ListBits(hLit: nat, total: nat, hcLen: nat, cl: Lengths, runs: seq<RunCode>): seq<Bit>
    requires 257 <= hLit < total && 4 <= hcLen <= 19 && |cl| == 19 && ValidRuns(runs, cl)
  {
    SizeBits(hLit, total, hcLen) + (OrderBits(cl, hcLen) + RunsBits(runs, cl))
  }

  function SizeBits(hLit: nat, total: nat, hcLen: nat): (s: seq<Bit>)
    requires 257 <= hLit < total && 4 <= hcLen
    ensures |s| == 14
  {
    NumBits(hLit - 257, 5) + (NumBits(total - hLit - 1, 5) + NumBits(hcLen - 4, 4))
  }

  lemma SizesOnWire(dat: seq<Byte>, p: nat, hLit: nat, total: nat, hcLen: nat, five: nat)
    requires five == 5
    requires 257 <= hLit <= 288 && hLit < total <= hLit + 32 && 4 <= hcLen <= 19
    requires Wire(dat, p, SizeBits(hLit, total, hcLen))
    ensures Peek(dat, p, five) == hLit - 257 && Peek(dat, p + 5, five) == total - hLit - 1
    ensures Peek(dat, p + 10, five - 1) == hcLen - 4
  {
    SmallPowers(five);
    ThreeNumbers(dat, p, hLit - 257, total - hLit - 1, hcLen - 4, five, five - 1, p + 5, p + 10);
  }

  lemma ThreeNumbers(dat: seq<Byte>, p: nat, u: nat, v: nat, w: nat, k: nat, l: nat, q: nat, r: nat)
    requires u < Pow2(k) && v < Pow2(k) && w < Pow2(l) && q == p + k && r == q + k
    requires Wire(dat, p, NumBits(u, k) + (NumBits(v, k) + NumBits(w, l)))
    ensures Peek(dat, p, k) == u && Peek(dat, q, k) == v && Peek(dat, r, l) == w
  {
    WireSplitAt(dat, p, NumBits(u, k), NumBits(v, k) + NumBits(w, l), q);
    WireSplitAt(dat, q, NumBits(v, k), NumBits(w, l), r);
    WireNum(dat, p, u, k);
    WireNum(dat, q, v, k);
    WireNum(dat, r, w, l);
  }

  lemma SmallPowers(five: nat)
    requires five == 5
    ensures Pow2(five) == 32 && Pow2(five - 1) == 16
  {
    assert Pow2(five - 3) == 4;
    assert Pow2(five - 2) == 8;
  }

  /** The three parts of a written header. */
  lemma HeaderPieces(dat: seq<Byte>, p: nat, hLit: nat, total: nat, hcLen: nat, cl: Lengths, runs: seq<RunCode>,
                     q: nat, s: nat)
    requires 257 <= hLit < total && 4 <= hcLen <= 19 && |cl| == 19 && ValidRuns(runs, cl)
    requires Wire(dat, p, ListBits(hLit, total, hcLen, cl, runs)) && q == p + 14 && s == q + 3 * hcLen
    ensures Wire(dat, p, SizeBits(hLit, total, hcLen))
    ensures Wire(dat, q, OrderBits(cl, hcLen))
    ensures Wire(dat, s, RunsBits(runs, cl))
    ensures p + |ListBits(hLit, total, hcLen, cl, runs)| == s + |RunsBits(runs, cl)|
  {
    var a, b, c := SizeBits(hLit, total, hcLen), OrderBits(cl, hcLen), RunsBits(runs, cl);
    WireSplitAt(dat, p, a, b + c, q);
    WireSplitAt(dat, q, b, c, s);
  }

  lemma ListOnWire(dat: seq<Byte>, p: nat, hLit: nat, hcLen: nat, cl: Lengths, runs: seq<RunCode>, lens: Lengths,
                   q: nat)
    returns (h: Header)
    requires |cl| == 19 && (forall i | 0 <= i < 19 :: cl[i] < 8)
    requires hcLen <= 19 && (forall k | hcLen <= k < 19 :: cl[OrderAt(k)] == 0)
    requires Kraft(cl, Max(cl)) && ValidRuns(runs, cl) && lens == ListLengths([], runs)
    requires Wire(dat, p, OrderBits(cl, hcLen)) && q == p + 3 * hcLen && Wire(dat, q, RunsBits(runs, cl))
    ensures h == ListedLengths(dat, p, hLit, |lens|, hcLen)
    ensures h.lens == lens && h.hLit == hLit && h.next == q + |RunsBits(runs, cl)|
  {
    var next := q + |RunsBits(runs, cl)|;
    CodeLengthsOnWire(dat, p, cl, hcLen);
    RunsOnWire(dat, q, runs, cl, Max(cl), |lens|, [], next);
    h := Listed(dat, p, hLit, hcLen, cl, q, lens, next);
  }

  lemma Listed(dat: seq<Byte>, p: nat, hLit: nat, hcLen: nat, cl: Lengths, q: nat, lens: Lengths, next: nat)
    returns (h: Header)
    requires hcLen <= 19 && CodeLengthLengths(dat, p, hcLen) == cl && q == p + 3 * hcLen
    requires ValidLengths(cl, Max(cl)) && ReadLengths(dat, q, cl, Max(cl), |lens|, []) == (lens, next)
    ensures h == ListedLengths(dat, p, hLit, |lens|, hcLen) && h == Header(lens, hLit, next)
  {
    h := Header(lens, hLit, next);
  }

  lemma HeaderFrom(dat: seq<Byte>, p: nat, hLit: nat, total: nat, hcLen: nat, five: nat, q: nat)
    requires five == 5 && 257 <= hLit <= 288 && hLit < total <= hLit + 32 && 4 <= hcLen <= 19
    requires Wire(dat, p, SizeBits(hLit, total, hcLen)) && q == p + 14
    ensures ReadHeader(dat, p) == ListedLengths(dat, q, hLit, total, hcLen)
  {
    SizesOnWire(dat, p, hLit, total, hcLen, five);
    HeaderOfSizes(dat, p, hLit, total, hcLen, q);
  }

  /** Reading a written header gives the code lengths it announces. */
  lemma HeaderOnWire(dat: seq<Byte>, p: nat, h: Announced, lens: Lengths, next: nat) returns (head: Header)
    requires |h.cl| == 19 && (forall i | 0 <= i < 19 :: h.cl[i] < 8)
    requires 4 <= h.hcLen <= 19 && (forall k | h.hcLen <= k < 19 :: h.cl[OrderAt(k)] == 0)
    requires Kraft(h.cl, Max(h.cl)) && ValidRuns(h.runs, h.cl) && lens == h.Lens()
    requires 257 <= h.hLit <= 288 && h.hLit < |lens| <= h.hLit + 32
    requires Wire(dat, p, ListBits(h.hLit, |lens|, h.hcLen, h.cl, h.runs))
    requires next == p + |ListBits(h.hLit, |lens|, h.hcLen, h.cl, h.runs)|
    ensures head == ReadHeader(dat, p) && head == Header(lens, h.hLit, next)
  {
    var q := p + 14;
    var s := q + 3 * h.hcLen;
    HeaderPieces(dat, p, h.hLit, |lens|, h.hcLen, h.cl, h.runs, q, s);
    HeaderFrom(dat, p, h.hLit, |lens|, h.hcLen, 5, q);
    head := ListOnWire(dat, q, h.hLit, h.hcLen, h.cl, h.runs, lens, s);
  }

  // ----- stored bytes -----

  /** The bits that fill up a byte; a reader ignores them. */
  function PadBits(p: nat, pad: seq<Bit>): (s: seq<Bit>)
    ensures (p + |s|) % 8 == 0 && (p + |s|) / 8 == (p + 7) / 8
  {
    seq((8 - p % 8) % 8, j => if 0 <= j < |pad| then pad[j] else 0)
  }

  function BytesBits(bytes: seq<Byte>): (s: seq<Bit>)
    ensures |s| == 8 * |bytes|
  {
    if bytes == [] then [] else NumBits(bytes[0], 8) + BytesBits(bytes[1..])
  }

  lemma PeekByte(dat: seq<Byte>, o: nat, eight: nat)
    requires eight == 8
    ensures Peek(dat, 8 * o, eight) == At(dat, o)
  {
    ByteBound(eight);
    LowSmall(At(dat, o), eight);
    forall j: nat | 0 <= j < eight ensures BitOf(At(dat, o), j) == BitAt(dat, 8 * o + (j - 0)) {
      assert (8 * o + j) / 8 == o && (8 * o + j) % 8 == j;
    }
    LowOfShift(dat, 8 * o, At(dat, o), 0, eight);
  }

  lemma {:induction false} PeekSplit(dat: seq<Byte>, p: nat, a: nat, b: nat)
    ensures Peek(dat, p, a + b) == Peek(dat, p, a) + Peek(dat, p + a, b) * Pow2(a)
    decreases a
  {
    if a > 0 {
      PeekSplit(dat, p + 1, a - 1, b);
      TwiceMul(Peek(dat, p + a, b), Pow2(a - 1));
    }
  }

  lemma PeekWord(dat: seq<Byte>, o: nat, eight: nat)
    requires eight == 8
    ensures Peek(dat, 8 * o, eight + eight) == At(dat, o) + 256 * At(dat, o + 1)
  {
    PeekByte(dat, o, eight);
    PeekByte(dat, o + 1, eight);
    ByteBound(eight);
    PeekSplit(dat, 8 * o, eight, eight);
  }

  lemma {:induction false} BytesOnWire(dat: seq<Byte>, o: nat, bytes: seq<Byte>)
    requires Wire(dat, 8 * o, BytesBits(bytes))
    ensures o + |bytes| <= |dat| && dat[o..o + |bytes|] == bytes
    decreases |bytes|
  {
    if bytes != [] {
      WireSplit(dat, 8 * o, NumBits(bytes[0], 8), BytesBits(bytes[1..]));
      BytesOnWire(dat, o + 1, bytes[1..]);
      ByteBound(8);
      WireNum(dat, 8 * o, bytes[0], 8);
      PeekByte(dat, o, 8);
    }
  }

  function StoredBits(p: nat, pad: seq<Bit>, bytes: seq<Byte>): seq<Bit>
    requires |bytes| < 65536
  {
    PadBits(p, pad) + (NumBits(|bytes|, 16) + (NumBits(65535 - |bytes|, 16) + BytesBits(bytes)))
  }

  /** The length and the bytes of a written stored block, `o` being its first full byte. */
  lemma StoredPieces(dat: seq<Byte>, p: nat, pad: seq<Bit>, bytes: seq<Byte>, o: nat, sixteen: nat)
    requires |bytes| < 65536 && Wire(dat, p, StoredBits(p, pad, bytes))
    requires o == (p + 7) / 8 && sixteen == 16
    ensures Wire(dat, 8 * o, NumBits(|bytes|, sixteen)) && Wire(dat, 8 * (o + 4), BytesBits(bytes))
    ensures p + |StoredBits(p, pad, bytes)| == 8 * (o + 4 + |bytes|)
  {
    var a, b := PadBits(p, pad), NumBits(|bytes|, sixteen);
    var c, d := NumBits(65535 - |bytes|, sixteen), BytesBits(bytes);
    WireSplit(dat, p, a, b + (c + d));
    WireSplit(dat, p + |a|, b, c + d);
    WireSplit(dat, p + |a| + 16, c, d);
  }

  lemma StoredOnWire(dat: seq<Byte>, p: nat, pad: seq<Bit>, bytes: seq<Byte>, out: seq<Byte>, cap: nat,
                     next: nat)
    requires |bytes| < 65536 && Wire(dat, p, StoredBits(p, pad, bytes))
    requires next == p + |StoredBits(p, pad, bytes)|
    ensures StoredBlock(dat, p, out, cap) == Outcome(Stored(pad, bytes), out, cap, next)
  {
    var o, sixteen := (p + 7) / 8, 16;
    StoredPieces(dat, p, pad, bytes, o, sixteen);
    var s := o + 4;
    BytesOnWire(dat, s, bytes);
    StoredLength(dat, o, |bytes|, 8);
    StoredRead(dat, p, bytes, out, cap, o, s, next);
  }

  lemma StoredRead(dat: seq<Byte>, p: nat, bytes: seq<Byte>, out: seq<Byte>, cap: nat, o: nat, s: nat,
                   next: nat)
    requires o == (p + 7) / 8 && s == o + 4 && next == 8 * (s + |bytes|)
    requires At(dat, o) + 256 * At(dat, o + 1) == |bytes|
    requires s + |bytes| <= |dat| && dat[s..s + |bytes|] == bytes
    ensures StoredBlock(dat, p, out, cap) ==
      if |out| + |bytes| > cap then Err(BufferOverrun) else Ok((next, out + bytes))
  {
  }

  lemma StoredLength(dat: seq<Byte>, o: nat, n: nat, eight: nat)
    requires eight == 8 && n < 65536 && Wire(dat, 8 * o, NumBits(n, 2 * eight))
    ensures At(dat, o) + 256 * At(dat, o + 1) == n
  {
    ByteBound(eight);
    Pow2Add(eight, eight);
    WireNum(dat, 8 * o, n, 2 * eight);
    PeekWord(dat, o, eight);
  }

  // ----- blocks -----

  datatype BlockData =
    | Stored(pad: seq<Bit>, bytes: seq<Byte>)
    | Fixed(tokens: seq<Token>)
    | Dynamic(header: Announced, tokens: seq<Token>)

  ghost predicate ValidBlock(b: BlockData) {
    match b
    case Stored(_, bytes) => |bytes| < 65536
    case Fixed(ts) => ValidTokens(ts, FixedCodes())
    case Dynamic(h, ts) => ValidAnnounced(h) && ValidTokens(ts, HeaderCodes(h.Lens(), h.hLit))
  }

  /** The data of a block, after `out`. */
  ghost function ExpandBlock(out: seq<Byte>, b: BlockData): seq<Byte>
    requires ValidBlock(b)
  {
    match b
    case Stored(_, bytes) => out + bytes
    case Fixed(ts) => Expand(out, ts)
    case Dynamic(_, ts) => Expand(out, ts)
  }

  /** What decoding a block that ends at `next` gives: its data, unless they are stored
      bytes for which the buffer has no room. */
  ghost function Outcome(b: BlockData, out: seq<Byte>, cap: nat, next: nat): Result<(nat, seq<Byte>)>
    requires ValidBlock(b)
  {
    if b.Stored? && |out| + |b.bytes| > cap then Err(BufferOverrun) else Ok((next, ExpandBlock(out, b)))
  }

  function Kind(b: BlockData): nat {
    match b case Stored(_, _) => 0 case Fixed(_) => 1 case Dynamic(_, _) => 2
  }

  ghost function BodyBits(p: nat, b: BlockData): seq<Bit>
    requires ValidBlock(b)
  {
    match b
    case Stored(pad, bytes) => StoredBits(p, pad, bytes)
    case Fixed(ts) => TokensBits(ts, FixedCodes())
    case Dynamic(h, ts) => HeaderBits(h) + TokensBits(ts, HeaderCodes(h.Lens(), h.hLit))
  }

  /** A block that starts at bit `p`; `last` marks the final one (section 3.2.3). */
  ghost function BlockBits(p: nat, b: BlockData, last: Bit): seq<Bit>
    requires ValidBlock(b)
  {
    (NumBits(last, 1) + NumBits(Kind(b), 2)) + BodyBits(p + 3, b)
  }

  lemma {:induction false} FixedLeaves(n: nat)
    requires n <= 288
    ensures Leaves(FixedLiterals(), 9, n) ==
      if n <= 144 then 2 * n else if n <= 256 then 144 + n else if n <= 280 then 4 * n - 624 else 2 * n - 64
  {
    if n > 0 {
      FixedLeaves(n - 1);
      var len := FixedLiterals()[n - 1];
      assert Pow2(9 - len) == if len == 7 then 4 else if len == 8 then 2 else 1 by {
        assert Pow2(2) == 4 && Pow2(1) == 2;
      }
    }
  }

  lemma {:induction false} FixedDistanceLeaves(n: nat)
    requires n <= 32
    ensures Leaves(FixedDistances(), 5, n) == n
  {
    if n > 0 { FixedDistanceLeaves(n - 1); }
  }

  /** The fixed codes use up the code space exactly. */
  lemma FixedKraft()
    ensures KraftCodes(FixedCodes())
  {
    FixedLeaves(288);
    FixedDistanceLeaves(32);
    SmallPowers(5);
    Pow2Add(5, 4);
  }

  // What decides the kind of a block, stated for the outcome `r` of its contents.

  lemma StoredKind(dat: seq<Byte>, p: nat, out: seq<Byte>, cap: nat, r: Result<(nat, seq<Byte>)>)
    requires p <= 8 * |dat| && Peek(dat, p + 1, 2) == 0 && r == StoredBlock(dat, p + 3, out, cap)
    ensures Block(dat, p, out, cap) == r
  {
  }

  lemma FixedKind(dat: seq<Byte>, p: nat, out: seq<Byte>, cap: nat, r: Result<(nat, seq<Byte>)>)
    requires p <= 8 * |dat| && Peek(dat, p + 1, 2) == 1 && r == CodedBlock(dat, FixedCodes(), p + 3, out)
    ensures Block(dat, p, out, cap) == r
  {
  }

  lemma DynamicKind(dat: seq<Byte>, p: nat, out: seq<Byte>, cap: nat, h: Header, r: Result<(nat, seq<Byte>)>)
    requires p <= 8 * |dat| && Peek(dat, p + 1, 2) == 2 && h == ReadHeader(dat, p + 3)
    requires r == CodedBlock(dat, HeaderCodes(h.lens, h.hLit), h.next, out)
    ensures Block(dat, p, out, cap) == r
  {
  }

  lemma CodedOnWire(dat: seq<Byte>, p: nat, ts: seq<Token>, c: Codes, out: seq<Byte>, next: nat)
    returns (r: Result<(nat, seq<Byte>)>)
    requires ValidCodes(c) && KraftCodes(c) && ValidTokens(ts, c) && Wire(dat, p, TokensBits(ts, c))
    requires next == p + |TokensBits(ts, c)|
    ensures r == CodedBlock(dat, c, p, out)
    ensures r == Ok((next, Expand(out, ts)))
  {
    TokensOnWire(dat, p, ts, c, out, next);
    r := Ok((next, Expand(out, ts)));
  }

  lemma AnnouncedOnWire(dat: seq<Byte>, p: nat, h: Announced, next: nat) returns (head: Header)
    requires ValidAnnounced(h) && Wire(dat, p, HeaderBits(h)) && next == p + |HeaderBits(h)|
    ensures head == ReadHeader(dat, p) && head == Header(h.Lens(), h.hLit, next)
  {
    head := HeaderOnWire(dat, p, h, h.Lens(), next);
  }

  lemma DynamicOnWire(dat: seq<Byte>, p: nat, h: Announced, ts: seq<Token>, c: Codes, out: seq<Byte>, next: nat)
    returns (head: Header, r: Result<(nat, seq<Byte>)>)
    requires ValidAnnounced(h) && c == HeaderCodes(h.Lens(), h.hLit) && ValidTokens(ts, c)
    requires Wire(dat, p, HeaderBits(h) + TokensBits(ts, c))
    requires next == p + |HeaderBits(h) + TokensBits(ts, c)|
    ensures head == ReadHeader(dat, p) && head.lens == h.Lens() && head.hLit == h.hLit
    ensures r == CodedBlock(dat, c, head.next, out)
    ensures r == Ok((next, Expand(out, ts)))
  {
    var a, b := HeaderBits(h), TokensBits(ts, c);
    var mid := p + |a|;
    WireSplitAt(dat, p, a, b, mid);
    head := AnnouncedOnWire(dat, p, h, mid);
    r := CodedOnWire(dat, mid, ts, c, out, next);
  }

  /** Decoding the body of a written block gives its data. */
  lemma BodyOnWire(dat: seq<Byte>, p: nat, b: BlockData, out: seq<Byte>, cap: nat, next: nat)
    returns (r: Result<(nat, seq<Byte>)>)
    requires ValidBlock(b) && p <= 8 * |dat| && Wire(dat, p + 3, BodyBits(p + 3, b))
    requires Peek(dat, p + 1, 2) == Kind(b) && next == p + 3 + |BodyBits(p + 3, b)|
    ensures r == Block(dat, p, out, cap) && r == Outcome(b, out, cap, next)
  {
    match b
    case Stored(pad, bytes) =>
      StoredOnWire(dat, p + 3, pad, bytes, out, cap, next);
      r := Outcome(b, out, cap, next);
      StoredKind(dat, p, out, cap, r);
    case Fixed(ts) =>
      FixedKraft();
      r := CodedOnWire(dat, p + 3, ts, FixedCodes(), out, next);
      FixedKind(dat, p, out, cap, r);
    case Dynamic(h, ts) =>
      var head;
      head, r := DynamicOnWire(dat, p + 3, h, ts, HeaderCodes(h.Lens(), h.hLit), out, next);
      DynamicKind(dat, p, out, cap, head, r);
  }

  lemma MarkOnWire(dat: seq<Byte>, p: nat, last: Bit, kind: nat, one: nat)
    requires one == 1 && kind < 4 && Wire(dat, p, NumBits(last, one) + NumBits(kind, one + 1))
    ensures Peek(dat, p, one) == last && Peek(dat, p + 1, one + 1) == kind
  {
    WireSplit(dat, p, NumBits(last, one), NumBits(kind, one + 1));
    TwoAndFour(one);
    WireNum(dat, p, last, one);
    WireNum(dat, p + 1, kind, one + 1);
  }

  /** Decoding a written block gives its data. */
  lemma BlockOnWire(dat: seq<Byte>, p: nat, b: BlockData, last: Bit, out: seq<Byte>, cap: nat, next: nat)
    returns (r: Result<(nat, seq<Byte>)>)
    requires ValidBlock(b) && Wire(dat, p, BlockBits(p, b, last)) && next == p + |BlockBits(p, b, last)|
    ensures Peek(dat, p, 1) == last
    ensures r == Block(dat, p, out, cap) && r == Outcome(b, out, cap, next)
  {
    var mark := NumBits(last, 1) + NumBits(Kind(b), 2);
    assert |mark| == 3;
    WireSplitAt(dat, p, mark, BodyBits(p + 3, b), p + 3);
    MarkOnWire(dat, p, last, Kind(b), 1);
    r := BodyOnWire(dat, p, b, out, cap, next);
  }

  lemma TwoAndFour(one: nat)
    requires one == 1
    ensures Pow2(one) == 2 && Pow2(one + 1) == 4
  {
    assert Pow2(one - 1) == 1;
  }

  // ----- whole streams -----

  ghost predicate ValidBlocks(bs: seq<BlockData>) {
    bs != [] && forall i | 0 <= i < |bs| :: ValidBlock(bs[i])
  }

  /** The blocks from bit `p` on, the last one marked as final. */
  ghost function BlocksBits(p: nat, bs: seq<BlockData>): seq<Bit>
    requires ValidBlocks(bs)
    decreases |bs|
  {
    if |bs| == 1 then BlockBits(p, bs[0], 1)
    else BlockBits(p, bs[0], 0) + BlocksBits(BlockEnd(p, bs[0], 0), bs[1..])
  }

  ghost function BlockEnd(p: nat, b: BlockData, last: Bit): nat
    requires ValidBlock(b)
  {
    p + |BlockBits(p, b, last)|
  }

  /** The data of all blocks, after `out`. */
  ghost function ExpandBlocks(out: seq<Byte>, bs: seq<BlockData>): seq<Byte>
    requires ValidBlocks(bs)
    decreases |bs|
  {
    var o := ExpandBlock(out, bs[0]);
    if |bs| == 1 then o else ExpandBlocks(o, bs[1..])
  }

  /** Every stored block ends inside a buffer of `cap` bytes. */
  ghost predicate StoredFit(out: seq<Byte>, bs: seq<BlockData>, cap: nat)
    requires ValidBlocks(bs)
    decreases |bs|
  {
    && (bs[0].Stored? ==> |out| + |bs[0].bytes| <= cap)
    && (|bs| == 1 || StoredFit(ExpandBlock(out, bs[0]), bs[1..], cap))
  }

  /** What decoding the blocks gives. */
  ghost function StreamOutcome(out: seq<Byte>, bs: seq<BlockData>, cap: nat): Result<seq<Byte>>
    requires ValidBlocks(bs)
  {
    if StoredFit(out, bs, cap) then Ok(ExpandBlocks(out, bs)) else Err(BufferOverrun)
  }

  lemma LastOutcome(out: seq<Byte>, bs: seq<BlockData>, cap: nat, r: Result<(nat, seq<Byte>)>, next: nat)
    requires ValidBlocks(bs) && |bs| == 1 && r == Outcome(bs[0], out, cap, next)
    ensures StreamOutcome(out, bs, cap) == if r.Err? then Err(r.error) else Ok(r.value.1)
  {
  }

  lemma NextOutcome(out: seq<Byte>, bs: seq<BlockData>, cap: nat, r: Result<(nat, seq<Byte>)>, next: nat)
    requires ValidBlocks(bs) && |bs| > 1 && r == Outcome(bs[0], out, cap, next)
    ensures r.Ok? ==> r.value == (next, ExpandBlock(out, bs[0]))
    ensures StreamOutcome(out, bs, cap) ==
      if r.Err? then Err(r.error) else StreamOutcome(r.value.1, bs[1..], cap)
  {
  }

  lemma {:induction false} BlocksOnWire(dat: seq<Byte>, p: nat, bs: seq<BlockData>, out: seq<Byte>, cap: nat)
    requires ValidBlocks(bs) && Wire(dat, p, BlocksBits(p, bs))
    ensures Blocks(dat, p, out, cap) == StreamOutcome(out, bs, cap)
    decreases |bs|
  {
    if |bs| == 1 {
      var next := p + |BlockBits(p, bs[0], 1)|;
      var r := BlockOnWire(dat, p, bs[0], 1, out, cap, next);
      LastOutcome(out, bs, cap, r, next);
      BlocksCons(dat, p, out, cap, 1, r);
    } else {
      var next, r := FirstBlock(dat, p, bs, out, cap);
      NextOutcome(out, bs, cap, r, next);
      BlocksCons(dat, p, out, cap, 0, r);
      if r.Ok? { BlocksOnWire(dat, next, bs[1..], r.value.1, cap); }
    }
  }

  lemma FirstBlock(dat: seq<Byte>, p: nat, bs: seq<BlockData>, out: seq<Byte>, cap: nat)
    returns (next: nat, r: Result<(nat, seq<Byte>)>)
    requires ValidBlocks(bs) && |bs| > 1 && Wire(dat, p, BlocksBits(p, bs))
    ensures Peek(dat, p, 1) == 0 && r == Block(dat, p, out, cap) && r == Outcome(bs[0], out, cap, next)
    ensures Wire(dat, next, BlocksBits(next, bs[1..]))
  {
    next := BlockEnd(p, bs[0], 0);
    WireSplitAt(dat, p, BlockBits(p, bs[0], 0), BlocksBits(next, bs[1..]), next);
    r := BlockOnWire(dat, p, bs[0], 0, out, cap, next);
  }

  lemma BlocksCons(dat: seq<Byte>, p: nat, out: seq<Byte>, cap: nat, last: Bit, r: Result<(nat, seq<Byte>)>)
    requires p <= 8 * |dat| && Peek(dat, p, 1) == last && r == Block(dat, p, out, cap)
    ensures Blocks(dat, p, out, cap) ==
      if r.Err? then Err(r.error) else if last == 1 then Ok(r.value.1)
      else Blocks(dat, r.value.0, r.value.1, cap)
  {
  }

  // ----- packing bits into bytes -----

  function BitOr0(s: seq<Bit>, p: nat): Bit {
    if p < |s| then s[p] else 0
  }

  function Gather(s: seq<Bit>, p: nat, k: nat): (v: nat)
    ensures v < Pow2(k)
    decreases k, p, |s|
  {
    if k == 0 then 0 else BitOr0(s, p) + 2 * Gather(s, p + 1, k - 1)
  }

  lemma {:induction false} GatherBit(s: seq<Bit>, p: nat, k: nat, j: nat)
    requires j < k
    ensures BitOf(Gather(s, p, k), j) == BitOr0(s, p + j)
    decreases k
  {
    if j > 0 { GatherBit(s, p + 1, k - 1, j - 1); }
  }

  function PackByte(s: seq<Bit>, i: nat): (b: Byte) {
    ByteBound(8);
    Gather(s, 8 * i, 8)
  }

  /** Bits packed into bytes, lowest bit first; the last byte is filled up with 0. */
  function Pack(s: seq<Bit>): (bytes: seq<Byte>)
    ensures |bytes| == (|s| + 7) / 8
  {
    seq((|s| + 7) / 8, i requires 0 <= i => PackByte(s, i))
  }

  lemma PackedBit(s: seq<Bit>, j: nat)
    requires j < |s|
    ensures BitAt(Pack(s), j) == s[j]
  {
    var i := j / 8;
    assert Pack(s)[i] == PackByte(s, i);
    GatherBit(s, 8 * i, 8, j % 8);
  }

  lemma {:induction false} PackOnWire(s: seq<Bit>, p: nat)
    requires p <= |s|
    ensures Wire(Pack(s), p, s[p..])
    decreases |s| - p
  {
    if p < |s| {
      PackedBit(s, p);
      PackOnWire(s, p + 1);
      assert s[p..][1..] == s[p + 1..];
    }
  }

  /** A compressed stream. */
  ghost function Compressed(bs: seq<BlockData>): seq<Byte>
    requires ValidBlocks(bs)
  {
    Pack(BlocksBits(0, bs))
  }

  // ----- the round trip -----

  /** Decoding undoes encoding: bytes that begin with the written blocks decode to their
      data, cut off where the buffer ends; only a stored block that does not fit makes
      decoding fail. */
  lemma InflateUndoesEncoding(dat: seq<Byte>, bs: seq<BlockData>, cap: nat)
    requires ValidBlocks(bs) && Wire(dat, 0, BlocksBits(0, bs))
    ensures Inflated(dat, cap) ==
      if StoredFit([], bs, cap) then Ok(Clip(ExpandBlocks([], bs), cap)) else Err(BufferOverrun)
  {
    BlocksOnWire(dat, 0, bs, [], cap);
  }

  lemma {:induction false} TokensExtend(out: seq<Byte>, ts: seq<Token>)
    requires forall t | t in ts && t.Copy? :: 257 <= t.sym <= 285 && t.dsym < 30
    ensures out <= Expand(out, ts)
    decreases |ts|
  {
    if ts != [] { TokensExtend(ExpandToken(out, ts[0]), ts[1..]); }
  }

  lemma BlockExtends(out: seq<Byte>, b: BlockData)
    requires ValidBlock(b)
    ensures out <= ExpandBlock(out, b)
  {
    match b
    case Stored(_, bytes) =>
    case Fixed(ts) => TokensExtend(out, ts);
    case Dynamic(_, ts) => TokensExtend(out, ts);
  }

  lemma {:induction false} EnoughRoom(out: seq<Byte>, bs: seq<BlockData>, cap: nat)
    requires ValidBlocks(bs) && |ExpandBlocks(out, bs)| <= cap
    ensures |out| <= |ExpandBlocks(out, bs)| && StoredFit(out, bs, cap)
    decreases |bs|
  {
    BlockExtends(out, bs[0]);
    if |bs| > 1 { EnoughRoom(ExpandBlock(out, bs[0]), bs[1..], cap); }
  }

  /** With a buffer of the right size, or a larger one, the data come back exactly. */
  lemma RoundTrip(bs: seq<BlockData>, cap: nat)
    requires ValidBlocks(bs) && |ExpandBlocks([], bs)| <= cap
    ensures Inflated(Compressed(bs), cap) == Ok(ExpandBlocks([], bs))
  {
    var bits := BlocksBits(0, bs);
    PackOnWire(bits, 0);
    assert bits[0..] == bits;
    InflateUndoesEncoding(Compressed(bs), bs, cap);
    EnoughRoom([], bs, cap);
  }

  // ----- every match has a token -----

  lemma {:induction false} LengthStartClosed(m: nat)
    requires 2 <= m <= 7
    ensures LengthStart(4 * m) == 3 + Pow2(m + 1)
  {
    if m == 2 {
      ShortLengths(8);
      ThreeBits(m + 1);
    } else {
      LengthStartClosed(m - 1);
      FourLengths(4 * (m - 1), m - 2);
    }
  }

  lemma FourLengths(i: nat, x: nat)
    requires 8 <= i <= 24 && i == 4 * x + 4
    ensures LengthStart(i + 4) == LengthStart(i) + 4 * Pow2(x)
  {
    assert LengthExtra(i) == LengthExtra(i + 1) == LengthExtra(i + 2) == LengthExtra(i + 3) == x;
    assert LengthStart(i + 2) == LengthStart(i) + 2 * Pow2(x);
  }

  lemma TwoDistances(k: nat, m: nat)
    requires 2 <= m <= 14 && k == 2 * m
    ensures DistanceBase(k + 2) == DistanceBase(k) + 2 * Pow2(m - 1)
  {
    assert DistanceExtra(k) == m - 1 == DistanceExtra(k + 1);
    assert DistanceBase(k + 1) == DistanceBase(k) + Pow2(m - 1);
  }

  lemma {:induction false} DistanceBaseClosed(m: nat, k: nat)
    requires 2 <= m <= 15 && k == 2 * m
    ensures DistanceBase(k) == 1 + Pow2(m)
  {
    if m == 2 {
      assert DistanceBase(2) == 3 && DistanceBase(4) == 5;
    } else {
      DistanceBaseClosed(m - 1, k - 2);
      TwoDistances(k - 2, m - 1);
    }
  }

  lemma {:induction false} FindLength(len: nat, i: nat, n: nat) returns (k: nat)
    requires i < n && LengthStart(i) <= len < LengthStart(n)
    ensures i <= k < n && LengthStart(k) <= len < LengthStart(k + 1)
    decreases n - i
  {
    if len < LengthStart(i + 1) { k := i; } else { k := FindLength(len, i + 1, n); }
  }

  lemma {:induction false} FindDistance(d: nat, i: nat, n: nat) returns (k: nat)
    requires i < n && DistanceBase(i) <= d < DistanceBase(n)
    ensures i <= k < n && DistanceBase(k) <= d < DistanceBase(k + 1)
    decreases n - i
  {
    if d < DistanceBase(i + 1) { k := i; } else { k := FindDistance(d, i + 1, n); }
  }

  /** Every length from 3 to 258 and every distance from 1 to 32768 can be written. */
  lemma EveryMatchHasToken(len: nat, d: nat) returns (t: Token)
    requires 3 <= len <= 258 && 1 <= d <= 32768
    ensures t.Copy? && 257 <= t.sym <= 285 && t.dsym < 30
    ensures t.lx < Pow2(LengthBits(t.sym)) && t.dx < Pow2(DistanceBits(t.dsym))
    ensures TokenLength(t.sym, t.lx) == len && TokenDistance(t.dsym, t.dx) == d
  {
    LengthStartClosed(7);
    ByteBound(8);
    DistanceBaseClosed(15, 30);
    Pow2Add(8, 7);
    assert Pow2(7) == 128;
    var j := FindDistance(d, 0, 30);
    if len == 258 {
      t := Copy(285, 0, j, d - DistanceBase(j));
    } else {
      var i := FindLength(len, 0, 28);
      t := Copy(257 + i, len - LengthStart(i), j, d - DistanceBase(j));
    }
  }
}
