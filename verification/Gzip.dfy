/** Unpacking a gzip member (RFC 1952) whole, as the worker does with the search index: it skips
    the header, takes the size from the last four bytes and inflates what is between. */
module Gzip {
  import opened Basics
  import opened Bits
  import opened Deflate
  import opened Inflate
  import opened DeflateEncoding

  datatype Unpacked = Bytes(bytes: seq<Byte>) | NotGzip | Broken(error: Error)

  // ----- skipping the header -----

  /** `flg & 4` and the like. */
  predicate Flag(d: seq<Byte>, k: nat) {
    BitOf(At(d, 3), k) == 1
  }

  function One(b: bool): nat {
    if b then 1 else 0
  }

  /** Where the extra field ends. The addition comes before the combination with the low
      byte of the length. */
  function ExtraEnd(d: seq<Byte>): nat {
    if Flag(d, 2) then 10 + Or(At(d, 10), Shl(At(d, 11), 8) + 2) else 10
  }

  /** Past that many zero bytes from `st` on; past the end every byte counts as zero. */
  function SkipZeros(d: seq<Byte>, st: nat, zs: nat): nat
    decreases zs + if st < |d| then |d| - st else 0
  {
    if zs == 0 then st else SkipZeros(d, st + 1, if At(d, st) == 0 then zs - 1 else zs)
  }

  function HeaderEnd(d: seq<Byte>): nat {
    SkipZeros(d, ExtraEnd(d), One(Flag(d, 3)) + One(Flag(d, 4))) + 2 * One(Flag(d, 1))
  }

  predicate Magic(d: seq<Byte>) {
    At(d, 0) == 31 && At(d, 1) == 139 && At(d, 2) == 8
  }

  lemma {:induction false} AndOne(a: nat, k: nat)
    ensures And(a, Pow2(k)) == BitOf(a, k) * Pow2(k)
    decreases k
  {
    if k == 0 {
      if a > 0 { AndZero(a / 2); }
    } else if a == 0 {
      ZeroBit(k);
    } else {
      AndOne(a / 2, k - 1);
      assert Pow2(k) / 2 == Pow2(k - 1) && Pow2(k) % 2 == 0;
    }
  }

  lemma FlagBits(a: nat, k1: nat, k2: nat, k3: nat, k4: nat)
    requires k1 == 1 && k2 == 2 && k3 == 3 && k4 == 4
    ensures And(a, 4) == BitOf(a, k2) * 4 && And(a, 2) == BitOf(a, k1) * 2
    ensures And(Shr(a, 3), 1) == BitOf(a, k3) && And(Shr(a, 4), 1) == BitOf(a, k4)
  {
    AndOne(a, k2);
    AndOne(a, k1);
    assert Pow2(k1) == 2 && Pow2(k2) == 4;
    AndOne(Shr(a, k3), 0);
    AndOne(Shr(a, k4), 0);
    ShrBit(a, k3, 0);
    ShrBit(a, k4, 0);
  }

  /** `gzs`. */
  method HeaderLength(d: seq<Byte>) returns (r: Option<nat>)
    ensures r == if Magic(d) then Some(HeaderEnd(d)) else None
  {
    if At(d, 0) != 31 || At(d, 1) != 139 || At(d, 2) != 8 { return None; }
    var flg := At(d, 3);
    FlagBits(flg, 1, 2, 3, 4);
    var st: nat := 10;
    if And(flg, 4) != 0 { st := st + Or(At(d, 10), Shl(At(d, 11), 8) + 2); }
    var zs: nat := And(Shr(flg, 3), 1) + And(Shr(flg, 4), 1);
    while zs > 0
      invariant SkipZeros(d, st, zs) == SkipZeros(d, ExtraEnd(d), One(Flag(d, 3)) + One(Flag(d, 4)))
      decreases zs + if st < |d| then |d| - st else 0
    {
      if At(d, st) == 0 { zs := zs - 1; }
      st := st + 1;
    }
    r := Some(st + And(flg, 2));
  }

  // ----- the headers of RFC 1952 -----

  /** A header of section 2.3: the optional parts are there when they are given. */
  datatype Header = Header(isText: bool, time: seq<Byte>, xfl: Byte, os: Byte, extra: Option<seq<Byte>>,
                           name: Option<seq<Byte>>, comment: Option<seq<Byte>>, checksum: Option<seq<Byte>>)

  predicate NoZero(s: seq<Byte>) {
    forall i | 0 <= i < |s| :: s[i] != 0
  }

  predicate ValidHeader(h: Header) {
    && |h.time| == 4
    && (h.extra.Some? ==> |h.extra.value| < 0x10000)
    && (h.name.Some? ==> NoZero(h.name.value))
    && (h.comment.Some? ==> NoZero(h.comment.value))
    && (h.checksum.Some? ==> |h.checksum.value| == 2)
  }

  function Flags(h: Header): Byte {
    One(h.isText) + 2 * One(h.checksum.Some?) + 4 * One(h.extra.Some?) + 8 * One(h.name.Some?) + 16 * One(h.comment.Some?)
  }

  function ExtraBytes(h: Header): seq<Byte>
    requires ValidHeader(h)
  {
    match h.extra
    case None => []
    case Some(x) => [|x| % 256, |x| / 256] + x
  }

  function ZeroEnded(s: Option<seq<Byte>>): seq<Byte> {
    if s.Some? then s.value + [0] else []
  }

  function List(s: Option<seq<Byte>>): seq<Byte> {
    if s.Some? then s.value else []
  }

  function HeaderBytes(h: Header): seq<Byte>
    requires ValidHeader(h)
  {
    [31, 139, 8, Flags(h)] + h.time + [h.xfl, h.os] + ExtraBytes(h) + ZeroEnded(h.name) + ZeroEnded(h.comment) + List(h.checksum)
  }

  /** The exact condition for skipping the header right: there is no extra field, or the second
      lowest bit of its length is clear, or a string after it makes up for the two bytes that
      are missing, which it does unless one of them is zero. */
  predicate Skippable(h: Header)
    requires ValidHeader(h)
  {
    h.extra.Some? ==>
      var x := h.extra.value;
      || |x| / 2 % 2 == 0
      || ((h.name.Some? || h.comment.Some?) && x[|x| - 1] != 0 && x[|x| - 2] != 0)
  }

  // ----- what is skipped -----

  lemma {:induction false} OrHigh(a: nat, b: nat, c: nat, k: nat)
    requires a < Pow2(k) && c < Pow2(k)
    ensures Or(a, b * Pow2(k) + c) == b * Pow2(k) + Or(a, c)
    decreases k
  {
    if k == 0 {
      OrZeroLeft(b);
    } else {
      var p := Pow2(k - 1);
      assert b * Pow2(k) == 2 * (b * p);
      OrHigh(a / 2, b, c / 2, k - 1);
    }
  }

  lemma {:induction false} OrZeroLeft(a: nat)
    ensures Or(0, a) == a
  {
    if a > 0 { OrZeroLeft(a / 2); }
  }

  /** The length of the extra field with its two length bytes, less 2 where it goes wrong. */
  lemma ExtraLength(low: nat, high: nat, eight: nat)
    requires low < 256 && eight == 8
    ensures Or(low, Shl(high, eight) + 2) == high * 256 + low + if low / 2 % 2 == 0 then 2 else 0
  {
    assert Pow2(eight) == 256 by { ByteBound(eight); }
    ShlMul(high, eight);
    var x := high * Pow2(eight);
    assert x == high * 256 && Shl(high, eight) == x;
    OrHigh(low, high, 2, eight);
    OrTwo(low, 2, 1);
  }

  lemma OrTwo(a: nat, two: nat, one: nat)
    requires two == 2 && one == 1
    ensures Or(a, two) == a + if a / 2 % 2 == 0 then 2 else 0
  {
    OrZero(a / 2 / 2);
    assert Or(a / 2, one) == one + 2 * Or(a / 2 / 2, 0);
    assert Or(a, two) == a % 2 + 2 * Or(a / 2, one);
  }

  lemma {:induction false} SkipsAhead(d: seq<Byte>, st: nat, zs: nat)
    ensures SkipZeros(d, st, zs) >= st + zs
    decreases zs + if st < |d| then |d| - st else 0
  {
    if zs > 0 { SkipsAhead(d, st + 1, if At(d, st) == 0 then zs - 1 else zs); }
  }

  /** Fewer zeros end earlier. */
  lemma {:induction false} SkipFewer(d: seq<Byte>, st: nat, zs: nat)
    ensures SkipZeros(d, st, zs) < SkipZeros(d, st, zs + 1)
    decreases zs + if st < |d| then |d| - st else 0
  {
    SkipsAhead(d, st, zs + 1);
    if zs > 0 { SkipFewer(d, st + 1, if At(d, st) == 0 then zs - 1 else zs); }
  }

  lemma {:induction false} SkipString(d: seq<Byte>, st: nat, s: seq<Byte>, zs: nat, end: nat)
    requires zs > 0 && end == st + |s| < |d| && d[st..end] == s && NoZero(s) && d[end] == 0
    ensures SkipZeros(d, st, zs) == SkipZeros(d, end + 1, zs - 1)
    decreases |s|
  {
    if s != [] {
      assert d[st] == s[0];
      assert d[st + 1..end] == s[1..];
      SkipString(d, st + 1, s[1..], zs, end);
    }
  }

  /** An optional string is skipped whole. */
  lemma SkipOptional(d: seq<Byte>, st: nat, s: Option<seq<Byte>>, zs: nat, end: nat)
    requires end == st + |ZeroEnded(s)| <= |d| && d[st..end] == ZeroEnded(s) && (s.Some? ==> NoZero(s.value))
    ensures SkipZeros(d, st, zs + One(s.Some?)) == SkipZeros(d, end, zs)
  {
    if s.Some? {
      assert d[end - 1] == d[st..end][end - 1 - st] == 0;
      assert d[st..end - 1] == d[st..end][..end - 1 - st] == s.value;
      SkipString(d, st, s.value, zs + 1, end - 1);
    }
  }

  /** The strings lie between these places, and nothing is between them. */
  lemma SkipStrings(d: seq<Byte>, st: nat, mid: nat, end: nat, name: Option<seq<Byte>>, comment: Option<seq<Byte>>)
    requires mid == st + |ZeroEnded(name)| && end == mid + |ZeroEnded(comment)| <= |d|
    requires d[st..mid] == ZeroEnded(name) && d[mid..end] == ZeroEnded(comment)
    requires (name.Some? ==> NoZero(name.value)) && (comment.Some? ==> NoZero(comment.value))
    ensures SkipZeros(d, st, One(name.Some?) + One(comment.Some?)) == end
  {
    SkipOptional(d, st, name, One(comment.Some?), mid);
    SkipOptional(d, mid, comment, 0, end);
  }

  /** Beginning two bytes too early comes to the same end exactly when there is something to
      skip and both bytes are not zero. */
  lemma TwoEarly(d: seq<Byte>, st: nat, zs: nat)
    requires 2 <= st <= |d|
    ensures SkipZeros(d, st - 2, zs) == SkipZeros(d, st, zs) <==> zs > 0 && d[st - 2] != 0 && d[st - 1] != 0
    ensures SkipZeros(d, st - 2, zs) <= SkipZeros(d, st, zs)
  {
    SkipsAhead(d, st, zs);
    if zs > 0 {
      var z1 := if d[st - 2] == 0 then zs - 1 else zs;
      assert SkipZeros(d, st - 2, zs) == SkipZeros(d, st - 1, z1);
      SkipFewer(d, st, zs - 1);
      if z1 > 0 {
        var z2 := if d[st - 1] == 0 then z1 - 1 else z1;
        assert SkipZeros(d, st - 1, z1) == SkipZeros(d, st, z2);
        if zs > 1 { SkipFewer(d, st, zs - 2); }
      }
    }
  }

  lemma BitAbove(b: nat, m: nat, n: nat, k: nat)
    requires b < 2 && n == b + 2 * m && k > 0
    ensures BitOf(n, k) == BitOf(m, k - 1)
  {
    assert n / 2 == m;
  }

  lemma FlagsBits(h: Header, k1: nat, k2: nat, k3: nat, k4: nat)
    requires k1 == 1 && k2 == 2 && k3 == 3 && k4 == 4
    ensures BitOf(Flags(h), k1) == One(h.checksum.Some?) && BitOf(Flags(h), k2) == One(h.extra.Some?)
    ensures BitOf(Flags(h), k3) == One(h.name.Some?) && BitOf(Flags(h), k4) == One(h.comment.Some?)
  {
    var b0, b1, b2, b3, b4 := One(h.isText), One(h.checksum.Some?), One(h.extra.Some?), One(h.name.Some?), One(h.comment.Some?);
    var m3 := b3 + 2 * b4;
    var m2 := b2 + 2 * m3;
    var m1 := b1 + 2 * m2;
    var flags := Flags(h);
    OneBitUp(b0, m1, flags, k1, k2, k3, k4);
    OneBitUp(b1, m2, m1, k1, k2, k3, k4);
    OneBitUp(b2, m3, m2, k1, k2, k3, k4);
    OneBitUp(b3, b4, m3, k1, k2, k3, k4);
    LowestBit(b1, m2, m1);
    LowestBit(b2, m3, m2);
    LowestBit(b3, b4, m3);
  }

  lemma LowestBit(b: nat, m: nat, n: nat)
    requires b < 2 && n == b + 2 * m
    ensures BitOf(n, 0) == b
  {
  }

  lemma OneBitUp(b: nat, m: nat, n: nat, k1: nat, k2: nat, k3: nat, k4: nat)
    requires k1 == 1 && k2 == 2 && k3 == 3 && k4 == 4 && b < 2 && n == b + 2 * m
    ensures BitOf(n, k1) == BitOf(m, 0) && BitOf(n, k2) == BitOf(m, k1)
    ensures BitOf(n, k3) == BitOf(m, k2) && BitOf(n, k4) == BitOf(m, k3)
  {
    BitAbove(b, m, n, k1);
    BitAbove(b, m, n, k2);
    BitAbove(b, m, n, k3);
    BitAbove(b, m, n, k4);
  }

  /** Where the parts of a header lie in `d`: the extra field, the strings and the checksum. */
  ghost predicate Lies(h: Header, d: seq<Byte>, st: nat, mid: nat, end: nat) {
    && ValidHeader(h) && Magic(d) && At(d, 3) == Flags(h)
    && st == 10 + |ExtraBytes(h)| && mid == st + |ZeroEnded(h.name)| && end == mid + |ZeroEnded(h.comment)|
    && end + |List(h.checksum)| == |HeaderBytes(h)| <= |d|
    && d[10..st] == ExtraBytes(h) && d[st..mid] == ZeroEnded(h.name) && d[mid..end] == ZeroEnded(h.comment)
  }

  lemma HeaderLies(h: Header, d: seq<Byte>, rest: seq<Byte>, st: nat, mid: nat, end: nat)
    requires ValidHeader(h) && d == HeaderBytes(h) + rest
    requires st == 10 + |ExtraBytes(h)| && mid == st + |ZeroEnded(h.name)| && end == mid + |ZeroEnded(h.comment)|
    ensures Lies(h, d, st, mid, end)
  {
    var fixed := [31, 139, 8, Flags(h)] + h.time + [h.xfl, h.os];
    var b, c, more := ZeroEnded(h.name), ZeroEnded(h.comment), List(h.checksum) + rest;
    assert d == fixed + ExtraBytes(h) + b + c + more;
    FivePieces(d, fixed, ExtraBytes(h), b, c, more, 10, st, mid, end);
  }

  lemma FivePieces(d: seq<Byte>, f: seq<Byte>, a: seq<Byte>, b: seq<Byte>, c: seq<Byte>, e: seq<Byte>,
                   i: nat, j: nat, k: nat, l: nat)
    requires d == f + a + b + c + e && i == |f| && j == i + |a| && k == j + |b| && l == k + |c|
    ensures l <= |d| && d[..i] == f && d[i..j] == a && d[j..k] == b && d[k..l] == c
  {
  }

  /** The header is skipped exactly, if and only if it is skippable. */
  lemma HeaderIsSkipped(h: Header, d: seq<Byte>, rest: seq<Byte>)
    requires ValidHeader(h) && d == HeaderBytes(h) + rest
    ensures Magic(d)
    ensures HeaderEnd(d) == |HeaderBytes(h)| <==> Skippable(h)
  {
    var st := 10 + |ExtraBytes(h)|;
    var mid := st + |ZeroEnded(h.name)|;
    var end := mid + |ZeroEnded(h.comment)|;
    HeaderLies(h, d, rest, st, mid, end);
    SkipHeader(h, d, st, mid, end);
  }

  lemma SkipHeader(h: Header, d: seq<Byte>, st: nat, mid: nat, end: nat)
    requires Lies(h, d, st, mid, end)
    ensures HeaderEnd(d) == |HeaderBytes(h)| <==> Skippable(h)
  {
    FlagsBits(h, 1, 2, 3, 4);
    var zs := One(h.name.Some?) + One(h.comment.Some?);
    SkipStrings(d, st, mid, end, h.name, h.comment);
    assert HeaderEnd(d) == SkipZeros(d, ExtraEnd(d), zs) + |List(h.checksum)|;
    if h.extra.Some? {
      SkipExtra(h.extra.value, d, st);
      if h.extra.value != [] && |h.extra.value| / 2 % 2 != 0 { TwoEarly(d, st, zs); }
    }
  }

  lemma SecondBit(n: nat)
    ensures n % 256 / 2 % 2 == n / 2 % 2
  {
    var q, u := n / 256, n % 256 / 2;
    assert n / 2 == 128 * q + u;
    EvenAndBit(u / 2, u % 2, u);
    EvenAndBit(64 * q + u / 2, u % 2, n / 2);
  }

  lemma EvenAndBit(k: nat, b: nat, n: nat)
    requires b < 2 && n == 2 * k + b
    ensures n % 2 == b
  {
  }

  /** The end of the extra field, or two bytes before it. */
  lemma SkipExtra(x: seq<Byte>, d: seq<Byte>, st: nat)
    requires |x| < 0x10000 && st == 12 + |x| <= |d| && Flag(d, 2)
    requires d[10..st] == [|x| % 256, |x| / 256] + x
    ensures ExtraEnd(d) == if |x| / 2 % 2 == 0 then st else st - 2
    ensures |x| / 2 % 2 != 0 ==> |x| >= 2 && d[st - 1] == x[|x| - 1] && d[st - 2] == x[|x| - 2]
  {
    var extra := d[10..st];
    assert d[10] == extra[0] == |x| % 256 && d[11] == extra[1] == |x| / 256;
    ExtraLength(d[10], d[11], 8);
    SecondBit(|x|);
    if |x| >= 2 {
      assert d[st - 1] == extra[|x| + 1] && d[st - 2] == extra[|x|];
    }
  }

  // ----- unpacking -----

  /** The byte `k` places before the end. */
  function FromEnd(d: seq<Byte>, k: nat): Byte {
    if 0 < k <= |d| then d[|d| - k] else 0
  }

  /** The number in the last four bytes, lowest byte first. */
  function LastSize(d: seq<Byte>): nat {
    FromEnd(d, 4) + 0x100 * FromEnd(d, 3) + 0x10000 * FromEnd(d, 2) + 0x1000000 * FromEnd(d, 1)
  }

  /** `data.subarray(st, -8)` */
  function Body(d: seq<Byte>, st: nat): seq<Byte> {
    if st + 8 <= |d| then d[st..|d| - 8] else []
  }

  ghost function Gunzipped(d: seq<Byte>): Unpacked {
    if !Magic(d) then NotGzip
    else
      var dat := Body(d, HeaderEnd(d));
      if dat == [] then Bytes(seq(LastSize(d), _ => 0))
      else match Inflated(dat, LastSize(d))
        case Ok(bytes) => Bytes(bytes)
        case Err(error) => Broken(error)
  }

  /** `gunzipSync(data)`, with a buffer of the size that the data announce. */
  method Gunzip(t: Tables, data: seq<Byte>) returns (r: Unpacked)
    requires ValidTables(t)
    ensures r == Gunzipped(data)
  {
    var start := HeaderLength(data);
    if start.None? { return NotGzip; }
    var buf := new Byte[LastSize(data)](_ => 0);
    assert buf[..] == seq(LastSize(data), _ => 0);
    var out := Inflate.Inflate(t, Body(data, start.value), buf);
    match out
    case Ok(bytes) => r := Bytes(bytes);
    case Err(error) => r := Broken(error);
  }

  function SizeBytes(n: nat): seq<Byte> {
    [n % 0x100, n / 0x100 % 0x100, n / 0x10000 % 0x100, n / 0x1000000 % 0x100]
  }

  /** A member of section 2.3: the header, the compressed blocks, a checksum and the size. */
  ghost function MemberBytes(h: Header, bs: seq<BlockData>, crc: seq<Byte>): seq<Byte>
    requires ValidHeader(h) && ValidBlocks(bs) && |crc| == 4
  {
    HeaderBytes(h) + Compressed(bs) + crc + SizeBytes(|ExpandBlocks([], bs)|)
  }

  /** Unpacking undoes packing, for every header that is skippable. */
  lemma GunzipUndoesPacking(h: Header, bs: seq<BlockData>, crc: seq<Byte>)
    requires ValidHeader(h) && Skippable(h) && ValidBlocks(bs) && |crc| == 4
    requires |ExpandBlocks([], bs)| < 0x1_0000_0000
    ensures Gunzipped(MemberBytes(h, bs, crc)) == Bytes(ExpandBlocks([], bs))
  {
    var data, dat := ExpandBlocks([], bs), Compressed(bs);
    var size := SizeBytes(|data|);
    RoundTrip(bs, |data|);
    CompressedIsSome(bs);
    Unpack(h, MemberBytes(h, bs, crc), dat, crc + size, size, |data|);
  }

  lemma Unpack(h: Header, d: seq<Byte>, dat: seq<Byte>, trailer: seq<Byte>, size: seq<Byte>, n: nat)
    requires ValidHeader(h) && Skippable(h) && d == HeaderBytes(h) + dat + trailer && |trailer| == 8
    requires n < 0x1_0000_0000 && size == SizeBytes(n) && trailer[4..] == size
    ensures Magic(d) && Body(d, HeaderEnd(d)) == dat && LastSize(d) == n
  {
    HeaderIsSkipped(h, d, dat + trailer) by { assert d == HeaderBytes(h) + (dat + trailer); }
    LastSizeIs(d, size, n);
  }

  lemma LastSizeIs(d: seq<Byte>, size: seq<Byte>, n: nat)
    requires n < 0x1_0000_0000 && size == SizeBytes(n) && |d| >= 4 && d[|d| - 4..] == size
    ensures LastSize(d) == n
  {
    var n1 := n / 0x100;
    var n2 := n1 / 0x100;
    assert n / 0x10000 == n2 && n / 0x1000000 == n2 / 0x100;
    assert d[|d| - 4] == size[0] && d[|d| - 3] == size[1] && d[|d| - 2] == size[2] && d[|d| - 1] == size[3];
  }

  lemma CompressedIsSome(bs: seq<BlockData>)
    requires ValidBlocks(bs)
    ensures Compressed(bs) != []
  {
  }
}