/** The text-range marker: an offset map over the text nodes of a document, which is
    consumed while ranges are wrapped in mark elements. */
module RangeMarker {
  import opened Basics

  // ----- the document -----

  /** What splitting leaves in front of a text node: plain text or a mark element. */
  datatype Piece = Plain(text: string) | Mark(text: string)

  /** An entry of the map: the text node that is still mapped, its place in the mapped
      text, and the pieces that were split off in front of it. */
  datatype MapNode = MapNode(start: int, end: int, before: seq<Piece>, text: string)

  /** A character of the document; `marked` tells whether it is inside a mark element. */
  datatype Cell = Cell(c: char, marked: bool)

  function Cells(text: string, marked: bool): (d: seq<Cell>)
    ensures |d| == |text| && forall k | 0 <= k < |d| :: d[k] == Cell(text[k], marked)
  {
    seq(|text|, k requires 0 <= k < |text| => Cell(text[k], marked))
  }

  function PieceCells(p: Piece): seq<Cell> {
    match p
    case Plain(t) => Cells(t, false)
    case Mark(t) => Cells(t, true)
  }

  function PiecesCells(ps: seq<Piece>): seq<Cell> {
    if ps == [] then [] else PiecesCells(ps[..|ps| - 1]) + PieceCells(ps[|ps| - 1])
  }

  function NodeCells(n: MapNode): seq<Cell> {
    PiecesCells(n.before) + Cells(n.text, false)
  }

  /** The document as its characters in order. */
  function Doc(ns: seq<MapNode>): seq<Cell> {
    if ns == [] then [] else Doc(ns[..|ns| - 1]) + NodeCells(ns[|ns| - 1])
  }

  /** The text that is still mapped. */
  function Live(ns: seq<MapNode>): string {
    if ns == [] then [] else Live(ns[..|ns| - 1]) + ns[|ns| - 1].text
  }

  /** The map is consistent: its value is the text of its nodes, and each node's offsets
      are those of its text. */
  ghost predicate Consistent(value: string, ns: seq<MapNode>) {
    && value == Live(ns)
    && forall i | 0 <= i < |ns| :: ns[i].start == |Live(ns[..i])| && ns[i].end == ns[i].start + |ns[i].text|
  }

  /** How much of the document is no longer mapped. */
  function Offset(ns: seq<MapNode>): int {
    |Doc(ns)| - |Live(ns)|
  }

  /** `d` with the characters from `a` up to `b` marked. */
  function MarkCells(d: seq<Cell>, a: int, b: int): (r: seq<Cell>)
    ensures |r| == |d|
  {
    seq(|d|, k requires 0 <= k < |d| => Cell(d[k].c, d[k].marked || a <= k < b))
  }

  /** The same text, with more marks. */
  ghost predicate Extends(d: seq<Cell>, e: seq<Cell>) {
    |d| == |e| && forall k | 0 <= k < |d| :: d[k].c == e[k].c && (d[k].marked ==> e[k].marked)
  }

  /** Nothing was split off the nodes that start behind `x`, so that from `x` on the map
      and the rest of the document agree. */
  ghost predicate UntouchedBehind(ns: seq<MapNode>, x: int) {
    forall j | 0 <= j < |ns| && ns[j].start > x :: ns[j].before == []
  }

  // ----- sums over nodes -----

  lemma DocSnoc(ns: seq<MapNode>, n: MapNode)
    ensures Doc(ns + [n]) == Doc(ns) + NodeCells(n) && Live(ns + [n]) == Live(ns) + n.text
  {
    assert (ns + [n])[..|ns|] == ns;
  }

  lemma Assoc<T>(x: seq<T>, y: seq<T>, z: seq<T>)
    ensures (x + y) + z == x + (y + z)
  {
  }

  lemma {:induction false} DocSplit(a: seq<MapNode>, b: seq<MapNode>)
    ensures Doc(a + b) == Doc(a) + Doc(b) && Live(a + b) == Live(a) + Live(b)
    decreases |b|
  {
    if b == [] {
      assert a + b == a;
    } else {
      var c, n := b[..|b| - 1], b[|b| - 1];
      assert b == c + [n];
      Assoc(a, c, [n]);
      DocSplit(a, c);
      DocSnoc(a + c, n);
      DocSnoc(c, n);
      Assoc(Doc(a), Doc(c), NodeCells(n));
      Assoc(Live(a), Live(c), n.text);
    }
  }

  /** Only the pieces and texts make up the document. */
  lemma {:induction false} DocSame(a: seq<MapNode>, b: seq<MapNode>)
    requires |a| == |b|
    requires forall j | 0 <= j < |a| :: a[j].before == b[j].before && a[j].text == b[j].text
    ensures Doc(a) == Doc(b) && Live(a) == Live(b)
  {
    if a != [] { DocSame(a[..|a| - 1], b[..|b| - 1]); }
  }

  lemma {:induction false} LiveFits(ns: seq<MapNode>)
    ensures |Live(ns)| <= |Doc(ns)|
  {
    if ns != [] { LiveFits(ns[..|ns| - 1]); }
  }

  lemma {:induction false} UntouchedNodes(ns: seq<MapNode>)
    requires forall j | 0 <= j < |ns| :: ns[j].before == []
    ensures |Doc(ns)| == |Live(ns)|
  {
    if ns != [] { UntouchedNodes(ns[..|ns| - 1]); }
  }

  /** Where node `i`'s mapped text lies in the document. */
  function NodePlace(ns: seq<MapNode>, i: nat): nat
    requires i < |ns|
  {
    |Doc(ns[..i])| + |PiecesCells(ns[i].before)|
  }

  lemma NodeSplit(ns: seq<MapNode>, i: nat)
    requires i < |ns|
    ensures Doc(ns) == Doc(ns[..i]) + NodeCells(ns[i]) + Doc(ns[i + 1..])
    ensures Live(ns) == Live(ns[..i]) + ns[i].text + Live(ns[i + 1..])
  {
    Slices(ns, i);
    Parts(ns, ns[..i], ns[i], ns[i + 1..]);
  }

  lemma Slices<T>(s: seq<T>, i: nat)
    requires i < |s|
    ensures s == (s[..i] + [s[i]]) + s[i + 1..]
  {
  }

  lemma Parts(ns: seq<MapNode>, a: seq<MapNode>, n: MapNode, b: seq<MapNode>)
    requires ns == (a + [n]) + b
    ensures Doc(ns) == Doc(a) + NodeCells(n) + Doc(b)
    ensures Live(ns) == Live(a) + n.text + Live(b)
  {
    DocSplit(a + [n], b);
    DocSnoc(a, n);
  }

  lemma NodeUpdate(ns: seq<MapNode>, i: nat, n: MapNode)
    requires i < |ns|
    ensures Doc(ns[i := n]) == Doc(ns[..i]) + NodeCells(n) + Doc(ns[i + 1..])
    ensures Live(ns[i := n]) == Live(ns[..i]) + n.text + Live(ns[i + 1..])
  {
    var next := ns[i := n];
    assert next == (ns[..i] + [n]) + ns[i + 1..];
    Parts(next, ns[..i], n, ns[i + 1..]);
  }

  /** With nothing split off later nodes, document and map differ by the offset. */
  lemma PlaceIsOffset(ns: seq<MapNode>, i: nat)
    requires i < |ns| && forall j | i < j < |ns| :: ns[j].before == []
    ensures NodePlace(ns, i) == |Live(ns[..i])| + Offset(ns)
  {
    NodeSplit(ns, i);
    UntouchedNodes(ns[i + 1..]);
  }

  // ----- wrapping inside one node -----

  /** A node after the part of its text from `s` to `e` was wrapped. */
  function Wrapped(n: MapNode, s: nat, e: nat): MapNode
    requires s <= e <= |n.text|
  {
    n.(before := n.before + [Plain(n.text[..s]), Mark(n.text[s..e])], text := n.text[e..])
  }

  lemma PiecesSnoc(ps: seq<Piece>, p: Piece)
    ensures PiecesCells(ps + [p]) == PiecesCells(ps) + PieceCells(p)
  {
    assert (ps + [p])[..|ps|] == ps;
  }

  lemma WrappedBefore(n: MapNode, s: nat, e: nat)
    requires s <= e <= |n.text|
    ensures PiecesCells(Wrapped(n, s, e).before) ==
            PiecesCells(n.before) + Cells(n.text[..s], false) + Cells(n.text[s..e], true)
  {
    var p, q := Plain(n.text[..s]), Mark(n.text[s..e]);
    assert n.before + [p, q] == (n.before + [p]) + [q];
    PiecesSnoc(n.before + [p], q);
    PiecesSnoc(n.before, p);
  }

  lemma NodeMarks(n: MapNode, s: nat, e: nat, a: nat, b: nat)
    requires s <= e <= |n.text| && a == |PiecesCells(n.before)| + s && b == |PiecesCells(n.before)| + e
    ensures NodeCells(Wrapped(n, s, e)) == MarkCells(NodeCells(n), a, b)
    ensures |PiecesCells(Wrapped(n, s, e).before)| == b
  {
    WrappedBefore(n, s, e);
    TextMarks(PiecesCells(n.before), n.text, s, e, a, b);
  }

  lemma TextMarks(before: seq<Cell>, t: string, s: nat, e: nat, a: nat, b: nat)
    requires s <= e <= |t| && a == |before| + s && b == |before| + e
    ensures before + Cells(t[..s], false) + Cells(t[s..e], true) + Cells(t[e..], false)
         == MarkCells(before + Cells(t, false), a, b)
  {
  }

  /** Wrapping inside node `i` marks exactly the wrapped characters. */
  lemma WrapMarks(ns: seq<MapNode>, i: nat, s: nat, e: nat, from: nat, to: nat)
    requires i < |ns| && s <= e <= |ns[i].text| && from == NodePlace(ns, i) + s && to == NodePlace(ns, i) + e
    ensures Doc(ns[i := Wrapped(ns[i], s, e)]) == MarkCells(Doc(ns), from, to)
  {
    var n := ns[i];
    var k, next := |PiecesCells(n.before)|, Wrapped(n, s, e);
    NodeSplit(ns, i);
    NodeUpdate(ns, i, next);
    NodeMarks(n, s, e, k + s, k + e);
    MarkInside(Doc(ns[..i]), NodeCells(n), NodeCells(next), Doc(ns[i + 1..]), k + s, k + e,
               Doc(ns), Doc(ns[i := next]), from, to);
  }

  lemma MarkInside(x: seq<Cell>, y: seq<Cell>, y': seq<Cell>, z: seq<Cell>, a: nat, b: nat,
                   d: seq<Cell>, d': seq<Cell>, from: nat, to: nat)
    requires a <= b <= |y| && from == |x| + a && to == |x| + b && y' == MarkCells(y, a, b)
    requires d == x + y + z && d' == x + y' + z
    ensures d' == MarkCells(d, from, to)
  {
  }

  // ----- consuming the map -----

  /** The offsets after `e` characters at the start of node `i` left the map. */
  function ShiftedNode(ns: seq<MapNode>, i: nat, e: int, j: nat): MapNode
    requires j < |ns|
  {
    if j < i then ns[j]
    else ns[j].(start := if ns[j].start > 0 && j != i then ns[j].start - e else ns[j].start, end := ns[j].end - e)
  }

  ghost predicate IsShifted(ns: seq<MapNode>, next: seq<MapNode>, i: nat, e: int) {
    |next| == |ns| && forall j: nat | j < |ns| :: next[j] == ShiftedNode(ns, i, e, j)
  }

  /** Consuming text of node `i` moves the later nodes and no others. */
  lemma {:induction false} PrefixLengths(ns: seq<MapNode>, next: seq<MapNode>, i: nat, e: nat, j: nat)
    requires i < |ns| == |next| && j <= |ns| && e <= |ns[i].text|
    requires next[i].text == ns[i].text[e..]
    requires forall k | 0 <= k < |ns| && k != i :: next[k].text == ns[k].text
    ensures |Live(next[..j])| == |Live(ns[..j])| - if i < j then e else 0
    ensures i < j ==> |Live(ns[..j])| >= |ns[i].text|
    decreases j
  {
    if j > 0 {
      var k := j - 1;
      PrefixLengths(ns, next, i, e, k);
      LivePrefix(ns, k, j);
      LivePrefix(next, k, j);
    }
  }

  lemma LivePrefix(ns: seq<MapNode>, k: nat, j: nat)
    requires j == k + 1 <= |ns|
    ensures Live(ns[..j]) == Live(ns[..k]) + ns[k].text
  {
    assert ns[..j] == ns[..k] + [ns[k]];
    DocSnoc(ns[..k], ns[k]);
  }

  lemma CutMiddle(x: string, t: string, z: string, e: nat, start: int, value: string)
    requires e <= |t| && start == |x| && value == x + t + z
    ensures 0 <= start && start + e <= |value|
    ensures value[..start] + value[start + e..] == x + t[e..] + z
  {
  }

  lemma ConsumeValue(value: string, ns: seq<MapNode>, i: nat, s: nat, e: nat, next: seq<MapNode>)
    requires Consistent(value, ns) && i < |ns| && s < e <= |ns[i].text|
    requires IsShifted(ns[i := Wrapped(ns[i], s, e)], next, i, e)
    ensures 0 <= ns[i].start && ns[i].start + e <= |value|
    ensures value[..ns[i].start] + value[ns[i].start + e..] == Live(next)
  {
    var wrapped := ns[i := Wrapped(ns[i], s, e)];
    ShiftSame(wrapped, next, i, e);
    WrappedLive(value, ns, i, s, e, wrapped, Live(wrapped));
  }

  lemma ShiftSame(ns: seq<MapNode>, next: seq<MapNode>, i: nat, e: int)
    requires IsShifted(ns, next, i, e)
    ensures Doc(next) == Doc(ns) && Live(next) == Live(ns)
  {
    forall j | 0 <= j < |ns| ensures next[j].before == ns[j].before && next[j].text == ns[j].text {
      assert next[j] == ShiftedNode(ns, i, e, j);
    }
    DocSame(next, ns);
  }

  lemma WrappedLive(value: string, ns: seq<MapNode>, i: nat, s: nat, e: nat, wrapped: seq<MapNode>, live: string)
    requires i < |ns| && s < e <= |ns[i].text| && ns[i].start == |Live(ns[..i])| && value == Live(ns)
    requires wrapped == ns[i := Wrapped(ns[i], s, e)] && live == Live(wrapped)
    ensures 0 <= ns[i].start && ns[i].start + e <= |value|
    ensures value[..ns[i].start] + value[ns[i].start + e..] == live
  {
    var n, t := Wrapped(ns[i], s, e), ns[i].text;
    var x, z := Live(ns[..i]), Live(ns[i + 1..]);
    assert n.text == t[e..];
    assert value == x + t + z by { NodeSplit(ns, i); }
    assert live == x + t[e..] + z by { NodeUpdate(ns, i, n); }
    CutMiddle(x, t, z, e, ns[i].start, value);
  }

  lemma ConsumeOffsets(value: string, ns: seq<MapNode>, i: nat, s: nat, e: nat, next: seq<MapNode>, j: nat)
    requires Consistent(value, ns) && i < |ns| && s < e <= |ns[i].text| && j < |ns|
    requires IsShifted(ns[i := Wrapped(ns[i], s, e)], next, i, e)
    ensures next[j].start == |Live(next[..j])| && next[j].end == next[j].start + |next[j].text|
  {
    var wrapped := ns[i := Wrapped(ns[i], s, e)];
    assert next[j] == ShiftedNode(wrapped, i, e, j);
    forall k | 0 <= k < |ns| ensures next[k].text == wrapped[k].text {
      assert next[k] == ShiftedNode(wrapped, i, e, k);
    }
    PrefixLengths(ns, next, i, e, j);
  }

  /** What wrapping in node `i` and consuming make of the map is consistent again. */
  lemma ConsumeConsistent(value: string, ns: seq<MapNode>, i: nat, s: nat, e: nat, next: seq<MapNode>)
    requires Consistent(value, ns) && i < |ns| && s < e <= |ns[i].text|
    requires IsShifted(ns[i := Wrapped(ns[i], s, e)], next, i, e)
    ensures 0 <= ns[i].start && ns[i].start + e <= |value|
    ensures Consistent(value[..ns[i].start] + value[ns[i].start + e..], next)
  {
    ConsumeValue(value, ns, i, s, e, next);
    forall j | 0 <= j < |next|
      ensures next[j].start == |Live(next[..j])| && next[j].end == next[j].start + |next[j].text|
    {
      ConsumeOffsets(value, ns, i, s, e, next, j);
    }
  }

  /** Node `i`'s text from `s` to `e` was marked, and what is up to `e` was taken off the map. */
  ghost predicate IsConsumed(value: string, ns: seq<MapNode>, i: nat, s: nat, e: nat, from: int, to: int,
                             value': string, next: seq<MapNode>)
    requires i < |ns|
  {
    && s < e <= |ns[i].text| && |value'| == |value| - e
    && IsShifted(ns[i := Wrapped(ns[i], s, e)], next, i, e)
    && Consistent(value', next)
    && Doc(next) == MarkCells(Doc(ns), from, to)
  }

  lemma LiveSplit(value: string, ns: seq<MapNode>, i: nat, s: nat, e: nat)
    requires Consistent(value, ns) && i < |ns| && s < e <= |ns[i].text|
    ensures 0 <= ns[i].start && ns[i].start + e <= |value|
  {
    NodeSplit(ns, i);
  }

  lemma Consumed(value: string, ns: seq<MapNode>, i: nat, s: nat, e: nat, start: nat, wrapped: seq<MapNode>,
                 value': string, next: seq<MapNode>, from: nat, to: nat)
    requires Consistent(value, ns) && i < |ns| && s < e <= |ns[i].text| && start == ns[i].start && start + e <= |value|
    requires wrapped == ns[i := Wrapped(ns[i], s, e)] && IsShifted(wrapped, next, i, e)
    requires from == NodePlace(ns, i) + s && to == NodePlace(ns, i) + e
    requires value' == value[..start] + value[e + start..]
    ensures IsConsumed(value, ns, i, s, e, from, to, value', next)
  {
    WrapMarks(ns, i, s, e, from, to);
    ConsumeConsistent(value, ns, i, s, e, next);
    ShiftSame(wrapped, next, i, e);
  }

  lemma MarkMore(d: seq<Cell>, a: int, b: int, c: int)
    requires a <= b <= c
    ensures MarkCells(MarkCells(d, a, b), b, c) == MarkCells(d, a, c)
  {
  }

  /** Of the range from `from` to `until`, exactly the part up to `to` is marked, and from there
      on nothing was split off. */
  ghost predicate MarkedTo(d0: seq<Cell>, ns: seq<MapNode>, from: int, until: int, to: int) {
    && from <= to <= until && Doc(ns) == MarkCells(d0, from, to)
    && UntouchedBehind(ns, to - Offset(ns))
    && (from < to ==> SplitAt(ns, to))
  }

  /** Something was split off in front of a node whose mapped text starts at `last`. */
  ghost predicate SplitAt(ns: seq<MapNode>, last: int) {
    exists k | 0 <= k < |ns| :: ns[k].start + Offset(ns) == last && PiecesCells(ns[k].before) != []
  }

  /** Node `at` of the map contains `start0`; when the filter accepts that node, the
      character at `start0` is marked. */
  ghost predicate Entered(ns0: seq<MapNode>, start0: int, at: nat, accept: nat -> bool, d: seq<Cell>) {
    && at < |ns0| && ns0[at].start <= start0 < ns0[at].end
    && var p := NodePlace(ns0, at) + (start0 - ns0[at].start);
       0 <= p < |d| && (accept(at) ==> d[p].marked)
  }

  lemma NowEntered(ns0: seq<MapNode>, start0: int, at: nat, accept: nat -> bool, p: int, d: seq<Cell>)
    requires at < |ns0| && ns0[at].start <= start0 < ns0[at].end
    requires p == NodePlace(ns0, at) + (start0 - ns0[at].start) && 0 <= p < |d| && d[p].marked
    ensures Entered(ns0, start0, at, accept, d)
  {
  }

  lemma StillEntered(ns0: seq<MapNode>, start0: int, at: nat, accept: nat -> bool, d: seq<Cell>, e: seq<Cell>)
    requires Entered(ns0, start0, at, accept, d) && Extends(d, e)
    ensures Entered(ns0, start0, at, accept, e)
  {
  }

  lemma NonEmpty(value: string, ns: seq<MapNode>)
    requires Consistent(value, ns) && value != ""
    ensures ns != [] && ns[0].start == 0
  {
  }

  lemma MarkNothing(d: seq<Cell>, a: int)
    ensures MarkCells(d, a, a) == d
  {
  }

  lemma {:induction false} StartsMonotone(value: string, ns: seq<MapNode>, i: nat, j: nat)
    requires Consistent(value, ns) && i <= j < |ns|
    ensures ns[i].start <= ns[j].start
    decreases j
  {
    if i < j {
      var k := j - 1;
      StartsMonotone(value, ns, i, k);
      LivePrefix(ns, k, j);
    }
  }

  /** The first node whose successor starts behind `start` contains it. */
  lemma ChosenNode(value: string, ns: seq<MapNode>, i: nat, start: int)
    requires Consistent(value, ns) && i < |ns| && ns[i].start <= start < |value|
    requires i + 1 == |ns| || ns[i + 1].start > start
    ensures start < ns[i].end
    ensures 0 <= NodePlace(ns, i) + (start - ns[i].start) < |Doc(ns)|
  {
    assert ns[..i + 1] == ns[..i] + [ns[i]];
    DocSnoc(ns[..i], ns[i]);
    if i + 1 == |ns| { assert ns[..i + 1] == ns; }
    NodeSplit(ns, i);
  }

  lemma ExtendsMore(d0: seq<Cell>, d: seq<Cell>, a: int, b: int)
    requires Extends(d0, d)
    ensures Extends(d0, MarkCells(d, a, b)) && Extends(d, MarkCells(d, a, b))
  {
  }

  /** The step from node `i`, whose mapped text up to `e` was consumed, to the next one. */
  lemma AfterWrap(value: string, ns: seq<MapNode>, next: seq<MapNode>, i: nat, start: int, end: int, s: nat, e: nat)
    requires Consistent(value, ns) && i < |ns| && ns[i].start <= start < end <= |value| && start < ns[i].end
    requires e == (if end > ns[i].end then ns[i].end else end) - ns[i].start
    requires (i + 1 == |ns| || ns[i + 1].start > start) && s == start - ns[i].start
    requires IsShifted(ns[i := Wrapped(ns[i], s, e)], next, i, e)
    ensures next[i].start == ns[i].start && next[i].end == ns[i].end - e
    ensures end > ns[i].end ==> i + 1 < |ns| && next[i + 1].start == ns[i].start
  {
    var wrapped := ns[i := Wrapped(ns[i], s, e)];
    assert next[i] == ShiftedNode(wrapped, i, e, i);
    assert ns[..i + 1] == ns[..i] + [ns[i]];
    DocSnoc(ns[..i], ns[i]);
    if i + 1 == |ns| {
      assert ns[..i + 1] == ns;
    } else {
      assert next[i + 1] == ShiftedNode(wrapped, i, e, i + 1);
    }
  }

  /** When nothing behind `start` was touched, node `i`'s text lies where the offset says,
      and nothing behind its new start is touched. */
  lemma UntouchedAfter(value: string, ns: seq<MapNode>, next: seq<MapNode>, i: nat, start: int, s: nat, e: nat)
    requires Consistent(value, ns) && i < |ns| && s == start - ns[i].start && s < e <= |ns[i].text|
    requires (i + 1 == |ns| || ns[i + 1].start > start) && UntouchedBehind(ns, start)
    requires IsShifted(ns[i := Wrapped(ns[i], s, e)], next, i, e)
    ensures NodePlace(ns, i) == ns[i].start + Offset(ns) && UntouchedBehind(next, ns[i].start)
    ensures PiecesCells(next[i].before) != []
  {
    var wrapped := ns[i := Wrapped(ns[i], s, e)];
    assert next[i] == ShiftedNode(wrapped, i, e, i);
    WrappedBefore(ns[i], s, e);
    forall j | i < j < |ns| ensures ns[j].before == [] { StartsMonotone(value, ns, i + 1, j); }
    PlaceIsOffset(ns, i);
    forall j | 0 <= j < |next| && next[j].start > ns[i].start ensures next[j].before == [] {
      assert next[j] == ShiftedNode(wrapped, i, e, j);
      if j <= i { StartsMonotone(value, ns, j, i); }
    }
  }

  /** The wrapping is at node `i`, with the text from `start` to `end` still to be done. */
  ghost predicate InRange(value: string, ns: seq<MapNode>, i: nat, start: int, end: int, to: int, until: int) {
    && i < |ns| && 0 <= start < end <= |value| && ns[i].start <= start
    && to == start + Offset(ns) && until == end + Offset(ns)
  }

  /** The state of the loop over the nodes. */
  ghost predicate Looping(ns0: seq<MapNode>, start0: int, end0: int, accept: nat -> bool,
                          value: string, ns: seq<MapNode>, i: nat, start: int, end: int, going: bool,
                          to: int, at: nat, entered: bool)
  {
    var from, until := start0 + Offset(ns0), end0 + Offset(ns0);
    && Consistent(value, ns) && Extends(Doc(ns0), Doc(ns)) && |ns| == |ns0|
    && (going ==> InRange(value, ns, i, start, end, to, until))
    && (UntouchedBehind(ns0, start0) ==>
          (going ==> UntouchedBehind(ns, start)) && MarkedTo(Doc(ns0), ns, from, until, to))
    && (!going && (forall i | 0 <= i < |ns| :: accept(i)) ==> to == until)
    && (!entered ==> going && ns == ns0 && start == start0)
    && (entered ==> Entered(ns0, start0, at, accept, Doc(ns)))
  }

  lemma Rejected(ns0: seq<MapNode>, start0: int, end0: int, accept: nat -> bool, value: string, ns: seq<MapNode>,
                 i: nat, start: int, end: int, to: int, at0: nat, entered0: bool)
    returns (at: nat)
    requires i < |ns| && (i + 1 == |ns| || ns[i + 1].start > start) && !accept(i)
    requires Looping(ns0, start0, end0, accept, value, ns, i, start, end, true, to, at0, entered0)
    ensures Looping(ns0, start0, end0, accept, value, ns, i, start, end, false, to, at, true)
  {
    ChosenNode(value, ns, i, start);
    at := if entered0 then at0 else i;
    assert Entered(ns0, start0, at, accept, Doc(ns));
  }

  lemma LoopStarts(ns: seq<MapNode>, start: int, end: int, accept: nat -> bool, value: string, to: int)
    requires Consistent(value, ns) && 0 <= start < end <= |value| && to == start + Offset(ns)
    ensures |ns| > 0 && Looping(ns, start, end, accept, value, ns, 0, start, end, true, to, 0, false)
  {
    NonEmpty(value, ns);
    MarkNothing(Doc(ns), to);
  }

  lemma NextNode(ns0: seq<MapNode>, start0: int, end0: int, accept: nat -> bool, value: string, ns: seq<MapNode>,
                 i: nat, start: int, end: int, to: int, at: nat, entered: bool, next: nat)
    requires next == i + 1 < |ns| && ns[next].start <= start
    requires Looping(ns0, start0, end0, accept, value, ns, i, start, end, true, to, at, entered)
    ensures Looping(ns0, start0, end0, accept, value, ns, next, start, end, true, to, at, entered)
  {
  }

  lemma PlaceMoves(ns: seq<MapNode>, next: seq<MapNode>, i: nat, start: int, s: nat, e: nat, val: string, value: string,
                   to0: int, to: int)
    requires i < |ns| == |next| && Consistent(val, ns) && Consistent(value, next) && |value| == |val| - e
    requires |Doc(next)| == |Doc(ns)| && next[i].start == ns[i].start && s == start - ns[i].start
    requires to0 == start + Offset(ns) && to == next[i].start + Offset(next)
    ensures to == to0 + (e - s)
  {
  }

  /** What one round of wrapping makes of the loop's state. The range is marked further,
      without gaps: from `p` to `q`. */
  lemma AfterRound(ns0: seq<MapNode>, start0: int, end0: int, accept: nat -> bool,
                   val: string, ns: seq<MapNode>, value: string, next: seq<MapNode>,
                   i: nat, start: int, end: int, s: nat, e: nat, p: int, q: int, to0: int, to: int, at0: nat, at: nat,
                   entered: bool, i': nat, start': int, end': int, going: bool)
    requires Looping(ns0, start0, end0, accept, val, ns, i, start, end, true, to0, at0, entered)
    requires start < ns[i].end && (i + 1 == |ns| || ns[i + 1].start > start)
    requires e == (if end > ns[i].end then ns[i].end else end) - ns[i].start
    requires Consistent(value, next) && |value| == |val| - e && |next| == |ns|
    requires s == start - ns[i].start && p == NodePlace(ns, i) + s && q == NodePlace(ns, i) + e && p < q
    requires Doc(next) == MarkCells(Doc(ns), p, q)
    requires next[i].start == ns[i].start && next[i].end == ns[i].end - e
    requires end > ns[i].end ==> i + 1 < |ns| && next[i + 1].start == ns[i].start
    requires UntouchedBehind(ns, start) ==>
               NodePlace(ns, i) == ns[i].start + Offset(ns) && UntouchedBehind(next, ns[i].start)
               && PiecesCells(next[i].before) != []
    requires to == next[i].start + Offset(next) && at == if entered then at0 else i
    requires end' == end - e && going == (end' > next[i].end)
    requires if going then i' == i + 1 && start' == next[i].end else i' == i && start' == start
    ensures i' < |next|
    ensures Looping(ns0, start0, end0, accept, value, next, i', start', end', going, to, at, true)
  {
    var d := Doc(ns);
    ExtendsMore(Doc(ns0), d, p, q);
    EnteredAfter(ns0, start0, at, accept, val, ns, i, start, s, p, q, entered);
    if UntouchedBehind(ns0, start0) {
      MarkedFurther(ns0, start0, end0, ns, next, to0, to, i, ns[i].start, p, q);
    }
    if going {
      GoesOn(ns0, start0, end0, accept, value, next, i', start', end', to, at);
    } else {
      Stops(ns0, start0, end0, accept, value, next, i', start', end', to, at);
    }
  }

  lemma MarkedFurther(ns0: seq<MapNode>, start0: int, end0: int, ns: seq<MapNode>, next: seq<MapNode>, to0: int, to: int,
                      i: nat, x: int, p: int, q: int)
    requires MarkedTo(Doc(ns0), ns, start0 + Offset(ns0), end0 + Offset(ns0), to0)
    requires Doc(next) == MarkCells(Doc(ns), p, q) && p == to0 && q == to <= end0 + Offset(ns0) && p < q
    requires i < |next| && next[i].start == x && to == x + Offset(next) && PiecesCells(next[i].before) != []
    requires UntouchedBehind(next, x)
    ensures MarkedTo(Doc(ns0), next, start0 + Offset(ns0), end0 + Offset(ns0), to)
  {
    MarkMore(Doc(ns0), start0 + Offset(ns0), to0, to);
    assert SplitAt(next, to);
  }

  lemma EnteredAfter(ns0: seq<MapNode>, start0: int, at: nat, accept: nat -> bool, value: string,
                     ns: seq<MapNode>, i: nat, start: int, s: nat, p: int, q: int, entered: bool)
    requires Consistent(value, ns) && i < |ns| && ns[i].start <= start < ns[i].end
    requires (i + 1 == |ns| || ns[i + 1].start > start) && start < |value|
    requires s == start - ns[i].start && p == NodePlace(ns, i) + s && p < q
    requires if entered then Entered(ns0, start0, at, accept, Doc(ns)) else at == i && ns == ns0 && start == start0
    ensures Entered(ns0, start0, at, accept, MarkCells(Doc(ns), p, q))
  {
    var d := MarkCells(Doc(ns), p, q);
    if entered {
      ExtendsMore(Doc(ns), Doc(ns), p, q);
      StillEntered(ns0, start0, at, accept, Doc(ns), d);
    } else {
      ChosenNode(value, ns, i, start);
      NowEntered(ns0, start0, at, accept, p, d);
    }
  }

  lemma GoesOn(ns0: seq<MapNode>, start0: int, end0: int, accept: nat -> bool, value: string, ns: seq<MapNode>,
               i: nat, start: int, end: int, to: int, at: nat)
    requires Consistent(value, ns) && Extends(Doc(ns0), Doc(ns)) && |ns| == |ns0|
    requires InRange(value, ns, i, start, end, to, end0 + Offset(ns0))
    requires UntouchedBehind(ns0, start0) ==>
               UntouchedBehind(ns, start)
               && MarkedTo(Doc(ns0), ns, start0 + Offset(ns0), end0 + Offset(ns0), to)
    requires Entered(ns0, start0, at, accept, Doc(ns))
    ensures Looping(ns0, start0, end0, accept, value, ns, i, start, end, true, to, at, true)
  {
  }

  lemma Stops(ns0: seq<MapNode>, start0: int, end0: int, accept: nat -> bool, value: string, ns: seq<MapNode>,
              i: nat, start: int, end: int, to: int, at: nat)
    requires Consistent(value, ns) && Extends(Doc(ns0), Doc(ns)) && |ns| == |ns0| && to == end0 + Offset(ns0)
    requires UntouchedBehind(ns0, start0) ==>
               MarkedTo(Doc(ns0), ns, start0 + Offset(ns0), end0 + Offset(ns0), to)
    requires Entered(ns0, start0, at, accept, Doc(ns))
    ensures Looping(ns0, start0, end0, accept, value, ns, i, start, end, false, to, at, true)
  {
  }

  // ----- what a filter lets be wrapped -----

  /** The place of a text node: in the mapped text, or in the document. */
  datatype Span = Span(from: int, to: int)

  /** Some character of the span is between `a` and `b`. */
  predicate Touches(s: Span, a: int, b: int) {
    Max(s.from, a) < Min(s.to, b)
  }

  function MapSpan(n: MapNode): Span {
    Span(n.start, n.end)
  }

  function MapSpans(ns: seq<MapNode>): (r: seq<Span>)
    ensures |r| == |ns| && forall j | 0 <= j < |ns| :: r[j] == MapSpan(ns[j])
  {
    seq(|ns|, j requires 0 <= j < |ns| => MapSpan(ns[j]))
  }

  /** Wrapping from `a` to `b` ends at `t`: at the first node that the filter rejects, or at `b` if
      it rejects none of those that are touched. */
  ghost predicate StopsAt(spans: seq<Span>, accept: nat -> bool, a: int, b: int, t: int) {
    && a <= t <= b && (forall j: nat | j < |spans| && Touches(spans[j], a, t) :: accept(j))
    && (t == b || exists j: nat :: j < |spans| && StopsBefore(spans[j], accept, j, a, b, t))
  }

  ghost predicate StopsBefore(s: Span, accept: nat -> bool, j: nat, a: int, b: int, t: int) {
    Touches(s, a, b) && !accept(j) && t == Max(s.from, a)
  }

  /** What a node becomes when the mapped text from `a` to `b` is wrapped: it is split where it is
      touched, and otherwise as it was. */
  ghost predicate WrappedAs(n0: MapNode, n: MapNode, a: int, b: int) {
    if Touches(MapSpan(n0), a, b) && |n0.text| == n0.end - n0.start then
      var w := Wrapped(n0, Max(n0.start, a) - n0.start, Min(n0.end, b) - n0.start);
      n.before == w.before && n.text == w.text
    else
      n.before == n0.before && n.text == n0.text
  }

  ghost predicate AllWrappedAs(ns0: seq<MapNode>, ns: seq<MapNode>, a: int, b: int) {
    |ns| == |ns0| && forall j | 0 <= j < |ns| :: WrappedAs(ns0[j], ns[j], a, b)
  }

  ghost predicate LeavesRejected(ns0: seq<MapNode>, ns: seq<MapNode>, accept: nat -> bool) {
    |ns| == |ns0|
    && forall j | 0 <= j < |ns| && !accept(j) :: ns[j].before == ns0[j].before && ns[j].text == ns0[j].text
  }

  /** Every node that the filter rejects is left alone. */
  lemma RejectedStay(ns0: seq<MapNode>, ns: seq<MapNode>, accept: nat -> bool, a: int, b: int, t: int)
    requires AllWrappedAs(ns0, ns, a, t) && StopsAt(MapSpans(ns0), accept, a, b, t)
    ensures LeavesRejected(ns0, ns, accept)
  {
    forall j | 0 <= j < |ns| && !accept(j) ensures ns[j].before == ns0[j].before && ns[j].text == ns0[j].text {
      assert WrappedAs(ns0[j], ns[j], a, t) && MapSpans(ns0)[j] == MapSpan(ns0[j]);
    }
  }

  /** The range from `start` to `end` of the map was wrapped, up to `t` in the map and `to` in the
      document, beginning in node `at`. */
  ghost predicate RangeWrappedUpTo(ns0: seq<MapNode>, ns: seq<MapNode>, start: int, end: int, accept: nat -> bool,
                                   to: int, at: nat, t: int)
  {
    && AllWrappedAs(ns0, ns, start, t) && StopsAt(MapSpans(ns0), accept, start, end, t)
    && to == t + Offset(ns0) && (t == start ==> ns == ns0)
    && (UntouchedBehind(ns0, start) ==> MarkedTo(Doc(ns0), ns, start + Offset(ns0), end + Offset(ns0), to))
    && Entered(ns0, start, at, accept, Doc(ns))
  }

  /** There is only one place where wrapping can end. */
  lemma StopIsOnly(spans: seq<Span>, accept: nat -> bool, a: int, b: int, t: int, u: int)
    requires forall i, j | 0 <= i < j < |spans| :: spans[i].to <= spans[j].from
    requires StopsAt(spans, accept, a, b, t) && StopsAt(spans, accept, a, b, u)
    ensures t == u
  {
    StopIsNotLater(spans, accept, a, b, t, u);
    StopIsNotLater(spans, accept, a, b, u, t);
  }

  lemma StopIsNotLater(spans: seq<Span>, accept: nat -> bool, a: int, b: int, t: int, u: int)
    requires StopsAt(spans, accept, a, b, t) && StopsAt(spans, accept, a, b, u)
    ensures t >= u
  {
    if t != b {
      var j: nat :| j < |spans| && StopsBefore(spans[j], accept, j, a, b, t);
      assert !Touches(spans[j], a, u);
    }
  }

  /** The nodes from `i` on are as they were, `c` characters further left in the map. */
  ghost predicate Aligned(ns0: seq<MapNode>, ns: seq<MapNode>, i: nat, c: int) {
    |ns| == |ns0| && forall j | i <= j < |ns| :: AlignedNode(ns0[j], ns[j], c)
  }

  ghost predicate AlignedNode(n0: MapNode, n: MapNode, c: int) {
    n.before == n0.before && n.text == n0.text && n.start + c == n0.start && n.end + c == n0.end
  }

  ghost predicate AllAccepted(ns0: seq<MapNode>, accept: nat -> bool, a: int, t: int) {
    forall j: nat | j < |ns0| && Touches(MapSpan(ns0[j]), a, t) :: accept(j)
  }

  /** The loop has wrapped up to `t`, in terms of the map as it was. */
  ghost predicate Marking(ns0: seq<MapNode>, start0: int, end0: int, accept: nat -> bool, ns: seq<MapNode>, i: nat,
                          start: int, end: int, going: bool, t: int)
  {
    && i < |ns| && start0 <= t <= end0 && AllWrappedAs(ns0, ns, start0, t) && AllAccepted(ns0, accept, start0, t)
    && (t == start0 ==> ns == ns0)
    && (going ==> t < end0 && end0 - t == end - start && (t > start0 ==> ns[i].start == start)
                  && Aligned(ns0, ns, i, t - start) && forall j | 0 <= j < i :: ns0[j].end <= t)
    && (!going ==> t == end0 || StopsBefore(MapSpan(ns0[i]), accept, i, start0, end0, t))
  }

  lemma MarkingStarts(ns: seq<MapNode>, start: int, end: int, accept: nat -> bool)
    requires ns != [] && start < end
    ensures Marking(ns, start, end, accept, ns, 0, start, end, true, start)
  {
  }

  lemma MarkingSkips(ns0: seq<MapNode>, start0: int, end0: int, accept: nat -> bool, value: string, ns: seq<MapNode>,
                     i: nat, start: int, end: int, t: int, next: nat)
    requires Consistent(value, ns) && next == i + 1 < |ns| && ns[next].start <= start
    requires Marking(ns0, start0, end0, accept, ns, i, start, end, true, t)
    ensures Marking(ns0, start0, end0, accept, ns, next, start, end, true, t)
  {
    NextStart(value, ns, i);
    StartsMonotone(value, ns, i, next);
    assert AlignedNode(ns0[i], ns[i], t - start);
  }

  lemma MarkingStops(ns0: seq<MapNode>, start0: int, end0: int, accept: nat -> bool, value: string, ns: seq<MapNode>,
                     i: nat, start: int, end: int, t: int)
    requires Consistent(value, ns) && i < |ns| && ns[i].start <= start < |value|
    requires (i + 1 == |ns| || ns[i + 1].start > start) && !accept(i)
    requires Marking(ns0, start0, end0, accept, ns, i, start, end, true, t)
    ensures Marking(ns0, start0, end0, accept, ns, i, start, end, false, t)
  {
    ChosenNode(value, ns, i, start);
    assert AlignedNode(ns0[i], ns[i], t - start);
  }

  lemma MarkingRound(ns0: seq<MapNode>, start0: int, end0: int, accept: nat -> bool, value: string, ns: seq<MapNode>,
                     next: seq<MapNode>, i: nat, start: int, end: int, s: nat, e: nat, t: int, t': int,
                     i': nat, start': int, end': int, going: bool)
    requires Consistent(value, ns) && i < |ns| && ns[i].start <= start < |value| && accept(i)
    requires i + 1 == |ns| || ns[i + 1].start > start
    requires Marking(ns0, start0, end0, accept, ns, i, start, end, true, t)
    requires s == start - ns[i].start && e == (if end > ns[i].end then ns[i].end else end) - ns[i].start
    requires s < e <= |ns[i].text| && IsShifted(ns[i := Wrapped(ns[i], s, e)], next, i, e) && t' == t + (e - s)
    requires end' == end - e && going == (end' > next[i].end)
    requires if going then i' == i + 1 < |ns| && start' == next[i].end else i' == i && start' == start
    ensures Marking(ns0, start0, end0, accept, next, i', start', end', going, t')
  {
    var c := t - start;
    assert AlignedNode(ns0[i], ns[i], c);
    assert next[i] == ShiftedNode(ns[i := Wrapped(ns[i], s, e)], i, e, i);
    MarkingNodes(ns0, start0, end0, accept, value, ns, next, i, start, end, s, e, t, t');
    StillAccepted(ns0, start0, accept, value, ns, i, c, t, t');
    if going { MarkingGoesOn(ns0, ns, next, i, i', s, e, c, c + e, start, start', t, t', value); }
  }

  lemma MarkingGoesOn(ns0: seq<MapNode>, ns: seq<MapNode>, next: seq<MapNode>, i: nat, i': nat, s: nat, e: nat, c: int,
                      c': int, start: int, start': int, t: int, t': int, value: string)
    requires Consistent(value, ns) && i' == i + 1 < |ns| && 0 <= start < ns[i'].start && Aligned(ns0, ns, i, c)
    requires s == start - ns[i].start && e == ns[i].end - ns[i].start && s <= e <= |ns[i].text|
    requires IsShifted(ns[i := Wrapped(ns[i], s, e)], next, i, e)
    requires c == t - start && c' == c + e && t' == t + (e - s) && start' == ns[i].end - e
    requires forall j | 0 <= j < i :: ns0[j].end <= t
    ensures Aligned(ns0, next, i', c') && c' == t' - start' && next[i'].start == start'
    ensures forall j | 0 <= j < i' :: ns0[j].end <= t'
  {
    NextStart(value, ns, i);
    assert AlignedNode(ns0[i], ns[i], c);
    MarkingAligned(ns0, ns, next, i, i', s, e, c, c', start, value);
    assert next[i'] == ShiftedNode(ns[i := Wrapped(ns[i], s, e)], i, e, i');
  }

  lemma MarkingNodes(ns0: seq<MapNode>, start0: int, end0: int, accept: nat -> bool, value: string, ns: seq<MapNode>,
                     next: seq<MapNode>, i: nat, start: int, end: int, s: nat, e: nat, t: int, t': int)
    requires Consistent(value, ns) && i < |ns| && ns[i].start <= start < |value|
    requires i + 1 == |ns| || ns[i + 1].start > start
    requires Marking(ns0, start0, end0, accept, ns, i, start, end, true, t)
    requires s == start - ns[i].start && e == (if end > ns[i].end then ns[i].end else end) - ns[i].start
    requires s < e <= |ns[i].text| && IsShifted(ns[i := Wrapped(ns[i], s, e)], next, i, e) && t' == t + (e - s)
    ensures AllWrappedAs(ns0, next, start0, t')
  {
    forall j | 0 <= j < |ns| ensures WrappedAs(ns0[j], next[j], start0, t') {
      MarkingNode(ns0, start0, end0, accept, value, ns, next, i, start, end, s, e, t, t', j);
    }
  }

  lemma StillAccepted(ns0: seq<MapNode>, start0: int, accept: nat -> bool, value: string, ns: seq<MapNode>, i: nat,
                      c: int, t: int, t': int)
    requires Consistent(value, ns) && i < |ns| && accept(i) && AllAccepted(ns0, accept, start0, t)
    requires Aligned(ns0, ns, i, c) && t <= t' <= ns0[i].end && forall j | 0 <= j < i :: ns0[j].end <= t
    ensures AllAccepted(ns0, accept, start0, t')
  {
    forall j: nat | j < |ns0| && Touches(MapSpan(ns0[j]), start0, t') ensures accept(j) {
      if j > i { LaterNode(value, ns0, ns, i, j, c); }
      if j < i { assert Touches(MapSpan(ns0[j]), start0, t); }
    }
  }

  lemma LaterNode(value: string, ns0: seq<MapNode>, ns: seq<MapNode>, i: nat, j: nat, c: int)
    requires Consistent(value, ns) && i < j < |ns| == |ns0|
    requires AlignedNode(ns0[i], ns[i], c) && AlignedNode(ns0[j], ns[j], c)
    ensures ns0[i].end <= ns0[j].start
  {
    NextStart(value, ns, i);
    StartsMonotone(value, ns, i + 1, j);
  }

  lemma MarkingAligned(ns0: seq<MapNode>, ns: seq<MapNode>, next: seq<MapNode>, i: nat, i': nat, s: nat, e: nat, c: int,
                       c': int, start: int, value: string)
    requires Consistent(value, ns) && i' == i + 1 < |ns| && 0 <= start < ns[i'].start && Aligned(ns0, ns, i, c)
    requires s <= e <= |ns[i].text| && IsShifted(ns[i := Wrapped(ns[i], s, e)], next, i, e) && c' == c + e
    ensures Aligned(ns0, next, i', c')
  {
    forall j | i' <= j < |ns| ensures AlignedNode(ns0[j], next[j], c') {
      StartsMonotone(value, ns, i', j);
      assert AlignedNode(ns0[j], ns[j], c);
      assert next[j] == ShiftedNode(ns[i := Wrapped(ns[i], s, e)], i, e, j);
    }
  }

  lemma MarkingNode(ns0: seq<MapNode>, start0: int, end0: int, accept: nat -> bool, value: string, ns: seq<MapNode>,
                    next: seq<MapNode>, i: nat, start: int, end: int, s: nat, e: nat, t: int, t': int, j: nat)
    requires Consistent(value, ns) && i < |ns| && j < |ns| && ns[i].start <= start < |value|
    requires i + 1 == |ns| || ns[i + 1].start > start
    requires Marking(ns0, start0, end0, accept, ns, i, start, end, true, t)
    requires s == start - ns[i].start && e == (if end > ns[i].end then ns[i].end else end) - ns[i].start
    requires s < e <= |ns[i].text| && IsShifted(ns[i := Wrapped(ns[i], s, e)], next, i, e) && t' == t + (e - s)
    ensures WrappedAs(ns0[j], next[j], start0, t')
  {
    var c := t - start;
    assert WrappedAs(ns0[j], ns[j], start0, t);
    assert AlignedNode(ns0[i], ns[i], c);
    assert next[j] == ShiftedNode(ns[i := Wrapped(ns[i], s, e)], i, e, j);
    if j > i {
      LaterNode(value, ns0, ns, i, j, c);
      StillBehind(ns0[j], ns[j], next[j], start0, t, t', c);
    } else if j == i {
      NowWrapped(ns0[i], ns[i], next[i], start0, t, t', c, start, s, e);
    } else {
      StaysWrapped(ns0[j], ns[j], next[j], start0, t, t');
    }
  }

  lemma StillBehind(n0: MapNode, n: MapNode, next: MapNode, a: int, t: int, t': int, c: int)
    requires AlignedNode(n0, n, c) && next.before == n.before && next.text == n.text && t' <= n0.start
    ensures WrappedAs(n0, next, a, t')
  {
  }

  lemma NowWrapped(n0: MapNode, n: MapNode, next: MapNode, a: int, t: int, t': int, c: int, start: int, s: nat, e: nat)
    requires AlignedNode(n0, n, c) && c == t - start && s == start - n.start && t' == t + (e - s) && s < e <= |n.text|
    requires n.end == n.start + |n.text| && Max(n0.start, a) == t
    requires next.before == Wrapped(n, s, e).before && next.text == Wrapped(n, s, e).text
    ensures WrappedAs(n0, next, a, t')
  {
    assert Max(n0.start, a) - n0.start == s && Min(n0.end, t') - n0.start == e;
  }

  lemma StaysWrapped(n0: MapNode, n: MapNode, next: MapNode, a: int, t: int, t': int)
    requires WrappedAs(n0, n, a, t) && next == n && n0.end <= t <= t'
    ensures WrappedAs(n0, next, a, t')
  {
  }

  lemma MarkingEnds(ns0: seq<MapNode>, start0: int, end0: int, accept: nat -> bool, ns: seq<MapNode>, i: nat,
                    start: int, end: int, t: int)
    requires Marking(ns0, start0, end0, accept, ns, i, start, end, false, t)
    ensures AllWrappedAs(ns0, ns, start0, t) && StopsAt(MapSpans(ns0), accept, start0, end0, t)
  {
    var spans := MapSpans(ns0);
    forall j: nat | j < |spans| && Touches(spans[j], start0, t) ensures accept(j) {
      assert spans[j] == MapSpan(ns0[j]);
    }
    if t != end0 { assert StopsBefore(spans[i], accept, i, start0, end0, t); }
  }

  lemma WrappingEnds(ns0: seq<MapNode>, start0: int, end0: int, accept: nat -> bool, value: string, ns: seq<MapNode>,
                     i: nat, start: int, end: int, to: int, at: nat, entered: bool, t: int)
    requires Looping(ns0, start0, end0, accept, value, ns, i, start, end, false, to, at, entered)
    requires Marking(ns0, start0, end0, accept, ns, i, start, end, false, t) && to == t + Offset(ns0)
    ensures Consistent(value, ns) && Extends(Doc(ns0), Doc(ns))
    ensures RangeWrappedUpTo(ns0, ns, start0, end0, accept, to, at, t) && LeavesRejected(ns0, ns, accept)
  {
    MarkingEnds(ns0, start0, end0, accept, ns, i, start, end, t);
    RejectedStay(ns0, ns, accept, start0, end0, t);
  }

  // ----- the nodes' places in the document -----

  function DocSpans(ns: seq<MapNode>): (r: seq<Span>)
    ensures |r| == |ns| && forall j | 0 <= j < |ns| :: r[j] == Span(|Doc(ns[..j])|, |Doc(ns[..j + 1])|)
  {
    seq(|ns|, j requires 0 <= j < |ns| => Span(|Doc(ns[..j])|, |Doc(ns[..j + 1])|))
  }

  lemma DocPrefix(ns: seq<MapNode>, j: nat, k: nat)
    requires k == j + 1 <= |ns|
    ensures Doc(ns[..k]) == Doc(ns[..j]) + NodeCells(ns[j])
  {
    assert ns[..k] == ns[..j] + [ns[j]];
    DocSnoc(ns[..j], ns[j]);
  }

  lemma {:induction false} DocPrefixGrows(ns: seq<MapNode>, i: nat, j: nat)
    requires i <= j <= |ns|
    ensures |Doc(ns[..i])| <= |Doc(ns[..j])|
    decreases j
  {
    if i < j {
      DocPrefixGrows(ns, i, j - 1);
      DocPrefix(ns, j - 1, j);
    }
  }

  lemma SpansInOrder(ns: seq<MapNode>)
    ensures forall i, j | 0 <= i < j < |ns| :: DocSpans(ns)[i].to <= DocSpans(ns)[j].from
  {
    forall i: nat, j: nat | i < j < |ns| ensures DocSpans(ns)[i].to <= DocSpans(ns)[j].from {
      DocPrefixGrows(ns, i + 1, j);
    }
  }

  lemma WrappedSize(n0: MapNode, n: MapNode, a: int, b: int)
    requires WrappedAs(n0, n, a, b)
    ensures |NodeCells(n)| == |NodeCells(n0)|
  {
    if Touches(MapSpan(n0), a, b) && |n0.text| == n0.end - n0.start {
      WrappedBefore(n0, Max(n0.start, a) - n0.start, Min(n0.end, b) - n0.start);
    }
  }

  lemma {:induction false} PrefixSize(ns0: seq<MapNode>, ns: seq<MapNode>, a: int, b: int, j: nat)
    requires AllWrappedAs(ns0, ns, a, b) && j <= |ns|
    ensures |Doc(ns[..j])| == |Doc(ns0[..j])|
  {
    if j > 0 {
      PrefixSize(ns0, ns, a, b, j - 1);
      DocPrefix(ns0, j - 1, j);
      DocPrefix(ns, j - 1, j);
      WrappedSize(ns0[j - 1], ns[j - 1], a, b);
    }
  }

  /** Wrapping leaves every text node, with what was split off in front of it, where it is. */
  lemma SpansStay(ns0: seq<MapNode>, ns: seq<MapNode>, a: int, b: int)
    requires AllWrappedAs(ns0, ns, a, b)
    ensures DocSpans(ns) == DocSpans(ns0)
  {
    forall j: nat | j <= |ns| ensures |Doc(ns[..j])| == |Doc(ns0[..j])| { PrefixSize(ns0, ns, a, b, j); }
  }

  lemma TouchesMoved(s: Span, d: Span, k: nat, a: int, x: int, offset: int, a': int, x': int)
    requires a' == a + offset && x' == x + offset
    requires if s.to > a then d.to == s.to + offset && d.from + k == s.from + offset && (s.from > a ==> k == 0)
             else d.to <= s.to + offset
    ensures Touches(s, a, x) <==> Touches(d, a', x')
    ensures Touches(s, a, x) ==> Max(s.from, a) + offset == Max(d.from, a')
  {
  }

  lemma SpanBehind(value: string, ns: seq<MapNode>, a: int, j: nat, offset: int, d: Span, k: nat)
    requires Consistent(value, ns) && j < |ns| && UntouchedBehind(ns, a) && 0 <= a && offset == Offset(ns)
    requires d == DocSpans(ns)[j] && k == |PiecesCells(ns[j].before)| && ns[j].end > a
    ensures d.to == ns[j].end + offset && d.from + k == ns[j].start + offset
  {
    forall l | j < l < |ns| ensures ns[l].before == [] {
      NextStart(value, ns, j);
      StartsMonotone(value, ns, j + 1, l);
    }
    PlaceIsOffset(ns, j);
    DocPrefix(ns, j, j + 1);
  }

  /** Behind `a`, where nothing was split off, a node is touched in the map as in the document. */
  lemma TouchedAlike(value: string, ns: seq<MapNode>, a: int, x: int, j: nat, offset: int, s: Span, d: Span, a': int, x': int)
    requires Consistent(value, ns) && j < |ns| && UntouchedBehind(ns, a) && 0 <= a && offset == Offset(ns)
    requires s == MapSpan(ns[j]) && d == DocSpans(ns)[j] && a' == a + offset && x' == x + offset
    ensures Touches(s, a, x) <==> Touches(d, a', x')
    ensures Touches(s, a, x) ==> Max(s.from, a) + offset == Max(d.from, a')
  {
    var k := |PiecesCells(ns[j].before)|;
    if ns[j].end > a {
      SpanBehind(value, ns, a, j, offset, d, k);
    } else {
      SpanEnds(value, ns, j, j + 1, offset);
    }
    TouchesMoved(s, d, k, a, x, offset, a', x');
  }

  lemma SpanEnds(value: string, ns: seq<MapNode>, j: nat, k: nat, offset: int)
    requires Consistent(value, ns) && k == j + 1 <= |ns| && offset == Offset(ns)
    ensures |Doc(ns[..k])| <= ns[j].end + offset
  {
    assert ns == ns[..k] + ns[k..];
    DocSplit(ns[..k], ns[k..]);
    LiveFits(ns[k..]);
    LivePrefix(ns, j, k);
  }

  /** Where wrapping ends in the map, marking ends in the document. */
  lemma StopInDocument(value: string, ns: seq<MapNode>, accept: nat -> bool, a: int, b: int, t: int, offset: int,
                       from: int, until: int, to: int)
    requires Consistent(value, ns) && UntouchedBehind(ns, a) && 0 <= a && offset == Offset(ns)
    requires from == a + offset && until == b + offset && to == t + offset
    requires StopsAt(MapSpans(ns), accept, a, b, t)
    ensures StopsAt(DocSpans(ns), accept, from, until, to)
  {
    var spans, places := MapSpans(ns), DocSpans(ns);
    forall j: nat | j < |places| && Touches(places[j], from, to) ensures accept(j) {
      TouchedAlike(value, ns, a, t, j, offset, spans[j], places[j], from, to);
    }
    if t != b {
      var j: nat :| j < |spans| && StopsBefore(spans[j], accept, j, a, b, t);
      TouchedAlike(value, ns, a, b, j, offset, spans[j], places[j], from, until);
      assert StopsBefore(places[j], accept, j, from, until, to);
    }
  }

  // ----- ranges -----

  datatype Range = Range(start: int, length: int) {
    function End(): int { start + length }
  }

  /** The characters that `\s` matches. */
  predicate IsSpace(c: char) {
    || '\U{09}' <= c <= '\U{0D}' || c == ' ' || c == '\U{A0}' || c == '\U{1680}'
    || '\U{2000}' <= c <= '\U{200A}' || c == '\U{2028}' || c == '\U{2029}' || c == '\U{202F}'
    || c == '\U{205F}' || c == '\U{3000}' || c == '\U{FEFF}'
  }

  /** They are these. */
  lemma SpacesAreListed(c: char)
    ensures IsSpace(c) <==> c as int in [9, 10, 11, 12, 13, 32, 160, 5760, 8192, 8193, 8194, 8195, 8196, 8197, 8198,
                                         8199, 8200, 8201, 8202, 8232, 8233, 8239, 8287, 12288, 65279]
  {
    var spaces := [9, 10, 11, 12, 13, 32, 160, 5760, 8192, 8193, 8194, 8195, 8196, 8197, 8198,
                   8199, 8200, 8201, 8202, 8232, 8233, 8239, 8287, 12288, 65279];
    var n := c as int;
    assert 9 <= n <= 13 ==> spaces[n - 9] == n;
    assert 8192 <= n <= 8202 ==> spaces[n - 8184] == n;
    assert spaces[5] == 32 && spaces[6] == 160 && spaces[7] == 5760 && spaces[19] == 8232 && spaces[20] == 8233;
    assert spaces[21] == 8239 && spaces[22] == 8287 && spaces[23] == 12288 && spaces[24] == 65279;
  }

  predicate Blank(t: string) {
    forall k | 0 <= k < |t| :: IsSpace(t[k])
  }

  /** The part of a text that a range covers. */
  function Part(t: string, r: Range): string {
    if 0 <= r.start <= r.End() then
      if r.start > |t| then "" else t[r.start..Min(r.End(), |t|)]
    else ""
  }

  function Text(d: seq<Cell>): (t: string)
    ensures |t| == |d| && forall k | 0 <= k < |d| :: t[k] == d[k].c
  {
    seq(|d|, k requires 0 <= k < |d| => d[k].c)
  }

  datatype CheckedRange = CheckedRange(start: int, end: int, valid: bool)

  /** `checkWhitespaceRanges`: the range in terms of what is left of the text, and whether
      it is to be wrapped. */
  function CheckWhitespace(range: Range, originalLength: int, text: string): CheckedRange {
    var max := |text|;
    var offset := originalLength - max;
    var start := Min(range.start - offset, max);
    var end := Min(start + range.length, max);
    CheckedRange(start, end, !(start < 0 || end - start < 0 || start > max || end > max) && !Blank(text[start..end]))
  }

  /** From `last` on nothing was marked or split off; just before it something was. */
  ghost predicate SettledFrom(ns: seq<MapNode>, last: int) {
    && 0 <= last <= |Doc(ns)| && Offset(ns) <= last
    && UntouchedBehind(ns, last - Offset(ns))
    && (last > 0 ==> SplitAt(ns, last))
  }

  /** The node whose mapped text contains position `x`. */
  lemma {:induction false} FindNode(value: string, ns: seq<MapNode>, x: int, n: nat) returns (i: nat)
    requires Consistent(value, ns) && n <= |ns| && 0 <= x < |Live(ns[..n])|
    ensures i < n && ns[i].start <= x < ns[i].end
    decreases n
  {
    assert ns[..n] == ns[..n - 1] + [ns[n - 1]];
    DocSnoc(ns[..n - 1], ns[n - 1]);
    if x < ns[n - 1].start { i := FindNode(value, ns, x, n - 1); } else { i := n - 1; }
  }

  /** A mapped character lies in the document where its node lies, unmarked. */
  lemma LiveCell(value: string, ns: seq<MapNode>, i: nat, x: int)
    requires Consistent(value, ns) && i < |ns| && ns[i].start <= x < ns[i].end
    ensures x < |value| && 0 <= NodePlace(ns, i) + (x - ns[i].start) < |Doc(ns)|
    ensures Doc(ns)[NodePlace(ns, i) + (x - ns[i].start)] == Cell(value[x], false)
  {
    NodeSplit(ns, i);
  }

  /** Behind the last split, map and document agree. */
  lemma LiveBehind(value: string, ns: seq<MapNode>, last: int, x: int)
    requires Consistent(value, ns) && UntouchedBehind(ns, last - Offset(ns))
    requires 0 <= x < |value| && last - Offset(ns) <= x
    ensures 0 <= x + Offset(ns) < |Doc(ns)| && Doc(ns)[x + Offset(ns)] == Cell(value[x], false)
  {
    assert ns[..|ns|] == ns;
    var i := FindNode(value, ns, x, |ns|);
    LiveCell(value, ns, i, x);
    forall j | i < j < |ns| ensures ns[j].before == [] {
      NextStart(value, ns, i);
      StartsMonotone(value, ns, i + 1, j);
    }
    PlaceIsOffset(ns, i);
  }

  lemma NextStart(value: string, ns: seq<MapNode>, i: nat)
    requires Consistent(value, ns) && i + 1 < |ns|
    ensures ns[i + 1].start == ns[i].end
  {
    assert ns[..i + 1] == ns[..i] + [ns[i]];
    DocSnoc(ns[..i], ns[i]);
  }

  lemma LastUnmarked(value: string, ns: seq<MapNode>, last: int)
    requires Consistent(value, ns) && SettledFrom(ns, last)
    ensures last < |Doc(ns)| ==> !Doc(ns)[last].marked
  {
    if last < |Doc(ns)| { LiveBehind(value, ns, last, last - Offset(ns)); }
  }

  /** Behind `last`, a range covers the same text in the map as in the document. */
  lemma SamePart(value: string, ns: seq<MapNode>, range: Range, last: int, c: CheckedRange, part: string)
    requires Consistent(value, ns) && SettledFrom(ns, last) && range.start >= last && range.length > 0
    requires c == CheckWhitespace(range, |Doc(ns)|, value) && part == Part(Text(Doc(ns)), range)
    ensures c.valid == !Blank(part)
    ensures c.valid ==> c.start + Offset(ns) == range.start
                        && c.end + Offset(ns) == Min(range.End(), |Doc(ns)|) && 0 <= c.start < c.end <= |value|
  {
    LiveFits(ns);
    var d, offset := Doc(ns), Offset(ns);
    if range.start <= |d| {
      PartIsMapped(value, ns, last, d, offset, range.start, Min(range.End(), |d|), c.start, c.end, part);
    } else {
      assert part == "" && value[c.start..c.end] == "";
    }
  }

  lemma PartIsMapped(value: string, ns: seq<MapNode>, last: int, d: seq<Cell>, offset: int,
                     from: int, to: int, start: int, end: int, part: string)
    requires Consistent(value, ns) && SettledFrom(ns, last) && d == Doc(ns) && offset == Offset(ns)
    requires last <= from <= to <= |d| && start == from - offset && end == to - offset && part == Text(d)[from..to]
    ensures 0 <= start <= end <= |value| && part == value[start..end]
  {
    LiveFits(ns);
    forall x, p | start <= x < end && p == x + offset ensures d[p].c == value[x] {
      LiveBehind(value, ns, last, x);
    }
    SameText(value, d, offset, from, to, start, end, part);
  }

  lemma SameText(value: string, d: seq<Cell>, offset: int, from: int, to: int, start: int, end: int, part: string)
    requires 0 <= from <= to <= |d| && 0 <= start <= end <= |value| && start == from - offset && end == to - offset
    requires part == Text(d)[from..to] && forall x, p | start <= x < end && p == x + offset :: d[p].c == value[x]
    ensures part == value[start..end]
  {
  }

  /** What marking a range that starts behind `last` makes of the document: it is marked up to the
      first node that the filter rejects. */
  ghost predicate MarkedInPlace(ns0: seq<MapNode>, ns: seq<MapNode>, accept: nat -> bool, range: Range, last: int,
                                wrapped: bool, to: int)
  {
    var d0 := Doc(ns0);
    && wrapped == !Blank(Part(Text(d0), range))
    && (wrapped ==> StopsAt(DocSpans(ns0), accept, range.start, Min(range.End(), |d0|), to))
    && Doc(ns) == (if wrapped then MarkCells(d0, range.start, to) else d0)
    && SettledFrom(ns, if wrapped && range.start < to then to else last)
  }

  ghost predicate AllMarked(d: seq<Cell>, a: int, b: int) {
    forall p | 0 <= p < |d| && a <= p < b :: d[p].marked
  }

  /** A range that does not start before `last` is marked in its place. With a filter that accepts
      everything any other one is not, unless it is passed over and all of it was marked before; that
      is not so where it reaches past `last`. */
  ghost predicate MarkedExactly(ns0: seq<MapNode>, ns: seq<MapNode>, accept: nat -> bool, range: Range, last: int,
                                wrapped: bool, to: int)
  {
    var d0 := Doc(ns0);
    && (range.start >= last ==> MarkedInPlace(ns0, ns, accept, range, last, wrapped, to))
    && (range.start < last && AcceptsAll(accept) ==>
          (Doc(ns) == MarkCells(d0, range.start, range.End()) <==> !wrapped && AllMarked(d0, range.start, range.End())))
    && (range.start < last < range.End() && last < |d0| ==> !AllMarked(d0, range.start, range.End()))
  }

  lemma RangeWrapped(value: string, ns: seq<MapNode>, accept: nat -> bool, range: Range, last: int, c: CheckedRange,
                     value': string, next: seq<MapNode>, to: int, at: nat, t: int, originalLength: int)
    requires Consistent(value, ns) && SettledFrom(ns, last) && range.length > 0 && Consistent(value', next)
    requires originalLength == |Doc(ns)| && c == CheckWhitespace(range, originalLength, value) && c.valid && 0 <= c.start < c.end
    requires RangeWrappedUpTo(ns, next, c.start, c.end, accept, to, at, t)
    ensures MarkedExactly(ns, next, accept, range, last, true, to)
  {
    LiveFits(ns);
    if range.start >= last {
      var until := Min(range.End(), |Doc(ns)|);
      SamePart(value, ns, range, last, c, Part(Text(Doc(ns)), range));
      WrappedInPlace(value, ns, accept, range, last, c.start, c.end, next, Offset(ns), until, t, to);
    } else {
      if AcceptsAll(accept) { MarkedElsewhere(value, ns, Doc(next), c.start, at, accept, range, last); }
      NotAllMarked(value, ns, range, last);
    }
  }

  lemma RangeDone(value: string, ns: seq<MapNode>, accept: nat -> bool, range: Range, last: int, c: CheckedRange,
                  value': string, next: seq<MapNode>, to: int, at: nat, t: int, originalLength: int)
    requires Consistent(value, ns) && range.length > 0 && Consistent(value', next)
    requires originalLength == |Doc(ns)| && c == CheckWhitespace(range, originalLength, value) && c.valid
    requires 0 <= c.start < c.end && RangeWrappedUpTo(ns, next, c.start, c.end, accept, to, at, t)
    ensures DocSpans(next) == DocSpans(ns)
    ensures SettledFrom(ns, last) ==> MarkedExactly(ns, next, accept, range, last, true, to)
  {
    SpansStay(ns, next, c.start, t);
    if SettledFrom(ns, last) {
      RangeWrapped(value, ns, accept, range, last, c, value', next, to, at, t, originalLength);
    }
  }

  lemma WrappedInPlace(value: string, ns: seq<MapNode>, accept: nat -> bool, range: Range, last: int, start: int, end: int,
                       next: seq<MapNode>, offset: int, until: int, t: int, to: int)
    requires Consistent(value, ns) && SettledFrom(ns, last) && last <= range.start && offset == Offset(ns)
    requires start + offset == range.start && end + offset == until && until == Min(range.End(), |Doc(ns)|) && 0 <= start
    requires MarkedTo(Doc(ns), next, range.start, until, to) && (t == start ==> next == ns)
    requires StopsAt(MapSpans(ns), accept, start, end, t) && to == t + offset
    requires !Blank(Part(Text(Doc(ns)), range)) && forall k | 0 <= k < |next| :: 0 <= next[k].start
    ensures MarkedInPlace(ns, next, accept, range, last, true, to)
  {
    assert UntouchedBehind(ns, start);
    StopInDocument(value, ns, accept, start, end, t, offset, range.start, until, to);
    if range.start < to { MarkedRest(ns, next, range.start, until, to); }
  }

  lemma CheckedBounds(range: Range, originalLength: int, value: string, c: CheckedRange)
    requires c == CheckWhitespace(range, originalLength, value)
    ensures c.valid ==> 0 <= c.start < c.end <= |value|
  {
  }

  lemma RangeSkipped(value: string, ns: seq<MapNode>, range: Range, last: int, c: CheckedRange, originalLength: int)
    requires Consistent(value, ns) && SettledFrom(ns, last) && range.length > 0
    requires originalLength == |Doc(ns)| && c == CheckWhitespace(range, originalLength, value) && !c.valid
    ensures forall accept, to :: MarkedExactly(ns, ns, accept, range, last, false, to)
  {
    LiveFits(ns);
    if range.start >= last {
      SamePart(value, ns, range, last, c, Part(Text(Doc(ns)), range));
    } else {
      NothingToMark(Doc(ns), range.start, range.End());
      NotAllMarked(value, ns, range, last);
    }
  }

  lemma MarkedRest(ns: seq<MapNode>, next: seq<MapNode>, from: int, until: int, to: int)
    requires MarkedTo(Doc(ns), next, from, until, to) && 0 <= from < to <= until <= |Doc(ns)|
    requires forall k | 0 <= k < |next| :: 0 <= next[k].start
    ensures SettledFrom(next, to)
  {
    var k :| 0 <= k < |next| && next[k].start + Offset(next) == to && PiecesCells(next[k].before) != [];
    LiveFits(next);
  }

  /** Marking changes nothing exactly when all is marked. */
  lemma NothingToMark(d: seq<Cell>, a: int, b: int)
    ensures MarkCells(d, a, b) == d <==> AllMarked(d, a, b)
  {
    var m := MarkCells(d, a, b);
    forall p | 0 <= p < |d| ensures m[p] == d[p] <==> (a <= p < b ==> d[p].marked) {}
    if AllMarked(d, a, b) { assert m == d; }
  }

  /** A range that reaches past `last` was not marked before. */
  lemma NotAllMarked(value: string, ns: seq<MapNode>, range: Range, last: int)
    requires Consistent(value, ns) && SettledFrom(ns, last)
    ensures range.start < last < range.End() && last < |Doc(ns)| ==> !AllMarked(Doc(ns), range.start, range.End())
  {
    LastUnmarked(value, ns, last);
  }

  /** A range that starts before `last` and is wrapped is marked at the wrong place. */
  lemma MarkedElsewhere(value: string, ns: seq<MapNode>, d: seq<Cell>, start: int, at: nat, accept: nat -> bool,
                        range: Range, last: int)
    requires Consistent(value, ns) && SplitAt(ns, last) && start + Offset(ns) <= range.start < last
    requires Entered(ns, start, at, accept, d) && accept(at)
    ensures d != MarkCells(Doc(ns), range.start, range.End())
  {
    var p := NodePlace(ns, at) + (start - ns[at].start);
    LiesBefore(value, ns, start, at, last, p);
    MarkOutside(Doc(ns), range.start, range.End(), p);
    assert d[p].marked;
  }

  lemma MarkOutside(d: seq<Cell>, a: int, b: int, p: int)
    requires 0 <= p < |d| && p < a && !d[p].marked
    ensures !MarkCells(d, a, b)[p].marked
  {
  }

  lemma MoreDoc(ns: seq<MapNode>, k: nat)
    requires k < |ns| && PiecesCells(ns[k].before) != []
    ensures |Doc(ns)| > |Live(ns)|
  {
    NodeSplit(ns, k);
    LiveFits(ns[..k]);
    LiveFits(ns[k + 1..]);
  }

  /** Before the last split, a mapped character lies before the place that the offset says. */
  lemma LiesBefore(value: string, ns: seq<MapNode>, start: int, at: nat, last: int, p: int)
    requires Consistent(value, ns) && SplitAt(ns, last) && start + Offset(ns) < last
    requires at < |ns| && ns[at].start <= start < ns[at].end
    requires p == NodePlace(ns, at) + (start - ns[at].start)
    ensures 0 <= p < |Doc(ns)| && !Doc(ns)[p].marked && p < start + Offset(ns)
  {
    var k :| 0 <= k < |ns| && ns[k].start + Offset(ns) == last && PiecesCells(ns[k].before) != [];
    if k <= at { StartsMonotone(value, ns, k, at); }
    LiveCell(value, ns, at, start);
    MoreBehind(ns, at, k, ns[at + 1..]);
    NodeSplit(ns, at);
  }

  lemma MoreBehind(ns: seq<MapNode>, at: nat, k: nat, rest: seq<MapNode>)
    requires at < k < |ns| && rest == ns[at + 1..] && PiecesCells(ns[k].before) != []
    ensures |Doc(rest)| > |Live(rest)|
  {
    assert rest[k - at - 1] == ns[k];
    MoreDoc(rest, k - at - 1);
  }

  // ----- lists of ranges -----

  /** Nothing was split off anywhere: the state of a fresh map. */
  ghost predicate Untouched(ns: seq<MapNode>) {
    forall i | 0 <= i < |ns| :: ns[i].before == []
  }

  lemma {:induction false} UntouchedDoc(ns: seq<MapNode>)
    requires Untouched(ns)
    ensures Doc(ns) == Cells(Live(ns), false)
  {
    if ns != [] { UntouchedDoc(ns[..|ns| - 1]); }
  }

  /** The ranges follow each other without overlap, from `last` on. */
  ghost predicate InOrder(ranges: seq<Range>, last: int) {
    ranges == [] || (last <= ranges[0].start && InOrder(ranges[1..], ranges[0].End()))
  }

  lemma InOrderLater(ranges: seq<Range>, last: int, earlier: int)
    requires InOrder(ranges, last) && earlier <= last
    ensures InOrder(ranges, earlier)
  {
  }

  ghost predicate Covers(text: string, r: Range, p: int) {
    r.start <= p < r.End() && !Blank(Part(text, r))
  }

  /** `d` is `text` with exactly the ranges that are not blank marked. */
  ghost predicate MarkedBy(text: string, ranges: seq<Range>, d: seq<Cell>) {
    && |d| == |text|
    && forall p | 0 <= p < |d| ::
         d[p].c == text[p] && (d[p].marked <==> exists i | 0 <= i < |ranges| :: Covers(text, ranges[i], p))
  }

  /** The ranges that `checkRanges` lets through, given the end of the one before. */
  function Accepted(ranges: seq<Range>, last: int): (r: seq<Range>)
    ensures forall x | x in r :: x in ranges && x.length > 0
  {
    if ranges == [] then []
    else if ranges[0].End() - last > 0 && ranges[0].length > 0 then
      [ranges[0]] + Accepted(ranges[1..], ranges[0].End())
    else Accepted(ranges[1..], last)
  }

  /** `checkRanges`, on ranges that are sorted by their starts. */
  method CheckRanges(ranges: seq<Range>) returns (stack: seq<Range>)
    ensures stack == Accepted(ranges, 0)
  {
    stack := [];
    var last := 0;
    for i := 0 to |ranges|
      invariant Accepted(ranges, 0) == stack + Accepted(ranges[i..], last)
    {
      var item := ranges[i];
      assert ranges[i..][0] == item && ranges[i..][1..] == ranges[i + 1..];
      if item.End() - last > 0 && item.length > 0 {
        stack := stack + [item];
        last := item.End();
      }
    }
  }

  /** The check only makes sure that the ends grow. */
  lemma {:induction false} AcceptedEndsGrow(ranges: seq<Range>, last: int)
    ensures forall i | 0 <= i < |Accepted(ranges, last)| :: last < Accepted(ranges, last)[i].End()
    ensures forall i, j | 0 <= i < j < |Accepted(ranges, last)| ::
              Accepted(ranges, last)[i].End() < Accepted(ranges, last)[j].End()
  {
    if ranges != [] {
      AcceptedEndsGrow(ranges[1..], ranges[0].End());
      AcceptedEndsGrow(ranges[1..], last);
    }
  }

  /** So it lets ranges through that overlap. */
  lemma OverlapIsAccepted()
    ensures Accepted([Range(0, 4), Range(2, 4)], 0) == [Range(0, 4), Range(2, 4)]
    ensures !InOrder([Range(0, 4), Range(2, 4)], 0)
  {
    var ranges := [Range(0, 4), Range(2, 4)];
    assert ranges[1..] == [Range(2, 4)];
    assert ranges[1..][1..] == [];
  }

  /** The range ends behind all ranges before it. */
  ghost predicate Reaches(ranges: seq<Range>, j: nat, last: int)
    requires j < |ranges|
  {
    ranges[j].length > 0 && ranges[j].End() > last
    && forall i | 0 <= i < j && ranges[i].length > 0 :: ranges[j].End() > ranges[i].End()
  }

  /** The check lets through exactly the ranges that end behind all ranges before them. */
  lemma {:induction false} AcceptedAre(ranges: seq<Range>, last: int, r: Range)
    ensures r in Accepted(ranges, last) <==> exists j: nat :: j < |ranges| && Reaches(ranges, j, last) && ranges[j] == r
    decreases |ranges|
  {
    if ranges != [] {
      var rest := ranges[1..];
      var next := if ranges[0].End() > last && ranges[0].length > 0 then ranges[0].End() else last;
      AcceptedAre(rest, next, r);
      FirstOrRest(ranges, rest, last, next, r);
    }
  }

  lemma FirstOrRest(ranges: seq<Range>, rest: seq<Range>, last: int, next: int, r: Range)
    requires ranges != [] && rest == ranges[1..]
    requires next == if ranges[0].End() > last && ranges[0].length > 0 then ranges[0].End() else last
    ensures (exists j: nat :: j < |ranges| && Reaches(ranges, j, last) && ranges[j] == r) <==>
              (ranges[0].End() > last && ranges[0].length > 0 && ranges[0] == r)
              || exists k: nat :: k < |rest| && Reaches(rest, k, next) && rest[k] == r
  {
    if j: nat :| j < |ranges| && Reaches(ranges, j, last) && ranges[j] == r {
      if j > 0 {
        NextReaches(ranges, rest, j, last, next);
        assert rest[j - 1] == r;
      }
    }
    if k: nat :| k < |rest| && Reaches(rest, k, next) && rest[k] == r {
      NextReaches(ranges, rest, k + 1, last, next);
      assert ranges[k + 1] == r;
    }
    if ranges[0].End() > last && ranges[0].length > 0 && ranges[0] == r { assert Reaches(ranges, 0, last); }
  }

  /** The range starts where all ranges before it have ended. */
  ghost predicate StartsBehind(ranges: seq<Range>, j: nat, last: int)
    requires j < |ranges|
  {
    ranges[j].start >= last && forall i | 0 <= i < j && ranges[i].length > 0 :: ranges[j].start >= ranges[i].End()
  }

  lemma NextReaches(ranges: seq<Range>, rest: seq<Range>, j: nat, last: int, next: int)
    requires ranges != [] && rest == ranges[1..] && 0 < j < |ranges|
    requires next == if ranges[0].End() > last && ranges[0].length > 0 then ranges[0].End() else last
    ensures Reaches(ranges, j, last) <==> Reaches(rest, j - 1, next)
    ensures StartsBehind(ranges, j, last) <==> StartsBehind(rest, j - 1, next)
  {
    assert forall i | 0 < i < j :: ranges[i] == rest[i - 1];
    assert forall i | 0 <= i < j - 1 :: rest[i] == ranges[i + 1];
  }

  /** The check leaves ranges that do not overlap exactly where each range that ends behind all
      earlier ones also starts behind them. */
  lemma {:induction false} OverlapExactly(ranges: seq<Range>, last: int)
    ensures InOrder(Accepted(ranges, last), last) <==>
              forall j: nat | j < |ranges| && Reaches(ranges, j, last) :: StartsBehind(ranges, j, last)
    decreases |ranges|
  {
    if ranges != [] {
      var rest := ranges[1..];
      var accepted := ranges[0].End() > last && ranges[0].length > 0;
      var next := if accepted then ranges[0].End() else last;
      OverlapExactly(rest, next);
      forall j: nat | 0 < j < |ranges|
        ensures Reaches(ranges, j, last) <==> Reaches(rest, j - 1, next)
        ensures StartsBehind(ranges, j, last) <==> StartsBehind(rest, j - 1, next)
      {
        NextReaches(ranges, rest, j, last, next);
      }
      FirstAndRest(ranges, rest, last, next, accepted);
    }
  }

  lemma FirstAndRest(ranges: seq<Range>, rest: seq<Range>, last: int, next: int, accepted: bool)
    requires ranges != [] && rest == ranges[1..] && accepted == (ranges[0].End() > last && ranges[0].length > 0)
    requires next == if accepted then ranges[0].End() else last
    requires InOrder(Accepted(rest, next), next) <==>
               forall k: nat | k < |rest| && Reaches(rest, k, next) :: StartsBehind(rest, k, next)
    requires forall j: nat | 0 < j < |ranges| :: Reaches(ranges, j, last) <==> Reaches(rest, j - 1, next)
    requires forall j: nat | 0 < j < |ranges| :: StartsBehind(ranges, j, last) <==> StartsBehind(rest, j - 1, next)
    ensures InOrder(Accepted(ranges, last), last) <==>
              forall j: nat | j < |ranges| && Reaches(ranges, j, last) :: StartsBehind(ranges, j, last)
  {
    assert accepted ==> Accepted(ranges, last)[1..] == Accepted(rest, next);
    assert Reaches(ranges, 0, last) == accepted && StartsBehind(ranges, 0, last) == (ranges[0].start >= last);
    forall k: nat | k < |rest|
      ensures Reaches(rest, k, next) <==> Reaches(ranges, k + 1, last)
      ensures StartsBehind(rest, k, next) <==> StartsBehind(ranges, k + 1, last)
    {
      assert Reaches(ranges, k + 1, last) <==> Reaches(rest, k + 1 - 1, next);
    }
  }

  /** Which nodes of a range are to be wrapped. */
  type Filter = (nat, nat) -> bool

  /** The filter for the nodes of one range. */
  function FilterOf(accept: Filter, range: nat): nat -> bool {
    (i: nat) => accept(range, i)
  }

  ghost predicate AcceptsAll(accept: nat -> bool) {
    forall i :: accept(i)
  }

  /** The filter lets all nodes of all ranges through. */
  ghost predicate AcceptsEverything(accept: Filter) {
    forall r :: AcceptsAll(FilterOf(accept, r))
  }

  /** The range covers `p`, which lies before the node at which its marking ends. */
  ghost predicate CoversUpTo(text: string, spans: seq<Span>, accept: nat -> bool, r: Range, p: int) {
    !Blank(Part(text, r))
    && exists t :: StopsAt(spans, accept, r.start, Min(r.End(), |text|), t) && r.start <= p < t
  }

  ghost predicate SomeCovers(text: string, spans: seq<Span>, ranges: seq<Range>, accept: Filter, p: int) {
    exists i: nat :: i < |ranges| && CoversUpTo(text, spans, FilterOf(accept, i), ranges[i], p)
  }

  /** `d` is `text` with exactly the ranges that are not blank marked, each up to the first node that
      the filter rejects. */
  ghost predicate MarkedUpTo(text: string, spans: seq<Span>, ranges: seq<Range>, accept: Filter, d: seq<Cell>) {
    && |d| == |text|
    && forall p | 0 <= p < |d| ::
         d[p].c == text[p]
         && (d[p].marked <==> SomeCovers(text, spans, ranges, accept, p))
  }

  lemma NothingCovered(value: string, ns: seq<MapNode>, accept: Filter)
    requires Consistent(value, ns) && Untouched(ns)
    ensures |Doc(ns)| == |value| && SettledFrom(ns, 0) && MarkedUpTo(value, DocSpans(ns), [], accept, Doc(ns))
  {
    UntouchedDoc(ns);
  }

  lemma SomeOrLast(text: string, spans: seq<Span>, ranges: seq<Range>, accept: Filter, r: Range, p: int, more: seq<Range>)
    requires more == ranges + [r]
    ensures SomeCovers(text, spans, more, accept, p) <==>
              SomeCovers(text, spans, ranges, accept, p) || CoversUpTo(text, spans, FilterOf(accept, |ranges|), r, p)
  {
    var n := |ranges|;
    if CoversUpTo(text, spans, FilterOf(accept, n), r, p) {
      assert CoversUpTo(text, spans, FilterOf(accept, n), more[n], p);
    }
    if SomeCovers(text, spans, ranges, accept, p) { StillCovers(text, spans, ranges, accept, p, more); }
    if SomeCovers(text, spans, more, accept, p) { CoveredBefore(text, spans, ranges, accept, r, p, more); }
  }

  lemma StillCovers(text: string, spans: seq<Span>, ranges: seq<Range>, accept: Filter, p: int, more: seq<Range>)
    requires ranges <= more && SomeCovers(text, spans, ranges, accept, p)
    ensures SomeCovers(text, spans, more, accept, p)
  {
    var i: nat :| i < |ranges| && CoversUpTo(text, spans, FilterOf(accept, i), ranges[i], p);
    assert more[i] == ranges[i];
  }

  lemma CoveredBefore(text: string, spans: seq<Span>, ranges: seq<Range>, accept: Filter, r: Range, p: int, more: seq<Range>)
    requires more == ranges + [r] && SomeCovers(text, spans, more, accept, p)
    ensures SomeCovers(text, spans, ranges, accept, p) || CoversUpTo(text, spans, FilterOf(accept, |ranges|), r, p)
  {
    var i: nat :| i < |more| && CoversUpTo(text, spans, FilterOf(accept, i), more[i], p);
    if i < |ranges| {
      assert more[i] == ranges[i];
      assert CoversUpTo(text, spans, FilterOf(accept, i), ranges[i], p);
    } else {
      assert i == |ranges| && more[i] == r;
    }
  }

  lemma CoveredOneMore(text: string, spans: seq<Span>, ranges: seq<Range>, accept: Filter, r: Range, d: seq<Cell>,
                       e: seq<Cell>, wrapped: bool, to: int, more: seq<Range>)
    requires MarkedUpTo(text, spans, ranges, accept, d) && wrapped == !Blank(Part(Text(d), r)) && more == ranges + [r]
    requires forall i, j | 0 <= i < j < |spans| :: spans[i].to <= spans[j].from
    requires wrapped ==> StopsAt(spans, FilterOf(accept, |ranges|), r.start, Min(r.End(), |d|), to)
    requires e == if wrapped then MarkCells(d, r.start, to) else d
    ensures MarkedUpTo(text, spans, more, accept, e)
  {
    assert Text(d) == text;
    forall p | 0 <= p < |e| ensures e[p].c == text[p] && (e[p].marked <==> SomeCovers(text, spans, more, accept, p)) {
      LastCovers(text, spans, FilterOf(accept, |ranges|), r, wrapped, to, p);
      SomeOrLast(text, spans, ranges, accept, r, p, more);
    }
  }

  lemma LastCovers(text: string, spans: seq<Span>, accept: nat -> bool, r: Range, wrapped: bool, to: int, p: int)
    requires wrapped == !Blank(Part(text, r))
    requires forall i, j | 0 <= i < j < |spans| :: spans[i].to <= spans[j].from
    requires wrapped ==> StopsAt(spans, accept, r.start, Min(r.End(), |text|), to)
    ensures CoversUpTo(text, spans, accept, r, p) <==> wrapped && r.start <= p < to
  {
    if CoversUpTo(text, spans, accept, r, p) {
      var t :| StopsAt(spans, accept, r.start, Min(r.End(), |text|), t) && r.start <= p < t;
      StopIsOnly(spans, accept, r.start, Min(r.End(), |text|), t, to);
    }
  }

  /** With a filter that accepts everything the ranges are marked to their ends. */
  lemma CoveredByAll(text: string, spans: seq<Span>, ranges: seq<Range>, accept: Filter, d: seq<Cell>)
    requires MarkedUpTo(text, spans, ranges, accept, d) && AcceptsEverything(accept)
    requires forall i | 0 <= i < |ranges| :: ranges[i].length > 0
    ensures MarkedBy(text, ranges, d)
  {
    forall i: nat, p | i < |ranges| && 0 <= p < |text|
      ensures CoversUpTo(text, spans, FilterOf(accept, i), ranges[i], p) <==> Covers(text, ranges[i], p)
    {
      var r := ranges[i];
      assert AcceptsAll(FilterOf(accept, i));
      if Covers(text, r, p) {
        assert StopsAt(spans, FilterOf(accept, i), r.start, Min(r.End(), |text|), Min(r.End(), |text|));
      }
    }
  }

  /** The first `r` ranges are marked, and the others come after them. */
  ghost predicate Done(text: string, spans: seq<Span>, ranges: seq<Range>, accept: Filter, r: nat, ns: seq<MapNode>,
                       last: int)
  {
    && r <= |ranges| && SettledFrom(ns, last) && InOrder(ranges[r..], last) && DocSpans(ns) == spans
    && MarkedUpTo(text, spans, ranges[..r], accept, Doc(ns))
  }

  lemma NextRange(ranges: seq<Range>, r: nat, r': nat, before: int)
    requires r' == r + 1 <= |ranges| && InOrder(ranges[r..], before)
    ensures before <= ranges[r].start && InOrder(ranges[r'..], ranges[r].End())
    ensures ranges[..r'] == ranges[..r] + [ranges[r]]
  {
    assert ranges[r..][0] == ranges[r] && ranges[r..][1..] == ranges[r'..];
  }

  lemma DoneOneMore(text: string, spans: seq<Span>, ranges: seq<Range>, accept: Filter, r: nat, ns: seq<MapNode>,
                    before: int, next: seq<MapNode>, wrapped: bool, to: int, r': nat)
    returns (last: int)
    requires Done(text, spans, ranges, accept, r, ns, before) && r' == r + 1 <= |ranges| && ranges[r].length > 0
    requires MarkedExactly(ns, next, FilterOf(accept, r), ranges[r], before, wrapped, to) && DocSpans(next) == DocSpans(ns)
    ensures Done(text, spans, ranges, accept, r', next, last)
  {
    var range := ranges[r];
    NextRange(ranges, r, r', before);
    SpansInOrder(ns);
    assert MarkedInPlace(ns, next, FilterOf(accept, r), range, before, wrapped, to);
    CoveredOneMore(text, spans, ranges[..r], accept, range, Doc(ns), Doc(next), wrapped, to, ranges[..r']);
    last := if wrapped && range.start < to then to else before;
    InOrderLater(ranges[r'..], range.End(), last);
  }

  /** The state of the loop over the ranges. */
  ghost predicate Underway(text: string, d0: seq<Cell>, spans: seq<Span>, ranges: seq<Range>, accept: Filter, r: nat,
                           value: string, ns: seq<MapNode>, last: int, ordered: bool)
  {
    Consistent(value, ns) && Extends(d0, Doc(ns)) && (ordered ==> Done(text, spans, ranges, accept, r, ns, last))
  }

  lemma UnderwayStill(text: string, d0: seq<Cell>, spans: seq<Span>, ranges: seq<Range>, accept: Filter, r: nat,
                      ns: seq<MapNode>, before: int, value: string, next: seq<MapNode>, wrapped: bool, to: int, r': nat,
                      ordered: bool)
    returns (last: int)
    requires Extends(d0, Doc(ns)) && (ordered ==> Done(text, spans, ranges, accept, r, ns, before))
    requires r' == r + 1 <= |ranges| && ranges[r].length > 0
    requires Consistent(value, next) && Extends(Doc(ns), Doc(next)) && DocSpans(next) == DocSpans(ns)
    requires SettledFrom(ns, before) ==> MarkedExactly(ns, next, FilterOf(accept, r), ranges[r], before, wrapped, to)
    ensures Underway(text, d0, spans, ranges, accept, r', value, next, last, ordered)
  {
    last := before;
    if ordered { last := DoneOneMore(text, spans, ranges, accept, r, ns, before, next, wrapped, to, r'); }
  }

  lemma AllDone(text: string, d0: seq<Cell>, spans: seq<Span>, ranges: seq<Range>, accept: Filter, r: nat,
                value: string, ns: seq<MapNode>, last: int, ordered: bool)
    requires Underway(text, d0, spans, ranges, accept, r, value, ns, last, ordered) && r == |ranges|
    requires forall i | 0 <= i < |ranges| :: ranges[i].length > 0
    ensures ordered ==> MarkedUpTo(text, spans, ranges, accept, Doc(ns))
    ensures AcceptsEverything(accept) && ordered ==> MarkedBy(text, ranges, Doc(ns))
  {
    assert ranges[..r] == ranges;
    if ordered && AcceptsEverything(accept) { CoveredByAll(text, spans, ranges, accept, Doc(ns)); }
  }

  /** `markRanges`: the checked ranges are marked in a document of the given text nodes. */
  method MarkRanges(texts: seq<string>, sorted: seq<Range>, accept: Filter) returns (map': TextMap)
    ensures map'.Valid() && fresh(map') && fresh(map'.nodes)
    ensures Text(map'.Document()) == Joined(texts)
    ensures InOrder(Accepted(sorted, 0), 0) ==>
              MarkedUpTo(Joined(texts), SpansOf(texts), Accepted(sorted, 0), accept, map'.Document())
    ensures AcceptsEverything(accept) && InOrder(Accepted(sorted, 0), 0) ==>
              MarkedBy(Joined(texts), Accepted(sorted, 0), map'.Document())
  {
    var ranges := CheckRanges(sorted);
    map' := new TextMap(texts);
    ghost var d0 := map'.Document();
    FreshMap(texts, map'.value, map'.nodes[..], d0);
    map'.WrapRangeFromIndex(ranges, accept);
    SameTexts(d0, map'.Document());
  }

  lemma FreshMap(texts: seq<string>, value: string, ns: seq<MapNode>, d: seq<Cell>)
    requires |ns| == |texts| && forall i | 0 <= i < |ns| :: ns[i].before == [] && ns[i].text == texts[i]
    requires value == Joined(texts) && d == Doc(ns) == Cells(value, false)
    ensures Untouched(ns) && Text(d) == Joined(texts) && DocSpans(ns) == SpansOf(texts)
  {
    FreshSpans(texts, ns);
  }

  lemma SameTexts(d: seq<Cell>, e: seq<Cell>)
    requires Extends(d, e)
    ensures Text(e) == Text(d)
  {
  }

  /** The map of the first `n` texts. */
  ghost predicate IsMapOf(texts: seq<string>, n: nat, value: string, ns: seq<MapNode>) {
    && n <= |texts| && |ns| == n && Consistent(value, ns)
    && value == Joined(texts[..n]) && Doc(ns) == Cells(value, false)
    && forall k | 0 <= k < n :: ns[k].before == [] && ns[k].text == texts[k]
  }

  lemma MapOneMore(texts: seq<string>, i: nat, value: string, ns: seq<MapNode>, n: MapNode,
                   value': string, ns': seq<MapNode>, i': nat)
    requires IsMapOf(texts, i, value, ns) && i' == i + 1 <= |texts|
    requires n.start == |value| && n.end == n.start + |n.text| && n.before == [] && n.text == texts[i]
    requires value' == value + n.text && ns' == ns + [n]
    ensures IsMapOf(texts, i', value', ns')
  {
    AppendNode(value, ns, n, value', ns');
    JoinedSnoc(texts[..i], texts[i], texts[..i']);
  }

  method MapTexts(texts: seq<string>) returns (value: string, ns: seq<MapNode>)
    ensures IsMapOf(texts, |texts|, value, ns)
  {
    value, ns := "", [];
    var i := 0;
    while i < |texts|
      invariant IsMapOf(texts, i, value, ns)
    {
      ghost var before, nodes, next := value, ns, i + 1;
      var start := |value|;
      value := value + texts[i];
      var n := MapNode(start, |value|, [], texts[i]);
      ns := ns + [n];
      MapOneMore(texts, i, before, nodes, n, value, ns, next);
      i := i + 1;
      assert i == next;
    }
  }

  /** The text nodes of a document with their concatenated text: `dict`. */
  class TextMap {
    var value: string
    const nodes: array<MapNode>

    ghost predicate Valid()
      reads this, nodes
    {
      Consistent(value, nodes[..])
    }

    /** The document with its marks. */
    ghost function Document(): seq<Cell>
      reads this, nodes
    {
      Doc(nodes[..])
    }

    /** `getTextNodes` */
    constructor (texts: seq<string>)
      ensures Valid() && fresh(nodes) && nodes.Length == |texts|
      ensures forall i | 0 <= i < |texts| :: nodes[i].before == [] && nodes[i].text == texts[i]
      ensures value == Joined(texts) && Document() == Cells(value, false)
    {
      var val, ns := MapTexts(texts);
      value := val;
      nodes := new MapNode[|ns|](i requires 0 <= i < |ns| => ns[i]);
      new;
      assert nodes[..] == ns;
      assert texts[..|texts|] == texts;
    }

    /** `wrapRangeInMappedTextNode`: wraps the mapped text from `start0` to `end0`, node by
        node, as long as the filter accepts the nodes.

        Text and map stay consistent in every case. Every node that the range touches is split where
        it is touched, up to the first one that the filter rejects, and all others stay as they are.
        When no node behind the start was touched before, exactly the document's text of the range is
        marked, up to `to`, the place of that node; `t` is its place in the map. `at` is the node in
        which the range starts. */
    method WrapRange(start0: int, end0: int, accept: nat -> bool)
      returns (ghost to: int, ghost at: nat, ghost t: int)
      requires Valid() && 0 <= start0 < end0 <= |value|
      modifies this, nodes
      ensures Valid() && Extends(old(Document()), Document())
      ensures RangeWrappedUpTo(old(nodes[..]), nodes[..], start0, end0, accept, to, at, t)
      ensures LeavesRejected(old(nodes[..]), nodes[..], accept)
    {
      ghost var ns0 := nodes[..];
      var start, end, i: nat, going := start0, end0, 0, true;
      ghost var entered := false;
      at, to, t := 0, start0 + Offset(ns0), start0;
      LoopStarts(ns0, start0, end0, accept, value, to);
      MarkingStarts(ns0, start0, end0, accept);
      while going
        invariant Looping(ns0, start0, end0, accept, value, nodes[..], i, start, end, going, to, at, entered)
        invariant Marking(ns0, start0, end0, accept, nodes[..], i, start, end, going, t) && to == t + Offset(ns0)
        invariant i < nodes.Length
        decreases if going then 1 else 0, nodes.Length - i
      {
        if i + 1 == nodes.Length || nodes[i + 1].start > start {
          i, start, end, going, to, at, t := WrapHere(i, start, end, ns0, start0, end0, accept, to, at, entered, t);
          entered := true;
        } else {
          var next := i + 1;
          NextNode(ns0, start0, end0, accept, value, nodes[..], i, start, end, to, at, entered, next);
          MarkingSkips(ns0, start0, end0, accept, value, nodes[..], i, start, end, t, next);
          i := next;
        }
      }
      WrappingEnds(ns0, start0, end0, accept, value, nodes[..], i, start, end, to, at, entered, t);
    }

    /** The chosen node: it is wrapped if the filter accepts it, and otherwise that is the end. */
    method WrapHere(i0: nat, start0: int, end0: int, ghost ns0: seq<MapNode>, ghost first: int, ghost last: int,
                    accept: nat -> bool, ghost to0: int, ghost at0: nat, ghost entered: bool, ghost t0: int)
      returns (i: nat, start: int, end: int, going: bool, ghost to: int, ghost at: nat, ghost t: int)
      requires i0 < nodes.Length && (i0 + 1 == nodes.Length || nodes[i0 + 1].start > start0)
      requires Looping(ns0, first, last, accept, value, nodes[..], i0, start0, end0, true, to0, at0, entered)
      requires Marking(ns0, first, last, accept, nodes[..], i0, start0, end0, true, t0) && to0 == t0 + Offset(ns0)
      modifies this, nodes
      ensures i < nodes.Length && (going ==> i == i0 + 1)
      ensures Looping(ns0, first, last, accept, value, nodes[..], i, start, end, going, to, at, true)
      ensures Marking(ns0, first, last, accept, nodes[..], i, start, end, going, t) && to == t + Offset(ns0)
    {
      if accept(i0) {
        i, start, end, going, to, at, t :=
          WrapRound(i0, start0, end0, ns0, first, last, accept, to0, at0, entered, t0);
      } else {
        i, start, end, going, to, t := i0, start0, end0, false, to0, t0;
        MarkingStops(ns0, first, last, accept, value, nodes[..], i, start, end, t);
        at := Rejected(ns0, first, last, accept, value, nodes[..], i, start, end, to, at0, entered);
      }
    }

    /** One round that wraps: on to the next node, when the range goes on there. */
    method WrapRound(i0: nat, start0: int, end0: int, ghost ns0: seq<MapNode>, ghost first: int, ghost last: int,
                     ghost accept: nat -> bool, ghost to0: int, ghost at0: nat, ghost entered: bool, ghost t0: int)
      returns (i: nat, start: int, end: int, going: bool, ghost to: int, ghost at: nat, ghost t: int)
      requires i0 < nodes.Length && (i0 + 1 == nodes.Length || nodes[i0 + 1].start > start0) && accept(i0)
      requires Looping(ns0, first, last, accept, value, nodes[..], i0, start0, end0, true, to0, at0, entered)
      requires Marking(ns0, first, last, accept, nodes[..], i0, start0, end0, true, t0) && to0 == t0 + Offset(ns0)
      modifies this, nodes
      ensures i < nodes.Length && (going ==> i == i0 + 1)
      ensures Looping(ns0, first, last, accept, value, nodes[..], i, start, end, going, to, at, true)
      ensures Marking(ns0, first, last, accept, nodes[..], i, start, end, going, t) && to == t + Offset(ns0)
    {
      ghost var ns, val := nodes[..], value;
      ChosenNode(val, ns, i0, start0);
      var s, e;
      ghost var p, q;
      s, e, p, q := WrapInNode(i0, start0, end0);
      i, start, end := i0, start0, end0 - e;
      going := end > nodes[i].end;
      if going { start, i := nodes[i].end, i + 1; }
      to := nodes[i0].start + Offset(nodes[..]);
      at := if entered then at0 else i0;
      t := t0 + (e - s);
      AfterWrap(val, ns, nodes[..], i0, start0, end0, s, e);
      if UntouchedBehind(ns, start0) { UntouchedAfter(val, ns, nodes[..], i0, start0, s, e); }
      MarkingRound(ns0, first, last, accept, val, ns, nodes[..], i0, start0, end0, s, e, t0, t, i, start, end, going);
      PlaceMoves(ns, nodes[..], i0, start0, s, e, val, value, to0, to);
      AfterRound(ns0, first, last, accept, val, ns, value, nodes[..], i0, start0, end0, s, e, p, q, to0, to, at0, at,
                 entered, i, start, end, going);
    }

    /** `wrapRangeFromIndex` for one range. `last` is the place up to which the ranges before it were
        wrapped; from there on the document is still as it was mapped. The range is marked, up to
        the first node that the filter rejects, when it does not start before `last`; when it does,
        it is marked only if it has nothing left to be marked. */
    method MarkRange(range: Range, originalLength: int, accept: nat -> bool, ghost last: int)
      returns (c: CheckedRange, ghost to: int, ghost at: nat, ghost t: int)
      requires Valid() && originalLength == |Document()| && range.length > 0
      modifies this, nodes
      ensures Valid() && Extends(old(Document()), Document()) && DocSpans(nodes[..]) == DocSpans(old(nodes[..]))
      ensures c == CheckWhitespace(range, originalLength, old(value))
      ensures if c.valid then RangeWrappedUpTo(old(nodes[..]), nodes[..], c.start, c.end, accept, to, at, t)
              else nodes[..] == old(nodes[..])
      ensures SettledFrom(old(nodes[..]), last) ==>
                MarkedExactly(old(nodes[..]), nodes[..], accept, range, last, c.valid, to)
    {
      ghost var ns, val := nodes[..], value;
      c := CheckWhitespace(range, originalLength, value);
      CheckedBounds(range, originalLength, value, c);
      to, at, t := 0, 0, 0;
      if c.valid {
        to, at, t := WrapRange(c.start, c.end, accept);
        RangeDone(val, ns, accept, range, last, c, value, nodes[..], to, at, t, originalLength);
      } else if SettledFrom(ns, last) {
        RangeSkipped(val, ns, range, last, c, originalLength);
      }
    }

    /** `wrapRangeFromIndex` for a list of ranges, on a fresh map. When they do not overlap, the
        characters inside mark elements are exactly those of the ranges that are not blank, of each
        up to the first text node that the filter rejects, however the text is split into nodes. */
    method WrapRangeFromIndex(ranges: seq<Range>, accept: Filter)
      requires Valid() && Untouched(nodes[..]) && forall i | 0 <= i < |ranges| :: ranges[i].length > 0
      modifies this, nodes
      ensures Valid() && Extends(old(Document()), Document())
      ensures InOrder(ranges, 0) ==> MarkedUpTo(old(value), DocSpans(old(nodes[..])), ranges, accept, Document())
      ensures AcceptsEverything(accept) && InOrder(ranges, 0) ==> MarkedBy(old(value), ranges, Document())
    {
      var originalLength := |value|;
      ghost var text, d0, last, spans := value, Document(), 0, DocSpans(nodes[..]);
      ghost var ordered := InOrder(ranges, 0);
      NothingCovered(value, nodes[..], accept);
      assert d0 == Doc(nodes[..]);
      var r := 0;
      while r < |ranges|
        invariant r <= |ranges| && Underway(text, d0, spans, ranges, accept, r, value, nodes[..], last, ordered)
      {
        ghost var ns, before, next := nodes[..], last, r + 1;
        var c; ghost var to, at, t;
        c, to, at, t := MarkRange(ranges[r], originalLength, FilterOf(accept, r), last);
        last := UnderwayStill(text, d0, spans, ranges, accept, r, ns, before, value, nodes[..], c.valid, to, next, ordered);
        r := r + 1;
        assert r == next;
      }
      AllDone(text, d0, spans, ranges, accept, r, value, nodes[..], last, ordered);
    }

    /** The inner loop over all entries: those behind entry `i` move up by `e`. */
    method Shift(i: nat, e: int)
      requires i < nodes.Length
      modifies nodes
      ensures IsShifted(old(nodes[..]), nodes[..], i, e)
    {
      ghost var ns := nodes[..];
      for j := 0 to nodes.Length
        invariant forall k: nat | k < nodes.Length :: nodes[k] == if k < j then ShiftedNode(ns, i, e, k) else ns[k]
      {
        if j >= i {
          if nodes[j].start > 0 && j != i {
            nodes[j] := nodes[j].(start := nodes[j].start - e);
          }
          nodes[j] := nodes[j].(end := nodes[j].end - e);
        }
      }
    }

    /** Wraps the part of node `i` that lies between `start` and `end`, and takes the text
        up to there off the map. */
    method WrapInNode(i: nat, start: int, end: int) returns (s: nat, e: nat, ghost from: nat, ghost to: nat)
      requires Valid() && i < nodes.Length && nodes[i].start <= start < end && start < nodes[i].end
      modifies this, nodes
      ensures s == start - old(nodes[i].start)
      ensures e == (if end > old(nodes[i].end) then old(nodes[i].end) else end) - old(nodes[i].start)
      ensures from == NodePlace(old(nodes[..]), i) + s && to == NodePlace(old(nodes[..]), i) + e
      ensures IsConsumed(old(value), old(nodes[..]), i, s, e, from, to, value, nodes[..])
    {
      ghost var ns, val := nodes[..], value;
      var n := nodes[i];
      s := start - n.start;
      e := (if end > n.end then n.end else end) - n.start;
      from, to := NodePlace(ns, i) + s, NodePlace(ns, i) + e;
      LiveSplit(val, ns, i, s, e);
      WrapInTextNode(i, s, e);
      ghost var wrapped := nodes[..];
      assert n == ns[i];
      TakeOff(i, n.start, e);
      ghost var next, rest := nodes[..], value;
      Consumed(val, ns, i, s, e, n.start, wrapped, rest, next, from, to);
    }

    /** The wrapped text, and what is in front of it in its node, goes from the value and from all
        offsets. */
    method TakeOff(i: nat, start: nat, e: nat)
      requires i < nodes.Length && start + e <= |value|
      modifies this, nodes
      ensures value == old(value)[..start] + old(value)[e + start..]
      ensures IsShifted(old(nodes[..]), nodes[..], i, e)
    {
      value := value[..start] + value[e + start..];
      Shift(i, e);
    }

    /** `wrapRangeInTextNode`: the text node is split twice, and the middle part moves into
        a mark element. */
    method WrapInTextNode(i: nat, s: nat, e: nat)
      requires i < nodes.Length && s <= e <= |nodes[i].text|
      modifies nodes
      ensures nodes[..] == old(nodes[..])[i := Wrapped(old(nodes[i]), s, e)]
    {
      var n := nodes[i];
      var head, rest := n.text[..s], n.text[s..];
      var middle, ret := rest[..e - s], rest[e - s..];
      assert middle == n.text[s..e] && ret == n.text[e..];
      nodes[i] := n.(before := n.before + [Plain(head), Mark(middle)], text := ret);
    }
  }

  /** The text of a document. */
  function Joined(texts: seq<string>): string {
    if texts == [] then "" else Joined(texts[..|texts| - 1]) + texts[|texts| - 1]
  }

  /** The places of the texts one after the other. */
  function SpansOf(texts: seq<string>): (r: seq<Span>)
    ensures |r| == |texts| && forall j | 0 <= j < |texts| :: r[j] == Span(|Joined(texts[..j])|, |Joined(texts[..j + 1])|)
  {
    seq(|texts|, j requires 0 <= j < |texts| => Span(|Joined(texts[..j])|, |Joined(texts[..j + 1])|))
  }

  lemma {:induction false} FreshPrefix(texts: seq<string>, ns: seq<MapNode>, j: nat)
    requires |ns| == |texts| && j <= |ns|
    requires forall i | 0 <= i < |ns| :: ns[i].before == [] && ns[i].text == texts[i]
    ensures |Doc(ns[..j])| == |Joined(texts[..j])|
  {
    if j > 0 {
      FreshPrefix(texts, ns, j - 1);
      DocPrefix(ns, j - 1, j);
      JoinedSnoc(texts[..j - 1], texts[j - 1], texts[..j]);
    }
  }

  lemma FreshSpans(texts: seq<string>, ns: seq<MapNode>)
    requires |ns| == |texts| && forall i | 0 <= i < |ns| :: ns[i].before == [] && ns[i].text == texts[i]
    ensures DocSpans(ns) == SpansOf(texts)
  {
    forall j: nat | j <= |ns| ensures |Doc(ns[..j])| == |Joined(texts[..j])| { FreshPrefix(texts, ns, j); }
  }

  lemma JoinedSnoc(texts: seq<string>, t: string, more: seq<string>)
    requires more == texts + [t]
    ensures Joined(more) == Joined(texts) + t
  {
    assert more[..|texts|] == texts;
  }

  lemma AppendNode(value: string, ns: seq<MapNode>, n: MapNode, value': string, next: seq<MapNode>)
    requires Consistent(value, ns) && n.start == |value| && n.end == n.start + |n.text|
    requires n.before == [] && Doc(ns) == Cells(value, false)
    requires value' == value + n.text && next == ns + [n]
    ensures Consistent(value', next) && Doc(next) == Cells(value', false)
  {
    AppendDoc(value, ns, n, value', next);
    forall i | 0 <= i < |next|
      ensures next[i].start == |Live(next[..i])| && next[i].end == next[i].start + |next[i].text|
    {
      SamePrefix(ns, n, next, i);
    }
  }

  lemma AppendDoc(value: string, ns: seq<MapNode>, n: MapNode, value': string, next: seq<MapNode>)
    requires value == Live(ns) && n.before == [] && Doc(ns) == Cells(value, false)
    requires value' == value + n.text && next == ns + [n]
    ensures Live(next) == value' && Doc(next) == Cells(value', false)
  {
    DocSnoc(ns, n);
    NoPieces(n);
    CellsConcat(value, n.text, false, value');
  }

  lemma NoPieces(n: MapNode)
    requires n.before == []
    ensures NodeCells(n) == Cells(n.text, false)
  {
  }

  lemma CellsConcat(a: string, b: string, marked: bool, c: string)
    requires c == a + b
    ensures Cells(c, marked) == Cells(a, marked) + Cells(b, marked)
  {
  }

  lemma SamePrefix(s: seq<MapNode>, x: MapNode, next: seq<MapNode>, i: nat)
    requires next == s + [x] && i < |next|
    ensures Live(next[..i]) == if i < |s| then Live(s[..i]) else Live(s)
    ensures next[i] == if i < |s| then s[i] else x
  {
    if i < |s| { assert next[..i] == s[..i]; } else { assert next[..i] == s; }
  }
}
