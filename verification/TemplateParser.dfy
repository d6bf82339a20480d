/** The template compiler of the search UI: two mutually nested parsers that share one cursor.
    Each of them is given, for the proof only, something that may be written ahead; where it is,
    it is what they return. */
module TemplateParser {
  import opened Basics
  import opened TemplateText

  predicate Stops(u: string, stops: seq<string>) {
    exists i | 0 <= i < |stops| :: Starts(u, stops[i])
  }

  /** The compiler stops only at tags that belong to the one around them. */
  predicate Inner(stops: seq<string>) {
    forall i | 0 <= i < |stops| :: Starts(stops[i], OPENING) && |stops[i]| > 2 && (stops[i][2] == ':' || stops[i][2] == '/')
  }

  const BRANCH_STOPS := [ELSE_IF, ELSEIF, ELSE, END_IF]
  const EACH_STOPS := [ELSE, END_EACH]

  /** No quotation mark closes the string. */
  predicate Unclosed(u: string, quote: char) {
    u == "" || (u[0] != quote && Unclosed(if u[0] == '\\' && |u| > 1 then u[2..] else u[1..], quote))
  }

  function Decoded(c: char): char {
    if c == 'n' then '\n' else if c == 't' then '\t' else if c == 'r' then '\r' else c
  }

  lemma StringGoesOn(u: string, t: string, quote: char, rest: string)
    requires quote == '"' || quote == '\''
    requires u == StringText(t, quote, rest)
    ensures if t == "" then u == [quote] + rest else u != "" && u[0] != quote
    ensures t != "" ==> if u[0] == '\\' then |u| > 1 && Decoded(u[1]) == t[0] && u[2..] == StringText(t[1..], quote, rest)
                        else u[0] == t[0] && u[1..] == StringText(t[1..], quote, rest)
  {
    if t != "" {
      var w, more := InString(t[0], quote), StringText(t[1..], quote, rest);
      assert u == w + more;
      if |w| == 2 {
        assert w[0] == '\\' && Decoded(w[1]) == t[0];
        assert u[0] == w[0] && u[1] == w[1] && u[2..] == more;
      } else {
        assert w == [t[0]];
        assert u[0] == w[0] && u[1..] == more;
      }
    }
  }

  // ----- what may be written ahead -----

  ghost predicate ExprAhead(u: string, x: Expr, l: Layout, rest: string) {
    u == ExprText(x, l, rest) && Writable(x) && ValidLayout(l) && Ends(rest)
  }

  ghost predicate ListAhead(u: string, args: seq<Expr>, l: Layout, rest: string) {
    && u == ListText(args, l, ")" + rest) && ValidLayout(l)
    && forall i | 0 <= i < |args| :: Writable(args[i])
  }

  ghost predicate ArgumentsAhead(u: string, args: seq<Expr>, l: Layout, rest: string) {
    && u == ArgumentsText(args, l, rest) && ValidLayout(l)
    && forall i | 0 <= i < |args| :: Writable(args[i])
  }

  ghost predicate DottedAhead(u: string, parts: seq<string>, rest: string) {
    u == DottedText(parts, rest) && !StartsWith(rest, '.') && (parts != [] ==> !StartsWord(rest))
    && forall i | 0 <= i < |parts| :: IsWord(parts[i])
  }

  ghost predicate AfterNameAhead(u: string, word: string, x: Expr, l: Layout, rest: string) {
    && (x.Path? || x.Call?) && Writable(x) && ValidLayout(l) && Ends(rest)
    && word == NameOf(x) && u == Skip(Behind(x, l, rest))
  }

  lemma NameGoesOn(u: string, word: string, x: Expr, l: Layout, rest: string)
    returns (args: seq<Expr>, parts: seq<string>, after: string)
    requires AfterNameAhead(u, word, x, l, rest)
    ensures Skip(after) == Skip(rest)
    ensures x.Call? ==> x == Call(word, args) && StartsWith(u, '(') && ArgumentsAhead(u[1..], args, l, after)
    ensures x.Path? ==> x == Path([word] + parts) && !StartsWith(u, '(') && DottedAhead(u, parts, after)
  {
    GapSkips(l, rest);
    args, parts, after := [], [], Gap(l, rest);
    match x
    case Lit(_) =>
    case Pipe(_, _, _) =>
    case Call(_, args') => args := args';
    case Path(path) =>
      parts := path[1..];
      if |path| == 1 { after := Skip(rest); }
  }

  /** What is written behind the bar of a pipe. */
  ghost function AfterPipeName(x: Expr, l: Layout, rest: string): string
    requires x.Pipe?
  {
    Gap(l, if x.args == [] && l.bare(rest) then rest else "(" + ArgumentsText(x.args, l, Gap(l, rest)))
  }

  ghost predicate PipeArgumentsAhead(u: string, args: seq<Expr>, l: Layout, rest: string) {
    && u == (if args == [] && l.bare(rest) then Skip(rest) else "(" + ArgumentsText(args, l, Gap(l, rest)))
    && ValidLayout(l) && Ends(rest) && forall i | 0 <= i < |args| :: Writable(args[i])
  }

  ghost predicate PipeAhead(u: string, x: Expr, l: Layout, rest: string) {
    x.Pipe? && u == Gap(l, x.fn + AfterPipeName(x, l, rest)) && Writable(x) && ValidLayout(l) && Ends(rest)
  }

  ghost const NONE := Lit(Nothing)

  lemma ArgumentsBegin(args: seq<Expr>, l: Layout, rest: string)
    requires ValidLayout(l) && forall i | 0 <= i < |args| :: Writable(args[i])
    ensures ListAhead(Skip(ArgumentsText(args, l, rest)), args, l, rest)
  {
    GapSkips(l, ListText(args, l, ")" + rest));
    if args != [] { ExprOpens(args[0], l, AfterFirst(args, l, ")" + rest)); }
  }

  lemma FirstArgument(u: string, args: seq<Expr>, l: Layout, rest: string) returns (after: string)
    requires ListAhead(u, args, l, rest) && u != "" && u[0] != ')'
    ensures args != [] && ExprAhead(Skip(u), args[0], l, after) && Skip(after) == after && !StartsWith(after, '|')
    ensures if StartsWith(after, ',') then ListAhead(Skip(after[1..]), args[1..], l, rest)
            else ListAhead(after, args[1..], l, rest)
  {
    after := AfterFirst(args, l, ")" + rest);
    ExprOpens(args[0], l, after);
    if |args| > 1 {
      var v := ListText(args[1..], l, ")" + rest);
      assert after[1..] == Gap(l, v);
      GapSkips(l, v);
      ExprOpens(args[1], l, AfterFirst(args[1..], l, ")" + rest));
    }
  }

  lemma ArgumentsEnd(u: string, args: seq<Expr>, l: Layout, rest: string)
    requires ListAhead(u, args, l, rest) && (u == "" || u[0] == ')' || u[0] == '}')
    ensures args == [] && u == ")" + rest
  {
    if args != [] { ExprOpens(args[0], l, AfterFirst(args, l, ")" + rest)); }
  }

  lemma OperandBegins(x: Expr, l: Layout, rest: string)
    requires !x.Pipe? && Writable(x) && ValidLayout(l) && Ends(rest)
    ensures var u := ExprText(x, l, rest);
      u != "" && Skip(Gap(l, rest)) == Skip(rest) && Ends(Gap(l, rest))
      && (x.Lit? && x.literal.Word? ==> u == StringAt(x.literal.text, l, Gap(l, rest)))
      && (x.Lit? && x.literal.Number? ==> Digit(u[0]) || u[0] == '-' || u[0] == '.')
      && (StartsWithName(x) ==> WordCharacter(u[0]) && !Digit(u[0]))
      && (StartsWithName(x) || (x.Lit? && (x.literal.Word? || x.literal.Number?)))
  {
    GapSkips(l, rest);
    ExprOpens(x, l, rest);
  }

  lemma PipeBegins(u: string, x: Expr, l: Layout, rest: string) returns (after: string)
    requires PipeAhead(u, x, l, rest)
    ensures Skip(u) == x.fn + after && IsWord(x.fn) && !StartsWord(after)
    ensures PipeArgumentsAhead(Skip(after), x.args, l, rest)
  {
    after := AfterPipeName(x, l, rest);
    GapSkips(l, if x.args == [] && l.bare(rest) then rest else "(" + ArgumentsText(x.args, l, Gap(l, rest)));
    GapSkips(l, x.fn + after);
    assert (x.fn + after)[0] == x.fn[0];
  }

  /** All but the last `k` pipes of the expression were read. */
  ghost predicate PipesAhead(u: string, y: Expr, x: Expr, k: nat, l: Layout, rest: string) {
    && k <= Pipes(x) && y == Left(x, k) && u == Skip(TailText(x, k, l, rest))
    && Writable(x) && ValidLayout(l) && Ends(rest) && !StartsWith(Skip(rest), '|')
  }

  lemma OperandFirst(u: string, x: Expr, l: Layout, rest: string) returns (y: Expr, after: string, k: nat)
    requires ExprAhead(u, x, l, rest) && !StartsWith(Skip(rest), '|')
    ensures ExprAhead(u, y, l, after) && !y.Pipe? && PipesAhead(Skip(after), y, x, k, l, rest)
    ensures Skip(u) == u
  {
    k := Pipes(x);
    y, after := Left(x, k), TailText(x, k, l, rest);
    WithoutPipes(x, k, l, rest);
    TailEnds(x, k, l, rest);
    ExprOpens(x, l, rest);
  }

  lemma NextPipe(u: string, y: Expr, x: Expr, k: nat, l: Layout, rest: string)
    returns (z: Expr, after: string, j: nat)
    requires PipesAhead(u, y, x, k, l, rest) && StartsWith(u, '|')
    ensures z.Pipe? && y == z.left && PipeAhead(u[1..], z, l, after) && PipesAhead(Skip(after), z, x, j, l, rest)
  {
    j := k - 1;
    z, after := Left(x, j), TailText(x, j, l, rest);
    TailEnds(x, j, l, rest);
  }

  lemma NoMorePipes(u: string, y: Expr, x: Expr, k: nat, l: Layout, rest: string)
    requires PipesAhead(u, y, x, k, l, rest) && !StartsWith(u, '|')
    ensures y == x && u == Skip(rest)
  {
    TailEnds(x, k, l, rest);
  }

  ghost predicate NodesAhead(u: string, nodes: seq<Node>, l: Layout, stops: seq<string>, rest: string) {
    && u == NodesText(nodes, l, rest) && ValidLayout(l)
    && WritableNodes(nodes, if rest == "" then "" else OPENING)
    && (rest == "" || (Stops(rest, stops) && Starts(rest, OPENING)))
  }

  ghost predicate RunAhead(u: string, t: string, rest: string) {
    u == t + rest && t != "" && Unbroken(t, rest) && (rest == "" || Breaks(rest))
  }

  ghost predicate TagAhead(u: string, n: Node, l: Layout, rest: string) {
    u == TagText(n, l, rest) && ValidLayout(l) && !n.Text? && WritableNode(n, "")
  }

  ghost predicate BranchAhead(u: string, b: Branch, l: Layout, rest: string) {
    && u == ExprText(b.cond, l, CLOSING + NodesText(b.body, l, rest)) && ValidLayout(l)
    && Writable(b.cond) && WritableNodes(b.body, OPENING)
    && Stops(rest, BRANCH_STOPS) && Starts(rest, OPENING)
  }

  ghost predicate BranchesAhead(u: string, bs: seq<Branch>, l: Layout, otherwise: seq<Node>, rest: string) {
    && bs != [] && u == BranchesText(bs, l, ElseText(otherwise, l, END_IF, rest)) && ValidLayout(l)
    && forall i | 0 <= i < |bs| :: Writable(bs[i].cond) && WritableNodes(bs[i].body, OPENING)
  }

  ghost predicate ElseAhead(u: string, otherwise: seq<Node>, l: Layout, end: string, rest: string) {
    && u == ElseText(otherwise, l, end, rest) && ValidLayout(l)
    && WritableNodes(otherwise, OPENING) && (end == END_IF || end == END_EACH)
  }

  ghost predicate IndexAhead(u: string, index: Option<string>, l: Layout, rest: string) {
    && u == IndexText(index, l, rest) && ValidLayout(l) && Starts(rest, CLOSING)
    && (index.Some? ==> IsWord(index.value) && index.value != "")
  }

  lemma Closes(rest: string)
    ensures var u := CLOSING + rest;
            Ends(u) && !StartsWith(u, '|') && Skip(u) == u && Starts(u, CLOSING) && u[2..] == rest
  {}

  ghost predicate RawAhead(u: string, n: Node, l: Layout, rest: string) {
    && n.Insert? && n.raw && Writable(n.expr) && ValidLayout(l)
    && u == RawText(n.expr, l, rest)
  }

  ghost predicate InsertionAhead(u: string, n: Node, l: Layout, rest: string) {
    n.Insert? && !n.raw && Writable(n.expr) && ValidLayout(l) && u == ExprText(n.expr, l, CLOSING + rest)
  }

  ghost predicate IfAhead(u: string, n: Node, l: Layout, rest: string) {
    && n.If? && WritableNode(n, "") && ValidLayout(l)
    && u == BranchesText(n.branches, l, ElseText(n.otherwise, l, END_IF, rest))
  }

  ghost predicate LoopAhead(u: string, x: Expr, item: string, index: Option<string>, l: Layout, inside: string) {
    && u == LoopText(x, item, index, l, inside) && ValidLayout(l)
    && Writable(x) && IsWord(item) && item != "" && (index.Some? ==> IsWord(index.value) && index.value != "")
  }

  ghost function EachText(n: Node, l: Layout, rest: string): string
    requires n.Each?
  {
    LoopText(n.list, n.item, n.index, l, NodesText(n.body, l, ElseText(n.otherwise, l, END_EACH, rest)))
  }

  ghost predicate EachAhead(u: string, n: Node, l: Layout, rest: string) {
    n.Each? && WritableNode(n, "") && ValidLayout(l) && u == EachText(n, l, rest)
  }

  ghost predicate BlockAhead(u: string, n: Node, l: Layout, rest: string) {
    && (n.If? || n.Each?) && WritableNode(n, "") && ValidLayout(l)
    && u == if n.If? then "if" + Apart(l, BranchesText(n.branches, l, ElseText(n.otherwise, l, END_IF, rest)))
            else "each" + Apart(l, EachText(n, l, rest))
  }

  lemma TagBegins(n: Node, l: Layout, rest: string)
    requires TagAhead(TagText(n, l, rest), n, l, rest)
    ensures var u := Skip(TagText(n, l, rest));
            u != ""
            && (n.Insert? && n.raw ==> u[0] == '+' && RawAhead(u[1..], n, l, rest))
            && (n.Insert? && !n.raw ==> u[0] != '+' && u[0] != '#' && InsertionAhead(u, n, l, rest))
            && (n.If? || n.Each? ==> u[0] == '#' && BlockAhead(u[1..], n, l, rest))
  {
    match n
    case Text(_) =>
    case Insert(x, raw) => InsertionBegins(x, raw, l, rest);
    case If(branches, otherwise) =>
      BlockFollows(l, "if" + Apart(l, BranchesText(branches, l, ElseText(otherwise, l, END_IF, rest))));
    case Each(_, _, _, _, _) =>
      BlockFollows(l, "each" + Apart(l, EachText(n, l, rest)));
  }

  lemma BlockFollows(l: Layout, v: string)
    requires ValidLayout(l)
    ensures Skip(Gap(l, "#" + v)) == "#" + v && ("#" + v)[1..] == v
  {
    GapSkips(l, "#" + v);
  }

  lemma InsertionBegins(x: Expr, raw: bool, l: Layout, rest: string)
    requires Writable(x) && ValidLayout(l)
    ensures var v := if raw then "+" + RawText(x, l, rest) else ExprText(x, l, CLOSING + rest);
            Skip(Gap(l, v)) == v && v != "" && (raw ==> v[0] == '+' && v[1..] == RawText(x, l, rest))
            && (!raw ==> v[0] != '+' && v[0] != '#')
  {
    if raw {
      GapSkips(l, "+" + RawText(x, l, rest));
    } else {
      ExprOpens(x, l, CLOSING + rest);
      GapSkips(l, ExprText(x, l, CLOSING + rest));
    }
  }

  lemma RawCloses(x: Expr, l: Layout, rest: string, after: string)
    requires Writable(x) && ValidLayout(l) && after == PlusText(l, Gap(l, CLOSING + rest))
    ensures Ends(after) && !StartsWith(Skip(after), '|')
    ensures Skip(Gap(l, ExprText(x, l, after))) == ExprText(x, l, after)
    ensures Skip(Skip(after)) == Skip(after)
    ensures if Starts(Skip(after), "+") then Skip(Skip(after)[1..]) == CLOSING + rest else Skip(after) == CLOSING + rest
  {
    var v := Gap(l, CLOSING + rest);
    Closes(rest);
    GapSkips(l, CLOSING + rest);
    ExprOpens(x, l, after);
    GapSkips(l, ExprText(x, l, after));
    if l.plus(v) == "" { assert after == v; }
  }

  lemma BlockOpens(n: Node, l: Layout, rest: string, v: string)
    requires (n.If? || n.Each?) && WritableNode(n, "") && ValidLayout(l)
    requires v == if n.If? then BranchesText(n.branches, l, ElseText(n.otherwise, l, END_IF, rest))
                  else EachText(n, l, rest)
    ensures v != "" && !Space(v[0])
  {
    match n
    case Text(_) =>
    case Insert(_, _) =>
    case If(bs, otherwise) =>
      var tail := ElseText(otherwise, l, END_IF, rest);
      ExprOpens(bs[0].cond, l, CLOSING + NodesText(bs[0].body, l, FurtherText(bs[1..], l, tail)));
    case Each(list, _, _, _, _) =>
      ghost var after :| v == ExprText(list, l, after);
      ExprOpens(list, l, after);
  }

  lemma BlockBegins(u: string, n: Node, l: Layout, rest: string)
    requires BlockAhead(u, n, l, rest)
    ensures var name := if n.If? then "if" else "each";
            IsWord(name) && Starts(u, name) && !StartsWord(u[|name|..])
            && (n.If? ==> IfAhead(Skip(Skip(u[|name|..])), n, l, rest))
            && (n.Each? ==> EachAhead(Skip(Skip(u[|name|..])), n, l, rest))
  {
    var v := if n.If? then BranchesText(n.branches, l, ElseText(n.otherwise, l, END_IF, rest))
             else EachText(n, l, rest);
    BlockOpens(n, l, rest, v);
    ApartSkips(l, v);
    var name := if n.If? then "if" else "each";
    assert u == name + Apart(l, v) && u[|name|..] == Apart(l, v);
  }

  lemma ElseBegins(u: string, otherwise: seq<Node>, l: Layout, end: string, rest: string)
    requires ElseAhead(u, otherwise, l, end, rest)
    ensures if otherwise == [] then !Starts(u, ELSE) && u == end + rest
            else Starts(u, ELSE) && NodesAhead(u[9..], otherwise, l, [end], end + rest)
    ensures Starts(end + rest, end) && (end + rest)[|end|..] == rest
  {
    var v := end + rest;
    assert v[2] == '/' && Starts(v, OPENING);
    if otherwise != [] {
      assert u[9..] == NodesText(otherwise, l, v);
      assert Starts(v, [end][0]);
    }
  }

  lemma BranchBegins(u: string, b: Branch, l: Layout, rest: string) returns (body: string, after: string)
    requires BranchAhead(u, b, l, rest)
    ensures ExprAhead(u, b.cond, l, after) && !StartsWith(Skip(after), '|')
    ensures Skip(after) == after && Starts(after, CLOSING) && after[2..] == body
    ensures NodesAhead(body, b.body, l, BRANCH_STOPS, rest)
  {
    body := NodesText(b.body, l, rest);
    after := CLOSING + body;
    Closes(body);
  }

  lemma FurtherStops(bs: seq<Branch>, l: Layout, otherwise: seq<Node>, rest: string, tail: string)
    requires ValidLayout(l) && tail == ElseText(otherwise, l, END_IF, rest)
    ensures Starts(FurtherText(bs, l, tail), OPENING) && Stops(FurtherText(bs, l, tail), BRANCH_STOPS)
    ensures !Starts(tail, ELSE_IF) && !Starts(tail, ELSEIF)
  {
    var u := FurtherText(bs, l, tail);
    var i := if bs == [] then (if otherwise == [] then 3 else 2) else if Starts(u, ELSE_IF) then 0 else 1;
    assert Starts(u, BRANCH_STOPS[i]);
    assert tail[2] == '/' || tail[7] == '}';
  }

  lemma NextBranch(bs: seq<Branch>, l: Layout, otherwise: seq<Node>, rest: string, tail: string)
    requires bs != [] && ValidLayout(l) && tail == ElseText(otherwise, l, END_IF, rest)
    requires Writable(bs[0].cond) && WritableNodes(bs[0].body, OPENING)
    ensures BranchAhead(Skip(BranchesText(bs, l, tail)), bs[0], l, FurtherText(bs[1..], l, tail))
  {
    var after := FurtherText(bs[1..], l, tail);
    ExprOpens(bs[0].cond, l, CLOSING + NodesText(bs[0].body, l, after));
    FurtherStops(bs[1..], l, otherwise, rest, tail);
  }

  ghost function BehindElseIf(u: string): string
    requires Starts(u, ELSE_IF) || Starts(u, ELSEIF)
  {
    Skip(u[if Starts(u, ELSEIF) then 9 else 10..])
  }

  /** Further branches, and then the rest of the block. */
  ghost predicate FurtherAhead(u: string, bs: seq<Branch>, l: Layout, otherwise: seq<Node>, rest: string) {
    && u == FurtherText(bs, l, ElseText(otherwise, l, END_IF, rest)) && ValidLayout(l)
    && forall i | 0 <= i < |bs| :: Writable(bs[i].cond) && WritableNodes(bs[i].body, OPENING)
  }

  lemma BranchesBegin(u: string, bs: seq<Branch>, l: Layout, otherwise: seq<Node>, rest: string)
    returns (after: string)
    requires BranchesAhead(u, bs, l, otherwise, rest)
    ensures Skip(u) == u && BranchAhead(u, bs[0], l, after) && FurtherAhead(after, bs[1..], l, otherwise, rest)
  {
    var tail := ElseText(otherwise, l, END_IF, rest);
    after := FurtherText(bs[1..], l, tail);
    NextBranch(bs, l, otherwise, rest, tail);
    ExprOpens(bs[0].cond, l, CLOSING + NodesText(bs[0].body, l, after));
  }

  lemma FurtherBegins(u: string, bs: seq<Branch>, l: Layout, otherwise: seq<Node>, rest: string)
    returns (after: string)
    requires FurtherAhead(u, bs, l, otherwise, rest) && (Starts(u, ELSE_IF) || Starts(u, ELSEIF))
    ensures bs != [] && BranchAhead(BehindElseIf(u), bs[0], l, after)
    ensures FurtherAhead(after, bs[1..], l, otherwise, rest)
  {
    var tail := ElseText(otherwise, l, END_IF, rest);
    FurtherStops(bs, l, otherwise, rest, tail);
    after := "";
    if bs != [] {
      var v := BranchesText(bs, l, tail);
      var name := l.elseIf(Gap(l, v));
      assert u[7] == name[7];
      assert u[|name|..] == Gap(l, v);
      GapSkips(l, v);
      after := BranchesBegin(v, bs, l, otherwise, rest);
    }
  }

  lemma FurtherEnds(u: string, bs: seq<Branch>, l: Layout, otherwise: seq<Node>, rest: string)
    requires FurtherAhead(u, bs, l, otherwise, rest) && !Starts(u, ELSE_IF) && !Starts(u, ELSEIF)
    ensures bs == [] && u == ElseText(otherwise, l, END_IF, rest)
  {
    var name := l.elseIf(Gap(l, BranchesText(bs, l, ElseText(otherwise, l, END_IF, rest))));
    assert bs != [] ==> Starts(u, name);
  }

  lemma NameThenGap(v: string, l: Layout, rest: string)
    requires ValidLayout(l) && IsWord(v) && v != "" && Starts(rest, CLOSING)
    ensures Skip(Gap(l, v + Gap(l, rest))) == v + Gap(l, rest)
    ensures !StartsWord(Gap(l, rest)) && Skip(Gap(l, rest)) == rest
  {
    var u := v + Gap(l, rest);
    GapSkips(l, u);
    assert u[0] == v[0];
    GapSkips(l, rest);
  }

  lemma LoopBegins(x: Expr, item: string, index: Option<string>, l: Layout, inside: string,
                   second: string, third: string)
    requires LoopAhead(ExprText(x, l, Apart(l, "as" + second)), x, item, index, l, inside)
    requires second == AfterAs(item, index, l, inside) && third == AfterItem(index, l, inside)
    ensures Ends(Apart(l, "as" + second)) && Skip(Apart(l, "as" + second)) == "as" + second
    ensures IsWord("as") && !StartsWord(second) && Skip(second) == item + third
    ensures !StartsWord(third) && IndexAhead(Skip(third), index, l, CLOSING + inside)
  {
    ApartSkips(l, "as" + second);
    ApartSkips(l, item + third);
    assert (item + third)[0] == item[0];
    GapSkips(l, IndexText(index, l, CLOSING + inside));
  }

  lemma EachBegins(n: Node, l: Layout, rest: string, tail: string, inside: string)
    requires n.Each? && WritableNode(n, "") && ValidLayout(l)
    requires tail == ElseText(n.otherwise, l, END_EACH, rest) && inside == NodesText(n.body, l, tail)
    ensures LoopAhead(EachText(n, l, rest), n.list, n.item, n.index, l, inside)
    ensures NodesAhead(inside, n.body, l, EACH_STOPS, tail) && ElseAhead(tail, n.otherwise, l, END_EACH, rest)
  {
    if n.otherwise == [] {
      assert Starts(tail, EACH_STOPS[1]);
    } else {
      assert Starts(tail, EACH_STOPS[0]);
    }
  }

  lemma RunGoesOn(run: string, u: string, t: string, rest: string)
    requires RunAhead(run + u, t, rest) && |run| <= |t| && u != "" && !Breaks(u)
    ensures |run| < |t|
  {
    assert (run + u)[|t|..] == rest;
  }

  lemma RunIsRead(run: string, u: string, t: string, rest: string)
    requires RunAhead(run + u, t, rest) && |run| <= |t| && (u == "" || Breaks(u))
    ensures run == t && u == rest
  {
    var all := t + rest;
    assert all[|run|..] == u && all[..|run|] == run;
    assert forall i | 0 <= i < |t| :: all[i..] == t[i..] + rest;
  }

  lemma NodesGoOn(u: string, w: seq<Node>, l: Layout, stops: seq<string>, rest: string)
    requires NodesAhead(u, w, l, stops, rest) && u != "" && !Stops(u, stops)
    ensures w != [] && NodesAhead(NodesText(w[1..], l, rest), w[1..], l, stops, rest)
  {}

  lemma NodesEnd(u: string, w: seq<Node>, l: Layout, stops: seq<string>, rest: string)
    requires NodesAhead(u, w, l, stops, rest) && Inner(stops) && (u == "" || Stops(u, stops))
    ensures w == [] && u == rest
  {
    if w != [] {
      FirstNode(w, l, rest, if rest == "" then "" else OPENING);
    }
  }

  /** This node is written ahead, where no stop is. */
  ghost predicate NodeAhead(u: string, n: Node, l: Layout, rest: string) {
    && (Starts(u, ESCAPED) ==> n == Text(OPENING) && u[3..] == rest)
    && (!Starts(u, ESCAPED) && Starts(u, OPENING) ==> TagAhead(u[2..], n, l, rest))
    && (!Breaks(u) ==> n.Text? && RunAhead(u, n.text, rest))
  }

  lemma RunOrEscape(n: Node, next: string, l: Layout, after: string)
    requires n.Text? && WritableNode(n, next) && Follows(after, next)
    ensures NodeText(n, l, after) != "" && NodeAhead(NodeText(n, l, after), n, l, after)
    ensures !Starts(NodeText(n, l, after), OPENING)
  {
    if n.text == OPENING {
      assert (ESCAPED + after)[0] == '\\';
    } else {
      TextStaysUnbroken(n.text, next, after);
      assert n.text[0..] == n.text;
    }
  }

  lemma TagFirst(n: Node, next: string, l: Layout, after: string)
    requires !n.Text? && WritableNode(n, next) && ValidLayout(l)
    ensures var u := NodeText(n, l, after);
            NodeAhead(u, n, l, after) && |u| > 2 && u[2] != ':' && u[2] != '/'
  {
    var u, v := NodeText(n, l, after), TagText(n, l, after);
    TagOpens(n, l, after);
    assert u == OPENING + v;
    assert u[0] == '{' && u[1] == '{' && u[2] == v[0];
    assert u[2..] == v;
  }

  lemma FirstNode(w: seq<Node>, l: Layout, rest: string, end: string)
    requires w != [] && WritableNodes(w, end) && Follows(rest, end) && (end == "" || end == OPENING)
    requires ValidLayout(l)
    ensures var u, n, after := NodesText(w, l, rest), w[0], NodesText(w[1..], l, rest);
            u != "" && NodeAhead(u, n, l, after)
            && (Starts(u, OPENING) ==> |u| > 2 && u[2] != ':' && u[2] != '/')
  {
    var after := NodesText(w[1..], l, rest);
    NodesFollow(w[1..], end, l, rest);
    if w[0].Text? {
      RunOrEscape(w[0], Next(w[1..], end), l, after);
    } else {
      TagFirst(w[0], Next(w[1..], end), l, after);
    }
    assert NodesText(w, l, rest) == NodeText(w[0], l, after);
  }

  class Compiler {
    const s: string
    var e: nat

    constructor (s: string)
      ensures this.s == s && e == 0
    {
      this.s, e := s, 0;
    }

    /** The cursor is in the text or at its end. */
    predicate Valid()
      reads this
    {
      e <= |s|
    }

    /** The cursor did not go back, or past the end. */
    twostate predicate Advances()
      reads this
    {
      old(e) <= e <= |s|
    }

    /** The text from the cursor on. */
    function Ahead(): string
      requires Valid()
      reads this
    {
      s[e..]
    }

    predicate Is(c: char)
      reads this
    {
      e < |s| && s[e] == c
    }

    predicate Looking(u: string)
      requires Valid()
      reads this
    {
      Starts(Ahead(), u)
    }

    method Move(k: nat)
      requires e + k <= |s|
      modifies this
      ensures Advances() && e == old(e) + k && Ahead() == old(Ahead())[k..]
    {
      e := e + k;
    }

    method SkipSpace()
      requires Valid()
      modifies this
      ensures Advances() && Ahead() == Skip(old(Ahead()))
    {
      while e < |s| && Space(s[e])
        invariant Advances() && Skip(Ahead()) == Skip(old(Ahead()))
      {
        Move(1);
      }
    }

    method Eat(u: string)
      requires Valid()
      modifies this
      ensures Advances() && Ahead() == if Starts(old(Ahead()), u) then old(Ahead())[|u|..] else old(Ahead())
    {
      if Looking(u) { Move(|u|); }
    }

    /** The longest word at the cursor. */
    method ReadWord() returns (word: string)
      requires Valid()
      modifies this
      ensures Advances() && IsWord(word) && old(Ahead()) == word + Ahead() && !StartsWord(Ahead())
    {
      word := "";
      while e < |s| && WordCharacter(s[e])
        invariant Advances() && IsWord(word) && old(Ahead()) == word + Ahead()
        decreases |s| - e
      {
        word := word + [s[e]];
        Move(1);
      }
    }

    /** A character of a string, which may have a backslash in front. */
    method ReadCharacter() returns (c: char)
      requires Valid() && e < |s|
      modifies this
      ensures Advances() && old(e) < e
      ensures var u := old(Ahead());
              if u[0] == '\\' && |u| > 1 then c == Decoded(u[1]) && Ahead() == u[2..]
              else c == u[0] && Ahead() == u[1..]
    {
      if s[e] == '\\' && e + 1 < |s| {
        Move(1);
        c := Decoded(s[e]);
      } else {
        c := s[e];
      }
      Move(1);
    }

    /** A string in quotes; one that is not closed is empty. */
    method ReadString(quote: char, ghost t: string, ghost rest: string) returns (text: string)
      requires Valid() && Is(quote)
      modifies this
      ensures Advances() && e > old(e)
      ensures (quote == '"' || quote == '\'') && old(Ahead()) == [quote] + StringText(t, quote, rest) ==>
                text == t && Ahead() == rest
      ensures Unclosed(old(Ahead())[1..], quote) ==> text == "" && e == |s|
    {
      ghost var written := (quote == '"' || quote == '\'') && Ahead() == [quote] + StringText(t, quote, rest);
      ghost var todo := t;
      text := "";
      Move(1);
      while e < |s| && s[e] != quote
        invariant Advances() && e > old(e)
        invariant written ==> t == text + todo && Ahead() == StringText(todo, quote, rest)
        invariant Unclosed(old(Ahead())[1..], quote) == Unclosed(Ahead(), quote)
        decreases |s| - e
      {
        if written {
          StringGoesOn(Ahead(), todo, quote, rest);
          Moved(text, todo);
          todo := todo[1..];
        }
        var c := ReadCharacter();
        text := text + [c];
      }
      if written { StringGoesOn(Ahead(), todo, quote, rest); }
      if e < |s| { Move(1); } else { text := ""; }
    }

    method ReadNumber(ghost p: string, ghost rest: string) returns (x: Expr)
      requires Valid() && e < |s| && (Digit(s[e]) || s[e] == '-' || s[e] == '.')
      modifies this
      ensures Advances() && e > old(e)
      ensures NumberText(p) && old(Ahead()) == p + rest && !StartsWord(rest) && !StartsWith(rest, '.') ==>
                x == Lit(Number(p)) && Ahead() == rest
    {
      ghost var written := NumberText(p) && Ahead() == p + rest && !StartsWord(rest) && !StartsWith(rest, '.');
      var d, dotted := "", false;
      if s[e] == '-' {
        Move(1);
        d := "-";
      }
      if written { NumberBegins(d, old(Ahead()), Ahead(), p, rest); }
      if Is('.') {
        if written { NumberGoesOn(d, Ahead(), p, rest, dotted, d + ".", Ahead()[1..]); }
        Move(1);
        d, dotted := d + ".", true;
      }
      while e < |s| && (Digit(s[e]) || (s[e] == '.' && !dotted))
        invariant Advances() && (e > old(e) || (Digit(s[e]) && e == old(e)))
        invariant written ==> NumberSoFar(d, Ahead(), p, rest, dotted)
        decreases |s| - e
      {
        if written { NumberGoesOn(d, Ahead(), p, rest, dotted, d + [s[e]], Ahead()[1..]); }
        if s[e] == '.' { dotted := true; }
        d := d + [s[e]];
        Move(1);
      }
      if written { NumberIsRead(d, Ahead(), p, rest, dotted); }
      x := if d == "-" || d == "." then Path([d]) else Lit(Number(d));
    }

    /** The arguments of a call, after its opening parenthesis. */
    method ReadArguments(ghost xs: seq<Expr>, ghost l: Layout, ghost rest: string) returns (args: seq<Expr>)
      requires Valid()
      modifies this
      ensures Advances()
      ensures ArgumentsAhead(old(Ahead()), xs, l, rest) ==> args == xs && Ahead() == rest
      decreases |s| - e, 4
    {
      ghost var written := ArgumentsAhead(Ahead(), xs, l, rest);
      if written { ArgumentsBegin(xs, l, rest); }
      args := [];
      SkipSpace();
      ghost var x, after, todo := NONE, "", xs;
      while e < |s| && s[e] != ')' && s[e] != '}'
        invariant Advances()
        invariant written ==> xs == args + todo && ListAhead(Ahead(), todo, l, rest)
        decreases |s| - e
      {
        if written {
          after := FirstArgument(Ahead(), todo, l, rest);
          Moved(args, todo);
          x, todo := todo[0], todo[1..];
        }
        var arg := ReadExpression(x, l, after);
        args := args + [arg];
        SkipSpace();
        if Is(',') {
          Move(1);
          SkipSpace();
        }
      }
      if written { ArgumentsEnd(Ahead(), todo, l, rest); }
      if Is(')') { Move(1); }
    }

    /** The rest of a path. */
    method ReadPath(word: string, ghost parts: seq<string>, ghost rest: string) returns (path: seq<string>)
      requires Valid()
      modifies this
      ensures Advances()
      ensures DottedAhead(old(Ahead()), parts, rest) ==> path == [word] + parts && Ahead() == rest
    {
      ghost var written := DottedAhead(Ahead(), parts, rest);
      path := [word];
      while Is('.')
        invariant Advances() && path != []
        invariant written ==> path <= [word] + parts && Ahead() == DottedText(parts[|path| - 1..], rest)
        decreases |s| - e
      {
        ghost var k := |path| - 1;
        Move(1);
        ghost var u := Ahead();
        var part := ReadWord();
        if written {
          assert u == parts[k] + DottedText(parts[k..][1..], rest);
          assert parts[k..][1..] == parts[k + 1..];
          LongestWord(part, Ahead(), parts[k], DottedText(parts[k + 1..], rest));
        }
        path := path + [part];
      }
    }

    /** A word: a constant, a call or a path. */
    method ReadName(ghost w: Expr, ghost l: Layout, ghost rest: string) returns (x: Expr)
      requires Valid()
      modifies this
      ensures Advances() && (StartsWord(old(Ahead())) ==> old(e) < e)
      ensures ExprAhead(old(Ahead()), w, l, rest) && StartsWithName(w) ==> x == w && Skip(Ahead()) == Skip(rest)
      decreases |s| - e, 1
    {
      ghost var written := ExprAhead(Ahead(), w, l, rest) && StartsWithName(w);
      var word := ReadWord();
      if written { NameRead(word, Ahead(), w, l, rest); }
      if word == "true" { return Lit(Truth(true)); }
      if word == "false" { return Lit(Truth(false)); }
      if word == "null" { return Lit(Nothing); }
      SkipSpace();
      x := ReadAfterName(word, w, l, rest);
    }

    /** What follows a word: arguments, or the rest of a path. */
    method ReadAfterName(word: string, ghost w: Expr, ghost l: Layout, ghost rest: string) returns (x: Expr)
      requires Valid()
      modifies this
      ensures Advances()
      ensures AfterNameAhead(old(Ahead()), word, w, l, rest) ==> x == w && Skip(Ahead()) == Skip(rest)
      decreases |s| - e, 0
    {
      ghost var args', parts, after := [], [], "";
      if AfterNameAhead(Ahead(), word, w, l, rest) { args', parts, after := NameGoesOn(Ahead(), word, w, l, rest); }
      if Is('(') {
        Move(1);
        var args := ReadArguments(args', l, after);
        return Call(word, args);
      }
      var path := ReadPath(word, parts, after);
      return Path(path);
    }

    /** An expression without pipes. */
    method ReadOperand(ghost w: Expr, ghost l: Layout, ghost rest: string) returns (x: Expr)
      requires Valid()
      modifies this
      ensures Advances()
      ensures ExprAhead(old(Ahead()), w, l, rest) && !w.Pipe? ==>
                x == w && Skip(Ahead()) == Skip(rest) && old(e) < e
      decreases |s| - e, 2
    {
      ghost var written := ExprAhead(Ahead(), w, l, rest) && !w.Pipe?;
      if written { OperandBegins(w, l, rest); }
      if Is('"') || Is('\'') {
        var text := ReadString(s[e], if w.Lit? && w.literal.Word? then w.literal.text else "", Gap(l, rest));
        x := Lit(Word(text));
      } else if e < |s| && (Digit(s[e]) || s[e] == '-' || s[e] == '.') {
        x := ReadNumber(if w.Lit? && w.literal.Number? then w.literal.text else "", Gap(l, rest));
      } else {
        x := ReadName(w, l, rest);
      }
    }

    /** A pipe, after its bar. */
    method ReadPipe(left: Expr, ghost w: Expr, ghost l: Layout, ghost rest: string) returns (x: Expr)
      requires Valid()
      modifies this
      ensures Advances()
      ensures PipeAhead(old(Ahead()), w, l, rest) && left == w.left ==> x == w && Ahead() == Skip(rest)
      decreases |s| - e, 5
    {
      ghost var written := PipeAhead(Ahead(), w, l, rest);
      ghost var name, xs, after := "", [], "";
      if written {
        after := PipeBegins(Ahead(), w, l, rest);
        name, xs := w.fn, w.args;
      }
      SkipSpace();
      var fn := ReadWord();
      if written { LongestWord(fn, Ahead(), name, after); }
      SkipSpace();
      var args := ReadPipeArguments(xs, l, rest);
      x := Pipe(left, fn, args);
      SkipSpace();
    }

    /** The arguments of a pipe, if there are any. */
    method ReadPipeArguments(ghost xs: seq<Expr>, ghost l: Layout, ghost rest: string) returns (args: seq<Expr>)
      requires Valid()
      modifies this
      ensures Advances()
      ensures PipeArgumentsAhead(old(Ahead()), xs, l, rest) ==> args == xs && Skip(Ahead()) == Skip(rest)
      decreases |s| - e, 4
    {
      args := [];
      if PipeArgumentsAhead(Ahead(), xs, l, rest) { GapSkips(l, rest); }
      if Is('(') {
        Move(1);
        args := ReadArguments(xs, l, Gap(l, rest));
      }
    }

    /** `l`: an expression. Where it began before the end, it consumes something. */
    method ReadExpression(ghost w: Expr, ghost l: Layout, ghost rest: string) returns (x: Expr)
      requires Valid()
      modifies this
      ensures Advances() && (old(e) < |s| ==> old(e) < e)
      ensures ExprAhead(Skip(old(Ahead())), w, l, rest) && !StartsWith(Skip(rest), '|') ==>
                x == w && Ahead() == Skip(rest)
      decreases |s| - e, 3
    {
      SkipSpace();
      var start := e;
      ghost var written := ExprAhead(Ahead(), w, l, rest) && !StartsWith(Skip(rest), '|');
      ghost var y, after, k := NONE, "", 0;
      if written { y, after, k := OperandFirst(Ahead(), w, l, rest); }
      x := ReadOperand(y, l, after);
      SkipSpace();
      while Is('|')
        invariant Advances() && e >= start >= old(e) && (written ==> e > start)
        invariant written ==> PipesAhead(Ahead(), x, w, k, l, rest)
        decreases |s| - e
      {
        if written { y, after, k := NextPipe(Ahead(), x, w, k, l, rest); }
        Move(1);
        x := ReadPipe(x, y, l, after);
      }
      if written { NoMorePipes(Ahead(), x, w, k, l, rest); }
      if e == start && e < |s| { Move(1); }
    }

    /** On to the closing braces, and past them. */
    method SkipToClosing(ghost rest: string)
      requires Valid()
      modifies this
      ensures Advances()
      ensures Skip(old(Ahead())) == CLOSING + rest ==> Ahead() == rest
    {
      SkipSpace();
      ghost var written := Ahead() == CLOSING + rest;
      if written { Closes(rest); }
      while e < |s| && !Looking(CLOSING)
        invariant Advances() && (written ==> Ahead() == CLOSING + rest)
        decreases |s| - e
      {
        Move(1);
      }
      Eat(CLOSING);
    }

    /** Text up to the next braces, escaped or not, or to a stop. */
    method ReadText(stops: seq<string>, ghost t: string, ghost rest: string) returns (run: string)
      requires Valid() && e < |s| && Inner(stops) && !Breaks(Ahead())
      modifies this
      ensures Advances() && old(e) < e && old(Ahead()) == run + Ahead()
      ensures Ahead() == "" || Breaks(Ahead())
      ensures RunAhead(old(Ahead()), t, rest) ==> run == t && Ahead() == rest
    {
      run := "";
      while e < |s| && !Stops(Ahead(), stops) && !Breaks(Ahead())
        invariant Advances() && old(Ahead()) == run + Ahead() && |run| == e - old(e)
        invariant e == old(e) ==> !Stops(Ahead(), stops) && !Breaks(Ahead())
        invariant RunAhead(old(Ahead()), t, rest) ==> |run| <= |t|
        decreases |s| - e
      {
        if RunAhead(old(Ahead()), t, rest) { RunGoesOn(run, Ahead(), t, rest); }
        Moved(run, Ahead());
        run := run + [s[e]];
        Move(1);
      }
      if RunAhead(old(Ahead()), t, rest) { RunIsRead(run, Ahead(), t, rest); }
    }

    /** Escaped braces, a tag, or text. */
    method ReadNode(stops: seq<string>, ghost w: Node, ghost l: Layout, ghost rest: string) returns (node: Node)
      requires Valid() && Inner(stops) && e < |s| && !Stops(Ahead(), stops)
      modifies this
      ensures Advances() && old(e) < e
      ensures NodeAhead(old(Ahead()), w, l, rest) ==> node == w && Ahead() == rest
      decreases |s| - e, 0
    {
      if Looking(ESCAPED) {
        Move(3);
        node := Text(OPENING);
      } else if Looking(OPENING) {
        Move(2);
        node := ReadTag(w, l, rest);
      } else {
        var run := ReadText(stops, if w.Text? then w.text else "", rest);
        node := Text(run);
      }
    }

    /** `o`: nodes up to one of the stops. */
    method ReadNodes(stops: seq<string>, ghost w: seq<Node>, ghost l: Layout, ghost rest: string)
      returns (nodes: seq<Node>)
      requires Valid() && Inner(stops)
      modifies this
      ensures Advances() && (e == |s| || Stops(Ahead(), stops))
      ensures NodesAhead(old(Ahead()), w, l, stops, rest) ==> nodes == w && Ahead() == rest
      decreases |s| - e, 1
    {
      nodes := [];
      ghost var written := NodesAhead(Ahead(), w, l, stops, rest);
      ghost var todo := w;
      while e < |s| && !Stops(Ahead(), stops)
        invariant Advances()
        invariant written ==> w == nodes + todo && NodesAhead(Ahead(), todo, l, stops, rest)
        decreases |s| - e
      {
        ghost var n, after := Text(""), "";
        if written {
          NodesGoOn(Ahead(), todo, l, stops, rest);
          FirstNode(todo, l, rest, if rest == "" then "" else OPENING);
          Moved(nodes, todo);
          n, after := todo[0], NodesText(todo[1..], l, rest);
        }
        var node := ReadNode(stops, n, l, after);
        nodes := nodes + [node];
        if written { todo := todo[1..]; }
      }
      if written { NodesEnd(Ahead(), todo, l, stops, rest); }
    }

    /** What is between the braces, after the opening ones. */
    method ReadTag(ghost w: Node, ghost l: Layout, ghost rest: string) returns (node: Node)
      requires Valid()
      modifies this
      ensures Advances()
      ensures TagAhead(old(Ahead()), w, l, rest) ==> node == w && Ahead() == rest
      decreases |s| - e, 10
    {
      ghost var written := TagAhead(Ahead(), w, l, rest);
      if written { TagBegins(w, l, rest); }
      SkipSpace();
      if Is('+') {
        Move(1);
        node := ReadRawInsertion(w, l, rest);
      } else if Is('#') {
        Move(1);
        node := ReadBlock(w, l, rest);
      } else {
        node := ReadInsertion(w, l, rest);
      }
    }

    method ReadRawInsertion(ghost w: Node, ghost l: Layout, ghost rest: string) returns (node: Node)
      requires Valid()
      modifies this
      ensures Advances()
      ensures RawAhead(old(Ahead()), w, l, rest) ==> node == w && Ahead() == rest
      decreases |s| - e, 5
    {
      ghost var written := RawAhead(Ahead(), w, l, rest);
      ghost var after := PlusText(l, Gap(l, CLOSING + rest));
      if written { RawCloses(w.expr, l, rest, after); }
      SkipSpace();
      var x := ReadExpression(if w.Insert? then w.expr else NONE, l, after);
      SkipSpace();
      Eat("+");
      SkipToClosing(rest);
      node := Insert(x, true);
    }

    method ReadInsertion(ghost w: Node, ghost l: Layout, ghost rest: string) returns (node: Node)
      requires Valid()
      modifies this
      ensures Advances()
      ensures InsertionAhead(old(Ahead()), w, l, rest) ==> node == w && Ahead() == rest
      decreases |s| - e, 5
    {
      if InsertionAhead(Ahead(), w, l, rest) {
        ExprOpens(w.expr, l, CLOSING + rest);
        Closes(rest);
      }
      var x := ReadExpression(if w.Insert? then w.expr else NONE, l, CLOSING + rest);
      SkipToClosing(rest);
      node := Insert(x, false);
    }

    method ReadBlock(ghost w: Node, ghost l: Layout, ghost rest: string) returns (node: Node)
      requires Valid()
      modifies this
      ensures Advances()
      ensures BlockAhead(old(Ahead()), w, l, rest) ==> node == w && Ahead() == rest
      decreases |s| - e, 9
    {
      ghost var written := BlockAhead(Ahead(), w, l, rest);
      ghost var name := if w.If? then "if" else "each";
      ghost var u := Ahead();
      if written { BlockBegins(u, w, l, rest); }
      var word := ReadWord();
      if written { LongestWord(word, Ahead(), name, u[|name|..]); }
      SkipSpace();
      if word == "if" {
        node := ReadIf(w, l, rest);
      } else if word == "each" {
        node := ReadEach(w, l, rest);
      } else {
        node := Text("[Error: unknown #" + word + "]");
        SkipSpace();
        Eat(CLOSING);
      }
    }

    method ReadBranch(ghost w: Branch, ghost l: Layout, ghost rest: string) returns (branch: Branch)
      requires Valid()
      modifies this
      ensures Advances()
      ensures BranchAhead(Skip(old(Ahead())), w, l, rest) ==> branch == w && Ahead() == rest
      decreases |s| - e, 6
    {
      ghost var body, after := "", "";
      if BranchAhead(Skip(Ahead()), w, l, rest) { body, after := BranchBegins(Skip(Ahead()), w, l, rest); }
      var cond := ReadExpression(w.cond, l, after);
      SkipSpace();
      Eat(CLOSING);
      var nodes := ReadNodes(BRANCH_STOPS, w.body, l, rest);
      branch := Branch(cond, nodes);
    }

    /** The nodes for everything else; none where there is no such part. */
    method ReadElse(end: string, ghost w: seq<Node>, ghost l: Layout, ghost rest: string)
      returns (otherwise: seq<Node>)
      requires Valid() && Inner([end])
      modifies this
      ensures Advances()
      ensures ElseAhead(old(Ahead()), w, l, end, rest) ==> otherwise == w && Ahead() == rest
      decreases |s| - e, 2
    {
      ghost var written := ElseAhead(Ahead(), w, l, end, rest);
      if written { ElseBegins(Ahead(), w, l, end, rest); }
      otherwise := [];
      if Looking(ELSE) {
        Move(9);
        otherwise := ReadNodes([end], w, l, end + rest);
      }
      Eat(end);
    }

    method ReadFurther(ghost w: Branch, ghost l: Layout, ghost rest: string) returns (branch: Branch)
      requires Valid() && (Looking(ELSE_IF) || Looking(ELSEIF))
      modifies this
      ensures Advances() && old(e) < e
      ensures BranchAhead(BehindElseIf(old(Ahead())), w, l, rest) ==> branch == w && Ahead() == rest
      decreases |s| - e, 0
    {
      Move(if Looking(ELSEIF) then 9 else 10);
      SkipSpace();
      branch := ReadBranch(w, l, rest);
    }

    method ReadBranches(ghost w: seq<Branch>, ghost l: Layout, ghost otherwise: seq<Node>, ghost rest: string)
      returns (branches: seq<Branch>)
      requires Valid()
      modifies this
      ensures Advances() && branches != []
      ensures BranchesAhead(Skip(old(Ahead())), w, l, otherwise, rest) ==>
                branches == w && Ahead() == ElseText(otherwise, l, END_IF, rest)
      decreases |s| - e, 7
    {
      ghost var written := BranchesAhead(Skip(Ahead()), w, l, otherwise, rest);
      ghost var b, after, todo := Branch(NONE, []), "", [];
      if written {
        b, todo := w[0], w[1..];
        after := BranchesBegin(Skip(Ahead()), w, l, otherwise, rest);
      }
      var branch := ReadBranch(b, l, after);
      branches := [branch];
      while Looking(ELSE_IF) || Looking(ELSEIF)
        invariant Advances() && branches != []
        invariant written ==> w == branches + todo && FurtherAhead(Ahead(), todo, l, otherwise, rest)
        decreases |s| - e
      {
        if written {
          after := FurtherBegins(Ahead(), todo, l, otherwise, rest);
          Moved(branches, todo);
          b, todo := todo[0], todo[1..];
        }
        branch := ReadFurther(b, l, after);
        branches := branches + [branch];
      }
      if written { FurtherEnds(Ahead(), todo, l, otherwise, rest); }
    }

    method ReadIf(ghost w: Node, ghost l: Layout, ghost rest: string) returns (node: Node)
      requires Valid()
      modifies this
      ensures Advances() && node.If? && node.branches != []
      ensures IfAhead(Skip(old(Ahead())), w, l, rest) ==> node == w && Ahead() == rest
      decreases |s| - e, 8
    {
      ghost var all, last := [], [];
      if IfAhead(Skip(Ahead()), w, l, rest) { all, last := w.branches, w.otherwise; }
      var branches := ReadBranches(all, l, last, rest);
      var otherwise := ReadElse(END_IF, last, l, rest);
      node := If(branches, otherwise);
    }

    /** The name for the index in a loop, if there is one. */
    method ReadIndex(ghost w: Option<string>, ghost l: Layout, ghost rest: string) returns (index: Option<string>)
      requires Valid()
      modifies this
      ensures Advances()
      ensures IndexAhead(old(Ahead()), w, l, rest) ==> index == w && Ahead() == rest
    {
      ghost var written := IndexAhead(Ahead(), w, l, rest);
      index := None;
      if Is(',') {
        ghost var v := if written then w.value else "";
        if written { NameThenGap(v, l, rest); }
        Move(1);
        SkipSpace();
        var name := ReadWord();
        if written { LongestWord(name, Ahead(), v, Gap(l, rest)); }
        index := Some(name);
        SkipSpace();
      }
    }

    /** A list, and the names for its items and their index. */
    method ReadLoop(ghost x: Expr, ghost item': string, ghost index': Option<string>, ghost l: Layout,
                    ghost inside: string)
      returns (ok: bool, list: Expr, item: string, index: Option<string>)
      requires Valid()
      modifies this
      ensures Advances()
      ensures LoopAhead(Skip(old(Ahead())), x, item', index', l, inside) ==>
                ok && list == x && item == item' && index == index' && Ahead() == CLOSING + inside
      decreases |s| - e, 7
    {
      ghost var written := LoopAhead(Skip(Ahead()), x, item', index', l, inside);
      ghost var second, third := AfterAs(item', index', l, inside), AfterItem(index', l, inside);
      if written { LoopBegins(x, item', index', l, inside, second, third); }
      ok, item, index := false, "", None;
      list := ReadExpression(x, l, Apart(l, "as" + second));
      SkipSpace();
      var word := ReadWord();
      if written { LongestWord(word, Ahead(), "as", second); }
      SkipSpace();
      if word != "as" { return; }
      item := ReadWord();
      if written { LongestWord(item, Ahead(), item', third); }
      SkipSpace();
      index := ReadIndex(index', l, CLOSING + inside);
      ok := true;
    }

    method ReadEach(ghost w: Node, ghost l: Layout, ghost rest: string) returns (node: Node)
      requires Valid()
      modifies this
      ensures Advances()
      ensures EachAhead(Skip(old(Ahead())), w, l, rest) ==> node == w && Ahead() == rest
      decreases |s| - e, 8
    {
      ghost var n := if w.Each? then w else Each(NONE, "", None, [], []);
      ghost var tail := ElseText(n.otherwise, l, END_EACH, rest);
      ghost var inside := NodesText(n.body, l, tail);
      if EachAhead(Skip(Ahead()), w, l, rest) { EachBegins(w, l, rest, tail, inside); }
      var ok, list, item, index := ReadLoop(n.list, n.item, n.index, l, inside);
      if !ok { return Text("[Error: #each missing 'as']"); }
      Eat(CLOSING);
      var body := ReadNodes(EACH_STOPS, n.body, l, tail);
      var otherwise := ReadElse(END_EACH, n.otherwise, l, rest);
      node := Each(list, item, index, body, otherwise);
    }
  }

  /** `R`, up to rendering. However a template is written, compiling gives it back. */
  method Compile(s: string, ghost w: seq<Node>, ghost l: Layout) returns (nodes: seq<Node>)
    ensures WritableNodes(w, "") && ValidLayout(l) && s == NodesText(w, l, "") ==> nodes == w
  {
    var compiler := new Compiler(s);
    assert s[0..] == s;
    nodes := compiler.ReadNodes([], w, l, "");
  }
}
