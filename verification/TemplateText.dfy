/** The templates of the search UI, and how they are written: text with `{{...}}` in it. */
module TemplateText {
  import opened Basics

  datatype Literal = Word(text: string) | Number(text: string) | Truth(truth: bool) | Nothing

  datatype Expr =
    | Lit(literal: Literal)
    | Path(path: seq<string>)
    | Call(fn: string, args: seq<Expr>)
    | Pipe(left: Expr, fn: string, args: seq<Expr>)

  datatype Branch = Branch(cond: Expr, body: seq<Node>)

  datatype Node =
    | Text(text: string)
    | Insert(expr: Expr, raw: bool)
    | If(branches: seq<Branch>, otherwise: seq<Node>)
    | Each(list: Expr, item: string, index: Option<string>, body: seq<Node>, otherwise: seq<Node>)

  const OPENING := "{{"
  const ESCAPED := "\\{{"
  const CLOSING := "}}"
  const ELSE := "{{:else}}"
  const ELSE_IF := "{{:else if"
  const ELSEIF := "{{:elseif"
  const END_IF := "{{/if}}"
  const END_EACH := "{{/each}}"

  predicate Space(c: char) { c == ' ' || c == '\t' || c == '\n' || c == '\r' }
  predicate Digit(c: char) { '0' <= c <= '9' }
  predicate WordCharacter(c: char) { Digit(c) || 'a' <= c <= 'z' || 'A' <= c <= 'Z' || c == '_' }

  predicate Starts(u: string, prefix: string) { prefix <= u }
  predicate StartsWord(u: string) { u != "" && WordCharacter(u[0]) }
  predicate StartsWith(u: string, c: char) { u != "" && u[0] == c }

  /** Here are braces, escaped or not, and text ends. */
  predicate Breaks(u: string) { Starts(u, ESCAPED) || Starts(u, OPENING) }

  // ----- blanks and words -----

  predicate Blank(g: string) { forall i | 0 <= i < |g| :: Space(g[i]) }

  predicate IsWord(w: string) { forall i | 0 <= i < |w| :: WordCharacter(w[i]) }

  /** The text from its first character on that is no blank. */
  function Skip(u: string): (r: string)
    ensures r == "" || !Space(r[0])
  {
    if u != "" && Space(u[0]) then Skip(u[1..]) else u
  }

  lemma {:induction false} SkipGap(g: string, u: string)
    requires Blank(g)
    ensures Skip(g + u) == Skip(u)
    decreases |g|
  {
    if g == "" {
      assert g + u == u;
    } else {
      assert (g + u)[1..] == g[1..] + u;
      SkipGap(g[1..], u);
    }
  }

  /** Nothing that belongs to an expression follows, except for pipes. */
  predicate Ends(u: string) {
    !StartsWord(u) && !StartsWith(Skip(u), '.') && !StartsWith(Skip(u), '(')
  }

  // ----- how expressions are written -----

  /** What the writer may choose, for each place by itself: blanks where there may be some, the
      first blank where there must be one, the quotation marks of a string, the spelling of a
      further branch, whether a raw insertion has a second plus, and whether a pipe without
      arguments goes without parentheses. A place is known by the text that follows it. */
  datatype Layout = Layout(gap: string -> string, space: string -> char, quote: string -> char,
                           elseIf: string -> string, plus: string -> string, bare: string -> bool)

  ghost predicate ValidLayout(l: Layout) {
    && (forall u :: Blank(l.gap(u)))
    && (forall u :: Space(l.space(u)))
    && (forall u :: l.quote(u) == '"' || l.quote(u) == '\'')
    && (forall u :: l.elseIf(u) == ELSE_IF || l.elseIf(u) == ELSEIF)
    && (forall u :: l.plus(u) == "" || l.plus(u) == "+")
  }

  /** Blanks, or none, in front of a text. */
  function Gap(l: Layout, u: string): string {
    l.gap(u) + u
  }

  /** At least one blank in front of a text. */
  function Apart(l: Layout, u: string): string {
    [l.space(u)] + Gap(l, u)
  }

  lemma GapSkips(l: Layout, u: string)
    requires ValidLayout(l)
    ensures Skip(Gap(l, u)) == Skip(u)
    ensures !StartsWord(u) ==> !StartsWord(Gap(l, u))
    ensures Ends(u) ==> Ends(Gap(l, u))
  {
    var g := l.gap(u);
    SkipGap(g, u);
    if g == "" { assert g + u == u; }
  }

  lemma ApartSkips(l: Layout, u: string)
    requires ValidLayout(l)
    ensures Skip(Apart(l, u)) == Skip(u) && !StartsWord(Apart(l, u))
  {
    GapSkips(l, u);
    SkipGap([l.space(u)], Gap(l, u));
  }

  function InString(c: char, quote: char): string {
    match c
    case '\n' => "\\n"
    case '\t' => "\\t"
    case '\r' => "\\r"
    case _ => if c == quote || c == '\\' then ['\\', c] else [c]
  }

  /** The rest of a string, its closing quotation mark, and the text behind it. As in all of
      these functions, the last argument is what follows. */
  function StringText(t: string, quote: char, rest: string): string {
    if t == "" then [quote] + rest else InString(t[0], quote) + StringText(t[1..], quote, rest)
  }

  function StringAt(t: string, l: Layout, rest: string): string {
    [l.quote(rest)] + StringText(t, l.quote(rest), rest)
  }

  function DottedText(path: seq<string>, rest: string): string {
    if path == [] then rest else "." + (path[0] + DottedText(path[1..], rest))
  }

  function ExprText(x: Expr, l: Layout, rest: string): string
    decreases x
  {
    match x
    case Lit(Word(t)) => StringAt(t, l, Gap(l, rest))
    case Lit(Number(p)) => p + Gap(l, rest)
    case Lit(Truth(truth)) => (if truth then "true" else "false") + Gap(l, rest)
    case Lit(Nothing) => "null" + Gap(l, rest)
    case Path(path) => if path == [] then rest else path[0] + Gap(l, DottedText(path[1..], Gap(l, rest)))
    case Call(fn, args) => fn + Gap(l, "(" + ArgumentsText(args, l, Gap(l, rest)))
    case Pipe(left, fn, args) => ExprText(left, l, PipeText(fn, args, l, rest))
  }

  function PipeText(fn: string, args: seq<Expr>, l: Layout, rest: string): string
    decreases args, 3
  {
    "|" + Gap(l, fn + Gap(l, if args == [] && l.bare(rest) then rest else "(" + ArgumentsText(args, l, Gap(l, rest))))
  }

  function ArgumentsText(args: seq<Expr>, l: Layout, rest: string): string
    decreases args, 2
  {
    Gap(l, ListText(args, l, ")" + rest))
  }

  function ListText(args: seq<Expr>, l: Layout, rest: string): string
    decreases args, 1
  {
    if args == [] then rest else ExprText(args[0], l, AfterFirst(args, l, rest))
  }

  function AfterFirst(args: seq<Expr>, l: Layout, rest: string): string
    requires args != []
    decreases args, 0
  {
    if |args| == 1 then rest else "," + Gap(l, ListText(args[1..], l, rest))
  }

  // ----- which expressions can be written -----

  predicate Digits(p: string, dotted: bool) {
    p == "" || (Digit(p[0]) && Digits(p[1..], dotted)) || (p[0] == '.' && !dotted && Digits(p[1..], true))
  }

  predicate NumberText(p: string) {
    p != "" && p != "-" && p != "." && Digits(if p[0] == '-' then p[1..] else p, false)
  }

  /** The digits `d` were read, `u` is ahead, and all that belongs to the number `p`. */
  ghost predicate NumberSoFar(d: string, u: string, p: string, rest: string, dotted: bool) {
    d + u == p + rest && d <= p && Digits(p[|d|..], dotted) && !StartsWord(rest) && !StartsWith(rest, '.')
  }

  lemma NumberBegins(d: string, u: string, v: string, p: string, rest: string)
    requires u == p + rest && NumberText(p) && !StartsWord(rest) && !StartsWith(rest, '.')
    requires d == (if u[0] == '-' then "-" else "") && v == u[|d|..]
    ensures NumberSoFar(d, v, p, rest, false)
  {
    assert u[0] == p[0] && d + v == u;
    assert p[0..] == p;
  }

  lemma NumberGoesOn(d: string, u: string, p: string, rest: string, dotted: bool, d': string, u': string)
    requires NumberSoFar(d, u, p, rest, dotted) && u != "" && (Digit(u[0]) || (u[0] == '.' && !dotted))
    requires d' == d + [u[0]] && u' == u[1..]
    ensures NumberSoFar(d', u', p, rest, dotted || u[0] == '.')
  {
    var all := d + u;
    assert all[|d|] == u[0] && all[|p|..] == rest;
    assert all[..|p|] == p;
    assert |d| < |p|;
    assert p[|d|..][1..] == p[|d'|..];
    Moved(d, u);
    assert all[..|d'|] == d';
  }

  lemma NumberIsRead(d: string, u: string, p: string, rest: string, dotted: bool)
    requires NumberSoFar(d, u, p, rest, dotted)
    requires u == "" || !(Digit(u[0]) || (u[0] == '.' && !dotted))
    ensures d == p && u == rest
  {
    var all := d + u;
    assert all[..|p|] == p && all[..|d|] == d && all[|d|..] == u;
  }

  predicate Name(w: string) {
    IsWord(w) && w != "" && !Digit(w[0]) && w != "true" && w != "false" && w != "null"
  }

  predicate Writable(x: Expr) {
    match x
    case Lit(Word(_)) => true
    case Lit(Number(p)) => NumberText(p)
    case Lit(Truth(_)) => true
    case Lit(Nothing) => true
    case Path(path) => path != [] && Name(path[0]) && forall i | 0 < i < |path| :: IsWord(path[i])
    case Call(fn, args) => Name(fn) && forall i | 0 <= i < |args| :: Writable(args[i])
    case Pipe(left, fn, args) => Writable(left) && IsWord(fn) && fn != "" && forall i | 0 <= i < |args| :: Writable(args[i])
  }

  predicate Opens(c: char) {
    WordCharacter(c) || c == '-' || c == '.' || c == '"' || c == '\''
  }

  lemma {:induction false} ExprOpens(x: Expr, l: Layout, rest: string)
    requires Writable(x) && ValidLayout(l)
    ensures ExprText(x, l, rest) != "" && Opens(ExprText(x, l, rest)[0])
    decreases x
  {
    match x
    case Pipe(left, fn, args) => ExprOpens(left, l, PipeText(fn, args, l, rest));
    case _ =>
  }

  /** Constants that are words, paths and calls begin with a word. */
  predicate StartsWithName(x: Expr) {
    match x
    case Lit(literal) => literal.Truth? || literal.Nothing?
    case Path(path) => path != []
    case Call(_, _) => true
    case Pipe(_, _, _) => false
  }

  function NameOf(x: Expr): string
    requires StartsWithName(x)
  {
    match x
    case Lit(literal) => if literal.Nothing? then "null" else if literal.truth then "true" else "false"
    case Path(path) => path[0]
    case Call(fn, _) => fn
  }

  function AfterName(x: Expr, l: Layout, rest: string): string
    requires StartsWithName(x)
  {
    match x
    case Lit(literal) => Gap(l, rest)
    case Path(path) => Gap(l, DottedText(path[1..], Gap(l, rest)))
    case Call(_, args) => Gap(l, "(" + ArgumentsText(args, l, Gap(l, rest)))
  }

  lemma NoLongerWord(word: string, u: string, w: string, v: string)
    requires word + u == w + v && IsWord(w) && !StartsWord(u)
    ensures |w| <= |word|
  {
    var all := word + u;
    assert forall i | 0 <= i < |w| :: WordCharacter(all[i]);
    assert all[|word|..] == u;
  }

  /** A text begins with one longest word only. */
  lemma LongestWord(word: string, u: string, w: string, v: string)
    requires word + u == w + v
    requires IsWord(word) && IsWord(w) && !StartsWord(u) && !StartsWord(v)
    ensures word == w && u == v
  {
    NoLongerWord(word, u, w, v);
    NoLongerWord(w, v, word, u);
    var all := word + u;
    assert all[..|word|] == word && all[|word|..] == u;
  }

  /** What a name leaves to be read. */
  function Behind(x: Expr, l: Layout, rest: string): string
    requires StartsWithName(x)
  {
    match x
    case Lit(literal) => rest
    case Path(path) => if |path| == 1 then rest else DottedText(path[1..], Gap(l, rest))
    case Call(_, args) => "(" + ArgumentsText(args, l, Gap(l, rest))
  }

  lemma AfterNameIsBehind(x: Expr, l: Layout, rest: string)
    requires StartsWithName(x) && ValidLayout(l) && Ends(rest)
    ensures !StartsWord(AfterName(x, l, rest)) && Skip(AfterName(x, l, rest)) == Skip(Behind(x, l, rest))
  {
    GapSkips(l, rest);
    var u := match x
      case Lit(literal) => rest
      case Path(path) => DottedText(path[1..], Gap(l, rest))
      case Call(_, args) => "(" + ArgumentsText(args, l, Gap(l, rest));
    GapSkips(l, u);
  }

  lemma NameRead(word: string, u: string, x: Expr, l: Layout, rest: string)
    requires StartsWithName(x) && Writable(x) && ValidLayout(l) && Ends(rest)
    requires word + u == ExprText(x, l, rest) && IsWord(word) && !StartsWord(u)
    ensures word == NameOf(x) && Skip(u) == Skip(Behind(x, l, rest))
  {
    AfterNameIsBehind(x, l, rest);
    LongestWord(word, u, NameOf(x), AfterName(x, l, rest));
  }

  // ----- the pipes of an expression, from the outermost one -----

  function Pipes(x: Expr): nat {
    if x.Pipe? then Pipes(x.left) + 1 else 0
  }

  /** The expression without its `k` last pipes. */
  function Left(x: Expr, k: nat): (y: Expr)
    requires k <= Pipes(x)
    ensures Pipes(y) == Pipes(x) - k
    ensures Writable(x) ==> Writable(y)
    decreases k
  {
    if k == 0 then x else Left(x, k - 1).left
  }

  /** Those pipes. */
  function TailText(x: Expr, k: nat, l: Layout, rest: string): string
    requires k <= Pipes(x)
    decreases k
  {
    if k == 0 then rest
    else var y := Left(x, k - 1); PipeText(y.fn, y.args, l, TailText(x, k - 1, l, rest))
  }

  lemma {:induction false} WithoutPipes(x: Expr, k: nat, l: Layout, rest: string)
    requires k <= Pipes(x)
    ensures ExprText(x, l, rest) == ExprText(Left(x, k), l, TailText(x, k, l, rest))
    decreases k
  {
    if k != 0 { WithoutPipes(x, k - 1, l, rest); }
  }

  lemma TailEnds(x: Expr, k: nat, l: Layout, rest: string)
    requires k <= Pipes(x) && Ends(rest)
    ensures Ends(TailText(x, k, l, rest))
    ensures k > 0 ==> StartsWith(TailText(x, k, l, rest), '|')
  {}

  // ----- how nodes are written -----

  function NodesText(nodes: seq<Node>, l: Layout, rest: string): string
    decreases nodes, 0
  {
    if nodes == [] then rest else NodeText(nodes[0], l, NodesText(nodes[1..], l, rest))
  }

  function NodeText(n: Node, l: Layout, rest: string): string
    decreases n, 1
  {
    if n.Text? then (if n.text == OPENING then ESCAPED else n.text) + rest else OPENING + TagText(n, l, rest)
  }

  /** A tag without its opening braces. */
  function TagText(n: Node, l: Layout, rest: string): string
    decreases n, 0
  {
    match n
    case Text(_) => rest
    case Insert(x, raw) => Gap(l, if raw then "+" + RawText(x, l, rest) else ExprText(x, l, CLOSING + rest))
    case If(branches, otherwise) =>
      Gap(l, "#" + ("if" + Apart(l, BranchesText(branches, l, ElseText(otherwise, l, END_IF, rest)))))
    case Each(list, item, index, body, otherwise) =>
      var inside := NodesText(body, l, ElseText(otherwise, l, END_EACH, rest));
      Gap(l, "#" + ("each" + Apart(l, LoopText(list, item, index, l, inside))))
  }

  /** A raw insertion, after its first plus. */
  function RawText(x: Expr, l: Layout, rest: string): string {
    Gap(l, ExprText(x, l, PlusText(l, Gap(l, CLOSING + rest))))
  }

  function PlusText(l: Layout, rest: string): string {
    l.plus(rest) + rest
  }

  /** The head of a loop, up to its closing braces, and what is inside. */
  function LoopText(list: Expr, item: string, index: Option<string>, l: Layout, inside: string): string {
    ExprText(list, l, Apart(l, "as" + AfterAs(item, index, l, inside)))
  }

  function AfterAs(item: string, index: Option<string>, l: Layout, inside: string): string {
    Apart(l, item + AfterItem(index, l, inside))
  }

  function AfterItem(index: Option<string>, l: Layout, inside: string): string {
    Gap(l, IndexText(index, l, CLOSING + inside))
  }

  function IndexText(index: Option<string>, l: Layout, rest: string): string {
    if index == None then rest else "," + Gap(l, index.value + Gap(l, rest))
  }

  function BranchesText(branches: seq<Branch>, l: Layout, rest: string): string
    decreases branches, 0
  {
    if branches == [] then rest
    else ExprText(branches[0].cond, l, CLOSING + NodesText(branches[0].body, l, FurtherText(branches[1..], l, rest)))
  }

  function FurtherText(branches: seq<Branch>, l: Layout, rest: string): string
    decreases branches, 1
  {
    if branches == [] then rest
    else var more := Gap(l, BranchesText(branches, l, rest)); l.elseIf(more) + more
  }

  function ElseText(otherwise: seq<Node>, l: Layout, end: string, rest: string): string
    decreases otherwise, 1
  {
    if otherwise == [] then end + rest else ELSE + NodesText(otherwise, l, end + rest)
  }

  // ----- which nodes can be written -----

  /** No braces begin in the text when the given text follows. */
  predicate Unbroken(t: string, next: string) {
    forall i | 0 <= i < |t| :: !Breaks(t[i..] + next)
  }

  /** How the nodes begin, as far as it matters for the text in front of them. */
  function Next(nodes: seq<Node>, end: string): string {
    if nodes == [] then end
    else if !nodes[0].Text? then OPENING
    else if nodes[0].text == OPENING then ESCAPED else nodes[0].text
  }

  predicate WritableNodes(nodes: seq<Node>, end: string)
    decreases nodes, 0
  {
    nodes == [] || (WritableNode(nodes[0], Next(nodes[1..], end)) && WritableNodes(nodes[1..], end))
  }

  /** Text is not empty, has no braces in it unless it is a pair of them, and is not cut in two. */
  predicate WritableNode(n: Node, next: string)
    decreases n, 1
  {
    match n
    case Text(t) => t == OPENING || (t != "" && Unbroken(t, next) && (next == "" || Breaks(next)))
    case Insert(x, _) => Writable(x)
    case If(branches, otherwise) =>
      branches != [] && WritableNodes(otherwise, OPENING)
      && forall i | 0 <= i < |branches| :: Writable(branches[i].cond) && WritableNodes(branches[i].body, OPENING)
    case Each(list, item, index, body, otherwise) =>
      Writable(list) && IsWord(item) && item != "" && (index.Some? ==> IsWord(index.value) && index.value != "")
      && WritableNodes(body, OPENING) && WritableNodes(otherwise, OPENING)
  }

  /** The text begins as foreseen. */
  predicate Follows(rest: string, next: string) {
    if next == "" then rest == "" else Starts(rest, next)
  }

  lemma NodesFollow(nodes: seq<Node>, end: string, l: Layout, rest: string)
    requires WritableNodes(nodes, end) && Follows(rest, end)
    ensures Follows(NodesText(nodes, l, rest), Next(nodes, end))
  {}

  lemma TextStaysUnbroken(t: string, next: string, rest: string)
    requires Unbroken(t, next) && Follows(rest, next) && (next == "" || Breaks(next))
    ensures Unbroken(t, rest) && (rest == "" || Breaks(rest))
  {
    forall i | 0 <= i < |t| ensures !Breaks(t[i..] + rest) {
      var u, v := t[i..] + next, t[i..] + rest;
      assert !Breaks(u);
      assert |t[i..]| >= 1 && v[0] == u[0];
      if next == "" {
        assert u == v;
      } else {
        assert v[1] == u[1] && v[2] == u[2];
      }
    }
  }

  lemma TagOpens(n: Node, l: Layout, rest: string)
    requires !n.Text? && WritableNode(n, "") && ValidLayout(l)
    ensures TagText(n, l, rest) != ""
    ensures TagText(n, l, rest)[0] != ':' && TagText(n, l, rest)[0] != '/'
  {
    var u := match n
      case Text(_) => rest
      case Insert(x, raw) => if raw then "+" + RawText(x, l, rest) else ExprText(x, l, CLOSING + rest)
      case If(branches, otherwise) =>
        "#" + ("if" + Apart(l, BranchesText(branches, l, ElseText(otherwise, l, END_IF, rest))))
      case Each(list, item, index, body, otherwise) =>
        var inside := NodesText(body, l, ElseText(otherwise, l, END_EACH, rest));
        "#" + ("each" + Apart(l, LoopText(list, item, index, l, inside)));
    if n.Insert? && !n.raw { ExprOpens(n.expr, l, CLOSING + rest); }
    assert TagText(n, l, rest) == l.gap(u) + u && u[0] != ':' && u[0] != '/';
    if l.gap(u) == "" { assert l.gap(u) + u == u; }
  }

  // ----- text only -----

  /** Every pair of opening braces, from left to right, with a backslash in front. */
  function Escape(text: string): string {
    if text == "" then ""
    else if Starts(text, OPENING) then ESCAPED + Escape(text[2..])
    else [text[0]] + Escape(text[1..])
  }

  /** There is nothing to compile: all pairs of opening braces are escaped. */
  predicate Plain(u: string) {
    if u == "" then true
    else if Starts(u, ESCAPED) then Plain(u[3..])
    else !Starts(u, OPENING) && Plain(u[1..])
  }

  /** The text without those backslashes. */
  function Unescape(u: string): string {
    if u == "" then ""
    else if Starts(u, ESCAPED) then OPENING + Unescape(u[3..])
    else [u[0]] + Unescape(u[1..])
  }

  lemma {:induction false} EscapeIsPlain(text: string)
    ensures Plain(Escape(text)) && Unescape(Escape(text)) == text
    ensures Starts(text, OPENING) ==> Escape(text)[0] == '\\'
    ensures text != "" && !Starts(text, OPENING) ==> Escape(text) != "" && Escape(text)[0] == text[0]
    decreases |text|
  {
    if text != "" {
      var u := Escape(text);
      if Starts(text, OPENING) {
        EscapeIsPlain(text[2..]);
        assert u[3..] == Escape(text[2..]) && text == OPENING + text[2..];
      } else {
        EscapeIsPlain(text[1..]);
        var rest := Escape(text[1..]);
        assert u[1..] == rest;
        if |text| > 2 { EscapeIsPlain(text[2..]); }
        assert !Starts(u, OPENING);
        assert !Starts(u, ESCAPED);
      }
    }
  }

  ghost predicate AllText(nodes: seq<Node>) {
    forall i | 0 <= i < |nodes| :: nodes[i].Text?
  }

  ghost function TextOf(nodes: seq<Node>): string
    requires AllText(nodes)
  {
    if nodes == [] then "" else nodes[0].text + TextOf(nodes[1..])
  }

  /** The nodes of plain text: the escaped braces, and what is between them. */
  function PlainNodes(u: string): (nodes: seq<Node>)
    requires Plain(u)
    decreases |u|
  {
    if u == "" then []
    else if Starts(u, ESCAPED) then [Text(OPENING)] + PlainNodes(u[3..])
    else
      var rest := PlainNodes(u[1..]);
      if rest != [] && rest[0].Text? && rest[0].text != OPENING
      then [Text([u[0]] + rest[0].text)] + rest[1..]
      else [Text([u[0]])] + rest
  }

  /** Plain text is how its nodes are written, in every layout, and what they say. */
  lemma {:induction false} PlainIsWritten(u: string, l: Layout)
    requires Plain(u)
    ensures WritableNodes(PlainNodes(u), "") && NodesText(PlainNodes(u), l, "") == u
    ensures AllText(PlainNodes(u)) && TextOf(PlainNodes(u)) == Unescape(u)
    decreases |u|
  {
    var nodes := PlainNodes(u);
    if u == "" {
    } else if Starts(u, ESCAPED) {
      PlainIsWritten(u[3..], l);
      assert nodes[1..] == PlainNodes(u[3..]);
    } else {
      PlainIsWritten(u[1..], l);
      PrependCharacter(u[0], PlainNodes(u[1..]), nodes, u, l);
    }
  }

  lemma PrependCharacter(c: char, rest: seq<Node>, nodes: seq<Node>, u: string, l: Layout)
    requires u != "" && u[0] == c && !Breaks(u)
    requires WritableNodes(rest, "") && NodesText(rest, l, "") == u[1..] && AllText(rest)
    requires nodes == if rest != [] && rest[0].Text? && rest[0].text != OPENING
                      then [Text([c] + rest[0].text)] + rest[1..] else [Text([c])] + rest
    ensures WritableNodes(nodes, "") && NodesText(nodes, l, "") == u
    ensures AllText(nodes) && TextOf(nodes) == [c] + TextOf(rest)
  {
    if rest != [] && rest[0].text != OPENING {
      LongerFirst(c, rest, nodes, u, l);
    } else {
      NewFirst(c, rest, nodes, u, l);
    }
  }

  lemma LongerFirst(c: char, rest: seq<Node>, nodes: seq<Node>, u: string, l: Layout)
    requires u != "" && u[0] == c && !Breaks(u) && AllText(rest) && rest != [] && rest[0].text != OPENING
    requires WritableNodes(rest, "") && NodesText(rest, l, "") == u[1..]
    requires nodes == [Text([c] + rest[0].text)] + rest[1..]
    ensures WritableNodes(nodes, "") && NodesText(nodes, l, "") == u
    ensures AllText(nodes) && TextOf(nodes) == [c] + TextOf(rest)
  {
    var t, tail := rest[0].text, rest[1..];
    var after := NodesText(tail, l, "");
    Prepend(c, t, after, u);
    NodesFollow(tail, "", l, "");
    WriteRun(c, t, tail, nodes, l, after);
    Prepend(c, t, TextOf(tail), [c] + TextOf(rest));
    assert nodes[1..] == tail;
  }

  lemma Prepend(c: char, t: string, v: string, u: string)
    requires u != "" && u[0] == c && u[1..] == t + v
    ensures u == ([c] + t) + v
  {
    assert u == [c] + u[1..];
  }

  lemma NewFirst(c: char, rest: seq<Node>, nodes: seq<Node>, u: string, l: Layout)
    requires u != "" && u[0] == c && !Breaks(u) && AllText(rest) && (rest == [] || rest[0].text == OPENING)
    requires WritableNodes(rest, "") && NodesText(rest, l, "") == u[1..]
    requires nodes == [Text([c])] + rest
    ensures WritableNodes(nodes, "") && NodesText(nodes, l, "") == u
    ensures AllText(nodes) && TextOf(nodes) == [c] + TextOf(rest)
  {
    var after := u[1..];
    assert [c] + "" == [c] && u == [c] + after;
    NodesFollow(rest, "", l, "");
    WriteRun(c, "", rest, nodes, l, after);
  }

  /** One character more at the beginning of a run of text. */
  lemma WriteRun(c: char, t: string, tail: seq<Node>, nodes: seq<Node>, l: Layout, after: string)
    requires WritableNodes(tail, "") && after == NodesText(tail, l, "") && nodes == [Text([c] + t)] + tail
    requires Unbroken(t, Next(tail, "")) && (Next(tail, "") == "" || Breaks(Next(tail, "")))
    requires Follows(after, Next(tail, "")) && !Breaks(([c] + t) + after)
    ensures WritableNodes(nodes, "") && NodesText(nodes, l, "") == ([c] + t) + after
  {
    LongerRun(c, t, Next(tail, ""), after);
    OpeningBreaks([c] + t, after);
    assert nodes[0] == Text([c] + t) && nodes[1..] == tail;
  }

  lemma OpeningBreaks(run: string, after: string)
    requires !Breaks(run + after)
    ensures run != OPENING
  {}

  lemma FirstRun(r: string, next: string, after: string)
    requires r != "" && !Breaks(r + after) && Follows(after, next)
    ensures !Breaks(r[0..] + next)
  {
    var u, v := r + next, r + after;
    assert u <= v by { assert v[..|u|] == u; }
    assert r[0..] == r;
  }

  lemma LongerRun(c: char, t: string, next: string, after: string)
    requires Unbroken(t, next) && (next == "" || Breaks(next)) && Follows(after, next)
    requires !Breaks(([c] + t) + after)
    ensures Unbroken([c] + t, next)
  {
    var r := [c] + t;
    forall i | 0 <= i < |r| ensures !Breaks(r[i..] + next) {
      if i == 0 {
        FirstRun(r, next, after);
      } else {
        assert r[i..] == t[i - 1..];
      }
    }
  }
}
