/** Rendering of compiled templates: expressions are evaluated in the data, and what is
    inserted is escaped for HTML unless it is asked for raw. */
module TemplateRenderer {
  import opened Basics
  import opened TemplateParser
  import opened TemplateText

  datatype Value =
    | Undefined | Null | Bool(truth: bool) | Num(number: real) | NotANumber | Str(text: string)
    | Arr(items: seq<Value>) | Obj(fields: map<string, Value>)

  /** What the language and the registered functions provide; `own` gives the own properties of
      what is no object: the items and the length of arrays and texts. */
  datatype Host = Host(call: (string, seq<Value>) -> Value, own: (Value, string) -> Option<Value>,
                       number: string -> Value, show: Value -> string)

  type Scope = map<string, Value>

  // ----- evaluation -----

  predicate Truthy(v: Value) {
    match v
    case Undefined => false
    case Null => false
    case Bool(truth) => truth
    case Num(number) => number != 0.0
    case NotANumber => false
    case Str(text) => text != ""
    case Arr(items) => items != []
    case Obj(fields) => fields != map[]
  }

  function OwnField(v: Value, name: string, host: Host): Option<Value> {
    if !v.Obj? then host.own(v, name) else if name in v.fields then Some(v.fields[name]) else None
  }

  function Walk(v: Value, path: seq<string>, host: Host): Value
    decreases |path|
  {
    if path == [] then v
    else if v == Undefined || v == Null then Undefined
    else match OwnField(v, path[0], host)
      case None => Undefined
      case Some(next) => Walk(next, path[1..], host)
  }

  /** `m`. A pipe is a call with what is on its left as the first argument. */
  function Eval(x: Expr, scope: Scope, host: Host): Value {
    match x
    case Lit(Word(text)) => Str(text)
    case Lit(Number(text)) => host.number(text)
    case Lit(Truth(truth)) => Bool(truth)
    case Lit(Nothing) => Null
    case Path(path) => Walk(Obj(scope), path, host)
    case Call(fn, args) => host.call(fn, EvalAll(args, scope, host))
    case Pipe(left, fn, args) => host.call(fn, [Eval(left, scope, host)] + EvalAll(args, scope, host))
  }

  function EvalAll(args: seq<Expr>, scope: Scope, host: Host): seq<Value> {
    seq(|args|, i requires 0 <= i < |args| => Eval(args[i], scope, host))
  }

  /** What counts as false. */
  lemma FalseValues(v: Value)
    ensures !Truthy(v) <==> v == Undefined || v == Null || v == Bool(false) || v == Num(0.0) || v == NotANumber
                            || v == Str("") || v == Arr([]) || v == Obj(map[])
  {
    match v
    case Bool(truth) => assert !truth ==> v == Bool(false);
    case Num(number) => assert number == 0.0 ==> v == Num(0.0);
    case Str(text) => assert text == "" ==> v == Str("");
    case Arr(items) => assert items == [] ==> v == Arr([]);
    case Obj(fields) => assert fields == map[] ==> v == Obj(map[]);
    case _ =>
  }

  /** What is written out stands for itself. */
  lemma LiteralsStandForThemselves(text: string, truth: bool, scope: Scope, host: Host)
    ensures Eval(Lit(Word(text)), scope, host) == Str(text) && Eval(Lit(Truth(truth)), scope, host) == Bool(truth)
    ensures Eval(Lit(Nothing), scope, host) == Null && Eval(Lit(Number(text)), scope, host) == host.number(text)
  {
  }

  /** A pipe is the call with what is on its left as the first argument. */
  lemma PipeIsCall(left: Expr, fn: string, args: seq<Expr>, scope: Scope, host: Host)
    ensures Eval(Pipe(left, fn, args), scope, host) == Eval(Call(fn, [left] + args), scope, host)
  {
    assert EvalAll([left] + args, scope, host) == [Eval(left, scope, host)] + EvalAll(args, scope, host);
  }

  lemma {:induction false} WalkOn(v: Value, path: seq<string>, name: string, host: Host)
    ensures Walk(v, path + [name], host) == Walk(Walk(v, path, host), [name], host)
    decreases |path|
  {
    if path == [] {
      assert path + [name] == [name];
    } else {
      assert (path + [name])[1..] == path[1..] + [name];
      if v != Undefined && v != Null && OwnField(v, path[0], host).Some? {
        WalkOn(OwnField(v, path[0], host).value, path[1..], name, host);
      }
    }
  }

  /** A name is read in the scope. */
  lemma NameIsRead(name: string, scope: Scope, host: Host)
    ensures Eval(Path([name]), scope, host) == if name in scope then scope[name] else Undefined
  {
    var path, own := [name], OwnField(Obj(scope), name, host);
    assert path[0] == name && path[1..] == [];
    assert own.Some? ==> Walk(own.value, path[1..], host) == own.value;
  }

  /** Behind a dot, an own field of what is in front of it is read; where there is none, the path is
      undefined, and so is every longer one. */
  lemma FieldIsRead(path: seq<string>, name: string, scope: Scope, host: Host)
    requires path != []
    ensures
      var v, w := Eval(Path(path), scope, host), Eval(Path(path + [name]), scope, host);
      && (v == Undefined || v == Null ==> w == Undefined)
      && (v.Obj? ==> w == if name in v.fields then v.fields[name] else Undefined)
  {
    WalkOn(Obj(scope), path, name, host);
    assert [name][1..] == [];
  }

  // ----- HTML -----

  function Replace(s: string, c: char, into: string): string {
    if s == "" then "" else (if s[0] == c then into else [s[0]]) + Replace(s[1..], c, into)
  }

  /** One replacement after the other, in all of the text. */
  function ReplaceAll(s: string, table: seq<(char, string)>): string
    decreases |table|
  {
    if table == [] then s else ReplaceAll(Replace(s, table[0].0, table[0].1), table[1..])
  }

  const HTML := [('&', "&amp;"), ('<', "&lt;"), ('>', "&gt;"), ('"', "&quot;"), ('\'', "&#39;")]

  /** `ga`: the ampersand first. */
  function EscapeHtml(s: string): string {
    ReplaceAll(s, HTML)
  }

  /** What stands for a character in HTML. */
  function Entity(c: char): string {
    match c
    case '&' => "&amp;"
    case '<' => "&lt;"
    case '>' => "&gt;"
    case '"' => "&quot;"
    case '\'' => "&#39;"
    case _ => [c]
  }

  function Entities(s: string): string {
    if s == "" then "" else Entity(s[0]) + Entities(s[1..])
  }

  /** Reading HTML text: every entity is its character again. */
  function ReadHtml(h: string): string {
    if h == "" then ""
    else if "&amp;" <= h then "&" + ReadHtml(h[5..])
    else if "&lt;" <= h then "<" + ReadHtml(h[4..])
    else if "&gt;" <= h then ">" + ReadHtml(h[4..])
    else if "&quot;" <= h then "\"" + ReadHtml(h[6..])
    else if "&#39;" <= h then "'" + ReadHtml(h[5..])
    else [h[0]] + ReadHtml(h[1..])
  }

  lemma {:induction false} ReplaceConcat(a: string, b: string, c: char, into: string)
    ensures Replace(a + b, c, into) == Replace(a, c, into) + Replace(b, c, into)
    decreases |a|
  {
    if a == "" {
      assert a + b == b;
    } else {
      ReplaceConcat(a[1..], b, c, into);
      assert (a + b)[1..] == a[1..] + b;
    }
  }

  lemma {:induction false} ReplaceNone(s: string, c: char, into: string)
    requires c !in s
    ensures Replace(s, c, into) == s
    decreases |s|
  {
    if s != "" { ReplaceNone(s[1..], c, into); }
  }

  lemma {:induction false} ReplaceAllConcat(a: string, b: string, table: seq<(char, string)>)
    ensures ReplaceAll(a + b, table) == ReplaceAll(a, table) + ReplaceAll(b, table)
    decreases |table|
  {
    if table != [] {
      var (c, into) := table[0];
      ReplaceConcat(a, b, c, into);
      ReplaceAllConcat(Replace(a, c, into), Replace(b, c, into), table[1..]);
    }
  }

  lemma {:induction false} ReplaceAllNone(s: string, table: seq<(char, string)>)
    requires forall i | 0 <= i < |table| :: table[i].0 !in s
    ensures ReplaceAll(s, table) == s
    decreases |table|
  {
    if table != [] {
      ReplaceNone(s, table[0].0, table[0].1);
      ReplaceAllNone(s, table[1..]);
    }
  }

  /** What the first entry for the character makes of it. */
  function First(c: char, table: seq<(char, string)>): string
    decreases |table|
  {
    if table == [] then [c] else if table[0].0 == c then table[0].1 else First(c, table[1..])
  }

  /** No entry puts in what a later one replaces. */
  ghost predicate InOrder(table: seq<(char, string)>) {
    forall i, j | 0 <= i < j < |table| :: table[j].0 !in table[i].1
  }

  lemma {:induction false} ReplaceAllOne(s: string, c: char, table: seq<(char, string)>)
    requires s == [c] && InOrder(table)
    ensures ReplaceAll(s, table) == First(c, table)
    decreases |table|
  {
    if table != [] {
      var (d, into) := table[0];
      assert s[1..] == "" && Replace(s, d, into) == if c == d then into else s;
      if c == d {
        ReplaceAllNone(into, table[1..]);
      } else {
        ReplaceAllOne(s, c, table[1..]);
      }
    }
  }

  lemma EscapeOne(c: char)
    ensures EscapeHtml([c]) == Entity(c)
  {
    ReplaceAllOne([c], c, HTML);
    assert HTML[1..][1..][1..][1..][1..] == [];
  }

  /** The replacements do not meddle with each other: each character becomes its entity. */
  lemma {:induction false} EscapeIsEntities(s: string)
    ensures EscapeHtml(s) == Entities(s)
    decreases |s|
  {
    if s == "" {
      ReplaceAllNone(s, HTML);
    } else {
      EscapeIsEntities(s[1..]);
      EscapeOne(s[0]);
      ReplaceAllConcat([s[0]], s[1..], HTML);
      assert s == [s[0]] + s[1..];
    }
  }

  /** Nothing that is inserted reads as markup, and it reads as what it was. */
  lemma {:induction false} EscapedReadsBack(s: string)
    ensures ReadHtml(EscapeHtml(s)) == s
    ensures forall c | c in EscapeHtml(s) :: c != '<' && c != '>' && c != '"' && c != '\''
    decreases |s|
  {
    EscapeIsEntities(s);
    if s != "" {
      EscapedReadsBack(s[1..]);
      EscapeIsEntities(s[1..]);
      EntityReads(s[0], Entities(s[1..]));
      assert s == [s[0]] + s[1..];
    }
  }

  lemma EntityReads(c: char, rest: string)
    ensures ReadHtml(Entity(c) + rest) == [c] + ReadHtml(rest)
    ensures forall d | d in Entity(c) :: d != '<' && d != '>' && d != '"' && d != '\''
  {
    var h := Entity(c) + rest;
    assert h[|Entity(c)|..] == rest;
    if |Entity(c)| == 1 {
      assert h[0] == c;
    } else {
      assert Entity(c) <= h;
      assert h[1] == Entity(c)[1] && h[2] == Entity(c)[2];
    }
  }

  // ----- rendering -----

  function Inserted(v: Value, raw: bool, host: Host): string {
    if v.Arr? then "[Error: use #each for arrays]"
    else if v.Obj? then "[Error: cannot render object]"
    else
      var text := if v == Undefined || v == Null then "" else host.show(v);
      if raw then text else EscapeHtml(text)
  }

  /** The scope of one round of a loop. */
  function Bind(scope: Scope, item: string, index: Option<string>, v: Value, i: nat): Scope {
    var inner := scope[item := v];
    if index.Some? && index.value != "" then inner[index.value := Num(i as real)] else inner
  }

  function Rendered(nodes: seq<Node>, scope: Scope, host: Host): string
    decreases nodes, 0
  {
    if nodes == [] then ""
    else Rendered(nodes[..|nodes| - 1], scope, host) + RenderedNode(nodes[|nodes| - 1], scope, host)
  }

  function RenderedNode(n: Node, scope: Scope, host: Host): string
    decreases n
  {
    match n
    case Text(text) => text
    case Insert(x, raw) => Inserted(Eval(x, scope, host), raw, host)
    case If(branches, otherwise) =>
      if exists b | b in branches :: Truthy(Eval(b.cond, scope, host)) then RenderedBranches(branches, scope, host)
      else Rendered(otherwise, scope, host)
    case Each(list, item, index, body, otherwise) =>
      var v := Eval(list, scope, host);
      if !v.Arr? then "[Error: #each needs array]"
      else if v.items == [] then Rendered(otherwise, scope, host)
      else RenderedItems(body, item, index, v.items, |v.items|, scope, host)
  }

  /** The first branch whose condition holds. */
  function RenderedBranches(branches: seq<Branch>, scope: Scope, host: Host): string
    decreases branches
  {
    if branches == [] then ""
    else if Truthy(Eval(branches[0].cond, scope, host)) then Rendered(branches[0].body, scope, host)
    else RenderedBranches(branches[1..], scope, host)
  }

  /** The body once for each of the first `n` items. */
  function RenderedItems(body: seq<Node>, item: string, index: Option<string>, items: seq<Value>, n: nat,
                         scope: Scope, host: Host): string
    requires n <= |items|
    decreases body, n + 1
  {
    if n == 0 then ""
    else RenderedItems(body, item, index, items, n - 1, scope, host)
         + Rendered(body, Bind(scope, item, index, items[n - 1], n - 1), host)
  }

  /** `ve`. */
  method Render(nodes: seq<Node>, scope: Scope, host: Host) returns (out: string)
    ensures out == Rendered(nodes, scope, host)
    decreases nodes
  {
    out := "";
    for k := 0 to |nodes|
      invariant out == Rendered(nodes[..k], scope, host)
    {
      var n := nodes[k];
      var more := RenderNode(n, scope, host);
      out := out + more;
      assert nodes[..k + 1][..k] == nodes[..k];
    }
    assert nodes[..|nodes|] == nodes;
  }

  method RenderNode(n: Node, scope: Scope, host: Host) returns (out: string)
    ensures out == RenderedNode(n, scope, host)
    decreases n
  {
    match n
    case Text(text) => out := text;
    case Insert(x, raw) => out := Inserted(Eval(x, scope, host), raw, host);
    case If(branches, otherwise) =>
      for k := 0 to |branches|
        invariant RenderedBranches(branches[k..], scope, host) == RenderedBranches(branches, scope, host)
        invariant forall i | 0 <= i < k :: !Truthy(Eval(branches[i].cond, scope, host))
      {
        if Truthy(Eval(branches[k].cond, scope, host)) {
          assert branches[k] in branches && branches[k..][0] == branches[k];
          out := Render(branches[k].body, scope, host);
          return;
        }
        assert branches[k..][1..] == branches[k + 1..];
      }
      out := Render(otherwise, scope, host);
    case Each(list, item, index, body, otherwise) =>
      var v := Eval(list, scope, host);
      if !v.Arr? { return "[Error: #each needs array]"; }
      if v.items == [] {
        out := Render(otherwise, scope, host);
        return;
      }
      out := "";
      for i := 0 to |v.items|
        invariant out == RenderedItems(body, item, index, v.items, i, scope, host)
      {
        var more := Render(body, Bind(scope, item, index, v.items[i], i), host);
        out := out + more;
      }
  }

  // ----- what rendering means -----

  lemma OneRenders(n: Node, scope: Scope, host: Host)
    ensures Rendered([n], scope, host) == RenderedNode(n, scope, host)
  {
    assert [n][..0] == [];
  }

  ghost predicate Plainly(out: string) {
    '<' !in out && '>' !in out && '"' !in out && '\'' !in out
  }

  /** What is inserted cannot be markup, and reads as the value's text. */
  lemma InsertionIsEscaped(x: Expr, scope: Scope, host: Host)
    ensures
      var v, out := Eval(x, scope, host), Rendered([Insert(x, false)], scope, host);
      && Plainly(out)
      && (v.Arr? ==> out == "[Error: use #each for arrays]") && (v.Obj? ==> out == "[Error: cannot render object]")
      && (!v.Arr? && !v.Obj? ==> ReadHtml(out) == if v == Undefined || v == Null then "" else host.show(v))
  {
    OneRenders(Insert(x, false), scope, host);
    InsertedReads(Eval(x, scope, host), host);
  }

  lemma ArrayErrorIsPlain()
    ensures Plainly("[Error: use #each for arrays]")
  {
  }

  lemma ObjectErrorIsPlain()
    ensures Plainly("[Error: cannot render object]")
  {
  }

  lemma InsertedReads(v: Value, host: Host)
    ensures Plainly(Inserted(v, false, host))
    ensures !v.Arr? && !v.Obj? ==> ReadHtml(Inserted(v, false, host)) == if v == Undefined || v == Null then "" else host.show(v)
  {
    if v.Arr? {
      ArrayErrorIsPlain();
    } else if v.Obj? {
      ObjectErrorIsPlain();
    } else {
      EscapedReadsBack("");
      EscapedReadsBack(host.show(v));
    }
  }

  /** What is asked for raw is inserted as it is. */
  lemma RawIsAsItIs(x: Expr, scope: Scope, host: Host)
    ensures
      var v, out := Eval(x, scope, host), Rendered([Insert(x, true)], scope, host);
      && (v == Undefined || v == Null ==> out == "")
      && (v.Arr? ==> out == "[Error: use #each for arrays]") && (v.Obj? ==> out == "[Error: cannot render object]")
      && (v != Undefined && v != Null && !v.Arr? && !v.Obj? ==> out == host.show(v))
  {
    OneRenders(Insert(x, true), scope, host);
  }

  /** Of an `if`, the body of the first branch is rendered whose condition counts as true. */
  lemma {:induction false} FirstBranchRenders(branches: seq<Branch>, otherwise: seq<Node>, k: nat, scope: Scope, host: Host)
    requires k < |branches| && Truthy(Eval(branches[k].cond, scope, host))
    requires forall i | 0 <= i < k :: !Truthy(Eval(branches[i].cond, scope, host))
    ensures RenderedNode(If(branches, otherwise), scope, host) == Rendered(branches[k].body, scope, host)
    decreases k
  {
    if k > 0 {
      assert branches[1..][k - 1] == branches[k];
      FirstBranchRenders(branches[1..], otherwise, k - 1, scope, host);
      assert branches[k] in branches && branches[k] in branches[1..];
    }
  }

  /** When there is no such branch, it is what stands behind `else`. */
  lemma NoBranchRenders(branches: seq<Branch>, otherwise: seq<Node>, scope: Scope, host: Host)
    requires forall i | 0 <= i < |branches| :: !Truthy(Eval(branches[i].cond, scope, host))
    ensures RenderedNode(If(branches, otherwise), scope, host) == Rendered(otherwise, scope, host)
  {
    assert forall b | b in branches :: !Truthy(Eval(b.cond, scope, host));
  }

  function Joined(texts: seq<string>): string {
    if texts == [] then "" else Joined(texts[..|texts| - 1]) + texts[|texts| - 1]
  }

  /** The scope in which the body is rendered for item `i`: the item and its number are bound, the
      number last, and everything else is as outside. */
  ghost predicate BoundTo(inner: Scope, scope: Scope, item: string, index: Option<string>, v: Value, i: nat) {
    var numbered := index.Some? && index.value != "";
    && inner.Keys == scope.Keys + {item} + (if numbered then {index.value} else {})
    && (numbered ==> inner[index.value] == Num(i as real))
    && (!(numbered && index.value == item) ==> inner[item] == v)
    && forall name | name in scope && name != item && !(numbered && name == index.value) :: inner[name] == scope[name]
  }

  /** An `each` renders its body once for every item, in their order. */
  lemma EachRenders(n: Node, items: seq<Value>, scope: Scope, host: Host) returns (scopes: seq<Scope>)
    requires n.Each? && Eval(n.list, scope, host) == Arr(items)
    ensures |scopes| == |items|
    ensures forall i | 0 <= i < |items| :: BoundTo(scopes[i], scope, n.item, n.index, items[i], i)
    ensures RenderedNode(n, scope, host) ==
      if items == [] then Rendered(n.otherwise, scope, host)
      else Joined(seq(|items|, i requires 0 <= i < |items| => Rendered(n.body, scopes[i], host)))
  {
    scopes := seq(|items|, i requires 0 <= i < |items| => Bind(scope, n.item, n.index, items[i], i));
    ItemsAreJoined(n.body, n.item, n.index, items, |items|, scope, host, scopes);
  }

  lemma {:induction false} ItemsAreJoined(body: seq<Node>, item: string, index: Option<string>, items: seq<Value>, n: nat,
                                          scope: Scope, host: Host, scopes: seq<Scope>)
    requires n <= |items| == |scopes| && forall i | 0 <= i < |items| :: scopes[i] == Bind(scope, item, index, items[i], i)
    ensures RenderedItems(body, item, index, items, n, scope, host)
         == Joined(seq(n, i requires 0 <= i < n => Rendered(body, scopes[i], host)))
    decreases n
  {
    if n > 0 {
      ItemsAreJoined(body, item, index, items, n - 1, scope, host, scopes);
      var all := seq(n, i requires 0 <= i < n => Rendered(body, scopes[i], host));
      assert all[..n - 1] == seq(n - 1, i requires 0 <= i < n - 1 => Rendered(body, scopes[i], host));
    }
  }

  /** What is no array is not gone through. */
  lemma EachNeedsArray(n: Node, scope: Scope, host: Host)
    requires n.Each? && !Eval(n.list, scope, host).Arr?
    ensures RenderedNode(n, scope, host) == "[Error: #each needs array]"
  {
  }

  lemma {:induction false} ConcatRenders(a: seq<Node>, b: seq<Node>, scope: Scope, host: Host)
    ensures Rendered(a + b, scope, host) == Rendered(a, scope, host) + Rendered(b, scope, host)
    decreases |b|
  {
    if b == [] {
      assert a + b == a;
    } else {
      var k := |b| - 1;
      assert (a + b)[..|a| + k] == a + b[..k];
      ConcatRenders(a, b[..k], scope, host);
    }
  }

  // ----- no markup from data -----

  /** No text of the nodes has the character, and nothing is inserted raw. */
  ghost predicate Without(nodes: seq<Node>, c: char)
    decreases nodes
  {
    forall n | n in nodes :: NodeWithout(n, c)
  }

  ghost predicate NodeWithout(n: Node, c: char)
    decreases n
  {
    match n
    case Text(text) => c !in text
    case Insert(_, raw) => !raw
    case If(branches, otherwise) => (forall b | b in branches :: Without(b.body, c)) && Without(otherwise, c)
    case Each(_, _, _, body, otherwise) => Without(body, c) && Without(otherwise, c)
  }

  ghost predicate IsMarkup(c: char) {
    c == '<' || c == '>' || c == '"' || c == '\''
  }

  /** Whatever the data are, a character of markup that a template without raw insertions does not
      write itself is not in what it renders. */
  lemma {:induction false} NoMarkupFromData(nodes: seq<Node>, c: char, scope: Scope, host: Host)
    requires IsMarkup(c) && Without(nodes, c)
    ensures c !in Rendered(nodes, scope, host)
    decreases nodes, 0
  {
    if nodes != [] {
      var k := |nodes| - 1;
      assert nodes[k] in nodes;
      NoMarkupFromData(nodes[..k], c, scope, host);
      NoMarkupFromNode(nodes[k], c, scope, host);
    }
  }

  lemma ErrorHasNoMarkup(c: char)
    requires IsMarkup(c)
    ensures c !in "[Error: #each needs array]"
  {
  }

  lemma {:induction false} NoMarkupFromNode(n: Node, c: char, scope: Scope, host: Host)
    requires IsMarkup(c) && NodeWithout(n, c)
    ensures c !in RenderedNode(n, scope, host)
    decreases n
  {
    match n
    case Text(_) =>
    case Insert(x, _) =>
      InsertionIsEscaped(x, scope, host);
      OneRenders(n, scope, host);
    case If(branches, otherwise) =>
      NoMarkupFromBranches(branches, c, scope, host);
      NoMarkupFromData(otherwise, c, scope, host);
    case Each(list, item, index, body, otherwise) =>
      var v := Eval(list, scope, host);
      ErrorHasNoMarkup(c);
      NoMarkupFromData(otherwise, c, scope, host);
      if v.Arr? { NoMarkupFromItems(body, item, index, v.items, |v.items|, c, scope, host); }
  }

  lemma {:induction false} NoMarkupFromBranches(branches: seq<Branch>, c: char, scope: Scope, host: Host)
    requires IsMarkup(c) && forall b | b in branches :: Without(b.body, c)
    ensures c !in RenderedBranches(branches, scope, host)
    decreases branches
  {
    if branches != [] {
      assert branches[0] in branches;
      NoMarkupFromData(branches[0].body, c, scope, host);
      NoMarkupFromBranches(branches[1..], c, scope, host);
    }
  }

  lemma {:induction false} NoMarkupFromItems(body: seq<Node>, item: string, index: Option<string>, items: seq<Value>, n: nat,
                                             c: char, scope: Scope, host: Host)
    requires n <= |items| && IsMarkup(c) && Without(body, c)
    ensures c !in RenderedItems(body, item, index, items, n, scope, host)
    decreases body, n + 1
  {
    if n > 0 {
      NoMarkupFromItems(body, item, index, items, n - 1, c, scope, host);
      NoMarkupFromData(body, c, Bind(scope, item, index, items[n - 1], n - 1), host);
    }
  }

  lemma {:induction false} FirstRenders(nodes: seq<Node>, scope: Scope, host: Host)
    requires nodes != []
    ensures Rendered(nodes, scope, host) == RenderedNode(nodes[0], scope, host) + Rendered(nodes[1..], scope, host)
    decreases |nodes|
  {
    var k := |nodes| - 1;
    if k > 0 {
      FirstRenders(nodes[..k], scope, host);
      assert nodes[1..][..k - 1] == nodes[..k][1..] && nodes[1..][k - 1] == nodes[k];
    } else {
      assert nodes[..k] == nodes[1..] == [];
    }
  }

  lemma {:induction false} TextRenders(nodes: seq<Node>, scope: Scope, host: Host)
    requires AllText(nodes)
    ensures Rendered(nodes, scope, host) == TextOf(nodes)
    decreases |nodes|
  {
    if nodes != [] {
      FirstRenders(nodes, scope, host);
      TextRenders(nodes[1..], scope, host);
    }
  }

  /** A template is compiled from any way in which it is written, and rendered: that is what the
      template stands for. */
  method RenderWritten(s: string, ghost w: seq<Node>, ghost l: Layout, scope: Scope, host: Host)
    returns (out: string)
    ensures WritableNodes(w, "") && ValidLayout(l) && s == NodesText(w, l, "") ==> out == Rendered(w, scope, host)
  {
    var nodes := Compile(s, w, l);
    out := Render(nodes, scope, host);
  }

  /** With nothing to compile, only the backslashes in front of braces go. */
  method RenderPlain(s: string, scope: Scope, host: Host) returns (out: string)
    ensures Plain(s) ==> out == Unescape(s)
  {
    ghost var l := Layout(_ => "", _ => ' ', _ => '"', _ => ELSE_IF, _ => "", _ => true);
    ghost var w := [];
    if Plain(s) {
      w := PlainNodes(s);
      PlainIsWritten(s, l);
      TextRenders(w, scope, host);
    }
    out := RenderWritten(s, w, l, scope, host);
  }

  /** Any text, written with its opening braces escaped, compiled, and rendered with any data, is
      the text again. */
  method RoundTrip(text: string, scope: Scope, host: Host) returns (out: string)
    ensures out == text
  {
    EscapeIsPlain(text);
    out := RenderPlain(Escape(text), scope, host);
  }
}
