/** Two templates spelled out. They tie the way in which templates are written, which the compiler and
    its round trip share, to the templates that the search UI is given. */
module TemplateExamples {
  import opened Basics
  import opened TemplateText
  import opened TemplateParser

  /** The writer leaves no blanks where none are needed, except in front of a "c". */
  ghost predicate Tight(l: Layout) {
    && (forall u :: l.gap(u) == if StartsWith(u, 'c') then " " else "")
    && (forall u :: l.space(u) == ' ' && l.quote(u) == '"' && l.plus(u) == "" && l.bare(u))
    && (forall u :: l.elseIf(u) == ELSE_IF)
  }

  lemma NoGap(l: Layout, u: string)
    requires Tight(l) && !StartsWith(u, 'c')
    ensures Gap(l, u) == u && Apart(l, u) == " " + u
  {
    assert "" + u == u;
  }

  lemma TextWritten(t: string, l: Layout, rest: string)
    requires t != OPENING
    ensures NodesText([Text(t)], l, rest) == t + rest
  {
    assert [Text(t)][1..] == [];
  }

  lemma OneWritten(n: Node, l: Layout, rest: string)
    ensures NodesText([n], l, rest) == NodeText(n, l, rest)
  {
    assert [n][1..] == [];
  }

  lemma NameWritten(name: string, l: Layout, rest: string)
    requires Tight(l) && !StartsWith(rest, 'c')
    ensures ExprText(Path([name]), l, rest) == name + rest
  {
    NoGap(l, rest);
    assert [name][1..] == [];
  }

  // ----- conditions -----

  function Conditional(): Node {
    If([Branch(Path(["a", "b"]), [Text("x")]), Branch(Path(["c"]), [Insert(Path(["d"]), true)])], [Text("z")])
  }

  lemma DottedWritten(l: Layout, rest: string)
    requires Tight(l) && !StartsWith(rest, 'c')
    ensures ExprText(Path(["a", "b"]), l, rest) == "a" + ("." + ("b" + rest))
  {
    NoGap(l, rest);
    assert ["a", "b"][1..] == ["b"] && ["b"][1..] == [];
    assert DottedText(["b"], rest) == "." + ("b" + rest);
    NoGap(l, "." + ("b" + rest));
  }

  lemma RawWritten(l: Layout, rest: string)
    requires Tight(l)
    ensures NodesText([Insert(Path(["d"]), true)], l, rest) == "{{" + ("+" + ("d" + ("}}" + rest)))
  {
    var n := Insert(Path(["d"]), true);
    OneWritten(n, l, rest);
    NoGap(l, CLOSING + rest);
    assert PlusText(l, CLOSING + rest) == CLOSING + rest;
    NameWritten("d", l, CLOSING + rest);
    NoGap(l, "d" + (CLOSING + rest));
    NoGap(l, "+" + ("d" + (CLOSING + rest)));
  }

  lemma FurtherWritten(b: Branch, l: Layout, last: string, raw: string)
    requires Tight(l) && b == Branch(Path(["c"]), [Insert(Path(["d"]), true)])
    requires raw == "{{" + ("+" + ("d" + ("}}" + last)))
    ensures FurtherText([b], l, last) == "{{:else if" + (" " + ("c" + ("}}" + raw)))
  {
    RawWritten(l, last);
    NameWritten("c", l, CLOSING + raw);
    assert [b][1..] == [];
    assert BranchesText([b], l, last) == "c" + (CLOSING + raw);
  }

  lemma HeadWritten(n: Node, l: Layout, branches: string, last: string)
    requires Tight(l) && n.If? && last == ElseText(n.otherwise, l, END_IF, "") && branches == BranchesText(n.branches, l, last)
    requires !StartsWith(branches, 'c')
    ensures NodeText(n, l, "") == "{{" + ("#" + ("if" + (" " + branches)))
  {
    NoGap(l, branches);
    NoGap(l, "#" + ("if" + (" " + branches)));
  }

  lemma FirstWritten(a: Branch, b: Branch, l: Layout, last: string, further: string)
    requires Tight(l) && a == Branch(Path(["a", "b"]), [Text("x")]) && further == FurtherText([b], l, last)
    ensures BranchesText([a, b], l, last) == "a" + ("." + ("b" + ("}}" + ("x" + further))))
  {
    assert [a, b][1..] == [b];
    TextWritten("x", l, further);
    DottedWritten(l, CLOSING + ("x" + further));
  }

  lemma LastWritten(l: Layout)
    ensures ElseText([Text("z")], l, END_IF, "") == "{{:else}}z{{/if}}"
  {
    TextWritten("z", l, END_IF + "");
  }

  /** `{{#if a.b}}x{{:else if c}}{{+d}}{{:else}}z{{/if}}` */
  lemma ConditionalIsWritten(l: Layout)
    requires Tight(l)
    ensures NodesText([Conditional()], l, "") ==
      "{{" + ("#" + ("if" + (" " + ("a" + ("." + ("b" + ("}}" + ("x"
      + ("{{:else if" + (" " + ("c" + ("}}" + ("{{" + ("+" + ("d" + ("}}" + "{{:else}}z{{/if}}"))))))))))))))))
  {
    var n, last := Conditional(), "{{:else}}z{{/if}}";
    OneWritten(n, l, "");
    LastWritten(l);
    var raw := "{{" + ("+" + ("d" + ("}}" + last)));
    var further := "{{:else if" + (" " + ("c" + ("}}" + raw)));
    FurtherWritten(n.branches[1], l, last, raw);
    FirstWritten(n.branches[0], n.branches[1], l, last, further);
    HeadWritten(n, l, "a" + ("." + ("b" + ("}}" + ("x" + further)))), last);
  }

  // ----- loops -----

  /** A string with a quotation mark, a backslash and a line end in it. */
  function Quoted(): Expr {
    Lit(Word("q\"\\\n"))
  }

  function Loop(): Node {
    Each(Path(["xs"]), "x", Some("i"), [Insert(Pipe(Path(["x"]), "f", [Quoted(), Lit(Number("-1.5"))]), false), Text(OPENING)],
         [Insert(Call("g", [Lit(Truth(true)), Lit(Nothing)]), false)])
  }

  lemma StringWritten(l: Layout, rest: string)
    requires Tight(l) && !StartsWith(rest, 'c')
    ensures ExprText(Quoted(), l, rest) == "\"" + ("q" + ("\\\"" + ("\\\\" + ("\\n" + ("\"" + rest)))))
  {
    NoGap(l, rest);
    var t := "q\"\\\n";
    assert t[1..] == "\"\\\n" && t[1..][1..] == "\\\n" && t[1..][1..][1..] == "\n" && t[1..][1..][1..][1..] == "";
    var end := ['"'] + rest;
    assert StringText("\n", '"', rest) == "\\n" + end;
    assert StringText("\\\n", '"', rest) == "\\\\" + ("\\n" + end);
    assert StringText("\"\\\n", '"', rest) == "\\\"" + ("\\\\" + ("\\n" + end));
    assert StringText(t, '"', rest) == "q" + ("\\\"" + ("\\\\" + ("\\n" + end)));
  }

  lemma NumberWritten(l: Layout, rest: string)
    requires Tight(l) && !StartsWith(rest, 'c')
    ensures ExprText(Lit(Number("-1.5")), l, rest) == "-1.5" + rest
  {
    NoGap(l, rest);
  }

  lemma TwoArguments(a: Expr, b: Expr, l: Layout, rest: string, second: string, both: string)
    requires Tight(l) && second == ExprText(b, l, ")" + rest) && !StartsWith(second, 'c')
    requires both == ExprText(a, l, "," + second) && !StartsWith(both, 'c')
    ensures ArgumentsText([a, b], l, rest) == both
  {
    assert [a, b][1..] == [b] && [b][1..] == [];
    assert ListText([b], l, ")" + rest) == second;
    NoGap(l, second);
    assert AfterFirst([a, b], l, ")" + rest) == "," + second;
    NoGap(l, both);
  }

  lemma PipeWritten(a: Expr, b: Expr, l: Layout, rest: string, second: string, both: string)
    requires Tight(l) && !StartsWith(rest, 'c') && second == ExprText(b, l, ")" + rest) && !StartsWith(second, 'c')
    requires both == ExprText(a, l, "," + second) && !StartsWith(both, 'c')
    ensures ExprText(Pipe(Path(["x"]), "f", [a, b]), l, rest) == "x" + ("|" + ("f" + ("(" + both)))
  {
    NoGap(l, rest);
    TwoArguments(a, b, l, rest, second, both);
    NoGap(l, "(" + both);
    NoGap(l, "f" + ("(" + both));
    NameWritten("x", l, "|" + ("f" + ("(" + both)));
  }

  lemma FilterWritten(l: Layout, rest: string) returns (text: string)
    requires Tight(l) && !StartsWith(rest, 'c')
    ensures text == "x" + ("|" + ("f" + ("(" + ("\"" + ("q" + ("\\\"" + ("\\\\" + ("\\n" + ("\"" + ("," + ("-1.5" + (")" + rest))))))))))))
    ensures ExprText(Pipe(Path(["x"]), "f", [Quoted(), Lit(Number("-1.5"))]), l, rest) == text
  {
    var second := "-1.5" + (")" + rest);
    var both := "\"" + ("q" + ("\\\"" + ("\\\\" + ("\\n" + ("\"" + ("," + second))))));
    NumberWritten(l, ")" + rest);
    StringWritten(l, "," + second);
    PipeWritten(Quoted(), Lit(Number("-1.5")), l, rest, second, both);
    text := "x" + ("|" + ("f" + ("(" + both)));
  }

  lemma CallWritten(l: Layout, rest: string)
    requires Tight(l) && !StartsWith(rest, 'c')
    ensures ExprText(Call("g", [Lit(Truth(true)), Lit(Nothing)]), l, rest) ==
      "g" + ("(" + ("true" + ("," + ("null" + (")" + rest)))))
  {
    var a, b := Lit(Truth(true)), Lit(Nothing);
    var second := "null" + (")" + rest);
    var both := "true" + ("," + second);
    NoGap(l, ")" + rest);
    NoGap(l, "," + second);
    TwoArguments(a, b, l, rest, second, both);
    NoGap(l, rest);
    NoGap(l, "(" + both);
  }

  lemma InsertWritten(x: Expr, l: Layout, rest: string, text: string)
    requires Tight(l) && text == ExprText(x, l, CLOSING + rest) && !StartsWith(text, 'c')
    ensures NodesText([Insert(x, false)], l, rest) == "{{" + text
  {
    OneWritten(Insert(x, false), l, rest);
    NoGap(l, text);
  }

  lemma OtherwiseWritten(l: Layout, x: Expr)
    requires Tight(l) && x == Call("g", [Lit(Truth(true)), Lit(Nothing)])
    ensures ElseText([Insert(x, false)], l, END_EACH, "") ==
      "{{:else}}" + ("{{" + ("g" + ("(" + ("true" + ("," + ("null" + (")" + ("}}" + "{{/each}}"))))))))
  {
    var end := "{{/each}}";
    assert END_EACH + "" == end;
    CallWritten(l, CLOSING + end);
    InsertWritten(x, l, end, "g" + ("(" + ("true" + ("," + ("null" + (")" + ("}}" + end)))))));
  }

  lemma BodyWritten(l: Layout, last: string, x: Expr) returns (inside: string)
    requires Tight(l) && x == Pipe(Path(["x"]), "f", [Quoted(), Lit(Number("-1.5"))])
    ensures inside == "{{" + ("x" + ("|" + ("f" + ("(" + ("\"" + ("q" + ("\\\"" + ("\\\\" + ("\\n" + ("\"" + ("," + ("-1.5" + (")"
      + ("}}" + ("\\{{" + last)))))))))))))))
    ensures NodesText([Insert(x, false), Text(OPENING)], l, last) == inside
  {
    var braces := "\\{{" + last;
    OneWritten(Text(OPENING), l, last);
    var text := FilterWritten(l, CLOSING + braces);
    InsertWritten(x, l, braces, text);
    inside := "{{" + text;
    FirstThenRest(Insert(x, false), Text(OPENING), l, last, braces);
  }

  lemma FirstThenRest(a: Node, b: Node, l: Layout, rest: string, second: string)
    requires second == NodesText([b], l, rest)
    ensures NodesText([a, b], l, rest) == NodesText([a], l, second)
  {
    assert [a, b][1..] == [b] && [a][1..] == [];
  }

  /** `{{#each xs as x,i}}`, and what is inside. */
  lemma LoopHeadWritten(n: Node, l: Layout, last: string, inside: string)
    requires Tight(l) && n.Each? && n.list == Path(["xs"]) && n.item == "x" && n.index == Some("i")
    requires last == ElseText(n.otherwise, l, END_EACH, "") && NodesText(n.body, l, last) == inside
    ensures NodesText([n], l, "") ==
      "{{" + ("#" + ("each" + (" " + ("xs" + (" " + ("as" + (" " + ("x" + ("," + ("i" + ("}}" + inside)))))))))))
  {
    OneWritten(n, l, "");
    NoGap(l, CLOSING + inside);
    NoGap(l, "i" + (CLOSING + inside));
    var index := "," + ("i" + (CLOSING + inside));
    NoGap(l, index);
    NoGap(l, "x" + index);
    var loop := "as" + (" " + ("x" + index));
    NoGap(l, loop);
    NameWritten("xs", l, " " + loop);
    NoGap(l, "xs" + (" " + loop));
    NoGap(l, "#" + ("each" + (" " + ("xs" + (" " + loop)))));
  }

  /** `{{#each xs as x,i}}{{x|f("q\"\\\n",-1.5)}}\{{{{:else}}{{g(true,null)}}{{/each}}` */
  lemma LoopIsWritten(l: Layout)
    requires Tight(l)
    ensures NodesText([Loop()], l, "") ==
      "{{" + ("#" + ("each" + (" " + ("xs" + (" " + ("as" + (" " + ("x" + ("," + ("i" + ("}}" + ("{{" + ("x" + ("|" + ("f" + ("("
      + ("\"" + ("q" + ("\\\"" + ("\\\\" + ("\\n" + ("\"" + ("," + ("-1.5" + (")" + ("}}" + ("\\{{" + ("{{:else}}" + ("{{" + ("g"
      + ("(" + ("true" + ("," + ("null" + (")" + ("}}" + "{{/each}}"))))))))))))))))))))))))))))))))))))
  {
    var n := Loop();
    OtherwiseWritten(l, n.otherwise[0].expr);
    var last := "{{:else}}" + ("{{" + ("g" + ("(" + ("true" + ("," + ("null" + (")" + ("}}" + "{{/each}}"))))))));
    var inside := BodyWritten(l, last, n.body[0].expr);
    LoopHeadWritten(n, l, last, inside);
  }

  // ----- and compiled -----

  function TightLayout(): (l: Layout)
    ensures Tight(l) && ValidLayout(l)
  {
    Layout(u => if StartsWith(u, 'c') then " " else "", _ => ' ', _ => '"', _ => ELSE_IF, _ => "", _ => true)
  }

  lemma LetterIsWritable(c: char)
    requires WordCharacter(c)
    ensures WritableNodes([Text([c])], OPENING)
  {
    var t, u := [c], [c] + OPENING;
    assert t[0..] + OPENING == u && u[0] == c;
    assert !Breaks(u);
    assert Unbroken(t, OPENING);
    assert [Text(t)][1..] == [];
  }

  lemma ConditionalIsWritable()
    ensures WritableNodes([Conditional()], "")
  {
    LetterIsWritable('x');
    LetterIsWritable('z');
    var n := Conditional();
    assert [n][1..] == [];
    assert n.branches[0].body == [Text("x")] && n.otherwise == [Text("z")];
    assert [n.branches[1].body[0]][1..] == [];
  }

  lemma LoopIsWritable()
    ensures WritableNodes([Loop()], "")
  {
    var n := Loop();
    assert [n][1..] == [] && n.body[1..] == [Text(OPENING)] && n.body[1..][1..] == [] && n.otherwise[1..] == [];
    assert NumberText("-1.5") by { assert "-1.5"[1..] == "1.5" && "1.5"[1..] == ".5" && ".5"[1..] == "5" && "5"[1..] == ""; }
  }

  /** The first of the two templates is compiled. */
  method CompileConditional() returns (nodes: seq<Node>)
    ensures nodes == [Conditional()]
  {
    var s :=
      "{{" + ("#" + ("if" + (" " + ("a" + ("." + ("b" + ("}}" + ("x"
      + ("{{:else if" + (" " + ("c" + ("}}" + ("{{" + ("+" + ("d" + ("}}" + "{{:else}}z{{/if}}"))))))))))))))));
    ConditionalIsWritten(TightLayout());
    ConditionalIsWritable();
    nodes := Compile(s, [Conditional()], TightLayout());
  }

  /** And the second. */
  method CompileLoop() returns (nodes: seq<Node>)
    ensures nodes == [Loop()]
  {
    var s :=
      "{{" + ("#" + ("each" + (" " + ("xs" + (" " + ("as" + (" " + ("x" + ("," + ("i" + ("}}" + ("{{" + ("x" + ("|" + ("f" + ("("
      + ("\"" + ("q" + ("\\\"" + ("\\\\" + ("\\n" + ("\"" + ("," + ("-1.5" + (")" + ("}}" + ("\\{{" + ("{{:else}}" + ("{{" + ("g"
      + ("(" + ("true" + ("," + ("null" + (")" + ("}}" + "{{/each}}"))))))))))))))))))))))))))))))))))));
    LoopIsWritten(TightLayout());
    LoopIsWritable();
    nodes := Compile(s, [Loop()], TightLayout());
  }
}
