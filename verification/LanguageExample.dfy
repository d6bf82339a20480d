/** A language tag spelled out, with a part of every kind. */
module LanguageExample {
  import opened Basics
  import opened LanguageSubtags
  import opened LanguageGrammar
  import opened LanguageTag

  function Example(): Tag {
    Tag(Some("zh"), ["cmn"], Some("Hans"), Some("CN"), ["1996"], [Extension('u', ["co", "phonebk"])], ["y"])
  }

  /** zh-cmn-Hans-CN-1996-u-co-phonebk-x-y */
  const TEXT := "zh" + ("-cmn" + ("-Hans" + ("-CN" + ("-1996" + ("-u" + ("-co" + ("-phonebk" + ("-x" + ("-y" + "")))))))))

  lemma OneMore(s: string, rest: seq<string>, all: seq<string>, piece: string, text: string)
    requires all == [s] + rest && piece == "-" + s && Hyphened(rest) == text
    ensures Hyphened(all) == piece + text
  {
    HyphenedConcat([s], rest);
    assert [s][..0] == [] && Hyphened([s]) == "" + "-" + s == piece;
  }

  lemma ExampleSubtags()
    ensures Subtags(Example(), 'x') == ["zh", "cmn", "Hans", "CN", "1996", "u", "co", "phonebk", "x", "y"]
  {
    var w := Example();
    assert w.extensions[..0] == [] && ExtensionSubtags([]) == [];
    assert ExtensionSubtags(w.extensions) == ["u", "co", "phonebk"];
    assert Rest(w) == ["cmn", "Hans", "CN", "1996", "u", "co", "phonebk"];
  }

  lemma ExampleIsWritten()
    ensures Join(Subtags(Example(), 'x')) == TEXT
  {
    ExampleSubtags();
    var text := LastParts();
    OneMore("1996", ["u", "co", "phonebk", "x", "y"], ["1996", "u", "co", "phonebk", "x", "y"], "-1996", text);
    text := "-1996" + text;
    OneMore("CN", ["1996", "u", "co", "phonebk", "x", "y"], ["CN", "1996", "u", "co", "phonebk", "x", "y"], "-CN", text);
    text := "-CN" + text;
    OneMore("Hans", ["CN", "1996", "u", "co", "phonebk", "x", "y"], ["Hans", "CN", "1996", "u", "co", "phonebk", "x", "y"],
            "-Hans", text);
    text := "-Hans" + text;
    OneMore("cmn", ["Hans", "CN", "1996", "u", "co", "phonebk", "x", "y"],
            ["cmn", "Hans", "CN", "1996", "u", "co", "phonebk", "x", "y"], "-cmn", text);
    JoinFirst("zh", ["cmn", "Hans", "CN", "1996", "u", "co", "phonebk", "x", "y"], Subtags(Example(), 'x'));
  }

  lemma LastParts() returns (text: string)
    ensures text == "-u" + ("-co" + ("-phonebk" + ("-x" + ("-y" + ""))))
    ensures Hyphened(["u", "co", "phonebk", "x", "y"]) == text
  {
    text := "";
    OneMore("y", [], ["y"], "-y", text);
    text := "-y" + text;
    OneMore("x", ["y"], ["x", "y"], "-x", text);
    text := "-x" + text;
    OneMore("phonebk", ["x", "y"], ["phonebk", "x", "y"], "-phonebk", text);
    text := "-phonebk" + text;
    OneMore("co", ["phonebk", "x", "y"], ["co", "phonebk", "x", "y"], "-co", text);
    text := "-co" + text;
    OneMore("u", ["co", "phonebk", "x", "y"], ["u", "co", "phonebk", "x", "y"], "-u", text);
    text := "-u" + text;
  }

  lemma ExampleIsWellFormed()
    ensures WellFormed(Example()) && !Misread(Example())
  {
  }

  /** The example is parsed into its parts. */
  method ParseExample(normalize: bool) returns (r: Result)
    ensures r == Accepted(Example())
  {
    ExampleIsWritten();
    ExampleIsWellFormed();
    r := Parse(TEXT, normalize, Example(), 'x');
  }
}
