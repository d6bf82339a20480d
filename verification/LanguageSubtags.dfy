/** Language tags as the lists of their subtags, for the grammar of section 2.1 of RFC 5646. */
module LanguageSubtags {
  import opened Basics

  datatype Extension = Extension(singleton: char, parts: seq<string>)

  datatype Tag = Tag(language: Option<string>, extlangs: seq<string>, script: Option<string>, region: Option<string>,
                     variants: seq<string>, extensions: seq<Extension>, privateuse: seq<string>)

  // ----- characters -----

  predicate Alpha(c: char) { 'a' <= c <= 'z' || 'A' <= c <= 'Z' }
  predicate Digit(c: char) { '0' <= c <= '9' }
  predicate Alnum(c: char) { Alpha(c) || Digit(c) }
  predicate IsX(c: char) { c == 'x' || c == 'X' }

  /** The character at `i`; past the end, one that is nothing of the above and no hyphen. */
  function At(t: string, i: nat): char {
    if i < |t| then t[i] else '\0'
  }

  predicate All(s: string, p: char -> bool) {
    forall i | 0 <= i < |s| :: p(s[i])
  }

  // ----- writing a tag -----

  /** Every subtag with a hyphen in front. */
  function Hyphened(subtags: seq<string>): string {
    if subtags == [] then "" else Hyphened(subtags[..|subtags| - 1]) + "-" + subtags[|subtags| - 1]
  }

  function Join(subtags: seq<string>): string {
    if subtags == [] then "" else subtags[0] + Hyphened(subtags[1..])
  }

  function List(o: Option<string>): seq<string> {
    if o.Some? then [o.value] else []
  }

  function ExtensionSubtags(extensions: seq<Extension>): seq<string> {
    if extensions == [] then []
    else
      var last := extensions[|extensions| - 1];
      ExtensionSubtags(extensions[..|extensions| - 1]) + ([[last.singleton]] + last.parts)
  }

  /** Everything between the language and private use. */
  function Rest(tag: Tag): seq<string> {
    tag.extlangs + List(tag.script) + List(tag.region) + tag.variants + ExtensionSubtags(tag.extensions)
  }

  function Introduce(parts: seq<string>, x: char): seq<string> {
    if parts == [] then [] else [[x]] + parts
  }

  /** The subtags in order. Private use is introduced by `x`. */
  function Subtags(tag: Tag, x: char): seq<string> {
    List(tag.language) + (Rest(tag) + Introduce(tag.privateuse, x))
  }

  /** The tag can be written back, the introducer of private use as it was. */
  ghost predicate Writes(tag: Tag, t: string) {
    t == Join(Subtags(tag, 'x')) || t == Join(Subtags(tag, 'X'))
  }

  lemma {:induction false} HyphenedConcat(a: seq<string>, b: seq<string>)
    ensures Hyphened(a + b) == Hyphened(a) + Hyphened(b)
    decreases |b|
  {
    if b == [] {
      assert a + b == a;
    } else {
      var k := |b| - 1;
      assert (a + b)[..|a + b| - 1] == a + b[..k];
      HyphenedConcat(a, b[..k]);
    }
  }

  // ----- splitting an extension -----

  function Split(s: string): (r: seq<string>)
    ensures |r| >= 1
  {
    if s == "" then [""]
    else if s[|s| - 1] == '-' then Split(s[..|s| - 1]) + [""]
    else
      var r := Split(s[..|s| - 1]);
      r[|r| - 1 := r[|r| - 1] + [s[|s| - 1]]]
  }

  ghost predicate NoHyphens(parts: seq<string>) {
    forall i | 0 <= i < |parts| :: '-' !in parts[i]
  }

  /** Splitting undoes joining, for subtags without hyphens. */
  lemma {:induction false} SplitOf(rest: seq<string>, last: string, s: string)
    requires Hyphened(rest) + "-" + last == "-" + s && NoHyphens(rest) && '-' !in last
    ensures Split(s) == rest + [last]
    decreases |s|
  {
    var text, whole := Hyphened(rest), "-" + s;
    if last != "" {
      var front, front', c := last[..|last| - 1], s[..|s| - 1], last[|last| - 1];
      LastCharacter(whole, text + "-", last, "-", s);
      assert forall i | 0 <= i < |front| :: front[i] == last[i];
      SplitOf(rest, front, front');
      SplitLetter(s, front', c, rest, front, last);
    } else if rest != [] {
      var n := |rest| - 1;
      assert whole == text + "-";
      LastCharacter(whole, text, "-", "-", s);
      SplitOf(rest[..n], rest[n], s[..|s| - 1]);
      assert rest == rest[..n] + [rest[n]];
    } else {
      assert s == "";
    }
  }

  lemma SplitLetter(s: string, front: string, c: char, rest: seq<string>, part: string, last: string)
    requires s != "" && front == s[..|s| - 1] && s[|s| - 1] == c != '-' && Split(front) == rest + [part]
    requires last == part + [c]
    ensures Split(s) == rest + [last]
  {
  }

  /** Two ways to put the same text together end alike. */
  lemma LastCharacter(whole: string, a: string, b: string, c: string, d: string)
    requires whole == a + b == c + d && b != "" && |whole| > |c|
    ensures d != "" && b[|b| - 1] == d[|d| - 1]
    ensures a + b[..|b| - 1] == c + d[..|d| - 1]
  {
    assert whole[|whole| - 1] == b[|b| - 1] == d[|d| - 1];
    assert a + b[..|b| - 1] == whole[..|whole| - 1] == c + d[..|d| - 1];
  }

  lemma HyphenedSnoc(done: seq<string>, s: string, more: seq<string>)
    requires more == done + [s]
    ensures Hyphened(more) == Hyphened(done) + "-" + s
  {
    assert more[..|done|] == done;
  }

  lemma SplitOfAll(parts: seq<string>, text: string)
    requires parts != [] && Hyphened(parts) == "-" + text && NoHyphens(parts)
    ensures Split(text) == parts
  {
    var n := |parts| - 1;
    var rest := parts[..n];
    SplitOf(rest, parts[n], text);
    assert parts == rest + [parts[n]];
  }

  lemma JoinFirst(s: string, rest: seq<string>, all: seq<string>)
    requires all == [s] + rest
    ensures Join(all) == s + Hyphened(rest)
  {
    assert all[1..] == rest;
  }

  // ----- the grammar -----

  ghost predicate Extlang(s: string) { |s| == 3 && All(s, Alpha) }
  ghost predicate Script(s: string) { |s| == 4 && All(s, Alpha) }
  ghost predicate Region(s: string) { (|s| == 2 && All(s, Alpha)) || (|s| == 3 && All(s, Digit)) }
  ghost predicate Variant(s: string) { All(s, Alnum) && (5 <= |s| <= 8 || (|s| == 4 && Digit(s[0]))) }

  ghost predicate Clean(subtags: seq<string>) {
    forall k | 0 <= k < |subtags| :: 1 <= |subtags[k]| <= 8 && All(subtags[k], Alnum)
  }

  ghost predicate ProperExtension(e: Extension) {
    Alnum(e.singleton) && !IsX(e.singleton) && e.parts != []
    && forall i | 0 <= i < |e.parts| :: 2 <= |e.parts[i]| <= 8 && All(e.parts[i], Alnum)
  }

  /** The shape of the subtags, as the grammar has it. */
  ghost predicate WellFormed(tag: Tag) {
    && (tag.language.Some? ==> 2 <= |tag.language.value| <= 8 && All(tag.language.value, Alpha))
    && (tag.extlangs != [] ==> tag.language.Some? && |tag.language.value| <= 3)
    && |tag.extlangs| <= 3 && (forall k | 0 <= k < |tag.extlangs| :: Extlang(tag.extlangs[k]))
    && (tag.script.Some? ==> Script(tag.script.value))
    && (tag.region.Some? ==> Region(tag.region.value))
    && (forall k | 0 <= k < |tag.variants| :: Variant(tag.variants[k]))
    && (forall k | 0 <= k < |tag.extensions| :: ProperExtension(tag.extensions[k]))
    && Clean(tag.privateuse)
    && (tag.language.None? ==>
          tag.script.None? && tag.region.None? && tag.variants == [] && tag.extensions == [])
  }

  /** The tag ends with the introducer of private use. */
  predicate EndsWithX(t: string) {
    t != "" && IsX(t[|t| - 1]) && (|t| == 1 || t[|t| - 2] == '-')
  }

  // ----- what the scanner looks for -----

  predicate ExtlangAt(t: string, i: nat) {
    At(t, i) == '-' && Alpha(At(t, i + 1)) && Alpha(At(t, i + 2)) && Alpha(At(t, i + 3)) && !Alpha(At(t, i + 4))
  }

  predicate ScriptAt(t: string, i: nat) {
    At(t, i) == '-' && Alpha(At(t, i + 1)) && Alpha(At(t, i + 2)) && Alpha(At(t, i + 3)) && Alpha(At(t, i + 4))
    && !Alpha(At(t, i + 5))
  }

  predicate LettersAt(t: string, i: nat) {
    At(t, i) == '-' && Alpha(At(t, i + 1)) && Alpha(At(t, i + 2)) && !Alpha(At(t, i + 3))
  }

  predicate DigitsAt(t: string, i: nat) {
    At(t, i) == '-' && Digit(At(t, i + 1)) && Digit(At(t, i + 2)) && Digit(At(t, i + 3)) && !Digit(At(t, i + 4))
  }

  predicate PartAt(t: string, i: nat) {
    At(t, i) == '-' && Alnum(At(t, i + 1)) && Alnum(At(t, i + 2))
  }

  predicate ExtensionAt(t: string, i: nat) {
    At(t, i) == '-' && !IsX(At(t, i + 1)) && Alnum(At(t, i + 1)) && At(t, i + 2) == '-' && Alnum(At(t, i + 3))
  }

  /** The next subtag has at least `n` characters. */
  ghost predicate LongAt(t: string, i: nat, n: nat) {
    At(t, i) == '-' && forall p: nat | i < p <= i + n :: Alnum(At(t, p))
  }

  ghost predicate VariantAt(t: string, i: nat) {
    LongAt(t, i, 5) || (LongAt(t, i, 4) && Digit(At(t, i + 1)))
  }
}
