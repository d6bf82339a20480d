/** The language tag scanner of the search UI, for the grammar of section 2.1 of RFC 5646: one
    pass over the tag that pushes its subtags into a result. For ASCII tags. */
module LanguageTag {
  import opened Basics
  import opened LanguageSubtags
  import opened LanguageGrammar

  datatype Problem = TooManyExtlangs | TooLongVariant | TooLongExtension | EmptyExtension | TooLongPrivateUse | Superfluous

  /** A listed tag is kept as a whole, as one of the regular or the irregular ones. */
  datatype Result = Accepted(tag: Tag) | Listed(regular: bool, text: string) | Rejected(problem: Problem, at: nat)

  // ----- the table of tags that the grammar does not explain -----

  /** A listed tag, and the tag to be used in its place, if there is one. */
  datatype Entry = Entry(regular: bool, preferred: Option<string>)

  /** `Ut` and `Gt`: the irregular and the regular tags, in lower case. */
  function Table(r: string): (entry: Option<Entry>)
    ensures entry.Some? ==> 5 <= |r| <= 11
    ensures entry.Some? && entry.value.preferred.Some? ==> Preferred(entry.value.preferred.value)
  {
    if r == "en-gb-oed" then Some(Entry(false, Some("en-GB-oxendict")))
    else if r == "i-ami" then Some(Entry(false, Some("ami")))
    else if r == "i-bnn" then Some(Entry(false, Some("bnn")))
    else if r == "i-default" then Some(Entry(false, None))
    else if r == "i-enochian" then Some(Entry(false, None))
    else if r == "i-hak" then Some(Entry(false, Some("hak")))
    else if r == "i-klingon" then Some(Entry(false, Some("tlh")))
    else if r == "i-lux" then Some(Entry(false, Some("lb")))
    else if r == "i-mingo" then Some(Entry(false, None))
    else if r == "i-navajo" then Some(Entry(false, Some("nv")))
    else if r == "i-pwn" then Some(Entry(false, Some("pwn")))
    else if r == "i-tao" then Some(Entry(false, Some("tao")))
    else if r == "i-tay" then Some(Entry(false, Some("tay")))
    else if r == "i-tsu" then Some(Entry(false, Some("tsu")))
    else if r == "sgn-be-fr" then Some(Entry(false, Some("sfb")))
    else if r == "sgn-be-nl" then Some(Entry(false, Some("vgt")))
    else if r == "sgn-ch-de" then Some(Entry(false, Some("sgg")))
    else if r == "art-lojban" then Some(Entry(true, Some("jbo")))
    else if r == "cel-gaulish" then Some(Entry(true, None))
    else if r == "no-bok" then Some(Entry(true, Some("nb")))
    else if r == "no-nyn" then Some(Entry(true, Some("nn")))
    else if r == "zh-guoyu" then Some(Entry(true, Some("cmn")))
    else if r == "zh-hakka" then Some(Entry(true, Some("hak")))
    else if r == "zh-min" then Some(Entry(true, None))
    else if r == "zh-min-nan" then Some(Entry(true, Some("nan")))
    else if r == "zh-xiang" then Some(Entry(true, Some("hsn")))
    else None
  }

  const OXENDICT := "en-GB-oxendict"

  /** The preferred tags are languages, but for one. */
  predicate Preferred(p: string) {
    p == OXENDICT || (2 <= |p| <= 3 && All(p, Alpha))
  }

  /** What a preferred tag says. */
  function PreferredTag(p: string): Tag {
    if p == OXENDICT then Tag(Some("en"), [], None, Some("GB"), ["oxendict"], [], [])
    else Tag(Some(p), [], None, None, [], [], [])
  }

  /** `toLowerCase`, for ASCII. */
  function Lower(s: string): (r: string)
    ensures |r| == |s|
  {
    seq(|s|, i requires 0 <= i < |s| => if 'A' <= s[i] <= 'Z' then s[i] + ('a' - 'A') else s[i])
  }

  /** Texts that differ in case only are looked up alike, as lower case. */
  lemma CaseIsIgnored(s: string, t: string)
    requires |s| == |t|
    requires forall i | 0 <= i < |s| ::
               s[i] == t[i] || ('A' <= s[i] <= 'Z' && 'a' <= t[i] <= 'z' && s[i] as int + 32 == t[i] as int)
    ensures Lower(s) == Lower(t)
    ensures (forall i | 0 <= i < |s| :: !('A' <= s[i] <= 'Z')) ==> Lower(s) == s
  {
  }

  lemma PreferredIsWritten(p: string)
    requires Preferred(p)
    ensures Table(Lower(p)).None?
    ensures Written(PreferredTag(p), 'x', p) && !Misread(PreferredTag(p)) && forall c | c in p :: c as int < 128
  {
    var w := PreferredTag(p);
    if p == OXENDICT {
      Oxendict(w);
    } else {
      assert Rest(w) == [];
      LangtagText(w, 'x');
    }
  }

  lemma Oxendict(w: Tag)
    requires w == PreferredTag(OXENDICT)
    ensures WellFormed(w) && !Misread(w) && Join(Subtags(w, 'x')) == OXENDICT
  {
    OxendictText(w, "en", "GB", "oxendict");
    OxendictShape("oxendict");
  }

  lemma OxendictShape(variant: string)
    requires variant == "oxendict"
    ensures Variant(variant) && !T2(variant) && !TD(variant) && !T3(variant) && !T4(variant)
  {
  }

  lemma OxendictText(w: Tag, language: string, region: string, variant: string)
    requires w == Tag(Some(language), [], None, Some(region), [variant], [], [])
    ensures Join(Subtags(w, 'x')) == language + "-" + region + "-" + variant
  {
    assert Rest(w) == [region, variant];
    LangtagText(w, 'x');
    TwoSubtags(language, region, variant);
  }

  lemma TwoSubtags(language: string, a: string, b: string)
    ensures language + Hyphened([a, b]) + "" == language + "-" + a + "-" + b
  {
    HyphenedSnoc([], a, [a]);
    HyphenedSnoc([a], b, [a, b]);
  }

  // ----- scanning -----

  /** Between these places there is exactly this text, and it ends in two characters of a subtag. */
  ghost predicate Scanned(t: string, i: nat, j: nat, text: string) {
    && i <= j <= |t| && t[i..j] == text
    && (j > i ==> j >= 2 && Alnum(t[j - 1]) && Alnum(t[j - 2]))
  }

  /** One more hyphen and subtag. */
  lemma ScanOne(t: string, i: nat, j: nat, k: nat, done: seq<string>, s: string)
    requires Scanned(t, i, j, Hyphened(done)) && j + 2 < k <= |t|
    requires t[j] == '-' && t[j + 1..k] == s && All(s, Alnum)
    ensures Scanned(t, i, k, Hyphened(done + [s]))
  {
    HyphenedSnoc(done, s, done + [s]);
    AppendSubtag(t, i, j, k, Hyphened(done), s);
    LastTwo(t, j + 1, k, s);
  }

  lemma AppendSubtag(t: string, i: nat, j: nat, k: nat, text: string, s: string)
    requires i <= j < k <= |t| && t[i..j] == text && t[j] == '-' && t[j + 1..k] == s
    ensures t[i..k] == text + "-" + s
  {
  }

  lemma LastTwo(t: string, j: nat, k: nat, s: string)
    requires j + 2 <= k <= |t| && t[j..k] == s && All(s, Alnum)
    ensures Alnum(t[k - 1]) && Alnum(t[k - 2])
  {
    assert s[k - 1 - j] == t[k - 1] && s[k - 2 - j] == t[k - 2];
  }

  lemma FirstSubtag(t: string, i: nat, j: nat, s: string)
    requires i + 2 < j <= |t| && t[i] == '-' && t[i + 1..j] == s && All(s, Alnum)
    ensures Scanned(t, i, j, Hyphened([s]))
  {
    assert Scanned(t, i, i, Hyphened([]));
    ScanOne(t, i, i, j, [], s);
    assert [] + [s] == [s];
  }

  lemma ScanOn(t: string, i: nat, j: nat, k: nat, a: string, b: string)
    requires Scanned(t, i, j, a) && Scanned(t, j, k, b)
    ensures Scanned(t, i, k, a + b)
  {
    assert t[i..k] == t[i..j] + t[j..k];
  }

  method ScanLanguage(t: string) returns (i: nat)
    ensures i <= |t| && i <= 9 && All(t[..i], Alpha) && (i == 9 || !Alpha(At(t, i)))
  {
    i := 0;
    while Alpha(At(t, i)) && i < 9
      invariant i <= |t| && i <= 9 && All(t[..i], Alpha)
    {
      assert t[..i + 1] == t[..i] + [t[i]];
      i := i + 1;
    }
  }

  method ScanExtlangs(t: string, start: nat) returns (problem: Option<Result>, i: nat, extlangs: seq<string>)
    requires start <= |t|
    ensures problem.Some? ==> problem.value.Rejected? && |extlangs| == 3 && ExtlangAt(t, i)
    ensures problem.None? ==> !ExtlangAt(t, i) && if extlangs == [] then i == start else !Alpha(At(t, i))
    ensures Scanned(t, start, i, Hyphened(extlangs))
    ensures |extlangs| <= 3 && forall k | 0 <= k < |extlangs| :: Extlang(extlangs[k])
  {
    i, extlangs, problem := start, [], None;
    while ExtlangAt(t, i)
      invariant Scanned(t, start, i, Hyphened(extlangs)) && if extlangs == [] then i == start else !Alpha(At(t, i))
      invariant |extlangs| <= 3 && forall k | 0 <= k < |extlangs| :: Extlang(extlangs[k])
      decreases |t| - i
    {
      if |extlangs| > 2 { return Some(Rejected(TooManyExtlangs, i)), i, extlangs; }
      var s := t[i + 1..i + 4];
      ScanOne(t, start, i, i + 4, extlangs, s);
      extlangs, i := extlangs + [s], i + 4;
    }
  }

  method ScanScript(t: string, i: nat) returns (j: nat, script: Option<string>)
    requires i <= |t|
    ensures Scanned(t, i, j, Hyphened(List(script)))
    ensures script.Some? ==> Script(script.value)
    ensures if ScriptAt(t, i) then j == i + 5 <= |t| && script == Some(t[i + 1..j]) else j == i && script == None
  {
    j, script := i, None;
    if ScriptAt(t, i) {
      j := i + 5;
      script := Some(t[i + 1..j]);
      FirstSubtag(t, i, j, script.value);
    }
  }

  method ScanRegion(t: string, i: nat) returns (j: nat, region: Option<string>)
    requires i <= |t|
    ensures Scanned(t, i, j, Hyphened(List(region)))
    ensures region.Some? ==> Region(region.value)
    ensures if LettersAt(t, i) then j == i + 3 <= |t| && region == Some(t[i + 1..j])
            else if DigitsAt(t, i) then j == i + 4 <= |t| && region == Some(t[i + 1..j])
            else j == i && region == None
  {
    j, region := i, None;
    if LettersAt(t, i) {
      j := i + 3;
      region := Some(t[i + 1..j]);
      FirstSubtag(t, i, j, region.value);
    } else if DigitsAt(t, i) {
      j := i + 4;
      region := Some(t[i + 1..j]);
      FirstSubtag(t, i, j, region.value);
    }
  }

  /** On to the end of a subtag, unless it has more than eight characters. */
  method ScanSubtag(t: string, start: nat, from: nat) returns (ok: bool, end: nat)
    requires start <= from <= |t| && All(t[start..from], Alnum) && from - start <= 8
    ensures from <= end <= |t| && All(t[start..end], Alnum)
    ensures if ok then end - start <= 8 && !Alnum(At(t, end)) else end == start + 8 && Alnum(At(t, end))
  {
    end := from;
    while Alnum(At(t, end))
      invariant from <= end <= |t| && All(t[start..end], Alnum) && end - start <= 8
      decreases |t| - end
    {
      if end - start > 7 { return false, end; }
      assert t[start..end + 1] == t[start..end] + [t[end]];
      end := end + 1;
    }
    ok := true;
  }

  /** What was found about the length of a subtag. */
  lemma SubtagLength(t: string, i: nat, first: nat, end: nat)
    requires first == i + 1 <= end <= |t| && At(t, i) == '-' && All(t[first..end], Alnum)
    ensures Alnum(At(t, end)) && end == first + 8 ==> LongAt(t, i, 9)
    ensures forall n: nat | 0 < n <= end - first :: LongAt(t, i, n)
    ensures !Alnum(At(t, end)) ==> forall n: nat | n > end - first :: !LongAt(t, i, n)
  {
    forall p: nat | i < p < end ensures Alnum(At(t, p)) { assert t[first..end][p - first] == t[p]; }
  }

  method ScanVariants(t: string, start: nat) returns (problem: Option<Result>, i: nat, variants: seq<string>)
    requires start <= |t|
    ensures problem.Some? ==> problem.value.Rejected? && start <= i && LongAt(t, i, 9)
    ensures problem.None? ==> Scanned(t, start, i, Hyphened(variants))
    ensures problem.None? ==> !VariantAt(t, i) && if variants == [] then i == start else !Alnum(At(t, i))
    ensures forall k | 0 <= k < |variants| :: Variant(variants[k])
  {
    i, variants, problem := start, [], None;
    while At(t, i) == '-'
      invariant Scanned(t, start, i, Hyphened(variants)) && if variants == [] then i == start else !Alnum(At(t, i))
      invariant forall k | 0 <= k < |variants| :: Variant(variants[k])
      decreases |t| - i
    {
      var first := i + 1;
      var ok, end := ScanSubtag(t, first, first);
      SubtagLength(t, i, first, end);
      if !ok { return Some(Rejected(TooLongVariant, end)), i, variants; }
      if end - first > 4 || (end - first > 3 && Digit(t[first])) {
        var s := t[first..end];
        ScanOne(t, start, i, end, variants, s);
        variants, i := variants + [s], end;
      } else {
        break;
      }
    }
  }

  /** The subtags of one extension, from the hyphen before the first of them. */
  method ScanParts(t: string, start: nat) returns (ok: bool, end: nat, count: nat, ghost parts: seq<string>, ghost place: nat)
    requires start <= |t|
    ensures start <= end <= |t|
    ensures ok ==> Scanned(t, start, end, Hyphened(parts)) && count == |parts| && !PartAt(t, end)
    ensures ok ==> if parts == [] then end == start else start < end && t[start] == '-' && !Alnum(At(t, end))
    ensures !ok ==> start <= place && LongAt(t, place, 9)
    ensures forall i | 0 <= i < |parts| :: 2 <= |parts[i]| <= 8 && All(parts[i], Alnum)
  {
    end, count, parts, place := start, 0, [], start;
    while PartAt(t, end)
      invariant Scanned(t, start, end, Hyphened(parts)) && count == |parts|
      invariant if parts == [] then end == start else start < end && t[start] == '-' && !Alnum(At(t, end))
      invariant forall i | 0 <= i < |parts| :: 2 <= |parts[i]| <= 8 && All(parts[i], Alnum)
      decreases |t| - end
    {
      var first := end + 1;
      assert t[first..first + 2] == [t[first], t[first + 1]];
      var fits, next := ScanSubtag(t, first, first + 2);
      SubtagLength(t, end, first, next);
      if !fits { return false, next, count, parts, end; }
      ghost var s := t[first..next];
      ScanOne(t, start, end, next, parts, s);
      end, count, parts := next, count + 1, parts + [s];
    }
    ok := true;
  }

  method ScanExtensions(t: string, start: nat)
    returns (problem: Option<Result>, i: nat, extensions: seq<Extension>, ghost place: nat)
    requires start <= |t|
    ensures problem.Some? ==> problem.value.Rejected?
    ensures problem.Some? ==> (start <= place && LongAt(t, place, 9)) || (ExtensionAt(t, i) && place == i + 2 && !PartAt(t, place))
    ensures Scanned(t, start, i, Hyphened(ExtensionSubtags(extensions)))
    ensures if extensions == [] then i == start else !Alnum(At(t, i)) && !PartAt(t, i)
    ensures problem.None? ==> !ExtensionAt(t, i)
    ensures Proper(extensions)
  {
    i, extensions, problem, place := start, [], None, start;
    while ExtensionAt(t, i)
      invariant Scanned(t, start, i, Hyphened(ExtensionSubtags(extensions)))
      invariant if extensions == [] then i == start else !Alnum(At(t, i)) && !PartAt(t, i)
      invariant Proper(extensions)
      decreases |t| - i
    {
      var first := i + 2;
      var ok, end, count, parts, long := ScanParts(t, first);
      if !ok { return Some(Rejected(TooLongExtension, end)), i, extensions, long; }
      if count == 0 { return Some(Rejected(EmptyExtension, end)), i, extensions, first; }
      var text := t[i + 3..end];
      PartsOf(t, first, i + 3, end, parts, text);
      var e := Extension(t[i + 1], Split(text));
      OneMoreExtension(t, start, i, end, extensions, e);
      extensions, i := extensions + [e], end;
    }
  }

  lemma PartsOf(t: string, start: nat, first: nat, end: nat, parts: seq<string>, text: string)
    requires Scanned(t, start, end, Hyphened(parts)) && parts != [] && first == start + 1 <= end && text == t[first..end]
    requires t[start] == '-' && forall i | 0 <= i < |parts| :: All(parts[i], Alnum)
    ensures Split(text) == parts
  {
    WithHyphen(t, start, first, end, text);
    SplitOfAll(parts, text);
  }

  lemma WithHyphen(t: string, start: nat, first: nat, end: nat, text: string)
    requires first == start + 1 <= end <= |t| && text == t[first..end] && t[start] == '-'
    ensures t[start..end] == "-" + text
  {
  }

  lemma OneMoreExtension(t: string, start: nat, i: nat, end: nat, extensions: seq<Extension>, e: Extension)
    requires Scanned(t, start, i, Hyphened(ExtensionSubtags(extensions)))
    requires i + 2 <= |t| && t[i] == '-' && t[i + 1] == e.singleton && Scanned(t, i + 2, end, Hyphened(e.parts)) && end > i + 2
    ensures Scanned(t, start, end, Hyphened(ExtensionSubtags(extensions + [e])))
  {
    var done, s := ExtensionSubtags(extensions), [e.singleton];
    assert (extensions + [e])[..|extensions|] == extensions;
    HyphenedConcat(done, [s] + e.parts);
    HyphenedConcat([s], e.parts);
    assert [s][..0] == [];
    assert t[start..end] == t[start..i] + t[i..i + 2] + t[i + 2..end];
    assert t[i..i + 2] == "-" + s;
  }

  /** Private use, after its introducer. */
  method ScanPrivateUse(t: string, start: nat) returns (problem: Option<Result>, i: nat, parts: seq<string>)
    requires start <= |t|
    ensures problem.Some? ==> problem.value.Rejected? && start <= i && LongAt(t, i, 9)
    ensures problem.None? ==> start <= i <= |t| && t[start..i] == Hyphened(parts)
    ensures problem.None? ==> !(At(t, i) == '-' && Alnum(At(t, i + 1)))
    ensures problem.None? ==> if parts == [] then i == start else t[start] == '-' && !Alnum(At(t, i))
    ensures Clean(parts)
  {
    i, parts, problem := start, [], None;
    while At(t, i) == '-' && Alnum(At(t, i + 1))
      invariant start <= i <= |t| && t[start..i] == Hyphened(parts)
      invariant if parts == [] then i == start else start < |t| && t[start] == '-' && !Alnum(At(t, i))
      invariant Clean(parts)
      decreases |t| - i
    {
      var first := i + 1;
      var ok, end := ScanSubtag(t, first, first);
      SubtagLength(t, i, first, end);
      if !ok { return Some(Rejected(TooLongPrivateUse, end)), i, parts; }
      var s := t[first..end];
      AppendSubtag(t, start, i, end, Hyphened(parts), s);
      HyphenedSnoc(parts, s, parts + [s]);
      parts, i := parts + [s], end;
    }
  }

  // ----- the whole tag -----

  lemma LangtagText(tag: Tag, x: char)
    requires tag.language.Some?
    ensures Join(Subtags(tag, x)) == tag.language.value + Hyphened(Rest(tag)) + Private(tag.privateuse, x)
  {
    var rest, private := Rest(tag), Introduce(tag.privateuse, x);
    HyphenedConcat(rest, private);
    IntroducedText(tag.privateuse, x);
    JoinFirst(tag.language.value, rest + private, Subtags(tag, x));
  }

  lemma IntroducedText(parts: seq<string>, x: char)
    ensures Hyphened(Introduce(parts, x)) == Private(parts, x)
  {
    if parts != [] {
      HyphenedConcat([[x]], parts);
      HyphenedSnoc([], [x], [[x]]);
    }
  }

  lemma PrivateText(tag: Tag, x: char)
    requires tag.language.None? && Rest(tag) == []
    ensures Join(Subtags(tag, x)) == (if tag.privateuse == [] then "" else [x]) + Hyphened(tag.privateuse)
  {
    var private := Introduce(tag.privateuse, x);
    assert Subtags(tag, x) == private;
    if tag.privateuse != [] { JoinFirst([x], tag.privateuse, private); }
  }

  function Private(parts: seq<string>, x: char): string {
    if parts == [] then "" else "-" + [x] + Hyphened(parts)
  }

  lemma FivePieces(t: string, i0: nat, i1: nat, i2: nat, i3: nat, i4: nat, i5: nat, tag: Tag)
    requires Scanned(t, i0, i1, Hyphened(tag.extlangs)) && Scanned(t, i1, i2, Hyphened(List(tag.script)))
    requires Scanned(t, i2, i3, Hyphened(List(tag.region))) && Scanned(t, i3, i4, Hyphened(tag.variants))
    requires Scanned(t, i4, i5, Hyphened(ExtensionSubtags(tag.extensions)))
    ensures Scanned(t, i0, i5, Hyphened(Rest(tag)))
  {
    var a, b := tag.extlangs + List(tag.script), tag.extlangs + List(tag.script) + List(tag.region);
    HyphenedConcat(tag.extlangs, List(tag.script));
    ScanOn(t, i0, i1, i2, Hyphened(tag.extlangs), Hyphened(List(tag.script)));
    HyphenedConcat(a, List(tag.region));
    ScanOn(t, i0, i2, i3, Hyphened(a), Hyphened(List(tag.region)));
    HyphenedConcat(b, tag.variants);
    ScanOn(t, i0, i3, i4, Hyphened(b), Hyphened(tag.variants));
    HyphenedConcat(b + tag.variants, ExtensionSubtags(tag.extensions));
    ScanOn(t, i0, i4, i5, Hyphened(b + tag.variants), Hyphened(ExtensionSubtags(tag.extensions)));
  }

  /** The extended language subtags, script and region. */
  method ScanFront(t: string, start: nat, ghost w: Tag, ghost x: char)
    returns (problem: Option<Result>, i: nat, extlangs: seq<string>, script: Option<string>, region: Option<string>,
             i1: nat, i2: nat)
    requires start <= |t|
    ensures problem.Some? ==> problem.value.Rejected?
    ensures |extlangs| <= 3 && (forall k | 0 <= k < |extlangs| :: Extlang(extlangs[k])) && (extlangs != [] ==> start < 4)
    ensures problem.None? ==>
              && (script.Some? ==> Script(script.value)) && (region.Some? ==> Region(region.value))
              && Scanned(t, start, i1, Hyphened(extlangs)) && Scanned(t, i1, i2, Hyphened(List(script)))
              && Scanned(t, i2, i, Hyphened(List(region)))
    ensures Follows(w, x, t, start) ==> FoundFront(w, x, t, problem.Some?, i, extlangs, script, region)
  {
    problem, i, extlangs, script, region, i1, i2 := None, start, [], None, None, start, start;
    ghost var follows := Follows(w, x, t, start);
    if i < 4 {
      problem, i, extlangs := ScanExtlangs(t, i);
      if problem.Some? {
        if follows { OneExtlangTooMany(w, x, t, start, i, extlangs); }
        return;
      }
      if follows { AfterExtlangs(w, x, t, start, i, extlangs); }
    } else if follows {
      NoExtlangs(w, x, t, start);
    }
    i1 := i;
    i, script := ScanScript(t, i1);
    if follows { AfterScript(w, x, t, i1, i, script); }
    i2 := i;
    i, region := ScanRegion(t, i2);
    if follows { AfterRegion(w, x, t, i2, i, region); }
  }

  lemma NoExtlangs(w: Tag, x: char, t: string, start: nat)
    requires Follows(w, x, t, start) && start >= 4
    ensures w.extlangs == [] && !MisreadAs(w, true, false, false) && Ahead(t, start, After1(w, x))
  {
    assert After0(w, x) == After1(w, x);
  }

  /** The front of the tag, up to the region, was found. */
  ghost predicate FrontFound(w: Tag, x: char, t: string, i: nat, front: Tag) {
    && WellFormed(w) && IsX(x) && w.language == front.language && front.privateuse == []
    && FoundFront(w, x, t, false, i, front.extlangs, front.script, front.region)
  }

  /** Variants and extensions. */
  method ScanBack(t: string, i3: nat, ghost front: Tag, ghost w: Tag, ghost x: char)
    returns (problem: Option<Result>, i: nat, variants: seq<string>, extensions: seq<Extension>, ghost i4: nat)
    requires i3 <= |t|
    ensures problem.Some? ==> problem.value.Rejected?
    ensures problem.None? ==>
              && (forall k | 0 <= k < |variants| :: Variant(variants[k])) && Proper(extensions)
              && Scanned(t, i3, i4, Hyphened(variants)) && Scanned(t, i4, i, Hyphened(ExtensionSubtags(extensions)))
    ensures FrontFound(w, x, t, i3, front) ==>
              Found(w, x, t, problem.Some?, i, front.(variants := variants, extensions := extensions))
  {
    ghost var follows := FrontFound(w, x, t, i3, front);
    problem, i, variants := ScanVariants(t, i3);
    extensions, i4 := [], i;
    if problem.Some? {
      if follows { FailedBack(w, x, t, i3, i, front.(variants := variants, extensions := [])); }
      return;
    }
    if follows { AfterVariants(w, x, t, i3, i, variants); }
    ghost var place;
    problem, i, extensions, place := ScanExtensions(t, i);
    ghost var tag := front.(variants := variants, extensions := extensions);
    if problem.Some? {
      if follows { FailedExtensions(w, x, t, i4, i, extensions, place, tag); }
      return;
    }
    if follows {
      AfterExtensions(w, x, t, i4, i, extensions);
      FoundBack(w, x, t, i3, i, variants, extensions, front, tag);
    }
  }

  /** The part of the tag from its language on, up to private use. */
  method ScanLangtag(t: string, start: nat, ghost w: Tag, ghost x: char)
    returns (problem: Option<Result>, i: nat, tag: Tag)
    requires 1 < start < 9 && start <= |t| && All(t[..start], Alpha)
    ensures problem.Some? ==> problem.value.Rejected?
    ensures problem.None? ==>
              && tag.language == Some(t[..start]) && tag.privateuse == [] && WellFormed(tag)
              && Scanned(t, start, i, Hyphened(Rest(tag)))
    ensures Follows(w, x, t, start) ==> Found(w, x, t, problem.Some?, i, tag)
  {
    var extlangs, script, region;
    var i1, i2;
    problem, i, extlangs, script, region, i1, i2 := ScanFront(t, start, w, x);
    tag := Tag(Some(t[..start]), extlangs, script, region, [], [], []);
    if problem.Some? { return; }
    var i3 := i;
    var variants, extensions;
    ghost var i4;
    problem, i, variants, extensions, i4 := ScanBack(t, i3, tag, w, x);
    tag := tag.(variants := variants, extensions := extensions);
    if problem.None? { FivePieces(t, start, i1, i2, i3, i4, i, tag); }
  }

  lemma FailedExtensions(w: Tag, x: char, t: string, i: nat, j: nat, found: seq<Extension>, place: nat, tag: Tag)
    requires WellFormed(w) && IsX(x) && Proper(found)
    requires if Misread(w) then Alnum(At(t, i)) else Ahead(t, i, After4(w, x))
    requires Scanned(t, i, j, Hyphened(ExtensionSubtags(found)))
    requires if found == [] then j == i else !Alnum(At(t, j)) && !PartAt(t, j)
    requires (i <= place && LongAt(t, place, 9)) || (ExtensionAt(t, j) && place == j + 2 && !PartAt(t, place))
    ensures Found(w, x, t, true, j, tag)
  {
    if !Misread(w) {
      if i <= place && LongAt(t, place, 9) {
        NothingTooLong(w, x, t, i, place);
      } else {
        NoExtensionEmpty(w, x, t, i, j, found, place);
      }
    }
  }

  /** What there is of the tag before an introducer of private use. */
  function Head(tag: Tag): string {
    if tag.language.Some? then tag.language.value + Hyphened(Rest(tag)) else ""
  }

  /** The tag can be written back unless it ends in an introducer, with nothing after it. */
  ghost predicate Faithful(tag: Tag, t: string) {
    Writes(tag, t) <==> !(tag.privateuse == [] && EndsWithX(t))
  }

  /** Without an introducer the tag is its head. */
  lemma PlainTag(t: string, i: nat, tag: Tag)
    requires i == |t| && t[..i] == Head(tag) && !EndsWithX(t[..i])
    requires WellFormed(tag) && tag.privateuse == []
    ensures Faithful(tag, t)
  {
    assert t[..i] == t;
    if tag.language.Some? {
      LangtagText(tag, 'x');
    } else {
      PrivateText(tag, 'x');
    }
  }

  /** With an introducer and something after it, the tag can be written back. */
  lemma KeptPrivateUse(t: string, tag: Tag, x: char)
    requires IsX(x) && tag.privateuse != [] && (tag.language.None? ==> Rest(tag) == [])
    requires t == Head(tag) + (if tag.language.Some? then "-" else "") + [x] + Hyphened(tag.privateuse)
    ensures Writes(tag, t)
  {
    if tag.language.Some? {
      LangtagText(tag, x);
      JoinRight(t, Head(tag), "-", [x], Hyphened(tag.privateuse));
    } else {
      PrivateText(tag, x);
    }
  }

  lemma JoinRight(t: string, a: string, b: string, c: string, d: string)
    requires t == a + b + c + d
    ensures t == a + (b + c + d)
  {
  }

  /** With an introducer and nothing after it, the introducer is lost. */
  lemma LostIntroducer(t: string, tag: Tag, x: char)
    requires IsX(x) && tag.privateuse == [] && (tag.language.None? ==> Rest(tag) == [])
    requires t == Head(tag) + (if tag.language.Some? then "-" else "") + [x]
    ensures !Writes(tag, t) && EndsWithX(t)
  {
    forall y ensures Join(Subtags(tag, y)) == Head(tag) {
      if tag.language.Some? {
        LangtagText(tag, y);
        assert Head(tag) + "" == Head(tag);
      } else {
        PrivateText(tag, y);
      }
    }
    assert |t| > |Head(tag)|;
  }

  lemma NothingButLanguage(tag: Tag)
    requires WellFormed(tag)
    ensures tag.language.None? ==> Rest(tag) == []
  {
  }

  /** `t` is the tag written out. */
  ghost predicate Written(w: Tag, x: char, t: string) {
    WellFormed(w) && IsX(x) && (w.language.None? ==> w.privateuse != []) && t == Join(Subtags(w, x))
  }

  /** What is ahead of private use in a tag that follows the grammar and is not misread. */
  ghost predicate Reached(w: Tag, x: char, t: string, i: nat, tag: Tag) {
    && Written(w, x, t) && tag == w.(privateuse := [])
    && if w.language.Some? then i > 0 && Ahead(t, i, Introduce(w.privateuse, x)) else i == 0
  }

  /** Everything up to private use was found, or the tag is misread: then the scan has failed or
      is inside a subtag. */
  ghost predicate Arrived(w: Tag, x: char, t: string, failed: bool, i: nat, tag: Tag) {
    if Misread(w) then failed || (i > 0 && Alnum(At(t, i))) else !failed && Reached(w, x, t, i, tag)
  }

  /** Everything up to private use: nothing where there is no language. */
  method ScanHead(t: string, ghost w: Tag, ghost x: char) returns (problem: Option<Result>, i: nat, tag: Tag)
    ensures problem.Some? ==> problem.value.Rejected?
    ensures problem.None? ==>
              && i <= |t| && t[..i] == Head(tag) && !EndsWithX(t[..i])
              && WellFormed(tag) && tag.privateuse == [] && if i == 0 then tag.language.None? else tag.language.Some? && i > 1
    ensures Written(w, x, t) ==> Arrived(w, x, t, problem.Some?, i, tag)
  {
    problem, i, tag := None, 0, Tag(None, [], None, None, [], [], []);
    var start := ScanLanguage(t);
    if Written(w, x, t) { LanguageScanned(w, x, t, start); }
    if 1 < start < 9 {
      problem, i, tag := ScanLangtag(t, start, w, x);
      if problem.None? { HeadOf(t, start, i, tag); }
    }
  }

  lemma LanguageScanned(w: Tag, x: char, t: string, start: nat)
    requires Written(w, x, t)
    requires start <= |t| && start <= 9 && All(t[..start], Alpha) && (start == 9 || !Alpha(At(t, start)))
    ensures w.language.Some? ==> 1 < start < 9 && Follows(w, x, t, start)
    ensures w.language.None? ==> start == 1 && w == Tag(None, [], None, None, [], [], w.privateuse)
  {
    if w.language.Some? {
      LanguageEnds(w, x, t, |w.language.value|);
      SameLength(t, start, w.language.value);
    } else {
      PrivateOnly(w, x, t);
      if start > 1 { LetterAt(t, start, 1); }
    }
  }

  lemma SameLength(t: string, start: nat, language: string)
    requires start <= |t| && start <= 9 && All(t[..start], Alpha) && (start == 9 || !Alpha(At(t, start)))
    requires |language| <= 8 && |language| <= |t| && t[..|language|] == language && All(language, Alpha)
    requires !Alpha(At(t, |language|))
    ensures start == |language|
  {
    if start > |language| { LetterAt(t, start, |language|); }
    if start < |language| { LetterAt(t, |language|, start); }
  }

  lemma LetterAt(t: string, n: nat, k: nat)
    requires k < n <= |t| && All(t[..n], Alpha)
    ensures Alpha(At(t, k))
  {
    assert Alpha(t[..n][k]);
  }

  /** `ze`, for a tag that is not in its table. What it accepts has the shape of the grammar and
      can be written back from its parts, except that an introducer of private use with nothing
      after it is forgotten. And of every tag `w` of the grammar, written out with `x` as the
      introducer, it finds exactly the parts, unless it takes the beginning of the first variant
      for something else. */
  method Scan(t: string, ghost w: Tag, ghost x: char) returns (r: Result)
    requires forall c | c in t :: c as int < 128
    ensures !r.Listed? && (r.Accepted? ==> WellFormed(r.tag) && Faithful(r.tag, t))
    ensures Written(w, x, t) ==> (r == Accepted(w) <==> !Misread(w)) && (r.Rejected? <==> Misread(w))
  {
    var problem, i, tag := ScanHead(t, w, x);
    if problem.Some? { return problem.value; }
    r := ScanRest(t, i, tag, w, x);
  }

  /** `ze`: a tag of the table is kept as it is or, where it is to be normalized, replaced by the
      one that is preferred, with that one's parts; every other tag is scanned. */
  method Parse(t: string, normalize: bool, ghost w: Tag, ghost x: char) returns (r: Result)
    requires forall c | c in t :: c as int < 128
    ensures var entry := Table(Lower(t));
      if entry.Some? then
        r == if normalize && entry.value.preferred.Some? then Accepted(PreferredTag(entry.value.preferred.value))
             else Listed(entry.value.regular, t)
      else !r.Listed? && (r.Accepted? ==> WellFormed(r.tag) && Faithful(r.tag, t))
           && (Written(w, x, t) ==> (r == Accepted(w) <==> !Misread(w)) && (r.Rejected? <==> Misread(w)))
    decreases if Table(Lower(t)).Some? then 1 else 0
  {
    var entry := Table(Lower(t));
    if entry.None? {
      r := Scan(t, w, x);
    } else if normalize && entry.value.preferred.Some? {
      var p := entry.value.preferred.value;
      PreferredIsWritten(p);
      r := Parse(p, true, PreferredTag(p), 'x');
    } else {
      r := Listed(entry.value.regular, t);
    }
  }

  /** Private use and the end of the tag. */
  method ScanRest(t: string, i: nat, tag: Tag, ghost w: Tag, ghost x: char) returns (r: Result)
    requires i <= |t| && t[..i] == Head(tag) && !EndsWithX(t[..i])
    requires WellFormed(tag) && tag.privateuse == [] && if i == 0 then tag.language.None? else tag.language.Some? && i > 1
    ensures !r.Listed? && (r.Accepted? ==> WellFormed(r.tag) && Faithful(r.tag, t))
    ensures Reached(w, x, t, i, tag) ==> r == Accepted(w)
    ensures i > 0 && Alnum(At(t, i)) ==> r.Rejected?
  {
    ghost var reached := Reached(w, x, t, i, tag);
    if (i == 0 && IsX(At(t, 0))) || (At(t, i) == '-' && IsX(At(t, i + 1))) {
      var start := if i != 0 then i + 2 else 1;
      if reached { PrivateUseAhead(w, x, t, i, start); }
      var problem, end, parts := ScanPrivateUse(t, start);
      if problem.Some? {
        if reached { NoneIsLong(t, start, w.privateuse, end); }
        return problem.value;
      }
      if reached { PrivateFits(t, start, end, parts, w.privateuse); }
      if end != |t| { return Rejected(Superfluous, end); }
      var whole := tag.(privateuse := parts);
      Introduced(t, i, start, end, tag, whole);
      return Accepted(whole);
    }
    if reached { NoPrivateUse(w, x, t, i); }
    if i != |t| { return Rejected(Superfluous, i); }
    PlainTag(t, i, tag);
    return Accepted(tag);
  }

  lemma PrivateUseAhead(w: Tag, x: char, t: string, i: nat, start: nat)
    requires Written(w, x, t) && start == (if i != 0 then i + 2 else 1)
    requires if w.language.Some? then i > 0 && Ahead(t, i, Introduce(w.privateuse, x)) else i == 0
    requires i > 0 ==> At(t, i) == '-'
    ensures start <= |t| && Ahead(t, start, w.privateuse) && w.privateuse != []
  {
    if w.language.Some? { Introducer(t, i, w.privateuse, x, start); } else { PrivateOnly(w, x, t); }
  }

  lemma NoPrivateUse(w: Tag, x: char, t: string, i: nat)
    requires Written(w, x, t) && !((i == 0 && IsX(At(t, 0))) || (At(t, i) == '-' && IsX(At(t, i + 1))))
    requires if w.language.Some? then i > 0 && Ahead(t, i, Introduce(w.privateuse, x)) else i == 0
    ensures w.privateuse == [] && i == |t|
  {
    if w.language.Some? { Introducer(t, i, w.privateuse, x, i + 2); } else { PrivateOnly(w, x, t); }
  }

  lemma Introduced(t: string, i: nat, start: nat, end: nat, tag: Tag, whole: Tag)
    requires i < start <= end == |t| && t[..i] == Head(tag) && (tag.language.Some? <==> i > 0) && WellFormed(tag)
    requires start == (if i != 0 then i + 2 else 1) && IsX(t[start - 1]) && (i > 0 ==> t[i] == '-')
    requires whole == tag.(privateuse := whole.privateuse) && t[start..end] == Hyphened(whole.privateuse)
    requires Clean(whole.privateuse)
    ensures WellFormed(whole) && Faithful(whole, t)
  {
    var x := t[start - 1];
    assert Rest(whole) == Rest(tag) && Head(whole) == Head(tag);
    NothingButLanguage(tag);
    ThreeParts(t, i, start, end, if i > 0 then "-" else "", x);
    if whole.privateuse == [] { LostIntroducer(t, whole, x); } else { KeptPrivateUse(t, whole, x); }
  }

  lemma ThreeParts(t: string, i: nat, start: nat, end: nat, hyphen: string, x: char)
    requires i < start <= end == |t| && start == i + |hyphen| + 1 && t[start - 1] == x && t[i..start - 1] == hyphen
    ensures t == t[..i] + hyphen + [x] + t[start..end]
  {
  }

  lemma HeadOf(t: string, start: nat, i: nat, tag: Tag)
    requires 1 < start <= |t| && All(t[..start], Alpha) && tag.language == Some(t[..start])
    requires Scanned(t, start, i, Hyphened(Rest(tag)))
    ensures t[..i] == Head(tag)
    ensures !EndsWithX(t[..i])
  {
    assert t[..i] == t[..start] + t[start..i];
    assert Alpha(t[..start][start - 2]);
  }
}
