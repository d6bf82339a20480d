/** What the scanner makes of a tag that follows the grammar. A place in the tag is described
    by the list of the subtags ahead of it. */
module LanguageGrammar {
  import opened Basics
  import opened LanguageSubtags

  // ----- subtags ahead -----

  ghost predicate Ahead(t: string, i: nat, ss: seq<string>) {
    i <= |t| && t[i..] == Hyphened(ss)
  }

  lemma HyphenedCons(s: string, more: seq<string>, all: seq<string>)
    requires all == [s] + more
    ensures Hyphened(all) == "-" + s + Hyphened(more)
  {
    HyphenedSnoc([], s, [s]);
    HyphenedConcat([s], more);
  }

  lemma AheadNone(t: string, i: nat)
    requires Ahead(t, i, [])
    ensures i == |t| && At(t, i) == '\0'
  {
  }

  /** The next subtag ends at `j`. */
  lemma AheadNext(t: string, i: nat, ss: seq<string>, j: nat)
    requires Ahead(t, i, ss) && Clean(ss) && ss != [] && j == i + 1 + |ss[0]|
    ensures j <= |t| && t[i] == '-' && t[i + 1..j] == ss[0] && Ahead(t, j, ss[1..]) && !Alnum(At(t, j))
    ensures forall k | 0 <= k < |ss[0]| :: At(t, i + 1 + k) == ss[0][k]
  {
    var s, more := ss[0], ss[1..];
    HyphenedCons(s, more, ss);
    Pieces(t, i, j, s, Hyphened(more));
    if more == [] {
      AheadNone(t, j);
    } else {
      HyphenedCons(more[0], more[1..], more);
      assert t[j..][0] == '-';
    }
  }

  lemma Pieces(t: string, i: nat, j: nat, s: string, rest: string)
    requires i <= |t| && t[i..] == "-" + s + rest && j == i + 1 + |s|
    ensures j <= |t| && t[i] == '-' && t[i + 1..j] == s && t[j..] == rest
    ensures forall k | 0 <= k < |s| :: At(t, i + 1 + k) == s[k]
  {
    var u := t[i..];
    assert u[0] == '-' && u[1..1 + |s|] == s && u[1 + |s|..] == rest;
    forall k | 0 <= k < |s| ensures At(t, i + 1 + k) == s[k] {
      assert u[1 + k] == t[i + 1 + k];
    }
  }

  // ----- text that was scanned -----

  lemma {:induction false} SplitJoins(s: string)
    ensures Hyphened(Split(s)) == "-" + s && NoHyphens(Split(s))
    decreases |s|
  {
    if s != "" {
      var front, c := s[..|s| - 1], s[|s| - 1];
      SplitJoins(front);
      assert s == front + [c];
      if c == '-' {
        HyphenedSnoc(Split(front), "", Split(s));
      } else {
        OneMoreLetter(front, c, Split(front), Split(s), s);
      }
    }
  }

  lemma OneMoreLetter(front: string, c: char, r: seq<string>, all: seq<string>, s: string)
    requires r != [] && Hyphened(r) == "-" + front && NoHyphens(r) && c != '-' && s == front + [c]
    requires all == r[|r| - 1 := r[|r| - 1] + [c]]
    ensures Hyphened(all) == "-" + s && NoHyphens(all)
  {
    var rest, last := LastLonger(r, c, all);
    HyphenedSnoc(rest, last, r);
    HyphenedSnoc(rest, last + [c], all);
    SplitElsewhere(Hyphened(rest) + "-", last, [c], "-", front);
  }

  lemma LastLonger(r: seq<string>, c: char, all: seq<string>) returns (rest: seq<string>, last: string)
    requires r != [] && NoHyphens(r) && c != '-' && all == r[|r| - 1 := r[|r| - 1] + [c]]
    ensures r == rest + [last] && all == rest + [last + [c]] && NoHyphens(all)
  {
    var n := |r| - 1;
    rest, last := r[..n], r[n];
    forall i | 0 <= i < |all| ensures '-' !in all[i] { assert '-' !in r[i]; }
  }

  lemma SplitElsewhere(a: string, b: string, c: string, d: string, e: string)
    requires a + b == d + e
    ensures a + (b + c) == d + (e + c)
  {
    assert a + (b + c) == (a + b) + c;
  }

  lemma HyphenedEmpty(a: seq<string>)
    ensures Hyphened(a) == "" <==> a == []
  {
  }

  /** There is only one way to divide a text into subtags. */
  lemma SameSubtags(a: seq<string>, b: seq<string>)
    requires Hyphened(a) == Hyphened(b) && NoHyphens(a) && NoHyphens(b)
    ensures a == b
  {
    HyphenedEmpty(a);
    HyphenedEmpty(b);
    if a != [] {
      HyphenedCons(a[0], a[1..], a);
      var text := a[0] + Hyphened(a[1..]);
      assert Hyphened(a) == "-" + text;
      SplitOfAll(a, text);
      SplitOfAll(b, text);
    }
  }

  lemma CleanHasNoHyphens(ss: seq<string>)
    requires Clean(ss)
    ensures NoHyphens(ss)
  {
  }

  /** What was scanned up to the end of a subtag are the first of the subtags ahead. */
  lemma Align(t: string, i: nat, j: nat, e: seq<string>, ss: seq<string>) returns (rest: seq<string>)
    requires i <= j <= |t| && t[i..j] == Hyphened(e) && Clean(e) && Ahead(t, i, ss) && Clean(ss)
    requires j == |t| || t[j] == '-'
    ensures ss == e + rest && Ahead(t, j, rest) && Clean(rest)
  {
    rest := Remaining(t, j);
    TextInTwo(t, i, j);
    HyphenedConcat(e, rest);
    CleanHasNoHyphens(e);
    CleanHasNoHyphens(ss);
    SameSubtags(e + rest, ss);
    CleanConcat(e, rest);
  }

  lemma TextInTwo(t: string, i: nat, j: nat)
    requires i <= j <= |t|
    ensures t[i..] == t[i..j] + t[j..]
  {
  }

  lemma Remaining(t: string, j: nat) returns (rest: seq<string>)
    requires j == |t| || (j < |t| && t[j] == '-')
    ensures Ahead(t, j, rest) && NoHyphens(rest)
  {
    if j == |t| { return []; }
    rest := Split(t[j + 1..]);
    SplitJoins(t[j + 1..]);
    assert t[j..] == "-" + t[j + 1..];
  }

  // ----- what is found ahead -----

  predicate T2(s: string) { |s| >= 2 && Alpha(s[0]) && Alpha(s[1]) && (|s| == 2 || !Alpha(s[2])) }
  predicate T3(s: string) { |s| >= 3 && Alpha(s[0]) && Alpha(s[1]) && Alpha(s[2]) && (|s| == 3 || !Alpha(s[3])) }
  predicate T4(s: string) {
    |s| >= 4 && Alpha(s[0]) && Alpha(s[1]) && Alpha(s[2]) && Alpha(s[3]) && (|s| == 4 || !Alpha(s[4]))
  }
  predicate TD(s: string) { |s| >= 3 && Digit(s[0]) && Digit(s[1]) && Digit(s[2]) && (|s| == 3 || !Digit(s[3])) }

  lemma FirstCharacters(t: string, i: nat, ss: seq<string>, k: nat)
    requires Ahead(t, i, ss) && Clean(ss) && ss != [] && 1 <= k <= |ss[0]| + 1
    ensures At(t, i) == '-'
    ensures k <= |ss[0]| ==> At(t, i + k) == ss[0][k - 1]
    ensures k == |ss[0]| + 1 ==> !Alnum(At(t, i + k))
  {
    AheadNext(t, i, ss, i + 1 + |ss[0]|);
    var m := k - 1;
    assert i + k == i + 1 + m;
  }

  /** The next five places. */
  lemma Characters(t: string, i: nat, ss: seq<string>)
    requires Ahead(t, i, ss) && Clean(ss) && ss != []
    ensures At(t, i) == '-' && At(t, i + 1) == ss[0][0]
    ensures if |ss[0]| >= 2 then At(t, i + 2) == ss[0][1] else !Alnum(At(t, i + 2))
    ensures |ss[0]| >= 2 ==> if |ss[0]| >= 3 then At(t, i + 3) == ss[0][2] else !Alnum(At(t, i + 3))
    ensures |ss[0]| >= 3 ==> if |ss[0]| >= 4 then At(t, i + 4) == ss[0][3] else !Alnum(At(t, i + 4))
    ensures |ss[0]| >= 4 ==> if |ss[0]| >= 5 then At(t, i + 5) == ss[0][4] else !Alnum(At(t, i + 5))
  {
    var n := |ss[0]|;
    FirstCharacters(t, i, ss, 1);
    FirstCharacters(t, i, ss, 2);
    if n >= 2 { FirstCharacters(t, i, ss, 3); }
    if n >= 3 { FirstCharacters(t, i, ss, 4); }
    if n >= 4 { FirstCharacters(t, i, ss, 5); }
  }

  lemma FindLetters(t: string, i: nat, ss: seq<string>)
    requires Ahead(t, i, ss) && Clean(ss)
    ensures At(t, i) == '-' <==> ss != []
    ensures LettersAt(t, i) <==> ss != [] && T2(ss[0])
    ensures DigitsAt(t, i) <==> ss != [] && TD(ss[0])
  {
    if ss == [] { AheadNone(t, i); } else { Characters(t, i, ss); }
  }

  lemma FindExtlang(t: string, i: nat, ss: seq<string>)
    requires Ahead(t, i, ss) && Clean(ss)
    ensures ExtlangAt(t, i) <==> ss != [] && T3(ss[0])
  {
    if ss == [] { AheadNone(t, i); } else { Characters(t, i, ss); }
  }

  lemma FindScript(t: string, i: nat, ss: seq<string>)
    requires Ahead(t, i, ss) && Clean(ss)
    ensures ScriptAt(t, i) <==> ss != [] && T4(ss[0])
  {
    if ss == [] { AheadNone(t, i); } else { Characters(t, i, ss); }
  }

  lemma FindLong(t: string, i: nat, ss: seq<string>, n: nat)
    requires Ahead(t, i, ss) && Clean(ss) && n > 0
    ensures LongAt(t, i, n) <==> ss != [] && |ss[0]| >= n
  {
    if ss == [] {
      AheadNone(t, i);
    } else {
      var s := ss[0];
      Characters(t, i, ss);
      forall p: nat | i < p <= i + n && p <= i + |s| ensures Alnum(At(t, p)) {
        InsideSubtag(t, i, ss, p);
      }
      if |s| < n {
        var k := |s| + 1;
        FirstCharacters(t, i, ss, k);
        var p := i + k;
        assert !Alnum(At(t, p));
      }
    }
  }

  lemma FindPart(t: string, i: nat, ss: seq<string>)
    requires Ahead(t, i, ss) && Clean(ss)
    ensures PartAt(t, i) <==> ss != [] && |ss[0]| >= 2
    ensures ExtensionAt(t, i) <==> |ss| >= 2 && |ss[0]| == 1 && !IsX(ss[0][0])
  {
    if ss == [] {
      AheadNone(t, i);
    } else {
      Characters(t, i, ss);
      if |ss[0]| == 1 {
        AheadNext(t, i, ss, i + 2);
        var more := ss[1..];
        if more == [] { AheadNone(t, i + 2); } else { FirstCharacters(t, i + 2, more, 1); }
      }
    }
  }

  lemma InsideSubtag(t: string, i: nat, ss: seq<string>, p: nat)
    requires Ahead(t, i, ss) && Clean(ss) && ss != [] && i < p <= i + |ss[0]|
    ensures p < |t| && Alnum(t[p])
  {
    var k := p - i;
    FirstCharacters(t, i, ss, k);
    assert p == i + k && Alnum(ss[0][k - 1]);
  }

  /** Every character ahead is a hyphen or belongs to a subtag. */
  lemma {:induction false} CharactersAhead(t: string, i: nat, ss: seq<string>, p: nat)
    requires Ahead(t, i, ss) && Clean(ss) && i <= p < |t|
    ensures Alnum(t[p]) || t[p] == '-'
    decreases |ss|
  {
    if ss == [] {
      AheadNone(t, i);
    } else {
      var j := i + 1 + |ss[0]|;
      AheadNext(t, i, ss, j);
      if p >= j {
        CharactersAhead(t, j, ss[1..], p);
      } else if p > i {
        InsideSubtag(t, i, ss, p);
      }
    }
  }

  /** No subtag is longer than eight characters. */
  lemma {:induction false} NoneIsLong(t: string, i: nat, ss: seq<string>, p: nat)
    requires Ahead(t, i, ss) && Clean(ss) && i <= p && LongAt(t, p, 9)
    ensures false
    decreases |ss|
  {
    if ss == [] {
      AheadNone(t, i);
    } else {
      var j := i + 1 + |ss[0]|;
      AheadNext(t, i, ss, j);
      if p == i {
        FindLong(t, i, ss, 9);
      } else if p >= j {
        NoneIsLong(t, j, ss[1..], p);
      } else {
        InsideSubtag(t, i, ss, p);
      }
    }
  }

  // ----- one kind of subtag after the other -----

  /** The last of the scanned subtags. */
  lemma Unsnoc(t: string, i: nat, j: nat, e: seq<string>, front: seq<string>, last: string) returns (k: nat)
    requires i <= j <= |t| && t[i..j] == Hyphened(e) && e == front + [last]
    ensures i <= k < j && k + 1 + |last| == j && t[i..k] == Hyphened(front) && t[k] == '-' && t[k + 1..j] == last
  {
    HyphenedSnoc(front, last, e);
    k := i + |Hyphened(front)|;
    InThree(t[i..j], Hyphened(front), last);
    assert t[i..k] == t[i..j][..k - i] && t[k] == t[i..j][k - i] && t[k + 1..j] == t[i..j][k - i + 1..];
  }

  lemma InThree(u: string, a: string, b: string)
    requires u == a + "-" + b
    ensures |u| == |a| + 1 + |b| && u[..|a|] == a && u[|a|] == '-' && u[|a| + 1..] == b
  {
  }

  /** The extended language subtags that were found are those that were wanted, unless the
      next subtag looks like one for its first three letters; then the scan ends inside it. */
  lemma ExtlangsFit(t: string, i: nat, j: nat, found: seq<string>, want: seq<string>, more: seq<string>, ss: seq<string>)
    requires ss == want + more && Ahead(t, i, ss) && Clean(ss)
    requires forall k | 0 <= k < |want| :: Extlang(want[k])
    requires more == [] || !Extlang(more[0])
    requires i <= j <= |t| && t[i..j] == Hyphened(found) && forall k | 0 <= k < |found| :: Extlang(found[k])
    requires !ExtlangAt(t, j) && (if found == [] then j == i else !Alpha(At(t, j)))
    ensures if more != [] && T3(more[0]) then Alnum(At(t, j)) else found == want && Ahead(t, j, more)
  {
    BetweenSubtags(t, i, ss);
    if Alnum(At(t, j)) {
      var front, last := FrontAndLast(found);
      ExtlangsEndInside(t, i, j, found, want, more, ss, front, last);
    } else {
      ExtlangsAlign(t, i, j, found, want, more, ss);
    }
  }

  lemma FrontAndLast(found: seq<string>) returns (front: seq<string>, last: string)
    requires found != [] && forall k | 0 <= k < |found| :: Extlang(found[k])
    ensures found == front + [last] && Extlang(last) && forall k | 0 <= k < |front| :: Extlang(front[k])
  {
    front, last := found[..|found| - 1], found[|found| - 1];
  }

  lemma BetweenSubtags(t: string, i: nat, ss: seq<string>)
    requires Ahead(t, i, ss) && Clean(ss)
    ensures !Alnum(At(t, i))
  {
    if ss == [] { AheadNone(t, i); } else { FirstCharacters(t, i, ss, 1); }
  }

  lemma ExtlangsEndInside(t: string, i: nat, j: nat, found: seq<string>, want: seq<string>, more: seq<string>,
                          ss: seq<string>, front: seq<string>, last: string)
    requires ss == want + more && Ahead(t, i, ss) && Clean(ss)
    requires forall k | 0 <= k < |want| :: Extlang(want[k])
    requires more == [] || !Extlang(more[0])
    requires i <= j <= |t| && t[i..j] == Hyphened(found) && found == front + [last]
    requires Extlang(last) && forall k | 0 <= k < |front| :: Extlang(front[k])
    requires Alnum(At(t, j)) && !Alpha(At(t, j))
    ensures more != [] && T3(more[0])
  {
    var k := Unsnoc(t, i, j, found, front, last);
    var rest := Align(t, i, k, front, ss);
    EndsInside(t, k, j, last, rest);
    BeyondWanted(front, want, more, ss, rest);
  }

  lemma ExtlangsAlign(t: string, i: nat, j: nat, found: seq<string>, want: seq<string>, more: seq<string>, ss: seq<string>)
    requires ss == want + more && Ahead(t, i, ss) && Clean(ss)
    requires forall k | 0 <= k < |want| :: Extlang(want[k])
    requires more == [] || !Extlang(more[0])
    requires i <= j <= |t| && t[i..j] == Hyphened(found) && forall k | 0 <= k < |found| :: Extlang(found[k])
    requires !ExtlangAt(t, j) && !Alnum(At(t, j))
    ensures (more == [] || !T3(more[0])) && found == want && Ahead(t, j, more)
  {
    CharacterAt(t, i, ss, j);
    var rest := Align(t, i, j, found, ss);
    FindExtlang(t, j, rest);
    WhereTheyPart(found, rest, want, more, ss);
  }

  /** Where two ways to divide a list differ. */
  lemma WhereTheyPart(front: seq<string>, rest: seq<string>, want: seq<string>, more: seq<string>, ss: seq<string>)
    requires ss == want + more == front + rest
    ensures |front| < |want| ==> rest != [] && rest[0] == want[|front|]
    ensures |front| > |want| ==> more != [] && more[0] == front[|want|]
    ensures |front| == |want| ==> front == want && rest == more
  {
    assert want == ss[..|want|] && more == ss[|want|..] && front == ss[..|front|] && rest == ss[|front|..];
  }

  lemma CharacterAt(t: string, i: nat, ss: seq<string>, j: nat)
    requires Ahead(t, i, ss) && Clean(ss) && i <= j <= |t| && !Alnum(At(t, j))
    ensures j == |t| || t[j] == '-'
  {
    if j < |t| { CharactersAhead(t, i, ss, j); }
  }

  /** The scan ends inside the next subtag, after three letters of it and before something else. */
  lemma EndsInside(t: string, k: nat, j: nat, last: string, rest: seq<string>)
    requires Ahead(t, k, rest) && Clean(rest) && k + 4 == j <= |t| && t[k] == '-' && t[k + 1..j] == last && Extlang(last)
    requires Alnum(At(t, j)) && !Alpha(At(t, j))
    ensures rest != [] && T3(rest[0]) && |rest[0]| > 3
  {
    FindLetters(t, k, rest);
    Characters(t, k, rest);
    assert last[0] == t[k + 1] && last[1] == t[k + 2] && last[2] == t[k + 3];
  }

  /** What begins like an extended language subtag and is longer comes after the wanted ones. */
  lemma BeyondWanted(front: seq<string>, want: seq<string>, more: seq<string>, ss: seq<string>, rest: seq<string>)
    requires ss == want + more == front + rest
    requires forall k | 0 <= k < |want| :: Extlang(want[k])
    requires forall k | 0 <= k < |front| :: Extlang(front[k])
    requires more == [] || !Extlang(more[0])
    requires rest != [] && |rest[0]| > 3
    ensures rest == more
  {
    WhereTheyPart(front, rest, want, more, ss);
  }

  /** A fourth one is too many: it can only be the next subtag, which looks like one. */
  lemma FourthExtlang(t: string, i: nat, j: nat, found: seq<string>, want: seq<string>, more: seq<string>, ss: seq<string>)
    requires ss == want + more && Ahead(t, i, ss) && Clean(ss) && |want| <= 3 == |found|
    requires forall k | 0 <= k < |want| :: Extlang(want[k])
    requires more == [] || !Extlang(more[0])
    requires i <= j <= |t| && t[i..j] == Hyphened(found) && forall k | 0 <= k < |found| :: Extlang(found[k])
    requires ExtlangAt(t, j)
    ensures more != [] && T3(more[0])
  {
    var rest := Align(t, i, j, found, ss);
    FindExtlang(t, j, rest);
    WhereTheyPart(found, rest, want, more, ss);
  }

  /** A script: the next subtag, if it has four letters; if it only begins with four, the
      scan ends inside it. */
  lemma ScriptFits(t: string, i: nat, j: nat, found: Option<string>, ss: seq<string>)
    requires Ahead(t, i, ss) && Clean(ss)
    requires if ScriptAt(t, i) then j == i + 5 <= |t| && found == Some(t[i + 1..j]) else j == i && found == None
    ensures if ss != [] && T4(ss[0])
            then if |ss[0]| == 4 then found == Some(ss[0]) && Ahead(t, j, ss[1..]) else Alnum(At(t, j))
            else found == None && j == i
  {
    FindScript(t, i, ss);
    if ScriptAt(t, i) { TakeFour(t, i, j, ss, 4); }
  }

  lemma TakeFour(t: string, i: nat, j: nat, ss: seq<string>, n: nat)
    requires Ahead(t, i, ss) && Clean(ss) && ss != [] && 0 < n <= |ss[0]| && j == i + 1 + n
    ensures j <= |t| && if |ss[0]| == n then t[i + 1..j] == ss[0] && Ahead(t, j, ss[1..]) else Alnum(At(t, j))
  {
    if |ss[0]| == n { AheadNext(t, i, ss, j); } else { InsideSubtag(t, i, ss, j); }
  }

  lemma RegionFits(t: string, i: nat, j: nat, found: Option<string>, ss: seq<string>)
    requires Ahead(t, i, ss) && Clean(ss)
    requires if LettersAt(t, i) then j == i + 3 <= |t| && found == Some(t[i + 1..j])
             else if DigitsAt(t, i) then j == i + 4 <= |t| && found == Some(t[i + 1..j])
             else j == i && found == None
    ensures if ss != [] && (T2(ss[0]) || TD(ss[0]))
            then if |ss[0]| == (if T2(ss[0]) then 2 else 3) then found == Some(ss[0]) && Ahead(t, j, ss[1..]) else Alnum(At(t, j))
            else found == None && j == i
  {
    FindLetters(t, i, ss);
    if LettersAt(t, i) { TakeFour(t, i, j, ss, 2); } else if DigitsAt(t, i) { TakeFour(t, i, j, ss, 3); }
  }

  lemma FindVariant(t: string, i: nat, ss: seq<string>)
    requires Ahead(t, i, ss) && Clean(ss)
    ensures VariantAt(t, i) <==> ss != [] && (|ss[0]| >= 5 || (|ss[0]| >= 4 && Digit(ss[0][0])))
  {
    FindLong(t, i, ss, 5);
    FindLong(t, i, ss, 4);
    if ss != [] { FirstCharacters(t, i, ss, 1); }
  }

  /** The variants that were found are those that were wanted. */
  lemma VariantsFit(t: string, i: nat, j: nat, found: seq<string>, want: seq<string>, more: seq<string>, ss: seq<string>)
    requires ss == want + more && Ahead(t, i, ss) && Clean(ss)
    requires forall k | 0 <= k < |want| :: Variant(want[k])
    requires more == [] || |more[0]| == 1
    requires i <= j <= |t| && t[i..j] == Hyphened(found) && forall k | 0 <= k < |found| :: Variant(found[k])
    requires !VariantAt(t, j) && (if found == [] then j == i else !Alnum(At(t, j)))
    ensures found == want && Ahead(t, j, more)
  {
    var n := |found|;
    if n == 0 { FindLetters(t, i, ss); if ss == [] { AheadNone(t, i); } }
    CharacterAt(t, i, ss, j);
    var rest := Align(t, i, j, found, ss);
    FindVariant(t, j, rest);
    WhereTheyPart(found, rest, want, more, ss);
  }

  lemma PrivateFits(t: string, i: nat, j: nat, found: seq<string>, want: seq<string>)
    requires Ahead(t, i, want) && Clean(want)
    requires i <= j <= |t| && t[i..j] == Hyphened(found) && Clean(found)
    requires !(At(t, j) == '-' && Alnum(At(t, j + 1))) && (if found == [] then j == i else !Alnum(At(t, j)))
    ensures found == want && j == |t|
  {
    var n := |found|;
    if n == 0 { FindLetters(t, i, want); if want == [] { AheadNone(t, i); } }
    CharacterAt(t, i, want, j);
    var rest := Align(t, i, j, found, want);
    if rest == [] { AheadNone(t, j); } else { FirstCharacters(t, j, rest, 1); }
    assert n == |want|;
  }

  // ----- extensions -----

  ghost predicate Proper(extensions: seq<Extension>) {
    forall k | 0 <= k < |extensions| :: ProperExtension(extensions[k])
  }

  lemma Associate(a: seq<string>, b: seq<string>, c: seq<string>)
    ensures (a + b) + c == a + (b + c)
  {
  }

  lemma ExtensionsSnoc(some: seq<Extension>, e: Extension, all: seq<Extension>)
    requires all == some + [e]
    ensures ExtensionSubtags(all) == ExtensionSubtags(some) + ([[e.singleton]] + e.parts)
  {
    assert all[..|all| - 1] == some;
  }

  lemma {:induction false} ExtensionsConcat(a: seq<Extension>, b: seq<Extension>)
    ensures ExtensionSubtags(a + b) == ExtensionSubtags(a) + ExtensionSubtags(b)
    decreases |b|
  {
    if b == [] {
      assert a + b == a;
    } else {
      var k := |b| - 1;
      ExtensionsConcat(a, b[..k]);
      ExtensionsSnoc(a + b[..k], b[k], a + b);
      ExtensionsSnoc(b[..k], b[k], b);
      Associate(ExtensionSubtags(a), ExtensionSubtags(b[..k]), [[b[k].singleton]] + b[k].parts);
    }
  }

  lemma ExtensionsCons(e: Extension, more: seq<Extension>, all: seq<Extension>)
    requires all == [e] + more
    ensures ExtensionSubtags(all) == [[e.singleton]] + (e.parts + ExtensionSubtags(more))
  {
    ExtensionsConcat([e], more);
    assert [e][..0] == [];
  }

  lemma {:induction false} ExtensionsClean(extensions: seq<Extension>)
    requires Proper(extensions)
    ensures Clean(ExtensionSubtags(extensions))
    ensures extensions != [] ==> ExtensionSubtags(extensions) != [] && |ExtensionSubtags(extensions)[0]| == 1
    decreases |extensions|
  {
    if extensions != [] {
      var e, more := extensions[0], extensions[1..];
      assert ProperExtension(e) && extensions == [e] + more;
      ExtensionsCons(e, more, extensions);
      ExtensionsClean(more);
      assert Clean([[e.singleton]]) && Clean(e.parts);
      CleanConcat(e.parts, ExtensionSubtags(more));
      CleanConcat([[e.singleton]], e.parts + ExtensionSubtags(more));
    }
  }

  lemma CleanConcat(a: seq<string>, b: seq<string>)
    ensures Clean(a + b) <==> Clean(a) && Clean(b)
  {
    if Clean(a + b) {
      forall k | 0 <= k < |a| ensures 1 <= |a[k]| <= 8 && All(a[k], Alnum) { assert (a + b)[k] == a[k]; }
      forall k | 0 <= k < |b| ensures 1 <= |b[k]| <= 8 && All(b[k], Alnum) { assert (a + b)[|a| + k] == b[k]; }
    }
  }

  /** Here no part of an extension begins. */
  ghost predicate NoPart(ss: seq<string>) {
    ss == [] || |ss[0]| == 1
  }

  ghost predicate Parts(parts: seq<string>) {
    forall k | 0 <= k < |parts| :: |parts[k]| >= 2
  }

  lemma SameParts(p: seq<string>, a: seq<string>, q: seq<string>, b: seq<string>)
    requires p + a == q + b && Parts(p) && Parts(q) && NoPart(a) && NoPart(b)
    ensures p == q && a == b
  {
    WhereTheyPart(p, a, q, b, p + a);
  }

  /** One list of subtags is divided into extensions in one way only. */
  lemma {:induction false} SameExtensions(a: seq<Extension>, r: seq<string>, b: seq<Extension>, s: seq<string>)
    requires Proper(a) && Proper(b) && NoPart(r) && NoPart(s) && (s == [] || IsX(s[0][0]))
    requires ExtensionSubtags(a) + r == ExtensionSubtags(b) + s
    ensures |a| <= |b| && a == b[..|a|] && r == ExtensionSubtags(b[|a|..]) + s
    decreases |a|
  {
    if a == [] {
      assert b[|a|..] == b && r == ExtensionSubtags(a) + r;
    } else {
      var more, rest := SameFirst(a, r, b, s);
      SameExtensions(more, r, rest, s);
      assert b[|a|..] == rest[|more|..] && b[..|a|] == [a[0]] + rest[..|more|];
    }
  }

  lemma SameFirst(a: seq<Extension>, r: seq<string>, b: seq<Extension>, s: seq<string>)
    returns (more: seq<Extension>, rest: seq<Extension>)
    requires Proper(a) && Proper(b) && NoPart(r) && NoPart(s) && (s == [] || IsX(s[0][0])) && a != []
    requires ExtensionSubtags(a) + r == ExtensionSubtags(b) + s
    ensures a == [a[0]] + more && b == [a[0]] + rest && Proper(more) && Proper(rest)
    ensures ExtensionSubtags(more) + r == ExtensionSubtags(rest) + s
  {
    var ss := ExtensionSubtags(a) + r;
    var e, f, tail, tail';
    e, more, tail := Unfold(a, r, ss);
    NotEmpty(b, s, ss);
    f, rest, tail' := Unfold(b, s, ss);
    ConsParts(e.singleton, e.parts, tail, f.singleton, f.parts, tail');
    SameParts(e.parts, tail, f.parts, tail');
    assert f == e;
  }

  lemma Unfold(a: seq<Extension>, r: seq<string>, ss: seq<string>)
    returns (e: Extension, more: seq<Extension>, tail: seq<string>)
    requires a != [] && Proper(a) && NoPart(r) && ss == ExtensionSubtags(a) + r
    ensures a == [e] + more && e == a[0] && ProperExtension(e) && Proper(more) && Parts(e.parts)
    ensures tail == ExtensionSubtags(more) + r && NoPart(tail)
    ensures ss == [[e.singleton]] + (e.parts + tail) && ss[0] == [e.singleton]
  {
    e, more := a[0], a[1..];
    tail := ExtensionSubtags(more) + r;
    assert a == [e] + more && ProperExtension(e);
    ExtensionsCons(e, more, a);
    ExtensionsClean(more);
    Reassociate([[e.singleton]], e.parts, ExtensionSubtags(more), r);
  }

  lemma NotEmpty(b: seq<Extension>, s: seq<string>, ss: seq<string>)
    requires ss == ExtensionSubtags(b) + s && ss != [] && ss[0] != [] && !IsX(ss[0][0])
    requires s == [] || (s[0] != [] && IsX(s[0][0]))
    ensures b != []
  {
  }

  lemma Reassociate(a: seq<string>, b: seq<string>, c: seq<string>, d: seq<string>)
    ensures (a + (b + c)) + d == a + (b + (c + d))
  {
  }

  lemma ConsParts(c: char, p: seq<string>, a: seq<string>, d: char, q: seq<string>, b: seq<string>)
    requires [[c]] + (p + a) == [[d]] + (q + b)
    ensures c == d && p + a == q + b
  {
    var u, v := [[c]] + (p + a), [[d]] + (q + b);
    assert u[0] == v[0] && u[1..] == p + a && v[1..] == q + b;
  }

  /** The extensions that were found are those that were wanted. */
  lemma ExtensionsFit(t: string, i: nat, j: nat, found: seq<Extension>, want: seq<Extension>, more: seq<string>, ss: seq<string>)
    requires ss == ExtensionSubtags(want) + more && Ahead(t, i, ss) && Clean(ss) && Proper(want) && Proper(found)
    requires more == [] || (|more[0]| == 1 && IsX(more[0][0]))
    requires i <= j <= |t| && t[i..j] == Hyphened(ExtensionSubtags(found))
    requires !ExtensionAt(t, j) && (if found == [] then j == i else !Alnum(At(t, j)) && !PartAt(t, j))
    ensures found == want && Ahead(t, j, more)
  {
    var rest := ExtensionsAlign(t, i, j, found, want, more, ss);
    FindPart(t, j, rest);
    AfterLast(found, want, more, rest);
  }

  lemma AfterLast(found: seq<Extension>, want: seq<Extension>, more: seq<string>, rest: seq<string>)
    requires Proper(want) && |found| <= |want| && found == want[..|found|] && rest == ExtensionSubtags(want[|found|..]) + more
    ensures |found| < |want| ==> |rest| >= 2 && |rest[0]| == 1 && !IsX(rest[0][0]) && |rest[1]| >= 2
    ensures |found| == |want| ==> found == want && rest == more
  {
    if |found| < |want| {
      var left := want[|found|..];
      assert ProperExtension(want[|found|]) && left == [left[0]] + left[1..] && left[0] == want[|found|];
      ExtensionsCons(left[0], left[1..], left);
    }
  }

  lemma ExtensionsAlign(t: string, i: nat, j: nat, found: seq<Extension>, want: seq<Extension>, more: seq<string>, ss: seq<string>)
    returns (rest: seq<string>)
    requires ss == ExtensionSubtags(want) + more && Ahead(t, i, ss) && Clean(ss) && Proper(want) && Proper(found)
    requires more == [] || (|more[0]| == 1 && IsX(more[0][0]))
    requires i <= j <= |t| && t[i..j] == Hyphened(ExtensionSubtags(found))
    requires if found == [] then j == i else !Alnum(At(t, j)) && !PartAt(t, j)
    ensures Ahead(t, j, rest) && Clean(rest) && |found| <= |want| && found == want[..|found|]
    ensures rest == ExtensionSubtags(want[|found|..]) + more
  {
    var e := ExtensionSubtags(found);
    ExtensionsClean(found);
    ExtensionsClean(want);
    BetweenSubtags(t, i, ss);
    CharacterAt(t, i, ss, j);
    rest := Align(t, i, j, e, ss);
    FindPart(t, j, rest);
    if found == [] { assert e == [] && rest == ss; }
    SameExtensions(found, rest, want, more);
  }

  /** Every extension has a part. */
  lemma NoneIsEmpty(t: string, i: nat, j: nat, found: seq<Extension>, want: seq<Extension>, more: seq<string>,
                    ss: seq<string>, part: nat)
    requires ss == ExtensionSubtags(want) + more && Ahead(t, i, ss) && Clean(ss) && Proper(want) && Proper(found)
    requires more == [] || (|more[0]| == 1 && IsX(more[0][0]))
    requires i <= j <= |t| && t[i..j] == Hyphened(ExtensionSubtags(found))
    requires if found == [] then j == i else !Alnum(At(t, j)) && !PartAt(t, j)
    requires ExtensionAt(t, j) && part == j + 2
    ensures PartAt(t, part)
  {
    var rest := ExtensionsAlign(t, i, j, found, want, more, ss);
    FindPart(t, j, rest);
    AheadNext(t, j, rest, part);
    FindPart(t, part, rest[1..]);
    AfterLast(found, want, more, rest);
  }

  // ----- the whole tag -----

  function After4(w: Tag, x: char): seq<string> { ExtensionSubtags(w.extensions) + Introduce(w.privateuse, x) }
  function After3(w: Tag, x: char): seq<string> { w.variants + After4(w, x) }
  function After2(w: Tag, x: char): seq<string> { List(w.region) + After3(w, x) }
  function After1(w: Tag, x: char): seq<string> { List(w.script) + After2(w, x) }

  /** Everything after the language. */
  function After0(w: Tag, x: char): seq<string> { w.extlangs + After1(w, x) }

  /** The scanner takes the beginning of the first variant for an extended language subtag, a
      script or a region: it stands where one of these could, and begins with as many
      letters or digits as these have, and no more. */
  ghost predicate Misread(w: Tag) {
    MisreadAs(w, true, true, true)
  }

  ghost predicate MisreadAs(w: Tag, extlang: bool, script: bool, region: bool) {
    && w.language.Some? && w.region == None && w.variants != []
    && var v := w.variants[0];
       || (region && (T2(v) || TD(v)))
       || (w.script == None && ((script && T4(v)) || (extlang && |w.language.value| <= 3 && T3(v))))
  }

  /** Such a variant: two letters and a digit look like a region. */
  lemma MisreadVariant(digits: string)
    requires 3 <= |digits| <= 6 && All(digits, Digit)
    ensures var w := Tag(Some("pt"), [], None, None, ["ao" + digits], [], []); WellFormed(w) && Misread(w)
  {
    var v := "ao" + digits;
    assert v[2] == digits[0];
    forall i | 0 <= i < |v| ensures Alnum(v[i]) {
      if i >= 2 { assert v[i] == digits[i - 2]; }
    }
  }

  lemma AfterLanguage(w: Tag, x: char)
    ensures Rest(w) + Introduce(w.privateuse, x) == After0(w, x)
  {
  }

  lemma CleanList(o: Option<string>)
    requires o.Some? ==> 1 <= |o.value| <= 8 && All(o.value, Alnum)
    ensures Clean(List(o))
  {
  }

  lemma CleanAfter(w: Tag, x: char)
    requires WellFormed(w) && IsX(x)
    ensures Clean(After0(w, x)) && Clean(After1(w, x)) && Clean(After2(w, x)) && Clean(After3(w, x)) && Clean(After4(w, x))
    ensures NoPart(After4(w, x)) && NoPart(Introduce(w.privateuse, x))
  {
    CleanEnd(w, x);
    CleanConcat(w.variants, After4(w, x));
    CleanList(w.region);
    CleanConcat(List(w.region), After3(w, x));
    CleanList(w.script);
    CleanConcat(List(w.script), After2(w, x));
    CleanConcat(w.extlangs, After1(w, x));
  }

  lemma CleanEnd(w: Tag, x: char)
    requires WellFormed(w) && IsX(x)
    ensures Clean(After4(w, x)) && NoPart(After4(w, x)) && NoPart(Introduce(w.privateuse, x))
  {
    ExtensionsClean(w.extensions);
    CleanConcat([[x]], w.privateuse);
    CleanConcat(ExtensionSubtags(w.extensions), Introduce(w.privateuse, x));
  }

  /** What comes next, where nothing of the kind that is looked for is meant. */
  lemma ComesNext(w: Tag, x: char)
    requires WellFormed(w) && IsX(x)
    ensures var next := After3(w, x);
      && (w.variants == [] ==> NoPart(next))
      && (w.variants != [] ==> next != [] && next[0] == w.variants[0])
    ensures w.region.Some? ==> After2(w, x) == [w.region.value] + After3(w, x)
    ensures w.region.None? ==> After2(w, x) == After3(w, x)
    ensures w.script.Some? ==> After1(w, x) == [w.script.value] + After2(w, x)
    ensures w.script.None? ==> After1(w, x) == After2(w, x)
  {
    CleanAfter(w, x);
  }

  lemma NextShapes(w: Tag, x: char)
    requires WellFormed(w) && IsX(x) && w.language.Some?
    ensures After1(w, x) == [] || !Extlang(After1(w, x)[0])
    ensures |w.language.value| <= 3 && After1(w, x) != [] && T3(After1(w, x)[0]) <==> MisreadAs(w, true, false, false)
    ensures w.script.None? && After1(w, x) != [] && T4(After1(w, x)[0]) <==> MisreadAs(w, false, true, false)
    ensures w.region.None? && After2(w, x) != [] && (T2(After2(w, x)[0]) || TD(After2(w, x)[0])) <==>
            MisreadAs(w, false, false, true)
  {
    ComesNext(w, x);
    if w.region.Some? { RegionShape(w.region.value); }
  }

  lemma RegionShape(r: string)
    requires Region(r)
    ensures !Extlang(r) && !T3(r) && !T4(r) && if |r| == 2 then T2(r) else |r| == 3 && TD(r) && !T2(r)
  {
    assert Alpha(r[0]) || Digit(r[0]);
  }

  /** After the extended language subtags. */
  lemma AfterExtlangs(w: Tag, x: char, t: string, i: nat, j: nat, found: seq<string>)
    requires WellFormed(w) && IsX(x) && w.language.Some? && |w.language.value| <= 3 && Ahead(t, i, After0(w, x))
    requires i <= j <= |t| && t[i..j] == Hyphened(found) && forall k | 0 <= k < |found| :: Extlang(found[k])
    requires !ExtlangAt(t, j) && (if found == [] then j == i else !Alpha(At(t, j)))
    ensures if MisreadAs(w, true, false, false) then Alnum(At(t, j)) else found == w.extlangs && Ahead(t, j, After1(w, x))
  {
    var more, ss := After1(w, x), After0(w, x);
    assert Clean(ss) by { CleanAfter(w, x); }
    assert |w.language.value| <= 3;
    NextShapes(w, x);
    ExtlangsFit(t, i, j, found, w.extlangs, more, ss);
  }

  lemma OneExtlangTooMany(w: Tag, x: char, t: string, i: nat, j: nat, found: seq<string>)
    requires WellFormed(w) && IsX(x) && w.language.Some? && |w.language.value| <= 3 && Ahead(t, i, After0(w, x))
    requires i <= j <= |t| && t[i..j] == Hyphened(found) && forall k | 0 <= k < |found| :: Extlang(found[k])
    requires ExtlangAt(t, j) && |found| == 3
    ensures Misread(w)
  {
    CleanAfter(w, x);
    NextShapes(w, x);
    FourthExtlang(t, i, j, found, w.extlangs, After1(w, x), After0(w, x));
  }

  lemma AfterScript(w: Tag, x: char, t: string, i: nat, j: nat, found: Option<string>)
    requires WellFormed(w) && IsX(x) && w.language.Some?
    requires if MisreadAs(w, true, false, false) then Alnum(At(t, i)) else Ahead(t, i, After1(w, x))
    requires if ScriptAt(t, i) then j == i + 5 <= |t| && found == Some(t[i + 1..j]) else j == i && found == None
    ensures if MisreadAs(w, true, true, false) then Alnum(At(t, j)) else found == w.script && Ahead(t, j, After2(w, x))
  {
    if !MisreadAs(w, true, false, false) {
      CleanAfter(w, x);
      if w.script.Some? {
        ComesNext(w, x);
        ScriptMeant(t, i, j, found, w.script.value, After2(w, x), After1(w, x));
      } else {
        AfterNoScript(w, x, t, i, j, found);
      }
    }
  }

  lemma AfterNoScript(w: Tag, x: char, t: string, i: nat, j: nat, found: Option<string>)
    requires WellFormed(w) && IsX(x) && w.language.Some? && w.script.None? && Ahead(t, i, After1(w, x))
    requires if ScriptAt(t, i) then j == i + 5 <= |t| && found == Some(t[i + 1..j]) else j == i && found == None
    ensures if MisreadAs(w, false, true, false) then Alnum(At(t, j)) else found == None && Ahead(t, j, After2(w, x))
  {
    CleanAfter(w, x);
    NextShapes(w, x);
    ScriptLength(w, x);
    NoScriptMeant(t, i, j, found, After1(w, x));
    assert After1(w, x) == After2(w, x);
  }

  lemma ScriptMeant(t: string, i: nat, j: nat, found: Option<string>, script: string, more: seq<string>, ss: seq<string>)
    requires ss == [script] + more && Script(script) && Ahead(t, i, ss) && Clean(ss)
    requires if ScriptAt(t, i) then j == i + 5 <= |t| && found == Some(t[i + 1..j]) else j == i && found == None
    ensures found == Some(script) && Ahead(t, j, more)
  {
    ScriptFits(t, i, j, found, ss);
    assert ss[1..] == more;
  }

  lemma NoScriptMeant(t: string, i: nat, j: nat, found: Option<string>, ss: seq<string>)
    requires Ahead(t, i, ss) && Clean(ss) && (ss != [] && T4(ss[0]) ==> |ss[0]| > 4)
    requires if ScriptAt(t, i) then j == i + 5 <= |t| && found == Some(t[i + 1..j]) else j == i && found == None
    ensures if ss != [] && T4(ss[0]) then Alnum(At(t, j)) else found == None && Ahead(t, j, ss)
  {
    ScriptFits(t, i, j, found, ss);
  }

  /** Where no script is meant, what begins with four letters is longer. */
  lemma ScriptLength(w: Tag, x: char)
    requires WellFormed(w) && IsX(x) && w.script.None?
    ensures var next := After1(w, x); next != [] && T4(next[0]) ==> |next[0]| > 4
  {
    ComesNext(w, x);
  }

  lemma AfterRegion(w: Tag, x: char, t: string, i: nat, j: nat, found: Option<string>)
    requires WellFormed(w) && IsX(x) && w.language.Some?
    requires if MisreadAs(w, true, true, false) then Alnum(At(t, i)) else Ahead(t, i, After2(w, x))
    requires if LettersAt(t, i) then j == i + 3 <= |t| && found == Some(t[i + 1..j])
             else if DigitsAt(t, i) then j == i + 4 <= |t| && found == Some(t[i + 1..j])
             else j == i && found == None
    ensures if Misread(w) then Alnum(At(t, j)) else found == w.region && Ahead(t, j, After3(w, x))
  {
    if !MisreadAs(w, true, true, false) {
      CleanAfter(w, x);
      if w.region.Some? {
        ComesNext(w, x);
        RegionMeant(t, i, j, found, w.region.value, After3(w, x), After2(w, x));
      } else {
        AfterNoRegion(w, x, t, i, j, found);
      }
    }
  }

  lemma AfterNoRegion(w: Tag, x: char, t: string, i: nat, j: nat, found: Option<string>)
    requires WellFormed(w) && IsX(x) && w.language.Some? && w.region.None? && Ahead(t, i, After2(w, x))
    requires if LettersAt(t, i) then j == i + 3 <= |t| && found == Some(t[i + 1..j])
             else if DigitsAt(t, i) then j == i + 4 <= |t| && found == Some(t[i + 1..j])
             else j == i && found == None
    ensures if MisreadAs(w, false, false, true) then Alnum(At(t, j)) else found == None && Ahead(t, j, After3(w, x))
  {
    CleanAfter(w, x);
    NextShapes(w, x);
    assert After2(w, x) == After3(w, x);
    VariantLength(w, x);
    NoRegionMeant(t, i, j, found, After2(w, x));
  }

  lemma RegionMeant(t: string, i: nat, j: nat, found: Option<string>, r: string, more: seq<string>, ss: seq<string>)
    requires ss == [r] + more && Region(r) && Ahead(t, i, ss) && Clean(ss)
    requires if LettersAt(t, i) then j == i + 3 <= |t| && found == Some(t[i + 1..j])
             else if DigitsAt(t, i) then j == i + 4 <= |t| && found == Some(t[i + 1..j])
             else j == i && found == None
    ensures found == Some(r) && Ahead(t, j, more)
  {
    RegionFits(t, i, j, found, ss);
    RegionShape(r);
    assert ss[1..] == more;
  }

  lemma NoRegionMeant(t: string, i: nat, j: nat, found: Option<string>, ss: seq<string>)
    requires Ahead(t, i, ss) && Clean(ss) && (ss != [] && (T2(ss[0]) || TD(ss[0])) ==> |ss[0]| > 3)
    requires if LettersAt(t, i) then j == i + 3 <= |t| && found == Some(t[i + 1..j])
             else if DigitsAt(t, i) then j == i + 4 <= |t| && found == Some(t[i + 1..j])
             else j == i && found == None
    ensures if ss != [] && (T2(ss[0]) || TD(ss[0])) then Alnum(At(t, j)) else found == None && Ahead(t, j, ss)
  {
    RegionFits(t, i, j, found, ss);
  }

  /** Where no region is meant, a variant comes next, or something of one character. */
  lemma VariantLength(w: Tag, x: char)
    requires WellFormed(w) && IsX(x) && w.region.None?
    ensures var next := After3(w, x); next != [] && (T2(next[0]) || TD(next[0])) ==>
              |next[0]| > 3 && w.variants != [] && next[0] == w.variants[0]
  {
    ComesNext(w, x);
  }

  /** Inside a subtag nothing is found. */
  lemma StaysInside(t: string, i: nat, j: nat, found: seq<string>)
    requires i <= j <= |t| && t[i..j] == Hyphened(found) && Alnum(At(t, i))
    ensures found == [] && j == i
  {
    HyphenedEmpty(found);
    StartsWithHyphen(found, t[i..j]);
    FirstOf(t, i, j);
  }

  lemma FirstOf(t: string, i: nat, j: nat)
    requires i <= j <= |t|
    ensures i < j ==> t[i..j][0] == At(t, i)
  {
  }

  lemma StartsWithHyphen(found: seq<string>, text: string)
    requires text == Hyphened(found)
    ensures found != [] ==> text != "" && text[0] == '-'
  {
    if found != [] { HyphenedCons(found[0], found[1..], found); }
  }

  lemma AfterVariants(w: Tag, x: char, t: string, i: nat, j: nat, found: seq<string>)
    requires WellFormed(w) && IsX(x)
    requires if Misread(w) then Alnum(At(t, i)) else Ahead(t, i, After3(w, x))
    requires i <= j <= |t| && t[i..j] == Hyphened(found) && forall k | 0 <= k < |found| :: Variant(found[k])
    requires !VariantAt(t, j) && (if found == [] then j == i else !Alnum(At(t, j)))
    ensures if Misread(w) then Alnum(At(t, j)) else found == w.variants && Ahead(t, j, After4(w, x))
  {
    if Misread(w) {
      StaysInside(t, i, j, found);
    } else {
      CleanAfter(w, x);
      VariantsFit(t, i, j, found, w.variants, After4(w, x), After3(w, x));
    }
  }

  lemma AfterExtensions(w: Tag, x: char, t: string, i: nat, j: nat, found: seq<Extension>)
    requires WellFormed(w) && IsX(x) && Proper(found)
    requires if Misread(w) then Alnum(At(t, i)) else Ahead(t, i, After4(w, x))
    requires i <= j <= |t| && t[i..j] == Hyphened(ExtensionSubtags(found))
    requires !ExtensionAt(t, j) && (if found == [] then j == i else !Alnum(At(t, j)) && !PartAt(t, j))
    ensures if Misread(w) then Alnum(At(t, j)) else found == w.extensions && Ahead(t, j, Introduce(w.privateuse, x))
  {
    if Misread(w) {
      StaysInside(t, i, j, ExtensionSubtags(found));
    } else {
      CleanAfter(w, x);
      ExtensionsFit(t, i, j, found, w.extensions, Introduce(w.privateuse, x), After4(w, x));
    }
  }

  /** No subtag that is too long, and no empty extension, is found in a tag that follows the grammar. */
  lemma NothingTooLong(w: Tag, x: char, t: string, i: nat, place: nat)
    requires WellFormed(w) && IsX(x) && (Ahead(t, i, After3(w, x)) || Ahead(t, i, After4(w, x)))
    requires i <= place && LongAt(t, place, 9)
    ensures false
  {
    CleanAfter(w, x);
    if Ahead(t, i, After3(w, x)) {
      NoneIsLong(t, i, After3(w, x), place);
    } else {
      NoneIsLong(t, i, After4(w, x), place);
    }
  }

  lemma NoExtensionEmpty(w: Tag, x: char, t: string, i: nat, j: nat, found: seq<Extension>, part: nat)
    requires WellFormed(w) && IsX(x) && Proper(found) && Ahead(t, i, After4(w, x))
    requires i <= j <= |t| && t[i..j] == Hyphened(ExtensionSubtags(found))
    requires ExtensionAt(t, j) && (if found == [] then j == i else !Alnum(At(t, j)) && !PartAt(t, j))
    requires part == j + 2
    ensures PartAt(t, part)
  {
    CleanAfter(w, x);
    NoneIsEmpty(t, i, j, found, w.extensions, Introduce(w.privateuse, x), After4(w, x), part);
  }

  /** Where the language of a written tag ends. */
  lemma LanguageEnds(w: Tag, x: char, t: string, n: nat)
    requires WellFormed(w) && IsX(x) && w.language.Some? && t == Join(Subtags(w, x)) && n == |w.language.value|
    ensures n <= |t| && t[..n] == w.language.value && Ahead(t, n, After0(w, x)) && !Alpha(At(t, n))
  {
    AfterLanguage(w, x);
    JoinFirst(w.language.value, After0(w, x), Subtags(w, x));
    CleanAfter(w, x);
    BetweenSubtags(t, n, After0(w, x));
  }

  lemma PrivateOnly(w: Tag, x: char, t: string)
    requires WellFormed(w) && IsX(x) && w.language.None? && w.privateuse != [] && t == Join(Subtags(w, x))
    ensures |t| > 1 && t[0] == x && t[1] == '-' && Ahead(t, 1, w.privateuse)
  {
    assert Subtags(w, x) == [[x]] + w.privateuse;
    JoinFirst([x], w.privateuse, Subtags(w, x));
    HyphenedCons(w.privateuse[0], w.privateuse[1..], w.privateuse);
  }

  /** Private use, after everything else. */
  lemma Introducer(t: string, i: nat, parts: seq<string>, x: char, start: nat)
    requires IsX(x) && Clean(parts) && Ahead(t, i, Introduce(parts, x)) && start == i + 2
    ensures parts == [] ==> i == |t| && At(t, i) != '-'
    ensures parts != [] ==> At(t, i) == '-' && At(t, i + 1) == x && start <= |t| && Ahead(t, start, parts)
  {
    if parts == [] {
      AheadNone(t, i);
    } else {
      var ss := Introduce(parts, x);
      CleanConcat([[x]], parts);
      AheadNext(t, i, ss, start);
      assert ss[1..] == parts && ss[0] == [x];
      FirstCharacters(t, i, ss, 1);
    }
  }

  // ----- what scanning makes of a tag -----

  /** A written tag, at the end of its language. */
  ghost predicate Follows(w: Tag, x: char, t: string, start: nat) {
    && WellFormed(w) && IsX(x) && start <= |t| && w.language == Some(t[..start]) && Ahead(t, start, After0(w, x))
  }

  /** Up to the region everything is found, or the scan has failed or is inside a subtag. */
  ghost predicate FoundFront(w: Tag, x: char, t: string, failed: bool, i: nat, extlangs: seq<string>,
                             script: Option<string>, region: Option<string>)
  {
    if Misread(w) then failed || Alnum(At(t, i))
    else !failed && extlangs == w.extlangs && script == w.script && region == w.region && Ahead(t, i, After3(w, x))
  }

  /** Up to private use everything is found, or the scan has failed or is inside a subtag. */
  ghost predicate Found(w: Tag, x: char, t: string, failed: bool, i: nat, tag: Tag) {
    if Misread(w) then failed || Alnum(At(t, i))
    else !failed && tag == w.(privateuse := []) && Ahead(t, i, Introduce(w.privateuse, x))
  }

  lemma FoundBack(w: Tag, x: char, t: string, i: nat, j: nat, variants: seq<string>, extensions: seq<Extension>,
                  before: Tag, tag: Tag)
    requires WellFormed(w) && w.language == before.language && before.privateuse == []
    requires FoundFront(w, x, t, false, i, before.extlangs, before.script, before.region)
    requires if Misread(w) then Alnum(At(t, j))
             else variants == w.variants && extensions == w.extensions && Ahead(t, j, Introduce(w.privateuse, x))
    requires tag == before.(variants := variants, extensions := extensions)
    ensures Found(w, x, t, false, j, tag)
  {
  }

  /** A failure after the region only happens to a tag that was misread. */
  lemma FailedBack(w: Tag, x: char, t: string, i: nat, place: nat, tag: Tag)
    requires WellFormed(w) && IsX(x) && i <= place && LongAt(t, place, 9)
    requires if Misread(w) then Alnum(At(t, i)) else Ahead(t, i, After3(w, x)) || Ahead(t, i, After4(w, x))
    ensures Found(w, x, t, true, i, tag)
  {
    if !Misread(w) { NothingTooLong(w, x, t, i, place); }
  }
}
