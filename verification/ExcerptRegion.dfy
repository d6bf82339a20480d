/** The excerpt picker of the search worker: a sliding sum over the scores of the words, and
    the middle of the stretch of its maxima. */
module ExcerptRegion {

  /** A matched word: where it is and how much it weighs. */
  datatype Hit = Hit(location: nat, score: real)

  // ----- the scores of the words -----

  function ScoreAt(hits: seq<Hit>, i: nat): real {
    if hits == [] then 0.0
    else
      var last := hits[|hits| - 1];
      ScoreAt(hits[..|hits| - 1], i) + if last.location == i then last.score else 0.0
  }

  /** What hits weigh at a word adds up, and a hit weighs only where it is. */
  lemma {:induction false} ScoresAddUp(a: seq<Hit>, b: seq<Hit>, i: nat)
    ensures ScoreAt(a + b, i) == ScoreAt(a, i) + ScoreAt(b, i)
    ensures forall h :: ScoreAt([h], i) == if h.location == i then h.score else 0.0
    decreases |b|
  {
    if b == [] {
      assert a + b == a;
    } else {
      var k := |b| - 1;
      assert (a + b)[..|a| + k] == a + b[..k];
      ScoresAddUp(a, b[..k], i);
    }
  }

  /** One past the last matched word. */
  function Extent(hits: seq<Hit>): nat {
    if hits == [] then 0
    else
      var rest, last := Extent(hits[..|hits| - 1]), hits[|hits| - 1].location;
      if last < rest then rest else last + 1
  }

  function Scores(hits: seq<Hit>): (words: seq<real>)
    ensures |words| == Extent(hits)
    ensures forall i | 0 <= i < |words| :: words[i] == ScoreAt(hits, i)
  {
    seq(Extent(hits), i requires 0 <= i => ScoreAt(hits, i))
  }

  lemma {:induction false} NoScoreBeyond(hits: seq<Hit>, i: nat)
    requires i >= Extent(hits)
    ensures ScoreAt(hits, i) == 0.0
    decreases |hits|
  {
    if hits != [] { NoScoreBeyond(hits[..|hits| - 1], i); }
  }

  /** The array grows up to the location of each hit and sums up the scores there. */
  method SumScores(hits: seq<Hit>) returns (words: seq<real>)
    ensures words == Scores(hits)
  {
    words := [];
    for k := 0 to |hits|
      invariant words == Scores(hits[..k])
    {
      var hit := hits[k];
      assert hits[..k + 1][..k] == hits[..k];
      ghost var before := words;
      if |words| <= hit.location {
        words := words + seq(hit.location + 1 - |words|, _ => 0.0);
      }
      words := words[hit.location := words[hit.location] + hit.score];
      forall i | 0 <= i < |words| ensures words[i] == ScoreAt(hits[..k + 1], i) {
        if i >= |before| { NoScoreBeyond(hits[..k], i); }
      }
    }
    assert hits[..|hits|] == hits;
  }

  // ----- windows -----

  function At(words: seq<real>, i: nat): real {
    if i < |words| then words[i] else 0.0
  }

  /** The sum of the words from `lo` up to `hi`. */
  function Sum(words: seq<real>, lo: nat, hi: nat): real
    decreases hi
  {
    if hi <= lo then 0.0 else Sum(words, lo, hi - 1) + At(words, hi - 1)
  }

  function Window(words: seq<real>, length: nat, start: nat): real {
    Sum(words, start, start + length)
  }

  lemma {:induction false} SumFromTheFront(words: seq<real>, lo: nat, hi: nat)
    requires lo < hi
    ensures Sum(words, lo, hi) == At(words, lo) + Sum(words, lo + 1, hi)
    decreases hi
  {
    if lo + 1 < hi { SumFromTheFront(words, lo, hi - 1); }
  }

  lemma Slide(words: seq<real>, length: nat, start: nat)
    ensures Window(words, length, start + 1)
         == Window(words, length, start) + (At(words, start + length) - At(words, start))
  {
    SumFromTheFront(words, start, start + length + 1);
  }

  // ----- the region -----

  /** The first of the heaviest windows that start at or before `limit`. */
  function FirstPeak(words: seq<real>, length: nat, limit: nat): (f: nat)
    ensures f <= limit
    decreases limit
  {
    if limit == 0 then 0
    else
      var f := FirstPeak(words, length, limit - 1);
      if Window(words, length, limit) > Window(words, length, f) then limit else f
  }

  /** How many windows from `start` to `limit` weigh `weight` in a row. */
  function Run(words: seq<real>, length: nat, weight: real, start: nat, limit: nat): nat
    decreases limit + 1 - start
  {
    if start > limit || Window(words, length, start) != weight then 0
    else 1 + Run(words, length, weight, start + 1, limit)
  }

  /** Where the excerpt is to start. The windows are labelled one too low, except for the
      window at 0, which has its own label and the window at 2 for its neighbour. */
  function Region(words: seq<real>, length: nat): nat {
    if |words| <= length then 0
    else Middle(words, length, FirstPeak(words, length, |words|), |words|)
  }

  function Middle(words: seq<real>, length: nat, f: nat, limit: nat): nat {
    var weight := Window(words, length, f);
    if f == 0 then (Run(words, length, weight, 2, limit) + 1) / 2
    else f - 1 + Run(words, length, weight, f, limit) / 2
  }

  lemma {:induction false} RunExtends(words: seq<real>, length: nat, weight: real, start: nat, limit: nat)
    ensures var run := Run(words, length, weight, start, limit);
      && (start <= limit + 1 ==> run <= limit + 1 - start)
      && Run(words, length, weight, start, limit + 1) ==
         if start + run == limit + 1 && Window(words, length, limit + 1) == weight then run + 1 else run
    decreases limit + 1 - start
  {
    if start <= limit && Window(words, length, start) == weight {
      RunExtends(words, length, weight, start + 1, limit);
    }
  }

  /** What `densest_at` holds after the windows up to `limit`. */
  ghost predicate Labels(words: seq<real>, length: nat, labels: seq<nat>, f: nat, limit: nat) {
    var weight := Window(words, length, f);
    && |labels| == (if f == 0 then 1 + Run(words, length, weight, 2, limit) else Run(words, length, weight, f, limit))
    && |labels| > 0
    && forall j | 0 <= j < |labels| :: labels[j] == j + if f == 0 then 0 else f - 1
  }

  lemma LabelsExtend(words: seq<real>, length: nat, labels: seq<nat>, f: nat, i: nat, next: seq<nat>)
    requires Labels(words, length, labels, f, i) && f == FirstPeak(words, length, i)
    requires var w, weight := Window(words, length, i + 1), Window(words, length, f);
      next == if w > weight then [i]
              else if w == weight && labels[|labels| - 1] == i - 1 then labels + [i]
              else labels
    ensures Labels(words, length, next, FirstPeak(words, length, i + 1), i + 1)
  {
    var weight := Window(words, length, f);
    RunExtends(words, length, weight, if f == 0 then 2 else f, i);
  }

  /** `calculate_excerpt_region`. */
  method CalculateRegion(hits: seq<Hit>, length: nat) returns (mid: nat)
    ensures mid == Region(Scores(hits), length)
  {
    if |hits| == 0 { return 0; }
    var words := SumScores(hits);
    if |words| <= length { return 0; }
    var densestAt := SlideWindow(words, length);
    mid := densestAt[|densestAt| / 2];
  }

  /** The loop over the words: the running sum is that of the window, and the labels are kept
      where it is at its maximum. */
  method SlideWindow(words: seq<real>, length: nat) returns (densestAt: seq<nat>)
    requires |words| > length
    ensures Labels(words, length, densestAt, FirstPeak(words, length, |words|), |words|)
  {
    var densest := FirstSum(words, length);
    var working := densest;
    densestAt := [0];
    for i := 0 to |words|
      invariant working == Window(words, length, i)
      invariant densest == Window(words, length, FirstPeak(words, length, i))
      invariant Labels(words, length, densestAt, FirstPeak(words, length, i), i)
    {
      var boundary := i + length;
      Slide(words, length, i);
      working := working + ((if boundary < |words| then words[boundary] else 0.0) - words[i]);
      ghost var before := densestAt;
      ghost var f := FirstPeak(words, length, i);
      if working > densest {
        densest := working;
        densestAt := [i];
      } else if working == densest && densestAt[|densestAt| - 1] == i - 1 {
        densestAt := densestAt + [i];
      }
      LabelsExtend(words, length, before, f, i, densestAt);
    }
  }

  method FirstSum(words: seq<real>, length: nat) returns (sum: real)
    requires |words| > length
    ensures sum == Window(words, length, 0)
  {
    sum := 0.0;
    for i := 0 to length
      invariant sum == Sum(words, 0, i)
    {
      sum := sum + words[i];
    }
  }

  // ----- how good the region is -----

  /** No window weighs more than this one; the last start is the empty window at the end. */
  ghost predicate Peak(words: seq<real>, length: nat, start: nat) {
    start <= |words| && forall t | 0 <= t <= |words| :: Window(words, length, t) <= Window(words, length, start)
  }

  lemma {:induction false} FirstPeakIsFirst(words: seq<real>, length: nat, limit: nat)
    ensures var f := FirstPeak(words, length, limit);
      && (forall t | 0 <= t <= limit :: Window(words, length, t) <= Window(words, length, f))
      && (forall t | 0 <= t < f :: Window(words, length, t) < Window(words, length, f))
    decreases limit
  {
    if limit > 0 { FirstPeakIsFirst(words, length, limit - 1); }
  }

  lemma {:induction false} RunIsMaximal(words: seq<real>, length: nat, weight: real, start: nat, limit: nat)
    returns (run: nat)
    ensures run == Run(words, length, weight, start, limit)
    ensures run == 0 || start + run <= limit + 1
    ensures forall t | start <= t < start + run :: Window(words, length, t) == weight
    ensures start + run <= limit ==> Window(words, length, start + run) != weight
    decreases limit + 1 - start
  {
    if start > limit || Window(words, length, start) != weight { return 0; }
    var rest := RunIsMaximal(words, length, weight, start + 1, limit);
    run := rest + 1;
  }

  /** The region is a heaviest window or starts one word before one. */
  lemma RegionIsPeakOrNext(words: seq<real>, length: nat)
    requires |words| > length
    ensures Region(words, length) < |words|
    ensures Peak(words, length, Region(words, length)) || Peak(words, length, Region(words, length) + 1)
  {
    var n := |words|;
    var f := FirstPeak(words, length, n);
    FirstPeakIsFirst(words, length, n);
    var run := RunIsMaximal(words, length, Window(words, length, f), if f == 0 then 2 else f, n);
  }

  /** Exactly when the region is itself a heaviest window: the first heaviest one has another
      right after it, or it is at the start and what follows at once does not pull the
      middle to 1. */
  lemma RegionIsPeak(words: seq<real>, length: nat)
    requires |words| > length
    ensures var f := FirstPeak(words, length, |words|);
      Peak(words, length, Region(words, length)) <==>
        if f == 0 then
          || Peak(words, length, 1) || !Peak(words, length, 2)
          || (Peak(words, length, 3) && Peak(words, length, 4))
        else Peak(words, length, f + 1)
  {
    var n := |words|;
    var f := FirstPeak(words, length, n);
    var weight := Window(words, length, f);
    FirstPeakIsFirst(words, length, n);
    var run := RunIsMaximal(words, length, weight, if f == 0 then 2 else f, n);
    WeightOfPeak(words, length, Region(words, length));
    if f == 0 {
      WeightOfPeak(words, length, 1);
      WeightOfPeak(words, length, 2);
      WeightOfPeak(words, length, 3);
      WeightOfPeak(words, length, 4);
    } else {
      WeightOfPeak(words, length, f + 1);
    }
  }

  lemma WeightOfPeak(words: seq<real>, length: nat, start: nat)
    ensures Peak(words, length, start) <==>
            start <= |words| && Window(words, length, start) == Window(words, length, FirstPeak(words, length, |words|))
  {
    FirstPeakIsFirst(words, length, |words|);
  }

  // ----- the region holds a hit -----

  ghost predicate NonNegative(words: seq<real>) {
    forall i | 0 <= i < |words| :: words[i] >= 0.0
  }

  lemma {:induction false} SumHolds(words: seq<real>, lo: nat, hi: nat, i: nat)
    requires NonNegative(words)
    ensures Sum(words, lo, hi) >= 0.0
    ensures lo <= i < hi ==> Sum(words, lo, hi) >= At(words, i)
    decreases hi
  {
    if lo < hi { SumHolds(words, lo, hi - 1, i); }
  }

  lemma {:induction false} SumFinds(words: seq<real>, lo: nat, hi: nat) returns (i: nat)
    requires NonNegative(words) && Sum(words, lo, hi) > 0.0
    ensures lo <= i < hi && At(words, i) > 0.0
    decreases hi
  {
    if At(words, hi - 1) > 0.0 { return hi - 1; }
    i := SumFinds(words, lo, hi - 1);
  }

  /** Where a window weighs nothing and the next one weighs something, all of its weight is in
      its last word, which the following windows keep. */
  lemma NextKeepsLast(words: seq<real>, length: nat, start: nat, t: nat)
    requires NonNegative(words) && length >= 2 && Window(words, length, start) <= 0.0
    requires start < t <= start + length
    ensures Window(words, length, t) >= Window(words, length, start + 1) == At(words, start + length)
  {
    Slide(words, length, start);
    SumHolds(words, start, start + length, start);
    SumHolds(words, t, t + length, start + length);
  }

  /** With at least three words to show and no negative score, what is shown weighs something. */
  lemma RegionWeighs(words: seq<real>, length: nat)
    requires NonNegative(words) && length >= 3 && |words| > length && words[|words| - 1] > 0.0
    ensures Window(words, length, Region(words, length)) > 0.0
  {
    var n, mid := |words|, Region(words, length);
    var f := FirstPeak(words, length, n);
    var weight := Window(words, length, f);
    FirstPeakIsFirst(words, length, n);
    SumHolds(words, n - 1, n - 1 + length, n - 1);
    assert Window(words, length, n - 1) >= words[n - 1];
    var run := RunIsMaximal(words, length, weight, if f == 0 then 2 else f, n);
    if Window(words, length, mid) <= 0.0 {
      if f == 0 {
        assert mid == 1;
        NextKeepsLast(words, length, 1, 2);
        assert At(words, 1 + length) > 0.0;
        NextKeepsLast(words, length, 1, 3);
        NextKeepsLast(words, length, 1, 4);
      } else {
        assert mid == f - 1;
        NextKeepsLast(words, length, mid, f);
        assert At(words, mid + length) > 0.0;
        NextKeepsLast(words, length, mid, f + 1);
      }
    }
  }

  lemma {:induction false} ScoreComesFromHit(hits: seq<Hit>, i: nat)
    requires ScoreAt(hits, i) != 0.0
    ensures exists h :: h in hits && h.location == i
    decreases |hits|
  {
    var k := |hits| - 1;
    if hits[k].location == i {
      assert hits[k] in hits;
    } else {
      ScoreComesFromHit(hits[..k], i);
      var h :| h in hits[..k] && h.location == i;
      assert h in hits;
    }
  }

  lemma {:induction false} ScoresArePositive(hits: seq<Hit>, i: nat)
    requires forall h | h in hits :: h.score > 0.0
    ensures ScoreAt(hits, i) >= 0.0
    ensures (exists h :: h in hits && h.location == i) ==> ScoreAt(hits, i) > 0.0
    decreases |hits|
  {
    if hits != [] {
      var k := |hits| - 1;
      assert hits == hits[..k] + [hits[k]];
      ScoresArePositive(hits[..k], i);
    }
  }

  lemma {:induction false} ExtentIsOfHit(hits: seq<Hit>)
    requires hits != []
    ensures exists h :: h in hits && h.location == Extent(hits) - 1
    ensures forall h | h in hits :: h.location < Extent(hits)
    decreases |hits|
  {
    var k := |hits| - 1;
    assert hits == hits[..k] + [hits[k]];
    assert hits[k] in hits;
    if k > 0 {
      ExtentIsOfHit(hits[..k]);
      var h :| h in hits[..k] && h.location == Extent(hits[..k]) - 1;
      assert h in hits;
    }
  }

  /** An excerpt of three words or more shows at least one of the hits. */
  lemma RegionShowsHit(hits: seq<Hit>, length: nat) returns (h: Hit)
    requires hits != [] && length >= 3 && forall h | h in hits :: h.score > 0.0
    ensures h in hits
    ensures var start := Region(Scores(hits), length); start <= h.location < start + length
  {
    var words := Scores(hits);
    ExtentIsOfHit(hits);
    h :| h in hits && h.location == |words| - 1;
    if |words| > length {
      forall i | 0 <= i < |words| ensures words[i] >= 0.0 {
        ScoresArePositive(hits, i);
      }
      ScoresArePositive(hits, |words| - 1);
      RegionWeighs(words, length);
      var start := Region(words, length);
      var i := SumFinds(words, start, start + length);
      ScoreComesFromHit(hits, i);
      h :| h in hits && h.location == i;
    }
  }

  lemma OneHit(hit: Hit)
    ensures forall i: nat :: ScoreAt([hit], i) == if i == hit.location then hit.score else 0.0
    ensures Extent([hit]) == hit.location + 1
  {
  }

  lemma RegionOfOne(words: seq<real>, length: nat, score: real)
    requires score > 0.0 && length == 1 && words == [0.0, 0.0, score]
    ensures Region(words, length) == 1
  {
    var f := FirstPeak(words, length, |words|);
    FirstPeakIsFirst(words, length, |words|);
    forall t: nat ensures Window(words, length, t) == At(words, t) {
      SumFromTheFront(words, t, t + 1);
    }
    assert f == 2;
    var run := RunIsMaximal(words, length, score, f, |words|);
  }

  lemma RegionOfTwo(words: seq<real>, length: nat, score: real)
    requires score > 0.0 && length == 2 && words == [score, 0.0, 0.0, score]
    ensures Region(words, length) == 1
  {
    var f := FirstPeak(words, length, |words|);
    FirstPeakIsFirst(words, length, |words|);
    forall t: nat ensures Window(words, length, t) == At(words, t) + At(words, t + 1) {
      SumFromTheFront(words, t, t + 2);
      SumFromTheFront(words, t + 1, t + 2);
    }
    assert f == 0 by {
      assert Window(words, length, 0) == score && Window(words, length, 1) == 0.0;
      assert Window(words, length, 2) == Window(words, length, 3) == score && Window(words, length, 4) == 0.0;
    }
    var run := RunIsMaximal(words, length, score, 2, |words|);
    assert run == 2;
  }

  ghost predicate Shows(hits: seq<Hit>, length: nat) {
    var start := Region(Scores(hits), length);
    exists h :: h in hits && start <= h.location < start + length
  }

  ghost predicate Positive(hits: seq<Hit>) {
    hits != [] && forall h | h in hits :: h.score > 0.0
  }

  /** Exactly the excerpts of three words or more always show a hit. One word misses a single
      hit that is neither the first nor the second word; two words miss two equal hits
      that are three apart. */
  lemma ShowsHitExactly(length: nat)
    ensures (forall hits :: Positive(hits) ==> Shows(hits, length)) <==> length >= 3
  {
    if length >= 3 {
      forall hits | Positive(hits) ensures Shows(hits, length) {
        var h := RegionShowsHit(hits, length);
      }
    } else {
      var hits := if length == 2 then [Hit(0, 1.0), Hit(3, 1.0)] else [Hit(2, 1.0)];
      assert Positive(hits);
      if length > 0 { RegionMissesHits(1.0, 1, 2); }
      assert !Shows(hits, length);
    }
  }

  lemma RegionMissesHits(score: real, one: nat, two: nat)
    requires score > 0.0 && one == 1 && two == 2
    ensures Region(Scores([Hit(2, score)]), one) == 1
    ensures Region(Scores([Hit(0, score), Hit(3, score)]), two) == 1
  {
    OneHit(Hit(2, score));
    RegionOfOne([0.0, 0.0, score], one, score);
    var near, far := Hit(0, score), Hit(3, score);
    OneHit(near);
    assert [near, far][..1] == [near];
    forall i: nat ensures ScoreAt([near, far], i) == ScoreAt([near], i) + if i == 3 then score else 0.0 {}
    assert Scores([near, far]) == [score, 0.0, 0.0, score];
    RegionOfTwo([score, 0.0, 0.0, score], two, score);
  }
}
