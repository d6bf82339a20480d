/** How sure the autoresearch plugin is of an improvement: the distance between the best
    metric and the baseline, in units of the median absolute deviation. Over exact reals. */
module Confidence {
  import opened Basics

  /** A measured value. NaN and the infinities only matter as being left out. */
  datatype Metric = Finite(value: real) | NonFinite

  datatype Direction = Lower | Higher

  datatype Status = Keep | Discard | Crash

  datatype Entry = Entry(metric: Metric, status: Status)

  /** The distance below which the plugin takes two numbers to be the same, 2 to the -52. */
  const EPSILON: real := 1.0 / 4503599627370496.0

  predicate IsBetter(direction: Direction, candidate: real, best: real) {
    match direction
    case Lower => candidate < best
    case Higher => candidate > best
  }

  function Abs(x: real): real {
    if x < 0.0 then -x else x
  }

  // ----- sorting -----

  ghost predicate Ascending(s: seq<real>) {
    forall i, j | 0 <= i < j < |s| :: s[i] <= s[j]
  }

  function Insert(x: real, s: seq<real>): seq<real> {
    if s == [] || x <= s[0] then [x] + s else [s[0]] + Insert(x, s[1..])
  }

  function Sorted(s: seq<real>): seq<real> {
    if s == [] then [] else Insert(s[0], Sorted(s[1..]))
  }

  lemma {:induction false} InsertMembers(x: real, s: seq<real>)
    ensures multiset(Insert(x, s)) == multiset([x] + s)
    ensures |Insert(x, s)| == |s| + 1
  {
    if s != [] && x > s[0] {
      InsertMembers(x, s[1..]);
      assert s == [s[0]] + s[1..];
    }
  }

  lemma {:induction false} InsertAscends(x: real, s: seq<real>)
    requires Ascending(s)
    ensures Ascending(Insert(x, s))
  {
    if s != [] && x > s[0] {
      InsertAscends(x, s[1..]);
      var t := Insert(x, s[1..]);
      SameMembers(t, [x] + s[1..]) by { InsertMembers(x, s[1..]); }
      forall i | 0 <= i < |t| ensures s[0] <= t[i] {
        assert t[i] in [x] + s[1..];
      }
    }
  }

  lemma SameMembers(s: seq<real>, t: seq<real>)
    requires multiset(s) == multiset(t)
    ensures |s| == |t|
    ensures forall i | 0 <= i < |s| :: s[i] in t
  {
    assert |s| == |multiset(s)| == |multiset(t)| == |t|;
    forall i | 0 <= i < |s| ensures s[i] in t {
      assert s[i] in multiset(s);
    }
  }

  lemma {:induction false} SortedAscends(s: seq<real>)
    ensures Ascending(Sorted(s)) && multiset(Sorted(s)) == multiset(s) && |Sorted(s)| == |s|
  {
    if s != [] {
      SortedAscends(s[1..]);
      InsertAscends(s[0], Sorted(s[1..]));
      InsertMembers(s[0], Sorted(s[1..]));
      assert s == [s[0]] + s[1..];
    }
  }

  /** Only one ascending sequence has these elements, so every sort yields this one. */
  lemma {:induction false} AscendingIsUnique(s: seq<real>, t: seq<real>)
    requires Ascending(s) && Ascending(t) && multiset(s) == multiset(t)
    ensures s == t
    decreases |s|
  {
    SameMembers(s, t);
    SameMembers(t, s);
    if s != [] {
      assert s[0] == t[0] by {
        var i :| 0 <= i < |t| && t[i] == s[0];
        var j :| 0 <= j < |s| && s[j] == t[0];
      }
      TailMembers(s, t);
      AscendingIsUnique(s[1..], t[1..]);
    }
  }

  lemma TailMembers(s: seq<real>, t: seq<real>)
    requires multiset(s) == multiset(t) && s != [] && t != [] && s[0] == t[0]
    ensures multiset(s[1..]) == multiset(t[1..])
  {
    assert s == [s[0]] + s[1..] && t == [t[0]] + t[1..];
    assert multiset(s) == multiset{s[0]} + multiset(s[1..]);
    assert multiset(t) == multiset{t[0]} + multiset(t[1..]);
    assert multiset(s[1..]) == multiset(s) - multiset{s[0]};
  }

  // ----- the median -----

  /** The middle element, or half way between the two in the middle. */
  function Middle(sorted: seq<real>): real
    requires sorted != []
  {
    var mid := |sorted| / 2;
    if |sorted| % 2 == 0 then (sorted[mid - 1] + sorted[mid]) / 2.0 else sorted[mid]
  }

  function Median(values: seq<real>): real
    requires values != []
  {
    SortedAscends(values);
    Middle(Sorted(values))
  }

  /** The distances from `m`, in the order of the values. */
  function Deviations(values: seq<real>, m: real): seq<real> {
    seq(|values|, i requires 0 <= i < |values| => Abs(values[i] - m))
  }

  function Mad(values: seq<real>): real
    requires values != []
  {
    Median(Deviations(values, Median(values)))
  }

  /** How many of the values are no further than `x` from `m`. */
  function Near(s: seq<real>, m: real, x: real): nat {
    if s == [] then 0 else (if Abs(s[0] - m) <= x then 1 else 0) + Near(s[1..], m, x)
  }

  lemma {:induction false} NearInsert(y: real, s: seq<real>, m: real, x: real)
    ensures Near(Insert(y, s), m, x) == Near([y] + s, m, x)
  {
    assert ([y] + s)[1..] == s;
    if s != [] && y > s[0] {
      NearInsert(y, s[1..], m, x);
      assert ([y] + s[1..])[1..] == s[1..];
      var t := Insert(y, s[1..]);
      assert ([s[0]] + t)[1..] == t;
    }
  }

  lemma {:induction false} NearSorted(s: seq<real>, m: real, x: real)
    ensures Near(Sorted(s), m, x) == Near(s, m, x)
  {
    if s != [] {
      NearSorted(s[1..], m, x);
      NearInsert(s[0], Sorted(s[1..]), m, x);
      assert ([s[0]] + Sorted(s[1..]))[1..] == Sorted(s[1..]);
    }
  }

  lemma {:induction false} NearDeviations(s: seq<real>, m: real, x: real)
    ensures Near(Deviations(s, m), 0.0, x) == Near(s, m, x)
  {
    if s != [] {
      NearDeviations(s[1..], m, x);
      assert Deviations(s, m)[1..] == Deviations(s[1..], m);
    }
  }

  /** A stretch of near values counts in full. */
  lemma {:induction false} NearStretch(s: seq<real>, m: real, x: real, lo: nat, hi: nat)
    requires lo <= hi <= |s| && forall i | lo <= i < hi :: Abs(s[i] - m) <= x
    ensures Near(s, m, x) >= hi - lo
    decreases |s|
  {
    if s != [] {
      if lo == 0 {
        if hi > 0 { NearStretch(s[1..], m, x, 0, hi - 1); }
      } else {
        NearStretch(s[1..], m, x, lo - 1, hi - 1);
      }
    }
  }

  /** In an ascending sequence of distances, the one at place `k` is at most `x` exactly when
      more than `k` of them are. */
  lemma {:induction false} RankIsCount(s: seq<real>, x: real, k: nat)
    requires Ascending(s) && k < |s| && forall i | 0 <= i < |s| :: s[i] >= 0.0
    ensures s[k] <= x <==> Near(s, 0.0, x) > k
    decreases |s|
  {
    if s[0] > x {
      NoneNear(s, x);
    } else if k > 0 {
      RankIsCount(s[1..], x, k - 1);
    }
  }

  lemma {:induction false} NoneNear(s: seq<real>, x: real)
    requires forall i | 0 <= i < |s| :: s[i] > x && s[i] >= 0.0
    ensures Near(s, 0.0, x) == 0
  {
    if s != [] { NoneNear(s[1..], x); }
  }

  /** The middle of ascending distances is at most `x` where more than half of them are, and
      is zero only then. */
  lemma MiddleOfDistances(s: seq<real>, x: real)
    requires s != [] && Ascending(s) && forall i | 0 <= i < |s| :: s[i] >= 0.0
    ensures 0.0 <= Middle(s)
    ensures Near(s, 0.0, x) > |s| / 2 ==> Middle(s) <= x
    ensures Near(s, 0.0, 0.0) > |s| / 2 <==> Middle(s) == 0.0
  {
    RankIsCount(s, x, |s| / 2);
    RankIsCount(s, 0.0, |s| / 2);
  }

  /** The median of the distances from `m` is at most `x` where more than half of the values
      are that near, and is zero only where more than half of them are `m`. */
  lemma MedianOfDeviations(values: seq<real>, m: real, x: real)
    requires values != []
    ensures 0.0 <= Median(Deviations(values, m))
    ensures Near(values, m, x) > |values| / 2 ==> Median(Deviations(values, m)) <= x
    ensures Near(values, m, 0.0) > |values| / 2 <==> Median(Deviations(values, m)) == 0.0
  {
    var d := Deviations(values, m);
    SortedAscends(d);
    var sorted := Sorted(d);
    SameMembers(sorted, d);
    forall i | 0 <= i < |sorted| ensures sorted[i] >= 0.0 {
      var k :| 0 <= k < |d| && d[k] == sorted[i];
    }
    NearSorted(d, 0.0, x);
    NearSorted(d, 0.0, 0.0);
    NearDeviations(values, m, x);
    NearDeviations(values, m, 0.0);
    MiddleOfDistances(sorted, x);
  }

  /** The lower half up to the middle pair is as near to the median as the lower bound
      is, and so is the upper half. */
  lemma HalvesAreNear(s: seq<real>, lo: real, hi: real, i: nat)
    requires Ascending(s) && i < |s| && lo <= s[0] && s[|s| - 1] <= hi
    ensures lo <= Middle(s) <= hi
    ensures i <= |s| / 2 ==> Abs(s[i] - Middle(s)) <= Middle(s) - lo
    ensures (|s| - 1) / 2 <= i ==> Abs(s[i] - Middle(s)) <= hi - Middle(s)
  {
    var a, b := (|s| - 1) / 2, |s| / 2;
    assert Middle(s) == (s[a] + s[b]) / 2.0;
    assert lo <= s[a] <= s[b] <= hi && lo <= s[i] <= hi;
    assert i <= b ==> s[i] <= s[b];
    assert a <= i ==> s[a] <= s[i];
  }

  lemma LowerHalf(s: seq<real>, lo: real, hi: real, m: real, x: real)
    requires s != [] && Ascending(s) && lo <= s[0] && s[|s| - 1] <= hi && m == Middle(s) && x == m - lo
    ensures Near(s, m, x) > |s| / 2
  {
    forall i | 0 <= i <= |s| / 2 ensures Abs(s[i] - m) <= x { HalvesAreNear(s, lo, hi, i); }
    NearStretch(s, m, x, 0, |s| / 2 + 1);
  }

  lemma UpperHalf(s: seq<real>, lo: real, hi: real, m: real, x: real)
    requires s != [] && Ascending(s) && lo <= s[0] && s[|s| - 1] <= hi && m == Middle(s) && x == hi - m
    ensures Near(s, m, x) > |s| / 2
  {
    forall i | (|s| - 1) / 2 <= i < |s| ensures Abs(s[i] - m) <= x { HalvesAreNear(s, lo, hi, i); }
    NearStretch(s, m, x, (|s| - 1) / 2, |s|);
  }

  lemma HalfIsNear(values: seq<real>, lo: real, hi: real)
    requires values != [] && forall v | v in values :: lo <= v <= hi
    ensures lo <= Median(values) <= hi
    ensures Near(values, Median(values), Median(values) - lo) > |values| / 2
    ensures Near(values, Median(values), hi - Median(values)) > |values| / 2
  {
    SortedAscends(values);
    var s, m := Sorted(values), Median(values);
    SameMembers(s, values);
    assert s[0] in values && s[|s| - 1] in values;
    HalvesAreNear(s, lo, hi, 0);
    LowerHalf(s, lo, hi, m, m - lo);
    UpperHalf(s, lo, hi, m, hi - m);
    NearSorted(values, m, m - lo);
    NearSorted(values, m, hi - m);
  }

  /** The median absolute deviation is at most half of the range. */
  lemma MadBound(values: seq<real>, lo: real, hi: real)
    requires values != [] && forall v | v in values :: lo <= v <= hi
    ensures 0.0 <= Mad(values) <= (hi - lo) / 2.0
  {
    var m := Median(values);
    HalfIsNear(values, lo, hi);
    MedianOfDeviations(values, m, m - lo);
    MedianOfDeviations(values, m, hi - m);
  }

  /** There is no deviation exactly when more than half of the values are the median. */
  lemma NoDeviation(values: seq<real>)
    requires values != []
    ensures Mad(values) == 0.0 <==> Near(values, Median(values), 0.0) > |values| / 2
  {
    MedianOfDeviations(values, Median(values), 0.0);
  }

  // ----- the confidence -----

  function FiniteMetrics(results: seq<Entry>): seq<real> {
    if results == [] then []
    else (match results[0].metric case Finite(v) => [v] case NonFinite => []) + FiniteMetrics(results[1..])
  }

  /** The best of the values, from left to right. */
  function Best(direction: Direction, values: seq<real>): real
    requires values != []
  {
    if |values| == 1 then values[0]
    else
      var current, candidate := Best(direction, values[..|values| - 1]), values[|values| - 1];
      if IsBetter(direction, candidate, current) then candidate else current
  }

  lemma {:induction false} BestIsBest(direction: Direction, values: seq<real>)
    requires values != []
    ensures Best(direction, values) in values
    ensures forall v | v in values :: !IsBetter(direction, v, Best(direction, values))
    decreases |values|
  {
    var n := |values| - 1;
    assert values == values[..n] + [values[n]];
    if n > 0 { BestIsBest(direction, values[..n]); }
  }

  function FromValues(direction: Direction, baseline: Metric, values: seq<real>): Option<real> {
    if |values| < 3 || baseline.NonFinite? || Abs(baseline.value) <= EPSILON then None
    else
      var mad := Mad(values);
      if mad <= EPSILON then None
      else
        var delta := Abs(Best(direction, values) - baseline.value);
        if delta > EPSILON then Some(delta / mad) else None
  }

  function ForCandidate(direction: Direction, results: seq<Entry>, metric: Metric): Option<real> {
    if results == [] then None
    else
      var values := FiniteMetrics(results) + if metric.Finite? then [metric.value] else [];
      FromValues(direction, results[0].metric, values)
  }

  function Compute(config: Option<Direction>, results: seq<Entry>): Option<real> {
    if config == None || results == [] then None
    else FromValues(config.value, results[0].metric, FiniteMetrics(results))
  }

  lemma {:induction false} FiniteMetricsOfAll(a: seq<Entry>, b: seq<Entry>)
    ensures FiniteMetrics(a + b) == FiniteMetrics(a) + FiniteMetrics(b)
  {
    if a == [] {
      assert a + b == b;
    } else {
      FiniteMetricsOfAll(a[1..], b);
      assert (a + b)[1..] == a[1..] + b;
    }
  }

  lemma {:induction false} FiniteMetricsAreMetrics(results: seq<Entry>, v: real)
    ensures v in FiniteMetrics(results) <==> exists e | e in results :: e.metric == Finite(v)
  {
    if results != [] {
      FiniteMetricsAreMetrics(results[1..], v);
      assert results == [results[0]] + results[1..];
    }
  }

  /** What is told when a result is logged is what the summary tells from the journal afterwards. */
  lemma CandidateAgreesWithSummary(direction: Direction, results: seq<Entry>, entry: Entry)
    requires results != []
    ensures ForCandidate(direction, results, entry.metric) == Compute(Some(direction), results + [entry])
  {
    FiniteMetricsOfAll(results, [entry]);
    assert FiniteMetrics([entry]) == if entry.metric.Finite? then [entry.metric.value] else [];
  }

  /** The baseline is a metric that none of the others is worse than. */
  ghost predicate Worst(direction: Direction, baseline: real, values: seq<real>) {
    baseline in values && forall v | v in values :: !IsBetter(direction, baseline, v)
  }

  /** Where the baseline is the worst metric, a confidence that is told is at least 2. */
  lemma ConfidenceIsAtLeastTwo(direction: Direction, baseline: real, values: seq<real>)
    requires Worst(direction, baseline, values)
    ensures var c := FromValues(direction, Finite(baseline), values); c == None || c.value >= 2.0
  {
    var c := FromValues(direction, Finite(baseline), values);
    if c != None {
      BestIsBest(direction, values);
      var best := Best(direction, values);
      var lo, hi := if best < baseline then best else baseline, if best < baseline then baseline else best;
      MadBound(values, lo, hi);
      AtLeastTwice(Abs(best - baseline), Mad(values));
    }
  }

  lemma AtLeastTwice(delta: real, mad: real)
    requires mad > 0.0 && mad <= delta / 2.0
    ensures delta / mad >= 2.0
    ensures delta == 2.0 * mad ==> delta / mad == 2.0
  {
    assert delta / mad * mad == delta;
  }

  /** For a journal whose first result is the worst finite one, whatever was logged after it. */
  lemma SummaryIsAtLeastTwo(direction: Direction, results: seq<Entry>)
    requires results != [] && results[0].metric.Finite?
    requires forall e | e in results && e.metric.Finite? ::
               !IsBetter(direction, results[0].metric.value, e.metric.value)
    ensures var c := Compute(Some(direction), results); c == None || c.value >= 2.0
  {
    var baseline, values := results[0].metric.value, FiniteMetrics(results);
    forall v | v in values ensures !IsBetter(direction, baseline, v) {
      FiniteMetricsAreMetrics(results, v);
      var e :| e in results && e.metric == Finite(v);
    }
    FiniteMetricsAreMetrics(results, baseline);
    ConfidenceIsAtLeastTwo(direction, baseline, values);
  }

  /** Two is reached, so the bound is the best possible. */
  lemma TwoIsReached(low: real, high: real, values: seq<real>)
    requires high - low > 2.0 * EPSILON && Abs(high) > EPSILON
    requires values == [high, low, low, high]
    ensures Worst(Lower, high, values)
    ensures FromValues(Lower, Finite(high), values) == Some(2.0)
  {
    MadOfPairs(low, high, values);
    BestIsBest(Lower, values);
    assert values[0] == high && values[1] == low;
    assert Best(Lower, values) == low;
    var mad, delta := Mad(values), Abs(low - high);
    AtLeastTwice(delta, mad);
  }

  lemma MadOfPairs(low: real, high: real, values: seq<real>)
    requires low < high && values == [high, low, low, high]
    ensures Mad(values) == (high - low) / 2.0
  {
    RotatedMedian([high], [low, low, high], values);
    var m := Median(values);
    assert 2.0 * m == low + high;
    var d := Deviations(values, m);
    HalfIsNear(d, d[0], d[0]);
  }

  lemma RotatedMedian(a: seq<real>, b: seq<real>, values: seq<real>)
    requires values == a + b && values != [] && Ascending(b + a)
    ensures Median(values) == Middle(b + a)
  {
    assert multiset(a + b) == multiset(b + a);
    MedianIs(values, b + a);
  }

  lemma MedianIs(s: seq<real>, t: seq<real>)
    requires s != [] && t != [] && Ascending(t) && multiset(s) == multiset(t)
    ensures Median(s) == Middle(t)
  {
    SortedAscends(s);
    AscendingIsUnique(Sorted(s), t);
  }

  // ----- when a confidence is told, and which -----

  /** No value is smaller, or none is larger. */
  ghost predicate IsExtreme(direction: Direction, best: real, values: seq<real>) {
    best in values && forall v | v in values :: if direction == Lower then best <= v else v <= best
  }

  ghost predicate Apart(x: real, y: real) {
    x - y > EPSILON || y - x > EPSILON
  }

  /** The distance that counts is 2 to the power of -52. */
  lemma EpsilonIsThat()
    ensures EPSILON * 67108864.0 * 67108864.0 == 1.0 && 67108864 == 0x400_0000
  {
  }

  /** A confidence is told exactly when there are three values, the baseline is not 0, the values
      deviate, and the best of them is not the baseline, all beyond the distance that counts. It is that
      distance in units of the deviation, on whichever side of the baseline the best value is. */
  lemma ConfidenceIsTold(direction: Direction, baseline: Metric, values: seq<real>)
    ensures
      var c := FromValues(direction, baseline, values);
      && (c != None <==> |values| >= 3 && baseline.Finite? && Apart(baseline.value, 0.0) && Mad(values) > EPSILON
                         && exists best :: IsExtreme(direction, best, values) && Apart(best, baseline.value))
      && (c != None ==> forall best | IsExtreme(direction, best, values) ::
            c.value * Mad(values) == if best > baseline.value then best - baseline.value else baseline.value - best)
  {
    var c := FromValues(direction, baseline, values);
    if |values| >= 3 && baseline.Finite? {
      BestIsBest(direction, values);
      var b := Best(direction, values);
      assert IsExtreme(direction, b, values);
      forall best | IsExtreme(direction, best, values) ensures best == b {}
      if c != None { Quotient(Abs(b - baseline.value), Mad(values)); }
    }
  }

  lemma Quotient(x: real, y: real)
    requires y != 0.0
    ensures x / y * y == x
  {
  }

  // ----- the two directions are mirror images -----

  function Opposite(direction: Direction): Direction {
    match direction case Lower => Higher case Higher => Lower
  }

  function Negated(values: seq<real>): (r: seq<real>)
    ensures |r| == |values| && forall i | 0 <= i < |r| :: r[i] == -values[i]
  {
    seq(|values|, i requires 0 <= i < |values| => -values[i])
  }

  /** The values negated, from the last to the first. */
  function Mirrored(values: seq<real>): (r: seq<real>)
    ensures |r| == |values| && forall i | 0 <= i < |r| :: r[i] == -values[|values| - 1 - i]
  {
    seq(|values|, i requires 0 <= i < |values| => -values[|values| - 1 - i])
  }

  lemma {:induction false} NegatedCount(values: seq<real>, x: real)
    ensures multiset(Negated(values))[x] == multiset(values)[-x]
    decreases |values|
  {
    if values != [] {
      var n := |values| - 1;
      NegatedCount(values[..n], x);
      assert Negated(values) == Negated(values[..n]) + [-values[n]];
      assert values == values[..n] + [values[n]];
    }
  }

  lemma {:induction false} MirroredCount(values: seq<real>, x: real)
    ensures multiset(Mirrored(values))[x] == multiset(values)[-x]
    decreases |values|
  {
    if values != [] {
      var n := |values| - 1;
      MirroredCount(values[..n], x);
      assert Mirrored(values) == [-values[n]] + Mirrored(values[..n]);
      assert values == values[..n] + [values[n]];
    }
  }

  lemma MirroredMiddle(s: seq<real>, t: seq<real>)
    requires s != [] && t == Mirrored(s)
    ensures Middle(t) == -Middle(s)
  {
  }

  lemma MirroredMembers(s: seq<real>, values: seq<real>)
    requires multiset(s) == multiset(values)
    ensures multiset(Mirrored(s)) == multiset(Negated(values))
  {
    forall x: real ensures multiset(Mirrored(s))[x] == multiset(Negated(values))[x] {
      MirroredCount(s, x);
      NegatedCount(values, x);
    }
  }

  lemma MirroredMedian(values: seq<real>)
    requires values != []
    ensures Median(Negated(values)) == -Median(values)
  {
    var s := Sorted(values);
    SortedAscends(values);
    MirroredMembers(s, values);
    MedianIs(Negated(values), Mirrored(s));
    MirroredMiddle(s, Mirrored(s));
  }

  lemma MirroredMad(values: seq<real>)
    requires values != []
    ensures Mad(Negated(values)) == Mad(values)
  {
    MirroredMedian(values);
    assert Deviations(Negated(values), -Median(values)) == Deviations(values, Median(values));
  }

  /** What is told for one direction is told for the other one when all signs are changed. */
  lemma DirectionsMirror(direction: Direction, baseline: real, values: seq<real>)
    ensures FromValues(direction, Finite(baseline), values)
         == FromValues(Opposite(direction), Finite(-baseline), Negated(values))
  {
    if values != [] {
      MirroredMad(values);
      MirroredBest(direction, values);
    }
  }

  lemma MirroredBest(direction: Direction, values: seq<real>)
    requires values != []
    ensures Best(Opposite(direction), Negated(values)) == -Best(direction, values)
  {
    var neg := Negated(values);
    BestIsBest(direction, values);
    BestIsBest(Opposite(direction), neg);
    var a, b := Best(direction, values), Best(Opposite(direction), neg);
    var i :| 0 <= i < |values| && values[i] == a;
    var j :| 0 <= j < |neg| && neg[j] == b;
    assert neg[i] in neg && values[j] in values;
  }

  // ----- the best metric -----

  ghost predicate Kept(e: Entry) {
    e.status == Keep && e.metric.Finite?
  }

  /** `best_metric`: the best of what was kept, or the first finite metric where nothing was. */
  method BestMetric(config: Option<Direction>, results: seq<Entry>) returns (best: Option<real>)
    ensures best == None <==> config == None || FiniteMetrics(results) == []
    ensures best != None && (exists e | e in results :: Kept(e)) ==>
              && (exists e | e in results :: Kept(e) && e.metric.value == best.value)
              && forall e | e in results && Kept(e) :: !IsBetter(config.value, e.metric.value, best.value)
    ensures best != None && (forall e | e in results :: !Kept(e)) ==> best.value == FiniteMetrics(results)[0]
  {
    var finite := FiniteMetrics(results);
    if config == None || finite == [] { return None; }
    best := None;
    for k := 0 to |results|
      invariant best == None <==> forall i | 0 <= i < k :: !Kept(results[i])
      invariant best != None ==> exists i | 0 <= i < k :: Kept(results[i]) && results[i].metric.value == best.value
      invariant best != None ==>
                  forall i | 0 <= i < k && Kept(results[i]) :: !IsBetter(config.value, results[i].metric.value, best.value)
    {
      if results[k].status == Keep && results[k].metric.Finite? {
        if best == None || IsBetter(config.value, results[k].metric.value, best.value) {
          best := Some(results[k].metric.value);
        }
      }
    }
    if best == None { best := Some(finite[0]); }
  }
}
