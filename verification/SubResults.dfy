/** The excerpts of a search result: the whole page's, and one for each section of the page,
    the hits being filed under the headings. */
module SubResults {
  import opened Basics
  import opened ExcerptRegion

  /** A place in an array of words; None is a hole. */
  type Slot = Option<string>

  const OPEN := "<mark>"
  const CLOSE := "</mark>"

  // ----- marking the hits -----

  function Mark(slot: Slot): Slot {
    if slot.Some? && OPEN <= slot.value then slot
    else Some(OPEN + (if slot.Some? then slot.value else "undefined") + CLOSE)
  }

  function SlotAt(words: seq<Slot>, i: nat): Slot {
    if i < |words| then words[i] else None
  }

  /** A hit is put between the marks, a hole as "undefined", and marking it again changes nothing. */
  lemma MarkedOnce(word: string)
    ensures !("<mark>" <= word) ==> Mark(Some(word)) == Some("<mark>" + word + "</mark>")
    ensures "<mark>" <= word ==> Mark(Some(word)) == Some(word)
    ensures Mark(None) == Some("<mark>undefined</mark>")
    ensures Mark(Mark(Some(word))) == Mark(Some(word)) && Mark(Mark(None)) == Mark(None)
  {
    assert OPEN <= OPEN + word + CLOSE;
    assert OPEN + "undefined" + CLOSE == "<mark>undefined</mark>";
  }

  /** The words with every hit marked once, however often it is listed. */
  ghost predicate Marked(content: seq<Slot>, locations: seq<nat>, words: seq<Slot>) {
    && |words| >= |content|
    && (forall i: nat | i in locations :: SlotAt(words, i) == Mark(SlotAt(content, i)))
    && (forall i: nat | i !in locations :: SlotAt(words, i) == SlotAt(content, i))
  }

  method MarkWords(content: seq<Slot>, locations: seq<nat>) returns (words: seq<Slot>)
    ensures Marked(content, locations, words)
  {
    words := content;
    for k := 0 to |locations|
      invariant Marked(content, locations[..k], words)
    {
      var word := locations[k];
      ghost var before := words;
      assert forall i | i in locations[..k + 1] :: i in locations[..k] || i == word;
      assert forall i | i in locations[..k] :: i in locations[..k + 1];
      assert word in locations[..k + 1];
      if word >= |words| { words := words + seq(word + 1 - |words|, _ => None); }
      assert forall i: nat :: SlotAt(words, i) == SlotAt(before, i);
      if words[word].Some? && OPEN <= words[word].value { continue; }
      ghost var grown := words;
      words := words[word := Mark(words[word])];
      assert forall i: nat :: SlotAt(words, i) == if i == word then Mark(SlotAt(before, i)) else SlotAt(before, i);
    }
    assert locations[..|locations|] == locations;
  }

  // ----- where an excerpt lies -----

  /** As many words as were asked for and are there, as near to where they were asked for
      as they fit between the caps. */
  ghost predicate Fits(floor: int, cap: int, start: int, length: int, lo: int, hi: int) {
    && hi - lo == Min(length, cap - floor)
    && lo == Max(floor, Min(start, cap - (hi - lo)))
  }

  /** The words from `lo` up to `hi`, as far as there are any. */
  function Slice(words: seq<Slot>, lo: nat, hi: nat): seq<Slot> {
    var end := if hi < |words| then hi else |words|;
    if lo < end then words[lo..end] else []
  }

  lemma SliceShows(words: seq<Slot>, lo: nat, hi: nat)
    ensures |Slice(words, lo, hi)| == Max(0, Min(hi, |words|) - lo)
    ensures forall i | lo <= i < hi && i < |words| :: Slice(words, lo, hi)[i - lo] == words[i]
  {
    var slice := Slice(words, lo, hi);
    forall i | lo <= i < hi && i < |words| ensures slice[i - lo] == words[i] {}
  }

  datatype Excerpt = Excerpt(lo: int, hi: int, plain: seq<Slot>, marked: seq<Slot>)

  /** The excerpt shows the words from `lo` up to `hi` as they are and with the hits marked. */
  ghost predicate Shown(content: seq<Slot>, locations: seq<nat>, e: Excerpt) {
    && 0 <= e.lo && 0 <= e.hi
    && e.plain == Slice(content, e.lo, e.hi)
    && exists words :: Marked(content, locations, words) && e.marked == Slice(words, e.lo, e.hi)
  }

  /** `build_excerpt`, for content that is already split into words. */
  method BuildExcerpt(content: seq<Slot>, start: nat, length: nat, locations: seq<nat>,
                      notBefore: Option<nat>, notFrom: Option<nat>) returns (e: Excerpt)
    ensures Fits(if notBefore.Some? then notBefore.value else 0,
                 if notFrom.Some? then notFrom.value else |content|, start, length, e.lo, e.hi)
    ensures Shown(content, locations, e)
  {
    var endcap := if notFrom.Some? then notFrom.value else |content|;
    var startcap := if notBefore.Some? then notBefore.value else 0;
    var from: int, size: int := start, length;
    if endcap - startcap < size { size := endcap - startcap; }
    if from + size > endcap { from := endcap - size; }
    if from < startcap { from := startcap; }
    var words := MarkWords(content, locations);
    var to := from + size;
    FitsCapped(startcap, endcap, start, length, from, to);
    e := Excerpt(from, to, Slice(content, from, to), Slice(words, from, to));
  }

  /** The three corrections in their order. */
  lemma FitsCapped(startcap: int, endcap: int, start: int, length: int, from: int, to: int)
    requires var size := if endcap - startcap < length then endcap - startcap else length;
      var moved := if start + size > endcap then endcap - size else start;
      from == (if moved < startcap then startcap else moved) && to == from + size
    ensures Fits(startcap, endcap, start, length, from, to)
  {
  }

  /** What was asked for and is between the caps is in the excerpt. */
  lemma FitsKeeps(floor: int, cap: int, start: int, length: nat, lo: int, hi: int, i: int)
    requires Fits(floor, cap, start, length, lo, hi) && floor <= i < cap && start <= i < start + length
    ensures floor <= lo <= i < hi <= cap
  {
  }

  // ----- the sections -----

  /** The hits of one section. Section 0 is before every heading, and section k is under the
      k-th of them. */
  datatype Section = Section(heading: nat, hits: seq<Hit>, excerpt: Excerpt)

  function Position(anchors: seq<nat>, heading: nat): nat
    requires heading <= |anchors|
  {
    if heading == 0 then 0 else anchors[heading - 1]
  }

  function NextPosition(anchors: seq<nat>, heading: nat): Option<nat>
    requires heading <= |anchors|
  {
    if heading < |anchors| then Some(anchors[heading]) else None
  }

  ghost predicate Ascending(s: seq<nat>) {
    forall i, j | 0 <= i < j < |s| :: s[i] <= s[j]
  }

  function Locations(hits: seq<Hit>): (r: seq<nat>)
    ensures |r| == |hits|
  {
    seq(|hits|, i requires 0 <= i < |hits| => hits[i].location)
  }

  /** The last heading at or before `location` is this one. */
  ghost predicate Under(anchors: seq<nat>, heading: nat, location: nat) {
    && heading <= |anchors|
    && (forall j | 0 <= j < heading :: anchors[j] <= location)
    && (forall j | heading <= j < |anchors| :: location < anchors[j])
  }

  ghost predicate Filed(anchors: seq<nat>, heading: nat, hits: seq<Hit>) {
    heading <= |anchors| && forall h | h in hits :: Under(anchors, heading, h.location)
  }

  function Relative(hits: seq<Hit>, position: nat): (r: seq<Hit>)
    requires forall h | h in hits :: position <= h.location
    ensures |r| == |hits|
  {
    seq(|hits|, i requires 0 <= i < |hits| => Hit(hits[i].location - position, hits[i].score))
  }

  /** Where the words of a section end. */
  function End(content: seq<Slot>, anchors: seq<nat>, heading: nat): nat
    requires heading <= |anchors|
  {
    if heading < |anchors| then anchors[heading] else |content|
  }

  /** The words asked for from `start` on: under the last heading all of them, before that
      only those before the next heading. */
  function Wanted(anchors: seq<nat>, heading: nat, start: nat, length: nat): int
    requires heading <= |anchors|
  {
    if heading < |anchors| then Min(anchors[heading] - start, length) else length
  }

  /** A section has the hits under its heading, and an excerpt of at most `length` words from
      between its heading and the next one, where their densest region is. */
  ghost predicate Proper(content: seq<Slot>, anchors: seq<nat>, length: nat, s: Section) {
    && s.hits != [] && Filed(anchors, s.heading, s.hits)
    && var position := Position(anchors, s.heading);
    && (forall h | h in s.hits :: position <= h.location)
    && var start := position + Region(Scores(Relative(s.hits, position)), length);
    && Fits(position, End(content, anchors, s.heading), start,
            Wanted(anchors, s.heading, start, length), s.excerpt.lo, s.excerpt.hi)
    && Shown(content, Locations(s.hits), s.excerpt)
    && position <= s.excerpt.lo <= s.excerpt.hi <= End(content, anchors, s.heading)
    && s.excerpt.hi - s.excerpt.lo <= length && (length > 0 ==> s.excerpt.lo < s.excerpt.hi)
  }

  ghost predicate Within(hits: seq<Hit>, n: nat) {
    forall h | h in hits :: h.location < n
  }

  /** The section's excerpt shows one of its own hits. */
  ghost predicate ShowsOwnHit(s: Section) {
    exists h :: h in s.hits && s.excerpt.lo <= h.location < s.excerpt.hi
  }

  /** `add_result`, for a section that has hits. */
  method AddResult(content: seq<Slot>, anchors: seq<nat>, length: nat, heading: nat, hits: seq<Hit>)
    returns (s: Section)
    requires hits != [] && Ascending(anchors) && Filed(anchors, heading, hits) && Within(hits, |content|)
    ensures s.heading == heading && s.hits == hits && Proper(content, anchors, length, s)
    ensures length >= 3 && Positive(hits) ==> ShowsOwnHit(s)
  {
    var position := Position(anchors, heading);
    var endRange := NextPosition(anchors, heading);
    forall h | h in hits ensures position <= h.location {
      assert Under(anchors, heading, h.location);
    }
    var relative := Relative(hits, position);
    var region := CalculateRegion(relative, length);
    var start := region + position;
    ghost var hit := RegionIsBeforeHit(hits, relative, position, length);
    assert Under(anchors, heading, hit.location) && hit.location < |content|;
    var size := if endRange.Some? && endRange.value != 0 then Min(endRange.value - start, length) else length;
    var e := BuildExcerpt(content, start, size, Locations(hits), Some(position), endRange);
    s := Section(heading, hits, e);
    SectionIsProper(content, anchors, length, s, start, size, hit);
  }

  lemma SectionIsProper(content: seq<Slot>, anchors: seq<nat>, length: nat, s: Section, start: nat, size: nat, hit: Hit)
    requires s.hits != [] && Filed(anchors, s.heading, s.hits)
    requires forall h | h in s.hits :: Position(anchors, s.heading) <= h.location
    requires hit in s.hits && hit.location < End(content, anchors, s.heading) && start <= hit.location
    requires start == Position(anchors, s.heading)
                      + Region(Scores(Relative(s.hits, Position(anchors, s.heading))), length)
    requires size == Wanted(anchors, s.heading, start, length)
    requires Fits(Position(anchors, s.heading), End(content, anchors, s.heading), start, size, s.excerpt.lo, s.excerpt.hi)
    requires Shown(content, Locations(s.hits), s.excerpt)
    ensures Proper(content, anchors, length, s)
    ensures hit.location < start + length ==> ShowsOwnHit(s)
  {
  }

  lemma RegionIsBeforeHit(hits: seq<Hit>, relative: seq<Hit>, position: nat, length: nat) returns (h: Hit)
    requires hits != [] && (forall h | h in hits :: position <= h.location)
    requires relative == Relative(hits, position)
    ensures h in hits && position + Region(Scores(relative), length) <= h.location
    ensures length >= 3 && Positive(hits) ==> h.location < position + Region(Scores(relative), length) + length
  {
    var r: Hit;
    if length >= 3 && Positive(hits) {
      forall x | x in relative ensures x.score > 0.0 {
        var i :| 0 <= i < |relative| && relative[i] == x;
        assert hits[i] in hits;
      }
      r := RegionShowsHit(relative, length);
    } else {
      ExtentIsOfHit(relative);
      r :| r in relative && r.location == Extent(relative) - 1;
      if |Scores(relative)| > length { RegionIsPeakOrNext(Scores(relative), length); }
    }
    var i :| 0 <= i < |relative| && relative[i] == r;
    h := hits[i];
  }

  /** Under the last heading the excerpt is as long as it can be. Under another one it is cut
      at the next heading without being moved back, and so is as long as it can be only
      where the region leaves room for it. */
  lemma ExcerptLength(content: seq<Slot>, anchors: seq<nat>, length: nat, s: Section)
    requires Proper(content, anchors, length, s)
    ensures var position, end := Position(anchors, s.heading), End(content, anchors, s.heading);
      var region := Region(Scores(Relative(s.hits, position)), length);
      && (s.heading == |anchors| ==> s.excerpt.hi - s.excerpt.lo == Min(length, end - position))
      && (s.heading < |anchors| ==>
            (s.excerpt.hi - s.excerpt.lo == Min(length, end - position) <==>
             region == 0 || position + region + length <= end))
  {
  }

  // ----- the results -----

  function Hits(sections: seq<Section>): seq<Hit> {
    if sections == [] then [] else Hits(sections[..|sections| - 1]) + sections[|sections| - 1].hits
  }

  ghost predicate InOrder(hits: seq<Hit>) {
    forall i, j | 0 <= i < j < |hits| :: hits[i].location <= hits[j].location
  }

  /** Proper sections under headings in order, each of which shows one of its hits when
      the excerpts are long enough. */
  ghost predicate Results(content: seq<Slot>, anchors: seq<nat>, length: nat, sections: seq<Section>) {
    && (forall k | 0 <= k < |sections| :: Proper(content, anchors, length, sections[k]))
    && (forall j, k | 0 <= j < k < |sections| :: sections[j].heading < sections[k].heading)
    && (length >= 3 ==> forall k | 0 <= k < |sections| && Positive(sections[k].hits) :: ShowsOwnHit(sections[k]))
  }

  /** The section that is done joins the results, if it has hits. */
  method Close(content: seq<Slot>, anchors: seq<nat>, length: nat, results: seq<Section>, heading: nat, hits: seq<Hit>)
    returns (more: seq<Section>)
    requires Ascending(anchors) && Filed(anchors, heading, hits) && Within(hits, |content|)
    requires Results(content, anchors, length, results)
    requires forall j | 0 <= j < |results| :: results[j].heading < heading
    ensures Hits(more) == Hits(results) + hits
    ensures Results(content, anchors, length, more)
    ensures forall j | 0 <= j < |more| :: more[j].heading <= heading
  {
    more := results;
    if hits != [] {
      var s := AddResult(content, anchors, length, heading, hits);
      more := results + [s];
      HitsSnoc(results, s, more);
      ResultsSnoc(content, anchors, length, results, s, more);
    }
  }

  lemma ResultsSnoc(content: seq<Slot>, anchors: seq<nat>, length: nat, results: seq<Section>, s: Section, more: seq<Section>)
    requires Results(content, anchors, length, results) && more == results + [s]
    requires Proper(content, anchors, length, s) && (length >= 3 && Positive(s.hits) ==> ShowsOwnHit(s))
    requires forall j | 0 <= j < |results| :: results[j].heading < s.heading
    ensures Results(content, anchors, length, more)
  {
  }

  lemma HitsSnoc(results: seq<Section>, s: Section, more: seq<Section>)
    requires more == results + [s]
    ensures Hits(more) == Hits(results) + s.hits
  {
    assert more[..|results|] == results;
  }

  /** What is filed after the hits `seen`: the results so far and the section at hand. */
  ghost predicate Filing(content: seq<Slot>, anchors: seq<nat>, length: nat, seen: seq<Hit>,
                         results: seq<Section>, heading: nat, current: seq<Hit>) {
    && Hits(results) + current == seen
    && Results(content, anchors, length, results)
    && (forall j | 0 <= j < |results| :: results[j].heading < heading)
    && Filed(anchors, heading, current) && (heading == 0 || current != [])
  }

  lemma OneMore(content: seq<Slot>, hits: seq<Hit>, k: nat, seen: seq<Hit>, word: Hit)
    requires InOrder(hits) && Within(hits, |content|) && k < |hits| && seen == hits[..k] && word == hits[k]
    ensures hits[..k + 1] == seen + [word]
    ensures Within(seen + [word], |content|)
    ensures forall h | h in seen :: h.location <= word.location
  {
    forall h | h in seen + [word] ensures h in hits {}
  }

  /** A hit after those of a section and before the next heading is under the same heading. */
  lemma SameSection(content: seq<Slot>, anchors: seq<nat>, length: nat, seen: seq<Hit>,
                    results: seq<Section>, heading: nat, current: seq<Hit>, word: Hit)
    requires Ascending(anchors) && Filing(content, anchors, length, seen, results, heading, current)
    requires forall h | h in seen :: h.location <= word.location
    requires heading == |anchors| || word.location < anchors[heading]
    ensures Filing(content, anchors, length, seen + [word], results, heading, current + [word])
  {
    assert Under(anchors, heading, word.location) by {
      if heading > 0 { assert current[0] in seen && Under(anchors, heading, current[0].location); }
    }
    assert Hits(results) + (current + [word]) == seen + [word];
  }

  /** `calculate_sub_results`, for the headings in order: every hit goes to the last heading
      at or before it, and no hit is lost or moved. */
  method SubResults(content: seq<Slot>, anchors: seq<nat>, hits: seq<Hit>, length: nat)
    returns (results: seq<Section>)
    requires Ascending(anchors) && InOrder(hits) && Within(hits, |content|)
    ensures Hits(results) == hits
    ensures Results(content, anchors, length, results)
  {
    results := [];
    var heading: nat, current := 0, [];
    for k := 0 to |hits|
      invariant Within(hits[..k], |content|) && Filing(content, anchors, length, hits[..k], results, heading, current)
    {
      OneMore(content, hits, k, hits[..k], hits[k]);
      results, heading, current := FileHit(content, anchors, length, hits[k], results, heading, current, hits[..k]);
    }
    results := Close(content, anchors, length, results, heading, current);
    assert hits[..|hits|] == hits;
  }

  /** One round: the hit joins the section at hand, or closes it and begins another one. `heading`
      says how many headings were taken from the queue. */
  method FileHit(content: seq<Slot>, anchors: seq<nat>, length: nat, word: Hit, results0: seq<Section>, heading0: nat,
                 current0: seq<Hit>, ghost seen: seq<Hit>)
    returns (results: seq<Section>, heading: nat, current: seq<Hit>)
    requires Ascending(anchors) && Filing(content, anchors, length, seen, results0, heading0, current0)
    requires Within(seen, |content|) && forall h | h in seen :: h.location <= word.location
    ensures Filing(content, anchors, length, seen + [word], results, heading, current)
  {
    results, heading, current := results0, heading0, current0;
    var queue := anchors[heading..];
    if queue == [] || word.location < queue[0] {
      SameSection(content, anchors, length, seen, results, heading, current, word);
      current := current + [word];
    } else {
      WithinCurrent(content, seen, results, current);
      results := Close(content, anchors, length, results, heading, current);
      heading := ShiftAnchors(anchors, heading, word.location);
      current := [word];
    }
  }

  lemma WithinCurrent(content: seq<Slot>, seen: seq<Hit>, results: seq<Section>, current: seq<Hit>)
    requires Hits(results) + current == seen && Within(seen, |content|)
    ensures Within(current, |content|)
  {
    forall h | h in current ensures h in seen {}
  }

  /** Take the next heading, and every one after it that the hit has passed too. */
  method ShiftAnchors(anchors: seq<nat>, passed: nat, location: nat) returns (heading: nat)
    requires Ascending(anchors) && passed < |anchors| && anchors[passed] <= location
    ensures Under(anchors, heading, location) && heading > passed
  {
    heading := passed + 1;
    var queue := anchors[heading..];
    while queue != [] && location >= queue[0]
      invariant passed < heading <= |anchors| && queue == anchors[heading..]
      invariant anchors[heading - 1] <= location
    {
      queue, heading := queue[1..], heading + 1;
    }
  }
}
