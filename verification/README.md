# Verified models of the repository's algorithms

This project models, in Dafny, the algorithms of the repository that have a provable core, and
proves what they are for. Each module follows one component of the repository in the form that
component has: loops over arrays, buffers and cursors are methods proved against specification
functions, objects are classes, expressions are functions.

`dafny verify dfyconfig.toml` checks everything.

## The components

**Inflating the search index** (`Bits`, `ReverseTable`, `Huffman`, `Deflate`, `Inflate`,
`DeflateEncoding`, `DeflateExamples`, `Gzip`, `GzipExample`; `docs/pagefind/pagefind-worker.js`). `Deflate` is a reference decoder
for RFC 1951, bit by bit and byte by byte, defined on every byte string. `Inflate` is the worker's
decoder: lookup tables, windows of two and three bytes, a match copy that is unrolled by four and
writes past the end of the match. It is proved equal to the reference on every byte string,
with the same error where there is one, so it also always ends. `Huffman` proves that the lookup
table is the canonical code of section 3.2.2, in both directions. `DeflateEncoding` writes
stored, fixed and dynamic blocks and proves that inflating undoes it. `DeflateExamples` ties the
constants that both share to the tables of the standard, and inflates two streams that are listed byte
by byte. `Gzip` is the header of RFC 1952 around it.

**Excerpts and sections of a search result** (`ExcerptRegion`, `SubResults`; the same file). The
sliding sum, the picking of the excerpt, and the filing of the hits under the headings.

**Keyed list updates** (`Sequences`, `KeyedEach`; `docs/pagefind/pagefind-ui.js`). The in-place
edit of an old list of blocks into a new one. The invariant leaves out the nodes that wait to be
moved or destroyed: without them the children are first the old blocks not yet looked at, in their
old order, and then the new ones in place.

**The text-range marker** (`RangeMarker`; `docs/pagefind/pagefind-highlight.js`). A map of offsets
over text nodes that is consumed while ranges are wrapped. For every filter it is proved which nodes are
split and where, and that a node that the filter rejects is left alone.

**The workspace publisher** (`Publisher`; `scripts/publish_workspace.py`). One run is driven by a
script of events: what each lookup sees, what each upload answers and whether it stores the crate
all the same, whether a deadline has passed. The run is killed where the script ends. The registry
keeps a trace of what was done with each event, and the claims, which are for every script, speak of
that trace.

**The confidence of an experiment** (`Confidence`; `crates/lash-autoresearch/src/model.rs`), over
exact reals.

**Language tags of the component UI** (`LanguageSubtags`, `LanguageGrammar`, `LanguageTag`, `LanguageExample`;
`docs/pagefind/pagefind-component-ui.js`). Both directions are proved: what is accepted is what is
written, and what is written is accepted.

**Templates** (`TemplateText`, `TemplateParser`, `TemplateRenderer`, `TemplateExamples`; the same file). `TemplateText`
says how a template is written, for every choice of blanks, quotation marks and spellings at every
single place: a layout is a function of the text that follows the place. The compiler is proved to
read every template back from every layout, and the renderer to give what it stands for; laws say what
that is for every kind of node, and that no markup comes from the data.

**Filters and navigation** (`FilterPane`, `LazyNavigation`; the same file). The filter pane is a class
whose methods are proved to make the steps of a relation between states, and the claims are about all
runs of that relation.

`Basics` holds what several modules use.

## Where the code does not do what one would expect

The models follow the code. In these places the expected property is false; each has its exact
condition:

- The picked excerpt starts one word before the heaviest window unless that window has an equal one
  right after it (`ExcerptRegion.RegionIsPeak`). An excerpt of one or two words can therefore miss
  every hit; from three words on it never does (`ExcerptRegion.ShowsHitExactly`).
- The excerpt of a section before the last heading is cut at the next heading and not moved back, so
  it can be shorter than the section would allow (`SubResults.ExcerptLength`).
- `checkRanges` compares a range's end with the end of the one before, so ranges that overlap pass
  (`RangeMarker.OverlapIsAccepted`, and `RangeMarker.OverlapExactly` says for which lists), although
  its log message calls them invalid. A range that starts inside an earlier one is then marked
  elsewhere, or passed over (`RangeMarker.TextMap.MarkRange` says when that leaves it marked).
- In the gzip header, the length of the extra field loses 2 when its second lowest bit is set, because
  the addition binds more tightly than the combination of the bytes. Whether that does harm is decided
  by `Gzip.Skippable`, exactly.
- A language tag that ends in a bare `x` is accepted and loses it, and a tag whose first variant begins
  like another subtag, such as `pt-ao1990`, is rejected although the grammar has it. `LanguageTag.Scan`
  says exactly when, by `LanguageGrammar.Misread`.
- Lazy navigation differs from navigation with everything loaded as soon as the first result has two
  options, and only then: it is the only result that can be selected before it has loaded
  (`LazyNavigation.LazyIsEagerExactly`). A failed load counts as one that has come to its end.
- The filter pane takes its keys apart at the first colon. The group of a filter goes wrong in some
  run exactly when empty values are not shown and its name has a colon, or another name begins with it
  and a colon (`FilterPane.RightExactly`). Drawing alone hides no group, and is right for a group
  exactly when that has something to show (`FilterPane.DrawnIsRight`).

## Model

| member | source | states |
|---|---|---|
| `ReverseTable.BuildReverseTable` | docs/pagefind/pagefind-worker.js:1 | `rev`: entry `i` of the 15-bit table is the 15 low bits of `i` in the opposite order |
| `ReverseTable.FourSwapsReverse` | docs/pagefind/pagefind-worker.js:1 | swapping neighbours, pairs, nibbles and bytes of a 16-bit word turns it round |
| `Huffman.FirstCodes` | docs/pagefind/pagefind-worker.js:1 | `hMap`: the first code of each length, in 16-bit counters, for every length vector |
| `Huffman.FillBlock` | docs/pagefind/pagefind-worker.js:1 | the block of table cells of one symbol is filled with its entry and no other cell changes |
| `Huffman.BuildTable` | docs/pagefind/pagefind-worker.js:1 | `hMap(cd, mb, 1)`: the table that the blocks of all symbols give, for every length vector up to 15 bits |
| `Huffman.BuildCodes` | docs/pagefind/pagefind-worker.js:1 | `hMap(cd, mb, 0)` for every length vector up to 15 bits; under the Kraft inequality each symbol's code with its bits in the order in which they are sent |
| `Huffman.CodeFits` | docs/pagefind/pagefind-worker.js:1 | under the Kraft inequality the canonical codes fit into their lengths, so the 16-bit counters lose nothing |
| `Huffman.BlocksDisjoint` | docs/pagefind/pagefind-worker.js:1 | under the Kraft inequality no cell of the table is filled by two symbols |
| `Huffman.PrefixFree` | docs/pagefind/pagefind-worker.js:1 | no canonical code is the beginning of another one |
| `Huffman.EntryOfCode` | docs/pagefind/pagefind-worker.js:1 | a pattern whose low bits are the code of symbol `i` is looked up as `i` with its length |
| `Huffman.CodeOfEntry` | docs/pagefind/pagefind-worker.js:1 | a pattern that is looked up as symbol `i` begins with the code of `i` |
| `Huffman.TableIsCanonical` | docs/pagefind/pagefind-worker.js:1 | both directions together: the lookup table is the canonical code of section 3.2.2 of RFC 1951 |
| `Inflate.Window2IsPeek` | docs/pagefind/pagefind-worker.js:1 | `bits`: shifting and masking two bytes reads the next up to 9 bits, lowest first |
| `Inflate.Window3IsPeek` | docs/pagefind/pagefind-worker.js:1 | `bits16`: the same through three bytes for up to 15 bits |
| `Inflate.BuildBasesAndLookup` | docs/pagefind/pagefind-worker.js:1 | `freb`: the running sums are the first length or distance of each symbol, and the second table looks every value between them up as its symbol and how far it is from there |
| `Inflate.LoadTables` | docs/pagefind/pagefind-worker.js:1 | the constant tables that are made when the script is loaded are those of sections 3.2.5 and 3.2.6 of RFC 1951 |
| `Inflate.CopyMatch` | docs/pagefind/pagefind-worker.js:1 | the copy that is unrolled by four and writes past the end gives the byte-by-byte copy of the match, overlapping or not |
| `Inflate.ReadCodeLengths` | docs/pagefind/pagefind-worker.js:1 | the loop over the code lengths, with its repeat codes, reads what the reference reads; it ends on every input |
| `Inflate.ReadDynamicHeader` | docs/pagefind/pagefind-worker.js:1 | the header of a dynamic block gives the listed code lengths, however malformed it is |
| `Inflate.ReadMatchRest` | docs/pagefind/pagefind-worker.js:1 | the rest of a length and distance pair is read through the tables as the format says |
| `Inflate.DecodeTokens` | docs/pagefind/pagefind-worker.js:1 | the symbol loop gives the reference's output or its error, and ends on every input |
| `Inflate.CopyStored` | docs/pagefind/pagefind-worker.js:1 | a stored block is copied, or fails exactly as the reference does when the data or the buffer end too early |
| `Inflate.DecodeBlocks` | docs/pagefind/pagefind-worker.js:1 | the block loop gives the reference's output or its error, and ends on every input |
| `Inflate.Inflate` | docs/pagefind/pagefind-worker.js:1 | `inflt` with a given buffer is the bit-by-bit reference decoder on every byte string, errors and clipping included |
| `DeflateExamples.OrderIsListed` | docs/pagefind/pagefind-worker.js:1 | `clim`: the order of the code length codes is the list of section 3.2.7 of RFC 1951 |
| `DeflateExamples.ExtraBitsAreListed` | docs/pagefind/pagefind-worker.js:1 | `fleb` and `fdeb`: the extra bits of the length and distance symbols are those of the tables of section 3.2.5 |
| `DeflateExamples.LengthsAreListed` | docs/pagefind/pagefind-worker.js:1 | the first lengths of the symbols 257 to 285 are those of the table of section 3.2.5 |
| `DeflateExamples.DistancesAreListed` | docs/pagefind/pagefind-worker.js:1 | the first distances of the symbols 0 to 29 are those of the table of section 3.2.5 |
| `DeflateExamples.FixedCodeWords` | docs/pagefind/pagefind-worker.js:1 | `flt`: the lengths and the code words of the fixed literal code are those of section 3.2.6 |
| `DeflateExamples.FixedDistanceWords` | docs/pagefind/pagefind-worker.js:1 | `fdt`: the fixed distance code is the five-bit numbers |
| `DeflateExamples.MatchRepeats` | docs/pagefind/pagefind-worker.js:1 | a match repeats the bytes that lie its distance back over and over |
| `DeflateExamples.FixedStreamInflates` | docs/pagefind/pagefind-worker.js:1 | the four bytes 75 68 6 0, a block with the fixed codes, are inflated to thirteen times the letter a |
| `DeflateExamples.DynamicStreamInflates` | docs/pagefind/pagefind-worker.js:1 | sixteen bytes that are listed, a block with its own codes and all kinds of runs in its header, are inflated to the same text |
| `DeflateEncoding.TokensOnWire` | docs/pagefind/pagefind-worker.js:1 | decoding written literals and matches gives their LZ77 expansion |
| `DeflateEncoding.RunsOnWire` | docs/pagefind/pagefind-worker.js:1 | decoding written code-length runs gives the lengths they stand for |
| `DeflateEncoding.HeaderOnWire` | docs/pagefind/pagefind-worker.js:1 | decoding a written dynamic header gives its code lengths |
| `DeflateEncoding.StoredOnWire` | docs/pagefind/pagefind-worker.js:1 | decoding a written stored block gives its bytes exactly if they end inside the buffer |
| `DeflateEncoding.FixedKraft` | docs/pagefind/pagefind-worker.js:1 | the fixed codes are complete codes |
| `DeflateEncoding.BlocksOnWire` | docs/pagefind/pagefind-worker.js:1 | decoding a written stream gives the expansion of its blocks in order |
| `DeflateEncoding.InflateUndoesEncoding` | docs/pagefind/pagefind-worker.js:1 | bytes that begin with a valid stream decode to its data, clipped at the buffer, and fail exactly if a stored block does not fit |
| `DeflateEncoding.RoundTrip` | docs/pagefind/pagefind-worker.js:1 | compressing any valid sequence of blocks and inflating gives the data back |
| `DeflateEncoding.EveryMatchHasToken` | docs/pagefind/pagefind-worker.js:1 | every length from 3 to 258 and every distance up to 32768 can be written, so the encoder reaches all of LZ77 |
| `Gzip.HeaderLength` | docs/pagefind/pagefind-worker.js:1 | `gzs`: where the header ends, on every byte string, or the error for a wrong magic number |
| `Gzip.HeaderIsSkipped` | docs/pagefind/pagefind-worker.js:1 | a header of RFC 1952 is skipped exactly if and only if its extra field has a length with the second bit clear, or a string after it hides the two missing bytes |
| `Gzip.Gunzip` | docs/pagefind/pagefind-worker.js:1 | `gunzipSync`: header, size and inflating put together |
| `Gzip.GunzipUndoesPacking` | docs/pagefind/pagefind-worker.js:1 | unpacking a packed member gives the data back, for every skippable header |
| `GzipExample.MemberIsUnpacked` | docs/pagefind/pagefind-worker.js:1 | a member that is listed byte by byte, with a file name in its header, is unpacked to its text |
| `ExcerptRegion.SumScores` | docs/pagefind/pagefind-worker.js:1 | the array of scores by word, which grows with the hits |
| `ExcerptRegion.ScoresAddUp` | docs/pagefind/pagefind-worker.js:1 | what several hits weigh at a word adds up, and a hit weighs only at its own word |
| `ExcerptRegion.SlideWindow` | docs/pagefind/pagefind-worker.js:1 | the running sum is the sum of its window, the weight kept is the maximum so far, and the labels are a run of maxima, one too low |
| `ExcerptRegion.CalculateRegion` | docs/pagefind/pagefind-worker.js:1 | `calculate_excerpt_region` returns the middle of that run, in closed form |
| `ExcerptRegion.RegionIsPeakOrNext` | docs/pagefind/pagefind-worker.js:1 | the window at the returned place or the one after it weighs the most of all windows |
| `ExcerptRegion.RegionIsPeak` | docs/pagefind/pagefind-worker.js:1 | exactly when the returned window itself weighs the most |
| `ExcerptRegion.RegionShowsHit` | docs/pagefind/pagefind-worker.js:1 | an excerpt of at least three words contains a hit |
| `ExcerptRegion.ShowsHitExactly` | docs/pagefind/pagefind-worker.js:1 | an excerpt of a given length contains a hit for all positive scores if and only if that length is at least three |
| `SubResults.MarkWords` | docs/pagefind/pagefind-worker.js:1 | each hit's word is marked once, whatever is listed twice, already marked or missing |
| `SubResults.MarkedOnce` | docs/pagefind/pagefind-worker.js:1 | a hit is the word between the two marks, and marking it again changes nothing |
| `SubResults.SliceShows` | docs/pagefind/pagefind-worker.js:1 | the excerpt shows the words of its stretch, each in its place |
| `SubResults.BuildExcerpt` | docs/pagefind/pagefind-worker.js:1 | `build_excerpt` shows as many words as fit between its caps, as near as possible to where they were asked for |
| `SubResults.FitsKeeps` | docs/pagefind/pagefind-worker.js:1 | what was asked for and lies between the caps is shown |
| `SubResults.AddResult` | docs/pagefind/pagefind-worker.js:1 | the excerpt of a section lies between its heading and the next, is its densest region, and contains one of its own hits when at least three words are asked for |
| `SubResults.ExcerptLength` | docs/pagefind/pagefind-worker.js:1 | exactly when the excerpt of a section is as long as it could be; before the last heading it is cut and not moved back |
| `SubResults.SubResults` | docs/pagefind/pagefind-worker.js:1 | `calculate_sub_results`: the sections' hits together are all hits in order, each under the last heading at or before it, one section for each heading |
| `KeyedEach.PassOld` | docs/pagefind/pagefind-ui.js:1 | an old block that is dropped or waits to be moved can be passed over without touching the order |
| `KeyedEach.StayInPlace` | docs/pagefind/pagefind-ui.js:1 | a block that is common to both ends stays where it is |
| `KeyedEach.InsertNext` | docs/pagefind/pagefind-ui.js:1 | inserting the next new block settles it, wherever its node was |
| `KeyedEach.OrderedAtEnd` | docs/pagefind/pagefind-ui.js:1 | when the dropped nodes are gone the children are the new blocks in order |
| `KeyedEach.LastsAgree` | docs/pagefind/pagefind-ui.js:1 | where both lists have the same order their last common blocks are the same, so nothing is moved |
| `KeyedEach.KeyedList.Insert` | docs/pagefind/pagefind-ui.js:1 | `insertBefore` during an update keeps the invariant that leaves out the waiting nodes |
| `KeyedEach.KeyedList.Destroy` | docs/pagefind/pagefind-ui.js:1 | `zl`: the outro of a dropped block is started once |
| `KeyedEach.KeyedList.CheckOutros` | docs/pagefind/pagefind-ui.js:1 | `re`/`ie`: the waiting nodes are removed, each once, and their keys forgotten |
| `KeyedEach.KeyedList.CreateBlocks` | docs/pagefind/pagefind-ui.js:1 | blocks whose keys are known are used again, the others are created |
| `KeyedEach.KeyedList.WalkBoth` | docs/pagefind/pagefind-ui.js:1 | the first loop of `Jl`, with its will-move and did-move sets; for one block that goes to an end it leaves exactly one insertion in all |
| `KeyedEach.KeyedList.Decide` | docs/pagefind/pagefind-ui.js:1 | of two different blocks the new one is inserted at once if it was not there, is to be moved, or is further from its old place than the old one from its new place; otherwise the old one is passed and to be moved, unless it was |
| `KeyedEach.OneStep` | docs/pagefind/pagefind-ui.js:1 | when one block goes to an end, every round of the first loop leads on along the way that inserts one node only |
| `KeyedEach.KeyedList.Update` | docs/pagefind/pagefind-ui.js:1 | `Jl` with its outro group leaves exactly the new blocks in order, keeps the identity of every known key, destroys each dropped block once; among all insertions it makes each node is inserted at most once, every new one is, and no other one when the order is kept; when one block went to the end or to the front, exactly one |
| `RangeMarker.CheckRanges` | docs/pagefind/pagefind-highlight.js:576-619 | exactly the ranges are let through that have a length and end behind the last one let through |
| `RangeMarker.AcceptedAre` | docs/pagefind/pagefind-highlight.js:599-607 | a range is let through if and only if it has a length and ends behind all ranges before it that have one |
| `RangeMarker.AcceptedEndsGrow` | docs/pagefind/pagefind-highlight.js:599-607 | the ends of what is let through grow |
| `RangeMarker.OverlapIsAccepted` | docs/pagefind/pagefind-highlight.js:599-607 | which does not keep ranges from overlapping |
| `RangeMarker.OverlapExactly` | docs/pagefind/pagefind-highlight.js:599-607 | what is let through does not overlap if and only if every range that ends behind all earlier ones also starts behind them |
| `RangeMarker.TextMap.constructor` | docs/pagefind/pagefind-highlight.js:648-669 | `getTextNodes`: offsets and value of a fresh map |
| `RangeMarker.TextMap.WrapInTextNode` | docs/pagefind/pagefind-highlight.js:677-687 | `wrapRangeInTextNode`: one text node becomes text, mark element and text |
| `RangeMarker.TextMap.Shift` | docs/pagefind/pagefind-highlight.js:701-708 | the offsets of the entries behind the wrapped one move up |
| `RangeMarker.WrapMarks` | docs/pagefind/pagefind-highlight.js:677-700 | wrapping inside one node marks exactly the wrapped characters of the document |
| `RangeMarker.ConsumeConsistent` | docs/pagefind/pagefind-highlight.js:698-708 | what is wrapped is taken off the value and all offsets, so that the map is consistent again |
| `RangeMarker.TextMap.WrapRange` | docs/pagefind/pagefind-highlight.js:690-719 | `wrapRangeInMappedTextNode`, for every range and filter: every node that the filter rejects stays as it was, every other one up to the first rejected node of the range is split exactly where the range touches it, and the text and the map's consistency are kept; exactly these characters of the document are marked when nothing behind the range's start was touched |
| `RangeMarker.RejectedStay` | docs/pagefind/pagefind-highlight.js:690-697 | wrapping that ends at the first rejected node leaves the pieces and the text of every node that the filter rejects as they were |
| `RangeMarker.StopIsOnly` | docs/pagefind/pagefind-highlight.js:690-697 | there is only one place where wrapping can end: the first node that the range reaches and the filter rejects, or the end of the range |
| `RangeMarker.StopInDocument` | docs/pagefind/pagefind-highlight.js:690-719 | the place in the map where wrapping ends is the place of that node in the document |
| `RangeMarker.SpacesAreListed` | docs/pagefind/pagefind-highlight.js:623-645 | the characters that `\s` matches, by their numbers |
| `RangeMarker.SamePart` | docs/pagefind/pagefind-highlight.js:623-645 | behind the last wrapped range the whitespace check sees the same text in the map as in the document |
| `RangeMarker.TextMap.MarkRange` | docs/pagefind/pagefind-highlight.js:778-787 | with any filter, a range that does not start before the end of what was wrapped last is marked from its start to the first text node that the filter rejects, or to its end, and nothing else is; with a filter that accepts everything a range that does start before is marked exactly only if it is passed over and all of it was marked before, which is never so where it reaches past that end |
| `RangeMarker.MarkedElsewhere` | docs/pagefind/pagefind-highlight.js:778-787 | a range that starts too early marks other characters than its own |
| `RangeMarker.TextMap.WrapRangeFromIndex` | docs/pagefind/pagefind-highlight.js:774-790 | for ranges that do not overlap and any filter, the marked characters are exactly those of the ranges that are not blank, of each up to the first text node that its filter rejects; with a filter that accepts everything these are all of them, for every split into text nodes |
| `RangeMarker.MarkRanges` | docs/pagefind/pagefind-highlight.js:575-790 | checking and marking on a fresh document, with the same result |
| `Publisher.LoadPackages` | scripts/publish_workspace.py:94-123 | the publishable workspace packages, each with exactly those of them it depends on by path |
| `Publisher.StuckHasCycle` | scripts/publish_workspace.py:72-84 | where every package left waits for another one left, there is a dependency cycle |
| `Publisher.OrderedMeansAcyclic` | scripts/publish_workspace.py:71-91 | packages that can be published in dependency order have no cycle |
| `Publisher.Registry.Lookup` | scripts/publish_workspace.py:194-212 | a lookup may miss a crate that is there, but does not invent one |
| `Publisher.Registry.Upload` | scripts/publish_workspace.py:136-143 | an upload may store the crate whatever it answers; what it stores keeps the registry installable |
| `Publisher.WaitForVersion` | scripts/publish_workspace.py:166-174 | waiting makes lookups that miss the crate until one sees it, the deadline has passed or the process is killed, and ends accordingly |
| `Publisher.PublishPackage` | scripts/publish_workspace.py:126-163 | one package, for every script: a lookup, then at most the allowed number of uploads, each but the last with a transient answer in time, then waiting if the last was accepted; and exactly which of these end well, fail or are killed |
| `Publisher.FailureShows` | scripts/publish_workspace.py:126-174 | publishing fails only where a deadline had passed, an upload was refused for good, or all attempts were answered transiently |
| `Publisher.RecoveredIsDone` | scripts/publish_workspace.py:136-163 | a missed lookup, fewer transient answers than attempts, then success or already there, and a lookup that sees the stored crate, all in time, end well |
| `Publisher.PublishAfterRetries` | scripts/publish_workspace.py:126-163 | so a package with such a script is published |
| `Publisher.LookUpAll` | scripts/publish_workspace.py:65-69 | the first pass splits the packages into those seen and those still to be published |
| `Publisher.PublishWave` | scripts/publish_workspace.py:86-91 | one wave publishes what was ready when it began |
| `Publisher.PublishPending` | scripts/publish_workspace.py:71-91 | the loop publishes every pending package once, after its dependencies, or stops at a cycle |
| `Publisher.Run` | scripts/publish_workspace.py:53-91 | `main` under every behaviour of the world and cut off anywhere: success means all are published in dependency order and there is no cycle, the cycle error means there is one, a failure means that the last step gave one of its three reasons, and nothing is uploaded more often than allowed |
| `Publisher.RunUndisturbed` | scripts/publish_workspace.py:53-91 | in a cooperative world the cycle error is raised if and only if the packages that were not visible have a cycle |
| `Publisher.RunAgainAndAgain` | scripts/publish_workspace.py:53-174 | over any number of runs, each cut off anywhere, the registry is closed under workspace dependencies at every moment and loses nothing |
| `Confidence.AscendingIsUnique` | crates/lash-autoresearch/src/model.rs:586-588 | there is only one ascending order of the values, so any sort gives this median |
| `Confidence.HalfIsNear` | crates/lash-autoresearch/src/model.rs:586-594 | more than half of the values are as near to the median as each bound of the values is |
| `Confidence.MadBound` | crates/lash-autoresearch/src/model.rs:565-571 | the median absolute deviation is at most half of the range, for odd and even lengths |
| `Confidence.NoDeviation` | crates/lash-autoresearch/src/model.rs:565-574 | it is zero exactly when more than half of the values are the median |
| `Confidence.BestIsBest` | crates/lash-autoresearch/src/model.rs:575-581 | the reduction gives a value that no other one is better than |
| `Confidence.ConfidenceIsTold` | crates/lash-autoresearch/src/model.rs:561-584 | for both directions, a confidence is told if and only if there are three values, the baseline is finite and not 0, the values deviate, and the largest or smallest value is not the baseline; it is their distance in units of the deviation |
| `Confidence.DirectionsMirror` | crates/lash-autoresearch/src/model.rs:561-584 | what is told for one direction is told for the other one with all signs changed |
| `Confidence.EpsilonIsThat` | crates/lash-autoresearch/src/model.rs:562-583 | the smallest distance that counts is 2 to the power of -52 |
| `Confidence.CandidateAgreesWithSummary` | crates/lash-autoresearch/src/model.rs:493-504 | the confidence told for a candidate is the one of the summary after it is logged |
| `Confidence.ConfidenceIsAtLeastTwo` | crates/lash-autoresearch/src/model.rs:561-584 | where the baseline is the worst value a confidence that is told is at least 2 |
| `Confidence.SummaryIsAtLeastTwo` | crates/lash-autoresearch/src/model.rs:546-559 | the same for a journal whose first result is the worst finite one |
| `Confidence.TwoIsReached` | crates/lash-autoresearch/src/model.rs:561-584 | 2 is reached, for every baseline and distance above the threshold |
| `Confidence.BestMetric` | crates/lash-autoresearch/src/model.rs:526-544 | the best of the kept finite metrics, or the first finite one when none was kept |
| `LanguageSubtags.SplitOfAll` | docs/pagefind/pagefind-component-ui.js:1 | splitting an extension at hyphens undoes joining it |
| `LanguageGrammar.Align` | docs/pagefind/pagefind-component-ui.js:1 | what a phase of the scan has consumed, up to the end of a subtag, are the first of the subtags ahead: a tag is divided in one way only |
| `LanguageGrammar.ExtlangsFit` | docs/pagefind/pagefind-component-ui.js:1 | the extended language subtags found are those meant, unless the next subtag looks like one for three letters; then the scan ends inside it |
| `LanguageGrammar.SameExtensions` | docs/pagefind/pagefind-component-ui.js:1 | a list of subtags is divided into extensions in one way only |
| `LanguageGrammar.AfterRegion` | docs/pagefind/pagefind-component-ui.js:1 | after script and region, either everything meant was found or the first variant was misread |
| `LanguageGrammar.MisreadVariant` | docs/pagefind/pagefind-component-ui.js:1 | variants of two letters and digits, such as `ao1990`, are misread |
| `LanguageTag.ScanExtlangs` | docs/pagefind/pagefind-component-ui.js:1 | at most three extended language subtags, of three letters each, with exactly their text consumed; the scan goes on as long as there are any |
| `LanguageTag.ScanVariants` | docs/pagefind/pagefind-component-ui.js:1 | variants of the shape of the grammar, with exactly their text consumed; it fails only at a subtag of more than eight characters |
| `LanguageTag.ScanExtensions` | docs/pagefind/pagefind-component-ui.js:1 | extensions of the shape of the grammar, with exactly their text consumed; it fails only at an empty extension or a subtag that is too long |
| `LanguageTag.KeptPrivateUse` | docs/pagefind/pagefind-component-ui.js:1 | with an introducer and something after it the tag can be written back |
| `LanguageTag.LostIntroducer` | docs/pagefind/pagefind-component-ui.js:1 | an introducer of private use with nothing after it is forgotten |
| `LanguageTag.PreferredIsWritten` | docs/pagefind/pagefind-component-ui.js:1 | every preferred tag of the table is a tag of the grammar that is not in the table itself and not misread |
| `LanguageTag.Scan` | docs/pagefind/pagefind-component-ui.js:1 | `ze` outside its table: what is accepted has the shape of section 2.1 of RFC 5646 and is the hyphen-join of its parts, exactly unless it ends in a bare introducer; and every tag of that shape is accepted with exactly its parts, if and only if its first variant is not misread |
| `LanguageTag.Parse` | docs/pagefind/pagefind-component-ui.js:1 | `ze` with its table: an irregular or regular tag is kept whole or, where it is normalized and a tag is preferred to it, gives that one's parts; all others are scanned |
| `LanguageTag.CaseIsIgnored` | docs/pagefind/pagefind-component-ui.js:1 | tags that differ in case only are looked up alike in the table |
| `LanguageExample.ParseExample` | docs/pagefind/pagefind-component-ui.js:1 | the tag zh-cmn-Hans-CN-1996-u-co-phonebk-x-y gives its parts of every kind |
| `TemplateText.EscapeIsPlain` | docs/pagefind/pagefind-component-ui.js:2-4 | text with every `{{` escaped has nothing to compile and is the text again without the backslashes |
| `TemplateText.PlainIsWritten` | docs/pagefind/pagefind-component-ui.js:2-4 | text with nothing to compile is a template in its written form, in every layout: text nodes that say it without the backslashes |
| `TemplateParser.Compiler.ReadString` | docs/pagefind/pagefind-component-ui.js:2-4 | a quoted string gives the text it was written for and ends behind its quotation mark; one that is never closed is empty and takes everything |
| `TemplateParser.Compiler.ReadNumber` | docs/pagefind/pagefind-component-ui.js:2-4 | a written number is read as it is, sign and dot included, and nothing behind it |
| `TemplateParser.Compiler.ReadExpression` | docs/pagefind/pagefind-component-ui.js:2-4 | `l` ends on every input, moves the cursor only forward and inside the text, and consumes something wherever it begins before the end; and a written expression is read as exactly that expression |
| `TemplateParser.Compiler.ReadTag` | docs/pagefind/pagefind-component-ui.js:2-4 | a written insertion, raw or not, condition or loop is read as exactly that node, with its branches, names and inner nodes |
| `TemplateParser.Compiler.ReadNodes` | docs/pagefind/pagefind-component-ui.js:2-4 | `o` ends on every input at a stop or at the end; written nodes are read as exactly those nodes, up to the stop that follows them |
| `TemplateParser.Compile` | docs/pagefind/pagefind-component-ui.js:2-4 | `R`: of every template that can be written, in whatever layout at each of its places, compiling gives exactly the template |
| `TemplateExamples.CompileConditional` | docs/pagefind/pagefind-component-ui.js:2-4 | a listed template with a condition, a further branch, an else part and a raw insertion is compiled to its nodes |
| `TemplateExamples.CompileLoop` | docs/pagefind/pagefind-component-ui.js:2-4 | so is one with a loop with an index, a pipe with arguments, a string with escapes, a number, escaped braces, and a call with constants |
| `TemplateRenderer.EscapeIsEntities` | docs/pagefind/pagefind-component-ui.js:2-4 | `ga`: the five replacements do not meddle with each other |
| `TemplateRenderer.EscapedReadsBack` | docs/pagefind/pagefind-component-ui.js:2-4 | what is inserted reads as what it was, and nothing of it reads as markup |
| `TemplateRenderer.InsertionIsEscaped` | docs/pagefind/pagefind-component-ui.js:2-4 | an insertion has none of the characters of markup and reads as the shown value; undefined and null give nothing, arrays and objects their error texts |
| `TemplateRenderer.RawIsAsItIs` | docs/pagefind/pagefind-component-ui.js:2-4 | a raw insertion is the shown value itself, nothing for undefined and null, and the error texts for arrays and objects |
| `TemplateRenderer.NoMarkupFromData` | docs/pagefind/pagefind-component-ui.js:2-4 | whatever the data are, a character of markup that a template without raw insertions does not write itself is not in what it renders |
| `TemplateRenderer.FalseValues` | docs/pagefind/pagefind-component-ui.js:2-4 | what counts as false: undefined, null, false, 0, NaN, and the empty text, array and object |
| `TemplateRenderer.PipeIsCall` | docs/pagefind/pagefind-component-ui.js:2-4 | a pipe is the call with what is on its left as the first argument |
| `TemplateRenderer.NameIsRead` | docs/pagefind/pagefind-component-ui.js:2-4 | a name is read in the scope |
| `TemplateRenderer.FieldIsRead` | docs/pagefind/pagefind-component-ui.js:2-4 | behind a dot an own field of what is in front of it is read, and undefined where there is none |
| `TemplateRenderer.LiteralsStandForThemselves` | docs/pagefind/pagefind-component-ui.js:2-4 | what is written out stands for itself |
| `TemplateRenderer.FirstBranchRenders` | docs/pagefind/pagefind-component-ui.js:2-4 | of a condition the body of the first branch whose condition counts as true is rendered |
| `TemplateRenderer.NoBranchRenders` | docs/pagefind/pagefind-component-ui.js:2-4 | when there is none, it is the else part |
| `TemplateRenderer.EachRenders` | docs/pagefind/pagefind-component-ui.js:2-4 | a loop renders its body once for every item in order, with the item and its number bound and all other names as outside, and its else part for an empty array |
| `TemplateRenderer.EachNeedsArray` | docs/pagefind/pagefind-component-ui.js:2-4 | a loop over what is no array gives the error text |
| `TemplateRenderer.ConcatRenders` | docs/pagefind/pagefind-component-ui.js:2-4 | nodes are rendered one after the other |
| `TemplateRenderer.Render` | docs/pagefind/pagefind-component-ui.js:2-4 | `ve` gives the text that the nodes stand for: insertions, first true branches, loops with their bindings |
| `TemplateRenderer.RenderWritten` | docs/pagefind/pagefind-component-ui.js:2-4 | a written template is rendered as what the template stands for, whatever its layout |
| `TemplateRenderer.RenderPlain` | docs/pagefind/pagefind-component-ui.js:2-4 | text with nothing to compile loses only the backslashes in front of its braces |
| `TemplateRenderer.RoundTrip` | docs/pagefind/pagefind-component-ui.js:2-4 | any text, escaped, compiled and rendered with any data, is the text again |
| `FilterPane.KeyParts` | docs/pagefind/pagefind-component-ui.js:39 | splitting a key at its first colon gives filter and value back when the filter has no colon |
| `FilterPane.KeyMisread` | docs/pagefind/pagefind-component-ui.js:39 | the key of a filter with a colon is taken for one of the filter before that colon |
| `FilterPane.ShownLabel` | docs/pagefind/pagefind-component-ui.js:39 | a checked label is shown with the total number of its results, any other one with the number available now and hidden when that is 0 and empty labels are not asked for |
| `FilterPane.SelectedIsChecked` | docs/pagefind/pagefind-component-ui.js:39 | checked are exactly the values that are searched for |
| `FilterPane.Pane.UpdateLabel` | docs/pagefind/pagefind-component-ui.js:39 | one round of `updateFilters`: the label of a key is shown for what the key is taken for, and the counter of what it is taken for moves when it appears or disappears |
| `FilterPane.Pane.UpdateFilters` | docs/pagefind/pagefind-component-ui.js:39 | `updateFilters`, for all names: which labels change and how, by how much each counter moves, and that exactly the groups with counter zero are hidden |
| `FilterPane.UpdateCounts` | docs/pagefind/pagefind-component-ui.js:39 | a counter that agreed with a recount does so after an update, and its group is hidden exactly when it has nothing to show, if no key is mistaken for one of it |
| `FilterPane.Pane.RenderFilterGroup` | docs/pagefind/pagefind-component-ui.js:39 | `renderFilterGroup`: one group with a label for each value and the number of visible ones; nothing for a filter without values |
| `FilterPane.Pane.RenderFilters` | docs/pagefind/pagefind-component-ui.js:39 | `renderFilters`: every filter and value is drawn as it is to be seen, all counters agree with a recount, and no group is hidden |
| `FilterPane.DrawnIsRight` | docs/pagefind/pagefind-component-ui.js:39 | after drawing, a group is hidden exactly when it is empty if and only if it has something to show |
| `FilterPane.Pane.HandleFiltersUpdate` | docs/pagefind/pagefind-component-ui.js:39 | drawing when there is something new and updating otherwise |
| `FilterPane.Pane.OnFilters` | docs/pagefind/pagefind-component-ui.js:39 | the event with new counts is one step of the pane |
| `FilterPane.Pane.OnSearch` | docs/pagefind/pagefind-component-ui.js:39 | the event with newly selected filters is one step of the pane |
| `FilterPane.Pane.Replay` | docs/pagefind/pagefind-component-ui.js:39 | any sequence of events is a run of the pane |
| `FilterPane.StepShows` | docs/pagefind/pagefind-component-ui.js:39 | after a drawing or an update every label of an unmistaken filter is shown as it is now, and new counts find a label for each value |
| `FilterPane.RunIsRight` | docs/pagefind/pagefind-component-ui.js:39 | after any run the counters of all safe groups agree with a recount, and after an update exactly the empty ones of them are hidden |
| `FilterPane.RightExactly` | docs/pagefind/pagefind-component-ui.js:39 | a group is hidden exactly when it is empty, after every update of every run, if and only if empty values are shown, or its filter has no colon in its name and no other name begins with this one and a colon |
| `FilterPane.AllRightExactly` | docs/pagefind/pagefind-component-ui.js:39 | this holds for all groups if and only if empty values are shown or no filter has a colon in its name |
| `FilterPane.ColonGroup` | docs/pagefind/pagefind-component-ui.js:39 | for every name with a colon a pane reached by two events whose group is shown and empty |
| `LazyNavigation.Searchbox.constructor` | docs/pagefind/pagefind-component-ui.js:56 | `handleResults`: nothing loaded, the first result selected |
| `LazyNavigation.Searchbox.MoveSelection` | docs/pagefind/pagefind-component-ui.js:56 | `moveSelection` is one press up or down |
| `LazyNavigation.UpUndoesDown` | docs/pagefind/pagefind-component-ui.js:56 | a press up leads back from where a press down led, also to the last option of the result before |
| `LazyNavigation.DownUndoesUp` | docs/pagefind/pagefind-component-ui.js:56 | a press down leads back from where a press up led, when the result that was left is loaded |
| `LazyNavigation.Searchbox.HandleResultLoaded` | docs/pagefind/pagefind-component-ui.js:56 | `handleResultLoaded` follows the pending presses as far as there are results |
| `LazyNavigation.Searchbox.FinishLoading` | docs/pagefind/pagefind-component-ui.js:56 | the end of a load, with data or without |
| `LazyNavigation.SettleTracks` | docs/pagefind/pagefind-component-ui.js:56 | following pending presses leads to where they lead, and leaves none that could be followed |
| `LazyNavigation.LazyIsEager` | docs/pagefind/pagefind-component-ui.js:56 | once everything has loaded, nothing is pending and the selection is where the presses would have led at once, if the first result has one option or loads first |
| `LazyNavigation.OneOptionEach` | docs/pagefind/pagefind-component-ui.js:56 | with one option each that is the number of presses, up to the last result |
| `LazyNavigation.PressesCount` | docs/pagefind/pagefind-component-ui.js:56 | presses lead down one option each, through all options of all results in their order, up to the last one |
| `LazyNavigation.LazyIsEagerExactly` | docs/pagefind/pagefind-component-ui.js:56 | it holds for all orders of loads and presses if and only if the first result has at most one option |

## Left out

- Parts of the inflater: the growing buffer and the resumable state of `inflt` (`cbuf`, `st`), since `gunzipSync` is its only caller and passes a buffer.
- NLEN, the header checksum and the CRC are not checked by the code, so the model says nothing of them; streams whose code lengths violate the Kraft inequality are decoded as the code does, but the table is proved canonical only for codes that satisfy it.
- `Inflate.Inflate`: the buffer is an array of bytes of the announced size, and writing past its end does nothing, as in a typed array.
- Scores are exact reals, without rounding and NaN, in `ExcerptRegion` and `Confidence`.
- Splitting content into words, joining and trimming the excerpt, filtering and sorting the headings, URLs: library functions around `build_excerpt` and `calculate_sub_results`. Hits are sorted and lie inside the content, as the index gives them.
- Keyed lists: the blocks' own updates (`block.p`), delays of transitions and the non-null anchor of nested lists; the keys of a list are distinct, as keyed lists require.
- `KeyedEach.KeyedList.CheckOutros`: the outros end after the update, all together and in order.
- The marker: regular expressions, iframes, the DOM tree above the text nodes, attributes of the mark element, reporting of ranges that do not match, the parsing of numbers. `sort` by start is a library function, so `RangeMarker.CheckRanges` takes sorted ranges.
- `RangeMarker.TextMap.MarkRange`: of a range that starts before the end of what was wrapped last, what is marked is told for a filter that accepts everything; for other filters `RangeMarker.TextMap.WrapRange` says which nodes are split and where.
- The publisher: cargo, HTTP, JSON, wall-clock time and the texts by which answers are told apart; delays between attempts. Packages that are ready together are published in any order, not only by name, and the claims hold for all of these orders.
- The sort in `median` is a library function; `Confidence.AscendingIsUnique` says that it can have only one result.
- Language tags: warnings and the forgiving option, tags that are not ASCII.
- `TemplateParser.Compile`: of a text that is no template in written form it says that compiling ends, and not which nodes come out: unknown blocks, missing words and braces, trees that no proper text stands for, such as a path with an empty first part.
- Templates: the built-in functions, the properties of arrays and texts, number parsing and printing are parameters of the renderer. An empty else part and a missing one are not told apart, since they render alike.
- The filter pane's DOM, the order of the labels, the selected-count label and the checkbox events; the search box's DOM, timers, announcements and preloading, since any result may load at any time.
- The Rust turn machine, stores and lashlang virtual machine, the profiling and release scripts and the other documentation scripts are not part of this model.
