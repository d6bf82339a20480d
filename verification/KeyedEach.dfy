/** Keyed list reconciliation of the search UI's component runtime: an old list of blocks
    is edited into a new one, right to left, by moving and inserting the blocks' nodes. */
module KeyedEach {
  import opened Sequences

  type Key = string

  /** What is rendered for one list item; a block is known by its identity. */
  class Block {
    const key: Key

    constructor (key: Key)
      ensures this.key == key
    {
      this.key := key;
    }
  }

  function Keys(s: seq<Block>): (r: seq<Key>)
    ensures |r| == |s| && forall i | 0 <= i < |s| :: r[i] == s[i].key
  {
    seq(|s|, i requires 0 <= i < |s| => s[i].key)
  }

  // ----- the order of the child nodes -----

  /** The old blocks of `rest` that are not among the new blocks `placed`. */
  ghost function Left(rest: seq<Block>, placed: seq<Block>): seq<Block> {
    Keep(rest, SetOf(rest) - SetOf(placed))
  }

  /** `rest` are the old blocks still to be looked at and `placed` the new ones already in
      place. The child nodes of all other blocks wait to be moved or destroyed; without
      them, the children are first those of `rest` that were not moved yet, in their old
      order, and then `placed`. */
  ghost predicate Ordered(children: seq<Block>, rest: seq<Block>, placed: seq<Block>) {
    Keep(children, SetOf(rest) + SetOf(placed)) == Left(rest, placed) + placed
  }

  lemma OrderedAtStart(blocks: seq<Block>)
    ensures Ordered(blocks, blocks, [])
  {
    KeepAll(blocks, SetOf(blocks) + SetOf<Block>([]));
    KeepAll(blocks, SetOf(blocks) - SetOf<Block>([]));
  }

  lemma LeftSnoc(rest: seq<Block>, b: Block, placed: seq<Block>)
    requires b !in rest
    ensures Left(rest + [b], placed) == Left(rest, placed) + if b in placed then [] else [b]
  {
    KeepSnoc(rest, b, SetOf(rest + [b]) - SetOf(placed));
    KeepSame(rest, SetOf(rest + [b]) - SetOf(placed), SetOf(rest) - SetOf(placed));
  }

  /** Nothing needs to be done to pass an old block that is dropped, moved later or was
      moved before. */
  lemma PassOld(children: seq<Block>, rest: seq<Block>, b: Block, placed: seq<Block>)
    requires b !in rest && Ordered(children, rest + [b], placed)
    ensures Ordered(children, rest, placed)
  {
    LeftSnoc(rest, b, placed);
    var middle := if b in placed then [] else [b];
    assert SetOf(rest) + SetOf(placed) <= SetOf(rest + [b]) + SetOf(placed);
    KeepFewer(children, SetOf(rest + [b]) + SetOf(placed), SetOf(rest) + SetOf(placed),
              Left(rest, placed), middle, placed);
  }

  /** A new block that is at its old place stays there. */
  lemma StayInPlace(children: seq<Block>, rest: seq<Block>, b: Block, placed: seq<Block>)
    requires b !in rest && b !in placed && Ordered(children, rest + [b], placed)
    ensures Ordered(children, rest, [b] + placed)
  {
    LeftSnoc(rest, b, placed);
    KeepSame(rest, SetOf(rest) - SetOf(placed), SetOf(rest) - SetOf([b] + placed));
    assert Left(rest, placed) + [b] + placed == Left(rest, [b] + placed) + ([b] + placed);
    assert SetOf(rest + [b]) + SetOf(placed) == SetOf(rest) + SetOf([b] + placed);
  }

  /** The child nodes after `b` was put in front of `anchor`, or at the end. */
  function Inserted(children: seq<Block>, b: Block, anchor: Block?): (r: seq<Block>)
    ensures b in r && forall x | x in r :: x in children || x == b
  {
    var others := Without(children, b);
    if anchor == null then others + [b] else PlaceBefore<Block>(others, b, anchor)
  }

  /** The node in front of which the next one goes: the first one that is in place. */
  function First(placed: seq<Block>): Block? {
    if placed == [] then null else placed[0]
  }

  /** Inserting the next new block settles it, wherever it was before. */
  lemma InsertNext(children: seq<Block>, rest: seq<Block>, b: Block, placed: seq<Block>)
    requires b !in placed && Ordered(children, rest, placed)
    ensures Ordered(Inserted(children, b, First(placed)), rest, [b] + placed)
  {
    var others, left := Without(children, b), Left(rest, [b] + placed);
    var after := SetOf(rest) + SetOf([b] + placed);
    OthersOrdered(children, rest, b, placed);
    assert left + [b] + placed == left + ([b] + placed);
    if placed == [] {
      KeepSnoc(others, b, after);
      assert left + placed == left;
    } else {
      KeepPlace(others, b, placed[0], after);
      PlaceAt(left, placed, b);
    }
  }

  lemma OthersOrdered(children: seq<Block>, rest: seq<Block>, b: Block, placed: seq<Block>)
    requires b !in placed && Ordered(children, rest, placed)
    ensures Keep(Without(children, b), SetOf(rest) + SetOf([b] + placed)) == Left(rest, [b] + placed) + placed
  {
    var settled, after := SetOf(rest) + SetOf(placed), SetOf(rest) + SetOf([b] + placed);
    KeepWithout(children, b, after);
    assert after - {b} == settled * (settled - {b});
    KeepKeep(children, settled, settled - {b});
    KeepConcat(Left(rest, placed), placed, settled - {b});
    KeepAll(placed, settled - {b});
    KeepKeep(rest, SetOf(rest) - SetOf(placed), settled - {b});
    KeepSame(rest, (SetOf(rest) - SetOf(placed)) * (settled - {b}), SetOf(rest) - SetOf([b] + placed));
  }

  /** Once everything is settled, taking away what is not new leaves the new list. */
  lemma OrderedAtEnd(children: seq<Block>, placed: seq<Block>, gone: set<Block>)
    requires Ordered(children, [], placed)
    requires forall x | x in children :: x in placed || x in gone
    requires forall x | x in placed :: x !in gone
    ensures Keep(children, SetOf(children) - gone) == placed
  {
    KeepSame(children, SetOf(children) - gone, SetOf<Block>([]) + SetOf(placed));
  }

  // ----- dropped blocks -----

  /** The blocks from `c` on whose keys are gone, the last one first. */
  function Dropped(blocks: seq<Block>, c: nat, keys: set<Key>): (r: seq<Block>)
    requires c <= |blocks|
    ensures forall b | b in r :: b in blocks[c..] && b.key !in keys
    ensures forall b | b in blocks[c..] && b.key !in keys :: b in r
    decreases |blocks| - c
  {
    if c == |blocks| then []
    else Dropped(blocks, c + 1, keys) + if blocks[c].key in keys then [] else [blocks[c]]
  }

  lemma {:induction false} DroppedDistinct(blocks: seq<Block>, c: nat, keys: set<Key>)
    requires c <= |blocks| && Distinct(blocks)
    ensures Distinct(Dropped(blocks, c, keys))
    decreases |blocks| - c
  {
    if c < |blocks| { DroppedDistinct(blocks, c + 1, keys); }
  }

  // ----- lists of blocks and their keys -----

  /** `lookup` finds exactly `blocks`, by their keys. */
  ghost predicate Indexes(lookup: map<Key, Block>, blocks: seq<Block>) {
    && (forall b | b in blocks :: b.key in lookup && lookup[b.key] == b)
    && (forall k | k in lookup :: lookup[k] in blocks && lookup[k].key == k)
  }

  /** `lookup` finds the old blocks and the new ones in place. */
  ghost predicate Finds(lookup: map<Key, Block>, olds: seq<Block>, placed: seq<Block>) {
    && (forall b | b in olds :: b.key in lookup && lookup[b.key] == b)
    && (forall b | b in placed :: b.key in lookup && lookup[b.key] == b)
    && (forall k | k in lookup :: lookup[k].key == k && (lookup[k] in olds || lookup[k] in placed))
  }

  lemma FindsNext(lookup: map<Key, Block>, olds: seq<Block>, b: Block, placed: seq<Block>)
    requires Finds(lookup, olds, placed) && (b.key in lookup ==> lookup[b.key] == b)
    ensures Finds(lookup[b.key := b], olds, [b] + placed)
  {
  }

  ghost predicate DistinctKeys(blocks: seq<Block>) {
    forall i, j | 0 <= i < |blocks| && 0 <= j < |blocks| && blocks[i].key == blocks[j].key :: i == j
  }

  /** The blocks that both lists have stand in the same order. */
  ghost predicate SameOrder(olds: seq<Block>, news: seq<Block>) {
    Keep(olds, SetOf(news)) == Keep(news, SetOf(olds))
  }

  // ----- the runtime -----

  /** The child nodes of one list together with the bookkeeping of its blocks. */
  class KeyedList {
    /** The blocks whose nodes are the children of the list's element, in their order. */
    var children: seq<Block>
    /** The live blocks by key. */
    var lookup: map<Key, Block>
    /** The blocks whose removal waits for the end of their outro, in order. */
    var outros: seq<Block>
    /** The blocks that are on their way out. */
    var outroing: set<Block>
    /** Every insertion of a node so far. */
    ghost var inserts: seq<Block>

    /** `blocks` is what the list shows now. */
    ghost predicate Shows(blocks: seq<Block>)
      reads this
    {
      && DistinctKeys(blocks) && Indexes(lookup, blocks)
      && children == blocks && outros == [] && outroing == {}
    }

    constructor ()
      ensures Shows([])
    {
      children, lookup, outros, outroing, inserts := [], map[], [], {}, [];
    }

    /** The insertions after the ones in `past`. */
    ghost function Since(past: seq<Block>): seq<Block>
      requires past <= inserts
      reads this
    {
      inserts[|past|..]
    }

    /** Halfway through an update: `rest` is still to be looked at, `placed` is in place,
        and `gone` wait for their removal. */
    ghost predicate Updating(olds: seq<Block>, rest: seq<Block>, placed: seq<Block>, gone: seq<Block>)
      reads this
    {
      && Ordered(children, rest, placed)
      && (forall b | b in children :: b in olds || b in placed)
      && outros == gone && outroing == SetOf(gone)
      && Finds(lookup, olds, placed)
    }

    /** `J(N)`: the node of the next new block is put in front of the anchor. */
    method Insert(b: Block, anchor: Block?, ghost olds: seq<Block>, ghost rest: seq<Block>,
                  ghost placed: seq<Block>, ghost gone: seq<Block>)
      requires Updating(olds, rest, placed, gone) && anchor == First(placed)
      requires b !in placed && b !in gone && (b.key in lookup ==> lookup[b.key] == b)
      modifies this
      ensures Updating(olds, rest, [b] + placed, gone) && inserts == old(inserts) + [b]
    {
      InsertNext(children, rest, b, placed);
      FindsNext(lookup, olds, b, placed);
      outroing := outroing - {b};
      children := Inserted(children, b, anchor);
      lookup := lookup[b.key := b];
      inserts := inserts + [b];
    }

    /** `zl`: an old block starts its outro; its node and its key go when that has ended. */
    method Destroy(b: Block, ghost olds: seq<Block>, ghost rest: seq<Block>, ghost placed: seq<Block>,
                   ghost gone: seq<Block>)
      requires Updating(olds, rest + [b], placed, gone) && b !in rest && b !in gone
      modifies `outros, `outroing
      ensures Updating(olds, rest, placed, gone + [b])
    {
      PassOld(children, rest, b, placed);
      if b !in outroing {
        outroing := outroing + {b};
        outros := outros + [b];
      }
    }

    /** `ie`: the outros have ended; the nodes are removed and the keys forgotten. */
    method CheckOutros(ghost olds: seq<Block>, ghost placed: seq<Block>, ghost gone: seq<Block>)
      returns (destroyed: seq<Block>)
      requires Updating(olds, [], placed, gone)
      requires DistinctKeys(placed) && (forall x | x in placed :: x !in gone)
      requires forall x | x in olds :: x in placed || x in gone
      requires forall x | x in gone :: forall y | y in placed :: x.key != y.key
      modifies `children, `lookup, `outros, `outroing
      ensures Shows(placed) && destroyed == gone
    {
      destroyed := [];
      ghost var start := children;
      KeepAll(start, SetOf(start) - SetOf<Block>([]));
      for i := 0 to |outros|
        invariant outros == gone && destroyed == gone[..i]
        invariant children == Keep(start, SetOf(start) - SetOf(destroyed))
        invariant outroing == SetOf(gone) - SetOf(destroyed)
        invariant FindsAlso(lookup, placed, gone[i..])
      {
        var b := outros[i];
        assert gone[i..] == [b] + gone[i + 1..];
        ForgetKey(lookup, placed, b, gone[i + 1..]);
        RemoveNode(start, destroyed, b);
        outroing := outroing - {b};
        children := Without(children, b);
        lookup := lookup - {b.key};
        destroyed := destroyed + [b];
      }
      assert destroyed == gone;
      OrderedAtEnd(start, placed, SetOf(gone));
      outros := [];
    }

    /** The new blocks: those whose keys are known are used again, the others are created.
        `deltas` tells how far each block that is used again has to go. */
    method CreateBlocks(olds: seq<Block>, keys: seq<Key>)
      returns (news: seq<Block>, newLookup: map<Key, Block>, deltas: map<Key, nat>)
      requires Shows(olds) && Distinct(keys)
      ensures Keys(news) == keys && DistinctKeys(news) && Indexes(newLookup, news)
      ensures forall j | 0 <= j < |news| ::
                if keys[j] in lookup then news[j] == lookup[keys[j]] else fresh(news[j])
      ensures DeltasFrom(deltas, olds, keys, 0)
    {
      var oldIndexes := OldIndexes(olds);
      news, newLookup, deltas := [], map[], map[];
      var o := |keys|;
      while o > 0
        invariant 0 <= o <= |keys|
        invariant Keys(news) == keys[o..] && Indexes(newLookup, news)
        invariant forall j | o <= j < |keys| ::
                    if keys[j] in lookup then news[j - o] == lookup[keys[j]] else fresh(news[j - o])
        invariant DeltasFrom(deltas, olds, keys, o)
      {
        o := o - 1;
        var key := keys[o];
        var b;
        if key in lookup { b := lookup[key]; } else { b := new Block(key); }
        IndexesCons(newLookup, b, news, keys, o);
        news := [b] + news;
        newLookup := newLookup[key := b];
        ghost var further := deltas;
        if key in oldIndexes {
          deltas := deltas[key := Distance(oldIndexes[key], o)];
        }
        DeltasCons(further, deltas, olds, keys, o, oldIndexes);
      }
    }

    /** The first loop at the positions `c` and `d`. */
    ghost predicate Walking(olds: seq<Block>, c: nat, news: seq<Block>, d: nat, past: seq<Block>)
      reads this
    {
      && c <= |olds| && d <= |news|
      && Updating(olds, olds[..c], news[d..], Dropped(olds, c, SetOf(Keys(news))))
      && past <= inserts && Moving(Since(past), olds, olds[..c], news, news[..d], news[d..])
    }

    lemma StartWalking(olds: seq<Block>, news: seq<Block>)
      requires Shows(olds)
      ensures Walking(olds, |olds|, news, |news|, inserts)
    {
      OrderedAtStart(olds);
      assert olds[..|olds|] == olds && news[|news|..] == [] && news[..|news|] == news;
    }

    lemma WalkOverBoth(olds: seq<Block>, c: nat, news: seq<Block>, d: nat, newLookup: map<Key, Block>,
                       past: seq<Block>, c': nat, d': nat)
      requires Matching(olds, news, newLookup) && 0 < c && 0 < d && Walking(olds, c, news, d, past)
      requires olds[c - 1] == news[d - 1] && c' == c - 1 && d' == d - 1
      ensures Walking(olds, c', news, d', past) && news[d - 1] == First(news[d'..])
    {
      var b := olds[c'];
      OldView(olds, c', news, newLookup, c);
      NewView(olds, news, d, lookup);
      assert Updating(olds, olds[..c'], [b] + news[d..], Dropped(olds, c', SetOf(Keys(news)))) by {
        StayInPlace(children, olds[..c'], b, news[d..]);
      }
      assert Moving(Since(past), olds, olds[..c'], news, news[..d'], [b] + news[d..]) by {
        StayIsNoMove(Since(past), olds, olds[..c'], b, news, news[..d'], news[d..]);
      }
    }

    lemma WalkOverOld(olds: seq<Block>, c: nat, news: seq<Block>, d: nat, newLookup: map<Key, Block>,
                      past: seq<Block>, c': nat)
      requires Matching(olds, news, newLookup) && 0 < c && 0 < d && Walking(olds, c, news, d, past) && c' == c - 1
      requires olds[c - 1] != news[d - 1] && olds[c - 1].key in newLookup && news[d - 1].key in lookup
      ensures Walking(olds, c', news, d, past)
    {
      OldView(olds, c', news, newLookup, c);
      NewView(olds, news, d, lookup);
      PassOld(children, olds[..c'], olds[c'], news[d..]);
      PassIsNoMove(Since(past), olds, olds[..c'], olds[c'], news, news[..d - 1], news[d - 1], news[d..]);
    }

    lemma PlaceReady(olds: seq<Block>, c: nat, news: seq<Block>, d: nat, newLookup: map<Key, Block>,
                     moved: seq<Block>, past: seq<Block>, n: Block, d': nat, placed: seq<Block>)
      requires Matching(olds, news, newLookup) && 0 < c && 0 < d && Walking(olds, c, news, d, past)
      requires olds[c - 1] != news[d - 1] && olds[c - 1].key in newLookup
      requires d' == d - 1 && n == news[d'] && moved == Since(past) && placed == [n] + news[d..]
      ensures n !in news[d..] && n !in Dropped(olds, c, SetOf(Keys(news))) && (n.key in lookup ==> lookup[n.key] == n)
      ensures news[d'..] == placed && Moving(moved + [n], olds, olds[..c], news, news[..d'], placed)
    {
      OldView(olds, c - 1, news, newLookup, c);
      NewView(olds, news, d, lookup);
      NotDropped(olds, c, news, n);
      InsertIsMove(moved, olds, olds[..c - 1], olds[c - 1], news, news[..d'], n, news[d..]);
    }

    lemma SinceGrows(before: seq<Block>, past: seq<Block>, n: Block, moved: seq<Block>)
      requires past <= before && inserts == before + [n] && moved == before[|past|..]
      ensures past <= inserts && Since(past) == moved + [n]
    {}

    method PlaceNext(olds: seq<Block>, c: nat, news: seq<Block>, d: nat, newLookup: map<Key, Block>,
                     anchor: Block?, ghost past: seq<Block>)
      returns (d': nat, n: Block)
      requires Matching(olds, news, newLookup) && 0 < c && 0 < d && Walking(olds, c, news, d, past)
      requires olds[c - 1] != news[d - 1] && olds[c - 1].key in newLookup && anchor == First(news[d..])
      modifies this
      ensures d' == d - 1 && n == news[d'] && inserts == old(inserts) + [n]
      ensures Walking(olds, c, news, d', past) && n == First(news[d'..]) && Since(past) == old(Since(past)) + [n]
    {
      d', n := d - 1, news[d - 1];
      ghost var moved, before, placed := Since(past), inserts, [n] + news[d..];
      PlaceReady(olds, c, news, d, newLookup, moved, past, n, d', placed);
      Insert(n, anchor, olds, olds[..c], news[d..], Dropped(olds, c, SetOf(Keys(news))));
      SinceGrows(before, past, n, moved);
    }

    method DropOld(olds: seq<Block>, c: nat, news: seq<Block>, d: nat, newLookup: map<Key, Block>,
                   ghost past: seq<Block>)
      returns (c': nat)
      requires Matching(olds, news, newLookup) && 0 < c && Walking(olds, c, news, d, past)
      requires olds[c - 1].key !in newLookup
      modifies this
      ensures c' == c - 1 && Walking(olds, c', news, d, past) && inserts == old(inserts)
    {
      c' := c - 1;
      OldView(olds, c', news, newLookup, c);
      DropIsNoMove(Since(past), olds, olds[..c'], olds[c'], news, news[..d], news[d..]);
      Destroy(olds[c'], olds, olds[..c'], news[d..], Dropped(olds, c, SetOf(Keys(news))));
    }

    /** One round of the first loop. */
    method WalkStep(olds: seq<Block>, c0: nat, news: seq<Block>, d0: nat, newLookup: map<Key, Block>,
                    deltas: map<Key, nat>, anchor: Block?, willMove0: set<Key>, didMove0: set<Key>,
                    ghost past: seq<Block>)
      returns (c: nat, d: nat, u: Block?, willMove: set<Key>, didMove: set<Key>)
      requires Matching(olds, news, newLookup) && 0 < c0 && 0 < d0 && Walking(olds, c0, news, d0, past)
      requires anchor == First(news[d0..]) && DeltasFrom(deltas, olds, Keys(news), 0)
      modifies this
      ensures Walking(olds, c, news, d, past) && u == First(news[d..]) && c + d < c0 + d0
      ensures StepIs(olds, news, Walk(c0, d0, willMove0, didMove0, old(Since(past))), Walk(c, d, willMove, didMove, Since(past)))
    {
      c, d, u, willMove, didMove := c0, d0, anchor, willMove0, didMove0;
      ghost var walk := Walk(c0, d0, willMove0, didMove0, Since(past));
      var n, s := news[d - 1], olds[c - 1];
      if n == s {
        c, d, u := c0 - 1, d0 - 1, n;
        WalkOverBoth(olds, c0, news, d0, newLookup, past, c, d);
        PassIsStep(olds, news, walk, walk.(c := c, d := d));
      } else if s.key in newLookup {
        c, d, u, willMove, didMove :=
          WalkKept(olds, c0, news, d0, newLookup, deltas, anchor, willMove, didMove, past);
      } else {
        OldView(olds, c0 - 1, news, newLookup, c0);
        c := DropOld(olds, c0, news, d0, newLookup, past);
        PassIsStep(olds, news, walk, walk.(c := c));
      }
    }

    /** Of two different blocks, whether the new one is put in place at once. */
    method Decide(olds: seq<Block>, c: nat, news: seq<Block>, d: nat, newLookup: map<Key, Block>,
                  deltas: map<Key, nat>, willMove0: set<Key>, didMove0: set<Key>, ghost moved: seq<Block>)
      returns (place: bool, willMove: set<Key>, didMove: set<Key>)
      requires Matching(olds, news, newLookup) && 0 < c <= |olds| && 0 < d <= |news| && Finds(lookup, olds, news[d..])
      requires olds[c - 1] != news[d - 1] && olds[c - 1].key in newLookup && DeltasFrom(deltas, olds, Keys(news), 0)
      ensures StepIs(olds, news, Walk(c, d, willMove0, didMove0, moved),
                     if place then Walk(c, d - 1, willMove, didMove, moved + [news[d - 1]])
                     else Walk(c - 1, d, willMove, didMove, moved))
      ensures !place ==> news[d - 1].key in lookup
    {
      willMove, didMove := willMove0, didMove0;
      KeptView(olds, c, news, d, newLookup, deltas, lookup, olds[c - 1], news[d - 1]);
      var n, s := news[d - 1].key, olds[c - 1].key;
      place := n !in lookup || n in willMove;
      if !place && s !in didMove {
        if n in deltas && s in deltas && deltas[n] > deltas[s] {
          place, didMove := true, didMove + {n};
        } else {
          willMove := willMove + {s};
        }
      }
    }

    /** The round when the old block stays: the new one is put in place at once, or the old one
        is passed over until its turn comes. */
    method WalkKept(olds: seq<Block>, c0: nat, news: seq<Block>, d0: nat, newLookup: map<Key, Block>,
                    deltas: map<Key, nat>, anchor: Block?, willMove0: set<Key>, didMove0: set<Key>,
                    ghost past: seq<Block>)
      returns (c: nat, d: nat, u: Block?, willMove: set<Key>, didMove: set<Key>)
      requires Matching(olds, news, newLookup) && 0 < c0 && 0 < d0 && Walking(olds, c0, news, d0, past)
      requires anchor == First(news[d0..]) && olds[c0 - 1] != news[d0 - 1] && olds[c0 - 1].key in newLookup
      requires DeltasFrom(deltas, olds, Keys(news), 0)
      modifies this
      ensures Walking(olds, c, news, d, past) && u == First(news[d..]) && c + d < c0 + d0
      ensures StepIs(olds, news, Walk(c0, d0, willMove0, didMove0, old(Since(past))), Walk(c, d, willMove, didMove, Since(past)))
    {
      c, d, u := c0, d0, anchor;
      var place;
      place, willMove, didMove := Decide(olds, c0, news, d0, newLookup, deltas, willMove0, didMove0, Since(past));
      if place {
        d, u := PlaceNext(olds, c0, news, d0, newLookup, anchor, past);
      } else {
        c := c0 - 1;
        WalkOverOld(olds, c0, news, d0, newLookup, past, c);
      }
    }

    /** The first loop: both lists are walked from the right until one of them is used up. */
    method WalkBoth(olds: seq<Block>, news: seq<Block>, newLookup: map<Key, Block>, deltas: map<Key, nat>)
      returns (c: nat, d: nat, u: Block?)
      requires Shows(olds) && Matching(olds, news, newLookup) && DeltasFrom(deltas, olds, Keys(news), 0)
      modifies this
      ensures Walking(olds, c, news, d, old(inserts)) && (c == 0 || d == 0) && u == First(news[d..])
      ensures OneMoved(olds, news) ==> |Since(old(inserts))| + d == 1
    {
      c, d, u := |olds|, |news|, null;
      var willMove: set<Key>, didMove: set<Key> := {}, {};
      ghost var past, one := inserts, OneMoved(olds, news);
      ghost var m := if one then MovedFrom(olds, news) else 0;
      StartWalking(olds, news);
      if one { WayBegins(olds, news, m); }
      while c > 0 && d > 0
        invariant Walking(olds, c, news, d, past) && u == First(news[d..])
        invariant one ==> MovedAt(olds, news, m) && OnTheWay(olds, news, m, Walk(c, d, willMove, didMove, Since(past)))
        decreases c + d
      {
        ghost var walk := Walk(c, d, willMove, didMove, Since(past));
        c, d, u, willMove, didMove :=
          WalkStep(olds, c, news, d, newLookup, deltas, u, willMove, didMove, past);
        if one { OneStep(olds, news, m, walk, Walk(c, d, willMove, didMove, Since(past))); }
      }
      if one { WayEnds(olds, news, m, Walk(c, d, willMove, didMove, Since(past))); }
    }

    /** The second loop: what is left of the old list is dropped, unless it was moved. */
    method DropRest(olds: seq<Block>, c0: nat, news: seq<Block>, d: nat, newLookup: map<Key, Block>)
      requires Matching(olds, news, newLookup) && c0 <= |olds| && d <= |news|
      requires Updating(olds, olds[..c0], news[d..], Dropped(olds, c0, SetOf(Keys(news))))
      modifies `outros, `outroing
      ensures Updating(olds, [], news[d..], Dropped(olds, 0, SetOf(Keys(news))))
    {
      var c := c0;
      while c > 0
        invariant 0 <= c <= |olds|
        invariant Updating(olds, olds[..c], news[d..], Dropped(olds, c, SetOf(Keys(news))))
      {
        c := c - 1;
        var s := olds[c];
        OldView(olds, c, news, newLookup, c + 1);
        if s.key !in newLookup {
          Destroy(s, olds, olds[..c], news[d..], Dropped(olds, c + 1, SetOf(Keys(news))));
        } else {
          PassOld(children, olds[..c], s, news[d..]);
        }
      }
    }

    /** The old list is used up, and the new one is in place from `d` on. */
    ghost predicate Placing(olds: seq<Block>, news: seq<Block>, d: nat, past: seq<Block>)
      reads this
    {
      && d <= |news| && Updating(olds, [], news[d..], Dropped(olds, 0, SetOf(Keys(news))))
      && past <= inserts && MovesOnly(Since(past), olds, news, news[..d], news[d..])
    }

    lemma LastReady(olds: seq<Block>, news: seq<Block>, d: nat, past: seq<Block>, moved: seq<Block>,
                    n: Block, d': nat, placed: seq<Block>)
      requires DistinctKeys(news) && Reuses(olds, news) && 0 < d && Placing(olds, news, d, past)
      requires d' == d - 1 && n == news[d'] && moved == Since(past) && placed == [n] + news[d..]
      ensures n !in news[d..] && n !in Dropped(olds, 0, SetOf(Keys(news))) && (n.key in lookup ==> lookup[n.key] == n)
      ensures news[d'..] == placed && MovesOnly(moved + [n], olds, news, news[..d'], placed)
    {
      NewView(olds, news, d, lookup);
      NotDropped(olds, 0, news, n);
    }

    method PlaceLast(olds: seq<Block>, news: seq<Block>, d: nat, anchor: Block?, ghost past: seq<Block>)
      returns (d': nat, n: Block)
      requires DistinctKeys(news) && Reuses(olds, news) && 0 < d && Placing(olds, news, d, past)
      requires anchor == First(news[d..])
      modifies this
      ensures d' == d - 1 && n == news[d'] && n == First(news[d'..]) && Placing(olds, news, d', past)
      ensures inserts == old(inserts) + [n]
    {
      d', n := d - 1, news[d - 1];
      ghost var moved, before, placed := Since(past), inserts, [n] + news[d..];
      LastReady(olds, news, d, past, moved, n, d', placed);
      Insert(n, anchor, olds, [], news[d..], Dropped(olds, 0, SetOf(Keys(news))));
      SinceGrows(before, past, n, moved);
    }

    /** The third loop: what is left of the new list is put in place. */
    method PlaceRest(olds: seq<Block>, news: seq<Block>, d0: nat, anchor: Block?, ghost past: seq<Block>)
      requires DistinctKeys(news) && Reuses(olds, news)
      requires Placing(olds, news, d0, past) && anchor == First(news[d0..])
      modifies this
      ensures Updating(olds, [], news, Dropped(olds, 0, SetOf(Keys(news))))
      ensures past <= inserts && Moves(Since(past), olds, news) && |inserts| == |old(inserts)| + d0
    {
      var d: nat, u := d0, anchor;
      while d > 0
        invariant d <= d0 && Placing(olds, news, d, past) && u == First(news[d..])
        invariant |inserts| + d == |old(inserts)| + d0
      {
        d, u := PlaceLast(olds, news, d, u, past);
      }
      assert news[0..] == news;
    }

    /** One reactive update of the list: `re(); blocks = Jl(...); ie()`. */
    method Update(olds: seq<Block>, keys: seq<Key>)
      returns (news: seq<Block>, destroyed: seq<Block>)
      requires Shows(olds) && Distinct(keys)
      modifies this
      ensures Shows(news) && Keys(news) == keys
      ensures forall j | 0 <= j < |news| ::
                if keys[j] in old(lookup) then news[j] == old(lookup)[keys[j]] else fresh(news[j])
      ensures destroyed == Dropped(olds, 0, SetOf(keys)) && Distinct(destroyed)
      ensures old(inserts) <= inserts && Moves(Since(old(inserts)), olds, news)
      ensures OneMoved(olds, news) ==> |Since(old(inserts))| == 1
    {
      var newLookup, deltas;
      ghost var past := inserts;
      news, newLookup, deltas := CreateBlocks(olds, keys);
      assert Reuses(olds, news);
      var c, d, u := WalkBoth(olds, news, newLookup, deltas);
      MovedSoFar(olds, c, news, d, Since(past));
      DropRest(olds, c, news, d, newLookup);
      PlaceRest(olds, news, d, u, past);
      DroppedDistinct(olds, 0, SetOf(keys));
      AllAccounted(olds, news);
      destroyed := CheckOutros(olds, news, Dropped(olds, 0, SetOf(keys)));
    }
  }

  // ----- one block moves to an end -----

  /** Where the walk over both lists is: the places, the keys of the blocks that are to be moved and of
      those that were, and what was inserted. */
  datatype Walk = Walk(c: nat, d: nat, willMove: set<Key>, didMove: set<Key>, moved: seq<Block>)

  /** Where a block stands. */
  function Place(blocks: seq<Block>, b: Block): (i: nat)
    requires b in blocks
    ensures i < |blocks| && blocks[i] == b
  {
    if blocks[0] == b then 0 else 1 + Place(blocks[1..], b)
  }

  /** The new block is further away from its old place than the old one from its new place. */
  ghost predicate Further(olds: seq<Block>, c: nat, news: seq<Block>, d: nat)
    requires 0 < c <= |olds| && 0 < d <= |news|
  {
    && news[d - 1] in olds && olds[c - 1] in news
    && Distance(Place(olds, news[d - 1]), d - 1) > Distance(c - 1, Place(news, olds[c - 1]))
  }

  /** One round: where both lists have the same block, both are passed. An old block that is gone is
      passed, and a new one that was not there, or is to be moved, is inserted. Of two others that one is
      moved that is further away from its old place: the new block at once, or the old one later. */
  ghost predicate StepIs(olds: seq<Block>, news: seq<Block>, v: Walk, w: Walk) {
    && 0 < v.c <= |olds| && 0 < v.d <= |news|
    && var s, n := olds[v.c - 1], news[v.d - 1];
       if s == n then w == v.(c := v.c - 1, d := v.d - 1)
       else if s !in news then w == v.(c := v.c - 1)
       else if n !in olds || n.key in v.willMove then w == v.(d := v.d - 1, moved := v.moved + [n])
       else if s.key in v.didMove then w == v.(c := v.c - 1)
       else if Further(olds, v.c, news, v.d) then
         w == v.(d := v.d - 1, moved := v.moved + [n], didMove := v.didMove + {n.key})
       else w == v.(c := v.c - 1, willMove := v.willMove + {s.key})
  }

  lemma PassIsStep(olds: seq<Block>, news: seq<Block>, v: Walk, w: Walk)
    requires 0 < v.c <= |olds| && 0 < v.d <= |news| && w.c == v.c - 1
    requires if olds[v.c - 1] == news[v.d - 1] then w == v.(c := w.c, d := v.d - 1) else olds[v.c - 1] !in news && w == v.(c := w.c)
    ensures StepIs(olds, news, v, w)
  {
  }

  lemma DeltaIs(deltas: map<Key, nat>, olds: seq<Block>, news: seq<Block>, i: nat, j: nat)
    requires DeltasFrom(deltas, olds, Keys(news), 0) && i < |olds| && j < |news| && olds[i] == news[j]
    ensures news[j].key in deltas && deltas[news[j].key] == Distance(i, j)
  {
    assert olds[i].key == Keys(news)[j];
  }

  /** What the round knows of two different blocks, the old one of which stays. */
  lemma KeptView(olds: seq<Block>, c: nat, news: seq<Block>, d: nat, newLookup: map<Key, Block>, deltas: map<Key, nat>,
                 lookup: map<Key, Block>, s: Block, n: Block)
    requires Matching(olds, news, newLookup) && 0 < c <= |olds| && 0 < d <= |news| && Finds(lookup, olds, news[d..])
    requires DeltasFrom(deltas, olds, Keys(news), 0) && s == olds[c - 1] && n == news[d - 1] && s.key in newLookup
    ensures s in news && (n.key in lookup <==> n in olds)
    ensures n in olds ==> n.key in deltas && s.key in deltas && (deltas[n.key] > deltas[s.key] <==> Further(olds, c, news, d))
  {
    OldView(olds, c - 1, news, newLookup, c);
    NewView(olds, news, d, lookup);
    DeltaIs(deltas, olds, news, c - 1, Place(news, s));
    if n in olds { DeltaIs(deltas, olds, news, Place(olds, n), d - 1); }
  }

  /** Block `m` went to the end, or to the front, and the others stayed as they were. */
  ghost predicate MovedAt(olds: seq<Block>, news: seq<Block>, m: nat) {
    && m < |olds| && DistinctKeys(olds) && olds != news
    && (news == olds[..m] + olds[m + 1..] + [olds[m]] || news == [olds[m]] + olds[..m] + olds[m + 1..])
  }

  ghost predicate OneMoved(olds: seq<Block>, news: seq<Block>) {
    exists m: nat :: MovedAt(olds, news, m)
  }

  ghost function MovedFrom(olds: seq<Block>, news: seq<Block>): (m: nat)
    requires OneMoved(olds, news)
    ensures MovedAt(olds, news, m)
  {
    var m: nat :| MovedAt(olds, news, m);
    m
  }

  ghost predicate ToTheEnd(olds: seq<Block>, news: seq<Block>, m: nat) {
    && m < |olds| - 1 && |news| == |olds| && DistinctKeys(olds) && news[|news| - 1] == olds[m]
    && (forall j | 0 <= j < m :: news[j] == olds[j]) && forall j | m <= j < |news| - 1 :: news[j] == olds[j + 1]
  }

  ghost predicate ToTheFront(olds: seq<Block>, news: seq<Block>, m: nat) {
    && 0 < m < |olds| && |news| == |olds| && DistinctKeys(olds) && news[0] == olds[m]
    && (forall j | 0 < j <= m :: news[j] == olds[j - 1]) && forall j | m < j < |news| :: news[j] == olds[j]
  }

  /** How the walk gets on. Of two neighbours that change places the other one is moved. */
  ghost predicate EndWay(olds: seq<Block>, m: nat, w: Walk)
    requires m < |olds| - 1
  {
    var n, x, y := |olds|, olds[m].key, olds[m + 1].key;
    || w == Walk(n, n, {}, {}, [])
    || (m + 2 < n && w.willMove == {} && w.didMove == {x} && |w.moved| == 1
        && ((w.c == w.d + 1 && m <= w.d < n) || w.c == w.d <= m))
    || (m + 2 == n && w.willMove == {y} && w.didMove == {}
        && ((w.moved == [] && ((w.c == m + 1 && w.d == n) || (w.c == m && w.d == m + 1)))
            || (|w.moved| == 1 && w.c == w.d <= m)))
  }

  ghost predicate FrontWay(olds: seq<Block>, m: nat, w: Walk)
    requires m < |olds|
  {
    && w.didMove == {} && w.moved == []
    && ((w.c == w.d && m < w.d <= |olds| && w.willMove == {}) || (w.c + 1 == w.d && w.c <= m && w.willMove == {olds[m].key}))
  }

  ghost predicate OnTheWay(olds: seq<Block>, news: seq<Block>, m: nat, w: Walk) {
    (ToTheEnd(olds, news, m) && EndWay(olds, m, w)) || (ToTheFront(olds, news, m) && FrontWay(olds, m, w))
  }

  lemma EndsStay(olds: seq<Block>, m: nat)
    requires m < |olds|
    ensures m == |olds| - 1 ==> olds[..m] + olds[m + 1..] + [olds[m]] == olds
    ensures m == 0 ==> [olds[m]] + olds[..m] + olds[m + 1..] == olds
  {
  }

  lemma WayBegins(olds: seq<Block>, news: seq<Block>, m: nat)
    requires MovedAt(olds, news, m)
    ensures OnTheWay(olds, news, m, Walk(|olds|, |news|, {}, {}, []))
  {
    EndsStay(olds, m);
    if news == olds[..m] + olds[m + 1..] + [olds[m]] {
      assert ToTheEnd(olds, news, m);
    } else {
      assert ToTheFront(olds, news, m);
    }
  }

  lemma EndMembers(olds: seq<Block>, news: seq<Block>, m: nat, i: nat)
    requires ToTheEnd(olds, news, m) && i < |olds|
    ensures olds[i] in news && Place(news, olds[i]) == if i < m then i else if i == m then |olds| - 1 else i - 1
    ensures news[i] in olds && Place(olds, news[i]) == if i < m then i else if i == |olds| - 1 then m else i + 1
  {
    var j := if i < m then i else if i == m then |olds| - 1 else i - 1;
    assert news[j] == olds[i];
  }

  lemma FrontMembers(olds: seq<Block>, news: seq<Block>, m: nat, i: nat)
    requires ToTheFront(olds, news, m) && i < |olds|
    ensures olds[i] in news && Place(news, olds[i]) == if i < m then i + 1 else if i == m then 0 else i
    ensures news[i] in olds && Place(olds, news[i]) == if i == 0 then m else if i <= m then i - 1 else i
  {
    var j := if i < m then i + 1 else if i == m then 0 else i;
    assert news[j] == olds[i];
  }

  lemma EndStep(olds: seq<Block>, news: seq<Block>, m: nat, v: Walk, w: Walk)
    requires ToTheEnd(olds, news, m) && EndWay(olds, m, v) && StepIs(olds, news, v, w)
    ensures EndWay(olds, m, w)
  {
    EndMembers(olds, news, m, v.c - 1);
    EndMembers(olds, news, m, v.d - 1);
    var n := |olds|;
    if v == Walk(n, n, {}, {}, []) {
      EndFirst(olds, news, m, v, w);
    } else if m + 2 < n {
      EndLater(olds, news, m, v, w);
    }
  }

  lemma EndFirst(olds: seq<Block>, news: seq<Block>, m: nat, v: Walk, w: Walk)
    requires ToTheEnd(olds, news, m) && v == Walk(|olds|, |olds|, {}, {}, []) && StepIs(olds, news, v, w)
    ensures EndWay(olds, m, w)
  {
    EndMembers(olds, news, m, v.c - 1);
    EndMembers(olds, news, m, v.d - 1);
  }

  lemma EndLater(olds: seq<Block>, news: seq<Block>, m: nat, v: Walk, w: Walk)
    requires ToTheEnd(olds, news, m) && EndWay(olds, m, v) && v.d < |olds| && m + 2 < |olds| && StepIs(olds, news, v, w)
    ensures EndWay(olds, m, w)
  {
    EndMembers(olds, news, m, v.c - 1);
    EndMembers(olds, news, m, v.d - 1);
  }

  lemma FrontStep(olds: seq<Block>, news: seq<Block>, m: nat, v: Walk, w: Walk)
    requires ToTheFront(olds, news, m) && FrontWay(olds, m, v) && StepIs(olds, news, v, w)
    ensures FrontWay(olds, m, w)
  {
    FrontMembers(olds, news, m, v.c - 1);
    FrontMembers(olds, news, m, v.d - 1);
  }

  lemma OneStep(olds: seq<Block>, news: seq<Block>, m: nat, v: Walk, w: Walk)
    requires OnTheWay(olds, news, m, v) && StepIs(olds, news, v, w)
    ensures OnTheWay(olds, news, m, w)
  {
    if ToTheEnd(olds, news, m) && EndWay(olds, m, v) { EndStep(olds, news, m, v, w); } else { FrontStep(olds, news, m, v, w); }
  }

  lemma WayEnds(olds: seq<Block>, news: seq<Block>, m: nat, w: Walk)
    requires OnTheWay(olds, news, m, w) && (w.c == 0 || w.d == 0)
    ensures |w.moved| + w.d == 1
  {
  }

  /** What the walk over both lists relies on. */
  ghost predicate Matching(olds: seq<Block>, news: seq<Block>, newLookup: map<Key, Block>) {
    DistinctKeys(olds) && DistinctKeys(news) && Indexes(newLookup, news) && Reuses(olds, news)
  }

  /** New blocks whose keys are known are the old blocks of these keys. */
  ghost predicate Reuses(olds: seq<Block>, news: seq<Block>) {
    forall x, y | x in olds && y in news && x.key == y.key :: x == y
  }

  /** What an update moves: each node at most once, every node that is new, and no other
      one when the blocks that stay keep their order. */
  ghost predicate Moves(moved: seq<Block>, olds: seq<Block>, news: seq<Block>) {
    && Distinct(moved) && (forall b | b in moved :: b in news)
    && (forall b | b in news && b !in olds :: b in moved)
    && (SameOrder(olds, news) ==> forall b | b in moved :: b !in olds)
  }

  ghost predicate MovesOnly(moved: seq<Block>, olds: seq<Block>, news: seq<Block>, todo: seq<Block>,
                            placed: seq<Block>) {
    && Distinct(moved) && (forall b | b in moved :: b in placed)
    && (forall b | b in placed && b !in olds :: b in moved)
    && (SameOrder(olds, news) ==>
          (forall b | b in moved :: b !in olds) && (forall b | b in todo :: b !in olds))
  }

  ghost predicate Moving(moved: seq<Block>, olds: seq<Block>, rest: seq<Block>,
                         news: seq<Block>, todo: seq<Block>, placed: seq<Block>) {
    && Distinct(moved) && (forall b | b in moved :: b in placed)
    && (forall b | b in placed && b !in olds :: b in moved)
    && (SameOrder(olds, news) ==>
          && Keep(rest, SetOf(news)) == Keep(todo, SetOf(olds))
          && forall b | b in moved :: b !in olds)
  }

  /** When one of the lists is used up, what is left of the new one was not there before,
      or the order changed. */
  lemma MovedSoFar(olds: seq<Block>, c: nat, news: seq<Block>, d: nat, moved: seq<Block>)
    requires c <= |olds| && d <= |news| && (c == 0 || d == 0)
    requires Moving(moved, olds, olds[..c], news, news[..d], news[d..])
    ensures MovesOnly(moved, olds, news, news[..d], news[d..])
  {
    if SameOrder(olds, news) && c == 0 {
      assert Keep(news[..d], SetOf(olds)) == [];
    }
  }

  lemma StayIsNoMove(moved: seq<Block>, olds: seq<Block>, rest: seq<Block>, b: Block, news: seq<Block>,
                     todo: seq<Block>, placed: seq<Block>)
    requires Moving(moved, olds, rest + [b], news, todo + [b], placed) && b in olds && b in news
    ensures Moving(moved, olds, rest, news, todo, [b] + placed)
  {
    KeepSnoc(rest, b, SetOf(news));
    KeepSnoc(todo, b, SetOf(olds));
    var x, y := Keep(rest, SetOf(news)), Keep(todo, SetOf(olds));
    assert (x + [b])[..|x + [b]| - 1] == x && (y + [b])[..|y + [b]| - 1] == y;
  }

  /** When both lists agree on the order, their last common blocks are the same. */
  lemma LastsAgree(olds: seq<Block>, rest: seq<Block>, s: Block, news: seq<Block>, todo: seq<Block>, n: Block)
    requires Keep(rest + [s], SetOf(news)) == Keep(todo + [n], SetOf(olds))
    ensures s in news && n in olds ==> s == n
    ensures s !in news ==> Keep(rest, SetOf(news)) == Keep(todo + [n], SetOf(olds))
    ensures n !in olds ==> Keep(rest + [s], SetOf(news)) == Keep(todo, SetOf(olds))
  {
    KeepSnoc(rest, s, SetOf(news));
    KeepSnoc(todo, n, SetOf(olds));
    if s in news && n in olds {
      var x, y := Keep(rest, SetOf(news)), Keep(todo, SetOf(olds));
      assert (x + [s])[|x|] == s && (y + [n])[|y|] == n;
    }
  }

  lemma InsertIsMove(moved: seq<Block>, olds: seq<Block>, rest: seq<Block>, s: Block, news: seq<Block>,
                     todo: seq<Block>, n: Block, placed: seq<Block>)
    requires Moving(moved, olds, rest + [s], news, todo + [n], placed)
    requires s in news && n != s && n !in placed
    ensures Moving(moved + [n], olds, rest + [s], news, todo, [n] + placed)
  {
    if SameOrder(olds, news) { LastsAgree(olds, rest, s, news, todo, n); }
  }

  lemma PassIsNoMove(moved: seq<Block>, olds: seq<Block>, rest: seq<Block>, s: Block, news: seq<Block>,
                     todo: seq<Block>, n: Block, placed: seq<Block>)
    requires Moving(moved, olds, rest + [s], news, todo + [n], placed)
    requires s in news && n in olds && n != s
    ensures Moving(moved, olds, rest, news, todo + [n], placed)
  {
    if SameOrder(olds, news) { LastsAgree(olds, rest, s, news, todo, n); }
  }

  lemma DropIsNoMove(moved: seq<Block>, olds: seq<Block>, rest: seq<Block>, s: Block, news: seq<Block>,
                     todo: seq<Block>, placed: seq<Block>)
    requires Moving(moved, olds, rest + [s], news, todo, placed) && s !in news
    ensures Moving(moved, olds, rest, news, todo, placed)
  {
    KeepSnoc(rest, s, SetOf(news));
  }

  /** The last old block that is still to be looked at. */
  lemma OldView(olds: seq<Block>, c: nat, news: seq<Block>, newLookup: map<Key, Block>, next: nat)
    requires c < |olds| && next == c + 1 && DistinctKeys(olds) && Indexes(newLookup, news) && Reuses(olds, news)
    ensures olds[..next] == olds[..c] + [olds[c]] && olds[c] !in olds[..c]
    ensures olds[c].key in newLookup <==> olds[c] in news
    ensures olds[c].key in newLookup <==> olds[c].key in SetOf(Keys(news))
    ensures olds[c] !in Dropped(olds, next, SetOf(Keys(news)))
    ensures Dropped(olds, c, SetOf(Keys(news))) ==
            Dropped(olds, next, SetOf(Keys(news))) + if olds[c].key in newLookup then [] else [olds[c]]
  {
    var b := olds[c];
    if b.key in newLookup {
      assert newLookup[b.key] in news && newLookup[b.key] == b;
      var i :| 0 <= i < |news| && news[i] == b;
      assert Keys(news)[i] == b.key;
    }
    if b.key in SetOf(Keys(news)) {
      var i :| 0 <= i < |news| && Keys(news)[i] == b.key;
      assert news[i] in news;
    }
  }

  /** The next new block. */
  lemma NewView(olds: seq<Block>, news: seq<Block>, d: nat, lookup: map<Key, Block>)
    requires 0 < d <= |news| && DistinctKeys(news) && Reuses(olds, news) && Finds(lookup, olds, news[d..])
    ensures news[..d] == news[..d - 1] + [news[d - 1]] && news[d - 1..] == [news[d - 1]] + news[d..]
    ensures news[d - 1] !in news[d..] && news[d - 1] in news
    ensures news[d - 1].key in lookup ==> news[d - 1] in olds && lookup[news[d - 1].key] == news[d - 1]
  {
    var b := news[d - 1];
    if b.key in lookup {
      var x := lookup[b.key];
      assert x.key == b.key;
    }
  }

  /** Every old block is used again or dropped. */
  lemma AllAccounted(olds: seq<Block>, news: seq<Block>)
    requires Reuses(olds, news)
    ensures forall b | b in olds :: b in news || b in Dropped(olds, 0, SetOf(Keys(news)))
    ensures forall b | b in Dropped(olds, 0, SetOf(Keys(news))) :: forall x | x in news :: b.key != x.key
  {
    assert olds[0..] == olds;
    forall b | b in olds && b.key in SetOf(Keys(news)) ensures b in news {
      var i :| 0 <= i < |news| && Keys(news)[i] == b.key;
      assert news[i] in news;
    }
    forall x | x in news ensures x.key in SetOf(Keys(news)) {
      var i :| 0 <= i < |news| && news[i] == x;
      assert Keys(news)[i] == x.key;
    }
  }

  /** `Math.abs(i - j)` */
  function Distance(i: nat, j: nat): nat {
    if i < j then j - i else i - j
  }

  /** `deltas` tells how far the keys from place `o` on have to go. */
  ghost predicate DeltasFrom(deltas: map<Key, nat>, olds: seq<Block>, keys: seq<Key>, o: nat) {
    forall i, j | 0 <= i < |olds| && o <= j < |keys| && olds[i].key == keys[j] ::
      keys[j] in deltas && deltas[keys[j]] == Distance(i, j)
  }

  lemma DeltasCons(deltas: map<Key, nat>, next: map<Key, nat>, olds: seq<Block>, keys: seq<Key>, o: nat,
                   indexes: map<Key, nat>)
    requires o < |keys| && Distinct(keys) && DistinctKeys(olds) && DeltasFrom(deltas, olds, keys, o + 1)
    requires forall i | 0 <= i < |olds| :: olds[i].key in indexes && indexes[olds[i].key] == i
    requires next == if keys[o] in indexes then deltas[keys[o] := Distance(indexes[keys[o]], o)] else deltas
    ensures DeltasFrom(next, olds, keys, o)
  {
  }

  /** Where each key was. */
  method OldIndexes(olds: seq<Block>) returns (indexes: map<Key, nat>)
    requires DistinctKeys(olds)
    ensures forall i | 0 <= i < |olds| :: olds[i].key in indexes && indexes[olds[i].key] == i
    ensures forall k | k in indexes :: indexes[k] < |olds| && olds[indexes[k]].key == k
  {
    indexes := map[];
    var o := |olds|;
    while o > 0
      invariant 0 <= o <= |olds|
      invariant forall i | o <= i < |olds| :: olds[i].key in indexes && indexes[olds[i].key] == i
      invariant forall k | k in indexes :: indexes[k] < |olds| && olds[indexes[k]].key == k
    {
      o := o - 1;
      indexes := indexes[olds[o].key := o];
    }
  }

  lemma IndexesCons(lookup: map<Key, Block>, b: Block, blocks: seq<Block>, keys: seq<Key>, o: nat)
    requires Distinct(keys) && o < |keys| && b.key == keys[o] && Keys(blocks) == keys[o + 1..]
    requires Indexes(lookup, blocks)
    ensures Keys([b] + blocks) == keys[o..] && Indexes(lookup[b.key := b], [b] + blocks)
  {
    forall x | x in blocks ensures x.key != b.key {
      var i :| 0 <= i < |blocks| && blocks[i] == x;
      assert Keys(blocks)[i] == x.key == keys[o + 1 + i];
    }
  }

  /** `lookup` finds `blocks` and otherwise nothing but `others`. */
  ghost predicate FindsAlso(lookup: map<Key, Block>, blocks: seq<Block>, others: seq<Block>) {
    && (forall b | b in blocks :: b.key in lookup && lookup[b.key] == b)
    && (forall k | k in lookup :: lookup[k].key == k && (lookup[k] in blocks || lookup[k] in others))
  }

  lemma ForgetKey(lookup: map<Key, Block>, blocks: seq<Block>, b: Block, others: seq<Block>)
    requires FindsAlso(lookup, blocks, [b] + others)
    requires forall x | x in blocks :: x.key != b.key
    ensures FindsAlso(lookup - {b.key}, blocks, others)
  {
    var next := lookup - {b.key};
    forall k | k in next ensures next[k] in blocks || next[k] in others {
      assert next[k] == lookup[k] && lookup[k].key == k;
    }
  }

  lemma RemoveNode(start: seq<Block>, removed: seq<Block>, b: Block)
    ensures Without(Keep(start, SetOf(start) - SetOf(removed)), b)
         == Keep(start, SetOf(start) - SetOf(removed + [b]))
  {
    var now := Keep(start, SetOf(start) - SetOf(removed));
    WithoutIsKeep(now, b);
    KeepKeep(start, SetOf(start) - SetOf(removed), SetOf(now) - {b});
    KeepSame(start, (SetOf(start) - SetOf(removed)) * (SetOf(now) - {b}), SetOf(start) - SetOf(removed + [b]));
  }

  lemma NotDropped(olds: seq<Block>, c: nat, news: seq<Block>, b: Block)
    requires c <= |olds| && b in news
    ensures b !in Dropped(olds, c, SetOf(Keys(news)))
  {
    var i :| 0 <= i < |news| && news[i] == b;
    assert Keys(news)[i] == b.key;
  }
}
