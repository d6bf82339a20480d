/** Filtering and moving in sequences, as the keyed list needs them. */
module Sequences {

  ghost function SetOf<T>(s: seq<T>): set<T> {
    set x | x in s
  }

  /** The elements of `s` that are in `a`, in order. */
  ghost function Keep<T>(s: seq<T>, a: set<T>): (r: seq<T>)
    ensures forall x | x in r :: x in s && x in a
    ensures forall x | x in s && x in a :: x in r
  {
    if s == [] then [] else (if s[0] in a then [s[0]] else []) + Keep(s[1..], a)
  }

  /** `s` without every occurrence of `x`: what removing a node leaves. */
  function Without<T(==)>(s: seq<T>, x: T): (r: seq<T>)
    ensures x !in r && forall y | y in s && y != x :: y in r
    ensures forall y | y in r :: y in s
  {
    if s == [] then [] else (if s[0] == x then [] else [s[0]]) + Without(s[1..], x)
  }

  /** `s` with `x` put in front of the first `anchor`, or at the end when there is none. */
  function PlaceBefore<T(==)>(s: seq<T>, x: T, anchor: T): (r: seq<T>)
    ensures x in r && (forall y | y in s :: y in r) && forall y | y in r :: y in s || y == x
  {
    if s == [] then [x]
    else if s[0] == anchor then [x] + s
    else [s[0]] + PlaceBefore(s[1..], x, anchor)
  }

  ghost predicate Distinct<T>(s: seq<T>) {
    forall i, j | 0 <= i < j < |s| :: s[i] != s[j]
  }

  lemma {:induction false} KeepConcat<T>(s: seq<T>, t: seq<T>, a: set<T>)
    ensures Keep(s + t, a) == Keep(s, a) + Keep(t, a)
  {
    if s == [] {
      assert s + t == t;
    } else {
      assert (s + t)[1..] == s[1..] + t;
      KeepConcat(s[1..], t, a);
    }
  }

  lemma {:induction false} KeepSame<T>(s: seq<T>, a: set<T>, b: set<T>)
    requires forall x | x in s :: x in a <==> x in b
    ensures Keep(s, a) == Keep(s, b)
  {
    if s != [] { KeepSame(s[1..], a, b); }
  }

  lemma {:induction false} KeepAll<T>(s: seq<T>, a: set<T>)
    requires forall x | x in s :: x in a
    ensures Keep(s, a) == s
  {
    if s != [] { KeepAll(s[1..], a); }
  }

  lemma {:induction false} KeepNone<T>(s: seq<T>, a: set<T>)
    requires forall x | x in s :: x !in a
    ensures Keep(s, a) == []
  {
    if s != [] { KeepNone(s[1..], a); }
  }

  lemma {:induction false} WithoutIsKeep<T>(s: seq<T>, x: T)
    ensures Without(s, x) == Keep(s, SetOf(s) - {x})
  {
    if s != [] {
      WithoutIsKeep(s[1..], x);
      KeepSame(s[1..], SetOf(s) - {x}, SetOf(s[1..]) - {x});
    }
  }

  lemma KeepCons<T>(h: T, t: seq<T>, a: set<T>)
    ensures Keep([h] + t, a) == (if h in a then [h] else []) + Keep(t, a)
  {
    assert ([h] + t)[1..] == t;
  }

  lemma PlaceCons<T>(h: T, t: seq<T>, x: T, anchor: T)
    ensures PlaceBefore([h] + t, x, anchor) ==
            if h == anchor then [x] + ([h] + t) else [h] + PlaceBefore(t, x, anchor)
  {
    assert ([h] + t)[1..] == t;
  }

  /** Filtering does not see an element that is moved, except at its new place. */
  lemma {:induction false} KeepWithout<T>(s: seq<T>, x: T, a: set<T>)
    ensures Keep(Without(s, x), a) == Keep(s, a - {x})
  {
    if s != [] {
      KeepWithout(s[1..], x, a);
      if s[0] == x {
        assert Without(s, x) == Without(s[1..], x);
      } else {
        KeepCons(s[0], Without(s[1..], x), a);
      }
    }
  }

  lemma {:induction false} KeepPlace<T>(s: seq<T>, x: T, anchor: T, a: set<T>)
    requires x in a && anchor in a
    ensures Keep(PlaceBefore(s, x, anchor), a) == PlaceBefore(Keep(s, a), x, anchor)
  {
    if s == [] {
      KeepCons(x, [], a);
    } else {
      var h, t := s[0], s[1..];
      assert s == [h] + t;
      KeepCons(h, t, a);
      PlaceCons(h, t, x, anchor);
      if h == anchor {
        KeepCons(x, s, a);
        PlaceCons(h, Keep(t, a), x, anchor);
      } else {
        KeepPlace(t, x, anchor, a);
        KeepCons(h, PlaceBefore(t, x, anchor), a);
        if h in a {
          PlaceCons(h, Keep(t, a), x, anchor);
        } else {
          assert Keep(s, a) == Keep(t, a);
        }
      }
    }
  }

  lemma {:induction false} PlaceAt<T>(s: seq<T>, t: seq<T>, x: T)
    requires t != [] && t[0] !in s
    ensures PlaceBefore(s + t, x, t[0]) == s + [x] + t
  {
    if s == [] {
      assert s + t == t;
    } else {
      assert (s + t)[1..] == s[1..] + t;
      PlaceAt(s[1..], t, x);
    }
  }

  lemma {:induction false} KeepKeep<T>(s: seq<T>, a: set<T>, b: set<T>)
    ensures Keep(Keep(s, a), b) == Keep(s, a * b)
  {
    if s != [] {
      KeepKeep(s[1..], a, b);
      KeepConcat(if s[0] in a then [s[0]] else [], Keep(s[1..], a), b);
      KeepCons(s[0], [], b);
    }
  }

  lemma KeepSnoc<T>(s: seq<T>, x: T, a: set<T>)
    ensures Keep(s + [x], a) == Keep(s, a) + if x in a then [x] else []
  {
    KeepConcat(s, [x], a);
    KeepCons(x, [], a);
  }

  lemma KeepFewer<T>(s: seq<T>, a: set<T>, b: set<T>, x: seq<T>, y: seq<T>, z: seq<T>)
    requires b <= a && Keep(s, a) == x + y + z
    requires (forall e | e in x :: e in b) && (forall e | e in y :: e !in b) && forall e | e in z :: e in b
    ensures Keep(s, b) == x + z
  {
    assert a * b == b;
    KeepKeep(s, a, b);
    KeepAll(x, b);
    KeepNone(y, b);
    KeepAll(z, b);
    KeepTwo(x, y, b, x, []);
    assert x + [] == x;
    KeepTwo(x + y, z, b, x, z);
  }

  lemma KeepTwo<T>(s: seq<T>, t: seq<T>, b: set<T>, s': seq<T>, t': seq<T>)
    requires Keep(s, b) == s' && Keep(t, b) == t'
    ensures Keep(s + t, b) == s' + t'
  {
    KeepConcat(s, t, b);
  }
}
