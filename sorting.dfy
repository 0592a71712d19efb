/**
 * The stable descending sort behind LINQ's OrderByDescending(..).ThenByDescending(..).
 *
 * An ordering is given as a relation `above(a, b)`: "a belongs strictly ahead of b".
 * Elements that are not ahead of one another are tied; a stable sort keeps tied
 * elements in their input order.
 */
module Sorting {

  /** `above` is a strict weak order: asymmetric, and "not ahead of" is transitive. */
  ghost predicate StrictWeakOrder<T(!new)>(above: (T, T) -> bool) {
    && (forall a, b :: above(a, b) ==> !above(b, a))
    && (forall a, b, c :: !above(a, b) && !above(b, c) ==> !above(a, c))
  }

  /** No element is strictly ahead of an element that comes before it. */
  predicate Sorted<T>(s: seq<T>, above: (T, T) -> bool) {
    forall i, j :: 0 <= i < j < |s| ==> !above(s[j], s[i])
  }

  predicate Tied<T>(a: T, b: T, above: (T, T) -> bool) {
    !above(a, b) && !above(b, a)
  }

  /** The elements of `s` tied with `x`, in the order they appear in `s`. */
  function TiedWith<T>(s: seq<T>, x: T, above: (T, T) -> bool): seq<T> {
    if s == [] then []
    else (if Tied(s[0], x, above) then [s[0]] else []) + TiedWith(s[1..], x, above)
  }

  /** Puts `x` in front of the first element that is not strictly ahead of it. */
  function Insert<T>(x: T, s: seq<T>, above: (T, T) -> bool): (r: seq<T>)
    ensures multiset(r) == multiset(s) + multiset{x}
  {
    if s == [] then [x]
    else if above(s[0], x) then
      assert s == [s[0]] + s[1..];
      [s[0]] + Insert(x, s[1..], above)
    else [x] + s
  }

  /** Insertion sort; the earlier of two tied elements is inserted later and lands in front. */
  function SortBy<T>(s: seq<T>, above: (T, T) -> bool): (r: seq<T>)
    ensures multiset(r) == multiset(s)
  {
    if s == [] then []
    else
      assert s == [s[0]] + s[1..];
      Insert(s[0], SortBy(s[1..], above), above)
  }

  lemma {:induction false} InsertSorted<T(!new)>(x: T, s: seq<T>, above: (T, T) -> bool)
    requires StrictWeakOrder(above)
    requires Sorted(s, above)
    ensures Sorted(Insert(x, s, above), above)
  {
    if s == [] {
    } else if above(s[0], x) {
      var rest := Insert(x, s[1..], above);
      SortedTail(s, above);
      InsertSorted(x, s[1..], above);
      forall j | 0 <= j < |rest| ensures !above(rest[j], s[0]) {
        assert rest[j] in multiset(rest);
        if rest[j] != x {
          assert rest[j] in multiset(s[1..]);
          var k :| 0 <= k < |s[1..]| && s[1..][k] == rest[j];
          assert s[k + 1] == rest[j];
        }
      }
      SortedCons(s[0], rest, above);
    } else {
      forall j | 0 <= j < |s| ensures !above(s[j], x) {
        if j > 0 {
          assert !above(s[j], s[0]);
        }
      }
      SortedCons(x, s, above);
    }
  }

  lemma SortedTail<T>(s: seq<T>, above: (T, T) -> bool)
    requires s != [] && Sorted(s, above)
    ensures Sorted(s[1..], above)
  {
    forall i, j | 0 <= i < j < |s[1..]| ensures !above(s[1..][j], s[1..][i]) {
      assert s[1..][j] == s[j + 1] && s[1..][i] == s[i + 1];
    }
  }

  /** A sorted sequence stays sorted behind an element nothing in it is ahead of. */
  lemma SortedCons<T>(x: T, s: seq<T>, above: (T, T) -> bool)
    requires Sorted(s, above)
    requires forall j :: 0 <= j < |s| ==> !above(s[j], x)
    ensures Sorted([x] + s, above)
  {
    var r := [x] + s;
    forall i, j | 0 <= i < j < |r| ensures !above(r[j], r[i]) {
      if i == 0 {
        assert r[j] == s[j - 1];
      } else {
        assert r[i] == s[i - 1] && r[j] == s[j - 1];
      }
    }
  }

  /** The sort yields a sorted permutation of its input. */
  lemma {:induction false} SortBySorted<T(!new)>(s: seq<T>, above: (T, T) -> bool)
    requires StrictWeakOrder(above)
    ensures Sorted(SortBy(s, above), above)
  {
    if s != [] {
      SortBySorted(s[1..], above);
      InsertSorted(s[0], SortBy(s[1..], above), above);
    }
  }

  lemma {:induction false} InsertTied<T(!new)>(y: T, s: seq<T>, x: T, above: (T, T) -> bool)
    requires StrictWeakOrder(above)
    ensures TiedWith(Insert(y, s, above), x, above)
         == (if Tied(y, x, above) then [y] else []) + TiedWith(s, x, above)
  {
    if s == [] {
      assert Insert(y, s, above) == [y];
      assert [y][1..] == [];
    } else if above(s[0], y) {
      var rest := Insert(y, s[1..], above);
      var r := [s[0]] + rest;
      assert Insert(y, s, above) == r;
      assert r[0] == s[0] && r[1..] == rest;
      InsertTied(y, s[1..], x, above);
      if Tied(y, x, above) {
        AheadOfTied(s[0], y, x, above);
        assert TiedWith(r, x, above) == TiedWith(rest, x, above);
        assert TiedWith(s, x, above) == TiedWith(s[1..], x, above);
      } else {
        assert TiedWith(rest, x, above) == TiedWith(s[1..], x, above);
      }
    } else {
      var r := [y] + s;
      assert Insert(y, s, above) == r;
      assert r[1..] == s;
    }
  }

  /** An element ahead of `y` is ahead of everything tied with `y`. */
  lemma AheadOfTied<T(!new)>(a: T, y: T, x: T, above: (T, T) -> bool)
    requires StrictWeakOrder(above)
    requires above(a, y)
    ensures Tied(y, x, above) ==> above(a, x)
  {
  }

  /** The sort is stable: the elements tied with any `x` keep their relative order. */
  lemma {:induction false} SortByStable<T(!new)>(s: seq<T>, x: T, above: (T, T) -> bool)
    requires StrictWeakOrder(above)
    ensures TiedWith(SortBy(s, above), x, above) == TiedWith(s, x, above)
  {
    if s != [] {
      SortByStable(s[1..], x, above);
      InsertTied(s[0], SortBy(s[1..], above), x, above);
    }
  }
}
