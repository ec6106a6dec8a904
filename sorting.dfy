/**
 * The stable sort behind Kotlin's `sortedWith` and `sortByDescending`
 * (both delegate to a stable merge sort). It is modelled as an insertion
 * sort parameterised by a strict "comes before" relation: the result is a
 * permutation of the input, ordered by the relation, and elements the
 * relation cannot tell apart keep their input order.
 */
module Sorting {

  /**
   * A strict weak order: irreflexive, transitive, and "not before" is
   * transitive as well (so "neither comes before the other" is an equivalence).
   */
  ghost predicate StrictWeakOrder<T(!new)>(before: (T, T) -> bool) {
    && (forall a :: !before(a, a))
    && (forall a, b, c :: before(a, b) && before(b, c) ==> before(a, c))
    && (forall a, b, c :: !before(a, b) && !before(b, c) ==> !before(a, c))
  }

  /** Neither element comes before the other. */
  predicate Tied<T>(a: T, b: T, before: (T, T) -> bool) {
    !before(a, b) && !before(b, a)
  }

  /** No later element comes before an earlier one. */
  ghost predicate SortedBy<T>(s: seq<T>, before: (T, T) -> bool) {
    forall i, j :: 0 <= i < j < |s| ==> !before(s[j], s[i])
  }

  /** Places `x` in front of the first element that does not come before it. */
  function Insert<T>(x: T, s: seq<T>, before: (T, T) -> bool): (r: seq<T>)
    ensures multiset(r) == multiset(s) + multiset{x}
  {
    if s == [] then [x]
    else if before(s[0], x) then
      assert s == [s[0]] + s[1..];
      [s[0]] + Insert(x, s[1..], before)
    else [x] + s
  }

  /** Stable insertion sort: the head is inserted into the sorted tail. */
  function Sort<T>(s: seq<T>, before: (T, T) -> bool): (r: seq<T>)
    ensures multiset(r) == multiset(s)
  {
    if s == [] then []
    else
      assert s == [s[0]] + s[1..];
      Insert(s[0], Sort(s[1..], before), before)
  }

  /** The elements of `s` tied with `e`, in their order in `s`. */
  function TiedWith<T>(s: seq<T>, e: T, before: (T, T) -> bool): seq<T> {
    if s == [] then []
    else (if Tied(s[0], e, before) then [s[0]] else []) + TiedWith(s[1..], e, before)
  }

  lemma {:induction false} InsertSorted<T(!new)>(x: T, s: seq<T>, before: (T, T) -> bool)
    requires StrictWeakOrder(before) && SortedBy(s, before)
    ensures SortedBy(Insert(x, s, before), before)
  {
    if s != [] {
      if before(s[0], x) {
        var tail := s[1..];
        assert SortedBy(tail, before) by {
          forall i, j | 0 <= i < j < |tail| ensures !before(tail[j], tail[i]) {
            assert tail[j] == s[j + 1] && tail[i] == s[i + 1];
          }
        }
        InsertSorted(x, tail, before);
        var r := Insert(x, tail, before);
        forall j | 0 <= j < |r| ensures !before(r[j], s[0]) {
          assert r[j] in multiset(r);
          if r[j] != x {
            assert r[j] in multiset(tail);
            var k :| 0 <= k < |tail| && tail[k] == r[j];
            assert s[k + 1] == r[j];
          }
        }
      } else {
        var r := [x] + s;
        forall i, j | 0 <= i < j < |r| ensures !before(r[j], r[i]) {
          if i == 0 {
            assert r[j] == s[j - 1];
            assert !before(s[j - 1], s[0]);
          } else {
            assert r[i] == s[i - 1] && r[j] == s[j - 1];
          }
        }
      }
    }
  }

  /** The sort orders its result. */
  lemma {:induction false} SortSorted<T(!new)>(s: seq<T>, before: (T, T) -> bool)
    requires StrictWeakOrder(before)
    ensures SortedBy(Sort(s, before), before)
  {
    if s != [] {
      SortSorted(s[1..], before);
      InsertSorted(s[0], Sort(s[1..], before), before);
    }
  }

  lemma TiedWithCons<T>(x: T, s: seq<T>, e: T, before: (T, T) -> bool)
    ensures TiedWith([x] + s, e, before) == (if Tied(x, e, before) then [x] else []) + TiedWith(s, e, before)
  {
    assert ([x] + s)[1..] == s;
  }

  /** An element before something tied with `e` comes before `e` itself. */
  lemma BeforeTiedComesBefore<T(!new)>(a: T, x: T, e: T, before: (T, T) -> bool)
    requires StrictWeakOrder(before) && before(a, x) && Tied(x, e, before)
    ensures before(a, e)
  {
  }

  lemma {:induction false} InsertTiedWith<T(!new)>(x: T, s: seq<T>, e: T, before: (T, T) -> bool)
    requires StrictWeakOrder(before)
    ensures TiedWith(Insert(x, s, before), e, before)
         == (if Tied(x, e, before) then [x] else []) + TiedWith(s, e, before)
  {
    if s == [] {
      TiedWithCons(x, s, e, before);
    } else if before(s[0], x) {
      var rest := Insert(x, s[1..], before);
      assert Insert(x, s, before) == [s[0]] + rest;
      assert s == [s[0]] + s[1..];
      InsertTiedWith(x, s[1..], e, before);
      TiedWithCons(s[0], rest, e, before);
      TiedWithCons(s[0], s[1..], e, before);
      var w := TiedWith(s[1..], e, before);
      if Tied(x, e, before) {
        BeforeTiedComesBefore(s[0], x, e, before);
        assert TiedWith(rest, e, before) == [x] + w;
        assert TiedWith(s, e, before) == w;
      } else {
        assert TiedWith(rest, e, before) == w;
      }
    } else {
      TiedWithCons(x, s, e, before);
    }
  }

  /** Stability: the elements tied with any `e` keep their input order. */
  lemma {:induction false} SortStable<T(!new)>(s: seq<T>, e: T, before: (T, T) -> bool)
    requires StrictWeakOrder(before)
    ensures TiedWith(Sort(s, before), e, before) == TiedWith(s, e, before)
  {
    if s != [] {
      SortStable(s[1..], e, before);
      InsertTiedWith(s[0], Sort(s[1..], before), e, before);
    }
  }

  /** No two elements of `s` share a key. */
  ghost predicate KeysDistinct<T, K>(s: seq<T>, key: T -> K) {
    forall i, j :: 0 <= i < j < |s| ==> key(s[i]) != key(s[j])
  }

  /** Sorting keeps a key that no two elements share unshared. */
  lemma {:induction false} SortKeepsKeysDistinct<T, K>(s: seq<T>, key: T -> K, before: (T, T) -> bool)
    requires KeysDistinct(s, key)
    ensures KeysDistinct(Sort(s, before), key)
  {
    if s != [] {
      var tail := s[1..];
      assert KeysDistinct(tail, key) by {
        forall i, j | 0 <= i < j < |tail| ensures key(tail[i]) != key(tail[j]) {
          assert tail[i] == s[i + 1] && tail[j] == s[j + 1];
        }
      }
      SortKeepsKeysDistinct(tail, key, before);
      var sorted := Sort(tail, before);
      forall y | y in sorted ensures key(y) != key(s[0]) {
        assert y in multiset(sorted);
        var k :| 0 <= k < |tail| && tail[k] == y;
        assert s[k + 1] == y;
      }
      InsertKeepsKeysDistinct(s[0], sorted, key, before);
    }
  }

  lemma {:induction false} InsertKeepsKeysDistinct<T, K>(x: T, s: seq<T>, key: T -> K, before: (T, T) -> bool)
    requires KeysDistinct(s, key)
    requires forall y :: y in s ==> key(y) != key(x)
    ensures KeysDistinct(Insert(x, s, before), key)
  {
    if s != [] && before(s[0], x) {
      var tail := s[1..];
      assert KeysDistinct(tail, key) by {
        forall i, j | 0 <= i < j < |tail| ensures key(tail[i]) != key(tail[j]) {
          assert tail[i] == s[i + 1] && tail[j] == s[j + 1];
        }
      }
      InsertKeepsKeysDistinct(x, tail, key, before);
      var r := Insert(x, tail, before);
      forall y | y in r ensures key(y) != key(s[0]) {
        assert y in multiset(r);
        if y != x {
          var k :| 0 <= k < |tail| && tail[k] == y;
          assert s[k + 1] == y;
        } else {
          assert s[0] in s;
        }
      }
      var whole := [s[0]] + r;
      forall i, j | 0 <= i < j < |whole| ensures key(whole[i]) != key(whole[j]) {
        if i == 0 {
          assert whole[j] == r[j - 1];
          assert r[j - 1] in r;
        } else {
          assert whole[i] == r[i - 1] && whole[j] == r[j - 1];
        }
      }
    } else {
      var whole := [x] + s;
      forall i, j | 0 <= i < j < |whole| ensures key(whole[i]) != key(whole[j]) {
        if i == 0 {
          assert whole[j] == s[j - 1];
          assert s[j - 1] in s;
        } else {
          assert whole[i] == s[i - 1] && whole[j] == s[j - 1];
        }
      }
    }
  }
}
