/** Array.prototype.sort with a comparison function: the stable order it guarantees. */
module Sorting {
  /** A comparison that never contradicts itself; elements it does not separate are ties. */
  ghost predicate WeakOrder<T(!new)>(less: (T, T) -> bool) {
    && (forall a :: !less(a, a))
    && (forall a, b :: less(a, b) ==> !less(b, a))
    && (forall a, b, c {:trigger less(a, b), less(b, c)} :: less(a, b) && less(b, c) ==> less(a, c))
    && (forall a, b, c {:trigger less(a, c), less(b, c)} :: less(a, c) ==> less(a, b) || less(b, c))
  }

  /** No element stands before one that is smaller. */
  ghost predicate Sorted<T>(s: seq<T>, less: (T, T) -> bool) {
    forall i, j :: 0 <= i < j < |s| ==> !less(s[j], s[i])
  }

  /** `x` behind the elements of `s` that are not larger. */
  function Insert<T>(s: seq<T>, x: T, less: (T, T) -> bool): (r: seq<T>)
    ensures |r| == |s| + 1
    ensures multiset(r) == multiset(s) + multiset{x}
  {
    if s == [] then [x]
    else
      assert s == s[..|s| - 1] + [s[|s| - 1]];
      if less(x, s[|s| - 1]) then Insert(s[..|s| - 1], x, less) + [s[|s| - 1]] else s + [x]
  }

  /** The elements of `s`, sorted; ties stay in their order. */
  function Sort<T>(s: seq<T>, less: (T, T) -> bool): (r: seq<T>)
    ensures |r| == |s|
    ensures multiset(r) == multiset(s)
  {
    if s == [] then []
    else
      assert s == s[..|s| - 1] + [s[|s| - 1]];
      Insert(Sort(s[..|s| - 1], less), s[|s| - 1], less)
  }

  lemma {:induction false} InsertSorted<T(!new)>(s: seq<T>, x: T, less: (T, T) -> bool)
    requires WeakOrder(less) && Sorted(s, less)
    ensures Sorted(Insert(s, x, less), less)
  {
    if s != [] {
      var n := |s| - 1;
      var last := s[n];
      if less(x, last) {
        InsertSorted(s[..n], x, less);
        var front := Insert(s[..n], x, less);
        forall i | 0 <= i < |front| ensures !less(last, front[i]) {
          assert front[i] in multiset(front);
          assert front[i] == x || front[i] in s[..n];
        }
      }
    }
  }

  lemma {:induction false} SortSorted<T(!new)>(s: seq<T>, less: (T, T) -> bool)
    requires WeakOrder(less)
    ensures Sorted(Sort(s, less), less)
  {
    if s != [] {
      SortSorted(s[..|s| - 1], less);
      InsertSorted(Sort(s[..|s| - 1], less), s[|s| - 1], less);
    }
  }

  lemma SortElements<T>(s: seq<T>, less: (T, T) -> bool)
    ensures forall x :: x in Sort(s, less) <==> x in s
  {
    assert forall x :: x in Sort(s, less) <==> x in multiset(Sort(s, less));
    assert forall x :: x in s <==> x in multiset(s);
  }

  /** No two elements have the same key. */
  ghost predicate DistinctBy<T, K>(s: seq<T>, key: T -> K) {
    forall i, j :: 0 <= i < j < |s| ==> key(s[i]) != key(s[j])
  }

  lemma {:induction false} InsertDistinct<T, K>(s: seq<T>, x: T, less: (T, T) -> bool, key: T -> K)
    requires DistinctBy(s, key) && forall i :: 0 <= i < |s| ==> key(s[i]) != key(x)
    ensures DistinctBy(Insert(s, x, less), key)
  {
    if s != [] && less(x, s[|s| - 1]) {
      var n := |s| - 1;
      InsertDistinct(s[..n], x, less, key);
      var front := Insert(s[..n], x, less);
      forall i | 0 <= i < |front| ensures key(front[i]) != key(s[n]) {
        assert front[i] in multiset(front);
        assert front[i] == x || front[i] in s[..n];
      }
    }
  }

  lemma {:induction false} SortDistinct<T, K>(s: seq<T>, less: (T, T) -> bool, key: T -> K)
    requires DistinctBy(s, key)
    ensures DistinctBy(Sort(s, less), key)
  {
    if s != [] {
      var n := |s| - 1;
      SortDistinct(s[..n], less, key);
      var sorted := Sort(s[..n], less);
      forall i | 0 <= i < |sorted| ensures key(sorted[i]) != key(s[n]) {
        assert sorted[i] in multiset(sorted);
        assert sorted[i] in multiset(s[..n]);
        assert sorted[i] in s[..n];
      }
      InsertDistinct(sorted, s[n], less, key);
    }
  }

  // ---------------------------------------------------------------- ties

  predicate Tied<T>(a: T, b: T, less: (T, T) -> bool) {
    !less(a, b) && !less(b, a)
  }

  /** The elements that `less` does not separate from `x`, in their order. */
  function Ties<T>(s: seq<T>, x: T, less: (T, T) -> bool): seq<T> {
    if s == [] then []
    else Ties(s[..|s| - 1], x, less) + if Tied(s[|s| - 1], x, less) then [s[|s| - 1]] else []
  }

  lemma TiesSnoc<T>(s: seq<T>, y: T, x: T, less: (T, T) -> bool)
    ensures Ties(s + [y], x, less) == Ties(s, x, less) + if Tied(y, x, less) then [y] else []
  {
    assert (s + [y])[..|s|] == s;
  }

  lemma {:induction false} InsertTies<T(!new)>(s: seq<T>, y: T, x: T, less: (T, T) -> bool)
    requires WeakOrder(less)
    ensures Ties(Insert(s, y, less), x, less) == Ties(s, x, less) + if Tied(y, x, less) then [y] else []
  {
    hide WeakOrder, Ties, Tied;
    if s != [] && less(y, s[|s| - 1]) {
      var front, last := s[..|s| - 1], s[|s| - 1];
      InsertTies(front, y, x, less);
      OneTied(y, last, x, less);
      TiesSnoc(Insert(front, y, less), last, x, less);
      TiesSnoc(front, last, x, less);
      assert s == front + [last] && Insert(s, y, less) == Insert(front, y, less) + [last];
    } else {
      TiesSnoc(s, y, x, less);
      assert Insert(s, y, less) == s + [y];
    }
  }

  lemma OneTied<T(!new)>(y: T, z: T, x: T, less: (T, T) -> bool)
    requires WeakOrder(less) && less(y, z)
    ensures !(Tied(y, x, less) && Tied(z, x, less))
  {
    assert less(y, x) || less(x, z);
  }

  /** Sorting is stable: among elements that are not separated nothing changes. */
  lemma {:induction false} SortStable<T(!new)>(s: seq<T>, x: T, less: (T, T) -> bool)
    requires WeakOrder(less)
    ensures Ties(Sort(s, less), x, less) == Ties(s, x, less)
  {
    if s != [] {
      SortStable(s[..|s| - 1], x, less);
      InsertTies(Sort(s[..|s| - 1], less), s[|s| - 1], x, less);
    }
  }

  lemma {:induction false} TiesIn<T>(s: seq<T>, x: T, less: (T, T) -> bool)
    ensures forall y :: y in Ties(s, x, less) ==> y in s
  {
    if s != [] {
      TiesIn(s[..|s| - 1], x, less);
      assert forall y :: y in s[..|s| - 1] ==> y in s;
    }
  }

  /** What is in a sorted list is not larger than its last element. */
  lemma NoneLarger<T(!new)>(a: seq<T>, y: T, less: (T, T) -> bool)
    requires Sorted(a, less) && y in a && !less(y, y)
    ensures !less(a[|a| - 1], y)
  {
    var i :| 0 <= i < |a| && a[i] == y;
  }

  /** The last of `b` is in `a` as well if the ties are the same. */
  lemma LastInBoth<T(!new)>(a: seq<T>, b: seq<T>, less: (T, T) -> bool)
    requires b != [] && !less(b[|b| - 1], b[|b| - 1]) && Ties(a, b[|b| - 1], less) == Ties(b, b[|b| - 1], less)
    ensures b[|b| - 1] in a
  {
    var y := b[|b| - 1];
    var t := Ties(b[..|b| - 1], y, less);
    assert Ties(b, y, less) == t + [y];
    hide Ties;
    TiesIn(a, y, less);
    assert (t + [y])[|t|] == y;
  }

  lemma LastNotLarger<T(!new)>(a: seq<T>, b: seq<T>, less: (T, T) -> bool)
    requires WeakOrder(less) && Sorted(a, less) && a != [] && b != []
    requires forall x :: Ties(a, x, less) == Ties(b, x, less)
    ensures !less(a[|a| - 1], b[|b| - 1])
  {
    var y := b[|b| - 1];
    assert !less(y, y) && Ties(a, y, less) == Ties(b, y, less);
    hide WeakOrder, Sorted, Ties;
    LastInBoth(a, b, less);
    NoneLarger(a, y, less);
  }

  lemma SameLast<T>(a: seq<T>, x: T, b: seq<T>, y: T)
    requires a + [x] == b + [y]
    ensures a == b && x == y
  {
    assert a == (a + [x])[..|a|] && b == (b + [y])[..|b|];
    assert (a + [x])[|a|] == x && (b + [y])[|b|] == y;
  }

  lemma FrontTies<T>(a: seq<T>, b: seq<T>, z: T, less: (T, T) -> bool)
    requires a != [] && b != [] && a[|a| - 1] == b[|b| - 1] && Ties(a, z, less) == Ties(b, z, less)
    ensures Ties(a[..|a| - 1], z, less) == Ties(b[..|b| - 1], z, less)
  {
    var x, ta, tb := a[|a| - 1], Ties(a[..|a| - 1], z, less), Ties(b[..|b| - 1], z, less);
    if Tied(x, z, less) {
      SameLast(ta, x, tb, x);
    } else {
      assert Ties(a, z, less) == ta && Ties(b, z, less) == tb;
    }
  }

  lemma TiesOfLast<T(!new)>(a: seq<T>, less: (T, T) -> bool)
    requires WeakOrder(less)
    ensures a != [] ==> Ties(a, a[|a| - 1], less) != []
    ensures a == [] ==> forall x :: Ties(a, x, less) == []
  {
  }

  /** What sorting gives is determined by being sorted and stable, so the choice of algorithm does not matter. */
  lemma {:induction false} StableUnique<T(!new)>(a: seq<T>, b: seq<T>, less: (T, T) -> bool)
    requires WeakOrder(less) && Sorted(a, less) && Sorted(b, less)
    requires forall x :: Ties(a, x, less) == Ties(b, x, less)
    ensures a == b
    decreases |a|
  {
    hide WeakOrder, Sorted, Ties;
    TiesOfLast(a, less);
    TiesOfLast(b, less);
    if a != [] && b != [] {
      var fa, x, fb := a[..|a| - 1], a[|a| - 1], b[..|b| - 1];
      LastsEqual(a, b, less);
      FrontSorted(a, less);
      FrontSorted(b, less);
      forall z ensures Ties(fa, z, less) == Ties(fb, z, less) { FrontTies(a, b, z, less); }
      StableUnique(fa, fb, less);
      assert a == fa + [x] && b == fb + [x];
    }
  }

  lemma FrontSorted<T>(a: seq<T>, less: (T, T) -> bool)
    requires a != [] && Sorted(a, less)
    ensures Sorted(a[..|a| - 1], less)
  {
  }

  lemma LastsEqual<T(!new)>(a: seq<T>, b: seq<T>, less: (T, T) -> bool)
    requires WeakOrder(less) && Sorted(a, less) && Sorted(b, less) && a != [] && b != []
    requires forall x :: Ties(a, x, less) == Ties(b, x, less)
    ensures a[|a| - 1] == b[|b| - 1]
  {
    var x, y := a[|a| - 1], b[|b| - 1];
    assert !less(x, x);
    LastNotLarger(a, b, less);
    LastNotLarger(b, a, less);
    hide WeakOrder, Sorted;
    assert Ties(a, x, less) == Ties(b, x, less);
    SameLast(Ties(a[..|a| - 1], x, less), x, Ties(b[..|b| - 1], x, less), y);
  }
}
