/** Stable sorting, as `sorted` and `list.sort` do it: what it gives is the only order it can give. */
module Sorting {

  /** `x` put behind everything it does not come before. */
  function Insert<T>(sorted: seq<T>, x: T, less: (T, T) -> bool): seq<T> {
    if sorted == [] || !less(x, sorted[|sorted| - 1]) then sorted + [x]
    else Insert(sorted[..|sorted| - 1], x, less) + [sorted[|sorted| - 1]]
  }

  function Sort<T>(s: seq<T>, less: (T, T) -> bool): seq<T> {
    if s == [] then [] else Insert(Sort(s[..|s| - 1], less), s[|s| - 1], less)
  }

  /** A strict weak order: what `less` of a key is. */
  ghost predicate Ordering<T(!new)>(less: (T, T) -> bool) {
    && (forall x :: !less(x, x))
    && (forall x, y, z :: less(x, y) && less(y, z) ==> less(x, z))
    && (forall x, y, z :: less(x, z) ==> less(x, y) || less(y, z))
  }

  ghost predicate Sorted<T>(s: seq<T>, less: (T, T) -> bool) {
    forall i, j :: 0 <= i < j < |s| ==> !less(s[j], s[i])
  }

  lemma {:induction false} InsertKeepsAll<T>(s: seq<T>, x: T, less: (T, T) -> bool)
    ensures multiset(Insert(s, x, less)) == multiset(s) + multiset{x}
  {
    if s != [] && less(x, s[|s| - 1]) {
      var init, last := s[..|s| - 1], s[|s| - 1];
      assert s == init + [last];
      InsertKeepsAll(init, x, less);
    }
  }

  /** Sorting loses nothing and adds nothing. */
  lemma {:induction false} SortPermutes<T>(s: seq<T>, less: (T, T) -> bool)
    ensures multiset(Sort(s, less)) == multiset(s)
  {
    if s != [] {
      SortPermutes(s[..|s| - 1], less);
      InsertKeepsAll(Sort(s[..|s| - 1], less), s[|s| - 1], less);
      assert s == s[..|s| - 1] + [s[|s| - 1]];
    }
  }

  lemma {:induction false} InsertSorted<T(!new)>(s: seq<T>, x: T, less: (T, T) -> bool)
    requires Ordering(less) && Sorted(s, less)
    ensures Sorted(Insert(s, x, less), less)
  {
    var r := Insert(s, x, less);
    if s == [] {
    } else if !less(x, s[|s| - 1]) {
      forall i | 0 <= i < |s| ensures !less(x, s[i]) {
        if i < |s| - 1 { assert !less(s[|s| - 1], s[i]); }
      }
    } else {
      var init, last := s[..|s| - 1], s[|s| - 1];
      InsertSorted(init, x, less);
      InsertKeepsAll(init, x, less);
      var front := Insert(init, x, less);
      forall i | 0 <= i < |front| ensures !less(last, front[i]) {
        assert front[i] in multiset(front);
        assert front[i] in multiset(init) || front[i] == x;
      }
    }
  }

  lemma {:induction false} SortSorts<T(!new)>(s: seq<T>, less: (T, T) -> bool)
    requires Ordering(less)
    ensures Sorted(Sort(s, less), less)
  {
    if s != [] {
      SortSorts(s[..|s| - 1], less);
      InsertSorted(Sort(s[..|s| - 1], less), s[|s| - 1], less);
    }
  }

  /** `less` tells any two of the elements of `s` apart. */
  ghost predicate Apart<T(!new)>(s: seq<T>, less: (T, T) -> bool) {
    forall x, y :: x in s && y in s && x != y ==> less(x, y) || less(y, x)
  }

  lemma {:induction false} SameElements<T>(a: seq<T>, b: seq<T>, x: T)
    requires multiset(a) == multiset(b) && x in a
    ensures x in b
  {
    assert x in multiset(a) && x in multiset(b);
  }

  lemma {:induction false} SameLast<T(!new)>(a: seq<T>, b: seq<T>, less: (T, T) -> bool)
    requires a != [] && b != [] && multiset(a) == multiset(b)
    requires Sorted(a, less) && Sorted(b, less) && Apart(a, less)
    ensures a[|a| - 1] == b[|b| - 1]
  {
    var x, y := a[|a| - 1], b[|b| - 1];
    SameElements(b, a, y);
    SameElements(a, b, x);
    var i :| 0 <= i < |a| && a[i] == y;
    var j :| 0 <= j < |b| && b[j] == x;
    assert i < |a| - 1 ==> !less(x, y);
    assert j < |b| - 1 ==> !less(y, x);
  }

  lemma {:induction false} InitMultiset<T>(a: seq<T>)
    requires a != []
    ensures multiset(a[..|a| - 1]) == multiset(a) - multiset{a[|a| - 1]}
  {
    assert a == a[..|a| - 1] + [a[|a| - 1]];
  }

  /** Two sorted arrangements of the same elements, told apart by the order, are the same. */
  lemma {:induction false} SortedUnique<T(!new)>(a: seq<T>, b: seq<T>, less: (T, T) -> bool)
    requires Sorted(a, less) && Sorted(b, less) && multiset(a) == multiset(b) && Apart(a, less)
    ensures a == b
  {
    assert |a| == |multiset(a)| == |multiset(b)| == |b|;
    if a != [] {
      SameLast(a, b, less);
      InitMultiset(a);
      InitMultiset(b);
      SortedUnique(a[..|a| - 1], b[..|b| - 1], less);
    }
  }

  // -------------------------------------------------------------- stability

  /** The elements that tie with `x`, in order. */
  function Ties<T>(s: seq<T>, x: T, less: (T, T) -> bool): seq<T> {
    if s == [] then []
    else
      Ties(s[..|s| - 1], x, less)
      + if !less(s[|s| - 1], x) && !less(x, s[|s| - 1]) then [s[|s| - 1]] else []
  }

  lemma {:induction false} TiesAppend<T>(s: seq<T>, y: T, x: T, less: (T, T) -> bool)
    ensures Ties(s + [y], x, less) == Ties(s, x, less) + if !less(y, x) && !less(x, y) then [y] else []
  {
    assert (s + [y])[..|s|] == s;
  }

  lemma {:induction false} InsertStable<T(!new)>(s: seq<T>, y: T, x: T, less: (T, T) -> bool)
    requires Ordering(less)
    ensures Ties(Insert(s, y, less), x, less) == Ties(s + [y], x, less)
  {
    if s != [] && less(y, s[|s| - 1]) {
      var init, last := s[..|s| - 1], s[|s| - 1];
      InsertStable(init, y, x, less);
      TiesAppend(Insert(init, y, less), last, x, less);
      TiesAppend(init, y, x, less);
      TiesAppend(s, y, x, less);
    }
  }

  /** Elements that tie keep the order they came in. */
  lemma {:induction false} SortStable<T(!new)>(s: seq<T>, x: T, less: (T, T) -> bool)
    requires Ordering(less)
    ensures Ties(Sort(s, less), x, less) == Ties(s, x, less)
  {
    if s != [] {
      var init, last := s[..|s| - 1], s[|s| - 1];
      SortStable(init, x, less);
      InsertStable(Sort(init, less), last, x, less);
      TiesAppend(Sort(init, less), last, x, less);
      assert Sort(s, less) == Insert(Sort(init, less), last, less);
    }
  }
}
