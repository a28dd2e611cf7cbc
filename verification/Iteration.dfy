/** Loops that go from one value to the next until there is none to go to. */
module Iteration {
  import opened Collections
  import opened Wrappers

  /** Where the loop is after `k` turns, while it has not ended. */
  function Iterate<T>(step: T -> Option<T>, from: T, k: nat): Option<T> {
    if k == 0 then Some(from)
    else match Iterate(step, from, k - 1)
      case None => None
      case Some(at) => step(at)
  }

  ghost predicate Stops<T(!new)>(step: T -> Option<T>, from: T) {
    exists k: nat :: Iterate(step, from, k).None?
  }

  /** Within `n` turns the loop comes back to where it has been. */
  ghost predicate Revisits<T(!new)>(step: T -> Option<T>, from: T, n: nat) {
    exists i: nat, j: nat :: i < j <= n && Iterate(step, from, i).Some? && Iterate(step, from, i) == Iterate(step, from, j)
  }

  /** Once the loop has ended it stays so; while it runs, every turn before was in it. */
  lemma {:induction false} Before<T>(step: T -> Option<T>, from: T, j: nat, k: nat)
    requires j <= k && Iterate(step, from, k).Some?
    ensures Iterate(step, from, j).Some?
  {
    if j < k { Before(step, from, j, k - 1); }
  }

  lemma {:induction false} Composes<T>(step: T -> Option<T>, from: T, j: nat, k: nat)
    requires Iterate(step, from, j).Some?
    ensures Iterate(step, from, j + k) == Iterate(step, Iterate(step, from, j).value, k)
  {
    if k > 0 { Composes(step, from, j, k - 1); }
  }

  /** A loop that comes back to where it was goes round for good. */
  lemma {:induction false} GoesRound<T>(step: T -> Option<T>, from: T, p: nat, k: nat)
    requires p > 0 && Iterate(step, from, p) == Some(from)
    ensures Iterate(step, from, k).Some?
    decreases k
  {
    if k <= p {
      Before(step, from, k, p);
    } else {
      GoesRound(step, from, p, k - p);
      Composes(step, from, p, k - p);
    }
  }

  lemma {:induction false} RevisitGoesOn<T>(step: T -> Option<T>, from: T, i: nat, j: nat, k: nat)
    requires i < j && Iterate(step, from, i).Some? && Iterate(step, from, i) == Iterate(step, from, j)
    ensures Iterate(step, from, k).Some?
  {
    if k <= i {
      Before(step, from, k, i);
    } else {
      Composes(step, from, i, j - i);
      GoesRound(step, Iterate(step, from, i).value, j - i, k - i);
      Composes(step, from, i, k - i);
    }
  }

  /** Where the loop has been in its first `n` turns. */
  function Places<T>(step: T -> Option<T>, from: T, n: nat): seq<T>
    requires n > 0 ==> Iterate(step, from, n - 1).Some?
  {
    if n == 0 then []
    else
      assert n > 1 ==> Iterate(step, from, n - 2).Some?;
      Places(step, from, n - 1) + [Iterate(step, from, n - 1).value]
  }

  lemma {:induction false} PlaceAt<T>(step: T -> Option<T>, from: T, n: nat, k: nat)
    requires k < n && Iterate(step, from, n - 1).Some?
    ensures |Places(step, from, n)| == n && Some(Places(step, from, n)[k]) == Iterate(step, from, k)
  {
    if n > 1 { PlaceAt(step, from, n - 1, if k < n - 1 then k else 0); }
  }

  lemma {:induction false} AsMany<T>(s: seq<T>)
    requires forall i, j :: 0 <= i < j < |s| ==> s[i] != s[j]
    ensures |set x | x in s| == |s|
  {
    if s != [] {
      var n := |s| - 1;
      AsMany(s[..n]);
      assert s == s[..n] + [s[n]];
      assert (set x | x in s) == (set x | x in s[..n]) + {s[n]};
    }
  }

  lemma {:induction false} AtMost<T>(s: seq<T>)
    ensures |set x | x in s| <= |s|
  {
    if s != [] {
      var n := |s| - 1;
      AtMost(s[..n]);
      assert s == s[..n] + [s[n]];
      assert (set x | x in s) == (set x | x in s[..n]) + {s[n]};
    }
  }

  /** More places than names for them: one comes twice. */
  lemma {:induction false} Pigeonhole<T>(s: seq<T>, among: seq<T>)
    requires |s| > |among| && forall k :: 0 <= k < |s| ==> s[k] in among
    ensures exists i, j :: 0 <= i < j < |s| && s[i] == s[j]
  {
    if forall i, j :: 0 <= i < j < |s| ==> s[i] != s[j] {
      AsMany(s);
      AtMost(among);
      SubsetIsSmaller(set x | x in s, set x | x in among);
      assert false;
    }
  }

  lemma {:induction false} LongLoopRevisits<T(!new)>(step: T -> Option<T>, from: T, among: seq<T>)
    requires from in among && forall x :: step(x).Some? ==> step(x).value in among
    requires Iterate(step, from, |among|).Some?
    ensures Revisits(step, from, |among|)
  {
    var n := |among| + 1;
    var places := Places(step, from, n);
    PlaceAt(step, from, n, 0);
    forall k: nat | k < n ensures Iterate(step, from, k) == Some(places[k]) && places[k] in among {
      PlaceAt(step, from, n, k);
      if k > 0 { PlaceAt(step, from, n, k - 1); }
    }
    Pigeonhole(places, among);
    var i, j :| 0 <= i < j < |places| && places[i] == places[j];
    assert Iterate(step, from, i) == Iterate(step, from, j);
  }

  /** A loop among finitely many values ends exactly when it never comes to one it has been at. */
  lemma {:induction false} StopsIff<T(!new)>(step: T -> Option<T>, from: T, among: seq<T>)
    requires from in among && forall x :: step(x).Some? ==> step(x).value in among
    ensures Stops(step, from) <==> !Revisits(step, from, |among|)
  {
    if Revisits(step, from, |among|) {
      var i: nat, j: nat :| i < j <= |among| && Iterate(step, from, i).Some? && Iterate(step, from, i) == Iterate(step, from, j);
      forall k: nat ensures Iterate(step, from, k).Some? { RevisitGoesOn(step, from, i, j, k); }
    } else if Iterate(step, from, |among|).Some? {
      LongLoopRevisits(step, from, among);
    }
  }

  // --------------------------------------------------------- where a loop ends

  /** The loop comes to `at` and ends there. */
  ghost predicate IsLast<T(!new)>(step: T -> Option<T>, from: T, at: T) {
    step(at).None? && exists k: nat :: Iterate(step, from, k) == Some(at)
  }

  lemma {:induction false} HasLast<T(!new)>(step: T -> Option<T>, from: T, n: nat)
    requires Iterate(step, from, n).None?
    ensures exists at :: IsLast(step, from, at)
  {
    if Iterate(step, from, n - 1).None? {
      HasLast(step, from, n - 1);
    } else {
      assert IsLast(step, from, Iterate(step, from, n - 1).value);
    }
  }

  lemma {:induction false} OneLast<T(!new)>(step: T -> Option<T>, from: T, at: T, other: T)
    requires IsLast(step, from, at) && IsLast(step, from, other)
    ensures at == other
  {
    var j: nat :| Iterate(step, from, j) == Some(at);
    var k: nat :| Iterate(step, from, k) == Some(other);
    if j < k { Before(step, from, j + 1, k); }
    if k < j { Before(step, from, k + 1, j); }
  }

  ghost function Last<T(!new)>(step: T -> Option<T>, from: T): (at: T)
    requires Stops(step, from)
    ensures IsLast(step, from, at)
  {
    var n: nat :| Iterate(step, from, n).None?;
    HasLast(step, from, n);
    var at :| IsLast(step, from, at);
    at
  }

  /** A loop along a list ends at the first element it does not go on from. */
  lemma {:induction false} AlongEnds<T(!new)>(step: T -> Option<T>, s: seq<T>, p: nat) returns (q: nat)
    requires p < |s|
    requires forall k: nat :: k < |s| && step(s[k]).Some? ==> k + 1 < |s| && step(s[k]) == Some(s[k + 1])
    ensures p <= q < |s| && step(s[q]).None? && forall k: nat :: p <= k < q ==> step(s[k]).Some?
    ensures IsLast(step, s[p], s[q]) && Stops(step, s[p])
  {
    q := p;
    while step(s[q]).Some?
      invariant p <= q < |s| && Iterate(step, s[p], q - p) == Some(s[q])
      invariant forall k: nat :: p <= k < q ==> step(s[k]).Some?
      decreases |s| - q
    {
      q := q + 1;
    }
    assert Iterate(step, s[p], q - p + 1).None?;
  }
}
