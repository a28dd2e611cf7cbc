/** One edit apart, by a single scan (`_within_one_edit` of media/stremio/local_search.py) and by definition. */
module EditDistance {
  import opened Wrappers

  function Min(a: nat, b: nat): nat { if a <= b then a else b }

  /** The Levenshtein distance: the fewest characters put in, taken out or changed. */
  function Distance(a: string, b: string): nat
    decreases |a| + |b|
  {
    if a == [] then |b|
    else if b == [] then |a|
    else
      Min(Min(Distance(a[1..], b), Distance(a, b[1..])) + 1,
          Distance(a[1..], b[1..]) + if a[0] == b[0] then 0 else 1)
  }

  lemma {:induction false} DistanceOfNone(a: string, b: string)
    ensures Distance(a, b) == 0 <==> a == b
    decreases |a| + |b|
  {
    if a != [] && b != [] {
      DistanceOfNone(a[1..], b[1..]);
      assert a[0] == b[0] && a[1..] == b[1..] ==> a == [a[0]] + a[1..] == [b[0]] + b[1..] == b;
    }
  }

  /** The strings differ at `i` by one character changed, put in or taken out. */
  predicate EditAt(a: string, b: string, i: nat) {
    && i <= |a| && i <= |b| && a[..i] == b[..i]
    && ((i < |a| && i < |b| && a[i + 1..] == b[i + 1..])
        || (i < |a| && a[i + 1..] == b[i..])
        || (i < |b| && a[i..] == b[i + 1..]))
  }

  ghost predicate OneEdit(a: string, b: string) { exists i: nat :: EditAt(a, b, i) }

  lemma {:induction false} EditIsNear(a: string, b: string, i: nat)
    requires EditAt(a, b, i)
    ensures Distance(a, b) <= 1
    decreases |a| + |b|
  {
    if i > 0 {
      assert a[0] == a[..i][0] == b[..i][0] == b[0];
      assert a[1..][..i - 1] == a[..i][1..] == b[..i][1..] == b[1..][..i - 1];
      assert a[1..][i - 1..] == a[i..] && b[1..][i - 1..] == b[i..];
      assert i < |a| ==> a[1..][i..] == a[i + 1..];
      assert i < |b| ==> b[1..][i..] == b[i + 1..];
      EditIsNear(a[1..], b[1..], i - 1);
    } else {
      assert a[0..] == a && b[0..] == b;
      if a != [] { DistanceOfNone(a[1..], b); }
      if b != [] { DistanceOfNone(a, b[1..]); }
      if a != [] && b != [] { DistanceOfNone(a[1..], b[1..]); }
    }
  }

  lemma {:induction false} EditBehind(a: string, b: string)
    requires a != [] && b != [] && a[0] == b[0] && OneEdit(a[1..], b[1..])
    ensures OneEdit(a, b)
  {
    var i: nat :| EditAt(a[1..], b[1..], i);
    assert a[..i + 1] == [a[0]] + a[1..][..i] && b[..i + 1] == [b[0]] + b[1..][..i];
    assert a[1..][i..] == a[i + 1..] && b[1..][i..] == b[i + 1..];
    assert i + 1 < |a| ==> a[1..][i + 1..] == a[i + 2..];
    assert i + 1 < |b| ==> b[1..][i + 1..] == b[i + 2..];
    assert EditAt(a, b, i + 1);
  }

  lemma {:induction false} NearIsEdit(a: string, b: string)
    requires Distance(a, b) == 1
    ensures OneEdit(a, b)
    decreases |a| + |b|
  {
    if a == [] || b == [] {
      assert EditAt(a, b, 0);
    } else if Distance(a[1..], b) == 0 {
      DistanceOfNone(a[1..], b);
      assert EditAt(a, b, 0);
    } else if Distance(a, b[1..]) == 0 {
      DistanceOfNone(a, b[1..]);
      assert EditAt(a, b, 0);
    } else if a[0] == b[0] {
      NearIsEdit(a[1..], b[1..]);
      EditBehind(a, b);
    } else {
      DistanceOfNone(a[1..], b[1..]);
      assert EditAt(a, b, 0);
    }
  }

  /** Different strings are at distance one exactly when one edit leads from one to the other. */
  lemma {:induction false} NearIff(a: string, b: string)
    requires a != b
    ensures Distance(a, b) <= 1 <==> OneEdit(a, b)
  {
    DistanceOfNone(a, b);
    if Distance(a, b) <= 1 { NearIsEdit(a, b); }
    if i: nat :| EditAt(a, b, i) { EditIsNear(a, b, i); }
  }

  lemma {:induction false} EditKeepsLength(a: string, b: string, i: nat)
    requires EditAt(a, b, i)
    ensures -1 <= |a| - |b| <= 1
    ensures |a| == |b| ==> i < |a| && a[i + 1..] == b[i + 1..]
  {
    assert |a[i..]| == |a| - i && |b[i..]| == |b| - i;
    assert i < |a| ==> |a[i + 1..]| == |a| - i - 1;
    assert i < |b| ==> |b[i + 1..]| == |b| - i - 1;
  }

  lemma {:induction false} SameFront(a: string, b: string, k: nat)
    requires k <= |a| && k <= |b| && a[..k] == b[..k]
    ensures forall j :: 0 <= j < k ==> a[j] == b[j]
  {
    forall j | 0 <= j < k ensures a[j] == b[j] { assert a[..k][j] == b[..k][j]; }
  }

  /** Of equal lengths, they are apart by one change exactly when they differ at one place. */
  lemma {:induction false} OneChangeIff(a: string, b: string, i: nat)
    requires |a| == |b| && i < |a| && a[i] != b[i]
    ensures OneEdit(a, b) <==> forall j :: 0 <= j < |a| && a[j] != b[j] ==> j == i
  {
    if forall j :: 0 <= j < |a| && a[j] != b[j] ==> j == i {
      assert EditAt(a, b, i);
    }
    if k: nat :| EditAt(a, b, k) {
      EditKeepsLength(a, b, k);
      forall j | 0 <= j < |a| && j != k ensures a[j] == b[j] {
        if j < k { assert a[..k][j] == b[..k][j]; } else { assert a[k + 1..][j - k - 1] == b[k + 1..][j - k - 1]; }
      }
    }
  }

  /** One longer than the other, they are apart by one character where they first differ, or not at all. */
  lemma {:induction false} OneMoreIff(short: string, long: string, i: nat)
    requires |short| + 1 == |long| && i <= |short| && short[..i] == long[..i]
    requires i < |short| ==> short[i] != long[i]
    ensures OneEdit(short, long) <==> short[i..] == long[i + 1..]
    ensures OneEdit(long, short) <==> short[i..] == long[i + 1..]
  {
    if short[i..] == long[i + 1..] {
      assert EditAt(short, long, i) && EditAt(long, short, i);
    }
    forall k: nat | EditAt(short, long, k) || EditAt(long, short, k) ensures short[i..] == long[i + 1..] {
      assert |short[k..]| == |short| - k && |long[k + 1..]| == |short| - k;
      assert short[..k] == long[..k] && short[k..] == long[k + 1..] by { OneMoreAt(short, long, k); }
      SameFront(short, long, k);
      forall j | i <= j < |short| ensures short[j] == long[j + 1] {
        assert short[k..][j - k] == long[k + 1..][j - k];
      }
    }
  }

  lemma {:induction false} OneMoreAt(short: string, long: string, k: nat)
    requires |short| + 1 == |long| && (EditAt(short, long, k) || EditAt(long, short, k))
    ensures k <= |short| && short[..k] == long[..k] && short[k..] == long[k + 1..]
  {
    assert |short[k..]| == |short| - k && |long[k..]| == |long| - k;
    assert k < |short| ==> |short[k + 1..]| == |short| - k - 1;
    assert k < |long| ==> |long[k + 1..]| == |long| - k - 1;
  }

  /** `_within_one_edit`: the distance when it is at most one. */
  method WithinOneEdit(a: string, b: string) returns (distance: Option<nat>)
    ensures distance == if Distance(a, b) <= 1 then Some(Distance(a, b)) else None
  {
    DistanceOfNone(a, b);
    if a == b { return Some(0); }
    NearIff(a, b);
    if |a| - |b| > 1 || |b| - |a| > 1 {
      forall i: nat | EditAt(a, b, i) ensures false { EditKeepsLength(a, b, i); }
      return None;
    }
    if |a| == |b| {
      var differing := Differing(a, b);
      assert differing[0] in differing;
      OneChangeIff(a, b, differing[0]);
      return if |differing| == 1 then Some(1) else None;
    }
    var short, long := if |a| < |b| then a else b, if |a| < |b| then b else a;
    var i := 0;
    while i < |short| && short[i] == long[i]
      invariant 0 <= i <= |short| && short[..i] == long[..i]
    {
      i := i + 1;
    }
    OneMoreIff(short, long, i);
    distance := if short[i..] == long[i + 1..] then Some(1) else None;
  }

  /** The places where strings of one length differ. */
  method Differing(a: string, b: string) returns (places: seq<nat>)
    requires |a| == |b| && a != b
    ensures |places| > 0 && forall k: nat :: k in places <==> k < |a| && a[k] != b[k]
    ensures |places| == 1 <==> forall k: nat :: k < |a| && a[k] != b[k] ==> k == places[0]
  {
    places := [];
    for i := 0 to |a|
      invariant forall k: nat :: k in places <==> k < i && a[k] != b[k]
      invariant places == [] ==> a[..i] == b[..i]
      invariant forall k :: 0 <= k < |places| ==> places[k] < i
      invariant forall j, k :: 0 <= j < k < |places| ==> places[j] < places[k]
    {
      if a[i] != b[i] { places := places + [i]; }
    }
    assert a[..|a|] == a && b[..|b|] == b;
    if |places| > 1 { assert places[0] in places && places[1] in places; }
  }
}
