/** The order of strings by their characters, and where the strings of one prefix lie in it. */
module Strings {
  import opened Collections
  import opened Sorting

  predicate Less(a: string, b: string) {
    b != [] && (a == [] || a[0] < b[0] || (a[0] == b[0] && Less(a[1..], b[1..])))
  }

  lemma {:induction false} Trichotomy(a: string, b: string)
    ensures a != b ==> Less(a, b) || Less(b, a)
    ensures !(Less(a, b) && Less(b, a))
    ensures !Less(a, a)
  {
    if a != [] {
      Trichotomy(a[1..], a[1..]);
      if b != [] {
        Trichotomy(a[1..], b[1..]);
        assert a[0] == b[0] && a[1..] == b[1..] ==> a == [a[0]] + a[1..] == [b[0]] + b[1..] == b;
      }
    }
  }

  /** `a` goes on with something less than `b` does where they part, at `i`, or with nothing. */
  predicate LessAt(a: string, b: string, i: nat) {
    i <= |a| && i < |b| && a[..i] == b[..i] && (i == |a| || a[i] < b[i])
  }

  /** It is the order of dictionaries. */
  lemma {:induction false} LessIff(a: string, b: string)
    ensures Less(a, b) <==> exists i: nat :: LessAt(a, b, i)
  {
    if a != [] && b != [] && a[0] == b[0] {
      LessIff(a[1..], b[1..]);
      if i: nat :| LessAt(a[1..], b[1..], i) {
        assert a[..i + 1] == [a[0]] + a[1..][..i] && b[..i + 1] == [b[0]] + b[1..][..i];
        assert LessAt(a, b, i + 1);
      }
      if i: nat :| LessAt(a, b, i) {
        assert i > 0;
        assert a[1..][..i - 1] == a[..i][1..] && b[1..][..i - 1] == b[..i][1..];
        assert LessAt(a[1..], b[1..], i - 1);
      }
    } else {
      if Less(a, b) { assert LessAt(a, b, 0); }
      if i: nat :| LessAt(a, b, i) {
        assert i > 0 ==> a[..i][0] == b[..i][0];
      }
    }
  }

  lemma {:induction false} Transitive(a: string, b: string, c: string)
    requires Less(a, b) && Less(b, c)
    ensures Less(a, c)
  {
    if a != [] && a[0] == b[0] == c[0] { Transitive(a[1..], b[1..], c[1..]); }
  }

  lemma {:induction false} StringOrder()
    ensures Ordering(Less)
  {
    forall a: string, b: string, c: string
      ensures !Less(a, a)
      ensures Less(a, b) && Less(b, c) ==> Less(a, c)
      ensures Less(a, c) ==> Less(a, b) || Less(b, c)
    {
      Trichotomy(a, a);
      Trichotomy(a, b);
      if Less(a, b) && Less(b, c) { Transitive(a, b, c); }
      if Less(a, c) && Less(b, a) { Transitive(b, a, c); }
    }
  }

  /** No string comes before one of its prefixes. */
  lemma {:induction false} PrefixFirst(q: string, t: string)
    requires q <= t
    ensures !Less(t, q)
  {
    if q != [] {
      assert q[0] == t[0] && q[1..] <= t[1..];
      PrefixFirst(q[1..], t[1..]);
    }
  }

  /** Past the strings that begin with `q`, none does. */
  lemma {:induction false} PrefixRun(q: string, t: string, u: string)
    requires !Less(t, q) && Less(t, u) && q <= u
    ensures q <= t
  {
    if q != [] {
      assert q[0] == u[0] && q[1..] <= u[1..];
      PrefixRun(q[1..], t[1..], u[1..]);
      assert t == [t[0]] + t[1..] && q == [q[0]] + q[1..];
    }
  }

  ghost predicate Ascending(s: seq<string>) {
    forall i, j :: 0 <= i < j < |s| ==> Less(s[i], s[j])
  }

  /** Different strings, sorted, ascend. */
  lemma {:induction false} SortedAscends(s: seq<string>)
    requires forall i, j :: 0 <= i < j < |s| ==> s[i] != s[j]
    ensures Ascending(Sort(s, Less)) && multiset(Sort(s, Less)) == multiset(s)
  {
    var r := Sort(s, Less);
    StringOrder();
    SortSorts(s, Less);
    SortPermutes(s, Less);
    forall i, j | 0 <= i < j < |r| ensures Less(r[i], r[j]) {
      if r[i] == r[j] {
        Twice(r, i, j);
        Once(s, r[i]);
        assert false;
      }
      Trichotomy(r[i], r[j]);
    }
  }

  /** What is before `q` has all that is before it there as well, and what is not, all that is behind it. */
  lemma {:induction false} SplitsAt(s: seq<string>, q: string, mid: nat)
    requires Ascending(s) && mid < |s|
    ensures Less(s[mid], q) ==> forall i :: 0 <= i <= mid ==> Less(s[i], q)
    ensures !Less(s[mid], q) ==> forall i :: mid <= i < |s| ==> !Less(s[i], q)
  {
    forall i | 0 <= i < mid && Less(s[mid], q) ensures Less(s[i], q) { Transitive(s[i], s[mid], q); }
    forall i | mid < i < |s| && Less(s[i], q) ensures Less(s[mid], q) { Transitive(s[mid], s[i], q); }
  }

  /** `bisect_left`: the first place not before `q`. */
  method BisectLeft(s: seq<string>, q: string) returns (start: nat)
    requires Ascending(s)
    ensures start <= |s|
    ensures forall i :: 0 <= i < start ==> Less(s[i], q)
    ensures forall i :: start <= i < |s| ==> !Less(s[i], q)
  {
    var low, high := 0, |s|;
    while low < high
      invariant 0 <= low <= high <= |s|
      invariant forall i :: 0 <= i < low ==> Less(s[i], q)
      invariant forall i :: high <= i < |s| ==> !Less(s[i], q)
    {
      var mid := (low + high) / 2;
      SplitsAt(s, q, mid);
      if Less(s[mid], q) { low := mid + 1; } else { high := mid; }
    }
    start := low;
  }
}
