/** Sums of reals over finite sets, in whatever order they are taken. */
module Sums {

  ghost function SumOver<T>(s: set<T>, f: T -> real): real {
    if s == {} then 0.0
    else
      var x :| x in s;
      f(x) + SumOver(s - {x}, f)
  }

  /** Any element may be taken out first. */
  lemma {:induction false} SumTakes<T>(s: set<T>, f: T -> real, x: T)
    requires x in s
    ensures SumOver(s, f) == f(x) + SumOver(s - {x}, f)
  {
    var y :| y in s && SumOver(s, f) == f(y) + SumOver(s - {y}, f);
    if y != x {
      SumTakes(s - {y}, f, x);
      SumTakes(s - {x}, f, y);
      assert s - {y} - {x} == s - {x} - {y};
    }
  }

  lemma {:induction false} SumAdds<T>(s: set<T>, f: T -> real, x: T)
    requires x !in s
    ensures SumOver(s + {x}, f) == f(x) + SumOver(s, f)
  {
    SumTakes(s + {x}, f, x);
    assert s + {x} - {x} == s;
  }

  /** What is nothing outside a part of the set sums up over that part. */
  lemma {:induction false} SumWhereItCounts<T>(s: set<T>, part: set<T>, f: T -> real)
    requires part <= s && forall x :: x in s && x !in part ==> f(x) == 0.0
    ensures SumOver(s, f) == SumOver(part, f)
  {
    if s == part {
    } else {
      var x :| x in s && x !in part;
      SumTakes(s, f, x);
      SumWhereItCounts(s - {x}, part, f);
    }
  }

  lemma {:induction false} SumNonNegative<T>(s: set<T>, f: T -> real)
    requires forall x :: x in s ==> f(x) >= 0.0
    ensures SumOver(s, f) >= 0.0
  {
    if s != {} {
      var x :| x in s && SumOver(s, f) == f(x) + SumOver(s - {x}, f);
      SumNonNegative(s - {x}, f);
    }
  }

  lemma {:induction false} SumAtLeast<T>(s: set<T>, f: T -> real, x: T)
    requires x in s && forall y :: y in s ==> f(y) >= 0.0
    ensures SumOver(s, f) >= f(x)
  {
    SumTakes(s, f, x);
    SumNonNegative(s - {x}, f);
  }
}
