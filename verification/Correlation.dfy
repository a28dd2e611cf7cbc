/**
 The displacement between two captures: `column_profile`, `ncc` and `best_shift` of
 scripts/writeback-registration.py, over exact reals.
 */
module Correlation {
  import opened Wrappers
  import opened Bytes

  // ------------------------------------------------------------------- sums

  function Total(xs: seq<real>): real { if xs == [] then 0.0 else Total(xs[..|xs| - 1]) + xs[|xs| - 1] }

  function Mean(xs: seq<real>): real
    requires xs != []
  {
    Total(xs) / |xs| as real
  }

  /** The first `n` of each, multiplied and summed up. */
  function Dot(us: seq<real>, vs: seq<real>, n: nat): real
    requires |us| >= n && |vs| >= n
  {
    if n == 0 then 0.0 else Dot(us, vs, n - 1) + us[n - 1] * vs[n - 1]
  }

  lemma {:induction false} DotCommutes(us: seq<real>, vs: seq<real>, n: nat)
    requires |us| >= n && |vs| >= n
    ensures Dot(us, vs, n) == Dot(vs, us, n)
  {
    if n > 0 { DotCommutes(us, vs, n - 1); }
  }

  function Square(x: real): real { x * x }

  function Times(c: real, x: real): real { c * x }

  lemma {:induction false} TimesIsPositive(x: real, y: real)
    requires x > 0.0 && y > 0.0
    ensures Times(x, y) > 0.0
  {
  }

  lemma {:induction false} SquareIsPositive(x: real)
    ensures Square(x) >= 0.0 && (Square(x) == 0.0 <==> x == 0.0)
    decreases x < 0.0
  {
    if x < 0.0 {
      SquareIsPositive(-x);
      assert Square(-x) == Square(x);
    } else if x > 0.0 {
      TimesIsPositive(x, x);
      assert Square(x) == Times(x, x);
    } else {
      assert Square(0.0) == 0.0;
    }
  }

  function Between(x: real, y: real, u: real, v: real): real { u * x - v * y }

  /** The gaps, squared and summed up, that `p` times one side and `q` times the other leave between them. */
  function Gaps(us: seq<real>, vs: seq<real>, p: real, q: real, n: nat): real
    requires |us| >= n && |vs| >= n
  {
    if n == 0 then 0.0 else Gaps(us, vs, p, q, n - 1) + Square(Between(us[n - 1], vs[n - 1], p, q))
  }

  /** They are nothing exactly when the two sides are in proportion. */
  lemma {:induction false} GapsAreNothingIff(us: seq<real>, vs: seq<real>, p: real, q: real, n: nat)
    requires |us| >= n && |vs| >= n
    ensures Gaps(us, vs, p, q, n) >= 0.0
    ensures Gaps(us, vs, p, q, n) == 0.0 <==> forall i :: 0 <= i < n ==> Between(us[i], vs[i], p, q) == 0.0
  {
    if n > 0 {
      GapsAreNothingIff(us, vs, p, q, n - 1);
      SquareIsPositive(Between(us[n - 1], vs[n - 1], p, q));
    }
  }

  function Gap(a: real, b: real, c: real, u: real, v: real): real { u * u * a - 2.0 * u * v * b + v * v * c }

  lemma {:induction false} GapGrows(a: real, b: real, c: real, u: real, v: real, dx: real, dy: real)
    ensures Gap(a + dx * dx, b + dx * dy, c + dy * dy, u, v) == Gap(a, b, c, u, v) + Square(Between(dx, dy, u, v))
  {
    var between := Between(dx, dy, u, v);
    assert between * between == u * u * (dx * dx) - 2.0 * u * v * (dx * dy) + v * v * (dy * dy);
  }

  lemma {:induction false} GapsMultipliedOut(us: seq<real>, vs: seq<real>, p: real, q: real, n: nat)
    requires |us| >= n && |vs| >= n
    ensures Gaps(us, vs, p, q, n) == Gap(Dot(us, us, n), Dot(us, vs, n), Dot(vs, vs, n), p, q)
  {
    if n > 0 {
      GapsMultipliedOut(us, vs, p, q, n - 1);
      GapGrows(Dot(us, us, n - 1), Dot(us, vs, n - 1), Dot(vs, vs, n - 1), p, q, us[n - 1], vs[n - 1]);
    }
  }

  /** Both at once. */
  lemma {:induction false} GapIsNothingIff(us: seq<real>, vs: seq<real>, p: real, q: real, n: nat)
    requires |us| >= n && |vs| >= n
    ensures var gap := Gap(Dot(us, us, n), Dot(us, vs, n), Dot(vs, vs, n), p, q);
      gap >= 0.0 && (gap == 0.0 <==> forall i :: 0 <= i < n ==> Between(us[i], vs[i], p, q) == 0.0)
  {
    GapsAreNothingIff(us, vs, p, q, n);
    GapsMultipliedOut(us, vs, p, q, n);
  }

  lemma {:induction false} GapIsNotNegative(us: seq<real>, vs: seq<real>, p: real, q: real, n: nat)
    requires |us| >= n && |vs| >= n
    ensures Gap(Dot(us, us, n), Dot(us, vs, n), Dot(vs, vs, n), p, q) >= 0.0
  {
    GapIsNothingIff(us, vs, p, q, n);
  }

  lemma {:induction false} FactorIsPositive(x: real, y: real)
    requires x > 0.0 && x * y >= 0.0
    ensures y >= 0.0
  {
  }

  lemma {:induction false} CauchyArithmetic(a: real, b: real, c: real)
    requires a >= 0.0 && c >= 0.0
    requires Gap(a, b, c, c, b) >= 0.0 && Gap(a, b, c, 1.0, 1.0) >= 0.0 && Gap(a, b, c, 1.0, -1.0) >= 0.0
    requires Gap(a, b, c, b, a) >= 0.0
    ensures b * b <= a * c
  {
    var short := a * c - b * b;
    assert Gap(a, b, c, c, b) == c * short && Gap(a, b, c, b, a) == a * short;
    if c > 0.0 {
      FactorIsPositive(c, short);
    } else if a > 0.0 {
      FactorIsPositive(a, short);
    } else {
      assert Gap(a, b, c, 1.0, 1.0) == -2.0 * b && Gap(a, b, c, 1.0, -1.0) == 2.0 * b;
      assert b == 0.0;
    }
  }

  /** The Cauchy-Schwarz inequality. */
  lemma {:induction false} CauchySchwarz(us: seq<real>, vs: seq<real>, n: nat)
    requires |us| >= n && |vs| >= n
    ensures Dot(us, vs, n) * Dot(us, vs, n) <= Dot(us, us, n) * Dot(vs, vs, n)
  {
    var a, b, c := Dot(us, us, n), Dot(us, vs, n), Dot(vs, vs, n);
    GapIsNotNegative(us, vs, 1.0, 0.0, n);
    GapIsNotNegative(us, vs, 0.0, 1.0, n);
    GapIsNotNegative(us, vs, c, b, n);
    GapIsNotNegative(us, vs, b, a, n);
    GapIsNotNegative(us, vs, 1.0, 1.0, n);
    GapIsNotNegative(us, vs, 1.0, -1.0, n);
    assert Gap(a, b, c, 1.0, 0.0) == a && Gap(a, b, c, 0.0, 1.0) == c;
    CauchyArithmetic(a, b, c);
  }

  predicate InProportion(us: seq<real>, vs: seq<real>, c: real, n: nat) {
    |us| >= n && |vs| >= n && forall i :: 0 <= i < n ==> us[i] == Times(c, vs[i])
  }

  lemma {:induction false} TimesProduct(c: real, b: real, x: real, y: real)
    ensures Times(c, b) + Times(c, x) * y == Times(c, b + x * y)
  {
  }

  lemma {:induction false} ProportionTakenOut(us: seq<real>, vs: seq<real>, ws: seq<real>, c: real, n: nat)
    requires InProportion(us, vs, c, n) && |ws| >= n
    ensures Dot(us, ws, n) == Times(c, Dot(vs, ws, n))
  {
    if n > 0 {
      ProportionTakenOut(us, vs, ws, c, n - 1);
      TimesProduct(c, Dot(vs, ws, n - 1), vs[n - 1], ws[n - 1]);
    }
  }

  // ------------------------------------------------------- profiles about their means

  /** How far each is from the mean. */
  function Centred(xs: seq<real>): seq<real>
    requires xs != []
  {
    var mean := Mean(xs);
    seq(|xs|, i requires 0 <= i < |xs| => xs[i] - mean)
  }

  function Shared(xs: seq<real>, ys: seq<real>): real
    requires |xs| == |ys| > 0
  {
    Dot(Centred(xs), Centred(ys), |xs|)
  }

  function Spread(xs: seq<real>): real
    requires xs != []
  {
    Shared(xs, xs)
  }

  predicate Varies(xs: seq<real>) { exists i, j :: 0 <= i < j < |xs| && xs[i] != xs[j] }

  function InUnits(y: real, c: real, d: real): real { c * y + d }

  /** `xs` is `ys` in other units: stretched by `c` and moved by `d`. */
  predicate Rescaled(xs: seq<real>, ys: seq<real>, c: real, d: real) {
    |xs| == |ys| && forall i :: 0 <= i < |xs| ==> xs[i] == InUnits(ys[i], c, d)
  }

  lemma {:induction false} RescaledSum(t: real, y: real, m: real, c: real, d: real)
    ensures InUnits(t, c, m * d) + InUnits(y, c, d) == InUnits(t + y, c, (m + 1.0) * d)
  {
  }

  lemma {:induction false} RescaledTotal(xs: seq<real>, ys: seq<real>, c: real, d: real)
    requires Rescaled(xs, ys, c, d)
    ensures Total(xs) == InUnits(Total(ys), c, |xs| as real * d)
  {
    if xs == [] {
      assert Total(ys) == 0.0;
    } else {
      var n := |xs| - 1;
      RescaledTotal(xs[..n], ys[..n], c, d);
      RescaledSum(Total(ys[..n]), ys[n], n as real, c, d);
      assert |xs| as real == n as real + 1.0;
    }
  }

  lemma {:induction false} RescaledRatio(t: real, m: real, c: real, d: real)
    requires m > 0.0
    ensures InUnits(t, c, m * d) / m == InUnits(t / m, c, d)
  {
    var mean := t / m;
    assert t == m * mean;
    assert InUnits(t, c, m * d) == m * InUnits(mean, c, d);
  }

  lemma {:induction false} RescaledMean(xs: seq<real>, ys: seq<real>, c: real, d: real)
    requires Rescaled(xs, ys, c, d) && xs != []
    ensures Mean(xs) == InUnits(Mean(ys), c, d)
  {
    RescaledTotal(xs, ys, c, d);
    RescaledRatio(Total(ys), |xs| as real, c, d);
  }

  lemma {:induction false} RescaledIsInProportion(xs: seq<real>, ys: seq<real>, c: real, d: real)
    requires Rescaled(xs, ys, c, d) && xs != []
    ensures InProportion(Centred(xs), Centred(ys), c, |xs|)
  {
    RescaledMean(xs, ys, c, d);
    forall i | 0 <= i < |xs| ensures Centred(xs)[i] == Times(c, Centred(ys)[i]) {
      UnitsApart(ys[i], Mean(ys), c, d);
    }
  }

  lemma {:induction false} UnitsApart(y: real, mean: real, c: real, d: real)
    ensures InUnits(y, c, d) - InUnits(mean, c, d) == Times(c, y - mean)
  {
  }

  /** Profiles in proportion share all their spread. */
  lemma {:induction false} RescaledShares(xs: seq<real>, ys: seq<real>, c: real, d: real)
    requires Rescaled(xs, ys, c, d) && xs != []
    ensures Shared(xs, ys) == Times(c, Spread(ys)) && Spread(xs) == Times(c, Shared(xs, ys))
  {
    var n := |xs|;
    RescaledIsInProportion(xs, ys, c, d);
    ProportionTakenOut(Centred(xs), Centred(ys), Centred(ys), c, n);
    ProportionTakenOut(Centred(xs), Centred(ys), Centred(xs), c, n);
    DotCommutes(Centred(xs), Centred(ys), n);
  }

  /** The spread is nothing exactly when all are the same. */
  lemma {:induction false} SpreadIff(xs: seq<real>)
    requires xs != []
    ensures Spread(xs) >= 0.0 && (Spread(xs) > 0.0 <==> Varies(xs))
  {
    var us := Centred(xs);
    GapIsNothingIff(us, us, 1.0, 0.0, |xs|);
    assert Gap(Spread(xs), Spread(xs), Spread(xs), 1.0, 0.0) == Spread(xs);
    assert forall i :: 0 <= i < |xs| ==> Between(us[i], us[i], 1.0, 0.0) == us[i] == xs[i] - Mean(xs);
    if !Varies(xs) {
      assert forall i :: 0 <= i < |xs| ==> xs[i] == xs[0] == InUnits(xs[i], 0.0, xs[0]);
      RescaledMean(xs, xs, 0.0, xs[0]);
    }
  }

  // ------------------------------------------------------- the correlation

  function From(shift: int): nat { if shift > 0 then shift else 0 }

  function To(n: nat, shift: int): int { if shift < 0 then n + shift else n }

  /** How many columns the two profiles share when `b` is displaced by `shift`. */
  function Overlap(n: nat, shift: int): int { To(n, shift) - From(shift) }

  function Left(a: seq<real>, shift: int): seq<real>
    requires 0 <= Overlap(|a|, shift)
  {
    a[From(shift)..To(|a|, shift)]
  }

  function Right(b: seq<real>, shift: int): seq<real>
    requires 0 <= Overlap(|b|, shift)
  {
    b[From(shift) - shift..To(|b|, shift) - shift]
  }

  ghost predicate IsRoot(root: real -> real) {
    forall x :: x >= 0.0 ==> root(x) >= 0.0 && root(x) * root(x) == x
  }

  lemma {:induction false} RootIsPositive(root: real -> real, x: real)
    requires IsRoot(root) && x > 0.0
    ensures root(x) > 0.0
  {
    assert root(x) * root(x) == x;
  }

  /** `num` over the root of the two spreads' product, or 0 when a side is flat. */
  function Normalised(num: real, sxx: real, syy: real, root: real -> real): real
    requires IsRoot(root)
  {
    if sxx <= 0.0 || syy <= 0.0 then 0.0
    else
      TimesIsPositive(sxx, syy);
      RootIsPositive(root, Times(sxx, syy));
      num / root(Times(sxx, syy))
  }

  function Likeness(xs: seq<real>, ys: seq<real>, root: real -> real): real
    requires |xs| == |ys| > 0 && IsRoot(root)
  {
    Normalised(Shared(xs, ys), Spread(xs), Spread(ys), root)
  }

  /** What `ncc` computes, or None where it divides by the length of an empty overlap. */
  function Score(a: seq<real>, b: seq<real>, shift: int, root: real -> real): Option<real>
    requires |a| == |b| && IsRoot(root)
  {
    if Overlap(|a|, shift) < |a| / 4 then Some(0.0)
    else if Overlap(|a|, shift) == 0 then None
    else Some(Likeness(Left(a, shift), Right(b, shift), root))
  }

  /** `ncc` once it has the overlap. */
  method Correlate(xs: seq<real>, ys: seq<real>, root: real -> real) returns (likeness: real)
    requires |xs| == |ys| > 0 && IsRoot(root)
    ensures likeness == Likeness(xs, ys, root)
  {
    var us, vs := Centred(xs), Centred(ys);
    var num, sxx, syy := 0.0, 0.0, 0.0;
    for i := 0 to |xs|
      invariant num == Dot(us, vs, i) && sxx == Dot(us, us, i) && syy == Dot(vs, vs, i)
    {
      var dx, dy := us[i], vs[i];
      num := num + dx * dy;
      sxx := sxx + dx * dx;
      syy := syy + dy * dy;
    }
    likeness := Normalised(num, sxx, syy, root);
  }

  method Ncc(a: seq<real>, b: seq<real>, shift: int, root: real -> real) returns (score: Option<real>)
    requires |a| == |b| && IsRoot(root)
    ensures score == Score(a, b, shift, root)
  {
    var lo: int := From(shift);
    var hi := To(|a|, shift);
    if hi - lo < |a| / 4 { return Some(0.0); }
    var xs, ys := Left(a, shift), Right(b, shift);
    if |xs| == 0 { return None; }
    var likeness := Correlate(xs, ys, root);
    score := Some(likeness);
  }

  lemma {:induction false} Ratio(num: real, product: real, root: real)
    requires root > 0.0 && root * root == product && num * num <= product
    ensures -1.0 <= num / root <= 1.0
    ensures num / root == 1.0 <==> num > 0.0 && num * num == product
  {
    var ratio := num / root;
    assert num == ratio * root;
    if ratio > 1.0 { Larger(num, root); }
    if ratio < -1.0 { Larger(-num, root); }
    if num > 0.0 && num * num == product {
      if num > root { Larger(num, root); }
      if num < root { Larger(root, num); }
    }
  }

  lemma {:induction false} Larger(x: real, y: real)
    requires x > y > 0.0
    ensures x * x > y * y
  {
  }

  lemma {:induction false} NormalisedIsBounded(num: real, sxx: real, syy: real, root: real -> real)
    requires IsRoot(root) && num * num <= sxx * syy
    ensures -1.0 <= Normalised(num, sxx, syy, root) <= 1.0
    ensures Normalised(num, sxx, syy, root) == 1.0 <==> sxx > 0.0 && syy > 0.0 && num > 0.0 && num * num == sxx * syy
  {
    if sxx > 0.0 && syy > 0.0 {
      TimesIsPositive(sxx, syy);
      RootIsPositive(root, Times(sxx, syy));
      Ratio(num, Times(sxx, syy), root(Times(sxx, syy)));
    }
  }

  lemma {:induction false} LikenessIsBounded(xs: seq<real>, ys: seq<real>, root: real -> real)
    requires |xs| == |ys| > 0 && IsRoot(root)
    ensures -1.0 <= Likeness(xs, ys, root) <= 1.0
    ensures Likeness(xs, ys, root) == 1.0
      <==> Spread(xs) > 0.0 && Spread(ys) > 0.0 && Shared(xs, ys) > 0.0
           && Shared(xs, ys) * Shared(xs, ys) == Spread(xs) * Spread(ys)
  {
    CauchySchwarz(Centred(xs), Centred(ys), |xs|);
    NormalisedIsBounded(Shared(xs, ys), Spread(xs), Spread(ys), root);
  }

  lemma {:induction false} SharesInProportion(us: seq<real>, vs: seq<real>, n: nat)
    requires |us| >= n && |vs| >= n && Dot(vs, vs, n) > 0.0
    requires Dot(us, vs, n) * Dot(us, vs, n) == Dot(us, us, n) * Dot(vs, vs, n)
    ensures InProportion(us, vs, Dot(us, vs, n) / Dot(vs, vs, n), n)
  {
    var a, b, c := Dot(us, us, n), Dot(us, vs, n), Dot(vs, vs, n);
    GapIsNothingIff(us, vs, c, b, n);
    assert Gap(a, b, c, c, b) == c * (a * c - b * b);
    forall i | 0 <= i < n ensures us[i] == Times(b / c, vs[i]) { Slope(us[i], vs[i], c, b); }
  }

  lemma {:induction false} InProportionIsRescaled(xs: seq<real>, ys: seq<real>, c: real)
    requires |xs| == |ys| > 0 && InProportion(Centred(xs), Centred(ys), c, |xs|)
    ensures Rescaled(xs, ys, c, Mean(xs) - Times(c, Mean(ys)))
  {
    var d := Mean(xs) - Times(c, Mean(ys));
    forall i | 0 <= i < |xs| ensures xs[i] == InUnits(ys[i], c, d) {
      assert Centred(xs)[i] == Times(c, Centred(ys)[i]);
      UnitsApart(ys[i], Mean(ys), c, d);
    }
  }

  /** Sides that share all their spread are each other in other units. */
  lemma {:induction false} SharesRescaled(xs: seq<real>, ys: seq<real>) returns (c: real, d: real)
    requires |xs| == |ys| > 0 && Shared(xs, ys) > 0.0 && Spread(ys) > 0.0
    requires Shared(xs, ys) * Shared(xs, ys) == Spread(xs) * Spread(ys)
    ensures c > 0.0 && Rescaled(xs, ys, c, d)
  {
    SharesInProportion(Centred(xs), Centred(ys), |xs|);
    c := Shared(xs, ys) / Spread(ys);
    d := Mean(xs) - Times(c, Mean(ys));
    InProportionIsRescaled(xs, ys, c);
  }

  lemma {:induction false} Slope(x: real, y: real, u: real, v: real)
    requires u > 0.0 && Between(x, y, u, v) == 0.0
    ensures x == Times(v / u, y)
  {
    assert u * x == u * (v / u * y);
  }

  /**
   A likeness is 1 exactly when one side is the other in other units, brighter or with more contrast, and
   not the same all over.
   */
  lemma {:induction false} LikenessIsOneIff(xs: seq<real>, ys: seq<real>, root: real -> real)
    requires |xs| == |ys| > 0 && IsRoot(root)
    ensures Likeness(xs, ys, root) == 1.0 <==> Varies(xs) && exists c, d :: c > 0.0 && Rescaled(xs, ys, c, d)
  {
    LikenessIsBounded(xs, ys, root);
    SpreadIff(xs);
    SpreadIff(ys);
    if Likeness(xs, ys, root) == 1.0 {
      var c, d := SharesRescaled(xs, ys);
    }
    if c, d :| Varies(xs) && c > 0.0 && Rescaled(xs, ys, c, d) {
      RescaledShares(xs, ys, c, d);
      SpreadsOfRescaled(Shared(xs, ys), Spread(xs), Spread(ys), c);
    }
  }

  lemma {:induction false} SpreadsOfRescaled(num: real, sxx: real, syy: real, c: real)
    requires c > 0.0 && sxx > 0.0 && syy >= 0.0 && num == Times(c, syy) && sxx == Times(c, num)
    ensures num > 0.0 && syy > 0.0 && num * num == sxx * syy
  {
    if syy > 0.0 { TimesIsPositive(c, syy); }
    assert sxx * syy == num * (c * syy);
  }

  // ------------------------------------------------- the likeness, without the means

  /** So many times what they share, of sums taken over the values themselves. */
  function SharedTimes(xs: seq<real>, ys: seq<real>): real
    requires |xs| == |ys|
  {
    |xs| as real * Dot(xs, ys, |xs|) - Total(xs) * Total(ys)
  }

  lemma {:induction false} Product(x: real, y: real, mx: real, my: real, u: real, v: real)
    requires u == x - mx && v == y - my
    ensures Times(u, v) == Times(x, y) - Times(mx, y) - Times(my, x) + Times(mx, my)
  {
  }

  lemma {:induction false} DotStep(us: seq<real>, vs: seq<real>, n: nat)
    requires 0 < n <= |us| && n <= |vs|
    ensures Dot(us, vs, n) == Dot(us, vs, n - 1) + Times(us[n - 1], vs[n - 1])
  {
  }

  lemma {:induction false} TotalStep(xs: seq<real>, n: nat)
    requires 0 < n <= |xs|
    ensures Total(xs[..n]) == Total(xs[..n - 1]) + xs[n - 1]
  {
    assert xs[..n][..n - 1] == xs[..n - 1];
  }

  lemma {:induction false} CentredDot(xs: seq<real>, ys: seq<real>, mx: real, my: real, us: seq<real>, vs: seq<real>, n: nat)
    requires n <= |xs| && n <= |ys| && n <= |us| && n <= |vs|
    requires forall i :: 0 <= i < n ==> us[i] == xs[i] - mx && vs[i] == ys[i] - my
    ensures Dot(us, vs, n)
         == Dot(xs, ys, n) - Times(mx, Total(ys[..n])) - Times(my, Total(xs[..n])) + Times(n as real, Times(mx, my))
  {
    if n == 0 {
      assert xs[..0] == [] && ys[..0] == [];
    } else {
      hide Times, Dot, Total;
      CentredDot(xs, ys, mx, my, us, vs, n - 1);
      Product(xs[n - 1], ys[n - 1], mx, my, us[n - 1], vs[n - 1]);
      DotStep(us, vs, n);
      DotStep(xs, ys, n);
      TotalStep(xs, n);
      TotalStep(ys, n);
      TimesAdds(mx, Total(ys[..n - 1]), ys[n - 1]);
      TimesAdds(my, Total(xs[..n - 1]), xs[n - 1]);
      OnceMore((n - 1) as real, Times(mx, my));
      assert (n - 1) as real + 1.0 == n as real;
    }
  }

  lemma {:induction false} TimesAdds(m: real, t: real, x: real)
    ensures Times(m, t + x) == Times(m, t) + Times(m, x)
  {
  }

  lemma {:induction false} OnceMore(n: real, x: real)
    ensures Times(n + 1.0, x) == Times(n, x) + x
  {
  }

  lemma {:induction false} SharedIs(xs: seq<real>, ys: seq<real>)
    requires |xs| == |ys| > 0
    ensures Times(|xs| as real, Shared(xs, ys)) == SharedTimes(xs, ys)
  {
    hide Times, Dot, Total;
    var n, mx, my := |xs|, Mean(xs), Mean(ys);
    assert xs[..n] == xs && ys[..n] == ys;
    CentredDot(xs, ys, mx, my, Centred(xs), Centred(ys), n);
    MeansTakenOut(n as real, mx, my, Dot(xs, ys, n), Total(xs), Total(ys));
  }

  lemma {:induction false} MeansTakenOut(n: real, mx: real, my: real, dot: real, tx: real, ty: real)
    requires n > 0.0 && mx == tx / n && my == ty / n
    ensures Times(n, dot - Times(mx, ty) - Times(my, tx) + Times(n, Times(mx, my))) == n * dot - tx * ty
  {
    assert tx == n * mx && ty == n * my;
    var whole := n * n * mx * my;
    assert tx * ty == whole && n * (mx * ty) == whole && n * (my * tx) == whole && n * (n * (mx * my)) == whole;
    Distribute(n, dot, mx * ty, my * tx, n * (mx * my));
  }

  lemma {:induction false} Distribute(n: real, a: real, b: real, c: real, d: real)
    ensures n * (a - b - c + d) == n * a - n * b - n * c + n * d
  {
  }

  /** `like` is of the sign of `shared`, and its square is the part the square of that is of `a` times `b`. */
  predicate IsPartOf(like: real, shared: real, a: real, b: real) {
    && a > 0.0 && b > 0.0 && (like > 0.0 <==> shared > 0.0) && (like < 0.0 <==> shared < 0.0)
    && like * like * (a * b) == shared * shared
  }

  /**
   What the likeness is, in sums over the values as they are: none where a side is the same all over, and
   otherwise of the sign of what they share, and squared that share of what each shares with itself.
   */
  lemma {:induction false} LikenessInSums(xs: seq<real>, ys: seq<real>, root: real -> real)
    requires |xs| == |ys| > 0 && IsRoot(root)
    ensures var like, shared := Likeness(xs, ys, root), SharedTimes(xs, ys);
      if !Varies(xs) || !Varies(ys) then like == 0.0 else IsPartOf(like, shared, SharedTimes(xs, xs), SharedTimes(ys, ys))
  {
    SpreadIff(xs);
    SpreadIff(ys);
    if Varies(xs) && Varies(ys) {
      SharedIs(xs, ys);
      SharedIs(xs, xs);
      SharedIs(ys, ys);
      hide Times, SharedTimes, IsPartOf;
      NormalisedInTimes(|xs| as real, Shared(xs, ys), Spread(xs), Spread(ys), root,
                        SharedTimes(xs, ys), SharedTimes(xs, xs), SharedTimes(ys, ys));
    }
  }

  lemma {:induction false} NormalisedInTimes(n: real, num: real, sxx: real, syy: real, root: real -> real,
                                             shared: real, a: real, b: real)
    requires IsRoot(root) && n > 0.0 && sxx > 0.0 && syy > 0.0
    requires shared == Times(n, num) && a == Times(n, sxx) && b == Times(n, syy)
    ensures IsPartOf(Normalised(num, sxx, syy, root), shared, a, b)
  {
    TimesIsPositive(sxx, syy);
    TimesIsPositive(n, sxx);
    TimesIsPositive(n, syy);
    RootIsPositive(root, Times(sxx, syy));
    var r := root(Times(sxx, syy));
    var like := num / r;
    assert num == like * r;
    Signs(like, r, num, n);
    Squares(like, r, n, sxx, syy);
  }

  lemma {:induction false} Signs(like: real, r: real, num: real, n: real)
    requires r > 0.0 && n > 0.0 && num == like * r
    ensures (like > 0.0 <==> Times(n, num) > 0.0) && (like < 0.0 <==> Times(n, num) < 0.0)
  {
    if like > 0.0 { TimesIsPositive(like, r); TimesIsPositive(n, num); }
    else if like < 0.0 {
      TimesIsPositive(-like, r);
      assert -num == Times(-like, r);
      TimesIsPositive(n, -num);
      assert Times(n, -num) == -Times(n, num);
    } else {
      assert num == 0.0;
    }
  }

  lemma {:induction false} Squares(like: real, r: real, n: real, sxx: real, syy: real)
    requires r * r == sxx * syy
    ensures like * like * ((n * sxx) * (n * syy)) == (n * (like * r)) * (n * (like * r))
  {
    assert (n * sxx) * (n * syy) == n * n * (sxx * syy);
    assert (n * (like * r)) * (n * (like * r)) == n * n * (like * like) * (r * r);
  }

  // ------------------------------------------------------- the overlap

  /**
   Of two profiles the score of a shift is over the columns both have there, each of the one beside the one
   so far along in the other.
   */
  lemma {:induction false} OverlapIs(a: seq<real>, b: seq<real>, shift: int, k: int)
    requires |a| == |b| && Overlap(|a|, shift) >= 0
    ensures |Left(a, shift)| == |Right(b, shift)| == Overlap(|a|, shift)
    ensures 0 <= k < |a| && 0 <= k - shift < |b| <==> 0 <= k - From(shift) < Overlap(|a|, shift)
    ensures 0 <= k < |a| && 0 <= k - shift < |b| ==>
      Left(a, shift)[k - From(shift)] == a[k] && Right(b, shift)[k - From(shift)] == b[k - shift]
  {
  }

  /** No score is beyond 1 either way, and only a short profile pushed wholly aside has none. */
  lemma {:induction false} ScoreIsBounded(a: seq<real>, b: seq<real>, shift: int, root: real -> real)
    requires |a| == |b| && IsRoot(root)
    ensures Score(a, b, shift, root).Some? ==> -1.0 <= Score(a, b, shift, root).value <= 1.0
    ensures Score(a, b, shift, root) == None <==> |a| < 4 && (shift == |a| || shift == -|a|)
    ensures Overlap(|a|, shift) < |a| / 4 ==> Score(a, b, shift, root) == Some(0.0)
  {
    if Overlap(|a|, shift) >= |a| / 4 && Overlap(|a|, shift) > 0 {
      LikenessIsBounded(Left(a, shift), Right(b, shift), root);
    }
  }

  /** Where they overlap, which is for long enough, one profile is the other in other units. */
  ghost predicate Matches(a: seq<real>, b: seq<real>, shift: int)
    requires |a| == |b|
  {
    && Overlap(|a|, shift) >= |a| / 4 && Varies(Left(a, shift))
    && exists c, d :: c > 0.0 && Rescaled(Left(a, shift), Right(b, shift), c, d)
  }

  lemma {:induction false} ScoreIsOneIff(a: seq<real>, b: seq<real>, shift: int, root: real -> real)
    requires |a| == |b| && IsRoot(root)
    ensures Score(a, b, shift, root) == Some(1.0) <==> Matches(a, b, shift)
  {
    if Overlap(|a|, shift) >= |a| / 4 && Overlap(|a|, shift) > 0 {
      LikenessIsOneIff(Left(a, shift), Right(b, shift), root);
    }
  }

  /** `b` is `a` displaced by `shift`. */
  predicate Displaced(a: seq<real>, b: seq<real>, shift: int) {
    |a| == |b| && forall k :: 0 <= k < |a| && 0 <= k - shift < |b| ==> a[k] == b[k - shift]
  }

  lemma {:induction false} SameIsRescaled(xs: seq<real>)
    ensures Rescaled(xs, xs, 1.0, 0.0)
  {
  }

  lemma {:induction false} DisplacedAt(a: seq<real>, b: seq<real>, shift: int, i: nat)
    requires Displaced(a, b, shift) && i < Overlap(|a|, shift)
    ensures |Left(a, shift)| == |Right(b, shift)| == Overlap(|a|, shift) && Left(a, shift)[i] == Right(b, shift)[i]
  {
    OverlapIs(a, b, shift, From(shift) + i);
  }

  lemma {:induction false} DisplacedSides(a: seq<real>, b: seq<real>, shift: int)
    requires Displaced(a, b, shift) && Overlap(|a|, shift) >= 0
    ensures Left(a, shift) == Right(b, shift)
  {
    OverlapIs(a, b, shift, 0);
    hide *;
    var xs, ys := Left(a, shift), Right(b, shift);
    forall i: nat | i < |xs| ensures xs[i] == ys[i] { DisplacedAt(a, b, shift, i); }
  }

  lemma {:induction false} DisplacedMatches(a: seq<real>, b: seq<real>, shift: int)
    requires Displaced(a, b, shift) && Overlap(|a|, shift) >= |a| / 4 && Varies(Left(a, shift))
    ensures Matches(a, b, shift)
  {
    DisplacedSides(a, b, shift);
    SameIsRescaled(Left(a, shift));
  }

  // ------------------------------------------------------- the best shift

  /** The scores of the shifts from `from` up to but not at `until`, None if one of them has none. */
  function Scores(score: int -> Option<real>, from: int, until: int): (r: Option<seq<real>>)
    requires from <= until
    ensures r == None <==> exists s: int :: from <= s < until && score(s) == None
    ensures r.Some? ==> |r.value| == until - from
    ensures r.Some? ==> forall s: int :: from <= s < until ==> score(s) == Some(r.value[s - from])
    decreases until - from
  {
    if from == until then Some([])
    else
      match (Scores(score, from, until - 1), score(until - 1))
      case (Some(before), Some(last)) => Some(before + [last])
      case (_, _) => None
  }

  /** The first of the greatest. */
  function FirstGreatest(scores: seq<real>): (best: nat)
    requires scores != []
    ensures best < |scores|
    ensures forall i :: 0 <= i < |scores| ==> scores[i] <= scores[best] && (i < best ==> scores[i] < scores[best])
  {
    var n := |scores| - 1;
    if n == 0 then 0
    else
      var best := FirstGreatest(scores[..n]);
      if scores[n] > scores[best] then n else best
  }

  /** Outside the peak: more than one away from it. */
  predicate Apart(i: int, best: int) { i - best > 1 || best - i > 1 }

  /** The greatest outside the peak, or 0 when all is peak. */
  function RunnerUp(scores: seq<real>, best: int): (next: real)
    ensures forall i :: 0 <= i < |scores| && Apart(i, best) ==> scores[i] <= next
    ensures (exists i :: 0 <= i < |scores| && Apart(i, best) && scores[i] == next)
      || (next == 0.0 && forall i :: 0 <= i < |scores| ==> !Apart(i, best))
  {
    if scores == [] then 0.0
    else
      var n := |scores| - 1;
      var next := RunnerUp(scores[..n], best);
      var lone := forall i :: 0 <= i < n ==> !Apart(i, best);
      assert forall i :: 0 <= i < n ==> scores[..n][i] == scores[i];
      if Apart(n, best) && (lone || scores[n] > next) then scores[n] else next
  }

  datatype Registration = Registration(shift: int, score: real, next: real)

  predicate Within(s: int, limit: int) { -limit <= s <= limit }

  /** No shift scores above the best one, nor one before it as much, nor one outside the peak above the runner-up. */
  ghost predicate IsBest(score: int -> Option<real>, limit: int, best: Registration) {
    && Within(best.shift, limit) && score(best.shift) == Some(best.score)
    && (forall s :: Within(s, limit) ==>
          && score(s).Some? && score(s).value <= best.score
          && (s < best.shift ==> score(s).value < best.score)
          && (Apart(s, best.shift) ==> score(s).value <= best.next))
  }

  /** The runner-up is the score of a shift outside the peak, or 0 when every shift is in it. */
  ghost predicate NextIsThere(score: int -> Option<real>, limit: int, best: Registration) {
    || (exists s :: Within(s, limit) && Apart(s, best.shift) && score(s) == Some(best.next))
    || (best.next == 0.0 && forall s :: Within(s, limit) ==> !Apart(s, best.shift))
  }

  /** `best_shift` over any scores, or None where it has none to take the greatest of, or one is missing. */
  function BestOf(score: int -> Option<real>, limit: int): (r: Option<Registration>)
    ensures r == None <==> limit < 0 || exists s :: Within(s, limit) && score(s) == None
    ensures r.Some? ==> IsBest(score, limit, r.value) && NextIsThere(score, limit, r.value)
  {
    if limit < 0 then None
    else
      match Scores(score, -limit, limit + 1)
      case None => None
      case Some(all) =>
        var best := FirstGreatest(all);
        var found := Registration(best - limit, all[best], RunnerUp(all, best));
        assert forall s :: Within(s, limit) ==> score(s) == Some(all[s + limit]);
        assert NextIsThere(score, limit, found) by { NextIsFound(score, limit, all, found); }
        Some(found)
  }

  lemma {:induction false} NextIsFound(score: int -> Option<real>, limit: nat, scores: seq<real>, found: Registration)
    requires |scores| == 2 * limit + 1
    requires forall s :: Within(s, limit) ==> score(s) == Some(scores[s + limit])
    requires found.next == RunnerUp(scores, found.shift + limit)
    ensures NextIsThere(score, limit, found)
  {
    var best := found.shift + limit;
    if i :| 0 <= i < |scores| && Apart(i, best) && scores[i] == found.next {
      assert Within(i - limit, limit) && Apart(i - limit, found.shift);
    } else {
      forall s | Within(s, limit) ensures !Apart(s, found.shift) {
        assert !Apart(s + limit, best);
      }
    }
  }

  function ScoreOf(a: seq<real>, b: seq<real>, root: real -> real): int -> Option<real>
    requires |a| == |b| && IsRoot(root)
  {
    (s: int) => Score(a, b, s, root)
  }

  /** `best_shift`. */
  function BestShift(a: seq<real>, b: seq<real>, limit: int, root: real -> real): (r: Option<Registration>)
    requires |a| == |b| && IsRoot(root)
    ensures r == None <==> limit < 0 || (|a| < 4 && |a| <= limit)
    ensures r.Some? ==> IsBest(ScoreOf(a, b, root), limit, r.value) && NextIsThere(ScoreOf(a, b, root), limit, r.value)
  {
    ScoresAreMissingIff(a, b, limit, root);
    BestOf(ScoreOf(a, b, root), limit)
  }

  lemma {:induction false} ScoresAreMissingIff(a: seq<real>, b: seq<real>, limit: int, root: real -> real)
    requires |a| == |b| && IsRoot(root)
    ensures (exists s: int :: Within(s, limit) && ScoreOf(a, b, root)(s) == None) <==> |a| < 4 && |a| <= limit
  {
    forall s: int
      ensures ScoreOf(a, b, root)(s) == None <==> |a| < 4 && (s == |a| || s == -|a|)
    {
      ScoreIsBounded(a, b, s, root);
    }
    assert |a| < 4 && |a| <= limit ==> Within(|a|, limit) && ScoreOf(a, b, root)(|a|) == None;
  }

  lemma {:induction false} ScoresAreOneIff(a: seq<real>, b: seq<real>, root: real -> real)
    requires |a| == |b| && IsRoot(root)
    ensures forall s :: ScoreOf(a, b, root)(s) == Some(1.0) <==> Matches(a, b, s)
    ensures forall s :: ScoreOf(a, b, root)(s).Some? ==> ScoreOf(a, b, root)(s).value <= 1.0
  {
    forall s: int
      ensures ScoreOf(a, b, root)(s) == Some(1.0) <==> Matches(a, b, s)
      ensures ScoreOf(a, b, root)(s).Some? ==> ScoreOf(a, b, root)(s).value <= 1.0
    {
      ScoreIsOneIff(a, b, s, root);
      ScoreIsBounded(a, b, s, root);
    }
  }

  /**
   The best score is 1 exactly when some shift within the limit matches; the shift named is then the first
   that does, and the runner-up is 1 as well exactly when another match lies outside the peak.
   */
  lemma {:induction false} BestIsOneIff(a: seq<real>, b: seq<real>, limit: int, root: real -> real)
    requires |a| == |b| && IsRoot(root) && BestShift(a, b, limit, root).Some?
    ensures var best := BestShift(a, b, limit, root).value;
      && best.score <= 1.0 && best.next <= 1.0
      && (best.score == 1.0 <==> exists s :: -limit <= s <= limit && Matches(a, b, s))
      && (best.score == 1.0 ==> Matches(a, b, best.shift) && forall s :: -limit <= s < best.shift ==> !Matches(a, b, s))
      && (best.next == 1.0 <==>
            exists s :: -limit <= s <= limit && !(best.shift - 1 <= s <= best.shift + 1) && Matches(a, b, s))
  {
    ScoresAreOneIff(a, b, root);
    var best := BestShift(a, b, limit, root).value;
    OneIsBest(ScoreOf(a, b, root), limit, best);
  }

  /** Of scores up to 1. */
  lemma {:induction false} OneIsBest(score: int -> Option<real>, limit: int, best: Registration)
    requires IsBest(score, limit, best) && NextIsThere(score, limit, best)
    requires forall s :: score(s).Some? ==> score(s).value <= 1.0
    ensures best.score <= 1.0 && best.next <= 1.0
    ensures best.score == 1.0 <==> exists s :: Within(s, limit) && score(s) == Some(1.0)
    ensures best.score == 1.0 ==> forall s :: Within(s, limit) && s < best.shift ==> score(s) != Some(1.0)
    ensures best.next == 1.0 <==> exists s :: Within(s, limit) && Apart(s, best.shift) && score(s) == Some(1.0)
  {
  }

  /** What `main` reports as a high confidence. */
  predicate Confident(r: Registration) { r.score > 0.9 && r.score - r.next > 0.02 }

  /**
   A displacement within the limit is found, with a score of 1.  It is the shift named exactly when no
   lower one matches as well; with another match outside the peak the answer is not held to be confident.
   */
  lemma {:induction false} DisplacementIsFound(a: seq<real>, b: seq<real>, shift: int, limit: int, root: real -> real)
    requires IsRoot(root) && Displaced(a, b, shift) && (|a| < 4 ==> limit < |a|)
    requires -limit <= shift <= limit && Overlap(|a|, shift) >= |a| / 4 && Varies(Left(a, shift))
    ensures var best := BestShift(a, b, limit, root).value;
      && best.score == 1.0 && (Confident(best) <==> best.next < 0.98)
      && (best.shift == shift <==> forall s :: -limit <= s < shift ==> !Matches(a, b, s))
      && ((exists s :: -limit <= s <= limit && Matches(a, b, s) && !(shift - 1 <= s <= shift + 1)) ==> best.next == 1.0)
  {
    DisplacedMatches(a, b, shift);
    hide *;
    MatchIsFound(a, b, shift, limit, root);
  }

  lemma {:induction false} MatchIsFound(a: seq<real>, b: seq<real>, shift: int, limit: int, root: real -> real)
    requires IsRoot(root) && |a| == |b| && (|a| < 4 ==> limit < |a|) && -limit <= shift <= limit && Matches(a, b, shift)
    ensures BestShift(a, b, limit, root).Some?
    ensures var best := BestShift(a, b, limit, root).value;
      && best.score == 1.0 && (Confident(best) <==> best.next < 0.98)
      && (best.shift == shift <==> forall s :: -limit <= s < shift ==> !Matches(a, b, s))
      && ((exists s :: -limit <= s <= limit && Matches(a, b, s) && !(shift - 1 <= s <= shift + 1)) ==> best.next == 1.0)
  {
    hide Matches;
    var best := BestShift(a, b, limit, root).value;
    assert -limit <= best.shift <= limit;
    BestIsOneIff(a, b, limit, root);
  }

  // ------------------------------------------------------- the profiles

  lemma {:induction false} InBand(y: nat, y1: nat, width: nat)
    requires y < y1
    ensures 0 <= y * width && (y + 1) * width == y * width + width <= y1 * width
  {
    if y + 1 < y1 { InBand(y, y1 - 1, width); }
  }

  /** What column `x` sums to over the rows from `y0` up to but not at `y1`. */
  function ColumnSum(luma: seq<byte>, width: nat, y0: nat, y1: nat, x: nat): int
    requires x < width && (y0 < y1 ==> y1 * width <= |luma|)
  {
    if y1 <= y0 then 0
    else
      InBand(y1 - 1, y1, width);
      ColumnSum(luma, width, y0, y1 - 1, x) + luma[(y1 - 1) * width + x] as int
  }

  /** The band can be averaged: there is something to divide by, and every row of it is in the picture. */
  predicate Measurable(luma: seq<byte>, width: nat, y0: nat, y1: nat) {
    width == 0 || (y0 != y1 && (y0 < y1 ==> y1 * width <= |luma|))
  }

  function Profile(luma: seq<byte>, width: nat, y0: nat, y1: nat): (profile: seq<real>)
    requires Measurable(luma, width, y0, y1)
    ensures |profile| == width
  {
    seq(width, x requires 0 <= x < width => ColumnSum(luma, width, y0, y1, x) as real / (y1 - y0) as real)
  }

  method ColumnProfile(luma: seq<byte>, width: nat, y0: nat, y1: nat) returns (profile: Option<seq<real>>)
    ensures profile.Some? <==> width == 0 || y1 < y0 || (y0 < y1 && y1 * width <= |luma|)
    ensures profile == if Measurable(luma, width, y0, y1) then Some(Profile(luma, width, y0, y1)) else None
  {
    var acc := new int[width](_ => 0);
    var y := y0;
    while y < y1
      invariant if y0 < y1 then y0 <= y <= y1 else y == y0
      invariant width > 0 && y0 < y ==> y * width <= |luma|
      invariant forall x :: 0 <= x < width ==> acc[x] == ColumnSum(luma, width, y0, y, x)
    {
      InBand(y, y1, width);
      if (y + 1) * width > |luma| { return None; }
      var x := 0;
      while x < width
        invariant 0 <= x <= width
        invariant forall i :: 0 <= i < x ==> acc[i] == ColumnSum(luma, width, y0, y + 1, i)
        invariant forall i :: x <= i < width ==> acc[i] == ColumnSum(luma, width, y0, y, i)
      {
        acc[x] := acc[x] + luma[y * width + x] as int;
        x := x + 1;
      }
      y := y + 1;
    }
    if width > 0 && y0 == y1 { return None; }
    assert Measurable(luma, width, y0, y1);
    assert forall x :: 0 <= x < width ==> acc[x] == ColumnSum(luma, width, y0, y1, x);
    var means := [];
    for x := 0 to width
      invariant means == Profile(luma, width, y0, y1)[..x]
    {
      assert Profile(luma, width, y0, y1)[x] == acc[x] as real / (y1 - y0) as real;
      means := means + [acc[x] as real / (y1 - y0) as real];
    }
    assert means == Profile(luma, width, y0, y1);
    profile := Some(means);
  }

  /** A column's sum over a band is that over the rows up to one of them and that over the rest. */
  lemma {:induction false} SumSplits(luma: seq<byte>, width: nat, y0: nat, y: nat, y1: nat, x: nat)
    requires y0 <= y <= y1 && x < width && y1 * width <= |luma| && y * width <= |luma|
    ensures ColumnSum(luma, width, y0, y1, x) == ColumnSum(luma, width, y0, y, x) + ColumnSum(luma, width, y, y1, x)
    decreases y1
  {
    if y < y1 {
      InBand(y1 - 1, y1, width);
      SumSplits(luma, width, y0, y, y1 - 1, x);
    }
  }

  /** And over one row it is the pixel of that row. */
  lemma {:induction false} SumOfOne(luma: seq<byte>, width: nat, y: nat, x: nat)
    requires x < width && (y + 1) * width <= |luma|
    ensures y * width + x < |luma| && ColumnSum(luma, width, y, y + 1, x) == luma[y * width + x] as int
  {
    InBand(y, y + 1, width);
  }

  /** So where all rows of a band are alike the profile is any of them: the mean of as many as there are. */
  lemma {:induction false} AlikeRows(luma: seq<byte>, width: nat, y0: nat, y1: nat, x: nat, shade: real)
    requires y0 < y1 && x < width && y1 * width <= |luma|
    requires forall y: nat :: y0 <= y < y1 ==> PixelAt(luma, width, y1, y, x) as int as real == shade
    ensures Profile(luma, width, y0, y1)[x] == shade
  {
    hide Times;
    AlikeSum(luma, width, y0, y1, y1, x, shade);
    MeanOfAlike((y1 - y0) as real, shade, ColumnSum(luma, width, y0, y1, x) as real);
  }

  lemma {:induction false} MeanOfAlike(n: real, shade: real, sum: real)
    requires n > 0.0 && sum == Times(n, shade)
    ensures sum / n == shade
  {
  }

  lemma {:induction false} AlikeSum(luma: seq<byte>, width: nat, y0: nat, y: nat, y1: nat, x: nat, shade: real)
    requires y0 <= y <= y1 && y0 < y1 && x < width && y1 * width <= |luma| && y * width <= |luma|
    requires forall z: nat :: y0 <= z < y1 ==> PixelAt(luma, width, y1, z, x) as int as real == shade
    ensures ColumnSum(luma, width, y0, y, x) as real == Times((y - y0) as real, shade)
    decreases y
  {
    if y > y0 {
      hide Times;
      InBand(y - 1, y1, width);
      AlikeSum(luma, width, y0, y - 1, y1, x, shade);
      assert PixelAt(luma, width, y1, y - 1, x) as int as real == shade;
      OnceMore((y - 1 - y0) as real, shade);
      assert (y - y0) as real == (y - 1 - y0) as real + 1.0;
    }
  }

  /** The rows of the band are displaced by `shift`. */
  predicate RowsDisplaced(reference: seq<byte>, sample: seq<byte>, width: nat, y0: nat, y1: nat, shift: int)
    requires y0 < y1 && y1 * width <= |reference| && y1 * width <= |sample|
  {
    forall y: nat, x: nat :: y0 <= y < y1 && x < width && 0 <= x - shift < width ==>
      PixelAt(reference, width, y1, y, x) == PixelAt(sample, width, y1, y, x - shift)
  }

  function PixelAt(luma: seq<byte>, width: nat, y1: nat, y: nat, x: nat): byte
    requires y < y1 && y1 * width <= |luma| && x < width
  {
    InBand(y, y1, width);
    luma[y * width + x]
  }

  lemma {:induction false} SumsDisplaced(reference: seq<byte>, sample: seq<byte>, width: nat, y0: nat, y1: nat,
                                         y: nat, shift: int, x: nat)
    requires y0 < y1 && y1 * width <= |reference| && y1 * width <= |sample|
    requires RowsDisplaced(reference, sample, width, y0, y1, shift)
    requires y0 <= y <= y1 && y * width <= y1 * width && x < width && 0 <= x - shift < width
    ensures ColumnSum(reference, width, y0, y, x) == ColumnSum(sample, width, y0, y, x - shift)
    decreases y
  {
    if y > y0 {
      InBand(y - 1, y1, width);
      SumsDisplaced(reference, sample, width, y0, y1, y - 1, shift, x);
      assert PixelAt(reference, width, y1, y - 1, x) == PixelAt(sample, width, y1, y - 1, x - shift);
    }
  }

  /** Pictures whose rows are displaced have profiles displaced as far. */
  lemma {:induction false} PicturesDisplaced(reference: seq<byte>, sample: seq<byte>, width: nat, y0: nat, y1: nat, shift: int)
    requires y0 < y1 && y1 * width <= |reference| && y1 * width <= |sample|
    requires RowsDisplaced(reference, sample, width, y0, y1, shift)
    ensures Displaced(Profile(reference, width, y0, y1), Profile(sample, width, y0, y1), shift)
  {
    forall x | 0 <= x < width && 0 <= x - shift < width
      ensures Profile(reference, width, y0, y1)[x] == Profile(sample, width, y0, y1)[x - shift]
    {
      SumsDisplaced(reference, sample, width, y0, y1, y1, shift, x);
    }
  }
}
