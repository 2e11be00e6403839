/** Results and errors of the pricing engine. */
module Outcomes {
  datatype EngineError =
    | EmptyVector | NonPositiveAlpha | NegativeShares | ZeroSum | NonPositiveLiquidity
    | LoNotBelowHi | NonPositiveTolerance | NonPositiveBudget | IndexOutOfRange
    | DivisionByZero | NonPositiveGain | AboveCap | NonPositiveShares

  datatype Result<+T> = Ok(value: T) | Err(error: EngineError)
}

/**
  Bisection for the largest argument at which a function is not positive.

  The midpoint goes through a rounding function, because the engine rounds every operation; exact
  arithmetic is the identity with error bound zero.  Only the rounding of numbers inside the
  bracket matters, so the engine's own rounding, whose error grows with the number, is covered.
*/
module Bisection {
  import opened Vectors
  import opened Outcomes

  ghost predicate RoundsWithin(round: real -> real, grid: real, lo: real, hi: real) {
    grid >= 0.0 && forall x :: lo <= x <= hi ==> -grid <= round(x) - x <= grid
  }

  function Exact(x: real): real { x }

  lemma ExactRounds(lo: real, hi: real)
    ensures RoundsWithin(Exact, 0.0, lo, hi)
  {
  }

  datatype Bracket = Bracket(lo: real, hi: real)

  /** f is not positive at x, or x is where the search started. */
  ghost predicate LoOk(f: real -> Result<real>, x: real, start: real) {
    x == start || (f(x).Ok? && f(x).value <= 0.0)
  }

  ghost predicate HiOk(f: real -> Result<real>, x: real, start: real) {
    x == start || (f(x).Ok? && f(x).value > 0.0)
  }

  /** The least amount by which one pass shrinks the bracket. */
  ghost function Gap(tol: real, grid: real): real {
    tol / 2.0 - grid
  }

  /** How many such amounts fit in the bracket. */
  ghost function Measure(lo: real, hi: real, gap: real): real
    requires gap > 0.0
  {
    (hi - lo) / gap
  }

  /** One halving keeps the midpoint strictly inside and shrinks the width by a fixed amount. */
  lemma Halving(lo: real, hi: real, tol: real, mid: real, grid: real)
    requires hi - lo > tol > 2.0 * grid >= 0.0
    requires -grid <= mid - (lo + hi) / 2.0 <= grid
    ensures lo < mid < hi
    ensures var gap := Gap(tol, grid);
            && Measure(lo, hi, gap) >= 0.0
            && Measure(lo, mid, gap) <= Measure(lo, hi, gap) - 1.0
            && Measure(mid, hi, gap) <= Measure(lo, hi, gap) - 1.0
  {
    var gap := Gap(tol, grid);
    Shrinks(hi - lo, hi - mid, gap);
    Shrinks(hi - lo, mid - lo, gap);
  }

  lemma Shrinks(w: real, w': real, gap: real)
    requires gap > 0.0 && w >= 0.0 && w' <= w - gap
    ensures w / gap >= 0.0 && w' / gap <= w / gap - 1.0
  {
    var (r, r') := (w / gap, w' / gap);
    assert r * gap == w && r' * gap == w';
    assert (r - 1.0) * gap == w - gap;
    Cancel(r', r - 1.0, gap);
  }

  lemma Cancel(a: real, b: real, c: real)
    requires c > 0.0 && a * c <= b * c
    ensures a <= b
  {
  }

  /**
    Narrow the bracket until it is no wider than tol.  Terminates for every f, monotone or not,
    as long as the rounding error is below half the tolerance.
  */
  function Narrow(lo: real, hi: real, tol: real, f: real -> Result<real>, round: real -> real, ghost grid: real)
    : (r: Result<Bracket>)
    requires lo < hi && RoundsWithin(round, grid, lo, hi) && 2.0 * grid < tol
    ensures r.Ok? ==> lo <= r.value.lo < r.value.hi <= hi && r.value.hi - r.value.lo <= tol
    ensures r.Ok? ==> LoOk(f, r.value.lo, lo) && HiOk(f, r.value.hi, hi)
    ensures (forall x :: lo <= x <= hi ==> f(x).Ok?) ==> r.Ok?
    decreases Measure(lo, hi, Gap(tol, grid))
  {
    if hi - lo <= tol then Ok(Bracket(lo, hi))
    else
      var mid := round((lo + hi) / 2.0);
      Halving(lo, hi, tol, mid, grid);
      if f(mid).Err? then Err(f(mid).error)
      else if f(mid).value > 0.0 then Narrow(lo, mid, tol, f, round, grid)
      else Narrow(mid, hi, tol, f, round, grid)
  }

  /** One pass of a loop that narrows the bracket as `Narrow` does. */
  lemma NarrowStep(lo: real, hi: real, tol: real, f: real -> Result<real>, round: real -> real, grid: real)
    requires hi - lo > tol > 2.0 * grid && RoundsWithin(round, grid, lo, hi)
    ensures var (mid, gap) := (round((lo + hi) / 2.0), Gap(tol, grid));
            && lo < mid < hi
            && RoundsWithin(round, grid, lo, mid) && RoundsWithin(round, grid, mid, hi)
            && Measure(lo, hi, gap) >= 0.0
            && Measure(lo, mid, gap) <= Measure(lo, hi, gap) - 1.0
            && Measure(mid, hi, gap) <= Measure(lo, hi, gap) - 1.0
            && Narrow(lo, hi, tol, f, round, grid) ==
               if f(mid).Err? then Err(f(mid).error)
               else if f(mid).value > 0.0 then Narrow(lo, mid, tol, f, round, grid)
               else Narrow(mid, hi, tol, f, round, grid)
  {
    Halving(lo, hi, tol, round((lo + hi) / 2.0), grid);
  }

  /** The same pass in exact arithmetic, once f has been evaluated. */
  lemma ExactStep(lo: real, hi: real, tol: real, f: real -> Result<real>, mid: real, fMid: Result<real>)
    requires hi - lo > tol > 0.0 && mid == (lo + hi) / 2.0 && fMid == f(mid)
    requires RoundsWithin(Exact, 0.0, lo, hi)
    ensures lo < mid < hi
    ensures RoundsWithin(Exact, 0.0, lo, mid) && RoundsWithin(Exact, 0.0, mid, hi)
    ensures var gap := Gap(tol, 0.0);
            && Measure(lo, hi, gap) >= 0.0
            && Measure(lo, mid, gap) <= Measure(lo, hi, gap) - 1.0
            && Measure(mid, hi, gap) <= Measure(lo, hi, gap) - 1.0
    ensures fMid.Err? ==> Narrow(lo, hi, tol, f, Exact, 0.0) == Err(fMid.error)
    ensures fMid.Ok? && fMid.value > 0.0 ==> Narrow(lo, hi, tol, f, Exact, 0.0) == Narrow(lo, mid, tol, f, Exact, 0.0)
    ensures fMid.Ok? && fMid.value <= 0.0 ==> Narrow(lo, hi, tol, f, Exact, 0.0) == Narrow(mid, hi, tol, f, Exact, 0.0)
  {
    NarrowStep(lo, hi, tol, f, Exact, 0.0);
    assert Exact((lo + hi) / 2.0) == mid;
  }

  /** What Bisect returns: an error for a bad bracket or tolerance, else the lower end reached. */
  function BisectResult(lo: real, hi: real, tol: real, f: real -> Result<real>, round: real -> real, ghost grid: real)
    : Result<real>
    requires RoundsWithin(round, grid, lo, hi) && (tol > 0.0 ==> 2.0 * grid < tol)
  {
    if lo >= hi then Err(LoNotBelowHi)
    else if tol <= 0.0 then Err(NonPositiveTolerance)
    else
      var r := Narrow(lo, hi, tol, f, round, grid);
      if r.Ok? then Ok(r.value.lo) else Err(r.error)
  }

  /** The loop of the engine. */
  method Bisect(lo0: real, hi0: real, tol: real, f: real -> Result<real>, round: real -> real, ghost grid: real)
    returns (r: Result<real>)
    requires RoundsWithin(round, grid, lo0, hi0) && (tol > 0.0 ==> 2.0 * grid < tol)
    ensures r == BisectResult(lo0, hi0, tol, f, round, grid)
    ensures r.Ok? ==>
              && LoOk(f, r.value, lo0)
              && exists hi :: r.value < hi <= hi0 && hi - r.value <= tol && HiOk(f, hi, hi0)
  {
    if lo0 >= hi0 {
      return Err(LoNotBelowHi);
    }
    if tol <= 0.0 {
      return Err(NonPositiveTolerance);
    }
    var lo, hi := lo0, hi0;
    while hi - lo > tol
      invariant lo0 <= lo < hi <= hi0
      invariant RoundsWithin(round, grid, lo, hi)
      invariant LoOk(f, lo, lo0) && HiOk(f, hi, hi0)
      invariant Narrow(lo0, hi0, tol, f, round, grid) == Narrow(lo, hi, tol, f, round, grid)
      decreases Measure(lo, hi, Gap(tol, grid))
    {
      NarrowStep(lo, hi, tol, f, round, grid);
      var mid := round((lo + hi) / 2.0);
      var fMid := f(mid);
      if fMid.Err? {
        return Err(fMid.error);
      }
      if fMid.value > 0.0 {
        hi := mid;
      } else {
        lo := mid;
      }
    }
    return Ok(lo);
  }

  // ----- Rounding to a number of significant digits -----

  function Abs(x: real): real {
    if x < 0.0 then -x else x
  }

  function TowardZero(x: real): int {
    if x < 0.0 then -((-x).Floor) else x.Floor
  }

  /** y is x cut toward zero to a whole number of units that is at least `least`. */
  ghost predicate CutAt(x: real, y: real, unit: real, least: real) {
    unit > 0.0 && least * unit <= Abs(x) && y == TowardZero(x / unit) as real * unit
  }

  /** Every number is kept or cut to as many digits as `least` has. */
  ghost predicate CutsToDigits(round: real -> real, least: real) {
    least > 0.0 && forall x :: round(x) == x || exists unit: real :: CutAt(x, round(x), unit, least)
  }

  ghost predicate ErrorAtMost(x: real, y: real, e: real) {
    -e <= y - x <= e
  }

  ghost predicate Near(x: real, y: real, eps: real) {
    ErrorAtMost(x, y, eps * Abs(x))
  }

  /** The error is at most the fraction eps of the number rounded. */
  ghost predicate Proportional(round: real -> real, eps: real) {
    eps >= 0.0 && forall x :: Near(x, round(x), eps)
  }

  lemma CutBelowUnit(x: real, unit: real, q: real, n: real, y: real)
    requires unit > 0.0 && q == x / unit && n == TowardZero(q) as real && y == n * unit
    ensures ErrorAtMost(x, y, unit)
  {
    DivideThenTimes(x, unit, q);
    ScaleError(q, n, unit, x, y);
  }

  lemma DivideThenTimes(x: real, g: real, q: real)
    requires g > 0.0 && q == x / g
    ensures q * g == x
  {
  }

  lemma ScaleError(q: real, n: real, unit: real, x: real, y: real)
    requires unit > 0.0 && -1.0 <= n - q <= 1.0 && x == q * unit && y == n * unit
    ensures -unit <= y - x <= unit
  {
    NextMultiple(q, n, unit, x, y);
    NextMultiple(n, q, unit, y, x);
  }

  lemma NextMultiple(q: real, n: real, unit: real, x: real, y: real)
    requires unit > 0.0 && n <= q + 1.0 && x == q * unit && y == n * unit
    ensures y <= x + unit
  {
    var d := q + 1.0 - n;
    assert d * unit >= 0.0;
    assert d * unit == q * unit + unit - n * unit;
  }

  lemma CutIsProportional(round: real -> real, least: real)
    requires CutsToDigits(round, least)
    ensures Proportional(round, 1.0 / least)
  {
    forall x ensures Near(x, round(x), 1.0 / least) {
      OneCutIsNear(x, round(x), least);
    }
  }

  lemma OneCutIsNear(x: real, y: real, least: real)
    requires least > 0.0 && (y == x || exists unit: real :: CutAt(x, y, unit, least))
    ensures Near(x, y, 1.0 / least)
  {
    if y == x {
      assert 1.0 / least * Abs(x) >= 0.0;
    } else {
      var unit: real :| CutAt(x, y, unit, least);
      CutIsNear(x, y, unit, least);
    }
  }

  lemma CutIsNear(x: real, y: real, unit: real, least: real)
    requires least > 0.0 && CutAt(x, y, unit, least)
    ensures Near(x, y, 1.0 / least)
  {
    CutBelowUnit(x, unit, x / unit, TowardZero(x / unit) as real, y);
    UnitFraction(least, unit, Abs(x));
    WiderError(x, y, unit, 1.0 / least * Abs(x));
  }

  lemma UnitFraction(p: real, unit: real, size: real)
    requires p > 0.0 && p * unit <= size
    ensures unit <= 1.0 / p * size
  {
    var eps := 1.0 / p;
    assert eps * p == 1.0;
    assert eps * (p * unit) == unit;
    assert eps * (size - p * unit) >= 0.0;
  }

  /** The engine's midpoint: the sum of the ends is rounded, halved and rounded again. */
  function Midpoint(round: real -> real): real -> real {
    x => round(round(2.0 * x) / 2.0)
  }

  lemma TwiceProduct(eps: real, a: real, e: real)
    requires e == eps * a
    ensures eps * (2.0 * a) == 2.0 * e
  {
  }

  lemma ScaledError(eps: real, a: real, e: real, ee: real, k: real, d: real)
    requires eps >= 0.0 && e == eps * a && ee == eps * e && d == eps * k && k <= a + e
    ensures d <= e + ee
  {
    var w := a + e - k;
    assert eps * w >= 0.0;
    assert eps * w == eps * a + eps * e - eps * k;
  }

  lemma TwoErrors(eps: real, a: real, e: real, ee: real)
    requires e == eps * a && ee == eps * e
    ensures eps * (2.0 + eps) * a == 2.0 * e + ee
  {
    assert eps * (2.0 + eps) == 2.0 * eps + eps * eps;
    assert (2.0 * eps + eps * eps) * a == 2.0 * (eps * a) + eps * (eps * a);
  }

  /** From products that are named, the rest is linear. */
  lemma MidpointDistance(x: real, s: real, m: real, e: real, ee: real, d: real)
    requires ErrorAtMost(2.0 * x, s, 2.0 * e) && ErrorAtMost(s / 2.0, m, d) && d <= e + ee
    ensures ErrorAtMost(x, m, 2.0 * e + ee)
  {
  }

  lemma FirstError(x: real, s: real, eps: real, a: real, e: real)
    requires a == Abs(x) && e == eps * a && Near(2.0 * x, s, eps)
    ensures ErrorAtMost(2.0 * x, s, 2.0 * e)
  {
    TwiceProduct(eps, a, e);
    assert Abs(2.0 * x) == 2.0 * a;
  }

  lemma HalfSize(x: real, s: real, e: real)
    requires ErrorAtMost(2.0 * x, s, 2.0 * e)
    ensures Abs(s / 2.0) <= Abs(x) + e
  {
  }

  lemma MidpointBound(x: real, s: real, m: real, eps: real, e: real, ee: real, d: real)
    requires eps >= 0.0 && e == eps * Abs(x) && ee == eps * e && d == eps * Abs(s / 2.0)
    requires ErrorAtMost(2.0 * x, s, 2.0 * e) && ErrorAtMost(s / 2.0, m, d)
    ensures ErrorAtMost(x, m, 2.0 * e + ee)
  {
    HalfSize(x, s, e);
    ScaledError(eps, Abs(x), e, ee, Abs(s / 2.0), d);
    MidpointDistance(x, s, m, e, ee, d);
  }

  lemma MidpointError(x: real, s: real, m: real, eps: real)
    requires eps >= 0.0
    requires Near(2.0 * x, s, eps) && Near(s / 2.0, m, eps)
    ensures Near(x, m, eps * (2.0 + eps))
  {
    var e := eps * Abs(x);
    FirstError(x, s, eps, Abs(x), e);
    MidpointBound(x, s, m, eps, e, eps * e, eps * Abs(s / 2.0));
    TwoErrors(eps, Abs(x), e, eps * e);
  }

  lemma ShareOfUpperEnd(c: real, x: real, hi: real)
    requires c >= 0.0 && x <= hi
    ensures c * x <= c * hi
  {
    var w := hi - x;
    assert c * w >= 0.0;
    assert c * w == c * hi - c * x;
  }

  lemma WiderError(x: real, y: real, e: real, e': real)
    requires ErrorAtMost(x, y, e) && e <= e'
    ensures ErrorAtMost(x, y, e')
  {
  }

  lemma NearWithin(x: real, m: real, c: real, hi: real)
    requires c >= 0.0 && 0.0 <= x <= hi && Near(x, m, c)
    ensures ErrorAtMost(x, m, c * hi)
  {
    var a := Abs(x);
    ShareOfUpperEnd(c, a, hi);
    WiderError(x, m, c * a, c * hi);
  }

  /** Inside a bracket above zero, a proportional error is bounded by its share of the upper end. */
  lemma MidpointWithin(x: real, s: real, m: real, eps: real, c: real, hi: real)
    requires eps >= 0.0 && c >= 0.0 && c == eps * (2.0 + eps) && 0.0 <= x <= hi
    requires Near(2.0 * x, s, eps) && Near(s / 2.0, m, eps)
    ensures ErrorAtMost(x, m, c * hi)
  {
    MidpointError(x, s, m, eps);
    NearWithin(x, m, c, hi);
  }

  lemma OneMidpoint(round: real -> real, eps: real, c: real, x: real, hi: real)
    requires Proportional(round, eps) && c >= 0.0 && c == eps * (2.0 + eps) && 0.0 <= x <= hi
    ensures ErrorAtMost(x, Midpoint(round)(x), c * hi)
  {
    var s := round(2.0 * x);
    assert Near(2.0 * x, s, eps) && Near(s / 2.0, round(s / 2.0), eps);
    MidpointWithin(x, s, round(s / 2.0), eps, c, hi);
  }

  lemma ErrorsBound(round: real -> real, e: real, hi: real)
    requires e >= 0.0 && forall x :: 0.0 <= x <= hi ==> ErrorAtMost(x, round(x), e)
    ensures RoundsWithin(round, e, 0.0, hi)
  {
  }

  lemma ProductIsNatural(c: real, hi: real)
    requires c >= 0.0 && hi >= 0.0
    ensures c * hi >= 0.0
  {
  }

  lemma MidpointRounds(round: real -> real, eps: real, c: real, hi: real)
    requires Proportional(round, eps) && c >= 0.0 && c == eps * (2.0 + eps) && hi >= 0.0
    ensures RoundsWithin(Midpoint(round), c * hi, 0.0, hi)
  {
    forall x | 0.0 <= x <= hi ensures ErrorAtMost(x, Midpoint(round)(x), c * hi) {
      OneMidpoint(round, eps, c, x, hi);
    }
    ProductIsNatural(c, hi);
    ErrorsBound(Midpoint(round), c * hi, hi);
  }

  /** The least whole number of 30 digits. */
  const LEAST: real := 100_000_000_000_000_000_000_000_000_000.0

  /**
    The engine's arithmetic, cut to 30 significant digits, is precise enough for a tolerance of
    10^-12 whenever the upper end is at most 2 * 10^16: then `Narrow` and `Bisect` apply to it.
  */
  lemma ThirtyDigitsSuffice(round: real -> real, hi: real) returns (grid: real)
    requires CutsToDigits(round, LEAST) && 0.0 <= hi <= 20_000_000_000_000_000.0
    ensures RoundsWithin(Midpoint(round), grid, 0.0, hi) && 2.0 * grid < 0.000_000_000_001
  {
    var c := MidpointOfCuts(round, LEAST, hi);
    ErrorIsSmall(hi, c);
    grid := c * hi;
  }

  lemma MidpointOfCuts(round: real -> real, least: real, hi: real) returns (c: real)
    requires CutsToDigits(round, least) && hi >= 0.0
    ensures c == 1.0 / least * (2.0 + 1.0 / least)
    ensures RoundsWithin(Midpoint(round), c * hi, 0.0, hi)
  {
    var eps := 1.0 / least;
    c := eps * (2.0 + eps);
    CutIsProportional(round, least);
    ProductIsNatural(eps, 2.0 + eps);
    MidpointRounds(round, eps, c, hi);
  }

  lemma ErrorIsSmall(hi: real, c: real)
    requires 0.0 <= hi <= 20_000_000_000_000_000.0
    requires c == 1.0 / LEAST * (2.0 + 1.0 / LEAST)
    ensures 2.0 * (c * hi) < 0.000_000_000_001
  {
    var bound := 0.000_000_000_000_000_000_000_000_000_021;
    assert c <= bound;
    MulMonotone(c, bound, hi);
  }

  // ----- The condition on the rounding is needed -----

  /** One pass of the loop body. */
  function Pass(b: Bracket, f: real -> real, round: real -> real): Bracket {
    var mid := round((b.lo + b.hi) / 2.0);
    if f(mid) > 0.0 then b.(hi := mid) else b.(lo := mid)
  }

  function Passes(b: Bracket, f: real -> real, round: real -> real, k: nat): Bracket
    decreases k
  {
    if k == 0 then b else Passes(Pass(b, f, round), f, round, k - 1)
  }

  /** A rounding that is off by up to grid, and at mid points near hi pulls down by almost grid. */
  function PullDown(hi: real, grid: real): real -> real {
    x => if hi - 2.0 * grid <= x <= hi - grid then x - grid + (hi - grid - x) / 2.0 else x
  }

  lemma PullDownRounds(lo: real, hi: real, grid: real)
    requires grid >= 0.0
    ensures RoundsWithin(PullDown(hi, grid), grid, lo, hi)
  {
  }

  /**
    If nothing but a bound on the rounding is known, the bound is needed: for every tolerance up
    to 2 * grid there is a bracket, a function and a rounding within grid whose width stays above
    the tolerance after any number of passes.
  */
  lemma {:induction false} CoarseRoundingNeverEnds(hi: real, w: real, grid: real, k: nat)
    requires grid > 0.0 && 2.0 * grid < w <= 4.0 * grid
    ensures RoundsWithin(PullDown(hi, grid), grid, hi - w, hi)
    ensures var b := Passes(Bracket(hi - w, hi), (x: real) => 0.0, PullDown(hi, grid), k);
            b.hi - b.lo > 2.0 * grid
    decreases k
  {
    PullDownRounds(hi - w, hi, grid);
    if k > 0 {
      var w' := 2.0 * grid + (w - 2.0 * grid) / 4.0;
      var f := (x: real) => 0.0;
      var b := Bracket(hi - w, hi);
      assert Pass(b, f, PullDown(hi, grid)) == Bracket(hi - w', hi);
      CoarseRoundingNeverEnds(hi, w', grid, k - 1);
    }
  }

  // ----- Truncation toward zero on a grid: the exact condition -----

  /** The multiple of g next to x toward zero, for x above zero. */
  function OnGrid(g: real): real -> real
    requires g > 0.0
  {
    x => TowardZero(x / g) as real * g
  }

  /** The grid point number a: a times g. */
  function Point(g: real, a: nat): real {
    if a == 0 then 0.0 else Point(g, a - 1) + g
  }

  /** From the grid point a to `rest` past the grid point b. */
  function GridBracket(g: real, a: nat, b: nat, rest: real): Bracket {
    Bracket(Point(g, a), Point(g, b) + rest)
  }

  function Width(b: Bracket): real {
    b.hi - b.lo
  }

  /** Some pass brings the width down to tol. */
  ghost predicate Ends(b: Bracket, f: real -> real, round: real -> real, tol: real) {
    exists k: nat :: Width(Passes(b, f, round, k)) <= tol
  }

  lemma EndsNow(b: Bracket, f: real -> real, round: real -> real, tol: real)
    requires Width(b) <= tol
    ensures Ends(b, f, round, tol)
  {
    assert Passes(b, f, round, 0) == b;
  }

  lemma EndsLater(b: Bracket, f: real -> real, round: real -> real, tol: real)
    requires Ends(Pass(b, f, round), f, round, tol)
    ensures Ends(b, f, round, tol)
  {
    var k: nat :| Width(Passes(Pass(b, f, round), f, round, k)) <= tol;
    assert Passes(b, f, round, k + 1) == Passes(Pass(b, f, round), f, round, k);
  }

  lemma {:induction false} PointIsProduct(g: real, a: nat)
    ensures Point(g, a) == a as real * g
  {
    if a > 0 {
      PointIsProduct(g, a - 1);
      Distribute((a - 1) as real, 1.0, g);
    }
  }

  lemma Distribute(a: real, b: real, g: real)
    ensures (a + b) * g == a * g + b * g
  {
  }

  lemma {:induction false} PointSum(g: real, a: nat, b: nat)
    ensures Point(g, a + b) == Point(g, a) + Point(g, b)
  {
    if b > 0 {
      PointSum(g, a, b - 1);
    }
  }

  lemma {:induction false} PointOrder(g: real, a: nat, b: nat)
    requires g > 0.0 && a < b
    ensures Point(g, a) + g <= Point(g, b)
  {
    if a + 1 < b {
      PointOrder(g, a, b - 1);
    }
  }

  lemma StepBelow(m: real, q: real, g: real, p: real, y: real)
    requires g > 0.0 && p == m * g && y == q * g && m + 1.0 <= q
    ensures p + g <= y
  {
    var d := q - m - 1.0;
    assert d * g >= 0.0;
    assert d * g == q * g - m * g - g;
  }

  lemma Below(m: real, q: real, g: real, p: real, y: real)
    requires g > 0.0 && p == m * g && y == q * g && q < m
    ensures y < p
  {
    TimesPositive(q, m, g);
  }

  lemma QuotientBetween(g: real, m: real, q: real, p: real, y: real)
    requires g > 0.0 && p == m * g && y == q * g && p <= y < p + g
    ensures m <= q < m + 1.0
  {
    if q < m {
      Below(m, q, g, p, y);
    } else if m + 1.0 <= q {
      StepBelow(m, q, g, p, y);
    }
  }

  lemma TimesPositive(u: real, v: real, b: real)
    requires u < v && b > 0.0
    ensures u * b < v * b
  {
    var d := v - u;
    assert d * b > 0.0;
    assert v == u + d;
    assert (u + d) * b == u * b + d * b;
  }

  /** Truncation goes to the grid point below. */
  lemma TruncatedToPoint(g: real, m: nat, y: real)
    requires g > 0.0 && Point(g, m) <= y < Point(g, m) + g
    ensures OnGrid(g)(y) == Point(g, m)
  {
    PointIsProduct(g, m);
    var q := y / g;
    DivideThenTimes(y, g, q);
    QuotientBetween(g, m as real, q, Point(g, m), y);
    assert q.Floor == m;
  }

  /** The midpoint falls on the grid point between the two. */
  lemma GridMiddle(g: real, a: nat, b: nat, rest: real)
    requires g > 0.0 && a <= b && 0.0 <= rest < g
    ensures var s := GridBracket(g, a, b, rest); OnGrid(g)((s.lo + s.hi) / 2.0) == Point(g, (a + b) / 2)
  {
    var m := (a + b) / 2;
    PointSum(g, a, b);
    PointSum(g, m, m);
    assert a + b == m + m || a + b == m + m + 1;
    TruncatedToPoint(g, m, (Point(g, a) + Point(g, b) + rest) / 2.0);
  }

  /** A bracket of one step is no wider than a step and the rest. */
  lemma LastWidth(g: real, a: nat, b: nat, rest: real)
    requires g > 0.0 && a <= b <= a + 1
    ensures Width(GridBracket(g, a, b, rest)) <= g + rest
  {
  }

  /** One pass on the grid. */
  lemma GridPass(g: real, a: nat, b: nat, rest: real, f: real -> real)
    requires g > 0.0 && a <= b && 0.0 <= rest < g
    ensures var (s, m) := (GridBracket(g, a, b, rest), (a + b) / 2);
            Pass(s, f, OnGrid(g)) ==
            if f(Point(g, m)) > 0.0 then GridBracket(g, a, m, 0.0) else GridBracket(g, m, b, rest)
  {
    GridMiddle(g, a, b, rest);
  }

  lemma {:induction false} GridSearchEnds(g: real, a: nat, b: nat, rest: real, f: real -> real, tol: real)
    requires g > 0.0 && a <= b && 0.0 <= rest < g && g + rest <= tol
    ensures Ends(GridBracket(g, a, b, rest), f, OnGrid(g), tol)
    decreases b - a
  {
    var s := GridBracket(g, a, b, rest);
    if b - a <= 1 {
      LastWidth(g, a, b, rest);
      EndsNow(s, f, OnGrid(g), tol);
    } else {
      var m := (a + b) / 2;
      GridPass(g, a, b, rest, f);
      if f(Point(g, m)) > 0.0 {
        GridSearchEnds(g, a, m, 0.0, f, tol);
      } else {
        GridSearchEnds(g, m, b, rest, f, tol);
      }
      EndsLater(s, f, OnGrid(g), tol);
    }
  }

  /** Where f is never positive the upper end stays, and the lower one stops a grid step below. */
  lemma {:induction false} GridSearchStops(g: real, a: nat, b: nat, rest: real, k: nat) returns (m: nat)
    requires g > 0.0 && a <= b && 0.0 <= rest < g
    ensures a <= m <= b && (a < b ==> m < b)
    ensures Passes(GridBracket(g, a, b, rest), (x: real) => 0.0, OnGrid(g), k) == GridBracket(g, m, b, rest)
    decreases k
  {
    m := a;
    if k > 0 {
      GridPass(g, a, b, rest, (x: real) => 0.0);
      m := GridSearchStops(g, (a + b) / 2, b, rest, k - 1);
    }
  }

  lemma NeverNarrow(g: real, a: nat, b: nat, rest: real, tol: real, k: nat)
    requires g > 0.0 && a <= b && 0.0 <= rest < g
    requires Width(GridBracket(g, a, b, rest)) > tol && g + rest > tol
    ensures Width(Passes(GridBracket(g, a, b, rest), (x: real) => 0.0, OnGrid(g), k)) > tol
  {
    var m := GridSearchStops(g, a, b, rest, k);
    if a < b {
      PointOrder(g, m, b);
    }
  }

  /**
    With midpoints truncated to a grid of spacing g, the search from the grid point a to `rest`
    past the grid point b ends for every function if and only if its first width or g + rest is
    within the tolerance.  In particular a tolerance below the spacing is never enough for a wider
    bracket, and a tolerance of the spacing is enough when the upper end is on the grid.
  */
  lemma TruncationEndsExactlyWhen(g: real, a: nat, b: nat, rest: real, tol: real)
    requires g > 0.0 && a <= b && 0.0 <= rest < g
    ensures (forall f: real -> real :: Ends(GridBracket(g, a, b, rest), f, OnGrid(g), tol)) <==>
            Width(GridBracket(g, a, b, rest)) <= tol || g + rest <= tol
  {
    var s := GridBracket(g, a, b, rest);
    if Width(s) <= tol || g + rest <= tol {
      forall f: real -> real ensures Ends(s, f, OnGrid(g), tol) {
        if Width(s) <= tol {
          EndsNow(s, f, OnGrid(g), tol);
        } else {
          GridSearchEnds(g, a, b, rest, f, tol);
        }
      }
    } else {
      var f := (x: real) => 0.0;
      if Ends(s, f, OnGrid(g), tol) {
        var k: nat :| Width(Passes(s, f, OnGrid(g), k)) <= tol;
        NeverNarrow(g, a, b, rest, tol, k);
        assert false;
      }
    }
  }
}
