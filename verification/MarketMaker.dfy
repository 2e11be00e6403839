/**
  What the cost function guarantees the market maker: bounds on the cost, strict growth, and the
  guarantees over whole runs of purchases and cash-outs.

  Buying the yes side of an outcome adds shares to that coordinate, buying the no side adds shares
  to every other coordinate, and cashing out adds the shares bought to the opposite side.
*/
module MarketMaker {
  import opened Transcendental
  import opened Vectors
  import opened Pricing

  /** The vector after x shares are added to outcome idx (yes) or to all the others (no). */
  function After(q: seq<real>, idx: nat, yes: bool, x: real): seq<real> {
    seq(|q|, i requires 0 <= i < |q| => if (i == idx) == yes then q[i] + x else q[i])
  }

  /** The sum of the first k prices on the given side of outcome idx. */
  function SideTo(p: seq<real>, idx: nat, yes: bool, k: nat): real
    requires k <= |p|
  {
    if k == 0 then 0.0
    else SideTo(p, idx, yes, k - 1) + (if (k - 1 == idx) == yes then p[k - 1] else 0.0)
  }

  function SidePrice(p: seq<real>, idx: nat, yes: bool): real {
    SideTo(p, idx, yes, |p|)
  }

  lemma {:induction false} SideYes(p: seq<real>, idx: nat, k: nat)
    requires k <= |p|
    ensures SideTo(p, idx, true, k) == if idx < k then p[idx] else 0.0
  {
    if k > 0 {
      SideYes(p, idx, k - 1);
    }
  }

  lemma {:induction false} SidesMakeTheSum(p: seq<real>, idx: nat, k: nat)
    requires k <= |p|
    ensures SideTo(p, idx, true, k) + SideTo(p, idx, false, k) == SumTo(p, k)
  {
    if k > 0 {
      SidesMakeTheSum(p, idx, k - 1);
    }
  }

  lemma {:induction false} SidePositive(p: seq<real>, idx: nat, yes: bool, member: nat, k: nat)
    requires k <= |p| && (member == idx) == yes
    requires forall i :: 0 <= i < |p| ==> p[i] > 0.0
    ensures SideTo(p, idx, yes, k) >= 0.0
    ensures member < k ==> SideTo(p, idx, yes, k) > 0.0
  {
    if k > 0 {
      SidePositive(p, idx, yes, member, k - 1);
    }
  }

  lemma {:induction false} ValueAfter(q: seq<real>, p: seq<real>, idx: nat, yes: bool, x: real, k: nat)
    requires k <= |q| == |p|
    ensures DotTo(After(q, idx, yes, x), p, k) == DotTo(q, p, k) + x * SideTo(p, idx, yes, k)
  {
    if k > 0 {
      ValueAfter(q, p, idx, yes, x, k - 1);
      OneMoreTerm(SideTo(p, idx, yes, k - 1), q[k - 1], p[k - 1], x);
    }
  }

  lemma OneMoreTerm(s: real, qi: real, pi: real, x: real)
    ensures (qi + x) * pi == qi * pi + x * pi
    ensures x * (s + pi) == x * s + x * pi
  {
  }

  lemma AfterIsValid(q: seq<real>, alpha: real, idx: nat, yes: bool, x: real)
    requires ValidVector(q, alpha) && x >= 0.0
    ensures ValidVector(After(q, idx, yes, x), alpha)
  {
    SumMonotone(q, After(q, idx, yes, x), |q|);
  }

  lemma ValueMoved(q: seq<real>, v: seq<real>, p: seq<real>, idx: nat, yes: bool, x: real)
    requires |q| == |p| && v == After(q, idx, yes, x)
    ensures Dot(v, p) - Dot(q, p) == x * SidePrice(p, idx, yes)
  {
    ValueAfter(q, p, idx, yes, x, |q|);
  }

  /** The move valued at the prices p costs at most d, and valued at p' at least d. */
  ghost predicate Between(p: seq<real>, p': seq<real>, idx: nat, yes: bool, x: real, d: real) {
    x * SidePrice(p, idx, yes) <= d <= x * SidePrice(p', idx, yes)
  }

  /** Moving x shares onto a side costs at least x times that side's price before the move, and
      at most x times its price after it. */
  lemma MoveCost(t: ExpLog, q: seq<real>, alpha: real, idx: nat, yes: bool, x: real)
    requires t.Valid() && ValidVector(q, alpha) && x >= 0.0
    ensures ValidVector(After(q, idx, yes, x), alpha)
    ensures CostOf(t, After(q, idx, yes, x), alpha) - CostOf(t, q, alpha)
            >= x * SidePrice(PricesOf(t, q, alpha), idx, yes)
    ensures CostOf(t, After(q, idx, yes, x), alpha) - CostOf(t, q, alpha)
            <= x * SidePrice(PricesOf(t, After(q, idx, yes, x), alpha), idx, yes)
  {
    AfterIsValid(q, alpha, idx, yes, x);
    MoveCostTo(t, q, After(q, idx, yes, x), alpha, idx, yes, x);
  }

  lemma MoveCostTo(t: ExpLog, q: seq<real>, v: seq<real>, alpha: real, idx: nat, yes: bool, x: real)
    requires t.Valid() && ValidVector(q, alpha) && ValidVector(v, alpha) && v == After(q, idx, yes, x)
    ensures Between(PricesOf(t, q, alpha), PricesOf(t, v, alpha), idx, yes, x, CostOf(t, v, alpha) - CostOf(t, q, alpha))
  {
    PricesSupportCost(t, q, v, alpha);
    BetweenPrices(q, v, PricesOf(t, q, alpha), PricesOf(t, v, alpha), idx, yes, x, CostOf(t, v, alpha) - CostOf(t, q, alpha));
  }

  lemma BetweenPrices(q: seq<real>, v: seq<real>, p: seq<real>, p': seq<real>, idx: nat, yes: bool, x: real, d: real)
    requires |q| == |p| == |p'| && v == After(q, idx, yes, x)
    requires Dot(v, p) - Dot(q, p) <= d <= Dot(v, p') - Dot(q, p')
    ensures Between(p, p', idx, yes, x, d)
  {
    ValueMoved(q, v, p, idx, yes, x);
    ValueMoved(q, v, p', idx, yes, x);
  }

  /** A side can be bought when it has at least one outcome on it. */
  ghost predicate HasSide(q: seq<real>, idx: nat, yes: bool) {
    idx < |q| && (yes || |q| >= 2)
  }

  lemma SidePricePositive(t: ExpLog, q: seq<real>, alpha: real, idx: nat, yes: bool)
    requires t.Valid() && ValidVector(q, alpha) && HasSide(q, idx, yes)
    ensures SidePrice(PricesOf(t, q, alpha), idx, yes) > 0.0
  {
    PricesPositive(t, q, alpha);
    var member := if yes then idx else if idx == 0 then 1 else 0;
    SidePositive(PricesOf(t, q, alpha), idx, yes, member, |q|);
  }

  lemma AfterComposes(q: seq<real>, idx: nat, yes: bool, x: real, y: real)
    ensures After(After(q, idx, yes, x), idx, yes, y) == After(q, idx, yes, x + y)
  {
  }

  /** The cost of a purchase grows strictly with its size. */
  lemma CostGrows(t: ExpLog, q: seq<real>, alpha: real, idx: nat, yes: bool, x: real, y: real)
    requires t.Valid() && ValidVector(q, alpha) && HasSide(q, idx, yes) && 0.0 <= x < y
    ensures ValidVector(After(q, idx, yes, x), alpha) && ValidVector(After(q, idx, yes, y), alpha)
    ensures CostOf(t, After(q, idx, yes, x), alpha) < CostOf(t, After(q, idx, yes, y), alpha)
  {
    var v := After(q, idx, yes, x);
    AfterIsValid(q, alpha, idx, yes, x);
    AfterComposes(q, idx, yes, x, y - x);
    MoveCost(t, v, alpha, idx, yes, y - x);
    SidePricePositive(t, v, alpha, idx, yes);
    var p := SidePrice(PricesOf(t, v, alpha), idx, yes);
    assert (y - x) * p > 0.0;
    assert After(v, idx, yes, y - x) == After(q, idx, yes, y);
  }

  // ----- Bounds on the cost -----

  lemma CostAboveEachQuantity(t: ExpLog, q: seq<real>, alpha: real, i: nat)
    requires t.Valid() && ValidVector(q, alpha) && i < |q|
    ensures q[i] <= CostOf(t, q, alpha)
  {
    LiquidityPositive(q, alpha);
    var b := Liquidity(q, alpha);
    var x := Scores(q, b);
    var w := Weights(t, x);
    WeightsPositive(t, x);
    SumNonNegative(w, |w|);
    t.LnMonotone(w[i], Sum(w));
    t.LnOfExp(x[i]);
    MulMonotone(x[i], LogSumExp(t, x), b);
    assert q[i] / b * b == q[i];
  }

  /** A vector of weights bounded by e has log-sum at most ln e + ln n. */
  lemma LogSumBelow(t: ExpLog, w: seq<real>, e: real)
    requires t.Valid() && |w| > 0 && e > 0.0 && Sum(w) > 0.0
    requires forall i :: 0 <= i < |w| ==> w[i] <= e
    ensures t.ln(Sum(w)) <= t.ln(e) + t.ln(|w| as real)
  {
    var n := |w| as real;
    var top := seq(|w|, i => e);
    SumMonotone(w, top, |w|);
    SumAffine(w, top, 0.0, e, |w|);
    assert 0.0 * Sum(w) == 0.0;
    t.LnOfProduct(e, n);
    t.LnMonotone(Sum(w), e * n);
  }

  lemma Rescale(l: real, m: real, b: real, c: real)
    requires b > 0.0 && l <= m / b + c
    ensures b * l <= m + b * c
  {
    MulMonotone(l, m / b + c, b);
    assert (m / b + c) * b == m / b * b + b * c;
    assert m / b * b == m;
  }

  lemma CostBelow(t: ExpLog, q: seq<real>, alpha: real, m: real)
    requires t.Valid() && ValidVector(q, alpha)
    requires forall i :: 0 <= i < |q| ==> q[i] <= m
    ensures CostOf(t, q, alpha) <= m + Liquidity(q, alpha) * t.ln(|q| as real)
  {
    LiquidityPositive(q, alpha);
    var b := Liquidity(q, alpha);
    var x := Scores(q, b);
    var w := Weights(t, x);
    WeightsPositive(t, x);
    forall i | 0 <= i < |w| ensures w[i] <= t.exp(m / b) {
      QuotientMonotone(q[i], m, b);
      if x[i] < m / b {
        t.ExpIncreases(x[i], m / b);
      }
    }
    t.ExpPositive(m / b);
    LogSumBelow(t, w, t.exp(m / b));
    t.LnOfExp(m / b);
    Rescale(LogSumExp(t, x), m, b, t.ln(|q| as real));
  }

  /** max q <= C(q) <= max q + b ln n. */
  lemma CostBounds(t: ExpLog, q: seq<real>, alpha: real)
    requires t.Valid() && ValidVector(q, alpha)
    ensures MaxTo(q, |q|) <= CostOf(t, q, alpha)
            <= MaxTo(q, |q|) + Liquidity(q, alpha) * t.ln(|q| as real)
  {
    var m := MaxTo(q, |q|);
    MaxBounds(q, |q|);
    var i := 0;
    if m != 0.0 {
      i :| 0 <= i < |q| && q[i] == m;
    }
    CostAboveEachQuantity(t, q, alpha, i);
    CostBelow(t, q, alpha, m);
  }

  lemma QuotientMonotone(x: real, y: real, b: real)
    requires x <= y && b > 0.0
    ensures x / b <= y / b
  {
  }

  /** The most that a market of n outcomes seeded alike can lose. */
  function MaxLoss(t: ExpLog, alpha: real, n: nat, seed: real): real {
    alpha * (n as real) * seed * t.ln(n as real)
  }

  /** A freshly seeded market costs its seed plus alpha * n * seed * ln n. */
  lemma SeedCost(t: ExpLog, q: seq<real>, alpha: real, seed: real)
    requires t.Valid() && ValidVector(q, alpha)
    requires forall i :: 0 <= i < |q| ==> q[i] == seed
    ensures CostOf(t, q, alpha) == seed + MaxLoss(t, alpha, |q|, seed)
  {
    LiquidityPositive(q, alpha);
    var (b, n) := (Liquidity(q, alpha), |q| as real);
    SumOfConstant(q, seed, |q|);
    LogSumOfEqual(t, Scores(q, b), seed / b);
    SeedAlgebra(alpha, n, seed, b, t.ln(n));
  }

  lemma LogSumOfEqual(t: ExpLog, x: seq<real>, c: real)
    requires t.Valid() && |x| > 0 && forall i :: 0 <= i < |x| ==> x[i] == c
    ensures LogSumExp(t, x) == t.ln(|x| as real) + c
  {
    var (n, e, w) := (|x| as real, t.exp(c), Weights(t, x));
    SumOfConstant(w, e, |x|);
    t.ExpPositive(c);
    t.LnOfProduct(n, e);
    t.LnOfExp(c);
    assert Sum(w) == n * e;
  }

  lemma SeedAlgebra(alpha: real, n: real, seed: real, b: real, l: real)
    requires b > 0.0 && b == alpha * (n * seed)
    ensures b * (l + seed / b) == seed + alpha * n * seed * l
  {
    assert b * (l + seed / b) == b * l + seed / b * b;
    assert seed / b * b == seed;
    assert alpha * n * seed == b;
  }

  // ----- Runs of trades -----

  datatype Trade =
    | Buy(outcome: nat, yes: bool, shares: real, paid: real)
    | CashOut(outcome: nat, yes: bool, shares: real, received: real)

  function Traded(q: seq<real>, tr: Trade): seq<real> {
    After(q, tr.outcome, tr.yes == tr.Buy?, tr.shares)
  }

  /**
    What the engine accepts, when each cost it computes is within slack / 2 of the exact one: a
    buyer pays at least the increase in cost, and a seller of x shares is paid at most x less the
    cost of hedging them on the opposite side.
  */
  ghost predicate Legal(t: ExpLog, alpha: real, q: seq<real>, tr: Trade, slack: real)
    requires t.Valid() && ValidVector(q, alpha)
  {
    && tr.outcome < |q|
    && tr.shares >= 0.0
    && ValidVector(Traded(q, tr), alpha)
    && var move := CostOf(t, Traded(q, tr), alpha) - CostOf(t, q, alpha);
       match tr
       case Buy(_, _, _, paid) => move <= paid + slack
       case CashOut(_, _, shares, received) => received <= shares - move + slack
  }

  function QuantitiesAfter(q: seq<real>, run: seq<Trade>): seq<real> {
    if run == [] then q else Traded(QuantitiesAfter(q, run[..|run| - 1]), run[|run| - 1])
  }

  ghost predicate LegalRun(t: ExpLog, alpha: real, q: seq<real>, run: seq<Trade>, slack: real)
    requires t.Valid() && ValidVector(q, alpha)
  {
    run == [] ||
    (var before := run[..|run| - 1];
     && LegalRun(t, alpha, q, before, slack)
     && ValidVector(QuantitiesAfter(q, before), alpha)
     && Legal(t, alpha, QuantitiesAfter(q, before), run[|run| - 1], slack))
  }

  /** Money a trade brings in; negative for a cash-out. */
  function Paid(tr: Trade): real {
    match tr case Buy(_, _, _, paid) => paid case CashOut(_, _, _, received) => -received
  }

  /** Money received by the house less money paid out. */
  function Takings(run: seq<Trade>): real {
    if run == [] then 0.0
    else Takings(run[..|run| - 1]) + Paid(run[|run| - 1])
  }

  /** Shares that pay if outcome i wins: those on yes bets on i and on no bets on any other
      outcome, less the ones cashed out. */
  function Open(run: seq<Trade>, i: nat): real {
    if run == [] then 0.0
    else
      var last := run[|run| - 1];
      Open(run[..|run| - 1], i) +
      (if (last.outcome == i) != last.yes then 0.0 else if last.Buy? then last.shares else -last.shares)
  }

  /** Shares cashed out on any outcome. */
  function CashedOut(run: seq<Trade>): real {
    if run == [] then 0.0
    else CashedOut(run[..|run| - 1]) + (if run[|run| - 1].CashOut? then run[|run| - 1].shares else 0.0)
  }

  /** Every quantity is its start, plus the open shares on it, plus all shares ever cashed out. */
  lemma {:induction false} QuantitiesOfRun(q: seq<real>, run: seq<Trade>)
    ensures |QuantitiesAfter(q, run)| == |q|
    ensures forall i :: 0 <= i < |q| ==> QuantitiesAfter(q, run)[i] == q[i] + Open(run, i) + CashedOut(run)
  {
    if run != [] {
      QuantitiesOfRun(q, run[..|run| - 1]);
    }
  }

  /** n times the slack. */
  function Slacks(slack: real, n: nat): real {
    if n == 0 then 0.0 else Slacks(slack, n - 1) + slack
  }

  lemma {:induction false} SlacksIsProduct(slack: real, n: nat)
    ensures Slacks(slack, n) == slack * (n as real)
  {
    if n > 0 {
      SlacksIsProduct(slack, n - 1);
      assert slack * ((n - 1) as real + 1.0) == slack * ((n - 1) as real) + slack;
    }
  }

  /**
    The run invariant: the takings cover the growth in cost less the shares cashed out.
  */
  lemma {:induction false} RunInvariant(t: ExpLog, alpha: real, q: seq<real>, run: seq<Trade>, slack: real)
    requires t.Valid() && ValidVector(q, alpha) && LegalRun(t, alpha, q, run, slack)
    ensures ValidVector(QuantitiesAfter(q, run), alpha) && CashedOut(run) >= 0.0
    ensures Takings(run) >= CostOf(t, QuantitiesAfter(q, run), alpha) - CostOf(t, q, alpha)
                            - CashedOut(run) - Slacks(slack, |run|)
  {
    if run != [] {
      var before := run[..|run| - 1];
      var (q1, last) := (QuantitiesAfter(q, before), run[|run| - 1]);
      RunInvariant(t, alpha, q, before, slack);
      TradePaysForItself(t, alpha, q1, last, slack);
      NextTakings(Takings(before), Paid(last), CostOf(t, q, alpha), CostOf(t, q1, alpha), CostOf(t, Traded(q1, last), alpha),
                  CashedOut(before), if last.CashOut? then last.shares else 0.0,
                  Slacks(slack, |before|), slack);
    }
  }

  lemma NextTakings(takings: real, paid: real, c0: real, c1: real, c2: real, cashed: real, more: real, slacks: real, slack: real)
    requires takings >= c1 - c0 - cashed - slacks && paid + more + slack >= c2 - c1
    ensures takings + paid >= c2 - c0 - (cashed + more) - (slacks + slack)
  {
  }

  lemma TradePaysForItself(t: ExpLog, alpha: real, q: seq<real>, tr: Trade, slack: real)
    requires t.Valid() && ValidVector(q, alpha) && Legal(t, alpha, q, tr, slack)
    ensures ValidVector(Traded(q, tr), alpha)
    ensures Paid(tr) + (if tr.CashOut? then tr.shares else 0.0) + slack >=
            CostOf(t, Traded(q, tr), alpha) - CostOf(t, q, alpha)
  {
  }

  /**
    Bounded loss over every run from a freshly seeded market: whatever outcome wins, the takings
    cover the open shares that pay except for at most alpha * n * seed * ln n (plus the slack).
  */
  lemma BoundedLoss(t: ExpLog, alpha: real, q: seq<real>, seed: real, run: seq<Trade>, slack: real, winner: nat)
    requires t.Valid() && ValidVector(q, alpha) && winner < |q|
    requires forall i :: 0 <= i < |q| ==> q[i] == seed
    requires LegalRun(t, alpha, q, run, slack)
    ensures Takings(run) >= Open(run, winner)
                            - MaxLoss(t, alpha, |q|, seed)
                            - Slacks(slack, |run|)
  {
    RunInvariant(t, alpha, q, run, slack);
    CostOfWinner(t, alpha, q, run, slack, winner);
    SeedCost(t, q, alpha, seed);
  }

  lemma CostOfWinner(t: ExpLog, alpha: real, q: seq<real>, run: seq<Trade>, slack: real, winner: nat)
    requires t.Valid() && ValidVector(q, alpha) && winner < |q|
    requires ValidVector(QuantitiesAfter(q, run), alpha)
    ensures CostOf(t, QuantitiesAfter(q, run), alpha) >= q[winner] + Open(run, winner) + CashedOut(run)
  {
    QuantitiesOfRun(q, run);
    CostAboveEachQuantity(t, QuantitiesAfter(q, run), alpha, winner);
  }

  function OpenVector(run: seq<Trade>, n: nat): seq<real> {
    seq(n, i requires 0 <= i < n => Open(run, i))
  }

  /** v = open + q + k entry-wise, valued at p. */
  lemma {:induction false} ValueOfGrowth(open: seq<real>, q: seq<real>, v: seq<real>, p: seq<real>, c: real, k: nat)
    requires k <= |open| == |q| == |v| == |p|
    requires forall i :: 0 <= i < k ==> v[i] == q[i] + open[i] + c
    ensures DotTo(v, p, k) - DotTo(q, p, k) == DotTo(open, p, k) + c * SumTo(p, k)
  {
    if k > 0 {
      ValueOfGrowth(open, q, v, p, c, k - 1);
      var j := k - 1;
      assert (q[j] + open[j] + c) * p[j] == q[j] * p[j] + open[j] * p[j] + c * p[j];
      assert c * (SumTo(p, j) + p[j]) == c * SumTo(p, j) + c * p[j];
    }
  }

  /** Growing every outcome by c and outcome i by a further open[i] costs at least c plus the
      further growth valued at the opening prices. */
  lemma CostOfGrowth(t: ExpLog, alpha: real, q: seq<real>, v: seq<real>, open: seq<real>, c: real)
    requires t.Valid() && ValidVector(q, alpha) && ValidVector(v, alpha)
    requires |v| == |q| == |open| && c >= 0.0
    requires forall i :: 0 <= i < |q| ==> v[i] == q[i] + open[i] + c
    ensures |PricesOf(t, q, alpha)| == |q|
    ensures CostOf(t, v, alpha) - CostOf(t, q, alpha) >= Dot(open, PricesOf(t, q, alpha)) + c
  {
    var p := PricesOf(t, q, alpha);
    PricesSupportCost(t, q, v, alpha);
    PricesPositive(t, q, alpha);
    ValueOfGrowth(open, q, v, p, c, |q|);
    MulMonotone(1.0, Sum(p), c);
  }

  /** From any state, the takings are at least the open shares valued at the opening prices. */
  lemma OpenSharesWerePaidFor(t: ExpLog, alpha: real, q: seq<real>, run: seq<Trade>, slack: real)
    requires t.Valid() && ValidVector(q, alpha) && LegalRun(t, alpha, q, run, slack)
    ensures |PricesOf(t, q, alpha)| == |q|
    ensures Takings(run) >= Dot(OpenVector(run, |q|), PricesOf(t, q, alpha)) - Slacks(slack, |run|)
  {
    RunInvariant(t, alpha, q, run, slack);
    QuantitiesOfRun(q, run);
    CostOfGrowth(t, alpha, q, QuantitiesAfter(q, run), OpenVector(run, |q|), CashedOut(run));
  }

  /**
    No sure profit: if no outcome has been sold short, then on some outcome the open shares pay
    no more than was taken for them.  In particular a run that cashes everything out never
    profits.
  */
  lemma NoSureProfit(t: ExpLog, alpha: real, q: seq<real>, run: seq<Trade>, slack: real)
    requires t.Valid() && ValidVector(q, alpha) && LegalRun(t, alpha, q, run, slack)
    requires forall i :: 0 <= i < |q| ==> Open(run, i) >= 0.0
    ensures exists i :: 0 <= i < |q| && Open(run, i) <= Takings(run) + Slacks(slack, |run|)
  {
    OpenSharesWerePaidFor(t, alpha, q, run, slack);
    PricesPositive(t, q, alpha);
    var open := OpenVector(run, |q|);
    var i := SmallestIndex(open);
    SmallestBelowValue(open, PricesOf(t, q, alpha), open[i]);
    assert Open(run, i) == open[i];
  }

  lemma SmallestBelowValue(open: seq<real>, p: seq<real>, m: real)
    requires |open| == |p| && m >= 0.0 && Sum(p) >= 1.0
    requires forall i :: 0 <= i < |p| ==> p[i] >= 0.0 && m <= open[i]
    ensures m <= Dot(open, p)
  {
    var flat := seq(|p|, j => m);
    DotMonotone(flat, open, p, |p|);
    DotCommutes(flat, p, |p|);
    DotOfConstant(p, flat, m, |p|);
    MulMonotone(1.0, Sum(p), m);
  }

  lemma {:induction false} DotOfConstant(p: seq<real>, c: seq<real>, m: real, k: nat)
    requires k <= |p| && k <= |c|
    requires forall i :: 0 <= i < k ==> c[i] == m
    ensures DotTo(p, c, k) == m * SumTo(p, k)
  {
    if k > 0 {
      DotOfConstant(p, c, m, k - 1);
      assert m * (SumTo(p, k - 1) + p[k - 1]) == m * SumTo(p, k - 1) + m * p[k - 1];
    }
  }

  lemma {:induction false} SmallestIndex(v: seq<real>) returns (i: nat)
    requires |v| > 0
    ensures i < |v| && forall j :: 0 <= j < |v| ==> v[i] <= v[j]
  {
    i := 0;
    for k := 1 to |v|
      invariant i < k && forall j :: 0 <= j < k ==> v[i] <= v[j]
    {
      if v[k] < v[i] {
        i := k;
      }
    }
  }
}
