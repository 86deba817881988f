/**
 * `run_dcf_model` and the verdict: a two-stage discounted-cash-flow
 * valuation. Stage one compounds the starting cash flow for `period` years;
 * stage two is a Gordon-growth terminal value on the last projected year.
 * Both are discounted to today, debt is subtracted, cash added, and the
 * equity value is divided by the share count. The margin of safety compares
 * the result with the market price.
 */
module Valuation {
  import opened RealMath
  import Normalizer

  /** The growth rate taken for the years after the projection period. */
  const PerpetualRate: real := 0.025

  // ---------------------------------------------------------------------
  // Stage one: the projection

  /** The projected cash flows: entry `i` is year `i + 1`, compounded that many times. */
  function Projection(cf: real, g: real, period: nat): (flows: seq<real>)
    ensures |flows| == period
  {
    seq(period, i requires 0 <= i < period => cf * Pow(1.0 + g, i + 1))
  }

  /**
   * The for loop that fills `future_cash_flows`: for year 1 to `period`,
   * append the starting cash flow compounded to that year.
   */
  method ProjectCashFlows(cf: real, g: real, period: nat) returns (flows: seq<real>)
    ensures |flows| == period
    ensures flows == Projection(cf, g, period)
  {
    flows := [];
    for i := 1 to period + 1
      invariant |flows| == i - 1
      invariant forall k :: 0 <= k < i - 1 ==> flows[k] == cf * Pow(1.0 + g, k + 1)
    {
      var projected := cf * Pow(1.0 + g, i);
      flows := flows + [projected];
    }
    assert forall k :: 0 <= k < period ==> flows[k] == Projection(cf, g, period)[k];
  }

  /** Each year's projection is the previous year's grown by one more year. */
  lemma {:induction false} ProjectionCompounds(cf: real, g: real, period: nat, i: nat)
    requires i + 1 < period
    ensures Projection(cf, g, period)[0] == cf * (1.0 + g)
    ensures Projection(cf, g, period)[i + 1] == Projection(cf, g, period)[i] * (1.0 + g)
  {
    assert Pow(1.0 + g, 1) == 1.0 + g;
    assert Pow(1.0 + g, i + 2) == Pow(1.0 + g, i + 1) * (1.0 + g);
  }

  // ---------------------------------------------------------------------
  // Discounting and the terminal value

  /** `amount / (1 + r) ** year`. */
  function DiscountedValue(amount: real, r: real, year: nat): (pv: real)
    requires 1.0 + r != 0.0
  {
    PowNonzero(1.0 + r, year);
    amount / Pow(1.0 + r, year)
  }

  /** The discounting comprehension: the flow at index `i` belongs to year `i + 1`. */
  function Discounted(flows: seq<real>, r: real): (d: seq<real>)
    requires 1.0 + r != 0.0
    ensures |d| == |flows|
  {
    seq(|flows|, i requires 0 <= i < |flows| => DiscountedValue(flows[i], r, i + 1))
  }

  /** Gordon growth: the last projected flow, grown once more, capitalised at `r - p`. */
  function TerminalValue(last: real, r: real, p: real): (tv: real)
    requires r != p
  {
    last * (1.0 + p) / (r - p)
  }

  /** `total_pv_cf`: the discounted projection plus the discounted terminal value. */
  function PresentValue(cf: real, g: real, r: real, period: nat, p: real): (pv: real)
    requires period >= 1 && 1.0 + r != 0.0 && r != p
  {
    var flows := Projection(cf, g, period);
    Sum(Discounted(flows, r)) + DiscountedValue(TerminalValue(flows[period - 1], r, p), r, period)
  }

  /** The value `run_dcf_model` returns: the equity bridge divided by the share count. */
  function IntrinsicValue(cf: real, g: real, r: real, period: nat, p: real,
                          debt: real, cash: real, shares: real): (iv: real)
    requires period >= 1 && 1.0 + r != 0.0 && r != p && shares != 0.0
  {
    (PresentValue(cf, g, r, period, p) - debt + cash) / shares
  }

  /**
   * `run_dcf_model(data, growth_rate, discount_rate, period, perpetual_rate)`.
   * The source has no guards: the terminal value divides by `r - p`, the
   * per-share figure by the share count, and `future_cash_flows[-1]` needs
   * at least one projected year.
   */
  method RunDcfModel(data: Normalizer.FinancialData, g: real, r: real, period: nat, p: real)
    returns (iv: real)
    requires data.Data?
    requires period >= 1 && 1.0 + r != 0.0 && r != p && data.shares != 0.0
    ensures iv == IntrinsicValue(data.startingCashFlow, g, r, period, p,
                                 data.debt, data.cash, data.shares)
  {
    var cashFlow := data.startingCashFlow;
    var shares := data.shares;
    var debt := data.debt;
    var cash := data.cash;

    var futureCashFlows := ProjectCashFlows(cashFlow, g, period);
    var lastProjectedCf := futureCashFlows[|futureCashFlows| - 1];
    var terminalValue := lastProjectedCf * (1.0 + p) / (r - p);

    var discountedCf := Discounted(futureCashFlows, r);
    PowNonzero(1.0 + r, period);
    var discountedTerminalValue := terminalValue / Pow(1.0 + r, period);
    assert futureCashFlows[period - 1] == lastProjectedCf;
    assert terminalValue == TerminalValue(lastProjectedCf, r, p);
    assert discountedTerminalValue == DiscountedValue(terminalValue, r, period);

    var totalPvCf := Sum(discountedCf) + discountedTerminalValue;
    var equityValue := totalPvCf - debt + cash;
    iv := equityValue / shares;
  }

  // ---------------------------------------------------------------------
  // Closed forms

  /** List index `year - 1` holds the flow of year `year`, discounted `year` times. */
  lemma {:induction false} DiscountedAt(flows: seq<real>, r: real, year: nat)
    requires 1.0 + r != 0.0 && 1 <= year <= |flows|
    ensures Discounted(flows, r)[year - 1] == DiscountedValue(flows[year - 1], r, year)
  {
  }

  /** The growth-over-discount factor `(1 + g) / (1 + r)`. */
  function Factor(g: real, r: real): (q: real)
    requires 1.0 + r != 0.0
  {
    (1.0 + g) / (1.0 + r)
  }

  /**
   * Year `year` (list index `year - 1`) contributes the starting cash flow
   * times `Factor(g, r) ** year`.
   */
  lemma {:induction false} DiscountedProjectionAt(cf: real, g: real, r: real, period: nat, year: nat)
    requires 1.0 + r != 0.0 && 1 <= year <= period
    ensures Discounted(Projection(cf, g, period), r)[year - 1]
            == cf * Pow(Factor(g, r), year)
  {
    var f := Projection(cf, g, period);
    DiscountedAt(f, r, year);
    ProjectionAt(cf, g, period, year);
    PowQuotient(1.0 + g, 1.0 + r, year);
    DiscountedFlow(f[year - 1], cf, Pow(1.0 + g, year), Pow(1.0 + r, year), Pow(Factor(g, r), year));
  }

  /** List index `year - 1` holds the flow of year `year`. */
  lemma {:induction false} ProjectionAt(cf: real, g: real, period: nat, year: nat)
    requires 1 <= year <= period
    ensures Projection(cf, g, period)[year - 1] == cf * Pow(1.0 + g, year)
  {
  }

  lemma DiscountedFlow(x: real, c: real, a: real, b: real, q: real)
    requires b != 0.0 && x == c * a && q == a / b
    ensures x / b == c * q
  {
  }

  /**
   * The discounted projection is a geometric series in `q`: it adds up to
   * the closed-form annuity `cf q (q^n - 1) / (q - 1)`, or `n cf` when `q = 1`.
   */
  lemma {:induction false} SumOfDiscountedProjection(cf: real, g: real, r: real, n: nat)
    requires 1.0 + r != 0.0
    ensures Sum(Discounted(Projection(cf, g, n), r)) == Annuity(cf, Factor(g, r), n)
  {
    DiscountedProjectionSum(cf, g, r, n);
    PowerSumIsAnnuity(cf, Factor(g, r), n);
  }

  /** The discounted projection adds up to `cf (q + q^2 + ... + q^n)`. */
  lemma {:induction false} DiscountedProjectionSum(cf: real, g: real, r: real, n: nat)
    requires 1.0 + r != 0.0
    ensures Sum(Discounted(Projection(cf, g, n), r)) == cf * PowerSum(Factor(g, r), n)
  {
    DiscountedProjectionEntries(cf, g, r, n);
    SumOfPowers(Discounted(Projection(cf, g, n), r), cf, Factor(g, r), n);
  }

  lemma {:induction false} DiscountedProjectionEntries(cf: real, g: real, r: real, n: nat)
    requires 1.0 + r != 0.0
    ensures GeometricTerms(Discounted(Projection(cf, g, n), r), cf, Factor(g, r))
  {
    forall year | 1 <= year <= n
      ensures Discounted(Projection(cf, g, n), r)[year - 1] == cf * Pow(Factor(g, r), year)
    {
      DiscountedProjectionAt(cf, g, r, n, year);
    }
  }

  /** `c q + c q^2 + ... + c q^n` in closed form. */
  function Annuity(c: real, q: real, n: nat): (s: real)
  {
    if q == 1.0 then c * (n as real) else GeometricFormula(c, q, Pow(q, n))
  }

  /** `c q (y - 1) / (q - 1)`, the annuity formula in terms of the last power `y = q^n`. */
  function GeometricFormula(c: real, q: real, y: real): (s: real)
    requires q != 1.0
  {
    c * q * (y - 1.0) / (q - 1.0)
  }

  /** `c (q + ... + q^n)` is the closed-form annuity. */
  lemma {:induction false} PowerSumIsAnnuity(c: real, q: real, n: nat)
    ensures c * PowerSum(q, n) == Annuity(c, q, n)
  {
    PowerSumClosedForm(q, n);
    if q != 1.0 {
      AnnuityOfClosedForm(c, PowerSum(q, n), q, Pow(q, n));
    }
  }

  lemma AnnuityOfClosedForm(c: real, w: real, q: real, y: real)
    requires q != 1.0 && w * (q - 1.0) == q * (y - 1.0)
    ensures c * w == GeometricFormula(c, q, y)
  {
    assert (c * w) * (q - 1.0) == c * q * (y - 1.0);
    CancelDivisor(c * w, c * q * (y - 1.0), q - 1.0);
  }

  /** Discounting the terminal value is capitalising the discounted last flow. */
  lemma {:induction false} DiscountingCommutesWithTerminalValue(last: real, r: real, p: real, year: nat)
    requires 1.0 + r != 0.0 && r != p
    ensures DiscountedValue(TerminalValue(last, r, p), r, year)
            == TerminalValue(DiscountedValue(last, r, year), r, p)
  {
    PowNonzero(1.0 + r, year);
    CapitalisationScales(last, Pow(1.0 + r, year), r, p);
  }

  lemma CapitalisationScales(x: real, b: real, r: real, p: real)
    requires b != 0.0 && r != p
    ensures TerminalValue(x, r, p) / b == TerminalValue(x / b, r, p)
  {
    var u, v := 1.0 + p, r - p;
    assert x * (1.0 + p) == x * u;
    assert (x / b) * (1.0 + p) == (x / b) * u;
    assert (x * u) / v / b == ((x / b) * u) / v;
  }

  /**
   * The present value in closed form, with `q = (1 + g) / (1 + r)`: a
   * geometric annuity of the discounted flows plus the Gordon value of the
   * starting flow, discounted by `q ** period`.
   */
  function ClosedFormPresentValue(cf: real, g: real, r: real, period: nat, p: real): (pv: real)
    requires 1.0 + r != 0.0 && r != p
  {
    Annuity(cf, Factor(g, r), period) + TerminalValue(cf, r, p) * Pow(Factor(g, r), period)
  }

  /** The year-by-year computation agrees with the closed form. */
  lemma {:induction false} PresentValueClosedForm(cf: real, g: real, r: real, period: nat, p: real)
    requires period >= 1 && 1.0 + r != 0.0 && r != p
    ensures PresentValue(cf, g, r, period, p) == ClosedFormPresentValue(cf, g, r, period, p)
  {
    SumOfDiscountedProjection(cf, g, r, period);
    DiscountedTerminalValue(cf, g, r, period, p);
  }

  /** The discounted terminal value is the Gordon value of the starting flow times `q ** period`. */
  lemma {:induction false} DiscountedTerminalValue(cf: real, g: real, r: real, period: nat, p: real)
    requires period >= 1 && 1.0 + r != 0.0 && r != p
    ensures DiscountedValue(TerminalValue(Projection(cf, g, period)[period - 1], r, p), r, period)
            == TerminalValue(cf, r, p) * Pow(Factor(g, r), period)
  {
    var q := Factor(g, r);
    var f := Projection(cf, g, period);
    DiscountedProjectionAt(cf, g, r, period, period);
    DiscountedAt(f, r, period);
    DiscountingCommutesWithTerminalValue(f[period - 1], r, p, period);
    SameTerminalValue(DiscountedValue(f[period - 1], r, period), cf * Pow(q, period), r, p);
    TerminalValueIsLinear(cf, Pow(q, period), r, p);
  }

  lemma SameTerminalValue(x: real, y: real, r: real, p: real)
    requires r != p && x == y
    ensures TerminalValue(x, r, p) == TerminalValue(y, r, p)
  {
  }

  /** The Gordon value is linear in the flow it capitalises. */
  lemma TerminalValueIsLinear(x: real, y: real, r: real, p: real)
    requires r != p
    ensures TerminalValue(x * y, r, p) == TerminalValue(x, r, p) * y
  {
  }

  // ---------------------------------------------------------------------
  // Monotonicity

  /** With a positive cash flow, a higher growth rate raises every discounted year and the terminal value. */
  lemma {:induction false} PresentValueIncreasesWithGrowth(cf: real, g1: real, g2: real, r: real, period: nat, p: real)
    requires cf > 0.0 && -1.0 < g1 < g2
    requires period >= 1 && -1.0 < p < r
    ensures PresentValue(cf, g1, r, period, p) < PresentValue(cf, g2, r, period, p)
  {
    var f1, f2 := Projection(cf, g1, period), Projection(cf, g2, period);
    forall k | 0 <= k < period ensures f1[k] < f2[k] {
      PowStrictlyIncreasing(1.0 + g1, 1.0 + g2, k + 1);
      ScaleStrictlyIncreasing(cf, Pow(1.0 + g1, k + 1), Pow(1.0 + g2, k + 1));
    }
    DiscountingKeepsOrder(f1, f2, r);
    SumStrictlyIncreasing(Discounted(f1, r), Discounted(f2, r));
    TerminalValueIncreasesWithLastFlow(f1[period - 1], f2[period - 1], r, period, p);
  }

  /** Discounting at a rate above -100% keeps a strict order between flows year by year. */
  lemma {:induction false} DiscountingKeepsOrder(f1: seq<real>, f2: seq<real>, r: real)
    requires |f1| == |f2| && r > -1.0
    requires forall k :: 0 <= k < |f1| ==> f1[k] < f2[k]
    ensures forall k :: 0 <= k < |f1| ==> Discounted(f1, r)[k] < Discounted(f2, r)[k]
  {
    forall k | 0 <= k < |f1| ensures Discounted(f1, r)[k] < Discounted(f2, r)[k] {
      PowPositive(1.0 + r, k + 1);
      DivideStrictlyIncreasing(f1[k], f2[k], Pow(1.0 + r, k + 1));
    }
  }

  /** A larger last flow gives a larger discounted terminal value. */
  lemma {:induction false} TerminalValueIncreasesWithLastFlow(last1: real, last2: real, r: real, period: nat, p: real)
    requires last1 < last2 && -1.0 < p < r
    ensures DiscountedValue(TerminalValue(last1, r, p), r, period)
            < DiscountedValue(TerminalValue(last2, r, p), r, period)
  {
    var u := 1.0 + p;
    ScaleStrictlyIncreasing(u, last1, last2);
    assert last1 * (1.0 + p) == last1 * u && last2 * (1.0 + p) == last2 * u;
    DivideStrictlyIncreasing(last1 * (1.0 + p), last2 * (1.0 + p), r - p);
    PowPositive(1.0 + r, period);
    DivideStrictlyIncreasing(TerminalValue(last1, r, p), TerminalValue(last2, r, p), Pow(1.0 + r, period));
  }

  /** With a positive cash flow, a higher discount rate lowers every discounted year and the terminal value. */
  lemma {:induction false} PresentValueDecreasesWithDiscountRate(cf: real, g: real, r1: real, r2: real, period: nat, p: real)
    requires cf > 0.0 && g > -1.0
    requires period >= 1 && -1.0 < p < r1 < r2
    ensures PresentValue(cf, g, r2, period, p) < PresentValue(cf, g, r1, period, p)
  {
    var f := Projection(cf, g, period);
    forall k | 0 <= k < period ensures f[k] > 0.0 {
      PowPositive(1.0 + g, k + 1);
      MulPositive(cf, Pow(1.0 + g, k + 1));
    }
    HigherRateDiscountsMore(f, r1, r2);
    SumStrictlyIncreasing(Discounted(f, r2), Discounted(f, r1));
    TerminalValueDecreasesWithRate(f[period - 1], r1, r2, period, p);
  }

  /** A higher discount rate makes every positive flow worth strictly less today. */
  lemma {:induction false} HigherRateDiscountsMore(f: seq<real>, r1: real, r2: real)
    requires -1.0 < r1 < r2
    requires forall k :: 0 <= k < |f| ==> f[k] > 0.0
    ensures forall k :: 0 <= k < |f| ==> Discounted(f, r2)[k] < Discounted(f, r1)[k]
  {
    forall k | 0 <= k < |f| ensures Discounted(f, r2)[k] < Discounted(f, r1)[k] {
      PowStrictlyIncreasing(1.0 + r1, 1.0 + r2, k + 1);
      DivideByLarger(f[k], Pow(1.0 + r1, k + 1), Pow(1.0 + r2, k + 1));
    }
  }

  /** For a positive last flow, a higher discount rate lowers the discounted terminal value. */
  lemma {:induction false} TerminalValueDecreasesWithRate(last: real, r1: real, r2: real, period: nat, p: real)
    requires last > 0.0 && -1.0 < p < r1 < r2
    ensures DiscountedValue(TerminalValue(last, r2, p), r2, period)
            < DiscountedValue(TerminalValue(last, r1, p), r1, period)
  {
    var x := last * (1.0 + p);
    MulPositive(last, 1.0 + p);
    var tv1, tv2 := TerminalValue(last, r1, p), TerminalValue(last, r2, p);
    assert tv1 == x / (r1 - p) && tv2 == x / (r2 - p);
    DivideByLarger(x, r1 - p, r2 - p);
    DividePositive(x, r2 - p);
    if period == 0 {
      assert Pow(1.0 + r1, 0) == 1.0 && Pow(1.0 + r2, 0) == 1.0;
    } else {
      PowStrictlyIncreasing(1.0 + r1, 1.0 + r2, period);
      var b1, b2 := Pow(1.0 + r1, period), Pow(1.0 + r2, period);
      DivideByLarger(tv2, b1, b2);
      DivideStrictlyIncreasing(tv2, tv1, b1);
    }
  }

  /** Raising the growth rate strictly raises the intrinsic value per share. */
  lemma {:induction false} IntrinsicValueIncreasesWithGrowth(cf: real, g1: real, g2: real, r: real, period: nat, p: real,
                                          debt: real, cash: real, shares: real)
    requires cf > 0.0 && shares > 0.0 && -1.0 < g1 < g2
    requires period >= 1 && -1.0 < p < r
    ensures IntrinsicValue(cf, g1, r, period, p, debt, cash, shares)
            < IntrinsicValue(cf, g2, r, period, p, debt, cash, shares)
  {
    PresentValueIncreasesWithGrowth(cf, g1, g2, r, period, p);
    DivideStrictlyIncreasing(PresentValue(cf, g1, r, period, p) - debt + cash,
                             PresentValue(cf, g2, r, period, p) - debt + cash, shares);
  }

  /** Raising the discount rate strictly lowers the intrinsic value per share. */
  lemma {:induction false} IntrinsicValueDecreasesWithDiscountRate(cf: real, g: real, r1: real, r2: real, period: nat, p: real,
                                                debt: real, cash: real, shares: real)
    requires cf > 0.0 && shares > 0.0 && g > -1.0
    requires period >= 1 && -1.0 < p < r1 < r2
    ensures IntrinsicValue(cf, g, r2, period, p, debt, cash, shares)
            < IntrinsicValue(cf, g, r1, period, p, debt, cash, shares)
  {
    PresentValueDecreasesWithDiscountRate(cf, g, r1, r2, period, p);
    DivideStrictlyIncreasing(PresentValue(cf, g, r2, period, p) - debt + cash,
                             PresentValue(cf, g, r1, period, p) - debt + cash, shares);
  }

  /**
   * The five-year example: a starting cash flow of 1,000,000 grown at 8%
   * reaches 1,469,328.0768 in year 5; capitalised at 11% against 2.5%
   * perpetual growth that is about 17,718,367.98.
   */
  lemma FiveYearExample()
    ensures Projection(1000000.0, 0.08, 5)[4] == 1469328.0768
    ensures 17718367.98 < TerminalValue(1469328.0768, 0.11, PerpetualRate) < 17718367.99
  {
    assert Pow(1.08, 5) == 1.4693280768 by {
      assert Pow(1.08, 1) == 1.08;
      assert Pow(1.08, 2) == 1.1664;
      assert Pow(1.08, 3) == 1.259712;
      assert Pow(1.08, 4) == 1.36048896;
    }
  }

  /**
   * The same example carried to the per-share figure: with no debt, no cash
   * and 1,000,000 shares the intrinsic value is about 15.1239.
   */
  lemma FiveYearIntrinsicValue()
    ensures 15.1238 < IntrinsicValue(1000000.0, 0.08, 0.11, 5, PerpetualRate, 0.0, 0.0, 1000000.0) < 15.1239
  {
    PresentValueClosedForm(1000000.0, 0.08, 0.11, 5, PerpetualRate);
    var q := Factor(0.08, 0.11);
    assert q == 36.0 / 37.0;
    assert Pow(q, 5) == 60466176.0 / 69343957.0 by {
      assert Pow(q, 1) == 36.0 / 37.0;
      assert Pow(q, 2) == 1296.0 / 1369.0;
      assert Pow(q, 3) == 46656.0 / 50653.0;
      assert Pow(q, 4) == 1679616.0 / 1874161.0;
    }
    assert TerminalValue(1000000.0, 0.11, PerpetualRate) == 1025000.0 / 0.085;
    assert 15123899.86 < PresentValue(1000000.0, 0.08, 0.11, 5, PerpetualRate) < 15123899.87;
  }

  // ---------------------------------------------------------------------
  // Margin of safety and verdict

  datatype Verdict = Undervalued | Overvalued

  /** `(intrinsic_value - current_price) / current_price`. */
  function MarginOfSafety(iv: real, price: real): (m: real)
    requires price != 0.0
    ensures price * (1.0 + m) == iv
  {
    (iv - price) / price
  }

  /** Undervalued exactly when the margin is strictly positive. */
  function Judge(iv: real, price: real): (v: Verdict)
    requires price != 0.0
    ensures price > 0.0 ==> (v == Undervalued <==> iv > price)
    ensures price < 0.0 ==> (v == Undervalued <==> iv < price)
  {
    if MarginOfSafety(iv, price) > 0.0 then Undervalued else Overvalued
  }

  /** An intrinsic value equal to the price has margin 0 and is not undervalued. */
  lemma ZeroMarginIsOvervalued(price: real)
    requires price != 0.0
    ensures MarginOfSafety(price, price) == 0.0
    ensures Judge(price, price) == Overvalued
  {
  }

  /**
   * The valuation step of the page: convert the percentage inputs, choose
   * 5 or 10 years, run the model and judge the result against the price.
   * The input widgets do not accept negative rates.
   */
  method Assess(data: Normalizer.FinancialData, growthPercent: real, discountPercent: real, tenYears: bool)
    returns (iv: real, margin: real, verdict: Verdict)
    requires data.Data? && data.shares != 0.0 && data.price != 0.0
    requires discountPercent >= 0.0 && discountPercent / 100.0 != PerpetualRate
    ensures iv == IntrinsicValue(data.startingCashFlow, growthPercent / 100.0, discountPercent / 100.0,
                                 if tenYears then 10 else 5, PerpetualRate,
                                 data.debt, data.cash, data.shares)
    ensures margin == MarginOfSafety(iv, data.price)
    ensures verdict == Judge(iv, data.price)
    ensures data.price > 0.0 ==> (verdict == Undervalued <==> iv > data.price)
  {
    var growthRate := growthPercent / 100.0;
    var discountRate := discountPercent / 100.0;
    var period: nat := if tenYears then 10 else 5;
    iv := RunDcfModel(data, growthRate, discountRate, period, PerpetualRate);
    margin := (iv - data.price) / data.price;
    verdict := if margin > 0.0 then Undervalued else Overvalued;
  }
}
