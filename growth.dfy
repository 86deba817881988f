/**
 * `calculate_historical_growth`: reverse the free-cash-flow series (the
 * provider lists the newest period first), take period-over-period
 * percentage changes, drop the undefined ones, keep the rates strictly
 * below 200% and average them. Division by a zero base follows floating
 * point: a positive or negative numerator gives an infinite change, 0/0 a
 * NaN that is dropped.
 */
module Growth {
  import opened RealMath

  /** One element of `pct_change()`. */
  datatype Change = Finite(rate: real) | PlusInfinity | MinusInfinity | NotANumber

  /** The estimator's outcome; `Undefined` is the NaN that `mean()` gives for no values. */
  datatype Estimate = Rate(value: real) | PositiveInfinity | NegativeInfinity | Undefined

  /** Returned when there are no percentage changes at all. */
  const DefaultGrowth: real := 0.05

  /** A rate at or above this bound (the value at least tripled) is an outlier. */
  const OutlierBound: real := 2.0

  /** `s.iloc[::-1]`. */
  function Reverse(s: seq<real>): (r: seq<real>)
    ensures |r| == |s|
    ensures forall i :: 0 <= i < |s| ==> r[i] == s[|s| - 1 - i]
  {
    if s == [] then [] else Reverse(s[1..]) + [s[0]]
  }

  /** The percentage change from `prev` to `cur`, as floating point computes it. */
  function PctChange(prev: real, cur: real): (c: Change)
    ensures prev != 0.0 ==> c.Finite? && prev * (1.0 + c.rate) == cur
    ensures prev == 0.0 ==> (c.PlusInfinity? <==> cur > 0.0) && (c.MinusInfinity? <==> cur < 0.0)
                            && (c.NotANumber? <==> cur == 0.0)
  {
    if prev != 0.0 then Finite((cur - prev) / prev)
    else if cur > 0.0 then PlusInfinity
    else if cur < 0.0 then MinusInfinity
    else NotANumber
  }

  /** `s.pct_change()` without its leading NaN: one change per consecutive pair. */
  function PctChanges(s: seq<real>): (c: seq<Change>)
    ensures |c| == if |s| < 2 then 0 else |s| - 1
  {
    if |s| < 2 then [] else seq(|s| - 1, i requires 0 <= i < |s| - 1 => PctChange(s[i], s[i + 1]))
  }

  /** `dropna()`: every non-NaN change is kept, as often as it occurs. */
  function DropNaN(c: seq<Change>): (d: seq<Change>)
    ensures |d| <= |c|
    ensures forall x :: x in d <==> x in c && !x.NotANumber?
  {
    if c == [] then []
    else
      if c[0].NotANumber? then DropNaN(c[1..])
      else [c[0]] + DropNaN(c[1..])
  }

  /** The float comparison `x < bound`; it is false for NaN and for +inf. */
  predicate Below(x: Change, bound: real)
  {
    match x
    case Finite(r) => r < bound
    case MinusInfinity => true
    case _ => false
  }

  /** `rates[rates < bound]`: every change below the bound is kept, as often as it occurs. */
  function KeepBelow(c: seq<Change>, bound: real): (d: seq<Change>)
    ensures |d| <= |c|
    ensures forall x :: x in d <==> x in c && Below(x, bound)
  {
    if c == [] then []
    else
      if Below(c[0], bound) then [c[0]] + KeepBelow(c[1..], bound)
      else KeepBelow(c[1..], bound)
  }

  /** The finite rates of `c`: each occurs as often as the corresponding change. */
  function FiniteRates(c: seq<Change>): (r: seq<real>)
    ensures |r| <= |c|
    ensures forall i :: 0 <= i < |r| ==> Finite(r[i]) in c
  {
    if c == [] then []
    else
      if c[0].Finite? then [c[0].rate] + FiniteRates(c[1..])
      else FiniteRates(c[1..])
  }

  /**
   * `mean()`: NaN values are skipped, an infinity dominates (both signs
   * together give NaN), no values give NaN, and otherwise the result times
   * the number of finite rates is their sum.
   */
  function Mean(c: seq<Change>): (e: Estimate)
    ensures e.PositiveInfinity? <==> PlusInfinity in c && MinusInfinity !in c
    ensures e.NegativeInfinity? <==> MinusInfinity in c && PlusInfinity !in c
    ensures PlusInfinity in c && MinusInfinity in c ==> e.Undefined?
    ensures PlusInfinity !in c && MinusInfinity !in c ==> (e.Undefined? <==> FiniteRates(c) == [])
    ensures e.Rate? ==> e.value * (|FiniteRates(c)| as real) == Sum(FiniteRates(c))
  {
    var rates := FiniteRates(c);
    var plus := PlusInfinity in c;
    var minus := MinusInfinity in c;
    if plus && minus then Undefined
    else if plus then PositiveInfinity
    else if minus then NegativeInfinity
    else if rates == [] then Undefined
    else Rate(Sum(rates) / (|rates| as real))
  }

  /** `calculate_historical_growth(fcf)`; `fcf` lists the newest period first. */
  function HistoricalGrowth(fcf: seq<real>): (e: Estimate)
    ensures |fcf| < 2 ==> e == Rate(DefaultGrowth)
    ensures DropNaN(PctChanges(Reverse(fcf))) == [] ==> e == Rate(DefaultGrowth)
    ensures e.Rate? ==> e.value < OutlierBound
    ensures !e.PositiveInfinity?
  {
    var changes := DropNaN(PctChanges(Reverse(fcf)));
    if changes == [] then
      Rate(DefaultGrowth)
    else
      var kept := KeepBelow(changes, OutlierBound);
      MeanOfKeptIsBelow(kept, OutlierBound);
      Mean(kept)
  }

  /** Every rate that survives the filter is below the bound, and so is their mean. */
  lemma {:induction false} MeanOfKeptIsBelow(kept: seq<Change>, bound: real)
    requires forall x :: x in kept ==> Below(x, bound)
    ensures !Mean(kept).PositiveInfinity?
    ensures Mean(kept).Rate? ==> Mean(kept).value < bound
  {
    var rates := FiniteRates(kept);
    forall i | 0 <= i < |rates| ensures rates[i] < bound {
      assert Finite(rates[i]) in kept;
    }
    SumBelow(rates, bound);
    if rates != [] {
      DivideStrictlyIncreasing(Sum(rates), (|rates| as real) * bound, |rates| as real);
    }
  }

  /**
   * Reversal makes the changes run forward in time: change `i` of the
   * reversed series goes from the element `i + 1` places from the end of
   * the reported series to the element `i + 2` places from the end.
   */
  lemma {:induction false} ChangesRunForwardInTime(fcf: seq<real>, i: nat)
    requires i + 1 < |fcf|
    ensures |PctChanges(Reverse(fcf))| == |fcf| - 1
    ensures PctChanges(Reverse(fcf))[i] == PctChange(fcf[|fcf| - 1 - i], fcf[|fcf| - 2 - i])
  {
  }

  /**
   * The estimate is NaN exactly when there are changes but every one of them
   * is filtered out; the default 5% is reserved for the case of no changes.
   */
  lemma {:induction false} UndefinedWhenAllFiltered(fcf: seq<real>)
    ensures var changes := DropNaN(PctChanges(Reverse(fcf)));
            changes != [] && KeepBelow(changes, OutlierBound) == []
            <==> HistoricalGrowth(fcf) == Undefined
  {
    var changes := DropNaN(PctChanges(Reverse(fcf)));
    var kept := KeepBelow(changes, OutlierBound);
    if changes != [] && kept == [] {
      assert FiniteRates([]) == [];
    }
    if changes != [] && kept != [] {
      var x := kept[0];
      assert x in kept && Below(x, OutlierBound);
      assert PlusInfinity !in kept;
      if x.Finite? {
        FiniteRatesCounts(kept);
        assert multiset(kept)[x] > 0;
        assert multiset(FiniteRates(kept))[x.rate] > 0;
      }
    }
  }

  // ---------------------------------------------------------------------
  // Counts and order kept by the filters

  /** `dropna()` keeps every non-NaN change exactly as often as it occurs. */
  lemma {:induction false} DropNaNCounts(c: seq<Change>)
    ensures forall x :: multiset(DropNaN(c))[x] == if x.NotANumber? then 0 else multiset(c)[x]
  {
    if c != [] {
      DropNaNCounts(c[1..]);
      assert c == [c[0]] + c[1..];
    }
  }

  /** The filter keeps every change below the bound exactly as often as it occurs. */
  lemma {:induction false} KeepBelowCounts(c: seq<Change>, bound: real)
    ensures forall x :: multiset(KeepBelow(c, bound))[x] == if Below(x, bound) then multiset(c)[x] else 0
  {
    if c != [] {
      KeepBelowCounts(c[1..], bound);
      assert c == [c[0]] + c[1..];
    }
  }

  /** Each finite rate occurs as often as the change that carries it. */
  lemma {:induction false} FiniteRatesCounts(c: seq<Change>)
    ensures forall x :: multiset(FiniteRates(c))[x] == multiset(c)[Finite(x)]
  {
    if c != [] {
      FiniteRatesCounts(c[1..]);
      assert c == [c[0]] + c[1..];
    }
  }

  /** `dropna()` of a concatenation is the concatenation of the parts' results: order is kept. */
  lemma {:induction false} DropNaNAppend(a: seq<Change>, b: seq<Change>)
    ensures DropNaN(a + b) == DropNaN(a) + DropNaN(b)
  {
    if a == [] {
      assert a + b == b;
    } else {
      assert (a + b)[0] == a[0] && (a + b)[1..] == a[1..] + b;
      DropNaNAppend(a[1..], b);
    }
  }

  /** The filter of a concatenation is the concatenation of the parts' results: order is kept. */
  lemma {:induction false} KeepBelowAppend(a: seq<Change>, b: seq<Change>, bound: real)
    ensures KeepBelow(a + b, bound) == KeepBelow(a, bound) + KeepBelow(b, bound)
  {
    if a == [] {
      assert a + b == b;
    } else {
      assert (a + b)[0] == a[0] && (a + b)[1..] == a[1..] + b;
      KeepBelowAppend(a[1..], b, bound);
    }
  }

  /** The finite rates of a concatenation, in order. */
  lemma {:induction false} FiniteRatesAppend(a: seq<Change>, b: seq<Change>)
    ensures FiniteRates(a + b) == FiniteRates(a) + FiniteRates(b)
  {
    if a == [] {
      assert a + b == b;
    } else {
      assert (a + b)[0] == a[0] && (a + b)[1..] == a[1..] + b;
      FiniteRatesAppend(a[1..], b);
    }
  }

  // ---------------------------------------------------------------------
  // The estimate against a reference read off the series by index

  /** The number of percentage changes of a series: one per consecutive pair. */
  function NumChanges(fcf: seq<real>): (n: nat)
  {
    if |fcf| < 2 then 0 else |fcf| - 1
  }

  /** Change `i` in time order, read straight off the reported newest-first series. */
  function ForwardChange(fcf: seq<real>, i: nat): (c: Change)
    requires i < NumChanges(fcf)
  {
    PctChange(fcf[|fcf| - 1 - i], fcf[|fcf| - 2 - i])
  }

  /** A change that survives `dropna()` and the filter as a finite rate. */
  predicate KeptRate(x: Change)
  {
    x.Finite? && x.rate < OutlierBound
  }

  /** All the changes of the series in time order, read off index by index. */
  function ForwardChanges(fcf: seq<real>): (cs: seq<Change>)
    ensures |cs| == NumChanges(fcf)
    ensures forall i :: 0 <= i < |cs| ==> cs[i] == ForwardChange(fcf, i)
  {
    seq(NumChanges(fcf), i requires 0 <= i < NumChanges(fcf) => ForwardChange(fcf, i))
  }

  /** How many entries of `cs` are finite rates below the bound, with repeats. */
  function KeptCount(cs: seq<Change>): (k: nat)
    ensures k <= |cs|
  {
    if cs == [] then 0
    else KeptCount(cs[..|cs| - 1]) + (if KeptRate(cs[|cs| - 1]) then 1 else 0)
  }

  /** The sum of the entries of `cs` that are finite rates below the bound, with repeats. */
  function KeptSum(cs: seq<Change>): (s: real)
  {
    if cs == [] then 0.0
    else KeptSum(cs[..|cs| - 1]) + (if KeptRate(cs[|cs| - 1]) then cs[|cs| - 1].rate else 0.0)
  }

  /** The rates the estimator averages: `dropna()`, the filter, then the finite values. */
  function KeptRates(c: seq<Change>): (r: seq<real>)
    ensures forall x :: x in r ==> x < OutlierBound
  {
    var kept := KeepBelow(DropNaN(c), OutlierBound);
    assert forall i :: 0 <= i < |FiniteRates(kept)| ==> Finite(FiniteRates(kept)[i]) in kept;
    FiniteRates(kept)
  }

  /** Appending one change appends its rate exactly when it is kept. */
  lemma KeptRatesAppend(a: seq<Change>, x: Change)
    ensures KeptRates(a + [x]) == KeptRates(a) + (if KeptRate(x) then [x.rate] else [])
  {
    assert [x][0] == x && [x][1..] == [];
    DropNaNAppend(a, [x]);
    var d, dx := DropNaN(a), DropNaN([x]);
    assert dx == if x.NotANumber? then [] else [x];
    KeepBelowAppend(d, dx, OutlierBound);
    var k, kx := KeepBelow(d, OutlierBound), KeepBelow(dx, OutlierBound);
    assert kx == if Below(x, OutlierBound) then [x] else [];
    FiniteRatesAppend(k, kx);
    assert FiniteRates(kx) == if KeptRate(x) then [x.rate] else [];
  }

  /** Appending one change adds one to the count and its rate to the sum exactly when it is kept. */
  lemma KeptRatesStep(a: seq<Change>, x: Change, b: seq<Change>)
    requires b == a + [x]
    ensures |KeptRates(b)| == |KeptRates(a)| + (if KeptRate(x) then 1 else 0)
    ensures Sum(KeptRates(b)) == Sum(KeptRates(a)) + (if KeptRate(x) then x.rate else 0.0)
  {
    KeptRatesAppend(a, x);
    var r := KeptRates(a);
    if KeptRate(x) {
      assert (r + [x.rate])[..|r|] == r;
    } else {
      assert r + [] == r;
    }
  }

  /** The rates the estimator averages have the reference count and sum. */
  lemma {:induction false} KeptRatesMatchReference(cs: seq<Change>)
    ensures |KeptRates(cs)| == KeptCount(cs)
    ensures Sum(KeptRates(cs)) == KeptSum(cs)
  {
    if cs == [] {
      assert KeptRates([]) == [];
    } else {
      var pre := cs[..|cs| - 1];
      KeptRatesMatchReference(pre);
      assert cs == pre + [cs[|cs| - 1]];
      KeptRatesStep(pre, cs[|cs| - 1], cs);
    }
  }

  /** The changes the estimator sees are the index-wise reference changes. */
  lemma ChangesMatchReference(fcf: seq<real>)
    ensures PctChanges(Reverse(fcf)) == ForwardChanges(fcf)
  {
    var all := PctChanges(Reverse(fcf));
    forall i | 0 <= i < NumChanges(fcf) ensures all[i] == ForwardChange(fcf, i) {
      ChangesRunForwardInTime(fcf, i);
    }
  }

  /** When every change is NaN, or there are none, the estimate is the 5% default. */
  lemma {:induction false} DefaultWhenNoDefinedChange(fcf: seq<real>)
    requires forall i :: 0 <= i < NumChanges(fcf) ==> ForwardChange(fcf, i).NotANumber?
    ensures HistoricalGrowth(fcf) == Rate(DefaultGrowth)
  {
    var all := PctChanges(Reverse(fcf));
    ChangesMatchReference(fcf);
    DropNaNOfAllNaN(all);
  }

  /** `dropna()` of changes that are all NaN is empty. */
  lemma {:induction false} DropNaNOfAllNaN(c: seq<Change>)
    requires forall i :: 0 <= i < |c| ==> c[i].NotANumber?
    ensures DropNaN(c) == []
  {
    if c != [] {
      DropNaNOfAllNaN(c[1..]);
    }
  }

  /** A change from zero to a negative value is -inf: it passes the filter and dominates the mean. */
  lemma {:induction false} MinusInfinityDominates(fcf: seq<real>, i: nat)
    requires i < NumChanges(fcf) && ForwardChange(fcf, i).MinusInfinity?
    ensures HistoricalGrowth(fcf) == NegativeInfinity
  {
    var all := PctChanges(Reverse(fcf));
    ChangesRunForwardInTime(fcf, i);
    assert all[i] == MinusInfinity;
    assert MinusInfinity in DropNaN(all);
    assert MinusInfinity in KeepBelow(DropNaN(all), OutlierBound);
  }

  /**
   * With some defined change and no -inf, the estimate is the mean of the
   * finite changes below 2, each counted as often as it occurs, or NaN when
   * no change is below 2.
   */
  lemma {:induction false} MeanOfKeptChanges(fcf: seq<real>, j: nat)
    requires j < NumChanges(fcf) && !ForwardChange(fcf, j).NotANumber?
    requires forall i :: 0 <= i < NumChanges(fcf) ==> !ForwardChange(fcf, i).MinusInfinity?
    ensures KeptCount(ForwardChanges(fcf)) == 0 ==> HistoricalGrowth(fcf) == Undefined
    ensures KeptCount(ForwardChanges(fcf)) > 0 ==>
            HistoricalGrowth(fcf) == Rate(KeptSum(ForwardChanges(fcf)) / (KeptCount(ForwardChanges(fcf)) as real))
  {
    var all := PctChanges(Reverse(fcf));
    ChangesMatchReference(fcf);
    var changes := DropNaN(all);
    assert all[j] in changes;
    var kept := KeepBelow(changes, OutlierBound);
    forall x | x in all ensures !x.MinusInfinity? {
      var i :| 0 <= i < |all| && all[i] == x;
    }
    assert MinusInfinity !in kept && PlusInfinity !in kept;
    KeptRatesMatchReference(all);
  }

  /** Two zero cash flows give a single 0/0 change; it is dropped and the default applies. */
  lemma ZeroSeriesGivesDefault()
    ensures HistoricalGrowth([0.0, 0.0]) == Rate(DefaultGrowth)
  {
    assert NumChanges([0.0, 0.0]) == 1;
    assert ForwardChange([0.0, 0.0], 0) == NotANumber;
    DefaultWhenNoDefinedChange([0.0, 0.0]);
  }

  /**
   * For a series of positive cash flows every change is finite and above
   * -100%, so the estimate is either NaN (all filtered) or a rate strictly
   * between -1 and 2.
   */
  lemma {:induction false} PositiveSeriesGrowth(fcf: seq<real>)
    requires |fcf| >= 2
    requires forall i :: 0 <= i < |fcf| ==> fcf[i] > 0.0
    ensures HistoricalGrowth(fcf).Undefined? || HistoricalGrowth(fcf).Rate?
    ensures HistoricalGrowth(fcf).Rate? ==> -1.0 < HistoricalGrowth(fcf).value < OutlierBound
  {
    var rev := Reverse(fcf);
    var all := PctChanges(rev);
    PositiveChanges(rev);
    var changes := DropNaN(all);
    assert all[0] in changes;
    var kept := KeepBelow(changes, OutlierBound);
    MeanOfFiniteIsAbove(kept, -1.0);
  }

  /** Between positive values every change is finite and above -100%. */
  lemma {:induction false} PositiveChanges(s: seq<real>)
    requires forall i :: 0 <= i < |s| ==> s[i] > 0.0
    ensures forall x :: x in PctChanges(s) ==> x.Finite? && x.rate > -1.0
  {
    var all := PctChanges(s);
    forall i | 0 <= i < |all| ensures all[i].Finite? && all[i].rate > -1.0 {
      assert all[i] == PctChange(s[i], s[i + 1]);
      ChangeAboveMinusOne(s[i], s[i + 1]);
    }
  }

  /** The mean of finite rates that all exceed `bound` is a rate above `bound`, or NaN for none. */
  lemma {:induction false} MeanOfFiniteIsAbove(c: seq<Change>, bound: real)
    requires forall x :: x in c ==> x.Finite? && x.rate > bound
    ensures Mean(c).Rate? || Mean(c).Undefined?
    ensures Mean(c).Rate? ==> Mean(c).value > bound
  {
    var rates := FiniteRates(c);
    forall i | 0 <= i < |rates| ensures rates[i] > bound {
      assert Finite(rates[i]) in c;
    }
    SumAbove(rates, bound);
    if rates != [] {
      DivideStrictlyIncreasing((|rates| as real) * bound, Sum(rates), |rates| as real);
    }
  }

  lemma ChangeAboveMinusOne(prev: real, cur: real)
    requires prev > 0.0 && cur > 0.0
    ensures PctChange(prev, cur).Finite? && PctChange(prev, cur).rate > -1.0
  {
    var q := (cur - prev) / prev;
    var ratio := cur / prev;
    assert ratio * prev == cur && q * prev == cur - prev;
    assert (q + 1.0) * prev == q * prev + prev;
    CancelFactor(q + 1.0, ratio, prev);
    DividePositive(cur, prev);
  }

  /**
   * A series whose only change is a tripling: the change is an outlier, so
   * the estimate is NaN, not the 5% default.
   */
  lemma TriplingIsFiltered()
    ensures HistoricalGrowth([300.0, 100.0]) == Undefined
  {
    assert Reverse([300.0, 100.0]) == [100.0, 300.0];
    assert PctChanges([100.0, 300.0]) == [Finite(2.0)];
    assert DropNaN([Finite(2.0)]) == [Finite(2.0)];
    assert KeepBelow([Finite(2.0)], OutlierBound) == [];
    UndefinedWhenAllFiltered([300.0, 100.0]);
  }

  /**
   * The series 100, 110, 50, 5000 (newest first) runs 5000, 50, 110, 100 in
   * time; its changes -0.99, 1.2 and -1/11 are all below 2 and are averaged.
   */
  lemma FourPeriodExample()
    ensures HistoricalGrowth([100.0, 110.0, 50.0, 5000.0]) == Rate(1.31 / 33.0)
  {
    var c := [Finite(-0.99), Finite(1.2), Finite(-1.0 / 11.0)];
    FourPeriodChanges();
    assert KeepBelow(c, OutlierBound) == c by {
      assert KeepBelow(c[2..], OutlierBound) == c[2..];
      assert KeepBelow(c[1..], OutlierBound) == c[1..];
    }
    FourPeriodMean();
  }

  lemma FourPeriodChanges()
    ensures DropNaN(PctChanges(Reverse([100.0, 110.0, 50.0, 5000.0])))
            == [Finite(-0.99), Finite(1.2), Finite(-1.0 / 11.0)]
  {
    FourPeriodReversed();
    FourPeriodPctChanges();
    var c := [Finite(-0.99), Finite(1.2), Finite(-1.0 / 11.0)];
    assert DropNaN(c) == c by {
      assert DropNaN(c[2..]) == c[2..];
      assert DropNaN(c[1..]) == c[1..];
    }
  }

  lemma FourPeriodReversed()
    ensures Reverse([100.0, 110.0, 50.0, 5000.0]) == [5000.0, 50.0, 110.0, 100.0]
  {
    assert Reverse([5000.0]) == [5000.0];
    assert Reverse([50.0, 5000.0]) == [5000.0, 50.0];
    assert Reverse([110.0, 50.0, 5000.0]) == [5000.0, 50.0, 110.0];
  }

  lemma FourPeriodPctChanges()
    ensures PctChanges([5000.0, 50.0, 110.0, 100.0]) == [Finite(-0.99), Finite(1.2), Finite(-1.0 / 11.0)]
  {
    assert PctChange(5000.0, 50.0) == Finite(-0.99);
    assert PctChange(50.0, 110.0) == Finite(1.2);
    assert PctChange(110.0, 100.0) == Finite(-1.0 / 11.0);
  }

  lemma FourPeriodMean()
    ensures Mean([Finite(-0.99), Finite(1.2), Finite(-1.0 / 11.0)]) == Rate(1.31 / 33.0)
  {
    var c := [Finite(-0.99), Finite(1.2), Finite(-1.0 / 11.0)];
    var rates := [-0.99, 1.2, -1.0 / 11.0];
    assert FiniteRates(c) == rates by {
      assert FiniteRates(c[2..]) == rates[2..];
      assert FiniteRates(c[1..]) == rates[1..];
    }
    assert Sum(rates) == 1.31 / 11.0 by {
      assert rates[..2] == [-0.99, 1.2] && [-0.99, 1.2][..1] == [-0.99] && [-0.99][..0] == [];
      assert Sum([-0.99]) == -0.99;
      assert Sum([-0.99, 1.2]) == -0.99 + 1.2;
    }
    assert PlusInfinity !in c && MinusInfinity !in c;
  }
}
