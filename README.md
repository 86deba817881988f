# Intrinsic value calculator: a verified model of the valuation pipeline

The calculator in `DCF.py` estimates what one share of a company is worth by
a two-stage discounted cash flow (DCF) and compares it with the market price.
This project models its valuation pipeline in Dafny, over exact reals:

- **Normalizer** (`normalizer.dfy`): the decision logic of `get_financial_data`.
  The provider's figures arrive as `Cell` values (`Absent`, `NaN` or
  `Num(x)`). Owner earnings are net income + depreciation − maintenance capex,
  with maintenance capex equal to depreciation. If that figure is not a number
  greater than 0, the starting cash flow falls back to net income. Total debt
  and cash default to 0 when their rows are absent. Missing figures give an
  `Error` result. There are three error kinds, one per message the source
  returns: empty statements, an exception inside the fetch (a missing row, an
  empty price history), and missing critical data.
- **Growth** (`growth.dfy`): `calculate_historical_growth`. It reverses the
  free-cash-flow series, takes percentage changes, drops the NaN ones, keeps
  the rates strictly below 2 and averages them. Division by a zero base
  follows floating point: `x/0` is ±infinity and `0/0` is NaN. The outcome is
  a `Rate`, an infinity, or `Undefined` (the NaN that `mean()` returns for no
  values).
- **Valuation** (`valuation.dfy`): `run_dcf_model`, the margin of safety and
  the verdict. The method `RunDcfModel` builds the projection in a loop. It is
  proved equal to the specification function `IntrinsicValue`. The lemmas
  give the per-year closed forms, a closed form for the whole present value,
  and strict monotonicity in the growth rate and in the discount rate.
  `Assess` is the page's valuation step: percent inputs, 5 or 10 years, model
  run, verdict.
- **Display** (`display.dfy`): the tier, divisor and suffix chosen by
  `format_large_number`, the INR crore display, and the currency symbol.
- **TickerResolution** (`ticker.dfy`): upper-case the typed symbol and fetch
  it. Only when that fetch returns an error, fetch once more with `.NS`
  appended. The fetch is a function parameter.
- `real_math.dfy` (powers, sums, order facts) and `wrappers.dfy` (`Option`)
  are helpers.

Behaviour of the code that the model keeps:

- When there are percentage changes but every one is filtered out, the code
  returns NaN (the mean of an empty series), not 5%. Only an empty change list
  (no changes, or only NaN ones) gives 5% (`Growth.UndefinedWhenAllFiltered`,
  `Growth.TriplingIsFiltered`, `Growth.ZeroSeriesGivesDefault`).
- The outlier cut is `rate < 2`, so a value must triple, not merely double,
  to be dropped.
- A NaN depreciation figure does not fail the request. The starting cash flow
  falls back to net income. A missing depreciation row does fail, through the
  exception handler.
- `format_large_number` has no thousands ("K") tier.
- The code does not reject a discount rate below the perpetual rate, a
  non-positive share count or a non-positive price. The model requires only
  what the arithmetic needs: `r ≠ p`, `shares ≠ 0`, `price ≠ 0`.
- A starting cash flow of 1,000,000 grown at 8% for five years, discounted at
  11% with 2.5% perpetual growth, gives a terminal value of about
  17,718,367.98 and, over 1,000,000 shares with no debt or cash, about 15.1239
  per share (`Valuation.FiveYearExample`, `Valuation.FiveYearIntrinsicValue`).

## Model

| member | source | states |
|---|---|---|
| `Normalizer.MetricLabel` | DCF.py:48-51 | the label reads "Owner Earnings" exactly for the owner-earnings metric |
| `Normalizer.OwnerEarningsOf` | DCF.py:39-43 | owner earnings are a number iff net income and depreciation both are (NaN propagates), and then they equal net income exactly |
| `Normalizer.StartingCashFlow` | DCF.py:45-51 | the chosen value is always the net income; the metric is owner earnings iff depreciation is a number and net income > 0, and then the value is the owner earnings |
| `Normalizer.Take` | DCF.py:54 | at most the first 4 free-cash-flow periods, in order |
| `Normalizer.GetFinancialData` | DCF.py:22-80 | data is returned iff no statement is empty, net income, share count and price are numbers, the depreciation and FCF rows exist; empty statements and raising lookups give their own error kinds; the starting cash flow is the net income; the metric rule; debt and cash default to 0; at most 4 FCF periods; name and currency defaults |
| `Normalizer.NaNDepreciationFallsBack` | DCF.py:40-50 | a NaN depreciation still yields data, with the net-profit fallback and net income as starting cash flow |
| `Normalizer.AbsentBalanceLinesDefaultToZero` | DCF.py:60-61 | absent debt and cash rows do not cause an error and read as 0 |
| `Normalizer.MissingSharesOrPriceIsAnError` | DCF.py:58-66 | a missing or NaN share count or price always gives an error |
| `Growth.Reverse` | DCF.py:84 | the reversed series has the same length and element `i` is element `n-1-i` of the input |
| `Growth.PctChange` | DCF.py:85 | with a nonzero base the change `c` satisfies `prev * (1 + c) == cur`; with a zero base it is +inf, -inf or NaN by the sign of `cur` |
| `Growth.PctChanges` | DCF.py:85 | one change per consecutive pair, none for fewer than 2 points |
| `Growth.DropNaN` | DCF.py:85 | exactly the non-NaN changes remain |
| `Growth.DropNaNCounts` | DCF.py:85 | every non-NaN change is kept exactly as many times as it occurs, and no NaN is |
| `Growth.DropNaNAppend` | DCF.py:85 | dropping NaN from a concatenation concatenates the results, so the order is kept |
| `Growth.KeepBelow` | DCF.py:87 | exactly the changes that compare below the bound remain (finite rates below it and -inf) |
| `Growth.KeepBelowCounts` | DCF.py:87 | every change below the bound is kept exactly as many times as it occurs, and no other change is |
| `Growth.KeepBelowAppend` | DCF.py:87 | filtering a concatenation concatenates the results, so the order is kept |
| `Growth.FiniteRates` | DCF.py:88 | every value returned is the rate of a finite change of the input |
| `Growth.FiniteRatesCounts` | DCF.py:88 | each rate appears exactly as many times as the finite change that carries it |
| `Growth.FiniteRatesAppend` | DCF.py:88 | the finite rates of a concatenation are those of the parts, in order |
| `Growth.Mean` | DCF.py:88 | the mean is +inf iff +inf occurs and -inf does not, -inf symmetrically, NaN when both occur or no finite rate is left, and otherwise value times count equals the sum of the finite rates |
| `Growth.HistoricalGrowth` | DCF.py:82-90 | fewer than 2 points, or changes that are all NaN, give exactly 0.05; a finite result is always below 2; the result is never +inf |
| `Growth.ForwardChanges` | DCF.py:84-85 | the reference lists one change per consecutive pair, change `i` going from reported value `n-1-i` to `n-2-i` |
| `Growth.ChangesMatchReference` | DCF.py:84-85 | reversing and taking percentage changes yields exactly the reference changes |
| `Growth.KeptRatesMatchReference` | DCF.py:85-88 | the rates the mean averages have the count and sum of the index-wise reference: the finite changes below 2, each as often as it occurs |
| `Growth.DefaultWhenNoDefinedChange` | DCF.py:85-90 | when every change is NaN, or there is none, the estimate is exactly 0.05 |
| `Growth.MinusInfinityDominates` | DCF.py:85-88 | a change from zero to a negative value makes the estimate -inf |
| `Growth.MeanOfKeptChanges` | DCF.py:85-89 | with a non-NaN change and no -inf, the estimate is NaN when no change is a finite rate below 2, and otherwise exactly Rate(sum / count) of those changes, each counted as often as it occurs |
| `Growth.ZeroSeriesGivesDefault` | DCF.py:82-90 | the series 0, 0 has a single 0/0 change, which is dropped, so the estimate is 0.05 |
| `Growth.MeanOfKeptIsBelow` | DCF.py:87-88 | the mean of values that all pass the filter is below the bound and never +inf |
| `Growth.ChangesRunForwardInTime` | DCF.py:84-85 | after reversal, change `i` goes from the older reported value to the newer one |
| `Growth.UndefinedWhenAllFiltered` | DCF.py:86-89 | the result is NaN exactly when changes exist but all are filtered out; it is never NaN otherwise |
| `Growth.PositiveSeriesGrowth` | DCF.py:84-89 | for a positive series of at least 2 points the result is NaN or a rate strictly between -1 and 2 |
| `Growth.TriplingIsFiltered` | DCF.py:86-89 | a single 200% change is dropped and the estimate is NaN |
| `Growth.FourPeriodExample` | DCF.py:82-90 | the series 100, 110, 50, 5000 (newest first) averages -0.99, 1.2 and -1/11 |
| `Valuation.Projection` | DCF.py:101-105 | the projection has exactly `period` entries |
| `Valuation.ProjectCashFlows` | DCF.py:101-105 | the loop builds exactly `period` entries, entry `i` being year `i+1`'s compounded flow |
| `Valuation.ProjectionCompounds` | DCF.py:103-104 | year 1 is `cf (1+g)` and each later year is the previous one times `1+g` |
| `Valuation.Discounted` | DCF.py:110 | one discounted value per projected flow |
| `Valuation.DiscountedProjectionAt` | DCF.py:104-110 | the flow at list index `year − 1` contributes `cf * ((1+g)/(1+r))^year`: the enumerate index plus 1 is the year |
| `Valuation.RunDcfModel` | DCF.py:92-117 | the returned value is `(Σ discounted flows + discounted terminal value − debt + cash) / shares`, given `r ≠ p`, `shares ≠ 0` and at least one year |
| `Valuation.SumOfDiscountedProjection` | DCF.py:110-113 | the discounted flows add up to the closed-form annuity in `q = (1+g)/(1+r)`: `cf q (q^n − 1)/(q − 1)`, or `n cf` when q = 1 |
| `Valuation.DiscountedProjectionSum` | DCF.py:101-110 | the discounted flows add up to `cf (q + q^2 + … + q^n)` with `q = (1+g)/(1+r)` |
| `Valuation.DiscountingCommutesWithTerminalValue` | DCF.py:108-111 | discounting the terminal value is the Gordon value of the discounted last flow |
| `Valuation.DiscountedTerminalValue` | DCF.py:108-111 | the discounted terminal value is the Gordon value of the starting flow times `q^period` |
| `Valuation.PresentValueClosedForm` | DCF.py:101-113 | the year-by-year present value equals annuity plus perpetuity in closed form |
| `Valuation.PresentValueIncreasesWithGrowth` | DCF.py:103-113 | for cf > 0 and −1 < p < r, a higher growth rate gives a strictly higher present value |
| `Valuation.PresentValueDecreasesWithDiscountRate` | DCF.py:108-113 | for cf > 0, g > −1 and −1 < p < r1 < r2, the present value at r2 is strictly lower |
| `Valuation.IntrinsicValueIncreasesWithGrowth` | DCF.py:103-116 | with shares > 0, raising the growth rate strictly raises the value per share |
| `Valuation.IntrinsicValueDecreasesWithDiscountRate` | DCF.py:108-116 | with shares > 0, raising the discount rate strictly lowers the value per share |
| `Valuation.FiveYearExample` | DCF.py:103-108 | 1,000,000 at 8% reaches 1,469,328.0768 in year 5, with a terminal value between 17,718,367.98 and 17,718,367.99 at 11% / 2.5% |
| `Valuation.FiveYearIntrinsicValue` | DCF.py:92-117 | the same inputs over 1,000,000 shares with no debt or cash give an intrinsic value between 15.1238 and 15.1239 per share |
| `Valuation.MarginOfSafety` | DCF.py:200 | the margin `m` recovers the value: `price (1 + m) == iv` |
| `Valuation.Judge` | DCF.py:200-215 | for a positive price, undervalued iff iv > price (for a negative one, iff iv < price) |
| `Valuation.ZeroMarginIsOvervalued` | DCF.py:200-209 | iv equal to the price gives margin 0 and the overvalued verdict |
| `Valuation.Assess` | DCF.py:171-202 | percentages are divided by 100, the period is 10 or 5 years, the value is the model's, the margin and verdict are those of that value and the price |
| `Display.FormatLargeNumber` | DCF.py:11-20 | "B" iff abs ≥ 1e9, "M" iff 1e6 ≤ abs < 1e9, none below; scaled × magnitude = x; a billions figure has abs ≥ 1 and a millions figure lies in [1, 1000) |
| `Display.CurrencySymbol` | DCF.py:176 | the rupee sign exactly for INR, the dollar sign otherwise |
| `Display.DisplayStartingCashFlow` | DCF.py:180-183 | INR is shown in crores with " Cr", others by the tier rule; scaled × magnitude = the amount |
| `Display.CroreExample` | DCF.py:180-181 | INR 123,456,789 is shown as 12.3456789 Cr |
| `Display.BillionExample` | DCF.py:15-16 | USD 1,234,567,890 is shown as 1.23456789 B |
| `TickerResolution.UpperChar` | DCF.py:128 | the result is never a lower-case letter; letters move up by 32, others stay |
| `TickerResolution.Upper` | DCF.py:128 | same length, no lower-case letter left, each character upper-cased |
| `TickerResolution.UpperIsIdempotent` | DCF.py:128 | upper-casing twice changes nothing more |
| `TickerResolution.Resolve` | DCF.py:128-138 | nothing is fetched for empty input; otherwise the upper-cased symbol is fetched first; a second fetch, of symbol + ".NS", happens iff the first returned an error; at most two fetches; the kept data is the last fetch's |
| `TickerResolution.NoRetryOnSuccess` | DCF.py:132-136 | a successful first fetch is the only one and its data is kept |

## Left out

- The Streamlit page: widgets, layout, banners, help texts and the limitations note (DCF.py:1-6, 121-231). `Assess` keeps only the arithmetic of lines 171-202.
- The yfinance calls and the network. The provider's answer is the `Statements` value. In `TickerResolution.Resolve` the whole fetch is a function parameter.
- Only the exceptions the code provokes are modelled: a missing row and an empty price history. Network failures inside the catch-all handler (DCF.py:79-80) are not.
- IEEE-754 behaviour other than NaN and division by zero in `pct_change`: the model has no rounding and no overflow. Net income + depreciation − depreciation is exact.
- A debt or cash row that is present but NaN: the model takes such rows as numbers.
- NaN values inside the free-cash-flow series, and pandas' fill of them before `pct_change`: the series is a sequence of reals.
- Digit rendering with `,.2f` and `.2%` (DCF.py:16-20, 181, 197-198, 205, 212): only the scaling and the suffix are modelled.
- `default_growth_rate` (DCF.py:149): float rounding, and the value is never used.
- `TickerResolution.Upper`: handles ASCII letters only, while Python's `str.upper` also maps other scripts and can lengthen a string (`ß` → `SS`).
- `Valuation.RunDcfModel`: requires `r ≠ p`, `shares ≠ 0`, `1 + r ≠ 0` and at least one year. The code fails or returns an infinity there. The page only passes 5 or 10 years and a discount rate ≥ 0.
- `Valuation.MarginOfSafety`: requires a nonzero price, where numpy would return an infinity or NaN.
- `Valuation.PresentValueIncreasesWithGrowth`: also needs p > −1 and g > −1, beyond cf > 0 and r > p. The page's rates are ≥ 0, and the perpetual rate is 2.5%.
