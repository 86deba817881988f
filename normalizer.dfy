/**
 * The decision logic of `get_financial_data`: from the figures a data
 * provider reports for one ticker, derive the starting cash flow (owner
 * earnings, or net income as a fallback), default the balance-sheet lines,
 * and refuse incomplete data with an error result.
 */
module Normalizer {
  import opened Wrappers

  /**
   * One figure as the provider hands it over: the row or value is missing
   * altogether, it is present but not a number (pandas NaN, or `None` from
   * `info.get`), or it is a number.
   */
  datatype Cell = Absent | NaN | Num(value: real)

  /** Which figure became the starting cash flow. */
  datatype Metric = OwnerEarnings | NetProfitFallback

  /** The three error results the source distinguishes by message. */
  datatype ErrorKind =
    | IncompleteStatements   // a statement table is empty
    | FetchFailed            // an exception inside the fetch (missing row, no price)
    | MissingCriticalData    // a required figure is NaN or missing

  /** What the provider returned for one ticker symbol. */
  datatype Statements = Statements(
    cashflowEmpty: bool,
    incomeStatementEmpty: bool,
    balanceSheetEmpty: bool,
    netIncome: Cell,                    // income statement, 'Net Income', latest period
    depreciation: Cell,                 // cash flow, 'Depreciation And Amortization', latest period
    freeCashFlow: Option<seq<real>>,    // cash flow, 'Free Cash Flow', newest period first
    sharesOutstanding: Cell,            // info['sharesOutstanding']
    totalDebt: Option<real>,            // balance sheet, 'Total Debt' row if present
    cashAndEquivalents: Option<real>,   // balance sheet, 'Cash And Cash Equivalents' row if present
    closePrice: Cell,                   // last close; Absent when the price history is empty
    longName: Option<string>,           // info['longName']
    currency: Option<string>)           // info['currency']

  /** The result of `get_financial_data`: the normalised figures, or an error. */
  datatype FinancialData =
    | Data(fcf: seq<real>, startingCashFlow: real, metric: Metric, shares: real,
           debt: real, cash: real, price: real, longName: string, currency: string)
    | Error(kind: ErrorKind)

  /** How many periods of free cash flow are kept for the growth estimate. */
  const FcfPeriods: nat := 4

  const DefaultCurrency: string := "USD"

  /** The label shown next to the starting cash flow. */
  function MetricLabel(m: Metric): (name: string)
    ensures name == "Owner Earnings" <==> m == OwnerEarnings
  {
    match m
    case OwnerEarnings => "Owner Earnings"
    case NetProfitFallback => "Net Profit (as Owner Earnings were negative)"
  }

  /**
   * Owner earnings = net income + depreciation - maintenance capex, with
   * maintenance capex taken to be the depreciation. A NaN operand makes the
   * whole figure NaN. Over exact reals the figure is the net income itself.
   */
  function OwnerEarningsOf(netIncome: Cell, depreciation: Cell): (oe: Cell)
    ensures oe.Num? <==> netIncome.Num? && depreciation.Num?
    ensures !oe.Num? ==> oe.NaN?
    ensures oe.Num? ==> oe.value == netIncome.value
  {
    if netIncome.Num? && depreciation.Num? then
      var maintenanceCapex := depreciation.value;
      Num(netIncome.value + depreciation.value - maintenanceCapex)
    else
      NaN
  }

  /**
   * The fallback rule: owner earnings when they are a number greater than 0
   * (NaN > 0 is false), net income otherwise, whatever its sign.
   */
  function StartingCashFlow(netIncome: Cell, depreciation: Cell): (r: (Cell, Metric))
    // The value chosen is always the net income: owner earnings equal it.
    ensures r.0 == netIncome
    ensures r.1 == OwnerEarnings <==> depreciation.Num? && netIncome.Num? && netIncome.value > 0.0
    ensures r.1 == OwnerEarnings ==> r.0 == OwnerEarningsOf(netIncome, depreciation)
  {
    var oe := OwnerEarningsOf(netIncome, depreciation);
    if oe.Num? && oe.value > 0.0 then (oe, OwnerEarnings) else (netIncome, NetProfitFallback)
  }

  /** `s.iloc[:n]`: at most the first `n` elements. */
  function Take(s: seq<real>, n: nat): (r: seq<real>)
    ensures |r| <= n && |r| <= |s|
    ensures |r| == n || |r| == |s|
    ensures forall i :: 0 <= i < |r| ==> r[i] == s[i]
  {
    if |s| <= n then s else s[..n]
  }

  /** The figures every valuation needs: anything else yields an error. */
  predicate Complete(raw: Statements)
  {
    && !raw.cashflowEmpty && !raw.incomeStatementEmpty && !raw.balanceSheetEmpty
    && raw.netIncome.Num? && !raw.depreciation.Absent? && raw.freeCashFlow.Some?
    && raw.sharesOutstanding.Num? && raw.closePrice.Num?
  }

  /**
   * `get_financial_data(ticker)` applied to what the provider returned. The
   * checks run in the source's order: empty tables first; then the lookups
   * that raise (a missing row, an empty price history), which the catch-all
   * handler turns into an error; then the NaN test on the starting cash flow,
   * the share count and the price.
   */
  function GetFinancialData(ticker: string, raw: Statements): (d: FinancialData)
    ensures d.Data? <==> Complete(raw)
    ensures raw.cashflowEmpty || raw.incomeStatementEmpty || raw.balanceSheetEmpty
            ==> d == Error(IncompleteStatements)
    ensures d.Error? && d.kind == FetchFailed
            <==> !(raw.cashflowEmpty || raw.incomeStatementEmpty || raw.balanceSheetEmpty)
                 && (raw.netIncome.Absent? || raw.depreciation.Absent?
                     || raw.freeCashFlow.None? || raw.closePrice.Absent?)
    ensures d.Data? ==> d.startingCashFlow == raw.netIncome.value
    ensures d.Data? ==> (d.metric == OwnerEarnings <==> raw.depreciation.Num? && raw.netIncome.value > 0.0)
    ensures d.Data? ==> d.shares == raw.sharesOutstanding.value && d.price == raw.closePrice.value
    ensures d.Data? ==> d.debt == (if raw.totalDebt.Some? then raw.totalDebt.value else 0.0)
    ensures d.Data? ==> d.cash == (if raw.cashAndEquivalents.Some? then raw.cashAndEquivalents.value else 0.0)
    ensures d.Data? ==> d.fcf == Take(raw.freeCashFlow.value, FcfPeriods)
    ensures d.Data? ==> d.longName == (if raw.longName.Some? then raw.longName.value else ticker)
    ensures d.Data? ==> d.currency == (if raw.currency.Some? then raw.currency.value else DefaultCurrency)
  {
    if raw.cashflowEmpty || raw.incomeStatementEmpty || raw.balanceSheetEmpty then
      Error(IncompleteStatements)
    else if raw.netIncome.Absent? || raw.depreciation.Absent? || raw.freeCashFlow.None? then
      Error(FetchFailed)
    else
      var (start, metric) := StartingCashFlow(raw.netIncome, raw.depreciation);
      var fcf := Take(raw.freeCashFlow.value, FcfPeriods);
      var debt := raw.totalDebt.GetOr(0.0);
      var cash := raw.cashAndEquivalents.GetOr(0.0);
      if raw.closePrice.Absent? then
        Error(FetchFailed)
      else if !(start.Num? && raw.sharesOutstanding.Num? && raw.closePrice.Num?) then
        Error(MissingCriticalData)
      else
        Data(fcf, start.value, metric, raw.sharesOutstanding.value, debt, cash,
             raw.closePrice.value, raw.longName.GetOr(ticker), raw.currency.GetOr(DefaultCurrency))
  }

  /**
   * A NaN depreciation figure does not fail the request: the starting cash
   * flow falls back to the net income.
   */
  lemma NaNDepreciationFallsBack(ticker: string, raw: Statements)
    requires raw.depreciation.NaN?
    requires !raw.cashflowEmpty && !raw.incomeStatementEmpty && !raw.balanceSheetEmpty
    requires raw.netIncome.Num? && raw.freeCashFlow.Some?
    requires raw.sharesOutstanding.Num? && raw.closePrice.Num?
    ensures GetFinancialData(ticker, raw).Data?
    ensures GetFinancialData(ticker, raw).metric == NetProfitFallback
    ensures GetFinancialData(ticker, raw).startingCashFlow == raw.netIncome.value
  {
  }

  /**
   * Missing debt or cash never causes an error by itself: with every other
   * figure present, the request succeeds with those lines at 0.
   */
  lemma AbsentBalanceLinesDefaultToZero(ticker: string, raw: Statements)
    requires Complete(raw) && raw.totalDebt.None? && raw.cashAndEquivalents.None?
    ensures GetFinancialData(ticker, raw).Data?
    ensures GetFinancialData(ticker, raw).debt == 0.0 && GetFinancialData(ticker, raw).cash == 0.0
  {
  }

  /** A NaN or missing share count or price yields an error, never a valuation. */
  lemma MissingSharesOrPriceIsAnError(ticker: string, raw: Statements)
    requires !raw.sharesOutstanding.Num? || !raw.closePrice.Num?
    ensures GetFinancialData(ticker, raw).Error?
  {
  }
}
