/**
 * Ticker resolution on the page: the symbol typed in is upper-cased and
 * fetched; if that fetch returns an error, the fetch is repeated exactly
 * once with the Indian exchange suffix ".NS" appended.
 */
module TickerResolution {
  import opened Wrappers
  import opened Normalizer

  const IndianSuffix: string := ".NS"

  predicate IsLower(c: char)
  {
    'a' <= c <= 'z'
  }

  /** `str.upper()` on one ASCII character. */
  function UpperChar(c: char): (u: char)
    ensures !IsLower(u)
    ensures IsLower(c) ==> u as int == c as int - 32
    ensures !IsLower(c) ==> u == c
  {
    if IsLower(c) then (c as int - 32) as char else c
  }

  /** `str.upper()` on ASCII text: letters upper-cased, everything else kept. */
  function Upper(s: string): (u: string)
    ensures |u| == |s|
    ensures forall i :: 0 <= i < |u| ==> !IsLower(u[i])
    ensures forall i :: 0 <= i < |u| ==> u[i] == UpperChar(s[i])
  {
    seq(|s|, i requires 0 <= i < |s| => UpperChar(s[i]))
  }

  /** Upper-casing twice changes nothing more. */
  lemma {:induction false} UpperIsIdempotent(s: string)
    ensures Upper(Upper(s)) == Upper(s)
  {
  }

  /** The tickers that were fetched, in order, and the data finally kept. */
  datatype Lookup = Lookup(attempts: seq<string>, data: FinancialData)

  /**
   * The lookup the page performs for the text typed in; nothing is fetched
   * for empty input. `fetch` stands for `get_financial_data`.
   */
  function Resolve(input: string, fetch: string -> FinancialData): (l: Option<Lookup>)
    ensures l.None? <==> input == ""
    ensures l.Some? ==> 1 <= |l.value.attempts| <= 2
    ensures l.Some? ==> l.value.attempts[0] == Upper(input)
    ensures l.Some? ==> (|l.value.attempts| == 2 <==> fetch(Upper(input)).Error?)
    ensures l.Some? && |l.value.attempts| == 2 ==> l.value.attempts[1] == Upper(input) + IndianSuffix
    ensures l.Some? ==> l.value.data == fetch(l.value.attempts[|l.value.attempts| - 1])
    ensures l.Some? && l.value.data.Error? ==> |l.value.attempts| == 2
  {
    var ticker := Upper(input);
    if ticker == "" then
      None
    else
      var first := fetch(ticker);
      if first.Error? then
        var finalTicker := ticker + IndianSuffix;
        Some(Lookup([ticker, finalTicker], fetch(finalTicker)))
      else
        Some(Lookup([ticker], first))
  }

  /** When the bare symbol succeeds, it is the only one fetched and its data is kept. */
  lemma NoRetryOnSuccess(input: string, fetch: string -> FinancialData)
    requires input != "" && fetch(Upper(input)).Data?
    ensures Resolve(input, fetch) == Some(Lookup([Upper(input)], fetch(Upper(input))))
  {
  }
}
