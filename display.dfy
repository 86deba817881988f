/**
 * How amounts are shown: `format_large_number` picks a tier (billions,
 * millions or plain) and its suffix; an INR starting cash flow is shown in
 * crores instead. Only the scaling and the symbols are modelled, not the
 * digit rendering.
 */
module Display {
  import opened RealMath

  const Billion: real := 1000000000.0
  const Million: real := 1000000.0
  const Crore: real := 10000000.0

  const Rupee: string := "\U{20B9}"
  const Dollar: string := "$"

  /** A number scaled for display, with the suffix that restores its magnitude. */
  datatype Abbreviated = Abbreviated(scaled: real, suffix: string)

  /** What the suffix stands for. */
  function Magnitude(suffix: string): (m: real)
  {
    if suffix == "B" then Billion
    else if suffix == "M" then Million
    else if suffix == " Cr" then Crore
    else 1.0
  }

  /**
   * `format_large_number(num)`: from a billion in absolute value divide by a
   * billion and append "B"; from a million, by a million and "M"; below
   * that, leave the number as it is.
   */
  function FormatLargeNumber(x: real): (a: Abbreviated)
    ensures a.suffix == "B" <==> Abs(x) >= Billion
    ensures a.suffix == "M" <==> Million <= Abs(x) < Billion
    ensures a.suffix == "" <==> Abs(x) < Million
    ensures a.scaled * Magnitude(a.suffix) == x
    ensures a.suffix == "B" ==> Abs(a.scaled) >= 1.0
    ensures a.suffix == "M" ==> 1.0 <= Abs(a.scaled) < 1000.0
  {
    if Abs(x) >= Billion then Abbreviated(x / Billion, "B")
    else if Abs(x) >= Million then Abbreviated(x / Million, "M")
    else Abbreviated(x, "")
  }

  /** The currency symbol put before prices and values. */
  function CurrencySymbol(currency: string): (s: string)
    ensures s == Rupee <==> currency == "INR"
    ensures s == Dollar <==> currency != "INR"
  {
    if currency == "INR" then Rupee else Dollar
  }

  /** A displayed amount: symbol, scaled figure, suffix. */
  datatype Shown = Shown(symbol: string, scaled: real, suffix: string)

  /** The starting cash flow as displayed: crores for INR, tiers otherwise. */
  function DisplayStartingCashFlow(currency: string, x: real): (d: Shown)
    ensures d.symbol == CurrencySymbol(currency)
    ensures d.scaled * Magnitude(d.suffix) == x
    ensures currency == "INR" ==> d.suffix == " Cr"
    ensures currency != "INR" ==> Abbreviated(d.scaled, d.suffix) == FormatLargeNumber(x)
  {
    if currency == "INR" then
      Shown(Rupee, x / Crore, " Cr")
    else
      var a := FormatLargeNumber(x);
      Shown(Dollar, a.scaled, a.suffix)
  }

  /** An INR amount of 123,456,789 is shown as 12.3456789 crore. */
  lemma CroreExample()
    ensures DisplayStartingCashFlow("INR", 123456789.0) == Shown(Rupee, 12.3456789, " Cr")
  {
  }

  /** A USD amount of 1,234,567,890 is shown as 1.23456789 billion. */
  lemma BillionExample()
    ensures DisplayStartingCashFlow("USD", 1234567890.0) == Shown(Dollar, 1.23456789, "B")
  {
  }
}
