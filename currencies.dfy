/**
 * The closed set of currencies, their three-letter codes (the Swift enum's raw
 * values), their display names, the list offered to the user, and the 7%
 * commission (`Double.conversion`).
 */
module Currencies {

  import opened Wrappers

  datatype Currency = EUR | USD | JPY

  /** The raw value of the `Currency` enum: its three-letter code. */
  function RawValue(c: Currency): (code: string)
    ensures |code| == 3
  {
    match c
    case EUR => "EUR"
    case USD => "USD"
    case JPY => "JPY"
  }

  /**
   * `Currency(rawValue:)`: recognises exactly the three codes and fails on
   * every other string.
   */
  function FromRawValue(code: string): (r: Option<Currency>)
    ensures forall c :: r == Some(c) <==> RawValue(c) == code
  {
    if code == "EUR" then Some(EUR)
    else if code == "USD" then Some(USD)
    else if code == "JPY" then Some(JPY)
    else None
  }

  /** `retrieveAvailableCurrencies`: every currency, each exactly once, EUR first. */
  function AvailableCurrencies(): (cs: seq<Currency>)
    ensures EUR in cs && USD in cs && JPY in cs
    ensures forall i, j :: 0 <= i < j < |cs| ==> cs[i] != cs[j]
    ensures |cs| == 3 && cs[0] == EUR
  {
    [EUR, USD, JPY]
  }

  /** `retrievCurrencyText`: the display name used in keys and messages. */
  function CurrencyText(c: Currency): (name: string)
    ensures |name| > 0
  {
    match c
    case EUR => "Euro"
    case USD => "US Dollar"
    case JPY => "Japanese Yen"
  }

  /** No two currencies share a display name. */
  lemma CurrencyTextInjective(c: Currency, d: Currency)
    requires CurrencyText(c) == CurrencyText(d)
    ensures c == d
  {
    assert |CurrencyText(c)| == |CurrencyText(d)|;
  }

  /** `Double.conversion`: the commission, 7% of the amount. */
  function Conversion(amount: real): (fee: real)
    ensures fee * 100.0 == 7.0 * amount
    ensures amount >= 0.0 ==> 0.0 <= fee <= amount
  {
    amount * 0.07
  }
}
