/** The currency service: the exchange-rate table with its fallback, and the
    conversion of a price between two currencies through the table's base
    currency. Amounts are exact `real`s. */
module Currency {
  import opened Types

  /** A rate table maps a currency code to its value per one unit of the base
      currency (the base itself maps to 1). */
  type Rates = map<string, real>

  /** The table `getExchangeRates` answers with when the rate service fails. */
  const FallbackRates: Rates :=
    map["TRY" := 31.20, "EUR" := 0.92, "USD" := 1.0, "GBP" := 0.79]

  /** Every rate in the table is positive, so dividing by it is defined. */
  ghost predicate PositiveRates(rates: Rates)
  {
    forall code :: code in rates ==> rates[code] > 0.0
  }

  /** The rate table the service hands back for one fetch: the `rates`
      property of the answer on success (absent when the answer has none),
      the fallback table on any failure. */
  function GetExchangeRates(response: Fetch<Option<Rates>>): (r: Option<Rates>)
    ensures response.Failed? ==> r.Some? && r.value.Keys == {"TRY", "EUR", "USD", "GBP"}
    ensures response.Failed? ==> PositiveRates(r.value) && r.value["USD"] == 1.0
    ensures response.Failed? ==> r.value["TRY"] == 31.2 && r.value["EUR"] == 0.92 && r.value["GBP"] == 0.79
    ensures response.Ok? ==> r == response.value
  {
    match response
    case Ok(fetched) => fetched
    case Failed => Some(FallbackRates)
  }

  /** When conversion needs the table (it is present and the codes differ),
      both codes are in it with positive rates. */
  predicate CanConvert(from: string, to: string, rates: Option<Rates>)
  {
    rates.None? || from == to ||
    (from in rates.value && to in rates.value &&
     rates.value[from] > 0.0 && rates.value[to] > 0.0)
  }

  /** `price` in currency `from`, expressed in currency `to`. An absent table
      or equal codes leave the price as it is; otherwise the price is turned
      into base units and then into `to` units. */
  function Convert(price: real, from: string, to: string, rates: Option<Rates>): (r: real)
    requires CanConvert(from, to, rates)
    ensures rates.None? ==> r == price
    ensures from == to ==> r == price
    ensures rates.Some? && from != to ==>
      r * rates.value[from] == price * rates.value[to]
    ensures price >= 0.0 ==> r >= 0.0
    ensures price > 0.0 ==> r > 0.0
  {
    if rates.None? || from == to then price
    else
      var priceInBase := price / rates.value[from];
      priceInBase * rates.value[to]
  }

  /** Converting there and back again returns the very same amount. */
  lemma ConvertRoundTrip(price: real, a: string, b: string, rates: Option<Rates>)
    requires CanConvert(a, b, rates)
    ensures CanConvert(b, a, rates)
    ensures Convert(Convert(price, a, b, rates), b, a, rates) == price
  {
    if rates.Some? && a != b {
      var ra, rb := rates.value[a], rates.value[b];
      var there := Convert(price, a, b, rates);
      var back := Convert(there, b, a, rates);
      assert there * ra == price * rb;
      assert back * rb == there * ra;
      assert back * rb == price * rb;
    }
  }

  /** Into a currency whose rate is 1 (the base currency), conversion is a
      single division by the source rate. */
  lemma ConvertToBase(price: real, from: string, to: string, rates: Rates)
    requires from != to && from in rates && to in rates
    requires rates[from] > 0.0 && rates[to] == 1.0
    ensures Convert(price, from, to, Some(rates)) == price / rates[from]
  {
    var r := Convert(price, from, to, Some(rates));
    assert r * rates[from] == price;
  }

  /** With the fallback table, 85 lira are 85 / 31.2 dollars, a little over 2.72. */
  lemma FallbackLiraToDollar()
    ensures Convert(85.0, "TRY", "USD", Some(FallbackRates)) == 85.0 / 31.2
    ensures 2.72 < Convert(85.0, "TRY", "USD", Some(FallbackRates)) < 2.73
  {
    ConvertToBase(85.0, "TRY", "USD", FallbackRates);
  }

  /** An answer without a `rates` property leaves no table, and every price
      is then shown as it is, in its own currency. */
  lemma MissingRatesLeavePricesUnconverted(price: real, from: string, to: string)
    ensures GetExchangeRates(Ok(None)).None?
    ensures CanConvert(from, to, GetExchangeRates(Ok(None)))
    ensures Convert(price, from, to, GetExchangeRates(Ok(None))) == price
  {
  }

  /** After a failed fetch every pair of the four fallback currencies converts. */
  lemma FallbackCoversItsCodes(from: string, to: string)
    requires from in {"TRY", "EUR", "USD", "GBP"} && to in {"TRY", "EUR", "USD", "GBP"}
    ensures CanConvert(from, to, GetExchangeRates(Failed))
  {
  }
}
