/** The closed set of currencies the application offers, with display metadata
    (src/types/currency.ts). */
module Currency {
  import opened Wrappers

  datatype SupportedCurrency = USD | EUR | GBP | CRC

  /** ISO 4217 code of a supported currency, as the source spells it. */
  function Code(c: SupportedCurrency): string {
    match c
    case USD => "USD"
    case EUR => "EUR"
    case GBP => "GBP"
    case CRC => "CRC"
  }

  /** Reads a currency code; `None` for every string outside the closed set. */
  function ParseCurrency(s: string): (r: Option<SupportedCurrency>)
    ensures r.Some? ==> Code(r.value) == s
    ensures r.None? ==> forall c: SupportedCurrency :: Code(c) != s
  {
    if s == "USD" then Some(USD)
    else if s == "EUR" then Some(EUR)
    else if s == "GBP" then Some(GBP)
    else if s == "CRC" then Some(CRC)
    else None
  }

  /** Codes and strings are in one-to-one correspondence. */
  lemma CodeRoundTrip(c: SupportedCurrency)
    ensures ParseCurrency(Code(c)) == Some(c)
  {
  }

  datatype CurrencyInfo = CurrencyInfo(code: SupportedCurrency, symbol: string, labelText: string)

  const SupportedCurrencies: seq<CurrencyInfo> := [
    CurrencyInfo(USD, "$", "US Dollar"),
    CurrencyInfo(EUR, "€", "Euro"),
    CurrencyInfo(GBP, "£", "British Pound"),
    CurrencyInfo(CRC, "₡", "Costa Rican Colón")
  ]

  /** `c` has an entry in the table. */
  ghost predicate Listed(c: SupportedCurrency) {
    exists i :: 0 <= i < |SupportedCurrencies| && SupportedCurrencies[i].code == c
  }

  /** The table lists each supported currency exactly once, USD first, with
      the source's symbols. */
  lemma SupportedCurrenciesTable()
    ensures |SupportedCurrencies| == 4
    ensures SupportedCurrencies[0].code == USD
    ensures forall i, j :: 0 <= i < j < |SupportedCurrencies| ==>
      SupportedCurrencies[i].code != SupportedCurrencies[j].code
    ensures forall c: SupportedCurrency :: Listed(c)
    ensures forall i :: 0 <= i < |SupportedCurrencies| ==>
      SupportedCurrencies[i].symbol == match SupportedCurrencies[i].code
        case USD => "$"
        case EUR => "€"
        case GBP => "£"
        case CRC => "₡"
  {
    forall c: SupportedCurrency
      ensures Listed(c)
    {
      match c
      case USD => assert SupportedCurrencies[0].code == c;
      case EUR => assert SupportedCurrencies[1].code == c;
      case GBP => assert SupportedCurrencies[2].code == c;
      case CRC => assert SupportedCurrencies[3].code == c;
    }
  }
}
