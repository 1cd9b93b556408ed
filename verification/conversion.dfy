/** Amount conversion of the currency hook (src/hooks/useCurrency.ts): the
    selected currency is the base of the current rate table, and amounts move
    between currencies through it. Amounts are reals; IEEE-754 rounding is
    not modelled. */
module Conversion {
  import opened Wrappers
  import opened ExchangeRates
  import opened Currency
  import opened Strings
  import Locale

  /** `rates[code] || 1`: a missing or zero rate counts as 1. */
  function EffectiveRate(rates: RateTable, code: string): (r: real)
    ensures r != 0.0
    ensures code in rates && rates[code] != 0.0 ==> r == rates[code]
    ensures code !in rates || rates[code] == 0.0 ==> r == 1.0
  {
    if code in rates && rates[code] != 0.0 then rates[code] else 1.0
  }

  /** `convertAmount(amount, from, to)` with the hook's current table `rates`
      (`None` while it is still loading) quoted against `base`. */
  function ConvertAmount(amount: real, from: string, to: string, rates: Option<RateTable>, base: string): (r: real)
    ensures from == to || rates.None? ==> r == amount
    ensures from != to && rates.Some? && from == base ==>
      r == amount * EffectiveRate(rates.value, to)
    ensures from != to && rates.Some? && from != base && to == base ==>
      r == amount / EffectiveRate(rates.value, from)
    ensures from != to && rates.Some? && from != base && to != base ==>
      r == amount / EffectiveRate(rates.value, from) * EffectiveRate(rates.value, to)
  {
    if rates.None? || from == to then amount
    else if from == base then amount * EffectiveRate(rates.value, to)
    else if to == base then amount / EffectiveRate(rates.value, from)
    else
      var amountInBase := amount / EffectiveRate(rates.value, from);
      amountInBase * EffectiveRate(rates.value, to)
  }

  /** Converting out of the base and back with the same table is the identity. */
  lemma ConvertRoundTrip(amount: real, target: string, rates: Option<RateTable>, base: string)
    ensures ConvertAmount(ConvertAmount(amount, base, target, rates, base), target, base, rates, base) == amount
  {
    if rates.Some? && target != base {
      var k := EffectiveRate(rates.value, target);
      assert amount * k / k == amount;
    }
  }

  /** A cross conversion is a conversion into the base followed by one out of it. */
  lemma ConvertCrossViaBase(amount: real, from: string, to: string, rates: Option<RateTable>, base: string)
    requires from != base && to != base
    ensures ConvertAmount(amount, from, to, rates, base)
         == ConvertAmount(ConvertAmount(amount, from, base, rates, base), base, to, rates, base)
  {
  }

  /** An empty table is not the "no table" case, but every rate defaults to 1,
      so the amount comes back unchanged all the same. */
  lemma ConvertWithEmptyTable(amount: real, from: string, to: string, base: string)
    ensures ConvertAmount(amount, from, to, Some(map[]), base) == amount
  {
  }

  /** A zero rate is treated like a missing one, so no branch divides by zero. */
  lemma ConvertZeroRateIsIdentity(amount: real, code: string, rates: RateTable, base: string)
    requires code != base && code in rates && rates[code] == 0.0
    ensures ConvertAmount(amount, base, code, Some(rates), base) == amount
    ensures ConvertAmount(amount, code, base, Some(rates), base) == amount
  {
  }

  /** 50 EUR in GBP through a USD-based table {EUR: 0.92, GBP: 0.79}. */
  lemma ConvertEurToGbpExample()
    ensures ConvertAmount(50.0, "EUR", "GBP", Some(map["EUR" := 0.92, "GBP" := 0.79]), "USD") == 3950.0 / 92.0
  {
  }

  /** As written, a failed refresh for a non-USD base hands the hook the
      USD-quoted fallback table while the hook reads it as quoted against
      that base: the base's own rate is not 1, and converting a USD amount
      into the base returns the USD number unchanged instead of multiplying
      it by the base's rate. */
  lemma FallbackIgnoresBase(cache: Cache, now: int, base: string, amount: real)
    requires base in FallbackRates && base != "USD"
    requires !IsCacheValid(cache, base, now)
    ensures var rates := GetRates(cache, now, base, FetchFailed).rates;
      && rates[base] != 1.0
      && ConvertAmount(amount, "USD", base, Some(rates), base) == amount
      && (amount != 0.0 ==> amount != amount * FallbackRates[base])
  {
    FallbackRatesCoverSupported();
    assert FallbackRates[base] != 1.0;
  }

  /** When the base's own rate is 1, every branch of `convertAmount` is the
      cross formula: divide by the source's rate, multiply by the target's. */
  lemma ConvertNormalForm(amount: real, from: string, to: string, rates: RateTable, base: string)
    requires EffectiveRate(rates, base) == 1.0
    ensures ConvertAmount(amount, from, to, Some(rates), base)
         == amount / EffectiveRate(rates, from) * EffectiveRate(rates, to)
  {
    if from == to {
      var k := EffectiveRate(rates, from);
      assert amount / k * k == amount;
    }
  }

  /** Dividing both rates by the same factor leaves the cross formula unchanged. */
  lemma CrossRateScaling(amount: real, x: real, y: real, b: real)
    requires x != 0.0 && b != 0.0
    ensures amount / (x / b) * (y / b) == amount / x * y
  {
    calc {
      amount / (x / b) * (y / b);
      == { assert amount / (x / b) == amount * b / x; }
      amount * b / x * (y / b);
      == { assert b / x * (y / b) == y / x; }
      amount / x * y;
    }
  }

  /** Re-quoting a table against another of its currencies, by dividing
      every rate by that currency's rate, does not change any conversion. */
  lemma RequotedTableConvertsAlike(amount: real, from: string, to: string,
                                   f: RateTable, anchor: string, r: RateTable, base: string)
    requires from in f && to in f && base in f
    requires f[from] != 0.0 && f[to] != 0.0 && f[base] != 0.0
    requires EffectiveRate(f, anchor) == 1.0
    requires from in r && to in r && base in r
    requires r[from] == f[from] / f[base] && r[to] == f[to] / f[base] && r[base] == 1.0
    ensures ConvertAmount(amount, from, to, Some(r), base) == ConvertAmount(amount, from, to, Some(f), anchor)
  {
    assert r[from] != 0.0 && r[to] != 0.0;
    ConvertNormalForm(amount, from, to, r, base);
    ConvertNormalForm(amount, from, to, f, anchor);
    CrossRateScaling(amount, f[from], f[to], f[base]);
  }

  /** With the corrected failure path, every conversion through the re-quoted
      fallback table agrees with the same conversion through the USD-quoted
      table read against USD: the selected base no longer changes the result. */
  lemma RebasedFallbackConverts(amount: real, from: string, to: string, base: string)
    requires base in FallbackRates && from in FallbackRates && to in FallbackRates
    ensures ConvertAmount(amount, from, to, Some(RebasedFallback(base)), base)
         == ConvertAmount(amount, from, to, Some(FallbackRates), "USD")
  {
    FallbackRatesCoverSupported();
    var f := FallbackRates;
    var r := RebasedFallback(base);
    RebasedFallbackRates(base, from);
    RebasedFallbackRates(base, to);
    RequotedTableConvertsAlike(amount, from, to, f, "USD", r, base);
  }

  /** One entry of the re-quoted fallback table. */
  lemma RebasedFallbackRates(base: string, k: string)
    requires base in FallbackRates && k in FallbackRates
    ensures k in RebasedFallback(base) && base in RebasedFallback(base)
    ensures RebasedFallback(base)[k] == FallbackRates[k] / FallbackRates[base]
  {
    FallbackRatesCoverSupported();
    var r := RebasedFallback(base);
    var fb := FallbackRates[base];
    assert r[k] * fb == FallbackRates[k];
    assert fb > 0.0;
  }

  /** A USD amount converted into the base through the corrected fallback is
      multiplied by the base's rate, as a live response for that base gives. */
  lemma CorrectedFallbackConvertsFromUsd(cache: Cache, now: int, base: string, amount: real)
    requires base in FallbackRates && base != "USD"
    requires !IsCacheValid(cache, base, now)
    ensures var step := GetRatesCorrected(cache, now, base, FetchFailed);
      && step.rates[base] == 1.0
      && ConvertAmount(amount, "USD", base, Some(step.rates), base) == amount * FallbackRates[base]
  {
    FallbackRatesCoverSupported();
    RebasedFallbackConverts(amount, "USD", base, base);
  }

  /** The hook's initial selected currency, as the source computes it: the
      default currency of `detectUserCountry()`. */
  function InitialCurrency(language: string): SupportedCurrency {
    Locale.GetDefaultCurrency(Locale.DetectUserCountry(language))
  }

  /** The initial currency under the corrected region detection
      `Locale.DetectRegion`. */
  function InitialCurrencyCorrected(language: string): SupportedCurrency {
    Locale.GetDefaultCurrency(Locale.DetectRegion(language))
  }

  /** For `lang-REGION[-more]` tags both give the default currency of the
      upper-cased region. */
  lemma InitialCurrencyAgrees(lang: string, region: string, more: seq<string>)
    requires Locale.IsRegionSubtag(region)
    requires '-' !in lang
    requires SeparatorFree(more, '-')
    ensures InitialCurrency(Join([lang, region] + more, '-'))
         == InitialCurrencyCorrected(Join([lang, region] + more, '-'))
         == Locale.GetDefaultCurrency(ToUpper(region))
  {
    Locale.DetectRegionAgrees(lang, region, more);
    Locale.NoSeparatorInSubtag(region);
    Locale.DetectUserCountrySecondSubtag(lang, region, more);
  }

  /** For `lang-Script-REGION[-more]` tags, such as "en-Latn-GB", the source
      looks up the upper-cased script, which no country code matches, and
      always starts on USD; the corrected rule starts on the region's
      currency (GBP for "en-Latn-GB"). */
  lemma InitialCurrencyWithScript(lang: string, script: string, region: string, more: seq<string>)
    requires Locale.IsScriptSubtag(script) && Locale.IsRegionSubtag(region)
    requires '-' !in lang
    requires SeparatorFree(more, '-')
    ensures InitialCurrency(Join([lang, script, region] + more, '-')) == USD
    ensures InitialCurrencyCorrected(Join([lang, script, region] + more, '-')) == Locale.GetDefaultCurrency(ToUpper(region))
  {
    Locale.DetectUserCountryReportsScript(lang, script, region, more);
    assert |ToUpper(script)| == 4;
  }
}
