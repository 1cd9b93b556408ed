/** Locale-derived defaults (src/utils/locale.ts): the user's country from a
    browser language tag, its default currency, and currency metadata lookup.
    The language tag (`navigator.language`) is a parameter. */
module Locale {
  import opened Wrappers
  import opened Currency
  import Seqs
  import opened Strings

  const DefaultCountry: string := "US"

  /** Country as the source derives it: the second `-`-separated subtag,
      upper-cased, or "US" when the tag is empty or that subtag is missing
      or empty. Under BCP 47 the second subtag may be a script or an
      extended-language subtag rather than a region; see `DetectRegion`. */
  function DetectUserCountry(language: string): (country: string)
    ensures country != ""
    ensures forall k :: 0 <= k < |country| ==> !IsAsciiLower(country[k])
  {
    if language == "" then DefaultCountry
    else
      var parts := Split(language, '-');
      if |parts| >= 2 && parts[1] != "" then ToUpper(parts[1]) else DefaultCountry
  }

  /** A tag `lang-second[-more]` yields the upper-cased second subtag. */
  lemma DetectUserCountrySecondSubtag(lang: string, second: string, more: seq<string>)
    requires second != ""
    requires '-' !in lang && '-' !in second
    requires SeparatorFree(more, '-')
    ensures DetectUserCountry(Join([lang, second] + more, '-')) == ToUpper(second)
  {
    var parts := [lang, second] + more;
    var tag := Join(parts, '-');
    SplitJoin(parts, '-');
    assert Split(tag, '-') == parts;
    assert tag == lang + ['-'] + Join(parts[1..], '-');
    assert |tag| > 0;
  }

  /** A tag without a second subtag, or with an empty one, yields "US". */
  lemma DetectUserCountryFallsBack(language: string)
    requires '-' !in language || Split(language, '-')[1] == ""
    ensures DetectUserCountry(language) == "US"
  {
  }

  /** BCP 47 subtag shapes (RFC 5646 section 2.2): a region is two letters or
      three digits, a script four letters, a singleton one character. */
  predicate IsAsciiLetter(c: char) { IsAsciiLower(c) || IsAsciiUpper(c) }
  predicate IsAsciiDigit(c: char) { '0' <= c <= '9' }

  predicate IsRegionSubtag(t: string) {
    (|t| == 2 && IsAsciiLetter(t[0]) && IsAsciiLetter(t[1]))
    || (|t| == 3 && IsAsciiDigit(t[0]) && IsAsciiDigit(t[1]) && IsAsciiDigit(t[2]))
  }

  predicate IsScriptSubtag(t: string) {
    |t| == 4 && IsAsciiLetter(t[0]) && IsAsciiLetter(t[1]) && IsAsciiLetter(t[2]) && IsAsciiLetter(t[3])
  }

  /** The first region-shaped subtag after the primary language subtag and
      before any singleton (extension or private-use marker). */
  function FindRegion(subtags: seq<string>): (r: Option<string>)
    ensures r.Some? ==> IsRegionSubtag(r.value) && r.value in subtags
  {
    if |subtags| == 0 || |subtags[0]| == 1 then None
    else if IsRegionSubtag(subtags[0]) then Some(subtags[0])
    else FindRegion(subtags[1..])
  }

  /** Corrected country detection: the region subtag of the tag, upper-cased,
      skipping script and extended-language subtags; "US" when there is none. */
  function DetectRegion(language: string): (country: string)
    ensures country != ""
    ensures forall k :: 0 <= k < |country| ==> !IsAsciiLower(country[k])
  {
    var parts := Split(language, '-');
    match FindRegion(parts[1..])
    case Some(region) => ToUpper(region)
    case None => DefaultCountry
  }

  /** Region and script subtags consist of letters and digits only. */
  lemma NoSeparatorInSubtag(t: string)
    requires IsRegionSubtag(t) || IsScriptSubtag(t)
    ensures '-' !in t
  {
  }

  /** `DetectRegion` of a joined tag reads the region among its pieces. */
  lemma DetectRegionOfJoin(parts: seq<string>, region: string)
    requires |parts| >= 1 && SeparatorFree(parts, '-')
    requires FindRegion(parts[1..]) == Some(region)
    ensures DetectRegion(Join(parts, '-')) == ToUpper(region)
  {
    SplitJoin(parts, '-');
  }

  /** A script subtag is skipped on the way to the region. */
  lemma FindRegionAfterScript(script: string, region: string, more: seq<string>)
    requires IsScriptSubtag(script) && IsRegionSubtag(region)
    ensures FindRegion([script, region] + more) == Some(region)
  {
    assert ([script, region] + more)[1..] == [region] + more;
  }

  /** `lang-Script-REGION[-more]` yields the region, not the script. */
  lemma DetectRegionSkipsScript(lang: string, script: string, region: string, more: seq<string>)
    requires IsScriptSubtag(script) && IsRegionSubtag(region)
    requires '-' !in lang
    requires SeparatorFree(more, '-')
    ensures DetectRegion(Join([lang, script, region] + more, '-')) == ToUpper(region)
  {
    NoSeparatorInSubtag(script);
    NoSeparatorInSubtag(region);
    var parts := [lang, script, region] + more;
    assert SeparatorFree([lang, script, region], '-');
    SeparatorFreeConcat([lang, script, region], more, '-');
    assert parts[1] == script && parts[2] == region && parts[3..] == more;
    DetectRegionAfterScript(parts);
  }

  /** The same, stated on the pieces of the tag. */
  lemma DetectRegionAfterScript(parts: seq<string>)
    requires |parts| >= 3 && SeparatorFree(parts, '-')
    requires IsScriptSubtag(parts[1]) && IsRegionSubtag(parts[2])
    ensures DetectRegion(Join(parts, '-')) == ToUpper(parts[2])
  {
    assert parts[1..] == [parts[1], parts[2]] + parts[3..];
    FindRegionAfterScript(parts[1], parts[2], parts[3..]);
    DetectRegionOfJoin(parts, parts[2]);
  }

  /** Whenever the second subtag is a region, both detections agree. */
  lemma DetectRegionAgrees(lang: string, region: string, more: seq<string>)
    requires IsRegionSubtag(region)
    requires '-' !in lang
    requires SeparatorFree(more, '-')
    ensures DetectRegion(Join([lang, region] + more, '-')) == DetectUserCountry(Join([lang, region] + more, '-'))
  {
    DetectUserCountrySecondSubtag(lang, region, more);
    NoSeparatorInSubtag(region);
    var parts := [lang, region] + more;
    assert SeparatorFree([lang, region], '-');
    SeparatorFreeConcat([lang, region], more, '-');
    assert parts[1] == region;
    DetectRegionAtSecond(parts);
  }

  /** A region in second place is what `DetectRegion` reports. */
  lemma DetectRegionAtSecond(parts: seq<string>)
    requires |parts| >= 2 && SeparatorFree(parts, '-')
    requires IsRegionSubtag(parts[1])
    ensures DetectRegion(Join(parts, '-')) == ToUpper(parts[1])
  {
    assert FindRegion(parts[1..]) == Some(parts[1]);
    DetectRegionOfJoin(parts, parts[1]);
  }

  /** The discrepancy: on every tag `lang-Script-REGION[-more]` (such as
      "zh-Hant-TW") the source reports the script subtag as the country,
      where the region is meant; the two always differ. */
  lemma DetectUserCountryReportsScript(lang: string, script: string, region: string, more: seq<string>)
    requires IsScriptSubtag(script) && IsRegionSubtag(region)
    requires '-' !in lang
    requires SeparatorFree(more, '-')
    ensures DetectUserCountry(Join([lang, script, region] + more, '-')) == ToUpper(script)
    ensures DetectRegion(Join([lang, script, region] + more, '-')) == ToUpper(region)
    ensures ToUpper(script) != ToUpper(region)
  {
    NoSeparatorInSubtag(script);
    NoSeparatorInSubtag(region);
    assert [lang, script, region] + more == [lang, script] + ([region] + more);
    SeparatorFreeConcat([region], more, '-');
    DetectUserCountrySecondSubtag(lang, script, [region] + more);
    DetectRegionSkipsScript(lang, script, region, more);
  }

  /** Default currency of a country: CR, US, GB and ES are mapped; every other
      string falls back to USD. */
  function GetDefaultCurrency(country: string): (c: SupportedCurrency)
    ensures c == CRC <==> country == "CR"
    ensures c == GBP <==> country == "GB"
    ensures c == EUR <==> country == "ES"
    ensures c == USD <==> country != "CR" && country != "GB" && country != "ES"
  {
    var currencyMap := map["CR" := CRC, "US" := USD, "GB" := GBP, "ES" := EUR];
    if country in currencyMap then currencyMap[country] else USD
  }

  /** Metadata of a currency code: the table entry with that code, or the
      first (USD) entry for any unknown code. Never fails. */
  function GetCurrencyInfo(code: string): (info: CurrencyInfo)
    ensures info in SupportedCurrencies
    ensures ParseCurrency(code).Some? ==> info.code == ParseCurrency(code).value
    ensures ParseCurrency(code).None? ==> info == SupportedCurrencies[0]
  {
    match Seqs.FindIndex(SupportedCurrencies, (i: CurrencyInfo) => Code(i.code) == code)
    case Some(k) => SupportedCurrencies[k]
    case None => SupportedCurrencies[0]
  }
}
