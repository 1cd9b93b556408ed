# Stock gift certificates: verified model of the application rules

The application is a browser front end. It creates "stock gift certificates",
tracks a simulated share price and keeps a list of saved certificates. Most of
it is rendering. This project models the pure rules and small state machines
underneath, as immutable Dafny datatypes and pure functions. The clock, the
outcome of HTTP requests, the random verification code, the browser language
tag and the calendar arithmetic of date-fns are all parameters.

| file | module | models |
|---|---|---|
| `wrappers.dfy` | `Wrappers` | `Option`, standing in for `undefined`/`null` |
| `seqs.dfy` | `Seqs` | order-preserving filter, first-index search, stable insertion sort |
| `strings.dfy` | `Strings` | ASCII case mapping, `includes`, `split`/join on one character |
| `currency.dfy` | `Currency` | the four supported currencies and their metadata table |
| `locale.dfy` | `Locale` | country from a language tag, default currency, currency lookup |
| `exchange_rates.dfy` | `ExchangeRates` | the rate cache as a step function, plus runs of several calls |
| `conversion.dfy` | `Conversion` | `convertAmount` and the hook's initial currency |
| `certificates.dfy` | `Certificates` | the certificate record, signing and verification |
| `app_state.dfy` | `AppState` | the shell's handlers and its choice of main view |
| `gift_list.dfy` | `GiftList` | recipient options and the filtered, sorted gift list |
| `price_chart.dfy` | `PriceChart` | time ranges, the date filter, date formats, the y-axis domain, the percentage change |

Some modelling choices:

- **Rate cache.** The singleton's mutable map is a `Cache` value. `GetRates`
  takes it and returns the next cache, the returned table and a `Source`
  (`FromCache`, `FromNetwork` or `FromFallback`). The source reads the clock
  twice: once for the validity check, and again after the awaited request,
  for the stored timestamp. So a successful `FetchOutcome` carries its own
  completion time.
- **Empty rate table.** In JavaScript an empty object `{}` is truthy. So
  `convertAmount` with an empty table does not take the "no rates" branch.
  It still returns the amount unchanged, because every rate defaults to 1
  (`ConvertWithEmptyTable`).
- **Gift sort.** The sort is `Array.prototype.sort`, which is stable. A
  stable sort under a total preorder has exactly one result. It is modelled
  by an insertion sort that is stable by construction. The proofs cover the
  key order and the permutation, not stability. The `localeCompare` collation
  is a parameter. It is required to be a sign-consistent, transitive
  comparator.
- **Dates.** Dates are millisecond timestamps. A series point whose date
  string does not parse has `date == None` and is never kept, because an
  invalid `Date` compares false with everything.

## Model

| member | source | states |
|---|---|---|
| `Currency.SupportedCurrenciesTable` | src/types/currency.ts:11-24 | the table has four entries with pairwise distinct codes; every supported currency is listed; USD comes first; the symbols are $, €, £ and ₡ |
| `Currency.ParseCurrency` | src/types/currency.ts:11 | a string is a supported code exactly when it spells one of USD, EUR, GBP or CRC |
| `Locale.DetectUserCountry` | src/utils/locale.ts:3-14 | the detected country is never empty and contains no lower-case ASCII letter |
| `Locale.DetectUserCountrySecondSubtag` | src/utils/locale.ts:5-8 | for a tag `lang-second[-more]` with a non-empty second subtag, the result is that subtag upper-cased |
| `Locale.DetectUserCountryFallsBack` | src/utils/locale.ts:6-8 | a tag with no second subtag, or an empty one, yields "US" |
| `Locale.DetectUserCountryReportsScript` | src/utils/locale.ts:5-8 | on every tag `lang-Script-REGION[-more]`, such as "zh-Hant-TW", the source's rule yields the upper-cased script while the corrected rule yields the region, and the two differ |
| `Locale.DetectRegion` | src/utils/locale.ts:3-14 | corrected detection: the result is never empty and has no lower-case ASCII letter |
| `Locale.DetectRegionSkipsScript` | src/utils/locale.ts:5-8 | corrected detection on `lang-Script-REGION[-more]` yields the region upper-cased |
| `Locale.DetectRegionAgrees` | src/utils/locale.ts:5-8 | when the second subtag is a region, corrected and as-written detection agree |
| `Locale.GetDefaultCurrency` | src/utils/locale.ts:16-25 | CRC iff "CR", GBP iff "GB", EUR iff "ES", and USD for every other string, "US" included |
| `Locale.GetCurrencyInfo` | src/utils/locale.ts:46-48 | the result is always a table entry; it is the entry of the code for a supported code, and the first (USD) entry otherwise |
| `ExchangeRates.FallbackRatesCoverSupported` | src/services/exchangeRates.ts:4-9 | the fallback table has exactly the keys USD, EUR, GBP and CRC, USD is 1, and every rate is positive |
| `ExchangeRates.GetRates` | src/services/exchangeRates.ts:27-54 | a valid entry is served with no request and no cache change; otherwise a successful response is stored for the base and returned; a failure returns the fallback table with the cache unchanged; entries of other bases are never touched |
| `ExchangeRates.CacheValidityWindow` | src/services/exchangeRates.ts:27-31 | `isCacheValid`: an entry is valid exactly while the clock is below its timestamp plus one hour, so validity at a later reading implies validity at every earlier one |
| `ExchangeRates.ValidityBoundary` | src/services/exchangeRates.ts:14-31 | an entry aged exactly 3,600,000 ms is stale, and one aged 3,599,999 ms is valid |
| `ExchangeRates.StepCacheEntry` | src/services/exchangeRates.ts:27-54 | every cache entry after a call is the entry that was there before it, or holds that call's response table and completion time |
| `ExchangeRates.FailureKeepsStaleEntry` | src/services/exchangeRates.ts:50-53 | a failed refresh keeps the stale entry in the cache |
| `ExchangeRates.TwoCallsOneFetch` | src/services/exchangeRates.ts:27-49 | two calls for one base within an hour of a successful first request issue exactly one request, and both return the fetched table |
| `ExchangeRates.ExpiredCallFetchesAgain` | src/services/exchangeRates.ts:27-49 | a second call an hour or more after the stored timestamp issues a second request |
| `ExchangeRates.Run` | src/services/exchangeRates.ts:33-54 | a run of calls, each completing before the next starts, returns one table per call and issues at most one request per call; a first call that misses the cache always issues a request, and one that hits it returns the cached table |
| `ExchangeRates.RunReturnsKnownTables` | src/services/exchangeRates.ts:33-54 | every table a run of calls returns is the fallback table, a table some response delivered, or a table that was already cached |
| `ExchangeRates.Requote` | src/services/exchangeRates.ts:4-9 | a table re-quoted against one of its currencies keeps its currencies, has that currency at 1, keeps positive rates positive, and each rate times the old rate of that currency is the old rate |
| `ExchangeRates.RebasedFallback` | src/services/exchangeRates.ts:4-9 | corrected fallback: the fallback table re-quoted against a base it lists has the same currencies, positive rates, the base at 1, and each rate times the base's USD rate is the USD-quoted rate |
| `ExchangeRates.GetRatesCorrected` | src/services/exchangeRates.ts:33-54 | corrected provider: same cache, source and table as `getRates` except on failure, where the table is the fallback re-quoted against the requested base, whose own rate is 1 |
| `Conversion.EffectiveRate` | src/hooks/useCurrency.ts:30-40 | the effective rate is never zero; it is the table's rate when that rate is present and non-zero, and 1 otherwise |
| `Conversion.ConvertAmount` | src/hooks/useCurrency.ts:20-45 | identity when the currencies match or no table is loaded; multiply by the target's rate out of the base; divide by the source's rate into the base; divide and then multiply across two non-base currencies |
| `Conversion.ConvertRoundTrip` | src/hooks/useCurrency.ts:29-36 | converting out of the base and back with the same table returns the original amount |
| `Conversion.ConvertCrossViaBase` | src/hooks/useCurrency.ts:29-40 | a cross conversion equals a conversion into the base followed by one out of it |
| `Conversion.ConvertWithEmptyTable` | src/hooks/useCurrency.ts:25-40 | with an empty table every conversion returns the amount |
| `Conversion.ConvertZeroRateIsIdentity` | src/hooks/useCurrency.ts:30-35 | a zero rate behaves like a missing one, in both directions |
| `Conversion.ConvertEurToGbpExample` | src/hooks/useCurrency.ts:38-40 | 50 EUR becomes 50 / 0.92 × 0.79 GBP through a USD table |
| `Conversion.ConvertNormalForm` | src/hooks/useCurrency.ts:25-40 | when the base's own rate is 1, every branch equals dividing by the source's rate and multiplying by the target's |
| `Conversion.RequotedTableConvertsAlike` | src/hooks/useCurrency.ts:25-40 | re-quoting a table against another of its currencies changes no conversion between listed currencies |
| `Conversion.FallbackIgnoresBase` | src/services/exchangeRates.ts:50-53 | as written, after a failed refresh for a non-USD base the hook's table has the base at a rate other than 1, and a USD amount converted into the base comes back unchanged rather than multiplied by the base's rate |
| `Conversion.RebasedFallbackConverts` | src/hooks/useCurrency.ts:25-40 | with the corrected fallback, every conversion between listed currencies gives the same result whichever base was requested, namely the result through the USD table read against USD |
| `Conversion.CorrectedFallbackConvertsFromUsd` | src/hooks/useCurrency.ts:29-36 | with the corrected provider, a failed refresh for a non-USD base gives the base a rate of 1, and a USD amount converted into it is multiplied by the base's fallback rate |
| `Conversion.InitialCurrencyAgrees` | src/hooks/useCurrency.ts:7-9 | for `lang-REGION` tags the initial currency, as written and under the corrected detection alike, is the default currency of the upper-cased region |
| `Conversion.InitialCurrencyWithScript` | src/hooks/useCurrency.ts:7-9 | for `lang-Script-REGION` tags such as "en-Latn-GB" the initial currency as written is always USD, while the corrected detection gives the region's default currency |
| `Certificates.SignCertificate` | src/utils/verification.ts:12-28 | only the signature block changes; the signer's field and the timestamp are set and the other signer's field is kept; labels and the enabled flag are kept; a non-empty code is preserved, and an absent or empty one is replaced by the fresh code |
| `Certificates.VerifySignedCertificate` | src/utils/verification.ts:8-25 | a signed certificate verifies against exactly one code: its earlier code if it had one, the fresh one otherwise |
| `Certificates.VerifyWithoutCodeFails` | src/utils/verification.ts:8-10 | a certificate without a code verifies against no string; with code c it verifies against c |
| `Certificates.VerifyCodeUnique` | src/utils/verification.ts:8-10 | `verifyCertificate` accepts at most one code for a certificate, and only one that carries a code |
| `Certificates.SignTwiceKeepsCode` | src/utils/verification.ts:25 | a second signing, by either party, keeps the non-empty code left by the first |
| `Certificates.SignBothOrderIndependent` | src/utils/verification.ts:19-25 | sender-then-recipient and recipient-then-sender signing give the same certificate |
| `AppState.SaveCertificate` | src/App.tsx:18-22 | the certificate is appended at the end and earlier entries are unchanged; it becomes the selection; the page becomes gifts |
| `AppState.DeleteGift` | src/App.tsx:24-29 | a certificate survives iff it was present and has a different id, and each survivor keeps its number of occurrences; the selection is cleared iff its id is the deleted one, and is otherwise unchanged |
| `AppState.DeleteGiftPreservesOrder` | src/App.tsx:25 | deleting from a concatenation is the concatenation of the deletions, so survivors keep their order |
| `AppState.SaveThenDeleteRestoresList` | src/App.tsx:18-29 | deleting the fresh id of a just-saved certificate restores the list and clears the selection |
| `AppState.ViewDetails` | src/App.tsx:31-33 | the certificate becomes the selection and nothing else changes |
| `AppState.Navigate` | src/App.tsx:40-45 | the page is set; going to the editor clears the selection; going to gifts keeps it |
| `AppState.Back` | src/App.tsx:70 | the selection is cleared and nothing else changes |
| `AppState.SetMode` | src/App.tsx:47 | the editor mode is set and nothing else changes |
| `AppState.MainView` | src/App.tsx:51-84 | the tracker is shown iff there is a selection, and it shows that certificate with a back link to the current page; the editor (simple or advanced by mode) is shown iff the page is editor with no selection; the list of all certificates is shown otherwise |
| `AppState.ExactlyOneMainView` | src/App.tsx:51-84 | exactly one of the three guarded blocks renders in every state |
| `AppState.HandlersSelectView` | src/App.tsx:31-84 | view details opens the tracker on that certificate; navigating to the editor shows the editor of the current mode; navigating to gifts shows the tracker if something is selected and the list otherwise; back shows the current page's view; switching mode on the editor switches the editor |
| `AppState.SaveShowsTracker` | src/App.tsx:18-82 | after a save the tracker shows the new certificate with a back link to gifts |
| `AppState.InitialShowsSimpleEditor` | src/App.tsx:13-16 | the application opens on the editor page in simple mode with nothing selected, so the simple editor is the view shown |
| `GiftList.Recipients` | src/components/gifts/GiftList.tsx:20-23 | no duplicates; a name is listed iff some gift has it as recipient; names appear in the order of their first gift |
| `GiftList.FilteredAndSortedGifts` | src/components/gifts/GiftList.tsx:25-44 | the shown list is a permutation of exactly the gifts matching both filters |
| `GiftList.ShownIffMatches` | src/components/gifts/GiftList.tsx:27-35 | a gift is shown iff it is in the list, the term is empty or a case-insensitive substring of its recipient or symbol, and the recipient filter is empty or equal to its recipient |
| `GiftList.NoFiltersShowsAll` | src/components/gifts/GiftList.tsx:28-32 | with both filters empty the shown list is a permutation of all gifts |
| `GiftList.NotAfterIsTotalPreorder` | src/components/gifts/GiftList.tsx:37-43 | the sort callback is a total preorder for dates, and for names under a consistent collation, in both orders |
| `GiftList.SortByDateOrdered` | src/components/gifts/GiftList.tsx:37-43 | sorting by date gives non-decreasing purchase dates ascending and non-increasing ones descending |
| `GiftList.SortByNameOrdered` | src/components/gifts/GiftList.tsx:37-43 | sorting by name follows the collation ascending, and its reverse descending |
| `PriceChart.RangesListedInOrder` | src/components/TimeRangeSelector.tsx:4-63 | eight distinct ranges, all of them offered, labelled 1D, 5D, 1M, 6M, YTD, 1Y, 5Y, ALL in that order; the chart opens on 6M |
| `PriceChart.FilterFrom` | src/components/TimeRangeSelector.tsx:90 | a point is kept iff its date parses and is at or after the cutoff; kept points keep their multiplicity |
| `PriceChart.GetFilteredData` | src/components/TimeRangeSelector.tsx:65-91 | the shown points are exactly those whose date parses and is at or after the selected range's cutoff |
| `PriceChart.FilterFromPreservesOrder` | src/components/TimeRangeSelector.tsx:90 | the filter distributes over concatenation, so kept points stay in their original order |
| `PriceChart.AllKeepsSinceEpoch` | src/components/TimeRangeSelector.tsx:83-90 | "ALL" keeps the whole series when every date is at or after the epoch |
| `PriceChart.FilterFromKeepsAll` | src/components/TimeRangeSelector.tsx:90 | a cutoff at or before every point's date keeps the whole series unchanged |
| `PriceChart.LaterCutoffKeepsLess` | src/components/TimeRangeSelector.tsx:90 | a later cutoff keeps a sub-multiset of what an earlier one keeps |
| `PriceChart.EarlierCutoffShowsMore` | src/components/TimeRangeSelector.tsx:67-90 | a range whose cutoff is no later shows every point the other range shows |
| `PriceChart.MonotoneCalendarCutoffs` | src/components/TimeRangeSelector.tsx:65-91 | the cutoff table: with date arithmetic that goes back further for larger counts, 5D, 6M and 5Y start no later than 1D, 1M and 1Y |
| `PriceChart.LongerRangesShowMore` | src/components/TimeRangeSelector.tsx:65-91 | under such date arithmetic, 5D, 6M and 5Y show every point that 1D, 1M and 1Y show |
| `PriceChart.AllShowsMost` | src/components/TimeRangeSelector.tsx:83-90 | "ALL" shows every point that a range with a cutoff at or after the epoch shows |
| `PriceChart.DateFormatShortRanges` | src/components/TimeRangeSelector.tsx:102-113 | 1D shows "HH:mm", 5D "EEE HH:mm", 1M "MMM d", and a range uses "MMM d, yyyy" iff it is none of these three |
| `PriceChart.DateFormat` | src/components/TimeRangeSelector.tsx:102-113 | the pattern ends in a time of day exactly for 1D and 5D, and in a year exactly for the ranges beyond one month |
| `PriceChart.MinOf` | src/components/StockChart.tsx:27 | the minimum is one of the prices and at most every price |
| `PriceChart.MaxOf` | src/components/StockChart.tsx:28 | the maximum is one of the prices and at least every price |
| `PriceChart.YAxisDomain` | src/components/StockChart.tsx:27-33 | the domain is the least price minus a tenth of the price range up to the greatest price plus a tenth of it, and every price lies within it |
| `PriceChart.FlatSeriesDomain` | src/components/StockChart.tsx:27-33 | a series of one repeated price gives the domain of that single price |
| `PriceChart.PercentChange` | src/components/StockChart.tsx:71-84 | for any non-zero purchase price, applying the percentage to the purchase price gives the price back; the change is zero exactly when the price equals the purchase price |
| `PriceChart.ChangePrefix` | src/components/StockChart.tsx:71-84 | "+" is shown exactly for a non-negative change, and nothing for a negative one |
| `PriceChart.PercentChangeSign` | src/components/StockChart.tsx:71-84 | with a positive purchase price, the change is non-negative (green) and "+" is shown exactly when the price is at or above the purchase price |
| `PriceChart.PercentChangeSignNegative` | src/components/StockChart.tsx:71-84 | with a negative purchase price the sign is inverted: the change is non-negative and "+" is shown exactly when the price is at or below the purchase price |

## Findings

| source | as written | input that shows it | evidently intended | confidence | as-written member | corrected member |
|---|---|---|---|---|---|---|
| src/services/exchangeRates.ts:52 | on any failure the fallback table, quoted against USD, is returned whatever base was requested, and the currency hook reads it as quoted against its selected currency | a failed refresh for base "EUR" gives a table with EUR at 0.92 instead of 1; the stock tracker's conversion of a USD price of 100 into EUR then shows 100 instead of 92 | the fallback re-quoted against the requested base | medium, not executed | `Conversion.FallbackIgnoresBase` | `Conversion.RebasedFallbackConverts` |
| src/utils/locale.ts:7 | the country is the second `-`-separated subtag of the language tag | "zh-Hant-TW" gives "HANT". The second subtag here is a script subtag (RFC 5646 section 2.2.3), and the region (section 2.2.4) is "TW" | the region subtag | medium, not executed | `Locale.DetectUserCountryReportsScript` | `Locale.DetectRegionSkipsScript` |

`ExchangeRates.GetRates` is kept as written. `ExchangeRates.GetRatesCorrected`
re-quotes the fallback table against the requested base
(`ExchangeRates.RebasedFallback`). `Conversion.CorrectedFallbackConvertsFromUsd`
shows the effect on the hook.

`Locale.DetectUserCountry` and `Conversion.InitialCurrency` are kept as
written. `Conversion.InitialCurrencyCorrected` uses the corrected
`Locale.DetectRegion`. `Conversion.InitialCurrencyWithScript` shows the effect
on the hook: "en-Latn-GB" starts on USD as written and on GBP when corrected.
`Conversion.InitialCurrencyAgrees` shows that the two agree on every tag whose
second subtag is a region.

## Left out

- Rendering: JSX, styling, modals, selectors, the canvas editors, QR codes and PDF export are presentational.
- The HTTP clients (axios calls in `exchangeRates.ts` and `stockApi.ts`) are not modelled. Each request is an abstract `FetchOutcome`.
- `ExchangeRates.GetRates`: a response body whose `rates` field is missing is cached as `undefined` by the source. The model's successful outcome always carries a table. The model adds no schema check.
- `ExchangeRates.Run`: calls that overlap are not modelled. The source checks the cache before it awaits the request, so two calls made before the first one resolves both miss, both send a request, and the later `cache.set` wins. `Run` completes each call before starting the next.
- Console logging on failures is a side effect with no effect on results.
- `formatCurrency` is not modelled, because it is a thin wrapper over `Intl.NumberFormat`.
- react-query's staleness, retries and its own caching in `useCurrency.ts` are library behaviour and not modelled.
- The `StockTracker.tsx` price simulation (`Math.random`, date-fns) and `StockAssets.tsx` display arithmetic are not modelled.
- `generateVerificationCode` is random. Its output is the `freshCode` parameter.
- Numbers are reals, not IEEE-754 doubles: rounding, NaN rates, `toFixed(2)` and the `Infinity` that `Math.min` of an empty list gives are not modelled.
- `PriceChart.YAxisDomain` requires a non-empty series. For an empty filtered series the source computes an infinite domain.
- `PriceChart.PercentChange`, `PriceChart.PercentChangeSign`: a purchase price of 0, the editor's default, makes the source divide by zero, so `PercentChange` requires a non-zero price. The editor also accepts negative purchase prices. For those the change is finite, but its sign is inverted: `PercentChangeSign` covers positive prices and `PercentChangeSignNegative` covers negative ones.
- date-fns `subDays`, `subMonths`, `subYears` and `startOfYear` are the `Calendar` parameter. Their calendar arithmetic is not modelled.
- The `default` branch of the cutoff switch (same cutoff as 6M) cannot be reached with a typed `TimeRange`. `Cutoff` matches the eight ranges exhaustively.
- `Strings.ToUpper` / `Strings.ToLower`: JavaScript's case mapping is full Unicode. The model maps ASCII letters only.
- `Locale.GetDefaultCurrency`: JavaScript property lookup also finds keys inherited from `Object.prototype` (for example "constructor"). The model looks up own keys only. Every string `DetectUserCountry` returns is free of lower-case letters, so it cannot name such a key.
- `Locale.DetectUserCountry`: `navigator.language` is the `language` parameter. The `try`/`catch` around reading it is not modelled.
- `GiftList.SortByNameOrdered`: the order is proved for a sign-consistent, transitive collation.
- `GiftList.SortByDateOrdered`, `GiftList.SortByNameOrdered` and `GiftList.FilteredAndSortedGifts` do not prove stability. Ties are common when sorting by date, since purchase dates are picked by day. The insertion sort used is stable, and the contracts state the key order and the permutation only, not that equal keys keep their input order.
- The inline currency-symbol lookups in `CertificatePreview.tsx`, `GiftCard.tsx` and `CertificateSuccessModal.tsx` are not modelled. Neither are the `SimpleEditor.tsx` form checks. They are one-line UI rules.
- i18n setup and string tables are not modelled.
