/** The exchange-rate provider (src/services/exchangeRates.ts): a per-base-
    currency cache of rate tables with a one-hour validity window and a
    hard-coded fallback table on any failure. The singleton's mutable map is
    an explicit `Cache` value threaded through `GetRates`; the clock and the
    outcome of the HTTP request are parameters. */
module ExchangeRates {

  /** Units of each currency per one unit of the base currency. */
  type RateTable = map<string, real>

  /** Validity window of a cache entry, in milliseconds (one hour). */
  const CacheTimeout: int := 3600000

  const FallbackRates: RateTable := map["USD" := 1.0, "EUR" := 0.92, "GBP" := 0.79, "CRC" := 520.25]

  datatype CacheEntry = CacheEntry(rates: RateTable, timestamp: int)

  /** Base currency code to its most recent successful response. */
  type Cache = map<string, CacheEntry>

  /** What the HTTP request for a base currency produced: the response's rate
      table together with the clock reading taken once it arrived, or any
      failure (network error, bad status, malformed body). */
  datatype FetchOutcome = Fetched(rates: RateTable, completedAt: int) | FetchFailed

  /** Which path produced the returned table. */
  datatype Source = FromCache | FromNetwork | FromFallback

  datatype RatesStep = RatesStep(cache: Cache, rates: RateTable, source: Source) {
    /** Whether this step issued the HTTP request. */
    predicate Fetches() { source != FromCache }
  }

  /** The fallback table quotes against USD and covers every supported currency. */
  lemma FallbackRatesCoverSupported()
    ensures FallbackRates.Keys == {"USD", "EUR", "GBP", "CRC"}
    ensures FallbackRates["USD"] == 1.0
    ensures forall code :: code in FallbackRates ==> FallbackRates[code] > 0.0
  {
  }

  /** An entry is usable while its age is strictly below the timeout. */
  predicate IsCacheValid(cache: Cache, base: string, now: int) {
    base in cache && now - cache[base].timestamp < CacheTimeout
  }

  /** One call of `getRates(base)` at clock reading `now`; `fetch` is consulted
      only when the cached entry is missing or stale. */
  function GetRates(cache: Cache, now: int, base: string, fetch: FetchOutcome): (step: RatesStep)
    // a valid entry is served as is, with no request and no cache change
    ensures IsCacheValid(cache, base, now) <==> step.source == FromCache
    ensures step.source == FromCache ==> step.rates == cache[base].rates && step.cache == cache
    // otherwise a successful response is stored for `base` and returned
    ensures step.source == FromNetwork <==> !IsCacheValid(cache, base, now) && fetch.Fetched?
    ensures step.source == FromNetwork ==>
      && step.rates == fetch.rates
      && step.cache.Keys == cache.Keys + {base}
      && step.cache[base] == CacheEntry(fetch.rates, fetch.completedAt)
    // and a failure yields the fallback table and leaves the cache alone
    ensures step.source == FromFallback ==> step.rates == FallbackRates && step.cache == cache
    // entries of other bases are never touched
    ensures forall b :: b != base ==> (b in step.cache <==> b in cache)
    ensures forall b :: b != base && b in cache ==> step.cache[b] == cache[b]
  {
    if IsCacheValid(cache, base, now) then
      RatesStep(cache, cache[base].rates, FromCache)
    else
      match fetch
      case Fetched(rates, completedAt) =>
        RatesStep(cache[base := CacheEntry(rates, completedAt)], rates, FromNetwork)
      case FetchFailed =>
        RatesStep(cache, FallbackRates, FromFallback)
  }

  /** A table re-quoted against one of its currencies: every rate divided
      by that currency's rate, so that it reads "units per one unit of
      `base`". */
  function Requote(f: RateTable, base: string): (rates: RateTable)
    requires base in f && f[base] > 0.0
    ensures rates.Keys == f.Keys
    ensures rates[base] == 1.0
    ensures forall k :: k in rates ==> rates[k] * f[base] == f[k]
    ensures forall k :: k in rates && f[k] > 0.0 ==> rates[k] > 0.0
  {
    var b := f[base];
    map k | k in f :: f[k] / b
  }

  /** The fallback table re-quoted against `base`, so that the base's entry
      is 1 as in a response for `base`. A base outside the table cannot be
      re-quoted and keeps the table as is. */
  function RebasedFallback(base: string): (rates: RateTable)
    ensures rates.Keys == FallbackRates.Keys
    ensures base in FallbackRates ==> rates[base] == 1.0
    ensures base in FallbackRates ==>
      forall k :: k in rates ==> rates[k] > 0.0 && rates[k] * FallbackRates[base] == FallbackRates[k]
    ensures base !in FallbackRates ==> rates == FallbackRates
  {
    FallbackRatesCoverSupported();
    if base in FallbackRates then Requote(FallbackRates, base) else FallbackRates
  }

  /** `getRates` with the failure path corrected: the fallback table is
      re-quoted against the requested base. Cache handling and the hit and
      success paths are those of `GetRates`. */
  function GetRatesCorrected(cache: Cache, now: int, base: string, fetch: FetchOutcome): (step: RatesStep)
    ensures var written := GetRates(cache, now, base, fetch);
      && step.cache == written.cache && step.source == written.source
      && (step.source != FromFallback ==> step.rates == written.rates)
    // a failure yields a table quoted against the requested base
    ensures step.source == FromFallback ==> step.rates == RebasedFallback(base)
    ensures step.source == FromFallback && base in FallbackRates ==> step.rates[base] == 1.0
  {
    var written := GetRates(cache, now, base, fetch);
    if written.source == FromFallback then written.(rates := RebasedFallback(base)) else written
  }

  /** An entry stays valid from its timestamp until one hour later: validity
      at a later clock reading implies validity at every earlier one. */
  lemma CacheValidityWindow(cache: Cache, base: string, earlier: int, later: int)
    requires earlier <= later
    ensures IsCacheValid(cache, base, later) ==> IsCacheValid(cache, base, earlier)
    ensures IsCacheValid(cache, base, later) <==>
      base in cache && later < cache[base].timestamp + CacheTimeout
  {
  }

  /** An entry aged exactly one hour is stale; one a millisecond younger is not. */
  lemma ValidityBoundary(cache: Cache, base: string, now: int)
    requires base in cache
    ensures now - cache[base].timestamp == CacheTimeout ==> !IsCacheValid(cache, base, now)
    ensures now - cache[base].timestamp == CacheTimeout - 1 ==> IsCacheValid(cache, base, now)
  {
  }

  /** A failure never removes a stale entry: the next call still sees it. */
  lemma FailureKeepsStaleEntry(cache: Cache, now: int, base: string)
    requires base in cache && !IsCacheValid(cache, base, now)
    ensures base in GetRates(cache, now, base, FetchFailed).cache
    ensures GetRates(cache, now, base, FetchFailed).cache[base] == cache[base]
  {
  }

  /** Every table in the cache after a call was in the cache before it or
      came from that call's response. */
  lemma StepCacheEntry(cache: Cache, r: Request, b: string)
    requires b in GetRates(cache, r.now, r.base, r.fetch).cache
    ensures var entry := GetRates(cache, r.now, r.base, r.fetch).cache[b];
      || (b in cache && entry == cache[b])
      || (r.fetch.Fetched? && entry == CacheEntry(r.fetch.rates, r.fetch.completedAt))
  {
  }

  /** One request to the provider: the clock when it starts and what the
      network would answer if asked. */
  datatype Request = Request(now: int, base: string, fetch: FetchOutcome)

  datatype Trace = Trace(cache: Cache, results: seq<RateTable>, fetches: nat)

  /** A sequence of calls against the same provider, each one completing
      before the next starts, counting HTTP requests. */
  function Run(cache: Cache, requests: seq<Request>): (t: Trace)
    ensures |t.results| == |requests|
    ensures t.fetches <= |requests|
    // a first call that misses the cache always issues a request, failed or not
    ensures |requests| > 0 && !IsCacheValid(cache, requests[0].base, requests[0].now) ==> t.fetches >= 1
    // a first call that hits the cache returns the cached table
    ensures |requests| > 0 && IsCacheValid(cache, requests[0].base, requests[0].now) ==>
      t.results[0] == cache[requests[0].base].rates
    decreases |requests|
  {
    if |requests| == 0 then Trace(cache, [], 0)
    else
      var r := requests[0];
      var step := GetRates(cache, r.now, r.base, r.fetch);
      var rest := Run(step.cache, requests[1..]);
      Trace(rest.cache, [step.rates] + rest.results, rest.fetches + (if step.Fetches() then 1 else 0))
  }

  /** Two calls for the same base, the second starting after the first has
      completed and within the validity window of its successful request,
      perform exactly one HTTP request, and the second call
      returns the first call's table. The clock is assumed not to run
      backwards while the request is in flight. */
  lemma TwoCallsOneFetch(cache: Cache, base: string, now1: int, now2: int,
                         rates: RateTable, completedAt: int, fetch2: FetchOutcome)
    requires !IsCacheValid(cache, base, now1)
    requires now1 <= completedAt
    requires now2 - now1 < CacheTimeout
    ensures var t := Run(cache, [Request(now1, base, Fetched(rates, completedAt)), Request(now2, base, fetch2)]);
      t.fetches == 1 && t.results == [rates, rates]
  {
    var requests := [Request(now1, base, Fetched(rates, completedAt)), Request(now2, base, fetch2)];
    var first := GetRates(cache, now1, base, Fetched(rates, completedAt));
    assert first.source == FromNetwork;
    assert IsCacheValid(first.cache, base, now2);
    var second := GetRates(first.cache, now2, base, fetch2);
    assert second.source == FromCache;
    assert requests[1..] == [Request(now2, base, fetch2)];
    assert requests[1..][1..] == [];
  }

  /** Calls separated by a full window or more both go to the network. */
  lemma ExpiredCallFetchesAgain(cache: Cache, base: string, now1: int, now2: int,
                                rates1: RateTable, completedAt: int, fetch2: FetchOutcome)
    requires !IsCacheValid(cache, base, now1)
    requires now2 - completedAt >= CacheTimeout
    ensures var t := Run(cache, [Request(now1, base, Fetched(rates1, completedAt)), Request(now2, base, fetch2)]);
      t.fetches == 2
  {
    var requests := [Request(now1, base, Fetched(rates1, completedAt)), Request(now2, base, fetch2)];
    assert requests[1..] == [Request(now2, base, fetch2)];
    assert requests[1..][1..] == [];
  }

  /** Every table the provider returns is the fallback table, a table a
      response delivered, or a table already in the cache it started from. */
  lemma {:induction false} RunReturnsKnownTables(cache: Cache, requests: seq<Request>, i: nat)
    requires i < |requests|
    ensures var t := Run(cache, requests);
      || t.results[i] == FallbackRates
      || (exists j :: 0 <= j <= i && requests[j].fetch.Fetched? && t.results[i] == requests[j].fetch.rates)
      || (exists b :: b in cache && t.results[i] == cache[b].rates)
    decreases i
  {
    var step := GetRates(cache, requests[0].now, requests[0].base, requests[0].fetch);
    if i > 0 {
      RunReturnsKnownTables(step.cache, requests[1..], i - 1);
      var x := Run(cache, requests).results[i];
      assert x == Run(step.cache, requests[1..]).results[i - 1];
      if exists j :: 0 <= j <= i - 1 && requests[1..][j].fetch.Fetched? && x == requests[1..][j].fetch.rates {
        var j :| 0 <= j <= i - 1 && requests[1..][j].fetch.Fetched? && x == requests[1..][j].fetch.rates;
        assert requests[j + 1] == requests[1..][j];
      } else if exists b :: b in step.cache && x == step.cache[b].rates {
        var b :| b in step.cache && x == step.cache[b].rates;
        StepCacheEntry(cache, requests[0], b);
      }
    }
  }
}
