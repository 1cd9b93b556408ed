/** The price chart (src/components/StockChart.tsx and the time-range version
    embedded in src/components/TimeRangeSelector.tsx): the range selector, the
    cutoff each range implies, the date filter on the series, the tick date
    format, the padded y-axis domain and the tooltip's percentage change.
    The clock and date-fns' calendar arithmetic are parameters; dates are
    millisecond timestamps and prices are reals. */
module PriceChart {
  import opened Wrappers
  import Seqs

  datatype TimeRange = OneDay | FiveDays | OneMonth | SixMonths | YearToDate | OneYear | FiveYears | All

  function Label(r: TimeRange): string {
    match r
    case OneDay => "1D"
    case FiveDays => "5D"
    case OneMonth => "1M"
    case SixMonths => "6M"
    case YearToDate => "YTD"
    case OneYear => "1Y"
    case FiveYears => "5Y"
    case All => "ALL"
  }

  /** The selector's buttons, left to right. */
  const Ranges: seq<TimeRange> := [OneDay, FiveDays, OneMonth, SixMonths, YearToDate, OneYear, FiveYears, All]

  /** The chart opens on six months. */
  const InitialRange: TimeRange := SixMonths

  /** The selector offers each of the eight ranges once, in this order. */
  lemma RangesListedInOrder()
    ensures |Ranges| == 8
    ensures forall i, j :: 0 <= i < j < |Ranges| ==> Ranges[i] != Ranges[j]
    ensures forall r: TimeRange :: r in Ranges
    ensures seq(|Ranges|, k requires 0 <= k < |Ranges| => Label(Ranges[k]))
         == ["1D", "5D", "1M", "6M", "YTD", "1Y", "5Y", "ALL"]
    ensures InitialRange in Ranges && Label(InitialRange) == "6M"
  {
    forall r: TimeRange
      ensures r in Ranges
    {
      match r
      case OneDay => assert Ranges[0] == r;
      case FiveDays => assert Ranges[1] == r;
      case OneMonth => assert Ranges[2] == r;
      case SixMonths => assert Ranges[3] == r;
      case YearToDate => assert Ranges[4] == r;
      case OneYear => assert Ranges[5] == r;
      case FiveYears => assert Ranges[6] == r;
      case All => assert Ranges[7] == r;
    }
  }

  /** The date-fns operations the cutoff uses, on millisecond timestamps. */
  datatype Calendar = Calendar(
    subDays: (int, int) -> int,
    subMonths: (int, int) -> int,
    subYears: (int, int) -> int,
    startOfYear: int -> int)

  /** `new Date(0)`. */
  const Epoch: int := 0

  /** The earliest date shown for `range` when the clock reads `now`. */
  function Cutoff(range: TimeRange, now: int, cal: Calendar): int {
    match range
    case OneDay => cal.subDays(now, 1)
    case FiveDays => cal.subDays(now, 5)
    case OneMonth => cal.subMonths(now, 1)
    case SixMonths => cal.subMonths(now, 6)
    case YearToDate => cal.startOfYear(now)
    case OneYear => cal.subYears(now, 1)
    case FiveYears => cal.subYears(now, 5)
    case All => Epoch
  }

  /** One point of the series; `date` is `None` when the date string does not
      parse (an invalid `Date` compares false with everything). */
  datatype StockData = StockData(date: Option<int>, price: real)

  predicate OnOrAfter(item: StockData, cutoff: int) {
    item.date.Some? && item.date.value >= cutoff
  }

  /** The filter callback for a given cutoff. */
  function KeepFrom(cutoff: int): StockData -> bool {
    (x: StockData) => OnOrAfter(x, cutoff)
  }

  /** `data.filter(item => new Date(item.date) >= cutoff)`. */
  function FilterFrom(data: seq<StockData>, cutoff: int): (kept: seq<StockData>)
    ensures forall x :: x in kept <==> x in data && OnOrAfter(x, cutoff)
    ensures forall x :: multiset(kept)[x] == if OnOrAfter(x, cutoff) then multiset(data)[x] else 0
  {
    var p := KeepFrom(cutoff);
    assert forall x :: (x in Seqs.Filter(data, p) <==> x in data && OnOrAfter(x, cutoff))
                    && multiset(Seqs.Filter(data, p))[x] == if OnOrAfter(x, cutoff) then multiset(data)[x] else 0 by {
      forall x
        ensures x in Seqs.Filter(data, p) <==> x in data && OnOrAfter(x, cutoff)
        ensures multiset(Seqs.Filter(data, p))[x] == if OnOrAfter(x, cutoff) then multiset(data)[x] else 0
      {
        Seqs.FilterMembership(data, p, x);
        Seqs.FilterMultiset(data, p, x);
      }
    }
    Seqs.Filter(data, p)
  }

  /** `FilterFrom` is the list filter with the cutoff callback. */
  lemma FilterFromUnfold(data: seq<StockData>, cutoff: int)
    ensures FilterFrom(data, cutoff) == Seqs.Filter(data, KeepFrom(cutoff))
  {
  }

  /** `getFilteredData`: the points on or after the range's cutoff. */
  function GetFilteredData(data: seq<StockData>, range: TimeRange, now: int, cal: Calendar): (shown: seq<StockData>)
    ensures |shown| <= |data|
    ensures forall x :: x in shown <==> x in data && x.date.Some? && x.date.value >= Cutoff(range, now, cal)
  {
    FilterFrom(data, Cutoff(range, now, cal))
  }

  /** The filter keeps points in their original order. */
  lemma FilterFromPreservesOrder(front: seq<StockData>, back: seq<StockData>, cutoff: int)
    ensures FilterFrom(front + back, cutoff) == FilterFrom(front, cutoff) + FilterFrom(back, cutoff)
  {
    Seqs.FilterConcat(front, back, KeepFrom(cutoff));
  }

  /** A cutoff no later than every point's date keeps the whole series. */
  lemma FilterFromKeepsAll(data: seq<StockData>, cutoff: int)
    requires forall k :: 0 <= k < |data| ==> OnOrAfter(data[k], cutoff)
    ensures FilterFrom(data, cutoff) == data
  {
    var p := KeepFrom(cutoff);
    assert forall k :: 0 <= k < |data| ==> p(data[k]);
    Seqs.FilterKeepsAll(data, p);
    FilterFromUnfold(data, cutoff);
  }

  /** "ALL" keeps every point dated at or after the epoch, whatever the clock. */
  lemma AllKeepsSinceEpoch(data: seq<StockData>, now: int, cal: Calendar)
    requires forall k :: 0 <= k < |data| ==> data[k].date.Some? && data[k].date.value >= 0
    ensures GetFilteredData(data, All, now, cal) == data
  {
    FilterFromKeepsAll(data, Epoch);
  }

  /** A later cutoff keeps a sub-multiset of what an earlier one keeps. */
  lemma LaterCutoffKeepsLess(data: seq<StockData>, early: int, late: int)
    requires early <= late
    ensures multiset(FilterFrom(data, late)) <= multiset(FilterFrom(data, early))
  {
    Seqs.FilterMonotone(data, KeepFrom(early), KeepFrom(late));
  }

  /** date-fns moves back further for a larger count. */
  ghost predicate MonotoneCalendar(cal: Calendar, now: int) {
    && cal.subDays(now, 5) <= cal.subDays(now, 1)
    && cal.subMonths(now, 6) <= cal.subMonths(now, 1)
    && cal.subYears(now, 5) <= cal.subYears(now, 1)
  }

  /** A range whose cutoff is no later shows every point the other shows. */
  lemma EarlierCutoffShowsMore(data: seq<StockData>, now: int, cal: Calendar, shorter: TimeRange, longer: TimeRange)
    requires Cutoff(longer, now, cal) <= Cutoff(shorter, now, cal)
    ensures multiset(GetFilteredData(data, shorter, now, cal)) <= multiset(GetFilteredData(data, longer, now, cal))
  {
    LaterCutoffKeepsLess(data, Cutoff(longer, now, cal), Cutoff(shorter, now, cal));
  }

  /** With a monotone calendar, the longer range of each unit starts no later. */
  lemma MonotoneCalendarCutoffs(now: int, cal: Calendar)
    requires MonotoneCalendar(cal, now)
    ensures Cutoff(FiveDays, now, cal) <= Cutoff(OneDay, now, cal)
    ensures Cutoff(SixMonths, now, cal) <= Cutoff(OneMonth, now, cal)
    ensures Cutoff(FiveYears, now, cal) <= Cutoff(OneYear, now, cal)
  {
  }

  /** With a monotone calendar, 5D, 6M and 5Y each show every point that
      1D, 1M and 1Y show. */
  lemma LongerRangesShowMore(data: seq<StockData>, now: int, cal: Calendar)
    requires MonotoneCalendar(cal, now)
    ensures multiset(GetFilteredData(data, OneDay, now, cal)) <= multiset(GetFilteredData(data, FiveDays, now, cal))
    ensures multiset(GetFilteredData(data, OneMonth, now, cal)) <= multiset(GetFilteredData(data, SixMonths, now, cal))
    ensures multiset(GetFilteredData(data, OneYear, now, cal)) <= multiset(GetFilteredData(data, FiveYears, now, cal))
  {
    MonotoneCalendarCutoffs(now, cal);
    EarlierCutoffShowsMore(data, now, cal, OneDay, FiveDays);
    EarlierCutoffShowsMore(data, now, cal, OneMonth, SixMonths);
    EarlierCutoffShowsMore(data, now, cal, OneYear, FiveYears);
  }

  /** "ALL" shows every point that any range with a cutoff at or after the
      epoch shows. */
  lemma AllShowsMost(data: seq<StockData>, now: int, cal: Calendar, r: TimeRange)
    requires Cutoff(r, now, cal) >= Epoch
    ensures multiset(GetFilteredData(data, r, now, cal)) <= multiset(GetFilteredData(data, All, now, cal))
  {
    assert GetFilteredData(data, All, now, cal) == FilterFrom(data, Epoch);
    assert GetFilteredData(data, r, now, cal) == FilterFrom(data, Cutoff(r, now, cal));
    LaterCutoffKeepsLess(data, Epoch, Cutoff(r, now, cal));
  }

  /** The pattern ends in a time of day. */
  predicate ShowsTime(pattern: string) {
    |pattern| >= 5 && pattern[|pattern| - 5..] == "HH:mm"
  }

  /** The pattern ends in a year. */
  predicate ShowsYear(pattern: string) {
    |pattern| >= 4 && pattern[|pattern| - 4..] == "yyyy"
  }

  /** `getDateFormat`: the tick and tooltip date pattern. The two intraday
      ranges show a time of day, and only the ranges beyond a month show
      the year. */
  function DateFormat(range: TimeRange): (pattern: string)
    ensures ShowsTime(pattern) <==> range == OneDay || range == FiveDays
    ensures ShowsYear(pattern) <==> range != OneDay && range != FiveDays && range != OneMonth
  {
    match range
    case OneDay =>
      var p := "HH:mm";
      assert p[|p| - 5..] == p;
      assert p[|p| - 4..][0] == 'H';
      p
    case FiveDays =>
      var p := "EEE HH:mm";
      assert p[|p| - 5..] == "HH:mm";
      assert p[|p| - 4..][0] == 'H';
      p
    case OneMonth =>
      var p := "MMM d";
      assert p[|p| - 5..][0] == 'M';
      assert p[|p| - 4..][0] == 'M';
      p
    case _ =>
      var p := "MMM d, yyyy";
      assert p[|p| - 5..][0] == ' ';
      assert p[|p| - 4..] == "yyyy";
      p
  }

  /** The three short ranges have their own patterns; every other range,
      the initial one included, shows the full date. */
  lemma DateFormatShortRanges()
    ensures DateFormat(OneDay) == "HH:mm"
    ensures DateFormat(FiveDays) == "EEE HH:mm"
    ensures DateFormat(OneMonth) == "MMM d"
    ensures forall r: TimeRange :: r !in {OneDay, FiveDays, OneMonth} <==> DateFormat(r) == "MMM d, yyyy"
  {
  }

  function Prices(data: seq<StockData>): (prices: seq<real>)
    ensures |prices| == |data|
    ensures forall k :: 0 <= k < |data| ==> prices[k] == data[k].price
  {
    seq(|data|, k requires 0 <= k < |data| => data[k].price)
  }

  function Min(a: real, b: real): real { if a <= b then a else b }
  function Max(a: real, b: real): real { if a >= b then a else b }

  /** `Math.min(...prices)` on a non-empty list. */
  function MinOf(prices: seq<real>): (m: real)
    requires |prices| > 0
    ensures m in prices
    ensures forall k :: 0 <= k < |prices| ==> m <= prices[k]
  {
    if |prices| == 1 then prices[0] else Min(prices[0], MinOf(prices[1..]))
  }

  /** `Math.max(...prices)` on a non-empty list. */
  function MaxOf(prices: seq<real>): (m: real)
    requires |prices| > 0
    ensures m in prices
    ensures forall k :: 0 <= k < |prices| ==> m >= prices[k]
  {
    if |prices| == 1 then prices[0] else Max(prices[0], MaxOf(prices[1..]))
  }

  datatype Domain = Domain(lower: real, upper: real)

  /** `yAxisDomain`: the price range widened by a tenth of its width on each side. */
  function YAxisDomain(data: seq<StockData>): (d: Domain)
    requires |data| > 0
    ensures forall k :: 0 <= k < |data| ==> d.lower <= data[k].price <= d.upper
    // the price range widened by a tenth of its width on each side
    ensures d.lower == MinOf(Prices(data)) - (MaxOf(Prices(data)) - MinOf(Prices(data))) * 0.1
    ensures d.upper == MaxOf(Prices(data)) + (MaxOf(Prices(data)) - MinOf(Prices(data))) * 0.1
  {
    var minValue := MinOf(Prices(data));
    var maxValue := MaxOf(Prices(data));
    var valueRange := maxValue - minValue;
    Domain(minValue - valueRange * 0.1, maxValue + valueRange * 0.1)
  }

  /** A flat series gives a domain of the single price. */
  lemma FlatSeriesDomain(data: seq<StockData>, price: real)
    requires |data| > 0
    requires forall k :: 0 <= k < |data| ==> data[k].price == price
    ensures YAxisDomain(data) == Domain(price, price)
  {
    var prices := Prices(data);
    assert MinOf(prices) == price;
    assert MaxOf(prices) == price;
  }

  /** The tooltip's change against the purchase price, in percent. */
  function PercentChange(price: real, purchasePrice: real): (pct: real)
    requires purchasePrice != 0.0
    // applying the change to the purchase price gives the price back
    ensures purchasePrice + purchasePrice * pct / 100.0 == price
    ensures pct == 0.0 <==> price == purchasePrice
  {
    var d := price - purchasePrice;
    var pct := d / purchasePrice * 100.0;
    assert purchasePrice * pct / 100.0 == d;
    pct
  }

  /** Sign prefix shown before the percentage: "+" for a gain or no change,
      nothing for a loss, whose number already carries its minus sign. */
  function ChangePrefix(percentChange: real): (prefix: string)
    ensures prefix == "+" <==> percentChange >= 0.0
    ensures prefix == "" <==> percentChange < 0.0
  {
    if percentChange >= 0.0 then "+" else ""
  }

  /** A gain (green, with "+") is shown exactly when the price is at or above
      the purchase price. */
  lemma PercentChangeSign(price: real, purchasePrice: real)
    requires purchasePrice > 0.0
    ensures PercentChange(price, purchasePrice) >= 0.0 <==> price >= purchasePrice
    ensures ChangePrefix(PercentChange(price, purchasePrice)) == "+" <==> price >= purchasePrice
  {
    var d := price - purchasePrice;
    if d >= 0.0 {
      assert d / purchasePrice >= 0.0;
    } else {
      assert d / purchasePrice < 0.0;
    }
  }

  /** A negative purchase price, which the editor accepts, inverts the sign:
      the change is shown as a gain exactly when the price is at or below
      the purchase price. */
  lemma PercentChangeSignNegative(price: real, purchasePrice: real)
    requires purchasePrice < 0.0
    ensures PercentChange(price, purchasePrice) >= 0.0 <==> price <= purchasePrice
    ensures ChangePrefix(PercentChange(price, purchasePrice)) == "+" <==> price <= purchasePrice
  {
    var d := price - purchasePrice;
    if d <= 0.0 {
      assert d / purchasePrice >= 0.0;
    } else {
      assert d / purchasePrice < 0.0;
    }
  }

}
