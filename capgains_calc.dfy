/**
 * The capital-gains report: which transactions are fed to the ACB fold,
 * which are reported, and the exchange-rate table built per currency.
 */
module CalcCommand {
  import opened Wrappers
  import opened Records
  import Dates
  import Lex
  import Rates
  import Collection

  /** The arguments of `filter_by(tickers=[ticker], max_year=year)`. */
  function TickerUpTo(ticker: string, year: int): Collection.FilterArgs
  {
    Collection.FilterArgs(Some([ticker]), None, Some(year), None, None)
  }

  /** The arguments of `filter_by(year=year, action='SELL', superficial_loss=False)`. */
  function SalesOf(year: int): Collection.FilterArgs
  {
    Collection.FilterArgs(None, Some(year), None, Some(Sell), Some(false))
  }

  /**
   * Needed for the ACB of a ticker: its entries up to and including max_year.
   * For a non-zero year this is the collection's test for `TickerUpTo`.
   */
  predicate FilterTransaction(t: Transaction, maxYear: int, ticker: string): (b: bool)
    reads t
    ensures maxYear != 0 ==> (b <==> Collection.Keep(t, TickerUpTo(ticker, maxYear)))
  {
    if t.ticker != ticker then false
    else if Dates.YearOf(t.date) > maxYear then false
    else true
  }

  /**
   * Reported: sales of the given year that are not superficial losses. For a
   * non-zero year this is the collection's test for `SalesOf`.
   */
  predicate FilterCalculatedTransaction(t: Transaction, year: int): (b: bool)
    reads t
    ensures year != 0 ==> (b <==> Collection.Keep(t, SalesOf(year)))
  {
    if Dates.YearOf(t.date) != year then false
    else if t.action != Sell then false
    else if t.superficialLoss then false
    else true
  }

  function ForTicker(ts: seq<Transaction>, maxYear: int, ticker: string): seq<Transaction>
    reads ts
  {
    if ts == [] then []
    else (if FilterTransaction(ts[0], maxYear, ticker) then [ts[0]] else []) + ForTicker(ts[1..], maxYear, ticker)
  }

  function YearSales(ts: seq<Transaction>, year: int): seq<Transaction>
    reads ts
  {
    if ts == [] then []
    else (if FilterCalculatedTransaction(ts[0], year) then [ts[0]] else []) + YearSales(ts[1..], year)
  }

  /** The ticker filter is the collection's filter by [ticker] and max_year (for a non-zero year). */
  lemma {:induction false} ForTickerIsFilterBy(ts: seq<Transaction>, maxYear: int, ticker: string)
    requires maxYear != 0
    ensures ForTicker(ts, maxYear, ticker)
            == Collection.Select(ts, TickerUpTo(ticker, maxYear))
  {
    if ts != [] {
      ForTickerIsFilterBy(ts[1..], maxYear, ticker);
    }
  }

  /** The report filter is the collection's filter by year, "SELL" and superficial_loss=False. */
  lemma {:induction false} YearSalesIsFilterBy(ts: seq<Transaction>, year: int)
    requires year != 0
    ensures YearSales(ts, year)
            == Collection.Select(ts, SalesOf(year))
  {
    if ts != [] {
      YearSalesIsFilterBy(ts[1..], year);
    }
  }

  /** The span of dates one currency's transactions cover. */
  datatype DateRange = DateRange(first: int, last: int)

  /** One step of the first loop: widen the currency's range to cover the date. */
  function Widen(ranges: map<string, DateRange>, currency: string, date: int): map<string, DateRange>
  {
    if currency !in ranges then ranges[currency := DateRange(date, date)]
    else if date < ranges[currency].first then ranges[currency := DateRange(date, ranges[currency].last)]
    else if date > ranges[currency].last then ranges[currency := DateRange(ranges[currency].first, date)]
    else ranges
  }

  /** The ranges the first loop builds: each entry in turn widens its currency's range. */
  function DateRanges(ts: seq<Transaction>): map<string, DateRange>
  {
    if ts == [] then map[]
    else Widen(DateRanges(ts[..|ts| - 1]), ts[|ts| - 1].currency, ts[|ts| - 1].date)
  }

  /** There is one range per currency present and no other. */
  lemma {:induction false} DateRangesKeys(ts: seq<Transaction>, c: string)
    ensures c in DateRanges(ts) <==> exists i :: 0 <= i < |ts| && ts[i].currency == c
  {
    if ts != [] {
      var init := ts[..|ts| - 1];
      DateRangesKeys(init, c);
      assert forall i :: 0 <= i < |init| ==> init[i] == ts[i];
    }
  }

  /** Every range is ordered: its first date is no later than its last. */
  lemma {:induction false} DateRangesOrdered(ts: seq<Transaction>, c: string)
    requires c in DateRanges(ts)
    ensures DateRanges(ts)[c].first <= DateRanges(ts)[c].last
  {
    var init := ts[..|ts| - 1];
    if c in DateRanges(init) {
      DateRangesOrdered(init, c);
    }
  }

  /** Every entry's date lies in its currency's range. */
  lemma {:induction false} DateRangesCover(ts: seq<Transaction>, i: int)
    requires 0 <= i < |ts|
    ensures ts[i].currency in DateRanges(ts)
    ensures DateRanges(ts)[ts[i].currency].first <= ts[i].date <= DateRanges(ts)[ts[i].currency].last
  {
    var init := ts[..|ts| - 1];
    assert DateRanges(ts) == Widen(DateRanges(init), ts[|ts| - 1].currency, ts[|ts| - 1].date);
    if ts[|ts| - 1].currency in DateRanges(init) {
      DateRangesOrdered(init, ts[|ts| - 1].currency);
    }
    if i < |ts| - 1 {
      assert init[i] == ts[i];
      DateRangesCover(init, i);
    }
  }

  /** Both ends of a range are dates of that currency's entries, so a range is exactly (min date, max date). */
  lemma {:induction false} DateRangesAttained(ts: seq<Transaction>, c: string)
    requires c in DateRanges(ts)
    ensures exists i :: 0 <= i < |ts| && ts[i].currency == c && ts[i].date == DateRanges(ts)[c].first
    ensures exists i :: 0 <= i < |ts| && ts[i].currency == c && ts[i].date == DateRanges(ts)[c].last
  {
    var n := |ts| - 1;
    var init := ts[..n];
    var before := DateRanges(init);
    assert forall i :: 0 <= i < |init| ==> init[i] == ts[i];
    if c in before {
      DateRangesAttained(init, c);
      var f :| 0 <= f < |init| && init[f].currency == c && init[f].date == before[c].first;
      var l :| 0 <= l < |init| && init[l].currency == c && init[l].date == before[c].last;
      if DateRanges(ts)[c].first != before[c].first {
        assert ts[n].date == DateRanges(ts)[c].first;
      }
      if DateRanges(ts)[c].last != before[c].last {
        assert ts[n].date == DateRanges(ts)[c].last;
      }
    } else {
      assert ts[n].currency == c && ts[n].date == DateRanges(ts)[c].first == DateRanges(ts)[c].last;
    }
  }

  /**
   * The key order of the range dictionary: each currency at its first
   * appearance, as a Python dict keeps its keys in insertion order.
   */
  function Appearance(ts: seq<Transaction>): seq<string>
  {
    if ts == [] then []
    else
      var before := Appearance(ts[..|ts| - 1]);
      if ts[|ts| - 1].currency in before then before else before + [ts[|ts| - 1].currency]
  }

  /** The key order lists each currency present, and no other. */
  lemma {:induction false} AppearanceMembers(ts: seq<Transaction>, c: string)
    ensures c in Appearance(ts) <==> exists i :: 0 <= i < |ts| && ts[i].currency == c
  {
    if ts != [] {
      var init := ts[..|ts| - 1];
      AppearanceMembers(init, c);
      assert forall i :: 0 <= i < |init| ==> init[i] == ts[i];
    }
  }

  /** The key order lists each currency once. */
  lemma {:induction false} AppearanceDistinct(ts: seq<Transaction>)
    ensures forall j, k :: 0 <= j < k < |Appearance(ts)| ==> Appearance(ts)[j] != Appearance(ts)[k]
  {
    if ts != [] {
      AppearanceDistinct(ts[..|ts| - 1]);
    }
  }

  /**
   * The k-th currency of the key order first appears at some position i, and
   * the currencies before it in the order are exactly those of the entries
   * before position i.
   */
  lemma {:induction false} AppearanceOrder(ts: seq<Transaction>, k: int)
    requires 0 <= k < |Appearance(ts)|
    ensures exists i :: 0 <= i < |ts| && ts[i].currency == Appearance(ts)[k]
              && forall c :: c in Appearance(ts)[..k] <==> exists j :: 0 <= j < i && ts[j].currency == c
  {
    var n := |ts| - 1;
    var init := ts[..n];
    var before := Appearance(init);
    assert forall i :: 0 <= i < |init| ==> init[i] == ts[i];
    if k < |before| {
      AppearanceOrder(init, k);
      var i :| 0 <= i < |init| && init[i].currency == before[k]
               && forall c :: c in before[..k] <==> exists j :: 0 <= j < i && init[j].currency == c;
      assert Appearance(ts)[..k] == before[..k];
      assert forall c :: c in Appearance(ts)[..k] <==> exists j :: 0 <= j < i && ts[j].currency == c;
    } else {
      assert Appearance(ts)[..k] == before;
      forall c ensures c in before <==> exists j :: 0 <= j < n && ts[j].currency == c {
        AppearanceMembers(init, c);
      }
    }
  }

  /**
   * First loop of the currency map: the earliest and latest date of each
   * currency, and the order in which the dictionary received its keys.
   */
  method CurrencyDateRanges(ts: seq<Transaction>) returns (ranges: map<string, DateRange>, order: seq<string>)
    ensures ranges == DateRanges(ts) && order == Appearance(ts)
    ensures forall c :: c in ranges <==> c in order
    ensures forall c :: c in ranges <==> exists i :: 0 <= i < |ts| && ts[i].currency == c
    ensures forall i :: 0 <= i < |ts| ==>
              (ts[i].currency in ranges && ranges[ts[i].currency].first <= ts[i].date <= ranges[ts[i].currency].last)
    ensures forall c :: c in ranges ==> exists i :: 0 <= i < |ts| && ts[i].currency == c && ts[i].date == ranges[c].first
    ensures forall c :: c in ranges ==> exists i :: 0 <= i < |ts| && ts[i].currency == c && ts[i].date == ranges[c].last
  {
    ranges := map[];
    order := [];
    var k := 0;
    while k < |ts|
      invariant 0 <= k <= |ts|
      invariant ranges == DateRanges(ts[..k]) && order == Appearance(ts[..k])
      invariant forall c :: c in ranges <==> c in order
    {
      assert ts[..k + 1][..k] == ts[..k];
      var currency := ts[k].currency;
      var date := ts[k].date;
      if currency !in ranges {
        ranges := ranges[currency := DateRange(date, date)];
        order := order + [currency];
      } else if date < ranges[currency].first {
        ranges := ranges[currency := DateRange(date, ranges[currency].last)];
      } else if date > ranges[currency].last {
        ranges := ranges[currency := DateRange(ranges[currency].first, date)];
      }
      k := k + 1;
    }
    assert ts[..k] == ts;
    forall c ensures c in ranges <==> exists i :: 0 <= i < |ts| && ts[i].currency == c {
      DateRangesKeys(ts, c);
    }
    forall i | 0 <= i < |ts|
      ensures ts[i].currency in ranges && ranges[ts[i].currency].first <= ts[i].date <= ranges[ts[i].currency].last
    {
      DateRangesCover(ts, i);
    }
    forall c | c in ranges
      ensures exists i :: 0 <= i < |ts| && ts[i].currency == c && ts[i].date == ranges[c].first
      ensures exists i :: 0 <= i < |ts| && ts[i].currency == c && ts[i].date == ranges[c].last
    {
      DateRangesAttained(ts, c);
    }
  }

  /** Some currency's range is refused, by the rate table's validations or by the source. */
  predicate Refused(ranges: map<string, DateRange>, fetch: Rates.RateSource)
  {
    exists c :: c in ranges && Rates.Admit(c, ranges[c].first, ranges[c].last, fetch).Failure?
  }

  /**
   * The error is that of the first currency in order whose range is refused;
   * the range of every currency before it is admitted.
   */
  predicate FirstRefusal(ranges: map<string, DateRange>, order: seq<string>, fetch: Rates.RateSource,
                         error: Rates.RateError)
  {
    exists k :: 0 <= k < |order| && order[k] in ranges
      && Rates.Admit(order[k], ranges[order[k]].first, ranges[order[k]].last, fetch) == Failure(error)
      && forall j :: 0 <= j < k ==>
           order[j] in ranges && Rates.Admit(order[j], ranges[order[j]].first, ranges[order[j]].last, fetch).Success?
  }

  /**
   * Second loop of the currency map: one ExchangeRate per currency over its
   * range, built in the given key order. The first currency whose
   * construction fails aborts the loop.
   */
  method ExchangeRatesFor(ranges: map<string, DateRange>, order: seq<string>, fetch: Rates.RateSource)
    returns (r: Result<map<string, Rates.ExchangeRate>, Rates.RateError>)
    requires forall c :: c in ranges <==> c in order
    ensures r.Failure? <==> Refused(ranges, fetch)
    ensures r.Failure? ==> FirstRefusal(ranges, order, fetch, r.error)
    ensures r.Success? ==> r.value.Keys == ranges.Keys
    ensures r.Success? ==> forall c :: c in r.value ==>
              Rates.BuiltFrom(r.value[c], c, ranges[c].first, ranges[c].last, fetch)
    ensures (forall c :: c in ranges ==> ranges[c].first <= ranges[c].last) ==> r != Failure(Rates.EndBeforeStart)
  {
    var built: map<string, Rates.ExchangeRate> := map[];
    var i := 0;
    while i < |order|
      invariant 0 <= i <= |order|
      invariant forall c :: c in built <==> c in order[..i]
      invariant forall c :: c in built ==> c in ranges && Rates.BuiltFrom(built[c], c, ranges[c].first, ranges[c].last, fetch)
      invariant forall j :: 0 <= j < i ==> order[j] in built
    {
      var currency := order[i];
      var range := ranges[currency];
      var er := Rates.NewExchangeRate(currency, range.first, range.last, fetch);
      if er.Failure? {
        RangeRefused(ranges, currency, fetch);
        assert FirstRefusal(ranges, order, fetch, er.error) by {
          assert forall j :: 0 <= j < i ==> Rates.Admit(order[j], ranges[order[j]].first, ranges[order[j]].last, fetch).Success?;
        }
        return Failure(er.error);
      }
      assert order[..i + 1] == order[..i] + [currency];
      built := built[currency := er.value];
      i := i + 1;
    }
    assert order[..i] == order;
    RangesAdmitted(ranges, built, fetch);
    return Success(built);
  }

  /** A refused range makes the whole map fail, and never for disorder when every range is ordered. */
  lemma RangeRefused(ranges: map<string, DateRange>, currency: string, fetch: Rates.RateSource)
    requires currency in ranges && Rates.Admit(currency, ranges[currency].first, ranges[currency].last, fetch).Failure?
    ensures Refused(ranges, fetch)
    ensures (forall c :: c in ranges ==> ranges[c].first <= ranges[c].last) ==>
              Rates.Admit(currency, ranges[currency].first, ranges[currency].last, fetch).error != Rates.EndBeforeStart
  {
    if ranges[currency].first <= ranges[currency].last {
      Rates.OrderedRangeAdmitted(currency, ranges[currency].first, ranges[currency].last, fetch);
    }
  }

  /** No range was refused once each currency has its table. */
  lemma RangesAdmitted(ranges: map<string, DateRange>, built: map<string, Rates.ExchangeRate>, fetch: Rates.RateSource)
    requires built.Keys == ranges.Keys
    requires forall c :: c in built ==> Rates.BuiltFrom(built[c], c, ranges[c].first, ranges[c].last, fetch)
    ensures !Refused(ranges, fetch)
  {
    forall c | c in ranges ensures Rates.Admit(c, ranges[c].first, ranges[c].last, fetch).Success? {
      assert c in built;
    }
  }

  /**
   * `_get_map_of_currencies_to_exchange_rates`: one ExchangeRate per currency
   * present, over that currency's (min date, max date), built in the order in
   * which the currencies first appear.
   */
  method CurrencyExchangeRates(ts: seq<Transaction>, fetch: Rates.RateSource)
    returns (r: Result<map<string, Rates.ExchangeRate>, Rates.RateError>)
    ensures r.Failure? <==> Refused(DateRanges(ts), fetch)
    ensures r.Failure? ==> r.error != Rates.EndBeforeStart
    ensures r.Failure? ==> FirstRefusal(DateRanges(ts), Appearance(ts), fetch, r.error)
    ensures r.Success? ==> r.value.Keys == DateRanges(ts).Keys
    ensures r.Success? ==> forall c :: c in r.value <==> exists i :: 0 <= i < |ts| && ts[i].currency == c
    ensures r.Success? ==> forall c :: c in r.value ==>
              Rates.BuiltFrom(r.value[c], c, DateRanges(ts)[c].first, DateRanges(ts)[c].last, fetch)
    ensures r.Success? ==> forall i :: 0 <= i < |ts| ==>
              r.value[ts[i].currency].startDate <= ts[i].date <= r.value[ts[i].currency].endDate
    ensures r.Success? ==> forall c :: c in r.value ==>
              (exists i :: 0 <= i < |ts| && ts[i].currency == c && ts[i].date == r.value[c].startDate)
    ensures r.Success? ==> forall c :: c in r.value ==>
              (exists i :: 0 <= i < |ts| && ts[i].currency == c && ts[i].date == r.value[c].endDate)
  {
    var ranges, order := CurrencyDateRanges(ts);
    forall c | c in ranges ensures ranges[c].first <= ranges[c].last {
      var i :| 0 <= i < |ts| && ts[i].currency == c && ts[i].date == ranges[c].first;
    }
    r := ExchangeRatesFor(ranges, order, fetch);
  }

  /**
   * The filtering pipeline of `get_calculated_dicts`: nothing to report when
   * the ticker has no entries up to the year; otherwise the rate map is built
   * from all transactions and the year's non-superficial sales are reported.
   */
  method CalculatedTransactions(ts: seq<Transaction>, year: int, ticker: string, fetch: Rates.RateSource)
    returns (r: Result<Option<seq<Transaction>>, Rates.RateError>)
    ensures ForTicker(ts, year, ticker) == [] ==> r == Success(None)
    ensures ForTicker(ts, year, ticker) != [] ==> (r.Failure? <==> Refused(DateRanges(ts), fetch))
    ensures r.Failure? ==> r.error != Rates.EndBeforeStart
    ensures r.Failure? ==> FirstRefusal(DateRanges(ts), Appearance(ts), fetch, r.error)
    ensures r.Success? && r.value.Some? ==>
              r.value.value == YearSales(ForTicker(ts, year, ticker), year) && r.value.value != []
    ensures r == Success(None) ==> ForTicker(ts, year, ticker) == [] || YearSales(ForTicker(ts, year, ticker), year) == []
  {
    var filtered := ForTicker(ts, year, ticker);
    if filtered == [] {
      return Success(None);
    }
    var rates := CurrencyExchangeRates(ts, fetch);
    if rates.Failure? {
      return Failure(rates.error);
    }
    var yearTransactions := YearSales(filtered, year);
    if yearTransactions == [] {
      return Success(None);
    }
    return Success(Some(yearTransactions));
  }

  /** Tickers to report on: those given, or else every ticker present, sorted and without duplicates. */
  method ReportTickers(ts: seq<Transaction>, tickers: Option<seq<string>>) returns (r: seq<string>)
    ensures tickers.Some? && tickers.value != [] ==> r == tickers.value
    ensures tickers.None? || tickers.value == [] ==>
              Lex.StrictlySorted(r) && forall k :: k in r <==> exists i :: 0 <= i < |ts| && ts[i].ticker == k
  {
    if tickers.Some? && tickers.value != [] {
      return tickers.value;
    }
    var present := set i | 0 <= i < |ts| :: ts[i].ticker;
    r := Lex.SortSet(present);
  }
}
