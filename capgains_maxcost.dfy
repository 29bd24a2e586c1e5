/**
 * The maximum-cost report: the highest running cost of a ticker within a
 * year and its cost at the end of a year.
 */
module MaxCostCommand {
  import opened Wrappers
  import opened Records
  import Collection
  import Rates
  import CalcCommand
  import Dates
  import Lex

  /** The arguments of `filter_by(year=year)`. */
  function YearOnly(year: int): Collection.FilterArgs
  {
    Collection.FilterArgs(None, Some(year), None, None, None)
  }

  /** The entries of one year, in order. */
  function InYear(ts: seq<Transaction>, year: int): seq<Transaction>
    reads ts
  {
    Collection.Select(ts, YearOnly(year))
  }

  /**
   * The running cost after the last entry of year; a year without entries
   * falls back to the year before, down to yearMin, below which it is 0.
   */
  function YearEndCost(ts: seq<Transaction>, year: int, yearMin: int): (r: real)
    reads ts
    ensures r == 0.0 || exists t :: t in ts && t.cumulativeCost == r
    decreases year - yearMin
  {
    var report := InYear(ts, year);
    if |report| == 0 then
      if year <= yearMin then 0.0
      else YearEndCost(ts, year - 1, yearMin)
    else
      var last := report[|report| - 1];
      Collection.SelectMembership(ts, YearOnly(year), last);
      last.cumulativeCost
  }

  lemma InYearMembership(ts: seq<Transaction>, year: int, t: Transaction)
    requires year != 0
    ensures t in InYear(ts, year) <==> t in ts && Dates.YearOf(t.date) == year
  {
    Collection.SelectMembership(ts, YearOnly(year), t);
  }

  /**
   * The year-end cost is the last running cost of the latest year in
   * [yearMin, year] that has entries.
   */
  lemma {:induction false} YearEndCostIsLatestYear(ts: seq<Transaction>, year: int, yearMin: int, y: int)
    requires yearMin <= y <= year
    requires |InYear(ts, y)| > 0
    requires forall z :: y < z <= year ==> |InYear(ts, z)| == 0
    ensures YearEndCost(ts, year, yearMin) == InYear(ts, y)[|InYear(ts, y)| - 1].cumulativeCost
    decreases year - y
  {
    if y < year {
      assert |InYear(ts, year)| == 0;
      YearEndCostIsLatestYear(ts, year - 1, yearMin, y);
    }
  }

  /**
   * A year with entries gives its own last running cost, even below yearMin:
   * the floor is tested only for a year without entries.
   */
  lemma YearEndCostOwnYear(ts: seq<Transaction>, year: int, yearMin: int)
    requires |InYear(ts, year)| > 0
    ensures YearEndCost(ts, year, yearMin) == InYear(ts, year)[|InYear(ts, year)| - 1].cumulativeCost
  {
  }

  /** With no entries in [yearMin, year] the year-end cost is 0. */
  lemma {:induction false} YearEndCostWithoutEntries(ts: seq<Transaction>, year: int, yearMin: int)
    requires forall z :: yearMin <= z <= year ==> |InYear(ts, z)| == 0
    requires year >= yearMin || |InYear(ts, year)| == 0
    ensures YearEndCost(ts, year, yearMin) == 0.0
    decreases year - yearMin
  {
    if year > yearMin {
      YearEndCostWithoutEntries(ts, year - 1, yearMin);
    }
  }

  function Max(a: real, b: real): real
  {
    if a >= b then a else b
  }

  /**
   * The highest cost of the year: at least 0, every running cost recorded in
   * the year, and the cost carried over from the end of the previous year.
   */
  method GetMaxCost(txs: Collection.Transactions, year: int, yearMin: int) returns (maxCost: real)
    ensures maxCost >= 0.0
    ensures forall t :: t in InYear(txs.transactions, year) ==> t.cumulativeCost <= maxCost
    ensures YearEndCost(txs.transactions, year - 1, yearMin) <= maxCost
    ensures || maxCost == 0.0
            || maxCost == YearEndCost(txs.transactions, year - 1, yearMin)
            || exists t :: t in InYear(txs.transactions, year) && t.cumulativeCost == maxCost
  {
    var report := txs.FilterBy(YearOnly(year));
    var entries := report.transactions;
    maxCost := 0.0;
    var i := 0;
    while i < |entries|
      invariant 0 <= i <= |entries|
      invariant maxCost >= 0.0
      invariant forall j :: 0 <= j < i ==> entries[j].cumulativeCost <= maxCost
      invariant maxCost == 0.0 || exists j :: 0 <= j < i && entries[j].cumulativeCost == maxCost
    {
      maxCost := Max(maxCost, entries[i].cumulativeCost);
      i := i + 1;
    }
    maxCost := Max(maxCost, YearEndCost(txs.transactions, year - 1, yearMin));
  }

  /** No entry before position i is in currency c. */
  predicate NoneBefore(ts: seq<Transaction>, c: string, i: int)
  {
    forall j :: 0 <= j < i && j < |ts| ==> ts[j].currency != c
  }

  /** No entry after position i is in currency c. */
  predicate NoneAfter(ts: seq<Transaction>, c: string, i: int)
  {
    forall j :: i < j < |ts| && 0 <= j ==> ts[j].currency != c
  }

  /**
   * One pass over the entries in input order: a currency's range starts at
   * its first entry's date and each later entry of that currency moves the
   * end to its own date. FirstLastIsGroupEnds ties it to the sort and groupby.
   */
  function FirstLast(ts: seq<Transaction>): map<string, CalcCommand.DateRange>
  {
    if ts == [] then map[]
    else
      var ranges := FirstLast(ts[..|ts| - 1]);
      var t := ts[|ts| - 1];
      if t.currency !in ranges then ranges[t.currency := CalcCommand.DateRange(t.date, t.date)]
      else ranges[t.currency := CalcCommand.DateRange(ranges[t.currency].first, t.date)]
  }

  lemma {:induction false} FirstLastKeys(ts: seq<Transaction>, c: string)
    ensures c in FirstLast(ts) <==> exists i :: 0 <= i < |ts| && ts[i].currency == c
  {
    if ts != [] {
      var init := ts[..|ts| - 1];
      FirstLastKeys(init, c);
      assert forall i :: 0 <= i < |init| ==> init[i] == ts[i];
    }
  }

  /** A range starts at the date of its currency's first entry. */
  lemma {:induction false} FirstLastFirst(ts: seq<Transaction>, c: string)
    requires c in FirstLast(ts)
    ensures exists i :: 0 <= i < |ts| && ts[i].currency == c && ts[i].date == FirstLast(ts)[c].first
                        && NoneBefore(ts, c, i)
  {
    var init := ts[..|ts| - 1];
    assert forall i :: 0 <= i < |init| ==> init[i] == ts[i];
    if c in FirstLast(init) {
      FirstLastFirst(init, c);
      var i :| 0 <= i < |init| && init[i].currency == c && init[i].date == FirstLast(init)[c].first
               && NoneBefore(init, c, i);
      assert NoneBefore(ts, c, i);
    } else {
      FirstLastKeys(init, c);
      assert NoneBefore(ts, c, |ts| - 1);
    }
  }

  /** A range ends at the date of its currency's last entry. */
  lemma {:induction false} FirstLastLast(ts: seq<Transaction>, c: string)
    requires c in FirstLast(ts)
    ensures exists i :: 0 <= i < |ts| && ts[i].currency == c && ts[i].date == FirstLast(ts)[c].last
                        && NoneAfter(ts, c, i)
  {
    var init := ts[..|ts| - 1];
    assert forall i :: 0 <= i < |init| ==> init[i] == ts[i];
    if ts[|ts| - 1].currency == c {
      assert NoneAfter(ts, c, |ts| - 1);
    } else {
      FirstLastLast(init, c);
      var i :| 0 <= i < |init| && init[i].currency == c && init[i].date == FirstLast(init)[c].last
               && NoneAfter(init, c, i);
      assert NoneAfter(ts, c, i);
    }
  }

  /**
   * The entries of one currency in input order: the group `groupby` yields for
   * that currency after the stable sort by currency.
   */
  function Group(ts: seq<Transaction>, c: string): seq<Transaction>
  {
    if ts == [] then []
    else Group(ts[..|ts| - 1], c) + (if ts[|ts| - 1].currency == c then [ts[|ts| - 1]] else [])
  }

  /** FirstLast gives each group's first member's date and last member's date, and no range for an empty group. */
  lemma {:induction false} FirstLastIsGroupEnds(ts: seq<Transaction>, c: string)
    ensures c in FirstLast(ts) <==> Group(ts, c) != []
    ensures c in FirstLast(ts) ==>
              FirstLast(ts)[c] == CalcCommand.DateRange(Group(ts, c)[0].date, Group(ts, c)[|Group(ts, c)| - 1].date)
  {
    if ts != [] {
      FirstLastIsGroupEnds(ts[..|ts| - 1], c);
    }
  }

  /** On chronological input every range is ordered. */
  lemma FirstLastOrdered(ts: seq<Transaction>, c: string)
    requires forall i, j :: 0 <= i <= j < |ts| ==> ts[i].date <= ts[j].date
    requires c in FirstLast(ts)
    ensures FirstLast(ts)[c].first <= FirstLast(ts)[c].last
  {
    FirstLastFirst(ts, c);
    FirstLastLast(ts, c);
    var f :| 0 <= f < |ts| && ts[f].currency == c && ts[f].date == FirstLast(ts)[c].first && NoneBefore(ts, c, f);
    var l :| 0 <= l < |ts| && ts[l].currency == c && ts[l].date == FirstLast(ts)[c].last && NoneAfter(ts, c, l);
    assert f <= l;
  }

  /** The first loop of the cost report's currency map: the range of each currency's group. */
  method FirstLastDates(ts: seq<Transaction>) returns (ranges: map<string, CalcCommand.DateRange>)
    ensures ranges == FirstLast(ts)
  {
    ranges := map[];
    var k := 0;
    while k < |ts|
      invariant 0 <= k <= |ts|
      invariant ranges == FirstLast(ts[..k])
    {
      assert ts[..k + 1][..k] == ts[..k];
      var currency := ts[k].currency;
      if currency !in ranges {
        ranges := ranges[currency := CalcCommand.DateRange(ts[k].date, ts[k].date)];
      } else {
        ranges := ranges[currency := CalcCommand.DateRange(ranges[currency].first, ts[k].date)];
      }
      k := k + 1;
    }
    assert ts[..k] == ts;
  }

  /**
   * The error is that of the least currency, in string order, whose range is
   * refused; the range of every smaller currency is admitted.
   */
  predicate LeastRefusal(ranges: map<string, CalcCommand.DateRange>, fetch: Rates.RateSource, error: Rates.RateError)
  {
    exists c :: c in ranges
      && Rates.Admit(c, ranges[c].first, ranges[c].last, fetch) == Failure(error)
      && forall d :: d in ranges && Lex.Less(d, c) ==> Rates.Admit(d, ranges[d].first, ranges[d].last, fetch).Success?
  }

  /** Refusals met in increasing string order: the first one is the least. */
  lemma SortedFirstIsLeast(ranges: map<string, CalcCommand.DateRange>, order: seq<string>,
                           fetch: Rates.RateSource, error: Rates.RateError)
    requires Lex.StrictlySorted(order) && forall c :: c in ranges <==> c in order
    requires CalcCommand.FirstRefusal(ranges, order, fetch, error)
    ensures LeastRefusal(ranges, fetch, error)
  {
    var k :| 0 <= k < |order| && order[k] in ranges
      && Rates.Admit(order[k], ranges[order[k]].first, ranges[order[k]].last, fetch) == Failure(error)
      && forall j :: 0 <= j < k ==>
           order[j] in ranges && Rates.Admit(order[j], ranges[order[j]].first, ranges[order[j]].last, fetch).Success?;
    var c := order[k];
    forall d | d in ranges && Lex.Less(d, c)
      ensures Rates.Admit(d, ranges[d].first, ranges[d].last, fetch).Success?
    {
      var j :| 0 <= j < |order| && order[j] == d;
      if j == k {
        Lex.LessIrreflexive(c);
      } else if j > k {
        Lex.LessTransitive(c, d, c);
        Lex.LessIrreflexive(c);
      }
    }
  }

  /**
   * `_get_map_of_currencies_to_exchange_rates` of the cost report: one table
   * per currency group, built group by group in increasing currency order.
   */
  method CurrencyExchangeRates(ts: seq<Transaction>, fetch: Rates.RateSource)
    returns (r: Result<map<string, Rates.ExchangeRate>, Rates.RateError>)
    ensures r.Failure? <==> CalcCommand.Refused(FirstLast(ts), fetch)
    ensures r.Failure? ==> LeastRefusal(FirstLast(ts), fetch, r.error)
    ensures r.Success? ==> r.value.Keys == FirstLast(ts).Keys
    ensures r.Success? ==> forall c :: c in r.value <==> exists i :: 0 <= i < |ts| && ts[i].currency == c
    ensures r.Success? ==> forall c :: c in r.value ==>
              Rates.BuiltFrom(r.value[c], c, FirstLast(ts)[c].first, FirstLast(ts)[c].last, fetch)
    ensures (forall i, j :: 0 <= i <= j < |ts| ==> ts[i].date <= ts[j].date) ==> r != Failure(Rates.EndBeforeStart)
  {
    var ranges := FirstLastDates(ts);
    forall c ensures c in ranges <==> exists i :: 0 <= i < |ts| && ts[i].currency == c {
      FirstLastKeys(ts, c);
    }
    if forall i, j :: 0 <= i <= j < |ts| ==> ts[i].date <= ts[j].date {
      forall c | c in ranges ensures ranges[c].first <= ranges[c].last {
        FirstLastOrdered(ts, c);
      }
    }
    var order := Lex.SortSet(ranges.Keys);
    r := CalcCommand.ExchangeRatesFor(ranges, order, fetch);
    if r.Failure? {
      SortedFirstIsLeast(ranges, order, fetch, r.error);
    }
  }

  /** The entries handed to the ACB fold: the ticker's entries up to the year, in order. */
  lemma TickerUpToSelection(ts: seq<Transaction>, ticker: string, year: int)
    requires year != 0
    ensures Collection.SubsequenceOf(Collection.Select(ts, CalcCommand.TickerUpTo(ticker, year)), ts)
    ensures forall t :: t in Collection.Select(ts, CalcCommand.TickerUpTo(ticker, year)) <==>
              t in ts && t.ticker == ticker && Dates.YearOf(t.date) <= year
  {
    Collection.SelectIsSubsequence(ts, CalcCommand.TickerUpTo(ticker, year));
    forall t ensures t in Collection.Select(ts, CalcCommand.TickerUpTo(ticker, year)) <==>
                     t in ts && t.ticker == ticker && Dates.YearOf(t.date) <= year {
      Collection.SelectMembership(ts, CalcCommand.TickerUpTo(ticker, year), t);
    }
  }

  /**
   * `calculate_costs` up to the fold: the ticker's entries up to the year, and
   * the rate map built from them.
   */
  method CalculateCosts(txs: Collection.Transactions, year: int, ticker: string, fetch: Rates.RateSource)
    returns (r: Result<Collection.Transactions, Rates.RateError>)
    ensures r.Failure? <==> CalcCommand.Refused(FirstLast(Collection.Select(txs.transactions, CalcCommand.TickerUpTo(ticker, year))), fetch)
    ensures r.Failure? ==>
              LeastRefusal(FirstLast(Collection.Select(txs.transactions, CalcCommand.TickerUpTo(ticker, year))), fetch, r.error)
    ensures r.Success? ==> r.value.Valid()
    ensures r.Success? ==> r.value.transactions == Collection.Select(txs.transactions, CalcCommand.TickerUpTo(ticker, year))
  {
    var tickerTransactions := txs.FilterBy(CalcCommand.TickerUpTo(ticker, year));
    var rates := CurrencyExchangeRates(tickerTransactions.transactions, fetch);
    if rates.Failure? {
      return Failure(rates.error);
    }
    return Success(tickerTransactions);
  }
}
