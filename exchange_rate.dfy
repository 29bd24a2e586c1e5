/**
 * The CAD exchange rate of one currency over a date range: a sparse table of
 * daily observations, looked up by nearest preceding observed date.
 */
module Rates {
  import opened Wrappers
  import Dates

  /** The rate source is asked for this many days before the start date. */
  const LookbackDays: int := 7

  /** One published daily observation. */
  datatype Observation = Observation(date: int, value: real)

  /**
   * What the rate source hands back for a query (currency, start, end): the
   * decoded observations of that currency's series, or one of the ways the
   * request can fail.
   */
  datatype FetchResult =
    | Fetched(observations: seq<Observation>)
    | MissingObservations   // the response has no "observations" entry
    | RequestTimeout
    | TooManyRedirects
    | RequestFailed

  /** The rate service, asked for one currency's CAD series over a date range. */
  type RateSource = (string, int, int) -> FetchResult

  datatype RateError =
    | EndBeforeStart
    | RangeBeforeMinDate
    | DateOverflow        // the shifted start date falls before 0001-01-01
    | NoObservations
    | Timeout
    | BadUrl
    | CatastrophicRequestError
    | RateUnavailable(date: int)

  /** The table the constructor fills: one entry per observed date, a later observation winning. */
  function ObservationMap(obs: seq<Observation>): map<int, real>
  {
    if obs == [] then map[]
    else ObservationMap(obs[..|obs| - 1])[obs[|obs| - 1].date := obs[|obs| - 1].value]
  }

  lemma {:induction false} ObservationMapKeys(obs: seq<Observation>, d: int)
    ensures d in ObservationMap(obs) <==> exists i :: 0 <= i < |obs| && obs[i].date == d
  {
    if obs != [] {
      var init := obs[..|obs| - 1];
      ObservationMapKeys(init, d);
      assert forall i :: 0 <= i < |init| ==> init[i] == obs[i];
    }
  }

  lemma {:induction false} ObservationMapLastWins(obs: seq<Observation>, i: int)
    requires 0 <= i < |obs|
    requires forall j :: i < j < |obs| ==> obs[j].date != obs[i].date
    ensures obs[i].date in ObservationMap(obs)
    ensures ObservationMap(obs)[obs[i].date] == obs[i].value
  {
    if i < |obs| - 1 {
      var init := obs[..|obs| - 1];
      assert init[i] == obs[i];
      ObservationMapLastWins(init, i);
    }
  }

  /**
   * The validations of the constructor and the query it sends: the range
   * must be ordered and must reach the floor, the start date shifted back
   * seven days must still be a date, and the source is asked for the
   * currency's series from that shifted start date to the end date.
   */
  function Admit(currencyFrom: string, startDate: int, endDate: int, fetch: RateSource): (r: Result<seq<Observation>, RateError>)
    ensures endDate < startDate ==> r == Failure(EndBeforeStart)
    ensures startDate <= endDate < Dates.MinDate ==> r == Failure(RangeBeforeMinDate)
    ensures startDate <= endDate && Dates.MinDate <= endDate && startDate - LookbackDays < Dates.FirstDay
            ==> r == Failure(DateOverflow)
    ensures r.Success? <==> (startDate <= endDate && Dates.MinDate <= endDate
                             && Dates.FirstDay <= startDate - LookbackDays
                             && fetch(currencyFrom, startDate - LookbackDays, endDate).Fetched?)
    ensures r.Success? ==> r.value == fetch(currencyFrom, startDate - LookbackDays, endDate).observations
  {
    if endDate < startDate then Failure(EndBeforeStart)
    else if endDate < Dates.MinDate then Failure(RangeBeforeMinDate)
    else if startDate - LookbackDays < Dates.FirstDay then Failure(DateOverflow)
    else match fetch(currencyFrom, startDate - LookbackDays, endDate)
      case Fetched(obs) => Success(obs)
      case MissingObservations => Failure(NoObservations)
      case RequestTimeout => Failure(Timeout)
      case TooManyRedirects => Failure(BadUrl)
      case RequestFailed => Failure(CatastrophicRequestError)
  }

  /** An ordered range never draws the end-before-start error. */
  lemma OrderedRangeAdmitted(currencyFrom: string, startDate: int, endDate: int, fetch: RateSource)
    requires startDate <= endDate
    ensures Admit(currencyFrom, startDate, endDate, fetch) != Failure(EndBeforeStart)
  {
  }

  /** The rate of the latest observed date in (floor, date], if there is one. */
  function LastRate(rates: map<int, real>, date: int): Option<real>
    decreases date - Dates.MinDate
  {
    if date <= Dates.MinDate then None
    else if date in rates then Some(rates[date])
    else LastRate(rates, date - 1)
  }

  lemma LastRateExact(rates: map<int, real>, date: int)
    requires Dates.MinDate < date && date in rates
    ensures LastRate(rates, date) == Some(rates[date])
  {
  }

  /** A date with no observation takes the rate of the latest observed date before it. */
  lemma {:induction false} LastRateIsLatestObservation(rates: map<int, real>, date: int, d: int)
    requires Dates.MinDate < d <= date && d in rates
    requires forall e :: d < e <= date ==> e !in rates
    ensures LastRate(rates, date) == Some(rates[d])
    decreases date - d
  {
    if d < date {
      LastRateIsLatestObservation(rates, date - 1, d);
    }
  }

  /** Conversely, a found rate comes from such a latest observation. */
  lemma {:induction false} LastRateFound(rates: map<int, real>, date: int)
    requires LastRate(rates, date).Some?
    ensures exists d :: Dates.MinDate < d <= date && d in rates && rates[d] == LastRate(rates, date).value
                        && forall e :: d < e <= date ==> e !in rates
    decreases date - Dates.MinDate
  {
    if date !in rates {
      LastRateFound(rates, date - 1);
    }
  }

  /** Nothing is found exactly when nothing is observed in (floor, date]. */
  lemma {:induction false} LastRateMissing(rates: map<int, real>, date: int)
    ensures LastRate(rates, date).None? <==> forall e :: Dates.MinDate < e <= date ==> e !in rates
    decreases date - Dates.MinDate
  {
    if date > Dates.MinDate && date !in rates {
      LastRateMissing(rates, date - 1);
    }
  }

  /**
   * Observations on Thursday 2020-05-21, Friday 2020-05-22 and Monday
   * 2020-05-25 (ordinals 737566, 737567, 737570): Sunday 2020-05-24 gets
   * Friday's rate.
   */
  lemma {:induction false} SundayTakesFridayRate(thursday: real, friday: real, monday: real)
    ensures var rates := map[737566 := thursday, 737567 := friday, 737570 := monday];
            LastRate(rates, 737569) == LastRate(rates, 737567) == Some(friday)
  {
    var rates := map[737566 := thursday, 737567 := friday, 737570 := monday];
    LastRateIsLatestObservation(rates, 737569, 737567);
    LastRateIsLatestObservation(rates, 737567, 737567);
  }

  class ExchangeRate {
    const currencyFrom: string
    const startDate: int        // as passed, before the look-back shift
    const endDate: int
    const rates: map<int, real>

    /** Fills the table from the observations the source returned. */
    constructor (currencyFrom: string, startDate: int, endDate: int, observations: seq<Observation>)
      ensures this.currencyFrom == currencyFrom && this.startDate == startDate && this.endDate == endDate
      ensures rates == ObservationMap(observations)
    {
      this.currencyFrom := currencyFrom;
      this.startDate := startDate;
      this.endDate := endDate;
      var table: map<int, real> := map[];
      var i := 0;
      while i < |observations|
        invariant 0 <= i <= |observations|
        invariant table == ObservationMap(observations[..i])
      {
        table := table[observations[i].date := observations[i].value];
        i := i + 1;
        assert observations[..i][..i - 1] == observations[..i - 1];
      }
      assert observations[..i] == observations;
      rates := table;
    }

    /** `_get_last_rate_in_range`: walks back one day at a time while above the floor. */
    method LastRateInRange(date: int) returns (r: Option<real>)
      ensures r == LastRate(rates, date)
    {
      var d := date;
      while d > Dates.MinDate
        invariant LastRate(rates, d) == LastRate(rates, date)
        decreases d - Dates.MinDate
      {
        if d in rates {
          return Some(rates[d]);
        }
        d := d - 1;
      }
      return None;
    }

    /** A missing rate, or a stored rate of 0 (falsy in Python), is an error. */
    method GetRate(date: int) returns (r: Result<real, RateError>)
      ensures r.Success? <==> LastRate(rates, date).Some? && LastRate(rates, date).value != 0.0
      ensures r.Success? ==> r.value == LastRate(rates, date).value
      ensures r.Failure? ==> r.error == RateUnavailable(date)
    {
      var rate := LastRateInRange(date);
      if rate.None? || rate.value == 0.0 {
        return Failure(RateUnavailable(date));
      }
      return Success(rate.value);
    }
  }

  /** er is the table built for currencyFrom over [startDate, endDate] from what the source returned. */
  predicate BuiltFrom(er: ExchangeRate, currencyFrom: string, startDate: int, endDate: int, fetch: RateSource)
  {
    && Admit(currencyFrom, startDate, endDate, fetch).Success?
    && er.currencyFrom == currencyFrom && er.startDate == startDate && er.endDate == endDate
    && er.rates == ObservationMap(Admit(currencyFrom, startDate, endDate, fetch).value)
  }

  /**
   * The ExchangeRate constructor: validate the range, query the source from
   * seven days before the start date, and build the table.
   */
  method NewExchangeRate(currencyFrom: string, startDate: int, endDate: int, fetch: RateSource)
    returns (r: Result<ExchangeRate, RateError>)
    ensures r.Failure? <==> Admit(currencyFrom, startDate, endDate, fetch).Failure?
    ensures r.Failure? ==> r.error == Admit(currencyFrom, startDate, endDate, fetch).error
    ensures r.Success? ==> BuiltFrom(r.value, currencyFrom, startDate, endDate, fetch)
  {
    var admitted := Admit(currencyFrom, startDate, endDate, fetch);
    if admitted.Failure? {
      return Failure(admitted.error);
    }
    var er := new ExchangeRate(currencyFrom, startDate, endDate, admitted.value);
    return Success(er);
  }
}
