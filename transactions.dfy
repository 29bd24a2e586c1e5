/**
 * An ordered collection of transactions with a per-ticker reference count,
 * and its declarative filter.
 */
module Collection {
  import opened Wrappers
  import opened Records
  import Dates
  import Lex

  /** How many entries of ts carry ticker k. */
  function Count(ts: seq<Transaction>, k: string): nat
  {
    if ts == [] then 0
    else Count(ts[..|ts| - 1], k) + (if ts[|ts| - 1].ticker == k then 1 else 0)
  }

  lemma {:induction false} CountPositive(ts: seq<Transaction>, k: string)
    ensures Count(ts, k) > 0 <==> exists i :: 0 <= i < |ts| && ts[i].ticker == k
  {
    if ts != [] {
      var init := ts[..|ts| - 1];
      CountPositive(init, k);
      assert forall i :: 0 <= i < |init| ==> init[i] == ts[i];
    }
  }

  /** The optional arguments of `filter_by`; None stands for an omitted argument. */
  datatype FilterArgs = FilterArgs(
    tickers: Option<seq<string>>,
    year: Option<int>,
    maxYear: Option<int>,
    action: Option<string>,
    superficialLoss: Option<bool>)

  // Python tests the first four arguments for truth, so an empty list, a year
  // 0 or an empty action string switches the test off just as None does; the
  // superficial-loss flag is compared with None, so an explicit False filters.
  predicate TickersGiven(f: FilterArgs) { f.tickers.Some? && |f.tickers.value| > 0 }
  predicate YearGiven(f: FilterArgs) { f.year.Some? && f.year.value != 0 }
  predicate MaxYearGiven(f: FilterArgs) { f.maxYear.Some? && f.maxYear.value != 0 }
  predicate ActionGiven(f: FilterArgs) { f.action.Some? && f.action.value != "" }

  predicate NothingGiven(f: FilterArgs)
  {
    !TickersGiven(f) && !YearGiven(f) && !MaxYearGiven(f) && !ActionGiven(f)
    && f.superficialLoss.None?
  }

  /**
   * The filter's per-entry test: every given criterion holds. Without any
   * truthy argument every entry passes; an explicit False for the flag drops
   * the superficial losses, where None keeps them.
   */
  predicate Keep(t: Transaction, f: FilterArgs): (b: bool)
    reads t
    ensures NothingGiven(f) ==> b
    ensures f.superficialLoss == Some(false) && t.superficialLoss ==> !b
  {
    && (TickersGiven(f) ==> t.ticker in f.tickers.value)
    && (YearGiven(f) ==> Dates.YearOf(t.date) == f.year.value)
    && (MaxYearGiven(f) ==> Dates.YearOf(t.date) <= f.maxYear.value)
    && (ActionGiven(f) ==> t.action == f.action.value)
    && (f.superficialLoss.Some? ==> t.superficialLoss == f.superficialLoss.value)
  }

  /** The entries of ts that pass Keep, in their original order. */
  function Select(ts: seq<Transaction>, f: FilterArgs): seq<Transaction>
    reads ts
  {
    if ts == [] then []
    else (if Keep(ts[0], f) then [ts[0]] else []) + Select(ts[1..], f)
  }

  /** a can be obtained from b by deleting entries. */
  predicate SubsequenceOf<T(==)>(a: seq<T>, b: seq<T>)
  {
    a == [] ||
    (b != [] && ((a[0] == b[0] && SubsequenceOf(a[1..], b[1..])) || SubsequenceOf(a, b[1..])))
  }

  lemma {:induction false} SelectIsSubsequence(ts: seq<Transaction>, f: FilterArgs)
    ensures SubsequenceOf(Select(ts, f), ts)
  {
    if ts != [] {
      SelectIsSubsequence(ts[1..], f);
      var rest := Select(ts[1..], f);
      if Keep(ts[0], f) {
        assert Select(ts, f) == [ts[0]] + rest;
        assert Select(ts, f)[0] == ts[0] && Select(ts, f)[1..] == rest;
      } else {
        assert Select(ts, f) == rest;
      }
    }
  }

  lemma {:induction false} SelectMembership(ts: seq<Transaction>, f: FilterArgs, x: Transaction)
    ensures x in Select(ts, f) <==> x in ts && Keep(x, f)
  {
    if ts != [] {
      SelectMembership(ts[1..], f, x);
      assert ts == [ts[0]] + ts[1..];
    }
  }

  lemma {:induction false} SelectAll(ts: seq<Transaction>, f: FilterArgs)
    requires forall i :: 0 <= i < |ts| ==> Keep(ts[i], f)
    ensures Select(ts, f) == ts
  {
    if ts != [] {
      SelectAll(ts[1..], f);
    }
  }

  lemma {:induction false} SelectNoFilter(ts: seq<Transaction>, f: FilterArgs)
    requires NothingGiven(f)
    ensures Select(ts, f) == ts
  {
    SelectAll(ts, f);
  }

  lemma {:induction false} SelectIdempotent(ts: seq<Transaction>, f: FilterArgs)
    ensures Select(Select(ts, f), f) == Select(ts, f)
  {
    var s := Select(ts, f);
    forall i | 0 <= i < |s| ensures Keep(s[i], f) {
      SelectMembership(ts, f, s[i]);
    }
    SelectAll(s, f);
  }

  lemma {:induction false} SelectAppend(a: seq<Transaction>, b: seq<Transaction>, f: FilterArgs)
    ensures Select(a + b, f) == Select(a, f) + Select(b, f)
  {
    if a != [] {
      assert (a + b)[0] == a[0] && (a + b)[1..] == a[1..] + b;
      SelectAppend(a[1..], b, f);
      var head := if Keep(a[0], f) then [a[0]] else [];
      calc {
        Select(a + b, f);
        head + Select(a[1..] + b, f);
        head + (Select(a[1..], f) + Select(b, f));
        (head + Select(a[1..], f)) + Select(b, f);
      }
    } else {
      assert a + b == b;
    }
  }

  class Transactions {
    var transactions: seq<Transaction>
    var tickers: map<string, nat>

    /** The index counts, for each ticker present and only for those, its entries. */
    ghost predicate Valid()
      reads this
    {
      forall k :: (k in tickers <==> Count(transactions, k) > 0)
                  && (k in tickers ==> tickers[k] == Count(transactions, k))
    }

    constructor (ts: seq<Transaction>)
      ensures Valid() && transactions == ts
    {
      transactions := [];
      tickers := map[];
      new;
      var i := 0;
      while i < |ts|
        invariant 0 <= i <= |ts|
        invariant Valid() && transactions == ts[..i]
      {
        AddTransaction(ts[i]);
        assert ts[..i + 1] == ts[..i] + [ts[i]];
        i := i + 1;
      }
      assert ts[..i] == ts;
    }

    /** Appends one entry and bumps its ticker's count. */
    method AddTransaction(t: Transaction)
      requires Valid()
      modifies this
      ensures Valid()
      ensures transactions == old(transactions) + [t]
      ensures tickers == old(tickers)[t.ticker := (if t.ticker in old(tickers) then old(tickers)[t.ticker] else 0) + 1]
    {
      transactions := transactions + [t];
      var refcount := if t.ticker in tickers then tickers[t.ticker] else 0;
      refcount := refcount + 1;
      tickers := tickers[t.ticker := refcount];
      assert transactions[..|transactions| - 1] == old(transactions);
    }

    /** The distinct tickers, in increasing order. */
    method Tickers() returns (r: seq<string>)
      requires Valid()
      ensures Lex.StrictlySorted(r)
      ensures forall k :: k in r <==> exists i :: 0 <= i < |transactions| && transactions[i].ticker == k
    {
      r := Lex.SortSet(tickers.Keys);
      forall k ensures k in r <==> exists i :: 0 <= i < |transactions| && transactions[i].ticker == k {
        CountPositive(transactions, k);
      }
    }

    /** `len`; a collection is falsy in Python exactly when it is empty. */
    function Length(): (n: nat)
      reads this
      ensures n == 0 <==> transactions == []
    {
      |transactions|
    }

    /** Python indexing: a negative index counts from the end; outside the range is an IndexError. */
    function Get(x: int): (r: Option<Transaction>)
      reads this
      ensures r.Some? <==> -(Length() as int) <= x < Length()
      ensures 0 <= x < Length() ==> r == Some(transactions[x])
      ensures -(Length() as int) <= x < 0 ==> r == Some(transactions[Length() + x])
      ensures r.Some? ==> r.value in transactions
    {
      if 0 <= x < |transactions| then Some(transactions[x])
      else if -|transactions| <= x < 0 then Some(transactions[|transactions| + x])
      else None
    }

    /** A new collection of the entries that pass every given criterion, in order. */
    method FilterBy(f: FilterArgs) returns (r: Transactions)
      ensures fresh(r) && r.Valid()
      ensures r.transactions == Select(transactions, f)
    {
      r := new Transactions(Select(transactions, f));
    }
  }

  /**
   * Negative positions count from the end, as Python indexing does: -1 is the
   * last entry, and each negative position names the same entry as the
   * non-negative one a length further on.
   */
  lemma GetWraps(txs: Transactions, x: int)
    ensures x < 0 && txs.Get(x).Some? ==> txs.Get(x) == txs.Get(x + txs.Length())
    ensures txs.Length() > 0 ==> txs.Get(-1) == Some(txs.transactions[txs.Length() - 1])
    ensures txs.Get(txs.Length()) == None && txs.Get(-(txs.Length() as int) - 1) == None
  {
  }
}
