/**
 * The per-ticker adjusted-cost-base fold: a running share balance and total
 * ACB, advanced one transaction at a time.
 */
module Gains {
  import opened Wrappers
  import opened Records

  /** The ACB of one share before a transaction; 0 stands for "no position". */
  function AcbPerShare(shareBalance: real, totalAcb: real): (r: real)
    ensures shareBalance == 0.0 ==> r == 0.0
    ensures shareBalance != 0.0 ==> r * shareBalance == totalAcb
  {
    if shareBalance == 0.0 then 0.0 else totalAcb / shareBalance
  }

  /** The values one transaction produces: new balance, proceeds, gain, ACB change and new total ACB. */
  datatype Effect = Effect(shareBalance: real, proceeds: real, capitalGain: real, acbDelta: real, acb: real)

  /**
   * What adding one transaction computes from the state before it. Every
   * action other than "SELL" takes the buy branch.
   */
  function Apply(shareBalance: real, totalAcb: real, action: string,
                 qty: real, price: real, commission: real, rate: real): (e: Effect)
    ensures e.acb == totalAcb + e.acbDelta
    ensures action == Sell ==> e.shareBalance == shareBalance - qty
    ensures action == Sell ==> e.capitalGain == e.proceeds + e.acbDelta
    ensures action != Sell ==> e.shareBalance == shareBalance + qty
    ensures action != Sell ==> e.capitalGain == 0.0 && e.acbDelta == -e.proceeds
  {
    var perShare := AcbPerShare(shareBalance, totalAcb);
    if action == Sell then
      var proceeds := (qty * price - commission) * rate;
      var acbDelta := -(perShare * qty);
      Effect(shareBalance - qty, proceeds, proceeds - perShare * qty, acbDelta, totalAcb + acbDelta)
    else
      var proceeds := -(qty * price - commission) * rate;
      var acbDelta := -proceeds;
      Effect(shareBalance + qty, proceeds, 0.0, acbDelta, totalAcb + acbDelta)
  }

  /**
   * A sale removes the position's average cost of each share sold: the ACB
   * taken out is the sold fraction of the total ACB, and the gain is the
   * proceeds less that; with no position nothing is taken out.
   */
  lemma SellUsesAverageCost(shareBalance: real, totalAcb: real, qty: real, price: real, commission: real, rate: real)
    ensures var e := Apply(shareBalance, totalAcb, Sell, qty, price, commission, rate);
            shareBalance != 0.0 ==>
              && e.acbDelta * shareBalance == -(totalAcb * qty)
              && e.capitalGain * shareBalance == e.proceeds * shareBalance - totalAcb * qty
    ensures var e := Apply(shareBalance, totalAcb, Sell, qty, price, commission, rate);
            shareBalance == 0.0 ==> e.acbDelta == 0.0 && e.capitalGain == e.proceeds
  {
  }

  /**
   * Buying into an empty position and then selling every share bought closes
   * the position: no shares, no ACB, and the gain is the sale's net proceeds
   * less the purchase's net cost, each in CAD at its own rate.
   */
  lemma BuyThenSellAll(qty: real, buyPrice: real, buyCommission: real, buyRate: real,
                       sellPrice: real, sellCommission: real, sellRate: real)
    requires qty != 0.0
    ensures var b := Apply(0.0, 0.0, Buy, qty, buyPrice, buyCommission, buyRate);
            var s := Apply(b.shareBalance, b.acb, Sell, qty, sellPrice, sellCommission, sellRate);
            && s.shareBalance == 0.0 && s.acb == 0.0
            && s.capitalGain == s.proceeds + b.proceeds
            && s.capitalGain == (qty * sellPrice - sellCommission) * sellRate - (qty * buyPrice - buyCommission) * buyRate
  {
  }

  /** Selling the whole position leaves no shares and no cost base. */
  lemma SellWholePosition(shareBalance: real, totalAcb: real, price: real, commission: real, rate: real)
    requires shareBalance != 0.0
    ensures var e := Apply(shareBalance, totalAcb, Sell, shareBalance, price, commission, rate);
            e.shareBalance == 0.0 && e.acb == 0.0
  {
  }

  /** A partial sale leaves the ACB per share of the remaining position as it was. */
  lemma SellKeepsAcbPerShare(shareBalance: real, totalAcb: real, qty: real, price: real, commission: real, rate: real)
    requires shareBalance != 0.0 && qty != shareBalance
    ensures var e := Apply(shareBalance, totalAcb, Sell, qty, price, commission, rate);
            AcbPerShare(e.shareBalance, e.acb) == AcbPerShare(shareBalance, totalAcb)
  {
  }

  /**
   * Buy 100 at 50.00 with commission 10.00 at rate 2.0, then sell 50 at
   * 120.00 with commission 10.00: the code subtracts the buy commission, so
   * the position costs 9980.00 and the sale gains 6990.00.
   */
  lemma BuyThenSellExample()
    ensures var b := Apply(0.0, 0.0, Buy, 100.0, 50.0, 10.0, 2.0);
            && b == Effect(100.0, -9980.0, 0.0, 9980.0, 9980.0)
            && Apply(b.shareBalance, b.acb, Sell, 50.0, 120.0, 10.0, 2.0)
               == Effect(50.0, 11980.0, 6990.0, -4990.0, 4990.0)
  {
  }

  /**
   * Buy 100 at 100.00, sell 99 at 50.00, then sell the last share at 1000.00,
   * each with commission 10.00 at rate 2.0: the last sale gains 1780.20 and
   * leaves an ACB of 0.
   */
  lemma BuySellSellExample()
    ensures var b := Apply(0.0, 0.0, Buy, 100.0, 100.0, 10.0, 2.0);
            var s1 := Apply(b.shareBalance, b.acb, Sell, 99.0, 50.0, 10.0, 2.0);
            var s2 := Apply(s1.shareBalance, s1.acb, Sell, 1.0, 1000.0, 10.0, 2.0);
            && b.acb == 19980.0 && s1.shareBalance == 1.0
            && s2 == Effect(0.0, 1980.0, 1780.2, -199.8, 0.0)
  {
  }

  function Sum(s: seq<real>): real
  {
    if s == [] then 0.0 else Sum(s[..|s| - 1]) + s[|s| - 1]
  }

  class TickerGains {
    const ticker: string
    var shareBalance: real
    var totalAcb: real
    /** The ACB change of every transaction added so far. */
    ghost var acbDeltas: seq<real>

    ghost predicate Valid()
      reads this
    {
      shareBalance >= 0.0 && totalAcb == Sum(acbDeltas)
    }

    constructor (ticker: string)
      ensures Valid() && this.ticker == ticker
      ensures shareBalance == 0.0 && totalAcb == 0.0 && acbDeltas == []
    {
      this.ticker := ticker;
      shareBalance := 0.0;
      totalAcb := 0.0;
      acbDeltas := [];
    }

    /**
     * Computes the effect of t, writes it onto t and advances the state. A
     * negative new balance is refused by t's share-balance setter before
     * anything is written.
     */
    method AddTransaction(t: Transaction, exchangeRate: real) returns (r: Outcome<SetterError>)
      requires Valid()
      modifies this, t`shareBalance, t`proceeds, t`capitalGain, t`acbDelta, t`acb
      ensures Valid()
      ensures var e := Apply(old(shareBalance), old(totalAcb), t.action, t.qty, t.price, t.commission, exchangeRate);
              && (r.Pass? <==> e.shareBalance >= 0.0)
              && (r.Pass? ==>
                    && shareBalance == e.shareBalance && totalAcb == e.acb
                    && acbDeltas == old(acbDeltas) + [e.acbDelta]
                    && t.shareBalance == e.shareBalance && t.proceeds == e.proceeds
                    && t.capitalGain == e.capitalGain && t.acbDelta == e.acbDelta && t.acb == e.acb)
              && (r.Fail? ==> r.error == NegativeShareBalance && unchanged(this) && unchanged(t))
    {
      // The effect of t on the balance, proceeds, gain and ACB.
      var e := Apply(shareBalance, totalAcb, t.action, t.qty, t.price, t.commission, exchangeRate);
      if shareBalance < 0.0 {
        // The guard tests the balance before the update, which Valid() keeps
        // non-negative: it can never fire.
        assert false;
      }
      r := t.SetShareBalance(e.shareBalance);
      if r.Fail? {
        return;
      }
      t.proceeds := e.proceeds;
      t.capitalGain := e.capitalGain;
      t.acbDelta := e.acbDelta;
      t.acb := e.acb;
      shareBalance := e.shareBalance;
      totalAcb := e.acb;
      acbDeltas := acbDeltas + [e.acbDelta];
      assert acbDeltas[..|acbDeltas| - 1] == old(acbDeltas);
    }
  }
}
