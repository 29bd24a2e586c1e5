/**
 * One buy or sell entry: the input fields read from a CSV row, which never
 * change, and the computed fields that the ACB fold writes back.
 */
module Records {
  import opened Wrappers

  const Buy: string := "BUY"
  const Sell: string := "SELL"

  /** The error the share-balance setter raises (Python's ValueError). */
  datatype SetterError = NegativeShareBalance

  class Transaction {
    // Input fields: read-only properties, so they are constants here.
    const date: int            // a day number, see module Dates
    const description: string
    const ticker: string
    const action: string       // "BUY" or "SELL"
    const qty: real
    const price: real
    const commission: real
    const currency: string

    // Computed fields, each with a setter.
    var exchangeRate: Option<real>
    var shareBalance: real
    var proceeds: real
    var capitalGain: real
    var acb: real
    var superficialLoss: bool

    // Attributes that callers attach to the object outside the class body:
    // TickerGains stores the ACB change of the entry, and the cost report reads
    // a running cost that no code in this model computes. The constructor does
    // not set them, so their initial value is arbitrary.
    var acbDelta: real
    var cumulativeCost: real

    constructor (date: int, description: string, ticker: string, action: string,
                 qty: real, price: real, commission: real, currency: string)
      ensures this.date == date && this.description == description
      ensures this.ticker == ticker && this.action == action
      ensures this.qty == qty && this.price == price
      ensures this.commission == commission && this.currency == currency
      ensures exchangeRate == None && shareBalance == 0.0
      ensures proceeds == 0.0 && capitalGain == 0.0 && acb == 0.0
      ensures !superficialLoss
    {
      this.date := date;
      this.description := description;
      this.ticker := ticker;
      this.action := action;
      this.qty := qty;
      this.price := price;
      this.commission := commission;
      this.currency := currency;
      exchangeRate := None;
      shareBalance := 0.0;
      proceeds := 0.0;
      capitalGain := 0.0;
      acb := 0.0;
      superficialLoss := false;
    }

    /** The only validating setter: a negative balance is refused and nothing changes. */
    method SetShareBalance(balance: real) returns (r: Outcome<SetterError>)
      modifies this`shareBalance
      ensures r == Pass <==> balance >= 0.0
      ensures r.Fail? ==> r.error == NegativeShareBalance && shareBalance == old(shareBalance)
      ensures r.Pass? ==> shareBalance == balance
    {
      if balance < 0.0 {
        return Fail(NegativeShareBalance);
      }
      shareBalance := balance;
      return Pass;
    }

    /**
     * The commission converted to CAD. Python raises a TypeError when no
     * exchange rate has been stored yet; that case is None here.
     */
    function Expenses(): (r: Option<real>)
      reads this
      ensures r.Some? <==> exchangeRate.Some?
      ensures r.Some? && exchangeRate.value != 0.0 ==> r.value / exchangeRate.value == commission
      ensures r.Some? && commission == 0.0 ==> r.value == 0.0
      ensures r.Some? && exchangeRate.value == 0.0 ==> r.value == 0.0
    {
      match exchangeRate
      case None => None
      case Some(rate) => Some(commission * rate)
    }

    /** Marks the entry as a superficial loss, whose gain is then denied. */
    method SetSuperficialLoss()
      modifies this`superficialLoss, this`capitalGain
      ensures superficialLoss && capitalGain == 0.0
    {
      superficialLoss := true;
      capitalGain := 0.0;
    }
  }
}
