/**
 * One held instrument of the portfolio simulator (stock.py): its ticker, its
 * current price, the number of shares held, the derived market value of the
 * holding and the stock's own trade log.
 *
 * Money is counted in integer cents. Prices come from a price history that is
 * rounded to two decimals, so a price is a whole number of cents and
 * price * quantity is exact; rounding to two decimals is then the identity.
 */
module Stocks {

  type Ticker = string
  type Date = string

  /** One trade as the source records it: the price and the signed number of
      shares (positive for a purchase, negative for a sale). */
  datatype Trade = Trade(price: int, quantity: int)

  /** The value of a Stock object's fields at one moment. */
  datatype StockState = StockState(
    ticker: Ticker,
    price: int,
    quantity: int,
    position: int,
    trades: map<Date, Trade>)
  {
    /** The market value is price times quantity, never allowed to drift. */
    predicate Consistent() {
      position == price * quantity
    }

    /** The state after update_price(newPrice). */
    function WithPrice(newPrice: int): (s: StockState)
      ensures s.Consistent()
      ensures s.price == newPrice
      ensures s.ticker == ticker && s.quantity == quantity && s.trades == trades
    {
      this.(price := newPrice, position := newPrice * quantity)
    }

    /** The state after update_quantity(newQuantity). */
    function WithQuantity(newQuantity: int): (s: StockState)
      ensures s.Consistent()
      ensures s.quantity == newQuantity
      ensures s.ticker == ticker && s.price == price && s.trades == trades
    {
      this.(quantity := newQuantity, position := price * newQuantity)
    }
  }

  /** The state the constructor builds: position rounded to cents (exact here)
      and an empty trade log. */
  function Opened(ticker: Ticker, price: int, quantity: int): (s: StockState)
    ensures s.Consistent() && s.trades == map[]
    ensures s.ticker == ticker && s.price == price && s.quantity == quantity
  {
    StockState(ticker, price, quantity, price * quantity, map[])
  }

  /** Updating the price and then the quantity reaches the same state as the
      other order. */
  lemma UpdatesCommute(s: StockState, p: int, q: int)
    ensures s.WithPrice(p).WithQuantity(q) == s.WithQuantity(q).WithPrice(p)
    ensures s.WithPrice(p).WithQuantity(q) == StockState(s.ticker, p, q, p * q, s.trades)
  {
  }

  /** Each update is idempotent, and a later price (or quantity) replaces an
      earlier one entirely. */
  lemma UpdatesIdempotent(s: StockState, p: int, p': int, q: int, q': int)
    ensures s.WithPrice(p).WithPrice(p) == s.WithPrice(p)
    ensures s.WithQuantity(q).WithQuantity(q) == s.WithQuantity(q)
    ensures s.WithPrice(p').WithPrice(p) == s.WithPrice(p)
    ensures s.WithQuantity(q').WithQuantity(q) == s.WithQuantity(q)
  {
  }

  /** An update on a consistent state that does not change the field leaves the
      whole state as it was. */
  lemma UpdateToSameValue(s: StockState)
    requires s.Consistent()
    ensures s.WithPrice(s.price) == s
    ensures s.WithQuantity(s.quantity) == s
  {
  }

  class Stock {
    const ticker: Ticker
    var price: int
    var quantity: int
    var position: int
    var trades: map<Date, Trade>

    /** The current value of all fields. */
    function State(): StockState
      reads this
    {
      StockState(ticker, price, quantity, position, trades)
    }

    /** The derived field agrees with price and quantity. */
    predicate Valid()
      reads this
    {
      State().Consistent()
    }

    constructor (ticker: Ticker, price: int := 0, quantity: int := 0)
      ensures State() == Opened(ticker, price, quantity)
      ensures Valid()
    {
      this.ticker := ticker;
      this.price := price;
      this.quantity := quantity;
      this.position := price * quantity;
      this.trades := map[];
    }

    method UpdatePrice(newPrice: int)
      modifies this`price, this`position
      ensures State() == old(State()).WithPrice(newPrice)
      ensures Valid()
    {
      price := newPrice;
      position := newPrice * quantity;
    }

    method UpdateQuantity(newQuantity: int)
      modifies this`quantity, this`position
      ensures State() == old(State()).WithQuantity(newQuantity)
      ensures Valid()
    {
      quantity := newQuantity;
      position := newQuantity * price;
    }
  }
}
