/**
 * The portfolio rebalancing state machine (portfolio.py): cash, the held
 * positions by ticker, a trade ledger, a worth history and the simulation
 * date, with three opening strategies, price refresh, worth recomputation and
 * buy/sell operations bounded by a 50% weight ceiling and a 5% weight floor.
 *
 * Money is in integer cents and quantities are whole shares, so the source's
 * floor((worth * 0.5) / price) is worth / (2 * price), its
 * floor((worth * 0.05) / price) is worth / (20 * price), and its
 * round(x, 2) is the identity.
 */
module Portfolios {
  import opened Stocks

  /** MAX = 0.5: a buy may bring a holding to at most 1/2 of worth. */
  const MAX_WEIGHT_DIVISOR := 2
  /** MIN = 0.05: a sell trims a holding down to 1/20 of worth. */
  const MIN_WEIGHT_DIVISOR := 20
  /** The default starting cash, 100000.0, in cents. */
  const INITIAL_CASH := 10000000
  /** Default tickers of the two single-stock strategies. */
  const BEST_STOCK: Ticker := "NVDA"
  const MARKET_INDEX: Ticker := "^GSPC"

  /** No element occurs twice. The quantifier is triggered on Differ terms
      only, so that it is used where a proof asks for it rather than on every
      pair of sequence elements in sight. */
  predicate Distinct<T(==)>(s: seq<T>) {
    forall i, j {:trigger Differ(s, i, j)} :: 0 <= i < j < |s| ==> Differ(s, i, j)
  }

  predicate Differ<T(==)>(s: seq<T>, i: int, j: int)
    requires 0 <= i < j < |s|
  {
    s[i] != s[j]
  }

  lemma DistinctAppend<T>(s: seq<T>, x: T)
    requires Distinct(s) && x !in s
    ensures Distinct(s + [x])
  {
    var s' := s + [x];
    forall i, j | 0 <= i < j < |s'| ensures Differ(s', i, j) {
      if j < |s| {
        assert Differ(s, i, j);
      } else {
        assert s'[i] == s[i];
      }
    }
  }

  function Min(a: int, b: int): int {
    if a <= b then a else b
  }

  // ---------------------------------------------------------------------------
  // Trade sizes
  // ---------------------------------------------------------------------------

  /** Largest holding allowed by the weight ceiling: floor(worth * MAX / price). */
  function MaxQuantity(worth: int, price: int): (q: int)
    requires price > 0
    ensures worth >= 0 ==> q >= 0
  {
    worth / (MAX_WEIGHT_DIVISOR * price)
  }

  /** Holding a sell trims down to: floor(worth * MIN / price). */
  function TargetQuantity(worth: int, price: int): (q: int)
    requires price > 0
    ensures worth >= 0 ==> q >= 0
  {
    worth / (MIN_WEIGHT_DIVISOR * price)
  }

  /** Shares that cash alone pays for: floor(cash / price). */
  function Affordable(cash: int, price: int): (q: int)
    requires price > 0
    ensures cash >= 0 ==> q >= 0
  {
    cash / price
  }

  /** The ceiling is the largest holding worth at most half the portfolio. */
  lemma MaxQuantityIsFloor(worth: int, price: int)
    requires price > 0
    ensures var q := MaxQuantity(worth, price);
      MAX_WEIGHT_DIVISOR * (price * q) <= worth < MAX_WEIGHT_DIVISOR * (price * (q + 1))
  {
    var d := MAX_WEIGHT_DIVISOR * price;
    var q := worth / d;
    assert d * q <= worth < d * (q + 1);
  }

  /** The floor is the largest holding worth at most 5% of the portfolio. */
  lemma TargetQuantityIsFloor(worth: int, price: int)
    requires price > 0
    ensures var q := TargetQuantity(worth, price);
      MIN_WEIGHT_DIVISOR * (price * q) <= worth < MIN_WEIGHT_DIVISOR * (price * (q + 1))
  {
    var d := MIN_WEIGHT_DIVISOR * price;
    var q := worth / d;
    assert d * q <= worth < d * (q + 1);
  }

  /** Cash pays for the affordable shares but not for one more: what is left
      after buying them is less than one share's price. */
  lemma AffordableIsFloor(cash: int, price: int)
    requires price > 0
    ensures 0 <= cash - price * Affordable(cash, price) < price
  {
  }

  /** The signed number of shares buy_stock trades once cash covers one share:
      as many as cash pays for, cut back so that the holding ends at the
      ceiling. Nothing clamps it at zero, so it is negative (a sale) when the
      holding is already above the ceiling. */
  function BoughtQuantity(cash: int, worth: int, price: int, held: int): (b: int)
    requires price > 0
    ensures held + b == Min(held + Affordable(cash, price), MaxQuantity(worth, price))
    ensures b <= Affordable(cash, price)
  {
    var wanted := Affordable(cash, price);
    if wanted + held > MaxQuantity(worth, price) then MaxQuantity(worth, price) - held else wanted
  }

  lemma MulMonotone(p: int, a: int, b: int)
    requires p >= 0 && a <= b
    ensures p * a <= p * b
  {
    assert p * b - p * a == p * (b - a);
  }

  /** Paying for what buy_stock trades never overdraws the cash, and the new
      holding stays non-negative when worth is. */
  lemma BuyKeepsCashNonNegative(cash: int, worth: int, price: int, held: int)
    requires price > 0 && cash >= 0 && worth >= 0 && held >= 0
    ensures var b := BoughtQuantity(cash, worth, price, held);
      cash - price * b >= 0 && held + b >= 0
  {
    var b := BoughtQuantity(cash, worth, price, held);
    var a := Affordable(cash, price);
    AffordableIsFloor(cash, price);
    MulMonotone(price, b, a);
  }

  /** buy_stock sells when the holding is already above the ceiling: the
      "purchase" is then negative and cash goes up. */
  lemma BuyCanSell(cash: int, worth: int, price: int, held: int)
    requires price > 0 && cash >= price && held > MaxQuantity(worth, price)
    ensures BoughtQuantity(cash, worth, price, held) < 0
    ensures cash - price * BoughtQuantity(cash, worth, price, held) > cash
  {
    var b := BoughtQuantity(cash, worth, price, held);
    assert Affordable(cash, price) >= 1;
    assert b == MaxQuantity(worth, price) - held;
    assert price * b < 0 by {
      assert price * (-b) > 0;
    }
  }

  /** worth 1000.00, price 10.00, 80 shares held and 100.00 in cash: the
      ceiling is 50 shares, so buy_stock sells 30. */
  lemma BuyCanSellExample()
    ensures BoughtQuantity(10000, 100000, 1000, 80) == -30
  {
  }

  /** The sell size: what lies above the floor, positive exactly when
      sell_stock trades. */
  function SoldQuantity(worth: int, price: int, held: int): (s: int)
    requires price > 0
    ensures s > 0 <==> TargetQuantity(worth, price) < held
    ensures held - s == TargetQuantity(worth, price)
  {
    held - TargetQuantity(worth, price)
  }

  // ---------------------------------------------------------------------------
  // Ledger and holdings as values
  // ---------------------------------------------------------------------------

  /** trades[date][ticker] = trade, creating the day's entry when it is absent. */
  function Record(trades: map<Date, map<Ticker, Trade>>, date: Date, ticker: Ticker, trade: Trade)
    : map<Date, map<Ticker, Trade>>
  {
    var day := if date in trades then trades[date] else map[];
    trades[date := day[ticker := trade]]
  }

  /** Recording a trade adds exactly that entry to the ledger: the day's
      entry is created when absent, and every other day and every other
      ticker of that day keeps its trade. */
  lemma RecordContents(trades: map<Date, map<Ticker, Trade>>, date: Date, ticker: Ticker, trade: Trade)
    ensures var r := Record(trades, date, ticker, trade);
      && r.Keys == trades.Keys + {date}
      && ticker in r[date] && r[date][ticker] == trade
      && (forall d :: d in trades && d != date ==> r[d] == trades[d])
      && r[date].Keys == (if date in trades then trades[date].Keys else {}) + {ticker}
      && (date in trades ==> forall t :: t in trades[date] && t != ticker ==> r[date][t] == trades[date][t])
  {
  }

  /** Recording on a day whose entry is `day` extends that entry. */
  lemma RecordOnDay(trades: map<Date, map<Ticker, Trade>>, date: Date, day: map<Ticker, Trade>, ticker: Ticker, trade: Trade)
    ensures Record(trades[date := day], date, ticker, trade) == trades[date := day[ticker := trade]]
  {
  }

  /** The state a Stock reaches when an opening strategy creates it with
      `quantity` shares at `price` and logs that trade on `date`. */
  function Opening(date: Date, ticker: Ticker, price: int, quantity: int): (s: StockState)
    ensures s.Consistent() && s.ticker == ticker && s.price == price && s.quantity == quantity
    ensures s.trades == map[date := Trade(price, quantity)]
  {
    Opened(ticker, price, quantity).(trades := map[date := Trade(price, quantity)])
  }

  /** stock.update_quantity(quantity) followed by stock.trades[date] = (price, traded). */
  function Traded(s: StockState, date: Date, quantity: int, traded: int): (r: StockState)
    ensures r.Consistent() && r.ticker == s.ticker && r.price == s.price && r.quantity == quantity
    ensures r.trades == s.trades[date := Trade(s.price, traded)]
  {
    s.WithQuantity(quantity).(trades := s.trades[date := Trade(s.price, traded)])
  }

  function PositionOf(h: map<Ticker, StockState>, t: Ticker): int {
    if t in h then h[t].position else 0
  }

  /** Sum of the market values of the tickers in `order` (the accumulator of
      update_worth, taken in the dictionary's order). */
  function Invested(order: seq<Ticker>, h: map<Ticker, StockState>): int {
    if order == [] then 0
    else Invested(order[..|order| - 1], h) + PositionOf(h, order[|order| - 1])
  }

  /** Replacing one holding changes the sum by exactly the change of that
      holding's market value. */
  lemma {:induction false} InvestedUpdate(order: seq<Ticker>, h: map<Ticker, StockState>, t: Ticker, s: StockState)
    requires Distinct(order) && t in order
    ensures Invested(order, h[t := s]) == Invested(order, h) - PositionOf(h, t) + s.position
  {
    var n := |order| - 1;
    var init := order[..n];
    if order[n] == t {
      forall i | 0 <= i < n ensures init[i] != t {
        assert Differ(order, i, n);
      }
      InvestedFrame(init, h[t := s], h);
    } else {
      forall i, j | 0 <= i < j < n ensures Differ(init, i, j) {
        assert Differ(order, i, j);
      }
      assert t in init by {
        var k :| 0 <= k < |order| && order[k] == t;
        assert init[k] == t;
      }
      InvestedUpdate(init, h, t, s);
    }
  }

  /** The sum only depends on the market values of the tickers it ranges over. */
  lemma {:induction false} InvestedFrame(order: seq<Ticker>, h: map<Ticker, StockState>, h': map<Ticker, StockState>)
    requires forall i :: 0 <= i < |order| ==> PositionOf(h, order[i]) == PositionOf(h', order[i])
    ensures Invested(order, h) == Invested(order, h')
  {
    if order != [] {
      InvestedFrame(order[..|order| - 1], h, h');
    }
  }

  /** Appending a new ticker adds its market value to the sum. */
  lemma InvestedAppend(order: seq<Ticker>, h: map<Ticker, StockState>, t: Ticker, s: StockState)
    requires t !in order
    ensures Invested(order + [t], h[t := s]) == Invested(order, h) + s.position
  {
    assert (order + [t])[..|order|] == order;
    forall i | 0 <= i < |order| ensures PositionOf(h[t := s], order[i]) == PositionOf(h, order[i]) {
      assert order[i] in order;
    }
    InvestedFrame(order, h[t := s], h);
  }

  /** Holdings with non-negative market values sum to a non-negative value. */
  lemma {:induction false} InvestedNonNegative(order: seq<Ticker>, h: map<Ticker, StockState>)
    requires forall t :: t in h ==> h[t].position >= 0
    ensures Invested(order, h) >= 0
  {
    if order != [] {
      InvestedNonNegative(order[..|order| - 1], h);
    }
  }

  /** A holding that is held well: named by its key, consistent, priced and
      not short. */
  predicate WellHeld(s: StockState, t: Ticker) {
    s.ticker == t && s.Consistent() && s.price > 0 && s.quantity >= 0
  }

  /** The books of a portfolio are sound: cash is not negative, `order` lists
      each held ticker exactly once, and every holding is held well. */
  predicate SoundBooks(cash: int, order: seq<Ticker>, positions: map<Ticker, StockState>) {
    && cash >= 0
    && Distinct(order)
    && (forall i :: 0 <= i < |order| ==> order[i] in positions)
    && (forall t :: t in positions ==> t in order)
    && (forall t :: t in positions ==> WellHeld(positions[t], t))
  }

  /** Sound books hold nothing with a negative market value. */
  lemma SoundBooksInvestedNonNegative(cash: int, order: seq<Ticker>, positions: map<Ticker, StockState>)
    requires SoundBooks(cash, order, positions)
    ensures Invested(order, positions) >= 0
  {
    forall t | t in positions ensures positions[t].position >= 0 {
      var s := positions[t];
      MulMonotone(s.price, 0, s.quantity);
    }
    InvestedNonNegative(order, positions);
  }

  /** Every ticker of `ts` has a positive price in `prices`. */
  predicate PricedAll(prices: map<Ticker, int>, ts: seq<Ticker>) {
    forall i :: 0 <= i < |ts| ==> ts[i] in prices && prices[ts[i]] > 0
  }

  /** The holdings after update_prices: every position re-marked at the day's price. */
  function Repriced(h: map<Ticker, StockState>, prices: map<Ticker, int>): (r: map<Ticker, StockState>)
    requires forall t :: t in h ==> t in prices
    ensures r.Keys == h.Keys
    ensures forall t :: t in r ==>
      r[t].price == prices[t] && r[t].quantity == h[t].quantity && r[t].Consistent() &&
      r[t].ticker == h[t].ticker && r[t].trades == h[t].trades
  {
    map t | t in h :: h[t].WithPrice(prices[t])
  }

  /** Re-marking twice is re-marking at the later prices. */
  lemma RepricedTwice(h: map<Ticker, StockState>, p: map<Ticker, int>, p': map<Ticker, int>)
    requires forall t :: t in h ==> t in p && t in p'
    ensures Repriced(Repriced(h, p), p') == Repriced(h, p')
  {
    var a := Repriced(Repriced(h, p), p');
    var b := Repriced(h, p');
    forall t | t in h ensures a[t] == b[t] {
      UpdatesIdempotent(h[t], p'[t], p[t], 0, 0);
    }
  }

  /** Re-marking at the prices already held changes nothing. */
  lemma RepricedAtSamePrices(h: map<Ticker, StockState>, p: map<Ticker, int>)
    requires forall t :: t in h ==> t in p && h[t].price == p[t] && h[t].Consistent()
    ensures Repriced(h, p) == h
  {
    forall t | t in h ensures Repriced(h, p)[t] == h[t] {
      UpdateToSameValue(h[t]);
    }
  }

  /** Re-marking at positive prices keeps sound books sound. */
  lemma RepricedBooks(cash: int, order: seq<Ticker>, h: map<Ticker, StockState>, prices: map<Ticker, int>)
    requires SoundBooks(cash, order, h)
    requires forall t :: t in h ==> t in prices && prices[t] > 0
    ensures SoundBooks(cash, order, Repriced(h, prices))
  {
  }

  // ---------------------------------------------------------------------------
  // Opening strategies as values
  // ---------------------------------------------------------------------------

  /** Shares bought per ticker: floor((cash / n) / price). */
  function EqualWeightQuantity(cash: int, n: int, price: int): (q: int)
    requires n > 0 && price > 0
    ensures cash >= 0 ==> q >= 0
  {
    cash / (n * price)
  }

  /** One equal-weight purchase costs at most an n-th of the cash. */
  lemma EqualWeightQuantityCost(cash: int, n: int, price: int)
    requires n > 0 && price > 0
    ensures n * (price * EqualWeightQuantity(cash, n, price)) <= cash
  {
    var q := EqualWeightQuantity(cash, n, price);
    var d := n * price;
    assert d * q <= cash;
    assert n * (price * q) == d * q;
  }

  /** Cash spent opening every ticker of `ts` at its equal-weight quantity. */
  function SetupCost(ts: seq<Ticker>, prices: map<Ticker, int>, cash: int, n: int): int
    requires n > 0 && PricedAll(prices, ts)
  {
    if ts == [] then 0
    else
      var t := ts[|ts| - 1];
      SetupCost(ts[..|ts| - 1], prices, cash, n) + prices[t] * EqualWeightQuantity(cash, n, prices[t])
  }

  lemma MulAddRight(n: int, a: int, b: int)
    ensures n * (a + b) == n * a + n * b
  {
  }

  /** Each equal-weight purchase costs at most 1/n of the cash, so opening k
      tickers spends at most k/n of it. */
  lemma {:induction false} SetupCostBound(ts: seq<Ticker>, prices: map<Ticker, int>, cash: int, n: int)
    requires n > 0 && cash >= 0 && PricedAll(prices, ts)
    ensures 0 <= SetupCost(ts, prices, cash, n)
    ensures n * SetupCost(ts, prices, cash, n) <= |ts| * cash
  {
    if ts != [] {
      var init := ts[..|ts| - 1];
      assert PricedAll(prices, init);
      SetupCostBound(init, prices, cash, n);
      var p := prices[ts[|ts| - 1]];
      var c := p * EqualWeightQuantity(cash, n, p);
      MulMonotone(p, 0, EqualWeightQuantity(cash, n, p));
      EqualWeightQuantityCost(cash, n, p);
      MulAddRight(n, SetupCost(init, prices, cash, n), c);
      MulAddRight(cash, |init|, 1);
      assert |ts| * cash == |init| * cash + cash;
    }
  }

  /** Opening at most n tickers at 1/n of the cash each never costs more than the cash. */
  lemma SetupCostWithinCash(ts: seq<Ticker>, prices: map<Ticker, int>, cash: int, n: int)
    requires n > 0 && cash >= 0 && PricedAll(prices, ts) && |ts| <= n
    ensures 0 <= SetupCost(ts, prices, cash, n) <= cash
  {
    SetupCostBound(ts, prices, cash, n);
    var c := SetupCost(ts, prices, cash, n);
    MulMonotone(cash, |ts|, n);
    if c > cash {
      MulMonotone(n, cash + 1, c);
      assert false;
    }
  }

  /** The ledger entry of an equal-weight opening: each ticker of `ts` in
      turn is saved with its price and equal-weight quantity. */
  function EqualWeightTrades(ts: seq<Ticker>, prices: map<Ticker, int>, cash: int, n: int): map<Ticker, Trade>
    requires n > 0 && PricedAll(prices, ts)
  {
    if ts == [] then map[]
    else
      var t := ts[|ts| - 1];
      EqualWeightTrades(ts[..|ts| - 1], prices, cash, n)[t := Trade(prices[t], EqualWeightQuantity(cash, n, prices[t]))]
  }

  /** The equal-weight ledger entry names exactly the tickers of `ts`, each
      with the day's price and its equal-weight quantity. */
  lemma {:induction false} EqualWeightTradesContents(ts: seq<Ticker>, prices: map<Ticker, int>, cash: int, n: int)
    requires n > 0 && PricedAll(prices, ts)
    ensures var r := EqualWeightTrades(ts, prices, cash, n);
      && r.Keys == (set t | t in ts)
      && forall t :: t in r ==> r[t] == Trade(prices[t], EqualWeightQuantity(cash, n, prices[t]))
  {
    if ts != [] {
      var init := ts[..|ts| - 1];
      assert PricedAll(prices, init);
      EqualWeightTradesContents(init, prices, cash, n);
      assert forall t :: t in ts <==> t in init || t == ts[|ts| - 1] by {
        assert ts == init + [ts[|ts| - 1]];
      }
    }
  }

  /** The holdings after opening each ticker of `ts` in turn at its
      equal-weight quantity on `date`. */
  function EqualWeightHoldings(h: map<Ticker, StockState>, ts: seq<Ticker>, prices: map<Ticker, int>,
                               cash: int, n: int, date: Date): map<Ticker, StockState>
    requires n > 0 && PricedAll(prices, ts)
  {
    if ts == [] then h
    else
      var t := ts[|ts| - 1];
      EqualWeightHoldings(h, ts[..|ts| - 1], prices, cash, n, date)[t := Opening(date, t, prices[t], EqualWeightQuantity(cash, n, prices[t]))]
  }

  /** After an equal-weight opening every ticker of `ts` is held at its
      equal-weight quantity and the day's price, and every other holding is as
      it was. */
  lemma {:induction false} EqualWeightHoldingsContents(h: map<Ticker, StockState>, ts: seq<Ticker>, prices: map<Ticker, int>,
                                                       cash: int, n: int, date: Date)
    requires n > 0 && PricedAll(prices, ts)
    ensures var r := EqualWeightHoldings(h, ts, prices, cash, n, date);
      && r.Keys == h.Keys + (set t | t in ts)
      && (forall t :: t in ts ==> r[t] == Opening(date, t, prices[t], EqualWeightQuantity(cash, n, prices[t])))
      && (forall t :: t in h && t !in ts ==> r[t] == h[t])
  {
    if ts != [] {
      var init := ts[..|ts| - 1];
      assert PricedAll(prices, init);
      EqualWeightHoldingsContents(h, init, prices, cash, n, date);
      assert forall t :: t in ts <==> t in init || t == ts[|ts| - 1] by {
        assert ts == init + [ts[|ts| - 1]];
      }
    }
  }

  /** The insertion order after positions[t] is assigned: a new key joins the end. */
  function Enroll(order: seq<Ticker>, t: Ticker): seq<Ticker> {
    if t in order then order else order + [t]
  }

  /** The insertion order after opening each ticker of `ts` in turn. */
  function Enrolled(order: seq<Ticker>, ts: seq<Ticker>): seq<Ticker> {
    if ts == [] then order
    else Enroll(Enrolled(order, ts[..|ts| - 1]), ts[|ts| - 1])
  }

  // ---------------------------------------------------------------------------
  // The books of a portfolio as a value
  // ---------------------------------------------------------------------------

  /** The part of a portfolio that trading changes: cash, the insertion order
      of the positions, the positions (the state of each held Stock) and the
      trade ledger. */
  datatype Account = Account(
    cash: int,
    order: seq<Ticker>,
    positions: map<Ticker, StockState>,
    trades: map<Date, map<Ticker, Trade>>)
  {
    predicate Sound() {
      SoundBooks(cash, order, positions)
    }

    /** Cash plus the market value of every position. */
    function Total(): int {
      cash + Invested(order, positions)
    }

    /** trades[date] = {}: an opening strategy starts the day's ledger afresh. */
    function ResetDay(date: Date): Account {
      this.(trades := trades[date := map[]])
    }

    /** One opening: positions[ticker] = Stock(ticker, price, quantity), its cost
        leaves the cash, and the trade is logged in the stock and the ledger. */
    function Open(date: Date, ticker: Ticker, price: int, quantity: int): Account {
      Account(cash - price * quantity, Enroll(order, ticker),
              positions[ticker := Opening(date, ticker, price, quantity)],
              Record(trades, date, ticker, Trade(price, quantity)))
    }

    /** The loop of update_prices: every position takes the day's price. */
    function Reprice(prices: map<Ticker, int>): Account
      requires forall t :: t in positions ==> t in prices
    {
      this.(positions := Repriced(positions, prices))
    }

    /** buy_stock on the held `ticker`, sized against the recorded `worth`. */
    function Buy(date: Date, ticker: Ticker, worth: int): Account
      requires ticker in positions && positions[ticker].price > 0
    {
      var s := positions[ticker];
      if cash < s.price then this
      else
        var b := BoughtQuantity(cash, worth, s.price, s.quantity);
        Account(cash - s.price * b, order, positions[ticker := Traded(s, date, s.quantity + b, b)],
                Record(trades, date, ticker, Trade(s.price, b)))
    }

    /** sell_stock on the held `ticker`, sized against the recorded `worth`. */
    function Sell(date: Date, ticker: Ticker, worth: int): Account
      requires ticker in positions && positions[ticker].price > 0
    {
      var s := positions[ticker];
      if TargetQuantity(worth, s.price) >= s.quantity then this
      else
        var sold := SoldQuantity(worth, s.price, s.quantity);
        Account(cash + s.price * sold, order, positions[ticker := Traded(s, date, TargetQuantity(worth, s.price), -sold)],
                Record(trades, date, ticker, Trade(s.price, -sold)))
    }
  }

  /** Opening keeps the books sound when the cash covers the purchase, and the
      total value loses exactly the market value of the holding it replaces. */
  lemma OpenKeepsBooks(a: Account, date: Date, ticker: Ticker, price: int, quantity: int)
    requires a.Sound() && price > 0 && quantity >= 0 && price * quantity <= a.cash
    ensures a.Open(date, ticker, price, quantity).Sound()
    ensures a.Open(date, ticker, price, quantity).Total() == a.Total() - PositionOf(a.positions, ticker)
  {
    var s := Opening(date, ticker, price, quantity);
    if ticker in a.order {
      InvestedUpdate(a.order, a.positions, ticker, s);
    } else {
      InvestedAppend(a.order, a.positions, ticker, s);
      DistinctAppend(a.order, ticker);
    }
  }

  /** A buy keeps the books sound and moves value between cash and the
      position without changing the total. */
  lemma BuyKeepsBooks(a: Account, date: Date, ticker: Ticker, worth: int)
    requires a.Sound() && ticker in a.positions && worth >= 0
    ensures a.Buy(date, ticker, worth).Sound()
    ensures a.Buy(date, ticker, worth).Total() == a.Total()
  {
    var s := a.positions[ticker];
    if a.cash >= s.price {
      var b := BoughtQuantity(a.cash, worth, s.price, s.quantity);
      BuyKeepsCashNonNegative(a.cash, worth, s.price, s.quantity);
      MulAddRight(s.price, s.quantity, b);
      assert ticker in a.order;
      InvestedUpdate(a.order, a.positions, ticker, Traded(s, date, s.quantity + b, b));
    }
  }

  /** Once the cash covers a share, a buy leaves the holding at most at the
      ceiling and at most what the cash pays for on top of it. */
  lemma BuyRespectsCeiling(a: Account, date: Date, ticker: Ticker, worth: int)
    requires ticker in a.positions && a.positions[ticker].price > 0
    requires a.cash >= a.positions[ticker].price
    ensures var s := a.positions[ticker]; var q := a.Buy(date, ticker, worth).positions[ticker].quantity;
      q <= MaxQuantity(worth, s.price) && q <= s.quantity + Affordable(a.cash, s.price)
      && (q == MaxQuantity(worth, s.price) || q == s.quantity + Affordable(a.cash, s.price))
  {
  }

  /** Without the cash for one share a buy changes nothing. Otherwise it
      debits the cost of the bought quantity, gives the stock its new
      quantity and logs (price, bought) in the stock and under
      trades[date][ticker], and every other position and every other ledger
      entry stays as it was. */
  lemma BuyLedger(a: Account, date: Date, ticker: Ticker, worth: int)
    requires ticker in a.positions && a.positions[ticker].price > 0
    ensures a.cash < a.positions[ticker].price ==> a.Buy(date, ticker, worth) == a
    ensures a.cash >= a.positions[ticker].price ==>
      var s := a.positions[ticker]; var b := BoughtQuantity(a.cash, worth, s.price, s.quantity);
      var r := a.Buy(date, ticker, worth);
      && r.cash == a.cash - s.price * b && r.order == a.order
      && r.positions.Keys == a.positions.Keys
      && r.positions[ticker].quantity == s.quantity + b
      && r.positions[ticker].trades == s.trades[date := Trade(s.price, b)]
      && (forall t :: t in a.positions && t != ticker ==> r.positions[t] == a.positions[t])
      && r.trades.Keys == a.trades.Keys + {date}
      && ticker in r.trades[date] && r.trades[date][ticker] == Trade(s.price, b)
      && (forall d :: d in a.trades && d != date ==> r.trades[d] == a.trades[d])
      && (date in a.trades ==> forall t :: t in a.trades[date] && t != ticker ==>
            t in r.trades[date] && r.trades[date][t] == a.trades[date][t])
  {
    var s := a.positions[ticker];
    if a.cash >= s.price {
      RecordContents(a.trades, date, ticker, Trade(s.price, BoughtQuantity(a.cash, worth, s.price, s.quantity)));
    }
  }

  /** A sell that trims sells a positive quantity, credits its value, lowers
      the stock to the floor quantity and logs (price, -sold) in the stock
      and under trades[date][ticker]; every other position and every other
      ledger entry stays as it was. */
  lemma SellLedger(a: Account, date: Date, ticker: Ticker, worth: int)
    requires ticker in a.positions && a.positions[ticker].price > 0
    requires TargetQuantity(worth, a.positions[ticker].price) < a.positions[ticker].quantity
    ensures var s := a.positions[ticker]; var sold := SoldQuantity(worth, s.price, s.quantity);
      var r := a.Sell(date, ticker, worth);
      && sold > 0
      && r.cash == a.cash + s.price * sold && r.order == a.order
      && r.positions.Keys == a.positions.Keys
      && r.positions[ticker].quantity == s.quantity - sold
      && r.positions[ticker].trades == s.trades[date := Trade(s.price, -sold)]
      && (forall t :: t in a.positions && t != ticker ==> r.positions[t] == a.positions[t])
      && r.trades.Keys == a.trades.Keys + {date}
      && ticker in r.trades[date] && r.trades[date][ticker] == Trade(s.price, -sold)
      && (forall d :: d in a.trades && d != date ==> r.trades[d] == a.trades[d])
      && (date in a.trades ==> forall t :: t in a.trades[date] && t != ticker ==>
            t in r.trades[date] && r.trades[date][t] == a.trades[date][t])
  {
    var s := a.positions[ticker];
    RecordContents(a.trades, date, ticker, Trade(s.price, -SoldQuantity(worth, s.price, s.quantity)));
  }

  /** A sell keeps the books sound and moves value from the position to cash
      without changing the total. */
  lemma SellKeepsBooks(a: Account, date: Date, ticker: Ticker, worth: int)
    requires a.Sound() && ticker in a.positions && worth >= 0
    ensures a.Sell(date, ticker, worth).Sound()
    ensures a.Sell(date, ticker, worth).Total() == a.Total()
  {
    var s := a.positions[ticker];
    var target := TargetQuantity(worth, s.price);
    if target < s.quantity {
      var sold := SoldQuantity(worth, s.price, s.quantity);
      MulAddRight(s.price, target, sold);
      MulMonotone(s.price, 0, sold);
      assert ticker in a.order;
      InvestedUpdate(a.order, a.positions, ticker, Traded(s, date, target, -sold));
    }
  }

  /** A sell trades exactly when the holding is above the floor, and then
      leaves it at the floor. */
  lemma SellReachesFloor(a: Account, date: Date, ticker: Ticker, worth: int)
    requires ticker in a.positions && a.positions[ticker].price > 0
    ensures var s := a.positions[ticker]; var r := a.Sell(date, ticker, worth);
      && (r != a <==> TargetQuantity(worth, s.price) < s.quantity)
      && (r != a ==> r.positions[ticker].quantity == TargetQuantity(worth, s.price))
  {
    var s := a.positions[ticker];
    if TargetQuantity(worth, s.price) < s.quantity {
      assert a.Sell(date, ticker, worth).positions[ticker].quantity != s.quantity;
    }
  }

  /** Re-marking at positive prices keeps the books sound; cash, order and
      ledger are untouched. */
  lemma RepriceKeepsBooks(a: Account, prices: map<Ticker, int>)
    requires a.Sound() && forall t :: t in a.positions ==> t in prices && prices[t] > 0
    ensures a.Reprice(prices).Sound()
    ensures a.Reprice(prices).cash == a.cash && a.Reprice(prices).order == a.order
    ensures a.Reprice(prices).trades == a.trades
  {
    RepricedBooks(a.cash, a.order, a.positions, prices);
  }

  /** setup_best_stock and setup_market as values: the day's ledger is reset
      and all the cash that buys whole shares goes into one ticker. */
  function SingleSetup(a: Account, date: Date, ticker: Ticker, price: int): Account
    requires price > 0
  {
    a.ResetDay(date).Open(date, ticker, price, Affordable(a.cash, price))
  }

  /** After a single-stock opening less than one share's price is left in
      cash, the ledger holds that one trade for the day, and the total loses
      only the value of a holding the new one replaces. */
  lemma SingleSetupSummary(a: Account, date: Date, ticker: Ticker, price: int)
    requires a.Sound() && price > 0
    ensures var r := SingleSetup(a, date, ticker, price); var q := Affordable(a.cash, price);
      && r.Sound()
      && 0 <= r.cash < price
      && r.positions == a.positions[ticker := Opening(date, ticker, price, q)]
      && r.trades == a.trades[date := map[ticker := Trade(price, q)]]
      && r.Total() == a.Total() - PositionOf(a.positions, ticker)
  {
    var q := Affordable(a.cash, price);
    AffordableIsFloor(a.cash, price);
    OpenKeepsBooks(a.ResetDay(date), date, ticker, price, q);
    RecordOnDay(a.trades, date, map[], ticker, Trade(price, q));
    assert map[][ticker := Trade(price, q)] == map[ticker := Trade(price, q)];
  }

  /** The loop of setup_equal_weight as a value: each ticker of `ts` in turn is
      opened with floor((cash0 / n) / price) shares. */
  function EqualWeightOpenAll(a: Account, ts: seq<Ticker>, prices: map<Ticker, int>, cash0: int, n: int, date: Date): Account
    requires n > 0 && PricedAll(prices, ts)
  {
    if ts == [] then a
    else
      var t := ts[|ts| - 1];
      EqualWeightOpenAll(a, ts[..|ts| - 1], prices, cash0, n, date).Open(date, t, prices[t], EqualWeightQuantity(cash0, n, prices[t]))
  }

  /** setup_equal_weight as a value: the day's ledger is reset and every
      configured ticker is opened with an equal share of the starting cash. */
  function EqualWeightSetup(a: Account, ts: seq<Ticker>, prices: map<Ticker, int>, date: Date): Account
    requires |ts| > 0 && PricedAll(prices, ts)
  {
    EqualWeightOpenAll(a.ResetDay(date), ts, prices, a.cash, |ts|, date)
  }

  /** The equal-weight loop spends SetupCost, enrols the new tickers and holds
      each ticker of `ts` at its equal-weight quantity. */
  lemma {:induction false} EqualWeightOpenAllFields(a: Account, ts: seq<Ticker>, prices: map<Ticker, int>, cash0: int, n: int, date: Date)
    requires n > 0 && PricedAll(prices, ts)
    ensures var r := EqualWeightOpenAll(a, ts, prices, cash0, n, date);
      && r.cash == a.cash - SetupCost(ts, prices, cash0, n)
      && r.order == Enrolled(a.order, ts)
      && r.positions == EqualWeightHoldings(a.positions, ts, prices, cash0, n, date)
  {
    if ts != [] {
      assert PricedAll(prices, ts[..|ts| - 1]);
      EqualWeightOpenAllFields(a, ts[..|ts| - 1], prices, cash0, n, date);
    }
  }

  /** Started from an empty day, the equal-weight loop leaves that day's
      ledger holding exactly the equal-weight trades. */
  lemma {:induction false} EqualWeightOpenAllTrades(a: Account, ts: seq<Ticker>, prices: map<Ticker, int>, cash0: int, n: int, date: Date)
    requires n > 0 && PricedAll(prices, ts)
    requires date in a.trades && a.trades[date] == map[]
    ensures EqualWeightOpenAll(a, ts, prices, cash0, n, date).trades == a.trades[date := EqualWeightTrades(ts, prices, cash0, n)]
  {
    if ts == [] {
      assert a.trades[date := map[]] == a.trades;
    } else {
      var init := ts[..|ts| - 1];
      var t := ts[|ts| - 1];
      assert PricedAll(prices, init);
      EqualWeightOpenAllTrades(a, init, prices, cash0, n, date);
      var e := EqualWeightTrades(init, prices, cash0, n);
      var tr := Trade(prices[t], EqualWeightQuantity(cash0, n, prices[t]));
      RecordOnDay(a.trades, date, e, t, tr);
      assert a.trades[date := e][date := e[t := tr]] == a.trades[date := e[t := tr]];
    }
  }

  /** With at most n tickers, each equal-weight purchase is covered by the
      cash left, so the books stay sound. */
  lemma {:induction false} EqualWeightOpenAllSound(a: Account, ts: seq<Ticker>, prices: map<Ticker, int>, n: int, date: Date)
    requires a.Sound() && n > 0 && |ts| <= n && PricedAll(prices, ts)
    ensures EqualWeightOpenAll(a, ts, prices, a.cash, n, date).Sound()
  {
    if ts != [] {
      var init := ts[..|ts| - 1];
      var t := ts[|ts| - 1];
      assert PricedAll(prices, init);
      EqualWeightOpenAllSound(a, init, prices, n, date);
      EqualWeightOpenAllFields(a, init, prices, a.cash, n, date);
      SetupCostWithinCash(ts, prices, a.cash, n);
      OpenKeepsBooks(EqualWeightOpenAll(a, init, prices, a.cash, n, date), date, t, prices[t], EqualWeightQuantity(a.cash, n, prices[t]));
    }
  }

  /** Opening distinct tickers that are not yet held only turns cash into
      positions: the total is unchanged. */
  lemma {:induction false} EqualWeightOpenAllTotal(a: Account, ts: seq<Ticker>, prices: map<Ticker, int>, n: int, date: Date)
    requires a.Sound() && n > 0 && |ts| <= n && PricedAll(prices, ts)
    requires Distinct(ts) && forall i :: 0 <= i < |ts| ==> ts[i] !in a.positions
    ensures EqualWeightOpenAll(a, ts, prices, a.cash, n, date).Total() == a.Total()
  {
    if ts != [] {
      var k := |ts| - 1;
      var init := ts[..k];
      var t := ts[k];
      assert PricedAll(prices, init);
      forall i, j | 0 <= i < j < k ensures Differ(init, i, j) {
        assert Differ(ts, i, j);
      }
      EqualWeightOpenAllTotal(a, init, prices, n, date);
      EqualWeightOpenAllSound(a, init, prices, n, date);
      EqualWeightOpenAllFields(a, init, prices, a.cash, n, date);
      EqualWeightHoldingsContents(a.positions, init, prices, a.cash, n, date);
      assert t !in init by {
        forall j | 0 <= j < k ensures init[j] != t {
          assert Differ(ts, j, k);
        }
      }
      EqualWeightOpenAllFields(a, init, prices, a.cash, n, date);
      SetupCostWithinCash(ts, prices, a.cash, n);
      OpenKeepsBooks(EqualWeightOpenAll(a, init, prices, a.cash, n, date), date, t, prices[t], EqualWeightQuantity(a.cash, n, prices[t]));
    }
  }

  /** What setup_equal_weight leaves: sound books, the equal-weight cost taken
      from the cash, every configured ticker held at its equal-weight quantity
      and the day's ledger holding exactly those trades. */
  lemma EqualWeightSetupSummary(a: Account, ts: seq<Ticker>, prices: map<Ticker, int>, date: Date)
    requires a.Sound() && |ts| > 0 && PricedAll(prices, ts)
    ensures EqualWeightSetup(a, ts, prices, date).Sound()
    ensures 0 <= EqualWeightSetup(a, ts, prices, date).cash == a.cash - SetupCost(ts, prices, a.cash, |ts|)
    ensures EqualWeightSetup(a, ts, prices, date).order == Enrolled(a.order, ts)
    ensures EqualWeightSetup(a, ts, prices, date).positions == EqualWeightHoldings(a.positions, ts, prices, a.cash, |ts|, date)
    ensures EqualWeightSetup(a, ts, prices, date).trades == a.trades[date := EqualWeightTrades(ts, prices, a.cash, |ts|)]
  {
    var a' := a.ResetDay(date);
    EqualWeightOpenAllFields(a', ts, prices, a.cash, |ts|, date);
    EqualWeightOpenAllTrades(a', ts, prices, a.cash, |ts|, date);
    EqualWeightOpenAllSound(a', ts, prices, |ts|, date);
    SetupCostWithinCash(ts, prices, a.cash, |ts|);
  }

  /** For distinct tickers not yet held, setup_equal_weight only turns cash
      into positions: the total value is what it was. */
  lemma EqualWeightSetupKeepsTotal(a: Account, ts: seq<Ticker>, prices: map<Ticker, int>, date: Date)
    requires a.Sound() && |ts| > 0 && PricedAll(prices, ts)
    requires Distinct(ts) && forall i :: 0 <= i < |ts| ==> ts[i] !in a.positions
    ensures EqualWeightSetup(a, ts, prices, date).Total() == a.Total()
  {
    EqualWeightOpenAllTotal(a.ResetDay(date), ts, prices, |ts|, date);
  }

  /** One more ticker of the equal-weight loop is one more opening. */
  lemma EqualWeightOpenAllStep(a: Account, ts: seq<Ticker>, i: int, prices: map<Ticker, int>, cash0: int, n: int, date: Date)
    requires n > 0 && PricedAll(prices, ts) && 0 <= i < |ts|
    ensures PricedAll(prices, ts[..i]) && PricedAll(prices, ts[..i + 1])
    ensures EqualWeightOpenAll(a, ts[..i + 1], prices, cash0, n, date)
      == EqualWeightOpenAll(a, ts[..i], prices, cash0, n, date).Open(date, ts[i], prices[ts[i]], EqualWeightQuantity(cash0, n, prices[ts[i]]))
  {
    assert ts[..i + 1][..i] == ts[..i];
  }

  // ---------------------------------------------------------------------------
  // The simulation as a value
  // ---------------------------------------------------------------------------

  /** Each simulated day has a positive close for every configured ticker,
      and each day after the first also for every ticker already held. */
  predicate SimulationPriced(held: set<Ticker>, tickers: seq<Ticker>, days: seq<Date>, closes: map<Date, map<Ticker, int>>) {
    forall i :: 0 <= i < |days| ==>
      && days[i] in closes
      && PricedAll(closes[days[i]], tickers)
      && (0 < i ==> forall t :: t in held ==> t in closes[days[i]] && closes[days[i]][t] > 0)
  }

  /** The books after simulating the first k days: the equal-weight opening on
      the first day, then re-marking at each later day's close. */
  function Simulated(a: Account, tickers: seq<Ticker>, days: seq<Date>, closes: map<Date, map<Ticker, int>>, k: nat): (r: Account)
    requires (days != [] ==> |tickers| > 0) && SimulationPriced(a.positions.Keys, tickers, days, closes) && k <= |days|
    ensures k > 0 ==> r.positions.Keys == a.positions.Keys + (set t | t in tickers)
  {
    if k == 0 then a
    else if k == 1 then
      var r := EqualWeightSetup(a, tickers, closes[days[0]], days[0]);
      EqualWeightOpenAllFields(a.ResetDay(days[0]), tickers, closes[days[0]], a.cash, |tickers|, days[0]);
      EqualWeightHoldingsContents(a.positions, tickers, closes[days[0]], a.cash, |tickers|, days[0]);
      r
    else
      Simulated(a, tickers, days, closes, k - 1).Reprice(closes[days[k - 1]])
  }

  /** Before day k the held tickers are those held at the start and the
      configured ones, so day k prices every one of them. */
  lemma SimulatedPriced(a: Account, tickers: seq<Ticker>, days: seq<Date>, closes: map<Date, map<Ticker, int>>, k: nat)
    requires |tickers| > 0 && SimulationPriced(a.positions.Keys, tickers, days, closes) && 0 < k < |days|
    ensures forall t :: t in Simulated(a, tickers, days, closes, k).positions ==> t in closes[days[k]] && closes[days[k]][t] > 0
  {
    forall t | t in Simulated(a, tickers, days, closes, k).positions
      ensures t in closes[days[k]] && closes[days[k]][t] > 0
    {
      if t !in a.positions {
        var i :| 0 <= i < |tickers| && tickers[i] == t;
      }
    }
  }

  /** The simulation trades only on its first day: afterwards the books are
      the first day's equal-weight opening re-marked at the latest day's close. */
  lemma {:induction false} SimulatedSummary(a: Account, tickers: seq<Ticker>, days: seq<Date>, closes: map<Date, map<Ticker, int>>, k: nat)
    requires |tickers| > 0 && SimulationPriced(a.positions.Keys, tickers, days, closes) && 1 < k <= |days|
    ensures var first := EqualWeightSetup(a, tickers, closes[days[0]], days[0]);
      && (forall t :: t in first.positions ==> t in closes[days[k - 1]])
      && Simulated(a, tickers, days, closes, k) == first.Reprice(closes[days[k - 1]])
  {
    var first := EqualWeightSetup(a, tickers, closes[days[0]], days[0]);
    assert Simulated(a, tickers, days, closes, 1) == first;
    if k > 2 {
      SimulatedSummary(a, tickers, days, closes, k - 1);
      RepricedTwice(first.positions, closes[days[k - 2]], closes[days[k - 1]]);
    }
  }

  /** Simulating keeps sound books sound. */
  lemma {:induction false} SimulatedSound(a: Account, tickers: seq<Ticker>, days: seq<Date>, closes: map<Date, map<Ticker, int>>, k: nat)
    requires a.Sound() && (days != [] ==> |tickers| > 0) && SimulationPriced(a.positions.Keys, tickers, days, closes) && k <= |days|
    ensures Simulated(a, tickers, days, closes, k).Sound()
  {
    if k == 1 {
      EqualWeightSetupSummary(a, tickers, closes[days[0]], days[0]);
    } else if k > 1 {
      SimulatedSound(a, tickers, days, closes, k - 1);
      RepriceKeepsBooks(Simulated(a, tickers, days, closes, k - 1), closes[days[k - 1]]);
    }
  }

  /** The total of the books at the end of each of the first k simulated days. */
  function SimulatedWorths(a: Account, tickers: seq<Ticker>, days: seq<Date>, closes: map<Date, map<Ticker, int>>, k: nat): (r: seq<int>)
    requires (days != [] ==> |tickers| > 0) && SimulationPriced(a.positions.Keys, tickers, days, closes) && k <= |days|
    ensures |r| == k
  {
    if k == 0 then []
    else SimulatedWorths(a, tickers, days, closes, k - 1) + [Simulated(a, tickers, days, closes, k).Total()]
  }

  /** Entry j of the worths is the total after simulating j + 1 days. */
  lemma {:induction false} SimulatedWorthsContents(a: Account, tickers: seq<Ticker>, days: seq<Date>, closes: map<Date, map<Ticker, int>>, k: nat)
    requires (days != [] ==> |tickers| > 0) && SimulationPriced(a.positions.Keys, tickers, days, closes) && k <= |days|
    ensures forall j :: 0 <= j < k ==>
      SimulatedWorths(a, tickers, days, closes, k)[j] == Simulated(a, tickers, days, closes, j + 1).Total()
  {
    if k > 0 {
      SimulatedWorthsContents(a, tickers, days, closes, k - 1);
    }
  }

  /** worth_history after saving ws[i] under ds[i] for each i in turn. */
  function Recorded(h: map<Date, int>, ds: seq<Date>, ws: seq<int>): map<Date, int>
    requires |ds| == |ws|
  {
    if ds == [] then h
    else Recorded(h, ds[..|ds| - 1], ws[..|ws| - 1])[ds[|ds| - 1] := ws[|ws| - 1]]
  }

  /** The next simulated day: the equal-weight opening on the first day, a
      re-marking at the day's close on every later one. */
  lemma SimulatedNext(a: Account, tickers: seq<Ticker>, days: seq<Date>, closes: map<Date, map<Ticker, int>>, k: nat)
    requires |tickers| > 0 && SimulationPriced(a.positions.Keys, tickers, days, closes) && k < |days|
    ensures k == 0 ==> Simulated(a, tickers, days, closes, k + 1) == EqualWeightSetup(a, tickers, closes[days[0]], days[0])
    ensures k > 0 ==> Simulated(a, tickers, days, closes, k + 1) == Simulated(a, tickers, days, closes, k).Reprice(closes[days[k]])
  {
  }

  /** One more simulated day records that day's total under its date. */
  lemma RecordedStep(h: map<Date, int>, a: Account, tickers: seq<Ticker>, days: seq<Date>, closes: map<Date, map<Ticker, int>>, k: nat)
    requires |tickers| > 0 && SimulationPriced(a.positions.Keys, tickers, days, closes) && k < |days|
    ensures Recorded(h, days[..k + 1], SimulatedWorths(a, tickers, days, closes, k + 1))
      == Recorded(h, days[..k], SimulatedWorths(a, tickers, days, closes, k))[days[k] := Simulated(a, tickers, days, closes, k + 1).Total()]
  {
    var ws := SimulatedWorths(a, tickers, days, closes, k);
    var w := Simulated(a, tickers, days, closes, k + 1).Total();
    assert days[..k + 1] == days[..k] + [days[k]];
    RecordedAppend(h, days[..k], ws, days[k], w);
  }

  /** Saving one more worth extends the history by that entry. */
  lemma RecordedAppend(h: map<Date, int>, ds: seq<Date>, ws: seq<int>, d: Date, w: int)
    requires |ds| == |ws|
    ensures Recorded(h, ds + [d], ws + [w]) == Recorded(h, ds, ws)[d := w]
  {
    assert (ds + [d])[..|ds|] == ds;
    assert (ws + [w])[..|ws|] == ws;
  }

  /** The history holds the earlier dates and the recorded ones; a date
      recorded last at position j holds ws[j], and a date not recorded keeps
      its earlier worth. */
  lemma {:induction false} RecordedContents(h: map<Date, int>, ds: seq<Date>, ws: seq<int>)
    requires |ds| == |ws|
    ensures forall d :: d in Recorded(h, ds, ws) <==> d in h || d in ds
    ensures forall d :: d in h && d !in ds ==> Recorded(h, ds, ws)[d] == h[d]
    ensures forall j :: 0 <= j < |ds| && ds[j] !in ds[j + 1..] ==> Recorded(h, ds, ws)[ds[j]] == ws[j]
  {
    if ds != [] {
      var n := |ds| - 1;
      RecordedContents(h, ds[..n], ws[..n]);
      assert ds == ds[..n] + [ds[n]];
      forall j | 0 <= j < |ds| && ds[j] !in ds[j + 1..]
        ensures Recorded(h, ds, ws)[ds[j]] == ws[j]
      {
        if j < n {
          assert ds[j + 1..] == ds[..n][j + 1..] + [ds[n]];
        }
      }
    }
  }

  /** The worth history a simulation leaves: every simulated day is saved,
      each under the total of the books after that day (the last visit wins
      for a repeated date), and earlier entries of other dates are kept. */
  lemma SimulatedHistory(h: map<Date, int>, a: Account, tickers: seq<Ticker>, days: seq<Date>, closes: map<Date, map<Ticker, int>>)
    requires (days != [] ==> |tickers| > 0) && SimulationPriced(a.positions.Keys, tickers, days, closes)
    ensures var r := Recorded(h, days, SimulatedWorths(a, tickers, days, closes, |days|));
      && (forall d :: d in r <==> d in h || d in days)
      && (forall d :: d in h && d !in days ==> r[d] == h[d])
      && (forall j :: 0 <= j < |days| && days[j] !in days[j + 1..] ==>
            r[days[j]] == Simulated(a, tickers, days, closes, j + 1).Total())
  {
    RecordedContents(h, days, SimulatedWorths(a, tickers, days, closes, |days|));
    SimulatedWorthsContents(a, tickers, days, closes, |days|);
  }

  // ---------------------------------------------------------------------------
  // The portfolio object
  // ---------------------------------------------------------------------------
  /** The number of shares that the cash left after opening ts[..i] still
      pays for at the next ticker's equal-weight quantity. */
  lemma EqualWeightAffords(a: Account, ts: seq<Ticker>, i: int, prices: map<Ticker, int>, n: int, date: Date)
    requires a.cash >= 0 && n > 0 && |ts| <= n && PricedAll(prices, ts) && 0 <= i < |ts|
    ensures PricedAll(prices, ts[..i])
    ensures prices[ts[i]] * EqualWeightQuantity(a.cash, n, prices[ts[i]]) <= EqualWeightOpenAll(a, ts[..i], prices, a.cash, n, date).cash
  {
    var q := EqualWeightQuantity(a.cash, n, prices[ts[i]]);
    EqualWeightOpenAllStep(a, ts, i, prices, a.cash, n, date);
    EqualWeightOpenAllFields(a, ts[..i + 1], prices, a.cash, n, date);
    SetupCostWithinCash(ts[..i + 1], prices, a.cash, n);
  }

  class Portfolio {
    /** The configured tickers. */
    const stockTickers: seq<Ticker>
    /** The price history: its date index in order, and the closing price in
        cents of each ticker on each date. */
    const days: seq<Date>
    const closes: map<Date, map<Ticker, int>>

    var cash: int
    var worth: int
    /** worth_history[date] = {'worth': worth}; the one-entry record is kept as its value. */
    var worthHistory: map<Date, int>
    var trades: map<Date, map<Ticker, Trade>>
    /** The held stocks, as the state of each Stock object. */
    var positions: map<Ticker, StockState>
    /** The insertion order of `positions`, in which the source iterates it. */
    var order: seq<Ticker>
    var date: Date

    /** The fields that trading changes, as one value. */
    function Books(): Account
      reads this`cash, this`order, this`positions, this`trades
    {
      Account(cash, order, positions, trades)
    }

    /** The object invariant: the books are sound and worth is not negative. */
    ghost predicate Valid()
      reads this`cash, this`order, this`positions, this`trades, this`worth
    {
      Books().Sound() && worth >= 0
    }

    /** Cash plus the market value of every position. */
    function Total(): int
      reads this`cash, this`order, this`positions, this`trades
    {
      Books().Total()
    }

    /** Whether the current date has a positive close for each of `ts`. */
    predicate PricedToday(ts: set<Ticker>)
      reads this`date
    {
      date in closes && forall t :: t in ts ==> t in closes[date] && closes[date][t] > 0
    }

    constructor (stockTickers: seq<Ticker>, days: seq<Date>, closes: map<Date, map<Ticker, int>>, cash: int := INITIAL_CASH)
      requires cash >= 0
      ensures this.stockTickers == stockTickers && this.days == days && this.closes == closes
      ensures Books() == Account(cash, [], map[], map[])
      ensures worth == 0 && worthHistory == map[] && date == ""
      ensures Valid()
    {
      this.stockTickers := stockTickers;
      this.days := days;
      this.closes := closes;
      this.cash := cash;
      worth := 0;
      worthHistory := map[];
      trades := map[];
      positions := map[];
      order := [];
      date := "";
    }

    /** worth = round(cash + sum of positions, 2), saved under the current date. */
    method UpdateWorth()
      requires Valid()
      modifies this`worth, this`worthHistory
      ensures worth == Total()
      ensures worthHistory == old(worthHistory)[date := worth]
      ensures Valid()
    {
      var sum := 0;
      var i := 0;
      while i < |order|
        invariant 0 <= i <= |order|
        invariant sum == Invested(order[..i], positions)
      {
        assert order[..i + 1][..i] == order[..i];
        sum := sum + positions[order[i]].position;
        i := i + 1;
      }
      assert order[..|order|] == order;
      worth := sum + cash;
      worthHistory := worthHistory[date := worth];
      SoundBooksInvestedNonNegative(cash, order, positions);
    }

    /** The loop of update_prices: each position, in insertion order, takes
        its price from `prices`. */
    method RepriceAll(prices: map<Ticker, int>)
      requires forall t :: t in positions ==> t in prices
      requires forall i :: 0 <= i < |order| ==> order[i] in positions
      requires forall t :: t in positions ==> t in order
      modifies this`positions
      ensures positions == Repriced(old(positions), prices)
    {
      ghost var p0 := positions;
      var i := 0;
      while i < |order|
        invariant 0 <= i <= |order|
        invariant positions.Keys == p0.Keys
        invariant forall t :: t in positions ==>
          positions[t] == if t in order[..i] then p0[t].WithPrice(prices[t]) else p0[t]
      {
        var t := order[i];
        positions := positions[t := positions[t].WithPrice(prices[t])];
        assert order[..i + 1] == order[..i] + [t];
        i := i + 1;
      }
      assert order[..|order|] == order;
    }

    /** update_prices: every position takes the current date's close, then
        worth is recomputed. */
    method UpdatePrices()
      requires Valid()
      requires PricedToday(positions.Keys)
      modifies this`positions, this`worth, this`worthHistory
      ensures Books() == old(Books()).Reprice(closes[date])
      ensures worth == Total()
      ensures worthHistory == old(worthHistory)[date := worth]
      ensures Valid()
    {
      RepricedBooks(cash, order, positions, closes[date]);
      RepriceAll(closes[date]);
      UpdateWorth();
    }

    /** The step each opening strategy takes per ticker: a new Stock of
        `quantity` shares at `price` replaces any held one, its cost leaves the
        cash, and the trade is saved in its log and in the ledger. */
    method Open(ticker: Ticker, price: int, quantity: int)
      requires Valid()
      requires price > 0 && quantity >= 0 && price * quantity <= cash
      modifies this`cash, this`trades, this`positions, this`order
      ensures Books() == old(Books()).Open(date, ticker, price, quantity)
      ensures Valid()
    {
      ghost var a := Books();
      var stock := Opening(date, ticker, price, quantity);
      if ticker !in order {
        order := order + [ticker];
      }
      positions := positions[ticker := stock];
      cash := cash - stock.position;
      trades := Record(trades, date, ticker, Trade(stock.price, stock.quantity));
      assert Books() == a.Open(date, ticker, price, quantity);
      OpenKeepsBooks(a, date, ticker, price, quantity);
    }

    /** setup_best_stock: the day's ledger entry is reset, then all the cash
        that buys whole shares goes into `ticker`, and worth is recomputed. */
    method SetupBestStock(ticker: Ticker := BEST_STOCK)
      requires Valid()
      requires PricedToday({ticker})
      modifies this`cash, this`trades, this`positions, this`order, this`worth, this`worthHistory
      ensures Books() == SingleSetup(old(Books()), date, ticker, closes[date][ticker])
      ensures worth == Total()
      ensures worthHistory == old(worthHistory)[date := worth]
      ensures Valid()
    {
      var price := closes[date][ticker];
      AffordableIsFloor(cash, price);
      trades := trades[date := map[]];
      Open(ticker, price, Affordable(cash, price));
      UpdateWorth();
    }

    /** setup_market: the same steps as setup_best_stock, for the market index. */
    method SetupMarket(ticker: Ticker := MARKET_INDEX)
      requires Valid()
      requires PricedToday({ticker})
      modifies this`cash, this`trades, this`positions, this`order, this`worth, this`worthHistory
      ensures Books() == SingleSetup(old(Books()), date, ticker, closes[date][ticker])
      ensures worth == Total()
      ensures worthHistory == old(worthHistory)[date := worth]
      ensures Valid()
    {
      SetupBestStock(ticker);
    }

    /** The loop of setup_equal_weight: each configured ticker, in order, is
        opened with floor((cash0 / n) / price) shares. */
    method OpenEqualWeight(cash0: int)
      requires Valid()
      requires |stockTickers| > 0 && date in closes && PricedAll(closes[date], stockTickers)
      requires cash0 == cash
      modifies this`cash, this`trades, this`positions, this`order
      ensures Books() == EqualWeightOpenAll(old(Books()), stockTickers, closes[date], cash0, |stockTickers|, date)
      ensures Valid()
    {
      var n := |stockTickers|;
      var prices := closes[date];
      ghost var a0 := Books();
      var i := 0;
      while i < n
        invariant 0 <= i <= n && PricedAll(prices, stockTickers[..i])
        invariant Valid()
        invariant Books() == EqualWeightOpenAll(a0, stockTickers[..i], prices, cash0, n, date)
      {
        var ticker := stockTickers[i];
        var price := prices[ticker];
        var quantity := EqualWeightQuantity(cash0, n, price);
        EqualWeightAffords(a0, stockTickers, i, prices, n, date);
        EqualWeightOpenAllStep(a0, stockTickers, i, prices, cash0, n, date);
        MulMonotone(price, 0, quantity);
        Open(ticker, price, quantity);
        i := i + 1;
      }
      assert stockTickers[..n] == stockTickers;
    }

    /** setup_equal_weight: the day's ledger entry is reset, every configured
        ticker is opened with an equal share of the starting cash, and worth is
        recomputed. */
    method SetupEqualWeight()
      requires Valid()
      requires |stockTickers| > 0 && date in closes && PricedAll(closes[date], stockTickers)
      modifies this`cash, this`trades, this`positions, this`order, this`worth, this`worthHistory
      ensures Books() == EqualWeightSetup(old(Books()), stockTickers, closes[date], date)
      ensures worth == Total()
      ensures worthHistory == old(worthHistory)[date := worth]
      ensures Valid()
    {
      var initialCash := cash;
      trades := trades[date := map[]];
      OpenEqualWeight(initialCash);
      UpdateWorth();
    }

    /** buy_stock on a held position: once cash covers one share, buys as many
        shares as cash pays for, cut back to the 50% ceiling of the last
        recorded worth. */
    method BuyStock(ticker: Ticker)
      requires Valid()
      requires ticker in positions
      modifies this`cash, this`trades, this`positions
      ensures Books() == old(Books()).Buy(date, ticker, worth)
      ensures Valid()
    {
      ghost var a := Books();
      var stock := positions[ticker];
      if cash >= stock.price {
        var max := MaxQuantity(worth, stock.price);
        var bought := Affordable(cash, stock.price);
        var total;
        if bought + stock.quantity > max {
          bought := max - stock.quantity;
          total := bought + stock.quantity;
        } else {
          total := bought + stock.quantity;
        }
        positions := positions[ticker := Traded(stock, date, total, bought)];
        cash := cash - stock.price * bought;
        trades := Record(trades, date, ticker, Trade(stock.price, bought));
      }
      assert Books() == a.Buy(date, ticker, worth);
      BuyKeepsBooks(a, date, ticker, worth);
    }

    /** sell_stock on a held position: a holding above the 5% floor of the last
        recorded worth is trimmed down to it. */
    method SellStock(ticker: Ticker)
      requires Valid()
      requires ticker in positions
      modifies this`cash, this`trades, this`positions
      ensures Books() == old(Books()).Sell(date, ticker, worth)
      ensures Valid()
    {
      ghost var a := Books();
      SellKeepsBooks(a, date, ticker, worth);
      var stock := positions[ticker];
      var target := TargetQuantity(worth, stock.price);
      if target >= stock.quantity {
        return;
      }
      var sold := stock.quantity - target;
      positions := positions[ticker := Traded(stock, date, target, -sold)];
      cash := cash + stock.price * sold;
      trades := Record(trades, date, ticker, Trade(stock.price, -sold));
      assert Books() == a.Sell(date, ticker, worth);
    }

    /** One pass of the loop of simulation: the date moves to days[idx]; on
        the first day the portfolio is opened with equal weights, on a later
        day it is re-marked at that day's close; worth is then recomputed. */
    method SimulateDay(idx: nat)
      requires Valid()
      requires idx < |days| && days[idx] in closes
      requires idx == 0 ==> |stockTickers| > 0 && PricedAll(closes[days[idx]], stockTickers)
      requires idx > 0 ==> forall t :: t in positions ==> t in closes[days[idx]] && closes[days[idx]][t] > 0
      modifies this`cash, this`trades, this`positions, this`order, this`worth, this`worthHistory, this`date
      ensures date == days[idx] && worth == Total()
      ensures idx == 0 ==> Books() == EqualWeightSetup(old(Books()), stockTickers, closes[date], date)
      ensures idx > 0 ==> Books() == old(Books()).Reprice(closes[date])
      ensures worthHistory == old(worthHistory)[date := worth]
      ensures Valid()
    {
      ghost var history := worthHistory;
      date := days[idx];
      if idx == 0 {
        SetupEqualWeight();
      } else {
        UpdatePrices();
      }
      ghost var books, saved := Books(), worthHistory;
      UpdateWorth();
      assert Books() == books;
      assert saved == history[date := saved[date]];
      assert worthHistory == history[date := worth];
    }

    /** One turn of the simulation loop: day idx is simulated and its worth
        saved, which extends the simulated books by a day and saves their
        total under that day. */
    method SimulateStep(idx: nat, ghost start: Account)
      requires Valid()
      requires |stockTickers| > 0 && SimulationPriced(start.positions.Keys, stockTickers, days, closes) && idx < |days|
      requires Books() == Simulated(start, stockTickers, days, closes, idx)
      modifies this`cash, this`trades, this`positions, this`order, this`worth, this`worthHistory, this`date
      ensures Books() == Simulated(start, stockTickers, days, closes, idx + 1)
      ensures worthHistory == old(worthHistory)[days[idx] := Simulated(start, stockTickers, days, closes, idx + 1).Total()]
      ensures date == days[idx] && worth == Total()
      ensures Valid()
    {
      if idx > 0 {
        SimulatedPriced(start, stockTickers, days, closes, idx);
      }
      SimulatedNext(start, stockTickers, days, closes, idx);
      SimulateDay(idx);
    }

    /** simulation: on the first day of the price history the portfolio is
        opened with equal weights; on every later day it is re-marked at that
        day's close. Worth is saved for every day. */
    method Simulation()
      requires Valid()
      requires (days != [] ==> |stockTickers| > 0) && SimulationPriced(positions.Keys, stockTickers, days, closes)
      modifies this`cash, this`trades, this`positions, this`order, this`worth, this`worthHistory, this`date
      ensures Books() == Simulated(old(Books()), stockTickers, days, closes, |days|)
      ensures worthHistory == Recorded(old(worthHistory), days, SimulatedWorths(old(Books()), stockTickers, days, closes, |days|))
      ensures forall d :: d in worthHistory <==> d in old(worthHistory) || d in days
      ensures days != [] ==> date == days[|days| - 1] && worth == Total()
      ensures days == [] ==> date == old(date) && worth == old(worth)
      ensures Valid()
    {
      if days == [] {
        // range(0): the loop body never runs and nothing changes
        return;
      }
      SimulateDays();
    }

    /** The loop of simulation over a non-empty price history. */
    method SimulateDays()
      requires Valid()
      requires days != [] && |stockTickers| > 0 && SimulationPriced(positions.Keys, stockTickers, days, closes)
      modifies this`cash, this`trades, this`positions, this`order, this`worth, this`worthHistory, this`date
      ensures Books() == Simulated(old(Books()), stockTickers, days, closes, |days|)
      ensures worthHistory == Recorded(old(worthHistory), days, SimulatedWorths(old(Books()), stockTickers, days, closes, |days|))
      ensures forall d :: d in worthHistory <==> d in old(worthHistory) || d in days
      ensures date == days[|days| - 1] && worth == Total()
      ensures Valid()
    {
      ghost var start, history := Books(), worthHistory;
      var idx := 0;
      while idx < |days|
        invariant 0 <= idx <= |days|
        invariant Books() == Simulated(start, stockTickers, days, closes, idx)
        invariant worthHistory == Recorded(history, days[..idx], SimulatedWorths(start, stockTickers, days, closes, idx))
        invariant idx > 0 ==> date == days[idx - 1] && worth == Total()
        invariant Valid()
      {
        RecordedStep(history, start, stockTickers, days, closes, idx);
        SimulateStep(idx, start);
        idx := idx + 1;
      }
      assert days[..|days|] == days;
      RecordedContents(history, days, SimulatedWorths(start, stockTickers, days, closes, |days|));
    }
  }
}