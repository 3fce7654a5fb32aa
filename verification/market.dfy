/** Live quotes and portfolio valuation (`RealTimeMarketData`). The quote
    provider is a parameter: for each ticker it either raises (`None`) or
    hands back the last one-minute bar of the day, if any, together with
    the ticker's `previousClose` and `longName` when it has them. */
module MarketData {
  import opened Basics
  import opened Records

  /** The last bar of the day's one-minute history. */
  datatype Bar = Bar(close: real, volume: real)

  /** One provider lookup; `lastBar` is `None` when the history is empty. */
  datatype TickerData = TickerData(lastBar: Option<Bar>, previousClose: Option<real>, longName: Option<string>)

  /** The quote provider; `None` is a lookup that raised. */
  type Provider = string -> Option<TickerData>

  datatype Quote = Quote(price: real, change: real, changePct: real, volume: real, timestamp: int, name: string)

  /** The stand-in quote for a symbol whose lookup failed or had no history. */
  function ZeroQuote(symbol: string, now: int): Quote {
    Quote(0.0, 0.0, 0.0, 0.0, now, symbol)
  }

  /** A quote built from a bar. The change is measured against the previous
      close, which defaults to the bar's own close; the change percentage is
      relative to a positive previous close and 0 otherwise. */
  function LiveQuote(bar: Bar, previousClose: Option<real>, longName: Option<string>, symbol: string, now: int): (q: Quote)
    ensures q.price == bar.close && q.volume == bar.volume && q.timestamp == now
    ensures q.name == (if longName.Some? then longName.value else symbol)
    ensures previousClose.None? ==> q.change == 0.0 && q.changePct == 0.0
    ensures previousClose.Some? ==> q.change == bar.close - previousClose.value
    ensures previousClose.Some? && previousClose.value > 0.0 ==> q.changePct * previousClose.value == q.change * 100.0
    ensures previousClose.Some? && previousClose.value <= 0.0 ==> q.changePct == 0.0
  {
    var prev := previousClose.GetOr(bar.close);
    var change := bar.close - prev;
    var changePct := if prev > 0.0 then change / prev * 100.0 else 0.0;
    Quote(bar.close, change, changePct, bar.volume, now, longName.GetOr(symbol))
  }

  /** The entry `get_current_prices` records for one symbol. */
  function SymbolQuote(fetched: Option<TickerData>, symbol: string, now: int): (q: Quote)
    ensures fetched.None? ==> q == ZeroQuote(symbol, now)
    ensures fetched.Some? && fetched.value.lastBar.None? ==> q == ZeroQuote(symbol, now)
    ensures fetched.Some? && fetched.value.lastBar.Some? ==> q.price == fetched.value.lastBar.value.close
    ensures fetched.Some? && fetched.value.lastBar.Some? ==>
      q == LiveQuote(fetched.value.lastBar.value, fetched.value.previousClose, fetched.value.longName, symbol, now)
  {
    match fetched
    case None => ZeroQuote(symbol, now)
    case Some(d) =>
      match d.lastBar
      case None => ZeroQuote(symbol, now)
      case Some(bar) => LiveQuote(bar, d.previousClose, d.longName, symbol, now)
  }

  /** `get_current_prices`: one entry for every requested symbol and no
      other, each depending only on that symbol's own lookup, so one
      symbol's failure never affects another's entry. */
  function GetCurrentPrices(provider: Provider, symbols: seq<string>, now: int): (r: map<string, Quote>)
    ensures r.Keys == set s | s in symbols
    ensures forall s :: s in r ==> r[s] == SymbolQuote(provider(s), s, now)
  {
    if symbols == [] then map[]
    else
      var last := symbols[|symbols| - 1];
      var rest := GetCurrentPrices(provider, symbols[..|symbols| - 1], now);
      assert forall s :: s in symbols <==> s in symbols[..|symbols| - 1] || s == last;
      rest[last := SymbolQuote(provider(last), last, now)]
  }

  /** A failed lookup yields the zero quote for that symbol, whatever the
      provider does for the others. */
  lemma FailedLookupIsZero(provider: Provider, symbols: seq<string>, s: string, now: int)
    requires s in symbols
    requires provider(s).None? || provider(s).value.lastBar.None?
    ensures GetCurrentPrices(provider, symbols, now)[s] == ZeroQuote(s, now)
  {
  }

  /** Two providers that agree on a symbol produce the same entry for it. */
  lemma QuoteIsolation(p1: Provider, p2: Provider, symbols1: seq<string>, symbols2: seq<string>, s: string, now: int)
    requires s in symbols1 && s in symbols2 && p1(s) == p2(s)
    ensures GetCurrentPrices(p1, symbols1, now)[s] == GetCurrentPrices(p2, symbols2, now)[s]
  {
  }

  /** One row of the valuation. */
  datatype Position = Position(
    symbol: string, name: string, shares: real, avgCost: real, currentPrice: real,
    positionValue: real, positionCost: real, positionGain: real,
    gainPct: real, changePct: real, lastUpdate: int)

  /** The valuation snapshot. An empty portfolio's snapshot carries no
      gain percentage and no update time. */
  datatype Valuation = Valuation(
    totalValue: real, totalCost: real, totalGain: real, totalGainPct: Option<real>,
    positions: seq<Position>, lastUpdate: Option<int>)

  /** A gain as a percentage of a cost, 0 when the cost is not positive. */
  function GainPercent(gain: real, cost: real): (pct: real)
    ensures cost > 0.0 ==> pct * cost == gain * 100.0
    ensures cost <= 0.0 ==> pct == 0.0
  {
    if cost > 0.0 then gain / cost * 100.0 else 0.0
  }

  /** One holding priced against the quote map. A symbol without an entry
      is priced at 0, named after itself, and stamped `now`. */
  function PositionOf(h: Holding, prices: map<string, Quote>, now: int): (p: Position)
    ensures p.symbol == h.symbol && p.shares == h.shares && p.avgCost == h.avgCost
    ensures h.symbol in prices ==> p.currentPrice == prices[h.symbol].price && p.name == prices[h.symbol].name
    ensures h.symbol in prices ==> p.changePct == prices[h.symbol].changePct && p.lastUpdate == prices[h.symbol].timestamp
    ensures h.symbol !in prices ==> p.currentPrice == 0.0 && p.name == h.symbol && p.changePct == 0.0 && p.lastUpdate == now
    ensures p.positionValue == h.shares * p.currentPrice
    ensures p.positionCost == h.shares * h.avgCost
    ensures p.positionGain == p.positionValue - p.positionCost
    ensures p.gainPct == GainPercent(p.positionGain, p.positionCost)
  {
    var price := if h.symbol in prices then prices[h.symbol].price else 0.0;
    var value := h.shares * price;
    var cost := h.shares * h.avgCost;
    var gain := value - cost;
    if h.symbol in prices then
      var q := prices[h.symbol];
      Position(h.symbol, q.name, h.shares, h.avgCost, price, value, cost, gain, GainPercent(gain, cost), q.changePct, q.timestamp)
    else
      Position(h.symbol, h.symbol, h.shares, h.avgCost, price, value, cost, gain, GainPercent(gain, cost), 0.0, now)
  }

  /** Positions in holding order, one per holding, repeated symbols included. */
  function Positions(holdings: seq<Holding>, prices: map<string, Quote>, now: int): (ps: seq<Position>)
    ensures |ps| == |holdings|
    ensures forall i :: 0 <= i < |holdings| ==> ps[i] == PositionOf(holdings[i], prices, now)
  {
    Map(Pricer(prices, now), holdings)
  }

  /** The pricing of one holding as a function value. */
  function Pricer(prices: map<string, Quote>, now: int): Holding -> Position {
    h => PositionOf(h, prices, now)
  }

  /** Running totals, accumulated in position order. */
  function TotalValue(ps: seq<Position>): real {
    if ps == [] then 0.0 else TotalValue(ps[..|ps| - 1]) + ps[|ps| - 1].positionValue
  }

  function TotalCost(ps: seq<Position>): real {
    if ps == [] then 0.0 else TotalCost(ps[..|ps| - 1]) + ps[|ps| - 1].positionCost
  }

  function TotalGain(ps: seq<Position>): real {
    if ps == [] then 0.0 else TotalGain(ps[..|ps| - 1]) + ps[|ps| - 1].positionGain
  }

  /** `calculate_portfolio_value` against an already fetched quote map. */
  function CalculatePortfolioValue(holdings: seq<Holding>, prices: map<string, Quote>, now: int): (v: Valuation)
    ensures holdings == [] ==> v == Valuation(0.0, 0.0, 0.0, None, [], None)
    ensures |v.positions| == |holdings|
    ensures forall i :: 0 <= i < |holdings| ==> v.positions[i] == PositionOf(holdings[i], prices, now)
    ensures v.totalValue == TotalValue(v.positions) && v.totalCost == TotalCost(v.positions)
    ensures v.totalGain == v.totalValue - v.totalCost
    ensures holdings != [] ==> v.totalGainPct == Some(GainPercent(v.totalGain, v.totalCost)) && v.lastUpdate == Some(now)
  {
    if holdings == [] then Valuation(0.0, 0.0, 0.0, None, [], None)
    else
      var ps := Positions(holdings, prices, now);
      var value := TotalValue(ps);
      var cost := TotalCost(ps);
      Valuation(value, cost, value - cost, Some(GainPercent(value - cost, cost)), ps, Some(now))
  }

  function SymbolList(holdings: seq<Holding>): (s: seq<string>)
    ensures |s| == |holdings| && forall i :: 0 <= i < |holdings| ==> s[i] == holdings[i].symbol
  {
    seq(|holdings|, i requires 0 <= i < |holdings| => holdings[i].symbol)
  }

  /** The whole valuation: fetch one quote per distinct symbol, then price
      every holding. */
  function PortfolioValue(holdings: seq<Holding>, provider: Provider, now: int): Valuation {
    if holdings == [] then CalculatePortfolioValue(holdings, map[], now)
    else CalculatePortfolioValue(holdings, GetCurrentPrices(provider, SymbolList(holdings), now), now)
  }

  /** In the full valuation every holding is priced from its own lookup. */
  lemma PortfolioUsesOwnQuotes(holdings: seq<Holding>, provider: Provider, now: int, i: int)
    requires 0 <= i < |holdings|
    ensures PortfolioValue(holdings, provider, now).positions[i].currentPrice
         == SymbolQuote(provider(holdings[i].symbol), holdings[i].symbol, now).price
  {
    var syms := SymbolList(holdings);
    assert syms[i] == holdings[i].symbol;
    assert holdings[i].symbol in GetCurrentPrices(provider, syms, now);
  }

  /** The total gain is the sum of the position gains. */
  lemma {:induction false} TotalGainIsSumOfGains(ps: seq<Position>)
    requires forall i :: 0 <= i < |ps| ==> ps[i].positionGain == ps[i].positionValue - ps[i].positionCost
    ensures TotalGain(ps) == TotalValue(ps) - TotalCost(ps)
  {
    if ps != [] {
      TotalGainIsSumOfGains(ps[..|ps| - 1]);
    }
  }

  lemma ValuationGainIsSumOfGains(holdings: seq<Holding>, prices: map<string, Quote>, now: int)
    ensures var v := CalculatePortfolioValue(holdings, prices, now);
      v.totalGain == TotalGain(v.positions)
  {
    var v := CalculatePortfolioValue(holdings, prices, now);
    TotalGainIsSumOfGains(v.positions);
  }

  /** Totals split over a concatenation of portfolios. */
  lemma {:induction false} TotalValueAppend(a: seq<Position>, b: seq<Position>)
    ensures TotalValue(a + b) == TotalValue(a) + TotalValue(b)
    ensures TotalCost(a + b) == TotalCost(a) + TotalCost(b)
    decreases |b|
  {
    if b == [] {
      assert a + b == a;
    } else {
      var b' := b[..|b| - 1];
      assert (a + b)[..|a + b| - 1] == a + b';
      TotalValueAppend(a, b');
    }
  }

  /** Splitting a portfolio in two splits its value and cost the same way. */
  lemma ValuationAdditive(h1: seq<Holding>, h2: seq<Holding>, prices: map<string, Quote>, now: int)
    ensures CalculatePortfolioValue(h1 + h2, prices, now).totalValue
         == CalculatePortfolioValue(h1, prices, now).totalValue + CalculatePortfolioValue(h2, prices, now).totalValue
    ensures CalculatePortfolioValue(h1 + h2, prices, now).totalCost
         == CalculatePortfolioValue(h1, prices, now).totalCost + CalculatePortfolioValue(h2, prices, now).totalCost
  {
    if h1 == [] {
      assert h1 + h2 == h2;
    } else if h2 == [] {
      assert h1 + h2 == h1;
    } else {
      var p1, p2 := Positions(h1, prices, now), Positions(h2, prices, now);
      MapAppend(Pricer(prices, now), h1, h2);
      TotalValueAppend(p1, p2);
    }
  }

  /** Ten shares bought at 5 and quoted at 8: worth 80, cost 50, gain 30, up 60%. */
  lemma TenSharesExample(now: int, q: Quote)
    requires q.price == 8.0
    ensures var v := CalculatePortfolioValue([Holding("VTI", "", 10.0, 5.0, 0)], map["VTI" := q], now);
      && v.positions[0].positionValue == 80.0 && v.positions[0].positionCost == 50.0
      && v.positions[0].positionGain == 30.0 && v.positions[0].gainPct == 60.0
      && v.totalValue == 80.0 && v.totalCost == 50.0 && v.totalGain == 30.0 && v.totalGainPct == Some(60.0)
  {
    var h := Holding("VTI", "", 10.0, 5.0, 0);
    var ps := Positions([h], map["VTI" := q], now);
    assert ps[..0] == [];
    assert TotalValue(ps) == 80.0;
    assert TotalCost(ps) == 50.0;
  }
}
