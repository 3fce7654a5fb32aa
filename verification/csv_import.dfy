/** The generic brokerage CSV import (`process_csv_import`): the user maps
    a symbol column, a shares column and, optionally, a per-share cost
    column and a current-value column; each row becomes at most one
    holding. */
module CsvImport {
  import opened Basics
  import opened Text
  import opened Numbers
  import opened Records
  import opened MarketData

  /** Keywords the import form uses to preselect each column. */
  const SymbolKeywords: seq<string> := ["symbol", "ticker", "stock", "instrument"]
  const SharesKeywords: seq<string> := ["shares", "quantity", "qty", "units"]
  const CostKeywords: seq<string> := ["cost", "price", "avg_cost", "average"]
  const ValueKeywords: seq<string> := ["value", "market_value", "current_value"]

  /** Whether the market-data layer could be imported, and if so its quote
      provider. */
  datatype Market = Unavailable | Available(provider: Provider)

  /** The chosen columns, as positions into the header. */
  datatype Mapping = Mapping(symbol: nat, shares: nat, cost: Option<nat>, value: Option<nat>)

  /** The share count: only thousands separators are removed before parsing. */
  function ParseShares(cell: Cell): Option<real> {
    ParseNumber(RemoveChar(CellText(cell), ','))
  }

  /** An optional column the form chose and the file has. */
  predicate Usable(col: Option<nat>, width: nat) {
    col.Some? && col.value < width
  }

  /** The price the market layer quotes for a symbol (0 when its lookup
      failed), or the 1.0 placeholder when there is no market layer. */
  function QuoteFallback(market: Market, symbol: string, now: int): (c: real)
    ensures market.Unavailable? ==> c == 1.0
    ensures market.Available? ==> c == SymbolQuote(market.provider(symbol), symbol, now).price
  {
    match market
    case Unavailable => 1.0
    case Available(provider) =>
      var prices := GetCurrentPrices(provider, [symbol], now);
      assert symbol in prices;
      prices[symbol].price
  }

  /** What the optional cost column yields: 0 when it is not mapped, not in
      the file, or unreadable. */
  function DeclaredCost(row: Row, width: nat, m: Mapping): real {
    if Usable(m.cost, width) then CellAmount(CellAt(row, m.cost.value)).GetOr(0.0) else 0.0
  }

  /** What the optional value column yields: `None` when it is not mapped or
      not in the file, `Some(None)` when it is unreadable. */
  function DeclaredValue(row: Row, width: nat, m: Mapping): Option<Option<real>> {
    if Usable(m.value, width) then Some(CellAmount(CellAt(row, m.value.value))) else None
  }

  /** The average-cost fallback chain of a row with a positive share count:
      a nonzero declared cost is taken verbatim and nothing else is
      consulted; otherwise a current value is divided by the shares (the
      quote the source fetches at this point never changes the outcome); an
      unreadable value gives 1.0; and a cost still at 0 is replaced by the
      quote fallback. */
  function CostChain(declared: real, value: Option<Option<real>>, shares: real, quote: real): (c: real)
    requires shares > 0.0
    ensures declared != 0.0 ==> c == declared
    ensures declared == 0.0 && value == Some(None) ==> c == 1.0
    ensures declared == 0.0 && value.Some? && value.value.Some? && value.value.value != 0.0
            ==> c == value.value.value / shares
    ensures declared == 0.0 && (value.None? || value == Some(Some(0.0))) ==> c == quote
  {
    var fromValue :=
      if declared == 0.0 && value.Some? then
        match value.value
        case Some(v) => v / shares
        case None => 1.0
      else declared;
    if fromValue == 0.0 then quote else fromValue
  }

  function ImportCost(row: Row, width: nat, m: Mapping, symbol: string, shares: real, market: Market, now: int): real
    requires shares > 0.0
  {
    CostChain(DeclaredCost(row, width, m), DeclaredValue(row, width, m), shares, QuoteFallback(market, symbol, now))
  }

  /** One row of the import; `None` is a skipped row. The row is skipped
      when a mapped column is not in the file, when its cleaned symbol is
      empty or `NAN`, and when its share count does not parse or is not
      positive; otherwise it yields exactly one holding, unnamed, dated
      today. */
  function ImportRow(row: Row, width: nat, m: Mapping, market: Market, now: int): (r: Option<Holding>)
    ensures r.Some? <==>
      && m.symbol < width && m.shares < width
      && CellSymbol(CellAt(row, m.symbol)) != "" && CellSymbol(CellAt(row, m.symbol)) != "NAN"
      && ParseShares(CellAt(row, m.shares)).Some? && ParseShares(CellAt(row, m.shares)).value > 0.0
    ensures r.Some? ==>
      && r.value.symbol == CellSymbol(CellAt(row, m.symbol))
      && r.value.shares == ParseShares(CellAt(row, m.shares)).value
      && r.value.name == "" && r.value.dateAdded == DayOf(now)
      && r.value.avgCost == ImportCost(row, width, m, r.value.symbol, r.value.shares, market, now)
  {
    if m.symbol >= width || m.shares >= width then None
    else
      var symbol := CellSymbol(CellAt(row, m.symbol));
      if symbol == "" || symbol == "NAN" then None
      else
        match ParseShares(CellAt(row, m.shares))
        case None => None
        case Some(shares) =>
          if shares <= 0.0 then None
          else Some(Holding(symbol, "", shares, ImportCost(row, width, m, symbol, shares, market, now), DayOf(now)))
  }

  /** The import of one row as a function value. */
  function RowImporter(width: nat, m: Mapping, market: Market, now: int): Row -> Option<Holding> {
    row => ImportRow(row, width, m, market, now)
  }

  /** The outcome of every row, in row order. */
  function RowOutcomes(rows: seq<Row>, width: nat, m: Mapping, market: Market, now: int): (os: seq<Option<Holding>>)
    ensures |os| == |rows|
    ensures forall i :: 0 <= i < |rows| ==> os[i] == ImportRow(rows[i], width, m, market, now)
  {
    Map(RowImporter(width, m, market, now), rows)
  }

  /** `process_csv_import` over a whole file: the holdings of the rows that
      were not skipped, in row order. Every one has a positive share count
      and a symbol that is neither empty nor `NAN`. */
  function ProcessCsvImport(t: Table, m: Mapping, market: Market, now: int): (hs: seq<Holding>)
    ensures |hs| <= |t.rows|
    ensures forall h :: h in hs ==> h.shares > 0.0 && h.symbol != "" && h.symbol != "NAN"
    ensures forall i :: 0 <= i < |t.rows| && ImportRow(t.rows[i], |t.columns|, m, market, now).Some? ==>
      ImportRow(t.rows[i], |t.columns|, m, market, now).value in hs
    ensures forall h :: h in hs ==> exists i :: 0 <= i < |t.rows| && ImportRow(t.rows[i], |t.columns|, m, market, now) == Some(h)
    ensures hs == Somes(RowOutcomes(t.rows, |t.columns|, m, market, now))
  {
    SomesOfMap(RowImporter(|t.columns|, m, market, now), t.rows);
    Somes(RowOutcomes(t.rows, |t.columns|, m, market, now))
  }

  /** Rows are handled independently: a skipped row never affects the
      others, and importing two runs of rows gives the holdings of each. */
  lemma {:induction false} ImportRowsAppend(a: seq<Row>, b: seq<Row>, width: nat, m: Mapping, market: Market, now: int)
    ensures Somes(RowOutcomes(a + b, width, m, market, now))
         == Somes(RowOutcomes(a, width, m, market, now)) + Somes(RowOutcomes(b, width, m, market, now))
  {
    var f := RowImporter(width, m, market, now);
    MapAppend(f, a, b);
    SomesAppend(Map(f, a), Map(f, b));
  }

  /** A share count written with a dollar sign is never imported. */
  lemma DollarSharesSkipped(row: Row, width: nat, m: Mapping, market: Market, now: int)
    requires '$' in CellText(CellAt(row, m.shares))
    ensures ImportRow(row, width, m, market, now).None?
  {
    var text := RemoveChar(CellText(CellAt(row, m.shares)), ',');
    assert '$' in text;
    DollarDefeatsParse(text);
  }

  /** A per-share cost that parses to a nonzero number is used verbatim,
      whatever the value column and the market say. */
  lemma DeclaredCostWins(row: Row, width: nat, m: Mapping, market: Market, now: int)
    requires ImportRow(row, width, m, market, now).Some?
    requires Usable(m.cost, width)
    requires CellAmount(CellAt(row, m.cost.value)).Some? && CellAmount(CellAt(row, m.cost.value)).value != 0.0
    ensures ImportRow(row, width, m, market, now).value.avgCost == CellAmount(CellAt(row, m.cost.value)).value
  {
  }

  /** With no usable cost, a readable nonzero current value gives value per
      share, whatever the market says. */
  lemma ValueCostIgnoresMarket(row: Row, width: nat, m: Mapping, market: Market, now: int)
    requires ImportRow(row, width, m, market, now).Some?
    requires DeclaredCost(row, width, m) == 0.0 && Usable(m.value, width)
    requires CellAmount(CellAt(row, m.value.value)).Some? && CellAmount(CellAt(row, m.value.value)).value != 0.0
    ensures var h := ImportRow(row, width, m, market, now).value;
      h.avgCost == CellAmount(CellAt(row, m.value.value)).value / h.shares
  {
  }

  /** Without cost or value columns the cost is the quoted price, or 1.0
      when there is no market layer. */
  lemma QuoteCostWhenNoColumns(row: Row, width: nat, m: Mapping, market: Market, now: int)
    requires ImportRow(row, width, m, market, now).Some?
    requires m.cost.None? && m.value.None?
    ensures var h := ImportRow(row, width, m, market, now).value;
      h.avgCost == (if market.Unavailable? then 1.0 else SymbolQuote(market.provider(h.symbol), h.symbol, now).price)
  {
  }
}
