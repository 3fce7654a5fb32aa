/** The row normaliser shared by the in-app SoFi import and the SoFi
    cleaner script. Both resolve columns by keyword, skip the same kinds of
    row and walk the same cost-basis → market-value → price chain; they
    deliberately differ in how a cost basis is read and how a symbol is
    tidied, which `CostRule` and `SymbolCleanup` make explicit. */
module SofiRows {
  import opened Basics
  import opened Text
  import opened Numbers
  import opened Records
  import opened Columns

  /** How a cost-basis figure is read: always as the position's total cost
      (in-app import), or as a total only when it exceeds ten times the
      share count and as a per-share cost otherwise (cleaner script). */
  datatype CostRule = AlwaysTotal | TotalAboveTenTimesShares

  /** How a symbol is tidied: all `/` characters deleted (in-app import),
      or everything from the first `/` on dropped (cleaner script). Spaces
      are deleted either way. */
  datatype SymbolCleanup = DropSlashes | CutAtSlash

  /** Symbols that stand for a missing value. */
  predicate IsNullSymbol(s: string) {
    s == "" || s == "NAN" || s == "NULL"
  }

  /** The per-share cost a cost-basis figure stands for. */
  function BasisCost(rule: CostRule, basis: real, shares: real): (c: real)
    requires shares > 0.0
    ensures rule == AlwaysTotal ==> c * shares == basis
    ensures rule == TotalAboveTenTimesShares && basis > shares * 10.0 ==> c * shares == basis
    ensures rule == TotalAboveTenTimesShares && basis <= shares * 10.0 ==> c == basis
  {
    match rule
    case AlwaysTotal => basis / shares
    case TotalAboveTenTimesShares => if basis > shares * 10.0 then basis / shares else basis
  }

  /** A cost basis of 500 on 10 shares is a total (50 a share); one of 8 on
      10 shares is already per share. */
  lemma CostHeuristicExamples()
    ensures BasisCost(TotalAboveTenTimesShares, 500.0, 10.0) == 50.0
    ensures BasisCost(TotalAboveTenTimesShares, 8.0, 10.0) == 8.0
    ensures BasisCost(AlwaysTotal, 8.0, 10.0) == 0.8
  {
  }

  /** The symbol after tidying. */
  function TidySymbol(cleanup: SymbolCleanup, s: string): (r: string)
    ensures ' ' !in r && '/' !in r
    ensures cleanup == DropSlashes ==> multiset(r) == multiset(s)[' ' := 0]['/' := 0]
    ensures cleanup == CutAtSlash ==> r == BeforeFirst(RemoveChar(s, ' '), '/')
    ensures ' ' !in s && '/' !in s ==> r == s
  {
    match cleanup
    case DropSlashes => RemoveChar(RemoveChar(s, ' '), '/')
    case CutAtSlash => BeforeFirst(RemoveChar(s, ' '), '/')
  }

  /** Deleting spaces and slashes works piece by piece, so the kept
      characters stay in their order. */
  lemma DropSlashesAppend(a: string, b: string)
    ensures TidySymbol(DropSlashes, a + b) == TidySymbol(DropSlashes, a) + TidySymbol(DropSlashes, b)
  {
    RemoveCharAppend(a, b, ' ');
    RemoveCharAppend(RemoveChar(a, ' '), RemoveChar(b, ' '), '/');
  }

  /** The cell of a detected target, if the target was detected. */
  function TargetCell(row: Row, cols: map<Target, nat>, t: Target): Option<Cell> {
    if t in cols then Some(CellAt(row, cols[t])) else None
  }

  /** The average-cost chain over the three optional cells (outer `None`:
      column not detected; inner `None`: null cell). A non-null cost basis
      always decides; otherwise a detected market-value column decides,
      even when its cell is null; otherwise a detected price column; a
      detected but null deciding cell leaves the cost at 0. A deciding cell
      that does not parse yields `None`: the row is skipped. */
  function CostChain(basis: Option<Cell>, value: Option<Cell>, price: Option<Cell>, shares: real, rule: CostRule): (r: Option<real>)
    requires shares > 0.0
    ensures basis.Some? && basis.value.Some? ==>
      r == (if CellAmount(basis.value).Some? then Some(BasisCost(rule, CellAmount(basis.value).value, shares)) else None)
    ensures !(basis.Some? && basis.value.Some?) && value.Some? ==>
      r == (if value.value.None? then Some(0.0)
            else if CellAmount(value.value).Some? then Some(CellAmount(value.value).value / shares)
            else None)
    ensures !(basis.Some? && basis.value.Some?) && value.None? && price.Some? ==>
      r == (if price.value.None? then Some(0.0) else CellAmount(price.value))
    ensures !(basis.Some? && basis.value.Some?) && value.None? && price.None? ==> r == Some(0.0)
  {
    if basis.Some? && basis.value.Some? then
      match CellAmount(basis.value)
      case Some(b) => Some(BasisCost(rule, b, shares))
      case None => None
    else if value.Some? then
      if value.value.None? then Some(0.0)
      else
        match CellAmount(value.value)
        case Some(v) => Some(v / shares)
        case None => None
    else if price.Some? then
      if price.value.None? then Some(0.0) else CellAmount(price.value)
    else Some(0.0)
  }

  /** One row; `None` is a skipped row. A row is skipped when the symbol or
      shares column was not detected, when the symbol is a null sentinel,
      when the share count does not parse or is not positive, and when the
      deciding cost cell does not parse. */
  function SofiRow(row: Row, cols: map<Target, nat>, rule: CostRule, cleanup: SymbolCleanup, now: int): (r: Option<Holding>)
    ensures r.Some? <==>
      && Symbol in cols && Shares in cols
      && !IsNullSymbol(CellSymbol(CellAt(row, cols[Symbol])))
      && CellAmount(CellAt(row, cols[Shares])).Some? && CellAmount(CellAt(row, cols[Shares])).value > 0.0
      && CostChain(TargetCell(row, cols, CostBasis), TargetCell(row, cols, MarketValue), TargetCell(row, cols, Price),
                   CellAmount(CellAt(row, cols[Shares])).value, rule).Some?
    ensures r.Some? ==>
      && r.value.symbol == TidySymbol(cleanup, CellSymbol(CellAt(row, cols[Symbol])))
      && r.value.shares == CellAmount(CellAt(row, cols[Shares])).value
      && r.value.avgCost == CostChain(TargetCell(row, cols, CostBasis), TargetCell(row, cols, MarketValue),
                                      TargetCell(row, cols, Price), r.value.shares, rule).value
      && r.value.name == "" && r.value.dateAdded == DayOf(now)
  {
    if Symbol !in cols then None
    else
      var symbol := CellSymbol(CellAt(row, cols[Symbol]));
      if IsNullSymbol(symbol) || Shares !in cols then None
      else
        match CellAmount(CellAt(row, cols[Shares]))
        case None => None
        case Some(shares) =>
          if shares <= 0.0 then None
          else
            var cost := CostChain(TargetCell(row, cols, CostBasis), TargetCell(row, cols, MarketValue),
                                  TargetCell(row, cols, Price), shares, rule);
            match cost
            case None => None
            case Some(c) => Some(Holding(TidySymbol(cleanup, symbol), "", shares, c, DayOf(now)))
  }

  /** The normalisation of one row as a function value. */
  function RowNormaliser(cols: map<Target, nat>, rule: CostRule, cleanup: SymbolCleanup, now: int): Row -> Option<Holding> {
    row => SofiRow(row, cols, rule, cleanup, now)
  }

  /** The outcome of every row, in row order. */
  function SofiOutcomes(rows: seq<Row>, cols: map<Target, nat>, rule: CostRule, cleanup: SymbolCleanup, now: int): (os: seq<Option<Holding>>)
    ensures |os| == |rows|
    ensures forall i :: 0 <= i < |rows| ==> os[i] == SofiRow(rows[i], cols, rule, cleanup, now)
  {
    Map(RowNormaliser(cols, rule, cleanup, now), rows)
  }

  /** A holding with a positive share count and a symbol free of spaces and
      `/`. */
  predicate IsTidy(h: Holding) {
    h.shares > 0.0 && ' ' !in h.symbol && '/' !in h.symbol
  }

  /** A kept row has a positive share count and a tidy symbol. */
  lemma KeptRowIsTidy(row: Row, cols: map<Target, nat>, rule: CostRule, cleanup: SymbolCleanup, now: int)
    requires SofiRow(row, cols, rule, cleanup, now).Some?
    ensures var h := SofiRow(row, cols, rule, cleanup, now).value;
      h.shares > 0.0 && ' ' !in h.symbol && '/' !in h.symbol
  {
  }

  /** The holdings of the rows that were not skipped, in row order. Every
      one has a positive share count and a symbol free of spaces and `/`. */
  function SofiBatch(rows: seq<Row>, cols: map<Target, nat>, rule: CostRule, cleanup: SymbolCleanup, now: int): (hs: seq<Holding>)
    ensures |hs| <= |rows|
    ensures forall h :: h in hs ==> h.shares > 0.0 && ' ' !in h.symbol && '/' !in h.symbol
    ensures forall i :: 0 <= i < |rows| && SofiRow(rows[i], cols, rule, cleanup, now).Some? ==>
      SofiRow(rows[i], cols, rule, cleanup, now).value in hs
    ensures forall h :: h in hs ==> exists i :: 0 <= i < |rows| && SofiRow(rows[i], cols, rule, cleanup, now) == Some(h)
    ensures hs == Somes(SofiOutcomes(rows, cols, rule, cleanup, now))
  {
    var os := SofiOutcomes(rows, cols, rule, cleanup, now);
    forall i | 0 <= i < |os| && os[i].Some?
      ensures IsTidy(os[i].value)
    {
      KeptRowIsTidy(rows[i], cols, rule, cleanup, now);
    }
    SomesKeep(os, IsTidy);
    Somes(os)
  }

  /** A whole file under one keyword profile. */
  function SofiHoldings(t: Table, p: Profile, rule: CostRule, cleanup: SymbolCleanup, now: int): seq<Holding> {
    SofiBatch(t.rows, DetectColumns(t.columns, p), rule, cleanup, now)
  }

  /** Without a detected symbol or shares column every row is skipped. */
  lemma MissingColumnSkipsAll(t: Table, p: Profile, rule: CostRule, cleanup: SymbolCleanup, now: int)
    requires Symbol !in DetectColumns(t.columns, p) || Shares !in DetectColumns(t.columns, p)
    ensures SofiHoldings(t, p, rule, cleanup, now) == []
  {
    var os := SofiOutcomes(t.rows, DetectColumns(t.columns, p), rule, cleanup, now);
    assert forall i :: 0 <= i < |os| ==> os[i].None?;
  }
}
