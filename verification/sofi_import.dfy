/** The in-app SoFi import (`process_sofi_csv`): columns found with the
    app's keyword table, a cost basis always read as a total, and every
    `/` deleted from symbols. */
module SofiImport {
  import opened Basics
  import opened Text
  import opened Records
  import opened Columns
  import opened SofiRows

  function ProcessSofiCsv(t: Table, now: int): (hs: seq<Holding>)
    ensures |hs| <= |t.rows|
    ensures forall h :: h in hs ==> h.shares > 0.0 && ' ' !in h.symbol && '/' !in h.symbol
    ensures var cols := DetectColumns(t.columns, App);
      forall i :: 0 <= i < |t.rows| && SofiRow(t.rows[i], cols, AlwaysTotal, DropSlashes, now).Some? ==>
        SofiRow(t.rows[i], cols, AlwaysTotal, DropSlashes, now).value in hs
    ensures var cols := DetectColumns(t.columns, App);
      forall h :: h in hs ==> exists i :: 0 <= i < |t.rows| && SofiRow(t.rows[i], cols, AlwaysTotal, DropSlashes, now) == Some(h)
    ensures hs == Somes(SofiOutcomes(t.rows, DetectColumns(t.columns, App), AlwaysTotal, DropSlashes, now))
  {
    SofiHoldings(t, App, AlwaysTotal, DropSlashes, now)
  }

  /** Under the in-app rule a non-null cost basis that parses decides the
      cost chain. */
  lemma BasisDecides(basis: Cell, value: Option<Cell>, price: Option<Cell>, shares: real)
    requires shares > 0.0 && basis.Some?
    requires CostChain(Some(basis), value, price, shares, AlwaysTotal).Some?
    ensures CellAmount(basis).Some?
    ensures CostChain(Some(basis), value, price, shares, AlwaysTotal).value
            == BasisCost(AlwaysTotal, CellAmount(basis).value, shares)
  {
  }

  /** A kept row with a non-null cost basis has that basis, read as the
      position's total, divided by the share count as its average cost,
      whatever the other columns say. */
  lemma CostBasisIsTotal(row: Row, cols: map<Target, nat>, now: int)
    requires SofiRow(row, cols, AlwaysTotal, DropSlashes, now).Some?
    requires CostBasis in cols && CellAt(row, cols[CostBasis]).Some?
    ensures var h := SofiRow(row, cols, AlwaysTotal, DropSlashes, now).value;
      h.avgCost == CellAmount(CellAt(row, cols[CostBasis])).value / h.shares
  {
    var h := SofiRow(row, cols, AlwaysTotal, DropSlashes, now).value;
    var cell := CellAt(row, cols[CostBasis]);
    assert TargetCell(row, cols, CostBasis) == Some(cell);
    BasisDecides(cell, TargetCell(row, cols, MarketValue), TargetCell(row, cols, Price), h.shares);
  }

  /** A cost basis cell that is present but unreadable skips the row. */
  lemma BadCostBasisSkipsRow(row: Row, cols: map<Target, nat>, now: int)
    requires CostBasis in cols && CellAt(row, cols[CostBasis]).Some?
    requires CellAmount(CellAt(row, cols[CostBasis])).None?
    ensures SofiRow(row, cols, AlwaysTotal, DropSlashes, now).None?
  {
  }

  /** A detected market-value column shadows the price column: with no
      usable cost basis, a null market value leaves the cost at 0 even when
      a price is present. */
  lemma NullMarketValueLeavesZero(row: Row, cols: map<Target, nat>, now: int)
    requires SofiRow(row, cols, AlwaysTotal, DropSlashes, now).Some?
    requires CostBasis !in cols || CellAt(row, cols[CostBasis]).None?
    requires MarketValue in cols && CellAt(row, cols[MarketValue]).None?
    ensures SofiRow(row, cols, AlwaysTotal, DropSlashes, now).value.avgCost == 0.0
  {
  }
}
