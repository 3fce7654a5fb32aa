/** The shapes data takes between the CSV reader and the holdings file:
    a table of optional text cells, and the canonical holding record
    `{symbol, name, shares, avg_cost, date_added}`. */
module Records {
  import opened Basics
  import opened Text
  import opened Numbers

  /** One CSV cell; `None` is the pandas null a blank field is read as. */
  type Cell = Option<string>

  type Row = seq<Cell>

  /** A CSV file as the reader hands it over: header names and data rows. */
  datatype Table = Table(columns: seq<string>, rows: seq<Row>)

  /** The cell of column `c`; a row shorter than the header reads as null
      in its missing columns, as the CSV reader pads it. */
  function CellAt(row: Row, c: nat): Cell {
    if c < |row| then row[c] else None
  }

  /** `str(cell)`: a null cell prints as `nan`. */
  function CellText(cell: Cell): string {
    match cell
    case Some(s) => s
    case None => "nan"
  }

  /** `str(cell).strip().upper()`: the symbol text of a cell. */
  function CellSymbol(cell: Cell): string {
    Upper(Strip(CellText(cell)))
  }

  /** A money cell: dollar signs and thousands separators are dropped and
      the rest is read as a number; `None` is the `ValueError`. */
  function CellAmount(cell: Cell): Option<real> {
    ParseNumber(Sanitize(CellText(cell)))
  }

  /** One tracked position. `dateAdded` is a day number. */
  datatype Holding = Holding(symbol: string, name: string, shares: real, avgCost: real, dateAdded: int)

  /** The case-insensitive key holdings are compared by: `symbol.upper()`. */
  function Key(h: Holding): string {
    Upper(h.symbol)
  }

  /** The keys present in a batch of holdings. */
  function Keys(hs: seq<Holding>): set<string> {
    set h | h in hs :: Key(h)
  }

  /** The exact symbols present in a batch of holdings. */
  function Symbols(hs: seq<Holding>): set<string> {
    set h | h in hs :: h.symbol
  }
}
