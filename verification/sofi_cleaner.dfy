/** The stand-alone SoFi cleaner script: the investment-export cleaner
    (with its total-or-per-share heuristic, symbol truncation at `/` and
    de-duplication), the banking-export filter, and the choice between
    them from the file's first line. */
module SofiCleaner {
  import opened Basics
  import opened Text
  import opened Numbers
  import opened Records
  import opened Columns
  import opened SofiRows

  /** No two holdings share a symbol. */
  predicate DistinctSymbols(hs: seq<Holding>) {
    forall i, j :: 0 <= i < j < |hs| ==> hs[i].symbol != hs[j].symbol
  }

  /** `drop_duplicates(subset=['symbol'])` after the symbols in `seen`: the
      first holding of each new symbol is kept, in order. */
  function DedupFrom(hs: seq<Holding>, seen: set<string>): (r: seq<Holding>)
    ensures forall h :: h in r ==> h in hs && h.symbol !in seen
    ensures DistinctSymbols(r)
    ensures Symbols(r) == Symbols(hs) - seen
  {
    if hs == [] then []
    else
      var h := hs[0];
      SymbolsFront(hs);
      if h.symbol in seen then
        var rest := DedupFrom(hs[1..], seen);
        InTail(hs, rest);
        rest
      else
        var rest := DedupFrom(hs[1..], seen + {h.symbol});
        InTail(hs, rest);
        SymbolsCons(h, rest);
        DistinctCons(h, rest);
        [h] + rest
  }

  lemma SymbolsCons(h: Holding, rest: seq<Holding>)
    ensures Symbols([h] + rest) == {h.symbol} + Symbols(rest)
  {
    assert forall g :: g in [h] + rest <==> g == h || g in rest;
  }

  lemma SymbolsFront(hs: seq<Holding>)
    requires hs != []
    ensures Symbols(hs) == {hs[0].symbol} + Symbols(hs[1..])
  {
    assert hs == [hs[0]] + hs[1..];
    SymbolsCons(hs[0], hs[1..]);
  }

  /** What a walk over the tail keeps belongs to the whole. */
  lemma InTail(hs: seq<Holding>, rest: seq<Holding>)
    requires hs != [] && forall g :: g in rest ==> g in hs[1..]
    ensures forall g :: g in rest ==> g in hs
  {
  }

  lemma DistinctCons(h: Holding, rest: seq<Holding>)
    requires DistinctSymbols(rest) && h.symbol !in Symbols(rest)
    ensures DistinctSymbols([h] + rest)
  {
    var r := [h] + rest;
    forall i, j | 0 <= i < j < |r|
      ensures r[i].symbol != r[j].symbol
    {
      assert r[j] == rest[j - 1];
      if i > 0 {
        assert r[i] == rest[i - 1];
      } else {
        assert rest[j - 1] in rest;
      }
    }
  }

  function Dedup(hs: seq<Holding>): (r: seq<Holding>)
    ensures DistinctSymbols(r)
    ensures Symbols(r) == Symbols(hs)
    ensures forall h :: h in r ==> h in hs
  {
    DedupFrom(hs, {})
  }

  /** Position `i` holds the first occurrence of its symbol. */
  predicate IsFirstOccurrence(hs: seq<Holding>, i: int)
    requires 0 <= i < |hs|
  {
    forall j :: 0 <= j < i ==> hs[j].symbol != hs[i].symbol
  }

  /** Reference definition: the holdings at first-occurrence positions from
      `i` on, in position order. */
  function FirstOccurrencesFrom(hs: seq<Holding>, i: nat): seq<Holding>
    requires i <= |hs|
    decreases |hs| - i
  {
    if i == |hs| then []
    else (if IsFirstOccurrence(hs, i) then [hs[i]] else []) + FirstOccurrencesFrom(hs, i + 1)
  }

  lemma FirstOccurrenceIsUnseen(hs: seq<Holding>, i: nat)
    requires i < |hs|
    ensures IsFirstOccurrence(hs, i) <==> hs[i].symbol !in Symbols(hs[..i])
  {
    if !IsFirstOccurrence(hs, i) {
      var j :| 0 <= j < i && hs[j].symbol == hs[i].symbol;
      assert hs[..i][j] == hs[j];
    }
    if hs[i].symbol in Symbols(hs[..i]) {
      var g :| g in hs[..i] && g.symbol == hs[i].symbol;
      var j :| 0 <= j < i && hs[..i][j] == g;
      assert hs[j].symbol == hs[i].symbol;
    }
  }

  lemma SymbolsOfPrefix(hs: seq<Holding>, i: nat)
    requires i < |hs|
    ensures Symbols(hs[..i + 1]) == Symbols(hs[..i]) + {hs[i].symbol}
  {
    assert hs[..i + 1] == hs[..i] + [hs[i]];
    assert forall g :: g in hs[..i + 1] <==> g in hs[..i] || g == hs[i];
  }

  /** One step of the walk over a position whose symbol was seen before. */
  lemma DedupSeenStep(hs: seq<Holding>, i: nat)
    requires i < |hs| && hs[i].symbol in Symbols(hs[..i])
    ensures DedupFrom(hs[i..], Symbols(hs[..i])) == DedupFrom(hs[i + 1..], Symbols(hs[..i + 1]))
    ensures FirstOccurrencesFrom(hs, i) == FirstOccurrencesFrom(hs, i + 1)
  {
    var tail := hs[i..];
    assert tail[0] == hs[i] && tail[1..] == hs[i + 1..];
    SymbolsOfPrefix(hs, i);
    FirstOccurrenceIsUnseen(hs, i);
    var seen := Symbols(hs[..i]);
    assert Symbols(hs[..i + 1]) == seen;
    assert DedupFrom(tail, seen) == DedupFrom(tail[1..], seen);
  }

  /** One step of the walk over the first position of a symbol. */
  lemma DedupFreshStep(hs: seq<Holding>, i: nat)
    requires i < |hs| && hs[i].symbol !in Symbols(hs[..i])
    ensures DedupFrom(hs[i..], Symbols(hs[..i])) == [hs[i]] + DedupFrom(hs[i + 1..], Symbols(hs[..i + 1]))
    ensures FirstOccurrencesFrom(hs, i) == [hs[i]] + FirstOccurrencesFrom(hs, i + 1)
  {
    var tail := hs[i..];
    assert tail[0] == hs[i] && tail[1..] == hs[i + 1..];
    SymbolsOfPrefix(hs, i);
    FirstOccurrenceIsUnseen(hs, i);
  }

  /** If the walk from `i + 1` agrees with the reference, so does the walk
      from `i`. */
  lemma DedupStep(hs: seq<Holding>, i: nat)
    requires i < |hs|
    ensures DedupFrom(hs[i + 1..], Symbols(hs[..i + 1])) == FirstOccurrencesFrom(hs, i + 1) ==>
            DedupFrom(hs[i..], Symbols(hs[..i])) == FirstOccurrencesFrom(hs, i)
  {
    if hs[i].symbol in Symbols(hs[..i]) {
      DedupSeenStep(hs, i);
    } else {
      DedupFreshStep(hs, i);
    }
  }

  lemma {:induction false} DedupFromSuffix(hs: seq<Holding>, i: nat)
    requires i <= |hs|
    ensures DedupFrom(hs[i..], Symbols(hs[..i])) == FirstOccurrencesFrom(hs, i)
    decreases |hs| - i
  {
    if i < |hs| {
      DedupFromSuffix(hs, i + 1);
      DedupStep(hs, i);
    }
  }

  /** De-duplication keeps exactly the first occurrence of every symbol and
      nothing else, in input order. */
  lemma DedupKeepsFirstOccurrences(hs: seq<Holding>)
    ensures Dedup(hs) == FirstOccurrencesFrom(hs, 0)
  {
    assert hs[0..] == hs;
    assert Symbols(hs[..0]) == {};
    DedupFromSuffix(hs, 0);
  }

  /** `clean_sofi_investment_csv`: `None` when no row survives; otherwise
      the surviving holdings with duplicate symbols removed, first kept. */
  function CleanInvestmentCsv(t: Table, now: int): (r: Option<seq<Holding>>)
    ensures r.None? <==> SofiHoldings(t, Cleaner, TotalAboveTenTimesShares, CutAtSlash, now) == []
    ensures r.Some? ==> r.value != [] && DistinctSymbols(r.value)
    ensures r.Some? ==> Symbols(r.value) == Symbols(SofiHoldings(t, Cleaner, TotalAboveTenTimesShares, CutAtSlash, now))
    ensures r.Some? ==> forall h :: h in r.value ==> h.shares > 0.0 && ' ' !in h.symbol && '/' !in h.symbol
    ensures r.Some? ==> r.value == FirstOccurrencesFrom(SofiHoldings(t, Cleaner, TotalAboveTenTimesShares, CutAtSlash, now), 0)
  {
    var hs := SofiHoldings(t, Cleaner, TotalAboveTenTimesShares, CutAtSlash, now);
    if hs == [] then None
    else
      var r := Dedup(hs);
      DedupKeepsFirstOccurrences(hs);
      assert hs[0].symbol in Symbols(hs);
      Some(r)
  }

  /** A kept row's symbol is the cleaned cell up to its first `/`. */
  lemma CleanerSymbolIsPrefix(row: Row, cols: map<Target, nat>, now: int)
    requires SofiRow(row, cols, TotalAboveTenTimesShares, CutAtSlash, now).Some?
    ensures var h := SofiRow(row, cols, TotalAboveTenTimesShares, CutAtSlash, now).value;
      h.symbol == BeforeFirst(RemoveChar(CellSymbol(CellAt(row, cols[Symbol])), ' '), '/')
  {
  }

  /** One investment-related banking transaction. */
  datatype Transaction = Transaction(date: Cell, description: Cell, amount: Float)

  const InvestmentKeywords: seq<string> := ["invest", "buy", "sell", "dividend", "transfer to invest"]

  /** The first header named exactly `name`. */
  function ColumnNamed(columns: seq<string>, name: string): (r: Option<nat>)
    ensures r.Some? ==> r.value < |columns| && columns[r.value] == name
    ensures r.None? ==> name !in columns
  {
    if columns == [] then None
    else if columns[0] == name then Some(0)
    else
      match ColumnNamed(columns[1..], name)
      case Some(i) => Some(i + 1)
      case None => None
  }

  /** `row.get(name, default)`. */
  function Field(row: Row, columns: seq<string>, name: string, default: Cell): Cell {
    match ColumnNamed(columns, name)
    case Some(i) => CellAt(row, i)
    case None => default
  }

  function Description(row: Row, columns: seq<string>): string {
    Lower(CellText(Field(row, columns, "Description", Some(""))))
  }

  /** A banking row is kept when its lower-cased description mentions one of
      the investment keywords. */
  predicate InvestmentRelated(row: Row, columns: seq<string>) {
    ContainsAny(Description(row, columns), InvestmentKeywords)
  }

  /** The amount of a row as `float` reads it once dollar signs and
      thousands separators are dropped; a missing Amount column reads as 0
      and a null cell, printed as `nan`, as not-a-number. */
  function Amount(row: Row, columns: seq<string>): Option<Float> {
    ParseFloat(Sanitize(CellText(Field(row, columns, "Amount", Some("0")))))
  }

  /** A null Amount cell does not stop the walk: it is kept as
      not-a-number. */
  lemma NullAmountIsNaN(row: Row, columns: seq<string>)
    requires Field(row, columns, "Amount", Some("0")).None?
    ensures Amount(row, columns) == Some(NaN)
  {
    var text := CellText(Field(row, columns, "Amount", Some("0")));
    assert text == "nan";
    assert Sanitize(text) == text;
    NanTextIsNaN();
  }

  /** The transaction a kept row becomes, or `None` for a row that is not
      kept. */
  function TransactionOf(row: Row, columns: seq<string>, amount: Float): Transaction {
    Transaction(Field(row, columns, "Date", Some("")), Field(row, columns, "Description", Some("")), amount)
  }

  /** A kept row whose amount does not parse. */
  predicate Fails(row: Row, columns: seq<string>) {
    InvestmentRelated(row, columns) && Amount(row, columns).None?
  }

  /** The transaction a row would contribute on its own. */
  function RowTransaction(row: Row, columns: seq<string>): (t: Option<Transaction>)
    ensures t.Some? <==> InvestmentRelated(row, columns) && Amount(row, columns).Some?
    ensures t.Some? ==> t.value == TransactionOf(row, columns, Amount(row, columns).value)
  {
    if InvestmentRelated(row, columns) && Amount(row, columns).Some?
    then Some(TransactionOf(row, columns, Amount(row, columns).value)) else None
  }

  /** The transaction each row would contribute on its own. */
  function RowTransactions(rows: seq<Row>, columns: seq<string>): (ts: seq<Option<Transaction>>)
    ensures |ts| == |rows|
    ensures forall i :: 0 <= i < |rows| ==> ts[i] == RowTransaction(rows[i], columns)
  {
    Map(row => RowTransaction(row, columns), rows)
  }

  /** The kept rows of a banking export, in order, walked one row at a
      time. There is no per-row recovery: the walk stops with `None` at the
      first kept row whose amount does not parse. */
  function BankingRows(rows: seq<Row>, columns: seq<string>): (r: Option<seq<Transaction>>)
    ensures r.Some? ==> |r.value| <= |rows|
  {
    if rows == [] then Some([])
    else if !InvestmentRelated(rows[0], columns) then BankingRows(rows[1..], columns)
    else
      match Amount(rows[0], columns)
      case None => None
      case Some(a) =>
        match BankingRows(rows[1..], columns)
        case None => None
        case Some(ts) => Some([TransactionOf(rows[0], columns, a)] + ts)
  }

  /** The walk over a non-empty export, one step unfolded. */
  lemma BankingRowsStep(rows: seq<Row>, columns: seq<string>)
    requires rows != []
    ensures !InvestmentRelated(rows[0], columns) ==> BankingRows(rows, columns) == BankingRows(rows[1..], columns)
    ensures Fails(rows[0], columns) ==> BankingRows(rows, columns).None?
    ensures InvestmentRelated(rows[0], columns) && Amount(rows[0], columns).Some? ==>
      BankingRows(rows, columns) ==
        (if BankingRows(rows[1..], columns).None? then None
         else Some([TransactionOf(rows[0], columns, Amount(rows[0], columns).value)] + BankingRows(rows[1..], columns).value))
  {
  }

  lemma FailsSomewhere(rows: seq<Row>, columns: seq<string>)
    requires rows != []
    ensures (exists i :: 0 <= i < |rows| && Fails(rows[i], columns)) <==>
            Fails(rows[0], columns) || exists i :: 0 <= i < |rows[1..]| && Fails(rows[1..][i], columns)
  {
    var tail := rows[1..];
    if exists i :: 0 <= i < |tail| && Fails(tail[i], columns) {
      var i :| 0 <= i < |tail| && Fails(tail[i], columns);
      assert rows[i + 1] == tail[i];
    }
    if exists i :: 0 <= i < |rows| && Fails(rows[i], columns) {
      var i :| 0 <= i < |rows| && Fails(rows[i], columns);
      if i > 0 {
        assert tail[i - 1] == rows[i];
      }
    }
  }

  lemma RowTransactionsStep(rows: seq<Row>, columns: seq<string>)
    requires rows != []
    ensures Somes(RowTransactions(rows, columns)) ==
      (if InvestmentRelated(rows[0], columns) && Amount(rows[0], columns).Some?
       then [TransactionOf(rows[0], columns, Amount(rows[0], columns).value)] else [])
      + Somes(RowTransactions(rows[1..], columns))
  {
    var f := row => RowTransaction(row, columns);
    MapFront(f, rows);
    SomesAppend([f(rows[0])], Map(f, rows[1..]));
  }

  /** The walk fails exactly when some kept row's amount does not parse. */
  lemma {:induction false} BankingRowsFailure(rows: seq<Row>, columns: seq<string>)
    ensures BankingRows(rows, columns).None? <==> exists i :: 0 <= i < |rows| && Fails(rows[i], columns)
  {
    if rows != [] {
      BankingRowsFailure(rows[1..], columns);
      BankingRowsStep(rows, columns);
      FailsSomewhere(rows, columns);
    }
  }

  /** A walk that does not fail yields every kept row's transaction, in
      row order: the same as filtering the rows and then converting them. */
  lemma {:induction false} BankingRowsFilter(rows: seq<Row>, columns: seq<string>)
    ensures BankingRows(rows, columns).Some? ==> BankingRows(rows, columns).value == Somes(RowTransactions(rows, columns))
  {
    if rows != [] {
      BankingRowsFilter(rows[1..], columns);
      BankingRowsStep(rows, columns);
      RowTransactionsStep(rows, columns);
    }
  }

  /** `clean_sofi_banking_csv`. */
  function CleanBankingCsv(t: Table): Option<seq<Transaction>> {
    BankingRows(t.rows, t.columns)
  }

  lemma InvestInsideTransfer(d: string)
    requires Contains(d, "transfer to invest")
    ensures Contains(d, "invest")
  {
    var i :| OccursAt(d, "transfer to invest", i);
    var whole := "transfer to invest";
    assert whole[12..18] == "invest";
    assert d[i + 12..i + 18] == d[i..i + 18][12..18];
    assert OccursAt(d, "invest", i + 12);
  }

  /** The keyword `transfer to invest` never changes the verdict: `invest`
      alone already catches it. */
  lemma TransferKeywordRedundant(row: Row, columns: seq<string>)
    ensures InvestmentRelated(row, columns) <==>
      ContainsAny(Description(row, columns), ["invest", "buy", "sell", "dividend"])
  {
    var d := Description(row, columns);
    var ks := InvestmentKeywords;
    var short := ["invest", "buy", "sell", "dividend"];
    assert forall k :: 0 <= k < 4 ==> short[k] == ks[k];
    if Contains(d, ks[4]) {
      InvestInsideTransfer(d);
    }
  }

  /** Which kind of export a file is. */
  datatype CsvType = Investment | Banking

  /** The `--type` option. */
  datatype TypeOption = ForceInvestment | ForceBanking | Auto

  const InvestmentHints: seq<string> := ["symbol", "shares", "portfolio"]
  const BankingHints: seq<string> := ["transaction", "amount", "description"]

  /** Auto-detection from the lower-cased first line: investment hints win,
      then banking hints, and investment is the default. */
  function DetectCsvType(firstLine: string): (r: CsvType)
    ensures r == Banking <==>
      !ContainsAny(Lower(firstLine), InvestmentHints) && ContainsAny(Lower(firstLine), BankingHints)
  {
    var line := Lower(firstLine);
    if ContainsAny(line, InvestmentHints) then Investment
    else if ContainsAny(line, BankingHints) then Banking
    else Investment
  }

  function ResolveCsvType(option: TypeOption, firstLine: string): (r: CsvType)
    ensures option == ForceInvestment ==> r == Investment
    ensures option == ForceBanking ==> r == Banking
    ensures option == Auto ==> r == DetectCsvType(firstLine)
  {
    match option
    case ForceInvestment => Investment
    case ForceBanking => Banking
    case Auto => DetectCsvType(firstLine)
  }

  /** What one run of the script produces. */
  datatype RunResult = Holdings(holdings: Option<seq<Holding>>) | Transactions(transactions: Option<seq<Transaction>>)

  /** The script exits with failure status: the chosen cleaner returned
      `None`. */
  predicate RunFailed(r: RunResult) {
    match r
    case Holdings(hs) => hs.None?
    case Transactions(ts) => ts.None?
  }

  /** `main` after the input file was found and read: pick the cleaner and
      run it. An investment run fails exactly when no row survives; a
      banking run fails exactly when a kept row's amount is not a number
      `float` accepts, and succeeds, possibly with nothing, otherwise. */
  function RunCleaner(option: TypeOption, firstLine: string, t: Table, now: int): (r: RunResult)
    ensures ResolveCsvType(option, firstLine) == Investment ==> r == Holdings(CleanInvestmentCsv(t, now))
    ensures ResolveCsvType(option, firstLine) == Banking ==> r == Transactions(CleanBankingCsv(t))
    ensures ResolveCsvType(option, firstLine) == Investment ==>
      (RunFailed(r) <==> SofiHoldings(t, Cleaner, TotalAboveTenTimesShares, CutAtSlash, now) == [])
    ensures ResolveCsvType(option, firstLine) == Banking ==>
      (RunFailed(r) <==> exists i :: 0 <= i < |t.rows| && Fails(t.rows[i], t.columns))
    ensures !RunFailed(r) && r.Transactions? ==> r.transactions.value == Somes(RowTransactions(t.rows, t.columns))
  {
    match ResolveCsvType(option, firstLine)
    case Investment => Holdings(CleanInvestmentCsv(t, now))
    case Banking =>
      BankingRowsFailure(t.rows, t.columns);
      BankingRowsFilter(t.rows, t.columns);
      Transactions(CleanBankingCsv(t))
  }
}
