/** One reconciliation run: the full ledger read back from the sheet becomes
    the closed trades and the summary that overwrite the two summary sheets,
    or one of the early exits. */
module Reconcile {
  import opened Basics
  import opened Ledger
  import opened DateSort
  import opened Pairing
  import opened Metrics

  /** How a run ends. `Failed` stands for the `KeyError` raised when the header
      lacks a column the run reads, which the run catches and logs. */
  datatype Outcome =
    | HeaderOnly
    | Failed(missingColumn: string)
    | NoPairs
    | Logged(trades: seq<Trade>, summary: Summary)

  /** The surviving rows' cells all have the header's width. */
  lemma SurvivorsWidth(rows: seq<seq<string>>, width: nat, closeAt: nat, dateAt: nat,
                       parsePrice: string -> Option<int>, parseDate: string -> Option<int>)
    requires closeAt < width && dateAt < width
    requires forall i :: 0 <= i < |rows| ==> |rows[i]| == width
    ensures forall k :: 0 <= k < |Survivors(rows, closeAt, dateAt, parsePrice, parseDate)| ==>
              |Survivors(rows, closeAt, dateAt, parsePrice, parseDate)[k].cells| == width
  {
    var kept := Survivors(rows, closeAt, dateAt, parsePrice, parseDate);
    forall k | 0 <= k < |kept| ensures |kept[k].cells| == width {
      var i :| 0 <= i < |rows| && Coerce(rows[i], closeAt, dateAt, parsePrice, parseDate) == Some(kept[k]);
    }
  }

  /** The data rows below the header whose `Close` and `Date` cells both
      coerce, in ledger order. */
  function Kept(data: seq<seq<string>>, parsePrice: string -> Option<int>,
                parseDate: string -> Option<int>): (kept: seq<Parsed>)
    requires |data| > 1 && Rectangular(data)
    requires CloseColumn in data[0] && DateColumn in data[0]
    ensures forall k :: 0 <= k < |kept| ==> |kept[k].cells| == |data[0]|
  {
    var header, rows := data[0], data[1..];
    var closeAt, dateAt := IndexOf(header, CloseColumn).value, IndexOf(header, DateColumn).value;
    assert forall i :: 0 <= i < |rows| ==> |rows[i]| == |header| by {
      forall i | 0 <= i < |rows| ensures |rows[i]| == |header| {
        assert rows[i] == data[i + 1];
      }
    }
    SurvivorsWidth(rows, |header|, closeAt, dateAt, parsePrice, parseDate);
    Survivors(rows, closeAt, dateAt, parsePrice, parseDate)
  }

  /** The data rows as entries: `Close` and `Date` are looked up and coerced
      first, rows failing either coercion are dropped, and `Stock` and
      `Signal` are read only if some row is left. A missing column is
      reported in that lookup order. */
  function ReadEntries(data: seq<seq<string>>, parsePrice: string -> Option<int>,
                       parseDate: string -> Option<int>): (r: Result<seq<Entry>, string>)
    requires |data| > 1 && Rectangular(data)
    ensures r.Failure? ==> r.error in [CloseColumn, DateColumn, StockColumn, SignalColumn]
                           && r.error !in data[0]
    ensures r.Failure? && r.error != CloseColumn ==> CloseColumn in data[0]
    ensures r.Failure? && r.error in [StockColumn, SignalColumn] ==> DateColumn in data[0]
    ensures r.Failure? && r.error == SignalColumn ==> StockColumn in data[0]
    ensures r.Success? <==>
              && CloseColumn in data[0] && DateColumn in data[0]
              && (Kept(data, parsePrice, parseDate) == [] || (StockColumn in data[0] && SignalColumn in data[0]))
    ensures r.Success? ==> |r.value| <= |data| - 1
    ensures r.Success? ==> |r.value| == |Kept(data, parsePrice, parseDate)|
    ensures r.Success? && r.value != [] ==>
              forall c :: c in [CloseColumn, DateColumn, StockColumn, SignalColumn] ==> c in data[0]
    ensures r.Success? && r.value != [] ==>
              r.value == ToEntries(Kept(data, parsePrice, parseDate),
                                   IndexOf(data[0], StockColumn).value, IndexOf(data[0], SignalColumn).value)
  {
    var header := data[0];
    match (IndexOf(header, CloseColumn), IndexOf(header, DateColumn))
    case (None, _) => Failure(CloseColumn)
    case (_, None) => Failure(DateColumn)
    case (Some(_), Some(_)) =>
      var kept := Kept(data, parsePrice, parseDate);
      if kept == [] then Success([])
      else
        match (IndexOf(header, StockColumn), IndexOf(header, SignalColumn))
        case (None, _) => Failure(StockColumn)
        case (_, None) => Failure(SignalColumn)
        case (Some(stockAt), Some(signalAt)) =>
          Success(ToEntries(kept, stockAt, signalAt))
  }

  /** `log_summary_metrics`: read, coerce, sort by date, pair, summarise. A
      readable ledger ends with no pairs exactly when the reference pairing
      of its date-sorted entries closes no trade, and otherwise logs those
      trades and their summary. */
  function LogSummaryMetrics(data: seq<seq<string>>, parsePrice: string -> Option<int>,
                             parseDate: string -> Option<int>): (o: Outcome)
    requires Rectangular(data)
    ensures o.HeaderOnly? <==> |data| <= 1
    ensures o.Failed? ==> o.missingColumn !in data[0]
    ensures |data| > 1 && ReadEntries(data, parsePrice, parseDate).Failure? ==>
              o == Failed(ReadEntries(data, parsePrice, parseDate).error)
    ensures |data| > 1 && ReadEntries(data, parsePrice, parseDate).Success? ==>
              var expected := ExpectedTrades(SortByDate(ReadEntries(data, parsePrice, parseDate).value));
              && (o.NoPairs? <==> expected == [])
              && (o.Logged? <==> expected != [])
              && (o.Logged? ==> o.trades == expected && o.summary == Summarize(expected))
    ensures o.Logged? ==>
              && o.trades != []
              && o.summary.totalTrades == |o.trades|
              && o.summary.winningTrades <= o.summary.totalTrades
              && 0.0 <= o.summary.winRatio <= 100.0
    ensures o.Logged? ==>
              && (forall k :: 0 <= k < |o.trades| ==> o.trades[k].buyDate <= o.trades[k].sellDate)
              && (forall k, l :: 0 <= k < l < |o.trades| ==> o.trades[k].sellDate <= o.trades[l].sellDate)
  {
    if |data| <= 1 then HeaderOnly
    else match ReadEntries(data, parsePrice, parseDate)
      case Failure(column) => Failed(column)
      case Success(es) =>
        var sorted := SortByDate(es);
        TradesInDateOrder(sorted);
        var trades := Run(sorted).trades;
        if trades == [] then NoPairs else Logged(trades, Summarize(trades))
  }

  /** A run logs no more trades than the ledger has valid Sell rows, nor more
      than it has valid Buy rows; in particular a ledger without a valid Sell
      or without a valid Buy ends with no pairs. */
  lemma LoggedTradesBounded(data: seq<seq<string>>, parsePrice: string -> Option<int>,
                            parseDate: string -> Option<int>)
    requires |data| > 1 && Rectangular(data)
    requires ReadEntries(data, parsePrice, parseDate).Success?
    ensures var es := ReadEntries(data, parsePrice, parseDate).value;
            var o := LogSummaryMetrics(data, parsePrice, parseDate);
            && (o.Logged? || o.NoPairs?)
            && (o.Logged? ==> |o.trades| <= CountAction(es, Sell) && |o.trades| <= CountAction(es, Buy))
            && (CountAction(es, Sell) == 0 || CountAction(es, Buy) == 0 ==> o.NoPairs?)
  {
    var es := ReadEntries(data, parsePrice, parseDate).value;
    var sorted := SortByDate(es);
    SortKeepsCounts(es, Sell);
    SortKeepsCounts(es, Buy);
  }

  /** On every readable ledger, a run logs trades exactly when the reference
      definition of the pairing expects some from the date-sorted entries;
      it then logs exactly those, in that order, and each pairs a Buy row
      with a later Sell row of the same stock. */
  lemma LoggedTradesArePairs(data: seq<seq<string>>, parsePrice: string -> Option<int>,
                             parseDate: string -> Option<int>)
    requires |data| > 1 && Rectangular(data)
    requires ReadEntries(data, parsePrice, parseDate).Success?
    ensures var sorted := SortByDate(ReadEntries(data, parsePrice, parseDate).value);
            var o := LogSummaryMetrics(data, parsePrice, parseDate);
            && (o.Logged? <==> ExpectedTrades(sorted) != [])
            && (o.Logged? ==> o.trades == ExpectedTrades(sorted))
            && (o.Logged? ==> forall k :: 0 <= k < |o.trades| ==> Traceable(sorted, o.trades[k]))
  {
    var sorted := SortByDate(ReadEntries(data, parsePrice, parseDate).value);
    TradesTraceable(sorted);
  }

  // ---------------------------------------------------------------------
  // The two summary sheets, cleared and rewritten on a logged run.

  datatype Cell = Text(text: string) | Number(value: int) | Ratio(ratio: real)

  const TradesHeader := [Text("Buy Date"), Text("Sell Date"), Text("Stock"),
                         Text("Buy Price"), Text("Sell Price"), Text("P&L")]
  const SummaryHeader := [Text("Total Trades"), Text("Winning Trades"),
                          Text("Win Ratio (%)"), Text("Total P&L")]

  function TradeRow(t: Trade): seq<Cell> {
    [Number(t.buyDate), Number(t.sellDate), Text(t.stock),
     Number(t.buyPrice), Number(t.sellPrice), Number(t.pnl)]
  }

  /** The field of `t` that the trades column titled `title` holds. */
  function FieldTitled(t: Trade, title: string): Option<Cell> {
    if title == "Buy Date" then Some(Number(t.buyDate))
    else if title == "Sell Date" then Some(Number(t.sellDate))
    else if title == "Stock" then Some(Text(t.stock))
    else if title == "Buy Price" then Some(Number(t.buyPrice))
    else if title == "Sell Price" then Some(Number(t.sellPrice))
    else if title == "P&L" then Some(Number(t.pnl))
    else None
  }

  /** The `Summary_PnL` sheet: the header, then one row per trade in the
      order the pass emitted them, each field under the column that names
      it. */
  function TradesSheet(ts: seq<Trade>): (rows: seq<seq<Cell>>)
    ensures |rows| == |ts| + 1 && rows[0] == TradesHeader
    ensures forall k :: 0 <= k < |ts| ==> rows[k + 1] == TradeRow(ts[k])
    ensures forall k :: 0 < k < |rows| ==> |rows[k]| == |TradesHeader|
    ensures forall k, i :: 0 <= k < |ts| && 0 <= i < |TradesHeader| ==>
              FieldTitled(ts[k], TradesHeader[i].text) == Some(rows[k + 1][i])
  {
    [TradesHeader] + seq(|ts|, k requires 0 <= k < |ts| => TradeRow(ts[k]))
  }

  /** The figure of `m` that the summary column titled `title` holds. */
  function FigureTitled(m: Summary, title: string): Option<Cell> {
    if title == "Total Trades" then Some(Number(m.totalTrades))
    else if title == "Winning Trades" then Some(Number(m.winningTrades))
    else if title == "Win Ratio (%)" then Some(Ratio(m.winRatio))
    else if title == "Total P&L" then Some(Number(m.totalPnl))
    else None
  }

  /** The `Win_Ratio` sheet: the header and one row of totals, each under the
      column that names it. */
  function SummarySheet(m: Summary): (rows: seq<seq<Cell>>)
    ensures |rows| == 2 && rows[0] == SummaryHeader && |rows[1]| == |SummaryHeader|
    ensures forall i :: 0 <= i < |SummaryHeader| ==> FigureTitled(m, SummaryHeader[i].text) == Some(rows[1][i])
  {
    [SummaryHeader,
     [Number(m.totalTrades), Number(m.winningTrades), Ratio(m.winRatio), Number(m.totalPnl)]]
  }
}
