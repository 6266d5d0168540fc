/** Logging freshly generated signals: the rows appended to the ledger and
    the Buy alerts sent for them. */
module Alerts {
  import PyText
  import opened Ledger

  /** One row of the generator's signal frame: its index date (already
      rendered as text), its `Signal` and its `Close`. */
  datatype SignalPoint = SignalPoint(date: string, signal: string, close: int)

  /** A ledger row as appended: log timestamp, stock, date, signal, close. */
  datatype LogRow = LogRow(loggedAt: string, stock: string, date: string, signal: string, close: int)

  /** What a Buy alert tells: the stock, the signal date and the price. */
  datatype Alert = Alert(stock: string, date: string, price: int)

  /** The rows built from a signal frame, all stamped with the same time. */
  function BuildRows(now: string, stock: string, points: seq<SignalPoint>): (rows: seq<LogRow>)
    ensures |rows| == |points|
    ensures forall i :: 0 <= i < |points| ==>
              rows[i] == LogRow(now, stock, points[i].date, points[i].signal, points[i].close)
  {
    seq(|points|, i requires 0 <= i < |points| => LogRow(now, stock, points[i].date, points[i].signal, points[i].close))
  }

  predicate IsBuyRow(r: LogRow) {
    ActionOf(r.signal).Buy?
  }

  function AlertOf(r: LogRow): Alert {
    Alert(r.stock, r.date, r.close)
  }

  /** Alerts for the rows `keep` selects, in row order. */
  function Select(rows: seq<LogRow>, keep: LogRow -> bool): (alerts: seq<Alert>)
    ensures |alerts| <= |rows|
    ensures forall a :: a in alerts ==> exists i :: 0 <= i < |rows| && keep(rows[i]) && a == AlertOf(rows[i])
  {
    if rows == [] then []
    else
      var last := rows[|rows| - 1];
      Select(rows[..|rows| - 1], keep) + (if keep(last) then [AlertOf(last)] else [])
  }

  /** Alerts of consecutive batches come out batch by batch. */
  lemma {:induction false} SelectAppend(xs: seq<LogRow>, ys: seq<LogRow>, keep: LogRow -> bool)
    ensures Select(xs + ys, keep) == Select(xs, keep) + Select(ys, keep)
    decreases |ys|
  {
    if ys == [] {
      assert xs + ys == xs;
    } else {
      assert (xs + ys)[..|xs + ys| - 1] == xs + ys[..|ys| - 1];
      SelectAppend(xs, ys[..|ys| - 1], keep);
    }
  }

  /** Positions of the rows `keep` selects. */
  function Positions(rows: seq<LogRow>, keep: LogRow -> bool): set<int> {
    set i | 0 <= i < |rows| && keep(rows[i])
  }

  /** Exactly one alert per selected row. */
  lemma {:induction false} SelectCount(rows: seq<LogRow>, keep: LogRow -> bool)
    ensures |Select(rows, keep)| == |Positions(rows, keep)|
  {
    if rows != [] {
      var n := |rows| - 1;
      var init := rows[..n];
      SelectCount(init, keep);
      assert forall i :: 0 <= i < n ==> init[i] == rows[i];
      if keep(rows[n]) {
        assert Positions(rows, keep) == Positions(init, keep) + {n};
      } else {
        assert Positions(rows, keep) == Positions(init, keep);
      }
    }
  }

  /** Every selected row yields its alert: nothing is skipped. */
  lemma {:induction false} SelectKeepsAll(rows: seq<LogRow>, keep: LogRow -> bool, i: int)
    requires 0 <= i < |rows| && keep(rows[i])
    ensures AlertOf(rows[i]) in Select(rows, keep)
  {
    assert rows == rows[..i] + [rows[i]] + rows[i + 1..];
    SelectAppend(rows[..i] + [rows[i]], rows[i + 1..], keep);
    SelectAppend(rows[..i], [rows[i]], keep);
    assert [rows[i]][..0] == [];
  }

  /** One alert per appended row whose signal is a Buy, in row order. */
  function BuyAlerts(rows: seq<LogRow>): (alerts: seq<Alert>)
    ensures |alerts| == |Positions(rows, IsBuyRow)|
    ensures forall i :: 0 <= i < |rows| && IsBuyRow(rows[i]) ==> AlertOf(rows[i]) in alerts
    ensures forall a :: a in alerts ==> exists i :: 0 <= i < |rows| && IsBuyRow(rows[i]) && a == AlertOf(rows[i])
  {
    SelectCount(rows, IsBuyRow);
    forall i | 0 <= i < |rows| && IsBuyRow(rows[i]) ensures AlertOf(rows[i]) in Select(rows, IsBuyRow) {
      SelectKeepsAll(rows, IsBuyRow, i);
    }
    Select(rows, IsBuyRow)
  }

  /** Alerts of consecutive batches come out batch by batch, so alerts keep
      the order of their rows. */
  lemma BuyAlertsAppend(xs: seq<LogRow>, ys: seq<LogRow>)
    ensures BuyAlerts(xs + ys) == BuyAlerts(xs) + BuyAlerts(ys)
  {
    SelectAppend(xs, ys, IsBuyRow);
  }

  /** A row is alerted on exactly when its signal, trimmed and lower-cased,
      reads "buy": any case, any surrounding whitespace. */
  lemma BuyRowIffPaddedBuy(r: LogRow)
    ensures IsBuyRow(r) <==> exists i :: PyText.PaddedAt(r.signal, i, "buy")
  {
    PyText.NormalizeMatches(r.signal, "buy");
  }

  /** The appended rows selected as Buys sit at the positions of the Buy
      signals. */
  lemma BuyPositionsArePoints(now: string, stock: string, points: seq<SignalPoint>)
    ensures Positions(BuildRows(now, stock, points), IsBuyRow)
         == set i | 0 <= i < |points| && ActionOf(points[i].signal).Buy?
  {
    var rows := BuildRows(now, stock, points);
    assert forall i :: 0 <= i < |points| ==> rows[i].signal == points[i].signal;
  }

  /** What one call appends and which alerts it sends. */
  datatype Appended = Appended(appended: seq<LogRow>, alerts: seq<Alert>)

  /** `log_to_google_sheets`: append one row per signal, then alert on the
      Buys among the appended rows only; with no signals nothing is appended
      and nothing sent. */
  function LogToSheets(now: string, stock: string, points: seq<SignalPoint>): (r: Appended)
    ensures r.appended == BuildRows(now, stock, points)
    ensures r.alerts == BuyAlerts(r.appended)
    ensures |r.alerts| == |set i | 0 <= i < |points| && ActionOf(points[i].signal).Buy?|
    ensures |r.appended| == |points|
    ensures forall i :: 0 <= i < |points| ==>
              r.appended[i].stock == stock && r.appended[i].loggedAt == now
              && r.appended[i].signal == points[i].signal
    ensures points == [] ==> r.alerts == []
    ensures forall i :: 0 <= i < |points| && ActionOf(points[i].signal).Buy? ==>
              Alert(stock, points[i].date, points[i].close) in r.alerts
    ensures forall a :: a in r.alerts ==>
              a.stock == stock && exists i :: 0 <= i < |points| && ActionOf(points[i].signal).Buy?
                                            && a == Alert(stock, points[i].date, points[i].close)
  {
    var rows := BuildRows(now, stock, points);
    if rows == [] then Appended([], [])
    else
      var alerts := BuyAlerts(rows);
      forall i | 0 <= i < |points| && ActionOf(points[i].signal).Buy?
        ensures Alert(stock, points[i].date, points[i].close) in alerts
      {
        assert IsBuyRow(rows[i]);
      }
      BuyPositionsArePoints(now, stock, points);
      Appended(rows, alerts)
  }
}
