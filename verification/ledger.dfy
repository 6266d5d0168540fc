/** The signal ledger as the reconciliation reads it back: a header row and
    data rows of text cells, coerced into dated, priced entries. */
module Ledger {
  import opened Basics
  import PyText

  /** What a signal cell asks for once trimmed and lower-cased. */
  datatype Action = Buy | Sell | Ignored

  function ActionOf(signal: string): (a: Action)
    ensures a.Buy? <==> PyText.Normalize(signal) == "buy"
    ensures a.Sell? <==> PyText.Normalize(signal) == "sell"
  {
    var n := PyText.Normalize(signal);
    if n == "buy" then Buy else if n == "sell" then Sell else Ignored
  }

  /** A ledger row whose `Close` and `Date` cells both coerced, with its signal
      cell already classified. Prices are in minor currency units and dates
      are day numbers. */
  datatype Entry = Entry(stock: string, date: int, action: Action, price: int)

  predicate SortedByDate(es: seq<Entry>) {
    forall i, j :: 0 <= i < j < |es| ==> es[i].date <= es[j].date
  }

  /** Number of entries whose signal asks for `a`. */
  function CountAction(es: seq<Entry>, a: Action): nat {
    if es == [] then 0
    else CountAction(es[..|es| - 1], a) + (if es[|es| - 1].action == a then 1 else 0)
  }

  lemma {:induction false} CountActionAppend(xs: seq<Entry>, ys: seq<Entry>, a: Action)
    ensures CountAction(xs + ys, a) == CountAction(xs, a) + CountAction(ys, a)
    decreases |ys|
  {
    if ys != [] {
      assert (xs + ys)[..|xs + ys| - 1] == xs + ys[..|ys| - 1];
      CountActionAppend(xs, ys[..|ys| - 1], a);
    } else {
      assert xs + ys == xs;
    }
  }

  // Header names of the ledger columns the reconciliation reads.
  const StockColumn := "Stock"
  const DateColumn := "Date"
  const SignalColumn := "Signal"
  const CloseColumn := "Close"

  /** Position of the first header cell equal to `name`, if any: the column
      `df[name]` selects. */
  function IndexOf(header: seq<string>, name: string): (r: Option<nat>)
    ensures r.None? <==> name !in header
    ensures r.Some? ==> r.value < |header| && header[r.value] == name
                        && name !in header[..r.value]
  {
    if header == [] then None
    else if header[0] == name then Some(0)
    else match IndexOf(header[1..], name)
      case None => None
      case Some(k) =>
        assert header[..k + 1] == [header[0]] + header[1..][..k];
        Some(k + 1)
  }

  /** Every row of the grid has as many cells as the header. */
  predicate Rectangular(data: seq<seq<string>>) {
    forall i :: 0 <= i < |data| ==> |data[i]| == |data[0]|
  }

  /** A data row whose price and date coerced, kept together with its cells. */
  datatype Parsed = Parsed(cells: seq<string>, date: int, price: int)

  /** Coercion of one row: `to_numeric` on the close cell and `to_datetime` on
      the date cell, either of which may fail. */
  function Coerce(row: seq<string>, closeAt: nat, dateAt: nat,
                  parsePrice: string -> Option<int>, parseDate: string -> Option<int>): Option<Parsed>
    requires closeAt < |row| && dateAt < |row|
  {
    match (parsePrice(row[closeAt]), parseDate(row[dateAt]))
    case (Some(p), Some(d)) => Some(Parsed(row, d, p))
    case _ => None
  }

  /** The rows that survive `dropna` on `Close` and `Date`, in ledger order. */
  function Survivors(rows: seq<seq<string>>, closeAt: nat, dateAt: nat,
                     parsePrice: string -> Option<int>, parseDate: string -> Option<int>): (r: seq<Parsed>)
    requires forall i :: 0 <= i < |rows| ==> closeAt < |rows[i]| && dateAt < |rows[i]|
    ensures |r| <= |rows|
    ensures forall k :: 0 <= k < |r| ==> exists i :: 0 <= i < |rows| && Coerce(rows[i], closeAt, dateAt, parsePrice, parseDate) == Some(r[k])
  {
    if rows == [] then []
    else
      var init := Survivors(rows[..|rows| - 1], closeAt, dateAt, parsePrice, parseDate);
      match Coerce(rows[|rows| - 1], closeAt, dateAt, parsePrice, parseDate)
      case Some(p) => init + [p]
      case None => init
  }

  lemma {:induction false} SurvivorsAppend(xs: seq<seq<string>>, ys: seq<seq<string>>, closeAt: nat, dateAt: nat,
                                           parsePrice: string -> Option<int>, parseDate: string -> Option<int>)
    requires forall i :: 0 <= i < |xs| ==> closeAt < |xs[i]| && dateAt < |xs[i]|
    requires forall i :: 0 <= i < |ys| ==> closeAt < |ys[i]| && dateAt < |ys[i]|
    ensures Survivors(xs + ys, closeAt, dateAt, parsePrice, parseDate)
         == Survivors(xs, closeAt, dateAt, parsePrice, parseDate) + Survivors(ys, closeAt, dateAt, parsePrice, parseDate)
    decreases |ys|
  {
    if ys == [] {
      assert xs + ys == xs;
    } else {
      assert (xs + ys)[..|xs + ys| - 1] == xs + ys[..|ys| - 1];
      SurvivorsAppend(xs, ys[..|ys| - 1], closeAt, dateAt, parsePrice, parseDate);
    }
  }

  /** A row takes part in pairing exactly when both of its coercions succeed:
      the surviving rows of `rows + [row]` are those of `rows`, followed by
      `row` itself if and only if its price and date parse. */
  lemma DropsExactlyUnparsable(rows: seq<seq<string>>, row: seq<string>, closeAt: nat, dateAt: nat,
                               parsePrice: string -> Option<int>, parseDate: string -> Option<int>)
    requires forall i :: 0 <= i < |rows| ==> closeAt < |rows[i]| && dateAt < |rows[i]|
    requires closeAt < |row| && dateAt < |row|
    ensures var before := Survivors(rows, closeAt, dateAt, parsePrice, parseDate);
            var after := Survivors(rows + [row], closeAt, dateAt, parsePrice, parseDate);
            && (parsePrice(row[closeAt]).Some? && parseDate(row[dateAt]).Some? <==> |after| == |before| + 1)
            && (|after| == |before| + 1 ==> after[|before|] == Parsed(row, parseDate(row[dateAt]).value, parsePrice(row[closeAt]).value))
            && (|after| != |before| + 1 ==> after == before)
  {
    SurvivorsAppend(rows, [row], closeAt, dateAt, parsePrice, parseDate);
    assert Survivors([row], closeAt, dateAt, parsePrice, parseDate)
        == (match Coerce(row, closeAt, dateAt, parsePrice, parseDate) case Some(p) => [p] case None => []) by {
      assert [row][..0] == [];
    }
  }

  /** An entry built from a surviving row, reading `Stock` and classifying
      `Signal`. */
  function ToEntry(p: Parsed, stockAt: nat, signalAt: nat): Entry
    requires stockAt < |p.cells| && signalAt < |p.cells|
  {
    Entry(p.cells[stockAt], p.date, ActionOf(p.cells[signalAt]), p.price)
  }

  function ToEntries(ps: seq<Parsed>, stockAt: nat, signalAt: nat): (es: seq<Entry>)
    requires forall i :: 0 <= i < |ps| ==> stockAt < |ps[i].cells| && signalAt < |ps[i].cells|
    ensures |es| == |ps|
    ensures forall i :: 0 <= i < |ps| ==> es[i] == ToEntry(ps[i], stockAt, signalAt)
  {
    seq(|ps|, i requires 0 <= i < |ps| => ToEntry(ps[i], stockAt, signalAt))
  }
}
