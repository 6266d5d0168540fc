/** The Buy/Sell pairing pass of the reconciliation: a walk over the entries
    that keeps at most one pending buy per stock and emits a closed trade on
    every Sell that finds one. */
module Pairing {
  import opened Basics
  import opened Ledger

  /** A closed round trip; `pnl` is the sell price minus the buy price. */
  datatype Trade = Trade(stock: string, buyDate: int, sellDate: int,
                         buyPrice: int, sellPrice: int, pnl: int)

  /** The pending buy of each stock, as (date, price). */
  type Positions = map<string, (int, int)>

  /** The state of the walk: the open positions and the trades so far. */
  datatype Pass = Pass(open: Positions, trades: seq<Trade>)

  /** One row of the walk. A Buy replaces the stock's pending buy, a Sell
      closes it when there is one, anything else changes nothing; no step
      touches another stock's position. */
  function Step(p: Pass, e: Entry): (r: Pass)
    ensures e.action.Buy? ==>
              && e.stock in r.open && r.open[e.stock] == (e.date, e.price)
              && r.trades == p.trades
    ensures e.action.Sell? && e.stock in p.open ==>
              && e.stock !in r.open
              && |r.trades| == |p.trades| + 1 && r.trades[..|p.trades|] == p.trades
              && var t := r.trades[|p.trades|];
                 && t.stock == e.stock
                 && (t.buyDate, t.buyPrice) == p.open[e.stock]
                 && t.sellDate == e.date && t.sellPrice == e.price
                 && t.pnl == t.sellPrice - t.buyPrice
    ensures e.action.Ignored? || (e.action.Sell? && e.stock !in p.open) ==> r == p
    ensures forall s :: s != e.stock ==>
              && (s in r.open <==> s in p.open)
              && (s in r.open ==> r.open[s] == p.open[s])
  {
    match e.action
    case Buy => Pass(p.open[e.stock := (e.date, e.price)], p.trades)
    case Sell =>
      if e.stock in p.open then
        var (buyDate, buyPrice) := p.open[e.stock];
        var t := Trade(e.stock, buyDate, e.date, buyPrice, e.price, e.price - buyPrice);
        assert (p.trades + [t])[..|p.trades|] == p.trades;
        Pass(p.open - {e.stock}, p.trades + [t])
      else p
    case Ignored => p
  }

  /** The walk over `es` in order, from no open positions and no trades. */
  function Walk(es: seq<Entry>): Pass {
    if es == [] then Pass(map[], []) else Step(Walk(es[..|es| - 1]), es[|es| - 1])
  }

  /** The pairing loop as written: a mutable map and a growing trade list. */
  method PairTrades(es: seq<Entry>) returns (trades: seq<Trade>, open: Positions)
    ensures trades == ExpectedTrades(es)
    ensures forall s :: s in open <==> PendingBuy(es, s).Some?
    ensures forall s :: s in open ==> open[s] == PendingBuy(es, s).value
  {
    trades, open := [], map[];
    for i := 0 to |es|
      invariant Pass(open, trades) == Walk(es[..i])
    {
      var e := es[i];
      assert es[..i + 1][..i] == es[..i];
      match e.action {
        case Buy =>
          open := open[e.stock := (e.date, e.price)];
        case Sell =>
          if e.stock in open {
            var (buyDate, buyPrice) := open[e.stock];
            open := open - {e.stock};
            trades := trades + [Trade(e.stock, buyDate, e.date, buyPrice, e.price, e.price - buyPrice)];
          }
        case Ignored =>
      }
    }
    assert es[..|es|] == es;
    TradesMatchExpected(es);
    forall s ensures (s in open <==> PendingBuy(es, s).Some?) && (s in open ==> open[s] == PendingBuy(es, s).value) {
      OpenMatchesPending(es, s);
    }
  }

  // ---------------------------------------------------------------------
  // A reference definition of the pairing that looks back along the rows
  // instead of carrying a map.

  /** The latest Buy or Sell row of stock `s` in `es`, if there is one. */
  function LastMove(es: seq<Entry>, s: string): (r: Option<Entry>)
    ensures r.Some? ==> r.value in es && r.value.stock == s && !r.value.action.Ignored?
  {
    if es == [] then None
    else
      var e := es[|es| - 1];
      if e.stock == s && !e.action.Ignored? then Some(e) else LastMove(es[..|es| - 1], s)
  }

  /** Stock `s` has a pending buy after `es` exactly when its latest move is a
      Buy, and that Buy's date and price are what is pending. */
  function PendingBuy(es: seq<Entry>, s: string): Option<(int, int)> {
    match LastMove(es, s)
    case Some(e) => if e.action.Buy? then Some((e.date, e.price)) else None
    case None => None
  }

  /** The trade a row closes after the rows `before` it: one exactly when it
      is a Sell and its stock has a pending buy. */
  function ClosedBy(before: seq<Entry>, e: Entry): seq<Trade> {
    match PendingBuy(before, e.stock)
    case Some((d, p)) => if e.action.Sell? then [Trade(e.stock, d, e.date, p, e.price, e.price - p)] else []
    case None => []
  }

  function ExpectedTrades(es: seq<Entry>): seq<Trade> {
    if es == [] then [] else ExpectedTrades(es[..|es| - 1]) + ClosedBy(es[..|es| - 1], es[|es| - 1])
  }

  /** After the walk, a stock has an open position exactly when the reference
      says it has a pending buy, and at that buy's date and price. */
  lemma {:induction false} OpenMatchesPending(es: seq<Entry>, s: string)
    ensures s in Walk(es).open <==> PendingBuy(es, s).Some?
    ensures s in Walk(es).open ==> Walk(es).open[s] == PendingBuy(es, s).value
  {
    if es != [] {
      OpenMatchesPending(es[..|es| - 1], s);
    }
  }

  /** The walk emits exactly the trades the reference expects, in order. */
  lemma {:induction false} TradesMatchExpected(es: seq<Entry>)
    ensures Walk(es).trades == ExpectedTrades(es)
  {
    if es != [] {
      var init, e := es[..|es| - 1], es[|es| - 1];
      TradesMatchExpected(init);
      OpenMatchesPending(init, e.stock);
      ClosesWhatReferenceExpects(Walk(init), init, e);
    }
  }

  /** One step from a state that agrees with the reference on `before`
      appends exactly the trade the reference says `e` closes. */
  lemma ClosesWhatReferenceExpects(p: Pass, before: seq<Entry>, e: Entry)
    requires e.stock in p.open <==> PendingBuy(before, e.stock).Some?
    requires e.stock in p.open ==> p.open[e.stock] == PendingBuy(before, e.stock).value
    ensures Step(p, e).trades == p.trades + ClosedBy(before, e)
  {
  }

  // ---------------------------------------------------------------------
  // Counting.

  /** Every trade consumes one Sell row, and every trade or open position
      consumes one Buy row. */
  lemma {:induction false} TradeCountBounds(es: seq<Entry>)
    ensures |Walk(es).trades| <= CountAction(es, Sell)
    ensures |Walk(es).trades| + |Walk(es).open| <= CountAction(es, Buy)
  {
    if es != [] {
      var init, e := es[..|es| - 1], es[|es| - 1];
      TradeCountBounds(init);
      var p := Walk(init);
      var r := Walk(es);
      match e.action
      case Buy =>
        assert r.open.Keys == p.open.Keys + {e.stock};
      case Sell =>
        if e.stock in p.open {
          assert r.open.Keys == p.open.Keys - {e.stock};
        }
      case Ignored =>
    }
  }

  /** The pairing pass over `es`: the walk, whose trades are exactly the
      reference's, and which emits at most one trade per valid Sell and at
      most one trade or open position per valid Buy. */
  function Run(es: seq<Entry>): (r: Pass)
    ensures r.trades == ExpectedTrades(es)
    ensures |r.trades| <= CountAction(es, Sell)
    ensures |r.trades| + |r.open| <= CountAction(es, Buy)
  {
    TradesMatchExpected(es);
    TradeCountBounds(es);
    Walk(es)
  }

  // ---------------------------------------------------------------------
  // Dates.

  predicate OnOrBefore(es: seq<Entry>, d: int) {
    forall i :: 0 <= i < |es| ==> es[i].date <= d
  }

  /** Nothing the walk produces is dated after the rows it has read. */
  lemma {:induction false} DatesWithin(es: seq<Entry>, d: int)
    requires OnOrBefore(es, d)
    ensures forall s :: s in Walk(es).open ==> Walk(es).open[s].0 <= d
    ensures forall k :: 0 <= k < |Walk(es).trades| ==>
              Walk(es).trades[k].buyDate <= d && Walk(es).trades[k].sellDate <= d
  {
    if es != [] {
      var init, e := es[..|es| - 1], es[|es| - 1];
      DatesWithin(init, d);
    }
  }

  /** Walked in ascending date order, every trade is bought no later than it
      is sold, and trades come out in order of their sell dates. */
  lemma {:induction false} TradesInDateOrder(es: seq<Entry>)
    requires SortedByDate(es)
    ensures forall k :: 0 <= k < |Walk(es).trades| ==>
              Walk(es).trades[k].buyDate <= Walk(es).trades[k].sellDate
    ensures forall k, l :: 0 <= k < l < |Walk(es).trades| ==>
              Walk(es).trades[k].sellDate <= Walk(es).trades[l].sellDate
  {
    if es != [] {
      var init, e := es[..|es| - 1], es[|es| - 1];
      TradesInDateOrder(init);
      DatesWithin(init, e.date);
    }
  }

  // ---------------------------------------------------------------------
  // Stocks are paired independently.

  /** The rows of stock `s`, in order. */
  function OfStock(es: seq<Entry>, s: string): seq<Entry> {
    if es == [] then []
    else OfStock(es[..|es| - 1], s) + (if es[|es| - 1].stock == s then [es[|es| - 1]] else [])
  }

  /** The trades of stock `s`, in order. */
  function TradesOf(ts: seq<Trade>, s: string): seq<Trade> {
    if ts == [] then []
    else TradesOf(ts[..|ts| - 1], s) + (if ts[|ts| - 1].stock == s then [ts[|ts| - 1]] else [])
  }

  /** Rows of other stocks, wherever they fall between a stock's rows, change
      nothing about that stock: its trades and its pending buy are those of a
      walk over its own rows alone. */
  lemma {:induction false} StocksIndependent(es: seq<Entry>, s: string)
    ensures TradesOf(Walk(es).trades, s) == Walk(OfStock(es, s)).trades
    ensures s in Walk(es).open <==> s in Walk(OfStock(es, s)).open
    ensures s in Walk(es).open ==> Walk(es).open[s] == Walk(OfStock(es, s)).open[s]
  {
    if es != [] {
      var init, e := es[..|es| - 1], es[|es| - 1];
      StocksIndependent(init, s);
      assert es == init + [e];
      if e.stock == s {
        OwnStockStep(init, e, s);
      } else {
        OtherStockStep(init, e, s);
      }
    }
  }

  /** The trades of `s` grow by the new trade only when that trade is of `s`. */
  lemma TradesOfStep(p: Pass, e: Entry, s: string)
    ensures TradesOf(Step(p, e).trades, s)
         == TradesOf(p.trades, s) + (if Step(p, e).trades == p.trades || e.stock != s then []
                                     else [Step(p, e).trades[|p.trades|]])
  {
    var r := Step(p, e);
    if r.trades != p.trades {
      var t := r.trades[|p.trades|];
      assert r.trades == p.trades + [t];
      assert r.trades[..|r.trades| - 1] == p.trades;
    }
  }

  lemma OtherStockStep(init: seq<Entry>, e: Entry, s: string)
    requires e.stock != s
    requires TradesOf(Walk(init).trades, s) == Walk(OfStock(init, s)).trades
    requires s in Walk(init).open <==> s in Walk(OfStock(init, s)).open
    requires s in Walk(init).open ==> Walk(init).open[s] == Walk(OfStock(init, s)).open[s]
    ensures var es := init + [e];
            && TradesOf(Walk(es).trades, s) == Walk(OfStock(es, s)).trades
            && (s in Walk(es).open <==> s in Walk(OfStock(es, s)).open)
            && (s in Walk(es).open ==> Walk(es).open[s] == Walk(OfStock(es, s)).open[s])
  {
    var es := init + [e];
    assert es[..|es| - 1] == init;
    assert OfStock(es, s) == OfStock(init, s) + [] == OfStock(init, s);
    TradesOfStep(Walk(init), e, s);
  }

  lemma OwnStockStep(init: seq<Entry>, e: Entry, s: string)
    requires e.stock == s
    requires TradesOf(Walk(init).trades, s) == Walk(OfStock(init, s)).trades
    requires s in Walk(init).open <==> s in Walk(OfStock(init, s)).open
    requires s in Walk(init).open ==> Walk(init).open[s] == Walk(OfStock(init, s)).open[s]
    ensures var es := init + [e];
            && TradesOf(Walk(es).trades, s) == Walk(OfStock(es, s)).trades
            && (s in Walk(es).open <==> s in Walk(OfStock(es, s)).open)
            && (s in Walk(es).open ==> Walk(es).open[s] == Walk(OfStock(es, s)).open[s])
  {
    var es := init + [e];
    assert es[..|es| - 1] == init;
    var own := OfStock(init, s);
    assert OfStock(es, s) == own + [e];
    assert (own + [e])[..|own + [e]| - 1] == own;
    var p, q := Walk(init), Walk(own);
    assert Walk(own + [e]) == Step(q, e);
    TradesOfStep(p, e, s);
    if e.action.Sell? && e.stock in p.open {
      assert q.open[s] == p.open[s];
    }
  }

  // ---------------------------------------------------------------------
  // Every trade pairs a Buy row with a later Sell row of the same stock.

  predicate Traceable(es: seq<Entry>, t: Trade) {
    exists i, j :: 0 <= i < j < |es|
      && es[i] == Entry(t.stock, t.buyDate, Buy, t.buyPrice)
      && es[j] == Entry(t.stock, t.sellDate, Sell, t.sellPrice)
  }

  lemma {:induction false} TradesTraceable(es: seq<Entry>)
    ensures forall s :: s in Walk(es).open ==>
              exists i :: 0 <= i < |es| && es[i] == Entry(s, Walk(es).open[s].0, Buy, Walk(es).open[s].1)
    ensures forall k :: 0 <= k < |Walk(es).trades| ==>
              && Traceable(es, Walk(es).trades[k])
              && Walk(es).trades[k].pnl == Walk(es).trades[k].sellPrice - Walk(es).trades[k].buyPrice
  {
    if es != [] {
      var init, e := es[..|es| - 1], es[|es| - 1];
      TradesTraceable(init);
      var p := Walk(init);
      var r := Walk(es);
      forall s | s in r.open
        ensures exists i :: 0 <= i < |es| && es[i] == Entry(s, r.open[s].0, Buy, r.open[s].1)
      {
        if s == e.stock && e.action.Buy? {
          assert es[|es| - 1] == Entry(s, r.open[s].0, Buy, r.open[s].1);
        } else {
          var i :| 0 <= i < |init| && init[i] == Entry(s, p.open[s].0, Buy, p.open[s].1);
          assert es[i] == init[i];
        }
      }
      forall k | 0 <= k < |r.trades|
        ensures Traceable(es, r.trades[k])
      {
        var t := r.trades[k];
        if k < |p.trades| {
          assert t == p.trades[k];
          var i, j :| 0 <= i < j < |init|
            && init[i] == Entry(t.stock, t.buyDate, Buy, t.buyPrice)
            && init[j] == Entry(t.stock, t.sellDate, Sell, t.sellPrice);
          assert es[i] == init[i] && es[j] == init[j];
        } else {
          var i :| 0 <= i < |init| && init[i] == Entry(e.stock, p.open[e.stock].0, Buy, p.open[e.stock].1);
          assert es[i] == init[i];
          assert es[|es| - 1] == Entry(t.stock, t.sellDate, Sell, t.sellPrice);
        }
      }
    }
  }

  // ---------------------------------------------------------------------
  // Worked ledgers.

  /** Buy A at 10 on day d1, Sell A at 15 on day d2: one trade with P&L 5. */
  lemma BuyThenSell(d1: int, d2: int)
    ensures Walk([Entry("A", d1, Buy, 10), Entry("A", d2, Sell, 15)]).trades
         == [Trade("A", d1, d2, 10, 15, 5)]
  {
    var es := [Entry("A", d1, Buy, 10), Entry("A", d2, Sell, 15)];
    assert es[..1] == [es[0]] && [es[0]][..0] == [];
    assert Walk(es[..1]) == Pass(map["A" := (d1, 10)], []);
  }

  /** A second Buy replaces the first: Buy A at 10, Buy A at 12, Sell A at 20
      closes the second buy with P&L 8. */
  lemma RepeatedBuyReplaces(d1: int, d2: int, d3: int)
    ensures Walk([Entry("A", d1, Buy, 10), Entry("A", d2, Buy, 12), Entry("A", d3, Sell, 20)]).trades
         == [Trade("A", d2, d3, 12, 20, 8)]
  {
    var es := [Entry("A", d1, Buy, 10), Entry("A", d2, Buy, 12), Entry("A", d3, Sell, 20)];
    assert es[..2] == [es[0], es[1]] && [es[0], es[1]][..1] == [es[0]] && [es[0]][..0] == [];
    assert Walk([es[0]]) == Pass(map["A" := (d1, 10)], []);
    assert Walk(es[..2]) == Pass(map["A" := (d2, 12)], []);
  }

  /** A Sell with nothing pending produces no trade and opens nothing. */
  lemma UnmatchedSell(d: int)
    ensures Walk([Entry("A", d, Sell, 10)]) == Pass(map[], [])
  {
    assert [Entry("A", d, Sell, 10)][..0] == [];
  }

  /** Interleaved stocks do not pair with each other: Buy A, Sell B, Sell A
      closes only A, and B's sell is dropped. */
  lemma InterleavedStocks(d1: int, d2: int, d3: int)
    ensures Walk([Entry("A", d1, Buy, 10), Entry("B", d2, Sell, 30), Entry("A", d3, Sell, 11)]).trades
         == [Trade("A", d1, d3, 10, 11, 1)]
  {
    var es := [Entry("A", d1, Buy, 10), Entry("B", d2, Sell, 30), Entry("A", d3, Sell, 11)];
    assert es[..2] == [es[0], es[1]] && [es[0], es[1]][..1] == [es[0]] && [es[0]][..0] == [];
    assert Walk([es[0]]) == Pass(map["A" := (d1, 10)], []);
    assert "B" !in map["A" := (d1, 10)];
    assert Walk(es[..2]) == Pass(map["A" := (d1, 10)], []);
  }
}
