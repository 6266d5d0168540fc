/** The summary computed over the closed trades: totals, wins, win ratio
    and total profit and loss. */
module Metrics {
  import opened Pairing

  datatype Summary = Summary(totalTrades: nat, winningTrades: nat, winRatio: real, totalPnl: int)

  /** Number of trades with a strictly positive profit. */
  function Wins(ts: seq<Trade>): (n: nat)
    ensures n <= |ts|
  {
    if ts == [] then 0 else Wins(ts[..|ts| - 1]) + (if ts[|ts| - 1].pnl > 0 then 1 else 0)
  }

  /** Positions of the winning trades. */
  function Winners(ts: seq<Trade>): set<int> {
    set k | 0 <= k < |ts| && ts[k].pnl > 0
  }

  /** The win count is the number of positions holding a winning trade. */
  lemma {:induction false} WinsCountsWinners(ts: seq<Trade>)
    ensures Wins(ts) == |Winners(ts)|
  {
    if ts != [] {
      var n := |ts| - 1;
      var init := ts[..n];
      WinsCountsWinners(init);
      assert forall k :: 0 <= k < n ==> init[k] == ts[k];
      if ts[n].pnl > 0 {
        assert Winners(ts) == Winners(init) + {n};
      } else {
        assert Winners(ts) == Winners(init);
      }
    }
  }

  /** Sum of the trades' profit and loss. */
  function TotalPnl(ts: seq<Trade>): int {
    if ts == [] then 0 else TotalPnl(ts[..|ts| - 1]) + ts[|ts| - 1].pnl
  }

  /** The total is never negative when no trade loses, and never positive
      when no trade wins. */
  lemma {:induction false} TotalPnlSign(ts: seq<Trade>)
    ensures (forall k :: 0 <= k < |ts| ==> ts[k].pnl >= 0) ==> TotalPnl(ts) >= 0
    ensures (forall k :: 0 <= k < |ts| ==> ts[k].pnl <= 0) ==> TotalPnl(ts) <= 0
  {
    if ts != [] {
      var init := ts[..|ts| - 1];
      TotalPnlSign(init);
      assert forall k :: 0 <= k < |init| ==> init[k] == ts[k];
    }
  }

  lemma {:induction false} WinsAppend(xs: seq<Trade>, ys: seq<Trade>)
    ensures Wins(xs + ys) == Wins(xs) + Wins(ys)
    ensures TotalPnl(xs + ys) == TotalPnl(xs) + TotalPnl(ys)
    decreases |ys|
  {
    if ys == [] {
      assert xs + ys == xs;
    } else {
      assert (xs + ys)[..|xs + ys| - 1] == xs + ys[..|ys| - 1];
      WinsAppend(xs, ys[..|ys| - 1]);
    }
  }

  /** Every trade is a win exactly when the win count is the trade count, and
      none is exactly when it is zero. */
  lemma {:induction false} WinsExtremes(ts: seq<Trade>)
    ensures Wins(ts) == |ts| <==> forall k :: 0 <= k < |ts| ==> ts[k].pnl > 0
    ensures Wins(ts) == 0 <==> forall k :: 0 <= k < |ts| ==> ts[k].pnl <= 0
  {
    if ts != [] {
      var init := ts[..|ts| - 1];
      WinsExtremes(init);
      assert forall k :: 0 <= k < |init| ==> init[k] == ts[k];
    }
  }

  /** The summary row: the trade count, the number of trades with a
      positive P&L, their share in percent and the summed P&L. Python rounds the ratio to two places; here it is
      exact. */
  function Summarize(ts: seq<Trade>): (m: Summary)
    requires ts != []
    ensures m.totalTrades == |ts|
    ensures m.winningTrades == |Winners(ts)| <= m.totalTrades
    ensures m.totalPnl == TotalPnl(ts)
    ensures 0.0 <= m.winRatio <= 100.0
    ensures m.winRatio * (|ts| as real) == (m.winningTrades as real) * 100.0
    ensures m.winRatio == 100.0 <==> forall k :: 0 <= k < |ts| ==> ts[k].pnl > 0
    ensures m.winRatio == 0.0 <==> forall k :: 0 <= k < |ts| ==> ts[k].pnl <= 0
  {
    var w := Wins(ts);
    WinsExtremes(ts);
    WinsCountsWinners(ts);
    Summary(|ts|, w, Percent(w, |ts|), TotalPnl(ts))
  }

  /** `w` out of `n` as a percentage: in [0, 100], and at its ends exactly
      when `w` is `n` or zero. */
  function Percent(w: nat, n: nat): (ratio: real)
    requires 0 < n && w <= n
    ensures ratio * (n as real) == (w as real) * 100.0
    ensures 0.0 <= ratio <= 100.0
    ensures ratio == 100.0 <==> w == n
    ensures ratio == 0.0 <==> w == 0
  {
    var ratio := (w as real) / (n as real) * 100.0;
    RatioFacts(w, n, ratio);
    ratio
  }

  /** `w / n * 100` lies in [0, 100], and hits its ends exactly when `w` is
      `n` or zero. */
  lemma RatioFacts(w: nat, n: nat, ratio: real)
    requires 0 < n && w <= n && ratio == (w as real) / (n as real) * 100.0
    ensures ratio * (n as real) == (w as real) * 100.0
    ensures 0.0 <= ratio <= 100.0
    ensures ratio == 100.0 <==> w == n
    ensures ratio == 0.0 <==> w == 0
  {
    var q := (w as real) / (n as real);
    assert q * (n as real) == w as real;
    assert ratio * (n as real) == (w as real) * 100.0;
    assert q <= 1.0;
    if ratio == 100.0 {
      assert (n as real) * 100.0 == (w as real) * 100.0;
    }
  }

  /** A break-even trade adds to the trade count and to nothing else. */
  lemma BreakEvenCountsOnlyAsTrade(ts: seq<Trade>, t: Trade)
    requires ts != [] && t.pnl == 0
    ensures Summarize(ts + [t]).totalTrades == Summarize(ts).totalTrades + 1
    ensures Summarize(ts + [t]).winningTrades == Summarize(ts).winningTrades
    ensures Summarize(ts + [t]).totalPnl == Summarize(ts).totalPnl
  {
    WinsAppend(ts, [t]);
    assert [t][..0] == [];
  }

  /** Trades with P&L +5, -2 and 0: three trades, one win, a third of them
      winning, total 3. */
  lemma MixedOutcomes(a: Trade, b: Trade, c: Trade)
    requires a.pnl == 5 && b.pnl == -2 && c.pnl == 0
    ensures var m := Summarize([a, b, c]);
            m.totalTrades == 3 && m.winningTrades == 1 && m.totalPnl == 3
            && m.winRatio * 3.0 == 100.0
  {
    assert [a, b, c][..2] == [a, b];
    assert [a, b][..1] == [a];
    assert [a][..0] == [];
    assert Wins([a]) == 1 && TotalPnl([a]) == 5;
    assert Wins([a, b]) == 1 && TotalPnl([a, b]) == 3;
    assert Wins([a, b, c]) == 1 && TotalPnl([a, b, c]) == 3;
  }
}
