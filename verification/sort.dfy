/** `df.sort_values('Date')`, modelled as a stable insertion sort on the
    entries' dates. */
module DateSort {
  import opened Ledger

  /** Places `e` after every entry of `sorted` whose date is not later than
      its own. */
  function Insert(sorted: seq<Entry>, e: Entry): (r: seq<Entry>)
    requires SortedByDate(sorted)
    ensures SortedByDate(r)
    ensures multiset(r) == multiset(sorted) + multiset{e}
    ensures |r| == |sorted| + 1
  {
    if sorted == [] then [e]
    else
      var last := sorted[|sorted| - 1];
      if last.date <= e.date then sorted + [e]
      else
        var init := sorted[..|sorted| - 1];
        var r := Insert(init, e);
        DatesBounded(r, init, e, last.date);
        assert sorted == init + [last];
        r + [last]
  }

  /** A permutation of entries no later than `d`, plus one more entry no later
      than `d`, has every date at most `d`. */
  lemma DatesBounded(r: seq<Entry>, sorted: seq<Entry>, e: Entry, d: int)
    requires multiset(r) == multiset(sorted) + multiset{e}
    requires forall i :: 0 <= i < |sorted| ==> sorted[i].date <= d
    requires e.date <= d
    ensures forall i :: 0 <= i < |r| ==> r[i].date <= d
  {
    forall i | 0 <= i < |r| ensures r[i].date <= d {
      assert r[i] in multiset(r);
      assert r[i] in multiset(sorted) || r[i] == e;
    }
  }

  /** The entries in ascending date order: a date-sorted permutation. */
  function SortByDate(es: seq<Entry>): (r: seq<Entry>)
    ensures SortedByDate(r)
    ensures multiset(r) == multiset(es)
    ensures |r| == |es|
  {
    if es == [] then []
    else
      assert es == es[..|es| - 1] + [es[|es| - 1]];
      Insert(SortByDate(es[..|es| - 1]), es[|es| - 1])
  }

  lemma {:induction false} InsertCount(sorted: seq<Entry>, e: Entry, a: Action)
    requires SortedByDate(sorted)
    ensures CountAction(Insert(sorted, e), a) == CountAction(sorted, a) + CountAction([e], a)
  {
    if sorted == [] {
      assert Insert(sorted, e) == [e];
      assert CountAction([] + [e], a) == CountAction([e], a);
    } else {
      var last := sorted[|sorted| - 1];
      if last.date <= e.date {
        assert Insert(sorted, e) == sorted + [e];
        CountActionAppend(sorted, [e], a);
      } else {
        var init := sorted[..|sorted| - 1];
        var r := Insert(init, e);
        assert Insert(sorted, e) == r + [last];
        calc {
          CountAction(r + [last], a);
          { CountActionAppend(r, [last], a); }
          CountAction(r, a) + CountAction([last], a);
          { InsertCount(init, e, a); }
          CountAction(init, a) + CountAction([e], a) + CountAction([last], a);
          { CountActionAppend(init, [last], a); assert init + [last] == sorted; }
          CountAction(sorted, a) + CountAction([e], a);
        }
      }
    }
  }

  /** Sorting neither adds nor loses a Buy or a Sell. */
  lemma {:induction false} SortKeepsCounts(es: seq<Entry>, a: Action)
    ensures CountAction(SortByDate(es), a) == CountAction(es, a)
    decreases |es|
  {
    if es != [] {
      var init, last := es[..|es| - 1], es[|es| - 1];
      SortKeepsCounts(init, a);
      assert es == init + [last];
      SortKeepsCountsStep(init, last, a);
    }
  }

  lemma SortKeepsCountsStep(init: seq<Entry>, last: Entry, a: Action)
    requires CountAction(SortByDate(init), a) == CountAction(init, a)
    ensures CountAction(SortByDate(init + [last]), a) == CountAction(init + [last], a)
  {
    var es := init + [last];
    assert es[..|es| - 1] == init;
    var s := SortByDate(init);
    assert SortByDate(es) == Insert(s, last);
    InsertCount(s, last, a);
    CountActionAppend(init, [last], a);
  }
}
