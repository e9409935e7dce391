/**
 * The "update spot history" action: decide whether today's quote must be
 * fetched, append it at most once per day, re-sort, and say whether the
 * document has to be written back.
 */
module SpotHistory {
  import opened Wrappers
  import opened Json
  import opened Dates
  import opened PriceHistory

  /** The two fields read from `items[0]` of the provider's reply; either may be missing. */
  datatype Rates = Rates(xauPrice: Option<Value>, xagPrice: Option<Value>)

  /**
   * A decoded reply of the quote provider that PHP treats as truthy; `firstItem`
   * is `items[0]`, absent when that key is not set. A failed request, an HTTP
   * error status or an undecodable body is `None` in place of a `SpotData`.
   */
  datatype SpotData = SpotData(firstItem: Option<Rates>)

  /** The three answers of the action. */
  datatype RefreshOutcome = Updated | AlreadyCurrent | FetchFailed

  /**
   * What one run produces: its answer, the history afterwards, whether the
   * provider was asked for a quote, and whether the document is handed to the
   * store to be written.
   */
  datatype RefreshResult = RefreshResult(
    outcome: RefreshOutcome,
    history: seq<PriceEntry>,
    fetched: bool,
    writeIssued: bool)

  /** The reply passes the check `$spotData && isset($spotData['items'][0])`. */
  predicate QuoteUsable(fetch: Option<SpotData>) {
    fetch.Some? && fetch.value.firstItem.Some?
  }

  /** The entry recorded for `today`; a missing price is stored as `null`. */
  function TodayEntry(today: Date, rates: Rates): (e: PriceEntry)
    ensures e.date == today
    ensures rates.xauPrice.Some? ==> e.gold == rates.xauPrice.value
    ensures rates.xauPrice.None? ==> e.gold == Null
    ensures rates.xagPrice.Some? ==> e.silver == rates.xagPrice.value
    ensures rates.xagPrice.None? ==> e.silver == Null
  {
    PriceEntry(today, rates.xauPrice.GetOr(Null), rates.xagPrice.GetOr(Null))
  }

  /** The last entry of `h` is dated `d`. */
  predicate LastDateIs(h: seq<PriceEntry>, d: Date) {
    |h| > 0 && h[|h| - 1].date == d
  }

  /**
   * Reference definition of one run: short-circuit on the last entry's date,
   * fail on an unusable quote, keep the history when some entry is already
   * dated today, otherwise append today's entry, sort, and write.
   */
  function Refresh(h: seq<PriceEntry>, today: Date, fetch: Option<SpotData>): (r: RefreshResult)
    ensures r.fetched <==> !LastDateIs(h, today)
    ensures r.outcome == FetchFailed <==> r.fetched && !QuoteUsable(fetch)
    ensures r.writeIssued <==> r.outcome == Updated
    ensures r.outcome != Updated ==> r.history == h
    ensures r.outcome == Updated ==> |r.history| == |h| + 1
  {
    if LastDateIs(h, today) then RefreshResult(AlreadyCurrent, h, false, false)
    else if !QuoteUsable(fetch) then RefreshResult(FetchFailed, h, true, false)
    else if HasEntryOn(h, today) then RefreshResult(AlreadyCurrent, h, true, false)
    else RefreshResult(Updated, SortByDate(h + [TodayEntry(today, fetch.value.firstItem.value)]), true, true)
  }

  /**
   * handleUpdateSpotHistory after authentication and reading: the date check on
   * the last entry, the quote check, the scan for an entry dated today with a
   * found flag, then append and sort.
   */
  method UpdateSpotHistory(history: seq<PriceEntry>, today: Date, fetch: Option<SpotData>)
    returns (outcome: RefreshOutcome, newHistory: seq<PriceEntry>, fetched: bool, writeIssued: bool)
    ensures RefreshResult(outcome, newHistory, fetched, writeIssued) == Refresh(history, today, fetch)
    ensures outcome == Updated ==> Sorted(newHistory) && CountOn(newHistory, today) == 1
  {
    var lastEntryDate: Option<Date> := None;
    if |history| > 0 {
      lastEntryDate := Some(history[|history| - 1].date);
    }
    newHistory, fetched, writeIssued := history, false, false;

    if lastEntryDate != Some(today) {
      fetched := true;
      if fetch.Some? && fetch.value.firstItem.Some? {
        var rates := fetch.value.firstItem.value;
        var dateExists := false;
        var i := 0;
        while i < |history|
          invariant 0 <= i <= |history|
          invariant dateExists ==> HasEntryOn(history, today)
          invariant !dateExists ==> forall k :: 0 <= k < i ==> history[k].date != today
        {
          if history[i].date == today {
            dateExists := true;
            break;
          }
          i := i + 1;
        }

        if !dateExists {
          newHistory := newHistory + [TodayEntry(today, rates)];
          newHistory := SortByDate(newHistory);
          writeIssued := true;
          outcome := Updated;
          RefreshUpdated(history, today, fetch);
          return;
        }
      } else {
        outcome := FetchFailed;
        return;
      }
    }
    outcome := AlreadyCurrent;
  }

  /** A history whose last entry is dated today is left alone: no fetch, no write. */
  lemma RefreshShortCircuit(h: seq<PriceEntry>, today: Date, fetch: Option<SpotData>)
    requires LastDateIs(h, today)
    ensures Refresh(h, today, fetch) == RefreshResult(AlreadyCurrent, h, false, false)
  {
  }

  /** An unusable quote fails the run, after the fetch, without changing or writing anything. */
  lemma RefreshFetchFailure(h: seq<PriceEntry>, today: Date, fetch: Option<SpotData>)
    requires !LastDateIs(h, today) && !QuoteUsable(fetch)
    ensures Refresh(h, today, fetch) == RefreshResult(FetchFailed, h, true, false)
  {
  }

  /**
   * An entry dated today anywhere in the history prevents any append and any
   * write; the answer is "already up to date" unless the fetch, which still
   * happens when that entry is not the last one, fails.
   */
  lemma RefreshExistingDate(h: seq<PriceEntry>, today: Date, fetch: Option<SpotData>)
    requires HasEntryOn(h, today)
    ensures var r := Refresh(h, today, fetch);
      r.history == h && !r.writeIssued && r.outcome != Updated
      && (r.outcome == AlreadyCurrent <==> LastDateIs(h, today) || QuoteUsable(fetch))
  {
  }

  /**
   * On the "updated" path: exactly one write, and the new history is the old
   * one plus today's entry, reordered by date; today occurs exactly once and
   * every other date keeps its entries in their former order.
   */
  lemma RefreshUpdated(h: seq<PriceEntry>, today: Date, fetch: Option<SpotData>)
    requires Refresh(h, today, fetch).outcome == Updated
    ensures var r := Refresh(h, today, fetch);
      var e := TodayEntry(today, fetch.value.firstItem.value);
      r.writeIssued && r.fetched
      && multiset(r.history) == multiset(h) + multiset{e}
      && Sorted(r.history)
      && CountOn(r.history, today) == 1
      && (forall d :: d != today ==> OnDate(r.history, d) == OnDate(h, d))
  {
    var e := TodayEntry(today, fetch.value.firstItem.value);
    var r := Refresh(h, today, fetch).history;
    SortByDatePermutation(h + [e]);
    SortByDateSorted(h + [e]);
    forall d
      ensures OnDate(r, d) == OnDate(h, d) + (if d == today then [e] else [])
    {
      SortByDateStable(h + [e], d);
      OnDateAppend(h, [e], d);
    }
    HasEntryOnCount(h, today);
  }

  /** A run never breaks the sorted, one-entry-per-day invariant of the history. */
  lemma RefreshPreservesInvariant(h: seq<PriceEntry>, today: Date, fetch: Option<SpotData>)
    requires HistoryInvariant(h)
    ensures HistoryInvariant(Refresh(h, today, fetch).history)
  {
    var r := Refresh(h, today, fetch);
    if r.outcome == Updated {
      RefreshUpdated(h, today, fetch);
      forall d
        ensures CountOn(r.history, d) <= 1
      {
        if d != today {
          assert OnDate(r.history, d) == OnDate(h, d);
          assert CountOn(h, d) <= 1;
        }
      }
    }
  }

  /** A run that does not fail leaves an entry dated today in the history. */
  lemma RefreshRecordsToday(h: seq<PriceEntry>, today: Date, fetch: Option<SpotData>)
    requires Refresh(h, today, fetch).outcome != FetchFailed
    ensures HasEntryOn(Refresh(h, today, fetch).history, today)
  {
    var r := Refresh(h, today, fetch);
    if r.outcome == Updated {
      RefreshUpdated(h, today, fetch);
      HasEntryOnCount(r.history, today);
    } else if LastDateIs(h, today) {
      assert h[|h| - 1].date == today;
    }
  }

  /**
   * Two runs on the same day, the second on the history the first left behind:
   * at most one of them writes, the second never changes the history after the
   * first succeeded, today keeps exactly one entry, and the second answers
   * "already up to date" when its quote is usable or when no entry of the
   * original history is dated after today, in which case it does not even fetch.
   */
  lemma RefreshTwiceSameDay(h: seq<PriceEntry>, today: Date, f1: Option<SpotData>, f2: Option<SpotData>)
    ensures var r1 := Refresh(h, today, f1);
      var r2 := Refresh(r1.history, today, f2);
      !(r1.writeIssued && r2.writeIssued)
      && (r1.outcome != FetchFailed ==> r2.history == r1.history && !r2.writeIssued)
      && (r1.outcome == Updated ==> CountOn(r2.history, today) == 1)
      && (r1.outcome == Updated || r2.outcome == Updated ==> CountOn(r2.history, today) == 1)
      && (CountOn(h, today) <= 1 ==> CountOn(r2.history, today) <= 1)
      && (r1.outcome == Updated && QuoteUsable(f2) ==> r2.outcome == AlreadyCurrent)
      && (r1.outcome == Updated && (forall i :: 0 <= i < |h| ==> OnOrBefore(h[i].date, today))
          ==> r2.outcome == AlreadyCurrent && !r2.fetched)
  {
    var r1 := Refresh(h, today, f1);
    var r2 := Refresh(r1.history, today, f2);
    if r2.outcome == Updated {
      RefreshUpdated(r1.history, today, f2);
    }
    if r1.outcome != FetchFailed {
      RefreshRecordsToday(h, today, f1);
      RefreshExistingDate(r1.history, today, f2);
    }
    if r1.outcome == Updated {
      RefreshUpdated(h, today, f1);
      if forall i :: 0 <= i < |h| ==> OnOrBefore(h[i].date, today) {
        var e := TodayEntry(today, f1.value.firstItem.value);
        var sorted := SortByDate(h);
        SortByDatePermutation(h);
        forall i | 0 <= i < |sorted|
          ensures OnOrBefore(sorted[i].date, e.date)
        {
          assert sorted[i] in multiset(h);
          var k :| 0 <= k < |h| && h[k] == sorted[i];
        }
        InsertAtEnd(sorted, e);
        SortByDateAppend(h, e);
        assert LastDateIs(r1.history, today);
      }
    }
  }

  /**
   * The sequence of answers on an empty store: a first run records the quote,
   * a second run the same day answers "already up to date" without fetching.
   */
  lemma RefreshFromEmpty(today: Date, gold: Value, silver: Value)
    ensures var f := Some(SpotData(Some(Rates(Some(gold), Some(silver)))));
      var r1 := Refresh([], today, f);
      r1 == RefreshResult(Updated, [PriceEntry(today, gold, silver)], true, true)
      && Refresh(r1.history, today, f) == RefreshResult(AlreadyCurrent, r1.history, false, false)
  {
    var e := PriceEntry(today, gold, silver);
    assert [] + [e] == [e] && [e][..0] == [];
    assert SortByDate([e]) == Insert(SortByDate([]), e) == [e];
  }
}
