/**
 * The stored price history: one entry per calendar day, kept sorted by date.
 * `SortByDate` is the `usort` call of handleUpdateSpotHistory with its
 * date comparator; PHP 8's `usort` is stable, so it is the stable sort.
 */
module PriceHistory {
  import opened Json
  import opened Dates

  /** One day's quote; `gold` and `silver` are carried through, never computed with. */
  datatype PriceEntry = PriceEntry(date: Date, gold: Value, silver: Value)

  /** Some entry of `h` is dated `d`. */
  predicate HasEntryOn(h: seq<PriceEntry>, d: Date) {
    exists i :: 0 <= i < |h| && h[i].date == d
  }

  /** The entries of `h` dated `d`, in their order in `h`. */
  function OnDate(h: seq<PriceEntry>, d: Date): (r: seq<PriceEntry>)
    ensures |r| <= |h|
  {
    if h == [] then []
    else (if h[0].date == d then [h[0]] else []) + OnDate(h[1..], d)
  }

  lemma {:induction false} OnDateMember(h: seq<PriceEntry>, d: Date, x: PriceEntry)
    requires x in OnDate(h, d)
    ensures x in h && x.date == d
  {
    if x != h[0] || h[0].date != d {
      OnDateMember(h[1..], d, x);
    }
  }

  /** How many entries of `h` are dated `d`. */
  function CountOn(h: seq<PriceEntry>, d: Date): nat {
    |OnDate(h, d)|
  }

  /** Non-decreasing by date. */
  predicate Sorted(h: seq<PriceEntry>) {
    forall i, j :: 0 <= i < j < |h| ==> OnOrBefore(h[i].date, h[j].date)
  }

  /** At most one entry per date. */
  ghost predicate AtMostOnePerDate(h: seq<PriceEntry>) {
    forall d :: CountOn(h, d) <= 1
  }

  /** The invariant the stored history is meant to keep. */
  ghost predicate HistoryInvariant(h: seq<PriceEntry>) {
    Sorted(h) && AtMostOnePerDate(h)
  }

  /** Inserts `e` into `s` after every entry not dated later than `e`. */
  function Insert(s: seq<PriceEntry>, e: PriceEntry): (r: seq<PriceEntry>)
    ensures |r| == |s| + 1
  {
    if s == [] then [e]
    else if Precedes(e.date, s[0].date) then [e] + s
    else [s[0]] + Insert(s[1..], e)
  }

  /** The stable sort of `s` by date: each entry in turn inserted into the sorted prefix. */
  function SortByDate(s: seq<PriceEntry>): (r: seq<PriceEntry>)
    ensures |r| == |s|
  {
    if s == [] then []
    else Insert(SortByDate(s[..|s| - 1]), s[|s| - 1])
  }

  lemma {:induction false} InsertPermutation(s: seq<PriceEntry>, e: PriceEntry)
    ensures multiset(Insert(s, e)) == multiset(s) + multiset{e}
  {
    if s != [] && !Precedes(e.date, s[0].date) {
      InsertPermutation(s[1..], e);
      assert s == [s[0]] + s[1..];
    }
  }

  /** Sorting only reorders: the result is a permutation of the input. */
  lemma {:induction false} SortByDatePermutation(s: seq<PriceEntry>)
    ensures multiset(SortByDate(s)) == multiset(s)
  {
    if s != [] {
      SortByDatePermutation(s[..|s| - 1]);
      InsertPermutation(SortByDate(s[..|s| - 1]), s[|s| - 1]);
      assert s == s[..|s| - 1] + [s[|s| - 1]];
    }
  }

  lemma InsertMember(s: seq<PriceEntry>, e: PriceEntry, x: PriceEntry)
    requires x in Insert(s, e)
    ensures x in s || x == e
  {
    InsertPermutation(s, e);
    assert x in multiset(Insert(s, e));
  }

  lemma SortByDateAppend(s: seq<PriceEntry>, e: PriceEntry)
    ensures SortByDate(s + [e]) == Insert(SortByDate(s), e)
  {
    assert (s + [e])[..|s|] == s;
  }

  lemma {:induction false} OnDateAppend(a: seq<PriceEntry>, b: seq<PriceEntry>, d: Date)
    ensures OnDate(a + b, d) == OnDate(a, d) + OnDate(b, d)
  {
    if a != [] {
      assert (a + b)[0] == a[0] && (a + b)[1..] == a[1..] + b;
      OnDateAppend(a[1..], b, d);
    } else {
      assert a + b == b;
    }
  }

  lemma {:induction false} HasEntryOnCount(h: seq<PriceEntry>, d: Date)
    ensures HasEntryOn(h, d) <==> CountOn(h, d) > 0
  {
    if h != [] {
      HasEntryOnCount(h[1..], d);
      if h[0].date != d && HasEntryOn(h, d) {
        var i :| 0 <= i < |h| && h[i].date == d;
        assert h[1..][i - 1].date == d;
      }
      if HasEntryOn(h[1..], d) {
        var i :| 0 <= i < |h[1..]| && h[1..][i].date == d;
        assert h[i + 1].date == d;
      }
    }
  }

  /** Two distinct positions with the same date give that date a count of at least two. */
  lemma {:induction false} CountOnTwo(h: seq<PriceEntry>, i: nat, j: nat)
    requires i < j < |h| && h[i].date == h[j].date
    ensures CountOn(h, h[i].date) >= 2
  {
    if i == 0 {
      assert h[1..][j - 1].date == h[0].date;
      HasEntryOnCount(h[1..], h[0].date);
    } else {
      CountOnTwo(h[1..], i - 1, j - 1);
    }
  }

  /** A history that keeps the invariant is strictly increasing by date. */
  lemma InvariantStrictlyIncreasing(h: seq<PriceEntry>)
    requires HistoryInvariant(h)
    ensures forall i, j :: 0 <= i < j < |h| ==> Precedes(h[i].date, h[j].date)
  {
    forall i, j | 0 <= i < j < |h|
      ensures Precedes(h[i].date, h[j].date)
    {
      if h[i].date == h[j].date {
        CountOnTwo(h, i, j);
        assert false;
      }
      PrecedesTotal(h[i].date, h[j].date);
    }
  }

  lemma {:induction false} InsertSorted(s: seq<PriceEntry>, e: PriceEntry)
    requires Sorted(s)
    ensures Sorted(Insert(s, e))
  {
    if s == [] {
    } else if Precedes(e.date, s[0].date) {
      var r := [e] + s;
      forall j | 0 < j < |r|
        ensures OnOrBefore(e.date, r[j].date)
      {
        if Precedes(r[j].date, e.date) {
          PrecedesTransitive(r[j].date, e.date, s[0].date);
          if j == 1 {
            PrecedesIrreflexive(s[0].date);
          }
        }
      }
    } else {
      var t := Insert(s[1..], e);
      InsertSorted(s[1..], e);
      forall x | x in t
        ensures OnOrBefore(s[0].date, x.date)
      {
        InsertMember(s[1..], e, x);
        if x != e {
          assert x in s[1..];
          var k :| 0 <= k < |s[1..]| && s[1..][k] == x;
          assert s[k + 1] == x;
        }
      }
      var r := [s[0]] + t;
      forall i, j | 0 <= i < j < |r|
        ensures OnOrBefore(r[i].date, r[j].date)
      {
        if i == 0 {
          assert r[j] == t[j - 1] && t[j - 1] in t;
        } else {
          assert r[i] == t[i - 1] && r[j] == t[j - 1];
        }
      }
    }
  }

  lemma {:induction false} SortByDateSorted(s: seq<PriceEntry>)
    ensures Sorted(SortByDate(s))
  {
    if s != [] {
      SortByDateSorted(s[..|s| - 1]);
      InsertSorted(SortByDate(s[..|s| - 1]), s[|s| - 1]);
    }
  }

  /** In a sorted sequence nothing is dated `d` when its first entry is later than `d`. */
  lemma NoneOnEarlierDate(s: seq<PriceEntry>, d: Date)
    requires Sorted(s) && s != [] && Precedes(d, s[0].date)
    ensures OnDate(s, d) == []
  {
    if OnDate(s, d) != [] {
      var x := OnDate(s, d)[0];
      OnDateMember(s, d, x);
      var k :| 0 <= k < |s| && s[k] == x;
      if k == 0 {
        PrecedesIrreflexive(d);
      }
    }
  }

  /** Inserting into a sorted sequence puts `e` after every entry of the same date. */
  lemma {:induction false} InsertOnDate(s: seq<PriceEntry>, e: PriceEntry, d: Date)
    requires Sorted(s)
    ensures OnDate(Insert(s, e), d) == OnDate(s, d) + (if e.date == d then [e] else [])
  {
    if s == [] {
    } else if Precedes(e.date, s[0].date) {
      OnDateAppend([e], s, d);
      if e.date == d {
        NoneOnEarlierDate(s, d);
      }
    } else {
      var tail := if e.date == d then [e] else [];
      InsertOnDate(s[1..], e, d);
      OnDateAppend([s[0]], Insert(s[1..], e), d);
      OnDateAppend([s[0]], s[1..], d);
      assert [s[0]] + s[1..] == s;
      calc {
        OnDate(Insert(s, e), d);
        OnDate([s[0]] + Insert(s[1..], e), d);
        OnDate([s[0]], d) + OnDate(Insert(s[1..], e), d);
        OnDate([s[0]], d) + (OnDate(s[1..], d) + tail);
        (OnDate([s[0]], d) + OnDate(s[1..], d)) + tail;
        OnDate(s, d) + tail;
      }
    }
  }

  /**
   * Stability: sorting keeps, for every date, the entries of that date in their
   * original order. Together with `SortByDateSorted` this fixes the result.
   */
  lemma {:induction false} SortByDateStable(s: seq<PriceEntry>, d: Date)
    ensures OnDate(SortByDate(s), d) == OnDate(s, d)
  {
    if s != [] {
      var init, last := s[..|s| - 1], s[|s| - 1];
      SortByDateStable(init, d);
      SortByDateSorted(init);
      InsertOnDate(SortByDate(init), last, d);
      assert s == init + [last];
      OnDateAppend(init, [last], d);
      calc {
        OnDate(SortByDate(s), d);
        OnDate(Insert(SortByDate(init), last), d);
        OnDate(SortByDate(init), d) + OnDate([last], d);
        OnDate(init, d) + OnDate([last], d);
        OnDate(s, d);
      }
    }
  }

  /** Inserting an entry dated no earlier than every entry of `s` appends it. */
  lemma {:induction false} InsertAtEnd(s: seq<PriceEntry>, e: PriceEntry)
    requires forall i :: 0 <= i < |s| ==> OnOrBefore(s[i].date, e.date)
    ensures Insert(s, e) == s + [e]
  {
    if s != [] {
      assert OnOrBefore(s[0].date, e.date);
      InsertAtEnd(s[1..], e);
    }
  }
}
