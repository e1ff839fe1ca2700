/**
 * `quotidien.sort_values('date').tail(k)`: the k most recent daily rows, and
 * the column sums taken over them by the alert and summary rules.
 *
 * The sort is a stable insertion sort on the date; pandas' default sort is
 * not guaranteed stable, which only matters for rows sharing a timestamp.
 */
module DailyWindow {
  import opened Tables
  import opened Seqs

  predicate SortedByDate(s: seq<DailyRow>)
  {
    forall i, j | 0 <= i < j < |s| :: s[i].date <= s[j].date
  }

  /** Inserts `x` before the first row with a later date. */
  function Insert(x: DailyRow, s: seq<DailyRow>): (r: seq<DailyRow>)
    requires SortedByDate(s)
    ensures SortedByDate(r)
    ensures multiset(r) == multiset(s) + multiset{x}
    ensures |r| == |s| + 1
    ensures forall i | 0 <= i < |r| :: r[i] == x || r[i] in s
  {
    if s == [] || x.date <= s[0].date then
      HeadEarliest(x, s);
      ConsSorted(x, s);
      [x] + s
    else
      var rest := Insert(x, s[1..]);
      EarliestFirst(x, s, rest);
      ConsSorted(s[0], rest);
      ConsMembers(x, s, rest);
      FirstAndRest(s);
      [s[0]] + rest
  }

  /** A row no later than the head of a sorted table is no later than any of its rows. */
  lemma HeadEarliest(x: DailyRow, s: seq<DailyRow>)
    requires SortedByDate(s) && (s == [] || x.date <= s[0].date)
    ensures forall i | 0 <= i < |s| :: x.date <= s[i].date
  {
  }

  /** A row no later than every row of a sorted table can go in front of it. */
  lemma ConsSorted(h: DailyRow, rest: seq<DailyRow>)
    requires SortedByDate(rest)
    requires forall i | 0 <= i < |rest| :: h.date <= rest[i].date
    ensures SortedByDate([h] + rest)
  {
    var r := [h] + rest;
    forall i, j | 0 <= i < j < |r|
      ensures r[i].date <= r[j].date
    {
      assert r[j] == rest[j - 1];
      if i > 0 {
        assert r[i] == rest[i - 1];
      }
    }
  }

  /** The rows of `[s[0]] + rest` come from `x` and `s` when those of `rest` come from `x` and `s[1..]`. */
  lemma ConsMembers(x: DailyRow, s: seq<DailyRow>, rest: seq<DailyRow>)
    requires s != []
    requires forall i | 0 <= i < |rest| :: rest[i] == x || rest[i] in s[1..]
    ensures forall i | 0 <= i < |rest| + 1 :: ([s[0]] + rest)[i] == x || ([s[0]] + rest)[i] in s
  {
    forall i | 0 <= i < |rest| + 1
      ensures ([s[0]] + rest)[i] == x || ([s[0]] + rest)[i] in s
    {
      if i > 0 {
        assert ([s[0]] + rest)[i] == rest[i - 1];
        if rest[i - 1] != x {
          var j :| 0 <= j < |s[1..]| && s[1..][j] == rest[i - 1];
          assert s[j + 1] == rest[i - 1];
        }
      }
    }
  }

  /** Rows drawn from `x` and the tail of a sorted `s` come no earlier than its head. */
  lemma EarliestFirst(x: DailyRow, s: seq<DailyRow>, rest: seq<DailyRow>)
    requires SortedByDate(s) && s != [] && s[0].date < x.date
    requires forall i | 0 <= i < |rest| :: rest[i] == x || rest[i] in s[1..]
    ensures forall i | 0 <= i < |rest| :: s[0].date <= rest[i].date
  {
    forall i | 0 <= i < |rest|
      ensures s[0].date <= rest[i].date
    {
      if rest[i] != x {
        var j :| 0 <= j < |s[1..]| && s[1..][j] == rest[i];
        assert s[j + 1] == rest[i];
      }
    }
  }

  /** `sort_values('date')`: the rows in ascending date order. */
  function SortByDate(s: seq<DailyRow>): (r: seq<DailyRow>)
    ensures SortedByDate(r)
    ensures multiset(r) == multiset(s)
    ensures |r| == |s|
  {
    if s == [] then []
    else
      assert multiset(s) == multiset{s[0]} + multiset(s[1..]) by {
        assert s == [s[0]] + s[1..];
      }
      Insert(s[0], SortByDate(s[1..]))
  }

  /** `sort_values('date').tail(k)`, for a table of at least `k` rows. */
  function Latest(s: seq<DailyRow>, k: nat): seq<DailyRow>
    requires k <= |s|
  {
    SortByDate(s)[|s| - k..]
  }

  /**
   * The window has exactly `k` rows, all drawn from the table, and no row left
   * out of it is more recent than any row in it.
   */
  lemma LatestIsMostRecent(s: seq<DailyRow>, k: nat)
    requires k <= |s|
    ensures |Latest(s, k)| == k
    ensures multiset(SortByDate(s)[..|s| - k]) + multiset(Latest(s, k)) == multiset(s)
    ensures forall i, j | 0 <= i < |s| - k <= j < |s| :: SortByDate(s)[i].date <= SortByDate(s)[j].date
  {
    var sorted := SortByDate(s);
    var n := |s| - k;
    assert sorted == sorted[..n] + sorted[n..];
    calc {
      multiset(s);
      multiset(sorted);
      multiset(sorted[..n] + sorted[n..]);
      multiset(sorted[..n]) + multiset(sorted[n..]);
    }
  }

  /** A table already in date order is its own sort, so the window is its tail. */
  lemma {:induction false} SortOfSorted(s: seq<DailyRow>)
    requires SortedByDate(s)
    ensures SortByDate(s) == s
  {
    if s != [] {
      SortOfSorted(s[1..]);
    }
  }

  lemma LatestOfSorted(s: seq<DailyRow>, k: nat)
    requires SortedByDate(s) && k <= |s|
    ensures Latest(s, k) == s[|s| - k..]
  {
    SortOfSorted(s);
  }

  function Admissions(s: seq<DailyRow>): int { Sum(s, (r: DailyRow) => r.admissions as int) }
  function Discharges(s: seq<DailyRow>): int { Sum(s, (r: DailyRow) => r.discharges as int) }
  function Revenue(s: seq<DailyRow>): int { Sum(s, (r: DailyRow) => r.revenue as int) }
  function Expenses(s: seq<DailyRow>): int { Sum(s, (r: DailyRow) => r.expenses as int) }
}
