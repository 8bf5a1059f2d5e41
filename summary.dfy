/**
 * The aggregator: select the rows of a trailing date window and a source,
 * sum them into a total, per-month and per-day buckets, and list them newest
 * first.
 */
module Summaries {
  import opened Common
  import opened Text
  import opened Dates
  import opened Expenses
  import opened Ordering

  /** The lower date bound of a summary: none, or the ISO text the stored
      dates are compared against as strings. */
  datatype Window = AllTime | Since(start: string)

  /**
   * The window of a `days`-long summary ending `today`: no bound when
   * `days <= 0`, otherwise from `today - (days - 1)`. `None` where Python
   * raises OverflowError because that start falls before 0001-01-01.
   */
  function WindowFor(today: CalendarDate, days: int): Option<Window>
  {
    if days <= 0 then Some(AllTime)
    else match MinusDays(today, days - 1)
      case None => None
      case Some(start) => Some(Since(Iso(start)))
  }

  /** The WHERE clause shared by both queries of the summary. */
  predicate Selects(w: Window, source: string, e: Expense)
  {
    (w.AllTime? || LexLe(w.start, e.entry.date)) && (source == "all" || e.entry.source == source)
  }

  /** The rows the WHERE clause keeps, in table order. */
  function Selected(rows: seq<Expense>, w: Window, source: string): (r: seq<Expense>)
    ensures forall e :: e in r <==> e in rows && Selects(w, source, e)
  {
    if rows == [] then []
    else
      var init := Selected(rows[..|rows| - 1], w, source);
      var last := rows[|rows| - 1];
      assert rows == rows[..|rows| - 1] + [last];
      if Selects(w, source, last) then init + [last] else init
  }

  /** Selection keeps the rows in table order, so identifiers still increase. */
  lemma {:induction false} SelectedIdsIncreasing(rows: seq<Expense>, w: Window, source: string)
    requires IdsIncreasing(rows)
    ensures IdsIncreasing(Selected(rows, w, source))
    decreases |rows|
  {
    if rows != [] {
      var init := rows[..|rows| - 1];
      var last := rows[|rows| - 1];
      var sel := Selected(init, w, source);
      SelectedIdsIncreasing(init, w, source);
      if Selects(w, source, last) {
        forall k | 0 <= k < |sel| ensures sel[k].id < last.id {
          assert sel[k] in init;
          var t :| 0 <= t < |init| && init[t] == sel[k];
          assert rows[t] == sel[k];
        }
        assert Selected(rows, w, source) == sel + [last];
      }
    }
  }

  function Total(rows: seq<Expense>): real
  {
    if rows == [] then 0.0 else Total(rows[..|rows| - 1]) + rows[|rows| - 1].entry.amount
  }

  /** `date[:7]`, the month bucket of a row. */
  function MonthKey(e: Expense): string
  {
    if |e.entry.date| >= 7 then e.entry.date[..7] else e.entry.date
  }

  function DayKey(e: Expense): string
  {
    e.entry.date
  }

  /** The running sums `m[key] = m.get(key, 0.0) + amount` over `rows`. */
  function Buckets(rows: seq<Expense>, key: Expense -> string): map<string, real>
  {
    if rows == [] then map[]
    else
      var m := Buckets(rows[..|rows| - 1], key);
      var last := rows[|rows| - 1];
      var k := key(last);
      m[k := (if k in m then m[k] else 0.0) + last.entry.amount]
  }

  /** The rows of `rows` that fall into bucket `k`. */
  function InBucket(rows: seq<Expense>, key: Expense -> string, k: string): seq<Expense>
  {
    if rows == [] then []
    else
      var init := InBucket(rows[..|rows| - 1], key, k);
      var last := rows[|rows| - 1];
      if key(last) == k then init + [last] else init
  }

  /** The sum of all values of a map. */
  ghost function SumValues(m: map<string, real>): real
    decreases |m|
  {
    if m == map[] then 0.0
    else
      var k :| k in m;
      m[k] + SumValues(m - {k})
  }

  /** One entry of an expense listing; a NULL merchant or description is "". */
  datatype Listed = Listed(id: nat, source: string, date: string, merchant: string, description: string, amount: real)

  function Listing(rows: seq<Expense>): (ls: seq<Listed>)
    ensures |ls| == |rows|
    ensures forall k :: 0 <= k < |rows| ==>
      var e := rows[k];
      ls[k] == Listed(e.id, e.entry.source, e.entry.date, OrEmpty(e.entry.merchant), OrEmpty(e.entry.description), e.entry.amount)
  {
    if rows == [] then []
    else
      var e := rows[0];
      [Listed(e.id, e.entry.source, e.entry.date, OrEmpty(e.entry.merchant), OrEmpty(e.entry.description), e.entry.amount)]
        + Listing(rows[1..])
  }

  function ListedTotal(ls: seq<Listed>): real
  {
    if ls == [] then 0.0 else ls[0].amount + ListedTotal(ls[1..])
  }

  datatype Summary = Summary(total: real, byMonth: map<string, real>, byDay: map<string, real>, expenses: seq<Listed>)

  // ---- properties of the specification ----

  lemma {:induction false} SumValuesRemove(m: map<string, real>, k: string)
    requires k in m
    ensures SumValues(m) == m[k] + SumValues(m - {k})
    decreases |m|
  {
    var j :| j in m && SumValues(m) == m[j] + SumValues(m - {j});
    if j != k {
      var mj := m - {j};
      var mk := m - {k};
      SumValuesRemove(mj, k);
      SumValuesRemove(mk, j);
      assert mj - {k} == mk - {j};
    }
  }

  /** Adding `a` to bucket `k` (creating it at 0.0) adds `a` to the sum of the buckets. */
  lemma AddToBucket(m: map<string, real>, k: string, a: real)
    ensures SumValues(m[k := (if k in m then m[k] else 0.0) + a]) == SumValues(m) + a
  {
    var m' := m[k := (if k in m then m[k] else 0.0) + a];
    SumValuesRemove(m', k);
    assert m' - {k} == m - {k};
    if k in m {
      SumValuesRemove(m, k);
    } else {
      assert m - {k} == m;
    }
  }

  /** The buckets together hold exactly the total of the rows. */
  lemma {:induction false} BucketsTotal(rows: seq<Expense>, key: Expense -> string)
    ensures SumValues(Buckets(rows, key)) == Total(rows)
    decreases |rows|
  {
    if rows != [] {
      var last := rows[|rows| - 1];
      BucketsTotal(rows[..|rows| - 1], key);
      AddToBucket(Buckets(rows[..|rows| - 1], key), key(last), last.entry.amount);
    }
  }

  /** The buckets are exactly the keys of the rows, and each holds the total
      of the rows with its key. */
  lemma {:induction false} BucketsContents(rows: seq<Expense>, key: Expense -> string)
    ensures forall k :: k in Buckets(rows, key) <==> exists i :: 0 <= i < |rows| && key(rows[i]) == k
    ensures forall k :: k in Buckets(rows, key) ==> Buckets(rows, key)[k] == Total(InBucket(rows, key, k))
    decreases |rows|
  {
    if rows != [] {
      var init := rows[..|rows| - 1];
      var last := rows[|rows| - 1];
      BucketsContents(init, key);
      forall k ensures k in Buckets(rows, key) <==> exists i :: 0 <= i < |rows| && key(rows[i]) == k {
        if k in Buckets(init, key) {
          var i :| 0 <= i < |init| && key(init[i]) == k;
          assert rows[i] == init[i];
        }
        if exists i :: 0 <= i < |rows| && key(rows[i]) == k {
          var i :| 0 <= i < |rows| && key(rows[i]) == k;
          if i < |init| { assert init[i] == rows[i]; }
        }
      }
      forall k | k in Buckets(rows, key) ensures Buckets(rows, key)[k] == Total(InBucket(rows, key, k)) {
        if key(last) == k {
          var b := InBucket(init, key, k);
          assert (b + [last])[..|b|] == b;
          if k !in Buckets(init, key) {
            EmptyBucket(init, key, k);
          }
        }
      }
    }
  }

  lemma {:induction false} EmptyBucket(rows: seq<Expense>, key: Expense -> string, k: string)
    requires forall i :: 0 <= i < |rows| ==> key(rows[i]) != k
    ensures InBucket(rows, key, k) == []
    decreases |rows|
  {
    if rows != [] { EmptyBucket(rows[..|rows| - 1], key, k); }
  }

  lemma {:induction false} TotalAppend(a: seq<Expense>, b: seq<Expense>)
    ensures Total(a + b) == Total(a) + Total(b)
    decreases |b|
  {
    if b == [] {
      assert a + b == a;
    } else {
      assert (a + b)[..|a + b| - 1] == a + b[..|b| - 1];
      TotalAppend(a, b[..|b| - 1]);
    }
  }

  lemma {:induction false} TotalInsert(x: Expense, s: seq<Expense>)
    requires NewestFirst(s)
    ensures Total(Insert(x, s)) == x.entry.amount + Total(s)
    decreases |s|
  {
    if s == [] {
      assert Total([x]) == Total([]) + x.entry.amount;
    } else if ListedBefore(x, s[0]) {
      TotalAppend([x], s);
      assert Total([x]) == Total([]) + x.entry.amount;
    } else {
      TotalInsert(x, s[1..]);
      TotalAppend([s[0]], Insert(x, s[1..]));
      TotalAppend([s[0]], s[1..]);
      assert s == [s[0]] + s[1..];
      assert Total([s[0]]) == Total([]) + s[0].entry.amount;
    }
  }

  /** Sorting neither adds nor drops an amount. */
  lemma {:induction false} TotalSort(s: seq<Expense>)
    ensures Total(SortNewestFirst(s)) == Total(s)
    decreases |s|
  {
    if s != [] {
      TotalSort(s[1..]);
      TotalInsert(s[0], SortNewestFirst(s[1..]));
      TotalAppend([s[0]], s[1..]);
      assert s == [s[0]] + s[1..];
      assert Total([s[0]]) == Total([]) + s[0].entry.amount;
    }
  }

  lemma {:induction false} ListedTotalOfListing(rows: seq<Expense>)
    ensures ListedTotal(Listing(rows)) == Total(rows)
    decreases |rows|
  {
    if rows != [] {
      ListedTotalOfListing(rows[1..]);
      TotalAppend([rows[0]], rows[1..]);
      assert rows == [rows[0]] + rows[1..];
      assert Total([rows[0]]) == Total([]) + rows[0].entry.amount;
    }
  }

  /**
   * The window is inclusive and always contains today: with `days > 0`, a
   * row dated `today - (days - 1)` or `today` is inside it and a row dated
   * `today - days` is not. For well-formed dates the string test is the
   * date comparison.
   */
  lemma WindowBoundary(today: CalendarDate, days: int)
    requires days > 0 && MinusDays(today, days).Some?
    ensures WindowFor(today, days).Some?
    ensures var w := WindowFor(today, days).value;
      && w == Since(Iso(MinusDays(today, days - 1).value))
      && LexLe(w.start, Iso(MinusDays(today, days - 1).value))
      && LexLe(w.start, Iso(today))
      && !LexLe(w.start, Iso(MinusDays(today, days).value))
  {
    MinusDaysStep(today, days - 1);
    var start := MinusDays(today, days - 1).value;
    var before := MinusDays(today, days).value;
    assert PrevDay(start) == Some(before);
    IsoOrder(start, start);
    IsoOrder(start, today);
    IsoOrder(start, before);
  }

  /** For a row whose date is the ISO text of a calendar date, being inside
      the window is being on or after its first day. */
  lemma WindowAdmits(today: CalendarDate, days: int, d: CalendarDate)
    requires days > 0 && MinusDays(today, days - 1).Some?
    ensures LexLe(WindowFor(today, days).value.start, Iso(d)) <==> OnOrBefore(MinusDays(today, days - 1).value, d)
  {
    IsoOrder(MinusDays(today, days - 1).value, d);
  }

  /** Dates never increase along a listing, and identifiers strictly
      decrease within one date. */
  predicate NewestFirstListing(es: seq<Listed>)
  {
    forall i, j :: 0 <= i < j < |es| ==>
      LexLe(es[j].date, es[i].date) && (es[i].date == es[j].date ==> es[j].id < es[i].id)
  }

  /** Listing rows with increasing identifiers in sorted order yields the
      order of `ORDER BY date DESC, id DESC`. */
  lemma ListingInOrder(rows: seq<Expense>)
    requires IdsIncreasing(rows)
    ensures NewestFirstListing(Listing(SortNewestFirst(rows)))
  {
    var sorted := SortNewestFirst(rows);
    var listing := Listing(sorted);
    forall i, j | 0 <= i < j < |listing|
      ensures LexLe(listing[j].date, listing[i].date) && (listing[i].date == listing[j].date ==> listing[j].id < listing[i].id)
    {
      assert ListedBefore(sorted[i], sorted[j]);
      DistinctRowsDistinctIds(rows, sorted, i, j);
      if listing[i].date == listing[j].date {
        LexLeReflexive(listing[i].date);
      }
    }
  }

  // ---- the operation ----

  /** The loop of `summarize_expenses`: one pass over the selected rows
      adding each amount to the total and to its month's and day's buckets. */
  method Accumulate(rows: seq<Expense>) returns (total: real, byMonth: map<string, real>, byDay: map<string, real>)
    ensures total == Total(rows)
    ensures byMonth == Buckets(rows, MonthKey)
    ensures byDay == Buckets(rows, DayKey)
  {
    total := 0.0;
    byMonth := map[];
    byDay := map[];
    for i := 0 to |rows|
      invariant total == Total(rows[..i])
      invariant byMonth == Buckets(rows[..i], MonthKey)
      invariant byDay == Buckets(rows[..i], DayKey)
    {
      assert rows[..i + 1][..i] == rows[..i];
      var amount := rows[i].entry.amount;
      total := total + amount;
      var monthKey := MonthKey(rows[i]);
      byMonth := byMonth[monthKey := (if monthKey in byMonth then byMonth[monthKey] else 0.0) + amount];
      var day := rows[i].entry.date;
      byDay := byDay[day := (if day in byDay then byDay[day] else 0.0) + amount];
    }
    assert rows[..|rows|] == rows;
  }

  /**
   * `summarize_expenses`: one pass over the selected rows accumulates the
   * total and the month and day buckets; the listing holds the same rows
   * ordered by date then identifier, both descending.
   */
  method Summarize(ledger: Ledger, today: CalendarDate, days: int, source: string) returns (r: Option<Summary>)
    requires ledger.Valid()
    ensures r.None? <==> WindowFor(today, days).None?
    ensures r.Some? ==>
      var rows := Selected(ledger.rows, WindowFor(today, days).value, source);
      && r.value.total == Total(rows)
      && r.value.byMonth == Buckets(rows, MonthKey)
      && r.value.byDay == Buckets(rows, DayKey)
      && r.value.expenses == Listing(SortNewestFirst(rows))
    ensures r.Some? ==>
      && r.value.total == SumValues(r.value.byMonth)
      && r.value.total == SumValues(r.value.byDay)
      && r.value.total == ListedTotal(r.value.expenses)
    ensures r.Some? ==> NewestFirstListing(r.value.expenses)
  {
    var w := WindowFor(today, days);
    if w.None? {
      return None;
    }
    var rows := Selected(ledger.rows, w.value, source);
    var total, byMonth, byDay := Accumulate(rows);
    var sorted := SortNewestFirst(rows);
    var listing := Listing(sorted);
    BucketsTotal(rows, MonthKey);
    BucketsTotal(rows, DayKey);
    TotalSort(rows);
    ListedTotalOfListing(sorted);
    SelectedIdsIncreasing(ledger.rows, w.value, source);
    ListingInOrder(rows);
    r := Some(Summary(total, byMonth, byDay, listing));
  }

  /** Two different positions of a listing of rows with increasing ids hold
      different ids. */
  lemma DistinctRowsDistinctIds(rows: seq<Expense>, sorted: seq<Expense>, i: nat, j: nat)
    requires IdsIncreasing(rows) && multiset(sorted) == multiset(rows)
    requires i < j < |sorted|
    ensures sorted[i].id != sorted[j].id
  {
    assert sorted[i] in multiset(rows) && sorted[j] in multiset(rows);
    var a :| 0 <= a < |rows| && rows[a] == sorted[i];
    var b :| 0 <= b < |rows| && rows[b] == sorted[j];
    if a == b {
      var ms := multiset(sorted);
      assert ms[sorted[i]] >= 2 by {
        assert sorted == sorted[..j] + [sorted[j]] + sorted[j + 1..];
        assert sorted[..j] == sorted[..i] + [sorted[i]] + sorted[i + 1..j];
      }
      MultiplicityOne(rows, a);
      assert false;
    }
  }

  /** In a list with strictly increasing ids every row occurs once. */
  lemma {:induction false} MultiplicityOne(rows: seq<Expense>, a: nat)
    requires IdsIncreasing(rows) && a < |rows|
    ensures multiset(rows)[rows[a]] == 1
    decreases |rows|
  {
    var init := rows[..|rows| - 1];
    var last := rows[|rows| - 1];
    assert rows == init + [last];
    if a == |rows| - 1 {
      assert forall t :: 0 <= t < |init| ==> init[t] != last by {
        forall t | 0 <= t < |init| ensures init[t] != last {
          assert init[t].id == rows[t].id < last.id;
        }
      }
      assert multiset(init)[last] == 0;
    } else {
      MultiplicityOne(init, a);
      assert init[a] == rows[a];
      assert rows[a].id < last.id;
    }
  }
}
