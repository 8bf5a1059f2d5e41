/**
 * The order in which the summary lists expenses: `ORDER BY date DESC, id DESC`,
 * dates being compared as text. The sort itself is SQLite's; here it is an
 * insertion sort proved to produce that order and to keep every row.
 */
module Ordering {
  import opened Text
  import opened Expenses

  /** `a` may be listed ahead of `b`: a later date (as text), or the same date
      and an identifier at least as large. */
  predicate ListedBefore(a: Expense, b: Expense)
  {
    if a.entry.date == b.entry.date then b.id <= a.id
    else LexLe(b.entry.date, a.entry.date)
  }

  /** Dates never increase along `s`, and identifiers never increase within one date. */
  predicate NewestFirst(s: seq<Expense>)
  {
    forall i, j :: 0 <= i < j < |s| ==> ListedBefore(s[i], s[j])
  }

  lemma ListedBeforeTotal(a: Expense, b: Expense)
    ensures ListedBefore(a, b) || ListedBefore(b, a)
  {
    LexLeTotal(a.entry.date, b.entry.date);
  }

  lemma ListedBeforeTransitive(a: Expense, b: Expense, c: Expense)
    requires ListedBefore(a, b) && ListedBefore(b, c)
    ensures ListedBefore(a, c)
  {
    var da, db, dc := a.entry.date, b.entry.date, c.entry.date;
    if da != db && db != dc {
      LexLeTransitive(dc, db, da);
      if da == dc { LexLeAntisymmetric(da, db); }
    }
  }

  /** A row listed ahead of every row of an ordered list may lead it. */
  lemma PrependInOrder(a: Expense, t: seq<Expense>)
    requires NewestFirst(t)
    requires forall k :: 0 <= k < |t| ==> ListedBefore(a, t[k])
    ensures NewestFirst([a] + t)
  {
    var u := [a] + t;
    forall i, j | 0 <= i < j < |u| ensures ListedBefore(u[i], u[j]) {
      assert u[j] == t[j - 1];
      if i > 0 { assert u[i] == t[i - 1]; }
    }
  }

  /** A row listed ahead of the first row of an ordered list is listed ahead
      of all of it. */
  lemma AheadOfFirst(x: Expense, s: seq<Expense>)
    requires s != [] && NewestFirst(s) && ListedBefore(x, s[0])
    ensures forall j :: 0 <= j < |s| ==> ListedBefore(x, s[j])
  {
    forall j | 0 < j < |s| ensures ListedBefore(x, s[j]) {
      ListedBeforeTransitive(x, s[0], s[j]);
    }
  }

  /** A row listed ahead of every row of `t` and of `x` is listed ahead of
      every row of any arrangement of them. */
  lemma AheadOfAll(a: Expense, t: seq<Expense>, x: Expense, u: seq<Expense>)
    requires multiset(u) == multiset(t) + multiset{x}
    requires ListedBefore(a, x)
    requires forall j :: 0 <= j < |t| ==> ListedBefore(a, t[j])
    ensures forall k :: 0 <= k < |u| ==> ListedBefore(a, u[k])
  {
    forall k | 0 <= k < |u| ensures ListedBefore(a, u[k]) {
      assert u[k] in multiset(u);
      if u[k] != x {
        assert u[k] in multiset(t);
        var j :| 0 <= j < |t| && t[j] == u[k];
      }
    }
  }

  /** Places `x` into a list already in order. */
  function Insert(x: Expense, s: seq<Expense>): (r: seq<Expense>)
    requires NewestFirst(s)
    ensures multiset(r) == multiset(s) + multiset{x}
    ensures NewestFirst(r)
  {
    if s == [] then [x]
    else if ListedBefore(x, s[0]) then
      AheadOfFirst(x, s);
      PrependInOrder(x, s);
      [x] + s
    else
      assert s == [s[0]] + s[1..];
      var rest := Insert(x, s[1..]);
      ListedBeforeTotal(x, s[0]);
      assert forall j :: 0 <= j < |s[1..]| ==> ListedBefore(s[0], s[1..][j]) by {
        forall j | 0 <= j < |s[1..]| ensures ListedBefore(s[0], s[1..][j]) {
          assert s[1..][j] == s[j + 1];
        }
      }
      AheadOfAll(s[0], s[1..], x, rest);
      PrependInOrder(s[0], rest);
      [s[0]] + rest
  }

  /** The rows of `s` in listing order. */
  function SortNewestFirst(s: seq<Expense>): (r: seq<Expense>)
    ensures multiset(r) == multiset(s)
    ensures NewestFirst(r)
  {
    if s == [] then []
    else
      assert s == [s[0]] + s[1..];
      Insert(s[0], SortNewestFirst(s[1..]))
  }

  predicate DistinctIds(s: seq<Expense>)
  {
    forall i, j :: 0 <= i < j < |s| ==> s[i].id != s[j].id
  }

  /** Two orderings of the same rows with distinct identifiers begin with
      the same row. */
  lemma SameHead(a: seq<Expense>, b: seq<Expense>)
    requires a != [] && multiset(a) == multiset(b) && DistinctIds(a)
    requires NewestFirst(a) && NewestFirst(b)
    ensures b != [] && a[0] == b[0]
  {
    assert a[0] in multiset(b);
    var i :| 0 <= i < |b| && b[i] == a[0];
    assert b[0] in multiset(a);
    var j :| 0 <= j < |a| && a[j] == b[0];
    assert ListedBefore(b[0], a[0]) by { if i > 0 { assert ListedBefore(b[0], b[i]); } }
    assert ListedBefore(a[0], b[0]) by { if j > 0 { assert ListedBefore(a[0], a[j]); } }
    if a[0].entry.date != b[0].entry.date {
      LexLeAntisymmetric(a[0].entry.date, b[0].entry.date);
    }
    assert a[j].id == a[0].id;
    assert j == 0;
  }

  /** Dropping the same first row from two orderings of the same rows leaves
      orderings of the same rows. */
  lemma SameTail(a: seq<Expense>, b: seq<Expense>)
    requires a != [] && b != [] && a[0] == b[0] && multiset(a) == multiset(b)
    ensures multiset(a[1..]) == multiset(b[1..])
  {
    assert a == [a[0]] + a[1..] && b == [b[0]] + b[1..];
    assert multiset(a[1..]) == multiset(a) - multiset{a[0]};
    assert multiset(b[1..]) == multiset(b) - multiset{b[0]};
  }

  /** With distinct identifiers the listing order is total, so only one
      arrangement of a set of rows is in order: the one the query returns. */
  lemma {:induction false} NewestFirstUnique(a: seq<Expense>, b: seq<Expense>)
    requires multiset(a) == multiset(b) && DistinctIds(a)
    requires NewestFirst(a) && NewestFirst(b)
    ensures a == b
    decreases |a|
  {
    if a == [] {
      assert |b| == |multiset(b)| == 0;
    } else {
      SameHead(a, b);
      SameTail(a, b);
      NewestFirstUnique(a[1..], b[1..]);
      assert a == [a[0]] + a[1..] && b == [b[0]] + b[1..];
    }
  }
}
