/**
 * The insight generator: from the per-month totals of a summary, what was
 * spent in the latest month and per day of it, and how it compares with the
 * month before. Insights are returned as values rather than sentences.
 */
module Insights {
  import opened Common
  import opened Text
  import opened Dates
  import Expenses
  import Summaries

  datatype Direction = Higher | Lower

  datatype Insight =
    /** "Spending in {month}: ₹{spend} (avg ₹{dailyAverage} per day)." */
    | MonthSpend(month: string, spend: real, dailyAverage: real)
    /** "{month} is {percent}% {direction} than {previous}." */
    | MonthChange(month: string, previous: string, percent: real, direction: Direction)

  /** Why the generator raises instead of returning insights. */
  datatype InsightError =
    /** The greatest key is not two decimal numerals joined by one '-'
        (the unpacking or `int()` raises ValueError). */
    | MalformedMonthKey(key: string)
    /** The key's year is outside 1..9999, so `date(y, m % 12 + 1, 1)` raises
        ValueError, or it is year 1 with `m % 12 == 0`, so the day before
        0001-01-01 raises OverflowError. */
    | YearOutOfRange(year: int, month: int)

  // ---- the latest month key ----

  lemma LexLeAntisymmetricAll()
    ensures forall a, b :: LexLe(a, b) && LexLe(b, a) ==> a == b
  {
    forall a, b | LexLe(a, b) && LexLe(b, a) ensures a == b {
      LexLeAntisymmetric(a, b);
    }
  }

  /** Every non-empty set of keys has a greatest one in text order. */
  lemma {:induction false} GreatestExists(keys: set<string>)
    requires keys != {}
    ensures exists g :: g in keys && forall k :: k in keys ==> LexLe(k, g)
    decreases |keys|
  {
    var x :| x in keys;
    LexLeReflexive(x);
    if keys == {x} {
      assert forall k :: k in keys ==> LexLe(k, x);
    } else {
      var rest := keys - {x};
      GreatestExists(rest);
      var g :| g in rest && forall k :: k in rest ==> LexLe(k, g);
      LexLeTotal(x, g);
      if LexLe(x, g) {
        assert forall k :: k in keys ==> LexLe(k, g);
      } else {
        forall k | k in keys ensures LexLe(k, x) {
          if k != x { LexLeTransitive(k, g, x); }
        }
      }
    }
  }

  /** `sorted(keys)[-1]`: the greatest key in code-point order. */
  function Greatest(keys: set<string>): (g: string)
    requires keys != {}
    ensures g in keys
    ensures forall k :: k in keys ==> LexLe(k, g)
  {
    GreatestExists(keys);
    LexLeAntisymmetricAll();
    var g :| g in keys && forall k :: k in keys ==> LexLe(k, g);
    g
  }

  // ---- the month key as numbers ----

  /** `y, m = map(int, key.split("-"))` on keys made of ASCII digits:
      exactly one '-', with a non-empty numeral on each side. */
  function ParseMonthKey(key: string): (r: Option<(nat, nat)>)
    ensures r.Some? ==> exists i :: (0 < i < |key| - 1 && key[i] == '-'
      && AllDigits(key[..i]) && AllDigits(key[i + 1..])
      && r.value == (NumeralValue(key[..i]), NumeralValue(key[i + 1..])))
    ensures r.None? ==> forall i :: 0 < i < |key| - 1 && key[i] == '-' ==>
      !(AllDigits(key[..i]) && AllDigits(key[i + 1..]))
  {
    var y := BeforeFirst(key, '-');
    if |y| == |key| then None
    else
      var m := key[|y| + 1..];
      if y != [] && m != [] && AllDigits(y) && AllDigits(m) then Some((NumeralValue(y), NumeralValue(m)))
      else None
  }

  /** The month key of a date, as the summary buckets it: `YYYY-MM`. */
  function MonthText(d: CalendarDate): (s: string)
    ensures |s| == 7
  {
    Pad(d.year, 4) + "-" + Pad(d.month, 2)
  }

  lemma MonthTextOfIso(d: CalendarDate)
    ensures Iso(d)[..7] == MonthText(d)
  {
    assert Iso(d)[..7] == Pad(d.year, 4) + "-" + Pad(d.month, 2);
  }

  /** The month key of a date reads back as its year and month. */
  lemma {:induction false} ParseMonthText(d: CalendarDate)
    ensures ParseMonthKey(MonthText(d)) == Some((d.year as nat, d.month as nat))
  {
    assert Pow10(2) == 100 && Pow10(4) == 10000;
    NumeralOfPad(d.year, 4);
    NumeralOfPad(d.month, 2);
    var key := MonthText(d);
    assert key[4] == '-';
    assert key[..4] == Pad(d.year, 4) && key[5..] == Pad(d.month, 2);
    assert forall k :: 0 <= k < 4 ==> key[k] != '-';
    assert BeforeFirst(key, '-') == key[..4];
  }

  // ---- the day count ----

  /**
   * The number of days the average divides by: today's day of the month
   * when the key is the current month, otherwise the day of
   * `date(y, m % 12 + 1, 1) - timedelta(days=1)`; `None` where that raises.
   */
  function DaysSoFar(y: nat, m: nat, today: CalendarDate): (r: Option<int>)
    ensures today.year == y && today.month == m ==> r == Some(today.day)
    ensures r.Some? ==> 1 <= r.value <= 31
    ensures !(today.year == y && today.month == m) ==>
      (r.None? <==> y < 1 || y > 9999 || (y == 1 && m % 12 == 0))
    ensures !(today.year == y && today.month == m) && 1 <= m <= 12 && r.Some? ==>
      r.value == DaysInMonth(y, m)
    ensures !(today.year == y && today.month == m) && r.Some? ==>
      r.value == if m % 12 == 0 then 31 else DaysInMonth(y, m % 12)
  {
    if today.year == y && today.month == m then Some(today.day)
    else if 1 <= y <= 9999 then
      match PrevDay(Date(y, m % 12 + 1, 1))
      case None => None
      case Some(p) => Some(p.day)
    else None
  }

  /** `p` is `sorted(keys)[-2]` when `last` is `sorted(keys)[-1]`. */
  predicate RunnerUp(byMonth: map<string, real>, last: string, p: string)
  {
    p in byMonth && p != last && forall k :: k in byMonth && k != last ==> LexLe(k, p)
  }

  /** Only one key can be the runner-up, and there is one exactly when the
      map holds a second key. */
  lemma RunnerUpUnique(byMonth: map<string, real>, last: string, p: string, q: string)
    requires RunnerUp(byMonth, last, p) && RunnerUp(byMonth, last, q)
    ensures p == q
  {
    LexLeAntisymmetric(p, q);
  }

  lemma TwoKeys(byMonth: map<string, real>, last: string, p: string)
    requires last in byMonth && p in byMonth && p != last
    ensures |byMonth| >= 2
  {
    assert {last, p} <= byMonth.Keys;
    assert |{last, p}| == 2;
    SubsetCard({last, p}, byMonth.Keys);
  }

  lemma {:induction false} SubsetCard(a: set<string>, b: set<string>)
    requires a <= b
    ensures |a| <= |b|
    decreases |a|
  {
    if a != {} {
      var x :| x in a;
      SubsetCard(a - {x}, b - {x});
    }
  }

  function Abs(x: real): real
  {
    if x < 0.0 then -x else x
  }

  // ---- the generator ----

  /** `change` is the sentence comparing `last` with the runner-up key `p`:
      the spend of `p` is positive, the direction is "higher" exactly when
      `last` spent more, and the percentage is the change relative to `p`. */
  predicate Compares(byMonth: map<string, real>, last: string, change: Insight)
  {
    && last in byMonth
    && change.MonthChange?
    && change.month == last
    && RunnerUp(byMonth, last, change.previous)
    && byMonth[change.previous] > 0.0
    && (change.direction == Higher <==> byMonth[last] > byMonth[change.previous])
    && change.percent * byMonth[change.previous] == Abs(byMonth[last] - byMonth[change.previous]) * 100.0
  }

  /** The second sentence: how the month `last` compares with the key
      before it, when there is one and its spend is positive. */
  function Comparison(byMonth: map<string, real>, last: string): (c: Option<Insight>)
    requires last in byMonth && forall k :: k in byMonth ==> LexLe(k, last)
    ensures c.Some? <==> exists p :: RunnerUp(byMonth, last, p) && byMonth[p] > 0.0
    ensures c.Some? ==> Compares(byMonth, last, c.value)
  {
    if |byMonth| >= 2 then
      assert |byMonth.Keys - {last}| == |byMonth.Keys| - 1;
      var prev := Greatest(byMonth.Keys - {last});
      var spend, prevSpend := byMonth[last], byMonth[prev];
      assert forall p :: RunnerUp(byMonth, last, p) ==> p == prev by {
        forall p | RunnerUp(byMonth, last, p) ensures p == prev {
          RunnerUpUnique(byMonth, last, p, prev);
        }
      }
      if prevSpend > 0.0 then
        var diff := spend - prevSpend;
        var pct := diff / prevSpend * 100.0;
        assert Abs(pct) * prevSpend == Abs(diff) * 100.0 by {
          assert pct * prevSpend == diff * 100.0;
        }
        Some(MonthChange(last, prev, Abs(pct), if diff > 0.0 then Higher else Lower))
      else None
    else
      assert forall p :: !RunnerUp(byMonth, last, p) by {
        forall p | RunnerUp(byMonth, last, p) ensures false {
          TwoKeys(byMonth, last, p);
        }
      }
      None
  }

  /** The first sentence, or why the generator raises: the spend of the
      greatest month key and its average over the key's day count. */
  function Headline(byMonth: map<string, real>, today: CalendarDate): (r: Result<Insight, InsightError>)
    requires byMonth.Keys != {}
    ensures r.Ok? ==> r.value.MonthSpend? && r.value.month == Greatest(byMonth.Keys)
  {
    var last := Greatest(byMonth.Keys);
    var spend := byMonth[last];
    match ParseMonthKey(last)
    case None => Err(MalformedMonthKey(last))
    case Some((y, m)) =>
      match DaysSoFar(y, m, today)
      case None => Err(YearOutOfRange(y, m))
      case Some(days) => Ok(MonthSpend(last, spend, spend / days as real))
  }

  /** `build_insights`: nothing for an empty map; otherwise the spend of the
      greatest month key and its daily average, then its comparison with the
      next greatest key. */
  function BuildInsights(byMonth: map<string, real>, today: CalendarDate): (r: Result<seq<Insight>, InsightError>)
    ensures r == Ok([]) <==> byMonth == map[]
    ensures r.Ok? ==> |r.value| <= 2
    ensures r.Ok? && byMonth != map[] ==> 1 <= |r.value|
  {
    if byMonth.Keys == {} then Ok([])
    else
      match Headline(byMonth, today)
      case Err(e) => Err(e)
      case Ok(first) =>
        match Comparison(byMonth, Greatest(byMonth.Keys))
        case None => Ok([first])
        case Some(change) => Ok([first, change])
  }

  /** The generator raises exactly when the greatest key does not read as a
      year and month, or that month has no last day in range. */
  lemma InsightsFail(byMonth: map<string, real>, today: CalendarDate)
    requires byMonth.Keys != {}
    ensures var g := Greatest(byMonth.Keys);
      && (BuildInsights(byMonth, today) == Err(MalformedMonthKey(g)) <==> ParseMonthKey(g).None?)
      && (BuildInsights(byMonth, today).Err? <==>
            ParseMonthKey(g).None? || DaysSoFar(ParseMonthKey(g).value.0, ParseMonthKey(g).value.1, today).None?)
  {
    var h := Headline(byMonth, today);
    assert BuildInsights(byMonth, today).Err? <==> h.Err?;
    assert h.Err? ==> BuildInsights(byMonth, today) == Err(h.error);
  }

  /** `first` is the sentence about month `last`: its total, and that total
      divided by the month's day count, which is positive. */
  predicate Averages(byMonth: map<string, real>, today: CalendarDate, last: string, first: Insight)
  {
    && last in byMonth
    && first.MonthSpend?
    && first.month == last
    && first.spend == byMonth[last]
    && ParseMonthKey(last).Some?
    && var days := DaysSoFar(ParseMonthKey(last).value.0, ParseMonthKey(last).value.1, today);
       days.Some? && 1 <= days.value && first.dailyAverage == first.spend / days.value as real
  }

  lemma HeadlineAverages(byMonth: map<string, real>, today: CalendarDate)
    requires byMonth.Keys != {} && Headline(byMonth, today).Ok?
    ensures Averages(byMonth, today, Greatest(byMonth.Keys), Headline(byMonth, today).value)
  {
  }

  /** The output of a generator that does not raise: the headline, then the
      comparison when there is one. */
  lemma InsightsShape(byMonth: map<string, real>, today: CalendarDate, r: seq<Insight>)
    requires BuildInsights(byMonth, today) == Ok(r) && byMonth.Keys != {}
    ensures Headline(byMonth, today).Ok? && 1 <= |r| && r[0] == Headline(byMonth, today).value
    ensures var c := Comparison(byMonth, Greatest(byMonth.Keys));
      r[1..] == if c.Some? then [c.value] else []
  {
  }

  /** The first insight is about the greatest key: its total and that total
      spread over a positive number of days. */
  lemma FirstInsight(byMonth: map<string, real>, today: CalendarDate, r: seq<Insight>)
    requires BuildInsights(byMonth, today) == Ok(r) && byMonth.Keys != {}
    ensures 1 <= |r|
    ensures Averages(byMonth, today, Greatest(byMonth.Keys), r[0])
  {
    InsightsShape(byMonth, today, r);
    HeadlineAverages(byMonth, today);
  }

  /** The comparison appears exactly when a second key exists and its spend
      is positive; it says "higher" exactly when the latest month spent more. */
  lemma SecondInsight(byMonth: map<string, real>, today: CalendarDate, r: seq<Insight>)
    requires BuildInsights(byMonth, today) == Ok(r) && byMonth.Keys != {}
    ensures |r| == 2 <==> exists p :: RunnerUp(byMonth, Greatest(byMonth.Keys), p) && byMonth[p] > 0.0
    ensures |r| == 2 ==> Compares(byMonth, Greatest(byMonth.Keys), r[1])
  {
    InsightsShape(byMonth, today, r);
    if |r| == 2 {
      assert r[1] == r[1..][0];
    }
  }

  /** When the greatest key is the month of a calendar date other than
      December of year 1, the generator never raises. */
  lemma IsoMonthsSucceed(byMonth: map<string, real>, today: CalendarDate, d: CalendarDate)
    requires byMonth.Keys != {} && Greatest(byMonth.Keys) == MonthText(d)
    requires d.year > 1 || d.month < 12
    ensures BuildInsights(byMonth, today).Ok?
  {
    ParseMonthText(d);
    CalendarMonthDays(d, today);
    assert Headline(byMonth, today).Ok?;
  }

  lemma CalendarMonthDays(d: CalendarDate, today: CalendarDate)
    requires d.year > 1 || d.month < 12
    ensures DaysSoFar(d.year, d.month, today).Some?
  {
    assert d.month % 12 == 0 ==> d.month == 12;
  }

  /** For such a key, the average is over today's day of the month when the
      key is the current month, and over all the month's days otherwise. */
  lemma IsoMonthAverage(byMonth: map<string, real>, today: CalendarDate, d: CalendarDate, r: seq<Insight>)
    requires byMonth.Keys != {} && Greatest(byMonth.Keys) == MonthText(d)
    requires BuildInsights(byMonth, today) == Ok(r)
    ensures 1 <= |r| && r[0].MonthSpend? && r[0].month == MonthText(d)
    ensures today.year == d.year && today.month == d.month ==>
      r[0].dailyAverage == r[0].spend / today.day as real
    ensures !(today.year == d.year && today.month == d.month) ==>
      r[0].dailyAverage == r[0].spend / DaysInMonth(d.year, d.month) as real
  {
    FirstInsight(byMonth, today, r);
    ParseMonthText(d);
  }

  /** The key `summarize_expenses` files a row under, when the row's date is
      the ISO text of a calendar date, is that date's `YYYY-MM` text, which
      reads back as the date's year and month. */
  lemma MonthKeyOfIsoDate(e: Expenses.Expense, d: CalendarDate)
    requires e.entry.date == Iso(d)
    ensures Summaries.MonthKey(e) == MonthText(d)
    ensures ParseMonthKey(Summaries.MonthKey(e)) == Some((d.year as nat, d.month as nat))
  {
    MonthTextOfIso(d);
    ParseMonthText(d);
  }
}
