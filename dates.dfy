/**
 * Calendar dates as Python's `datetime.date` has them (proleptic Gregorian,
 * years 1 to 9999), subtraction of a number of days, and the ISO text form
 * `YYYY-MM-DD` under which the ledger stores dates.
 */
module Dates {
  import opened Common
  import opened Text

  datatype Date = Date(year: int, month: int, day: int)

  predicate IsLeapYear(y: int)
  {
    y % 4 == 0 && (y % 100 != 0 || y % 400 == 0)
  }

  function DaysInMonth(y: int, m: int): (n: int)
    requires 1 <= m <= 12
    ensures 28 <= n <= 31
    ensures m == 12 ==> n == 31
  {
    if m == 2 then (if IsLeapYear(y) then 29 else 28)
    else if m == 4 || m == 6 || m == 9 || m == 11 then 30
    else 31
  }

  /** The dates `datetime.date` accepts: `date.min` is 0001-01-01, `date.max` 9999-12-31. */
  predicate IsValid(d: Date)
  {
    1 <= d.year <= 9999 && 1 <= d.month <= 12 && 1 <= d.day <= DaysInMonth(d.year, d.month)
  }

  type CalendarDate = d: Date | IsValid(d) witness Date(1, 1, 1)

  /** Chronological order. */
  predicate OnOrBefore(a: Date, b: Date)
  {
    a.year < b.year || (a.year == b.year && (a.month < b.month || (a.month == b.month && a.day <= b.day)))
  }

  /** The day before `d`; `None` where Python raises OverflowError (before `date.min`). */
  function PrevDay(d: CalendarDate): (r: Option<CalendarDate>)
    ensures r.None? <==> d == Date(1, 1, 1)
    ensures r.Some? ==> OnOrBefore(r.value, d) && r.value != d
    ensures r.Some? ==> forall x: CalendarDate :: OnOrBefore(x, d) && x != d ==> OnOrBefore(x, r.value)
  {
    if d.day > 1 then Some(Date(d.year, d.month, d.day - 1))
    else if d.month > 1 then Some(Date(d.year, d.month - 1, DaysInMonth(d.year, d.month - 1)))
    else if d.year > 1 then Some(Date(d.year - 1, 12, 31))
    else None
  }

  /** `d - timedelta(days=n)`: `n` steps back one day each; `None` where Python
      raises OverflowError because the result would fall before 0001-01-01. */
  function MinusDays(d: CalendarDate, n: nat): (r: Option<CalendarDate>)
    ensures r.Some? ==> OnOrBefore(r.value, d)
    ensures n == 0 ==> r == Some(d)
    decreases n
  {
    if n == 0 then Some(d)
    else match PrevDay(d)
      case None => None
      case Some(p) => MinusDays(p, n - 1)
  }

  /** Going back n + 1 days is going back n days and then one more. */
  lemma {:induction false} MinusDaysStep(d: CalendarDate, n: nat)
    ensures MinusDays(d, n + 1) == match MinusDays(d, n)
      case None => None
      case Some(p) => PrevDay(p)
    decreases n
  {
    if n > 0 {
      match PrevDay(d)
      case None =>
      case Some(p) => MinusDaysStep(p, n - 1);
    }
  }

  /** `x` written in decimal with exactly `w` digits, zero-padded on the left
      (`'%0*d' % (w, x)` for `x < 10^w`). */
  function Pad(x: nat, w: nat): (r: string)
    ensures |r| == w
    ensures forall k :: 0 <= k < w ==> IsDigit(r[k])
  {
    if w == 0 then [] else Pad(x / 10, w - 1) + [DigitChar(x % 10)]
  }

  /** Zero-padded numerals of one width compare as text exactly as the numbers do. */
  lemma {:induction false} PadOrder(x: nat, y: nat, w: nat)
    requires x < Pow10(w) && y < Pow10(w)
    ensures LexLe(Pad(x, w), Pad(y, w)) <==> x <= y
    decreases w
  {
    if w > 0 {
      var x', y' := x / 10, y / 10;
      assert x' < Pow10(w - 1) && y' < Pow10(w - 1);
      PadOrder(x', y', w - 1);
      PadOrder(y', x', w - 1);
      LexLeAppend(Pad(x', w - 1), Pad(y', w - 1), [DigitChar(x % 10)], [DigitChar(y % 10)]);
      if Pad(x', w - 1) == Pad(y', w - 1) {
        LexLeReflexive(Pad(x', w - 1));
        assert x' == y';
      }
    }
  }

  /** Reading back a zero-padded numeral gives the number. */
  lemma {:induction false} NumeralOfPad(x: nat, w: nat)
    requires x < Pow10(w)
    ensures AllDigits(Pad(x, w)) && NumeralValue(Pad(x, w)) == x
    decreases w
  {
    if w > 0 {
      NumeralOfPad(x / 10, w - 1);
      var p := Pad(x, w);
      assert p[..|p| - 1] == Pad(x / 10, w - 1);
    }
  }

  lemma PadInjective(x: nat, y: nat, w: nat)
    requires x < Pow10(w) && y < Pow10(w)
    requires Pad(x, w) == Pad(y, w)
    ensures x == y
  {
    LexLeReflexive(Pad(x, w));
    PadOrder(x, y, w);
    PadOrder(y, x, w);
  }

  /** Python's `d.isoformat()`. */
  function Iso(d: CalendarDate): (s: string)
    ensures |s| == 10 && s[4] == '-' && s[7] == '-'
  {
    Pad(d.year, 4) + ("-" + (Pad(d.month, 2) + ("-" + Pad(d.day, 2))))
  }

  /** ISO date text sorts exactly as the dates do, so a string comparison of
      two well-formed dates is a date comparison. */
  lemma IsoOrder(a: CalendarDate, b: CalendarDate)
    ensures LexLe(Iso(a), Iso(b)) <==> OnOrBefore(a, b)
  {
    assert Pow10(2) == 100 && Pow10(4) == 10000;
    var ta := "-" + (Pad(a.month, 2) + ("-" + Pad(a.day, 2)));
    var tb := "-" + (Pad(b.month, 2) + ("-" + Pad(b.day, 2)));
    LexLeAppend(Pad(a.year, 4), Pad(b.year, 4), ta, tb);
    PadOrder(a.year, b.year, 4);
    if Pad(a.year, 4) == Pad(b.year, 4) {
      PadInjective(a.year, b.year, 4);
      var ua := Pad(a.month, 2) + ("-" + Pad(a.day, 2));
      var ub := Pad(b.month, 2) + ("-" + Pad(b.day, 2));
      LexLeAppend("-", "-", ua, ub);
      LexLeAppend(Pad(a.month, 2), Pad(b.month, 2), "-" + Pad(a.day, 2), "-" + Pad(b.day, 2));
      PadOrder(a.month, b.month, 2);
      if Pad(a.month, 2) == Pad(b.month, 2) {
        PadInjective(a.month, b.month, 2);
        LexLeAppend("-", "-", Pad(a.day, 2), Pad(b.day, 2));
        PadOrder(a.day, b.day, 2);
      }
    } else {
      assert a.year != b.year;
    }
  }
}
