/** `getWeeks`: for each year, the weeks that start on a Monday of that
    year, numbered from 1. A date is a day number in the proleptic Gregorian
    calendar, day 0 being 1 January of year 1 (a Monday); a week's `from`,
    `to` and `days` are day numbers rather than 'YYYY-MM-DD' strings. */
module Weeks {

  /** Day number of 1 January of year `y`. */
  function YearStart(y: int): int
    requires y >= 1
  {
    var p := y - 1;
    365 * p + p / 4 - p / 100 + p / 400
  }

  predicate IsLeap(y: int) {
    y % 4 == 0 && (y % 100 != 0 || y % 400 == 0)
  }

  /** A year has 366 days when it is a leap year and 365 otherwise. */
  lemma YearLength(y: int)
    requires y >= 1
    ensures YearStart(y + 1) - YearStart(y) == if IsLeap(y) then 366 else 365
  {
    StepOver4(y);
    StepOver100(y);
    StepOver400(y);
    Divisors(y);
  }

  /** Moving from year `y - 1` to `y` passes one more multiple of 4 exactly
      when `y` is one; the same for 100 and 400. */
  lemma StepOver4(y: int)
    ensures y / 4 == (y - 1) / 4 + (if y % 4 == 0 then 1 else 0)
  {
  }

  lemma StepOver100(y: int)
    ensures y / 100 == (y - 1) / 100 + (if y % 100 == 0 then 1 else 0)
  {
  }

  lemma StepOver400(y: int)
    ensures y / 400 == (y - 1) / 400 + (if y % 400 == 0 then 1 else 0)
  {
  }

  lemma Divisors(y: int)
    ensures (y % 100 == 0 ==> y % 4 == 0) && (y % 400 == 0 ==> y % 100 == 0)
  {
  }

  /** `Date.prototype.getDay`: 0 for Sunday, 1 for Monday, … 6 for Saturday. */
  function GetDay(d: int): (w: int)
    ensures 0 <= w < 7
  {
    (d + 1) % 7
  }

  /** Stepping `j` days forward advances the weekday by `j`, modulo 7. */
  lemma DayAfter(d: int, j: nat)
    ensures GetDay(d + j) == (GetDay(d) + j) % 7
  {
    var a := (d + 1) / 7;
    var g := GetDay(d);
    var b := (g + j) / 7;
    var c := (g + j) % 7;
    assert d + j + 1 == 7 * (a + b) + c;
  }

  /** The first Monday on or after day `s` is `s` plus this offset. */
  lemma MondayOffset(s: int)
    ensures var r := s + (8 - GetDay(s)) % 7;
      s <= r < s + 7 && GetDay(r) == 1 && forall d :: s <= d < r ==> GetDay(d) != 1
  {
    var r := s + (8 - GetDay(s)) % 7;
    DayAfter(s, r - s);
    forall d | s <= d < r ensures GetDay(d) != 1 {
      DayAfter(s, d - s);
    }
  }

  /** The first Monday on or after 1 January (the first loop of `getWeeks`). */
  function FirstMonday(y: int): (r: int)
    requires y >= 1
    ensures YearStart(y) <= r < YearStart(y) + 7 && GetDay(r) == 1
    ensures forall d :: YearStart(y) <= d < r ==> GetDay(d) != 1
  {
    MondayOffset(YearStart(y));
    YearStart(y) + (8 - GetDay(YearStart(y))) % 7
  }

  /** A recorded week: its first day, its last day and its seven days. */
  datatype Week = Week(from: int, to: int, days: seq<int>)

  /** The week that starts on day `from`. */
  function WeekFrom(from: int): Week
  {
    Week(from, from + 6, seq(7, j => from + j))
  }

  /** Week number `k` of year `y`. */
  function WeekAt(y: int, k: int): Week
    requires y >= 1
  {
    WeekFrom(FirstMonday(y) + 7 * (k - 1))
  }

  /** How many weeks `getWeeks` records for year `y`: the number of weeks
      whose first day falls before 1 January of `y + 1`. */
  function WeekCount(y: int): (n: int)
    requires y >= 1
    ensures n >= 1
    ensures FirstMonday(y) + 7 * (n - 1) < YearStart(y + 1) <= FirstMonday(y) + 7 * n
  {
    YearLength(y);
    (YearStart(y + 1) - FirstMonday(y) + 6) / 7
  }

  /** What `getWeeks` stores under one year: weeks 1 to `WeekCount(y)`. */
  function YearWeeks(y: int): map<int, Week>
    requires y >= 1
  {
    map k | 1 <= k <= WeekCount(y) :: WeekAt(y, k)
  }

  /** The body of `years.map` for one year, with its two loops: step a date
      forward to the first Monday, then record a week and step 7 days at a
      time while the start date is before 1 January of the next year. In the
      last week the source first steps `to` back to 31 December to compute a
      provisional end, which it then overwrites with `from` + 6 like every
      other week. */
  method WeeksOfYear(year: int) returns (m: map<int, Week>)
    requires year >= 100
    ensures m == YearWeeks(year)
  {
    var d := YearStart(year);
    while GetDay(d) != 1
      invariant YearStart(year) <= d <= FirstMonday(year)
      decreases FirstMonday(year) - d
    {
      d := d + 1;
    }
    var fm := FirstMonday(year);
    assert d == fm;
    var ye := YearStart(year + 1);
    var n := WeekCount(year);
    var to := ye;
    var i := 1;
    m := map[];
    var from := d;
    while from < to
      invariant 1 <= i <= n + 1
      invariant forall k :: k in m <==> 1 <= k < i
      invariant forall k :: k in m ==> m[k] == WeekAt(year, k)
      invariant (to == ye && from == fm + 7 * (i - 1))
             || (to == ye - 1 && i == n + 1 && from == fm + 7 * (i - 2) + 6)
      decreases ye - from
    {
      var weekFrom := from;
      from := from + 6;
      if from < to {
        from := from + 1;
      } else {
        to := to - 1;
      }
      assert WeekFrom(weekFrom) == WeekAt(year, i);
      m := m[i := WeekFrom(weekFrom)];
      i := i + 1;
    }
    assert i == n + 1;
    assert m.Keys == YearWeeks(year).Keys;
  }

  /** `getWeeks`: one entry per input year, each holding that year's weeks. */
  method GetWeeks(years: seq<int>) returns (m: map<int, map<int, Week>>)
    requires forall j :: 0 <= j < |years| ==> years[j] >= 100
    ensures m.Keys == set y | y in years
    ensures forall y :: y in m ==> y >= 100 && m[y] == YearWeeks(y)
  {
    m := map[];
    var j := 0;
    while j < |years|
      invariant 0 <= j <= |years|
      invariant m.Keys == set y | y in years[..j]
      invariant forall y :: y in m ==> y >= 100 && m[y] == YearWeeks(y)
    {
      var weeks := WeeksOfYear(years[j]);
      assert years[..j + 1] == years[..j] + [years[j]];
      m := m[years[j] := weeks];
      j := j + 1;
    }
    assert years[..j] == years;
  }

  /** Every week is seven consecutive days starting on a Monday, and `to` is
      the last of them. */
  lemma WeekShape(y: int, k: int)
    requires y >= 1 && k >= 1
    ensures var w := WeekAt(y, k);
      && |w.days| == 7 && w.days[0] == w.from && w.to == w.days[6]
      && (forall j :: 0 <= j < 7 ==> w.days[j] == w.from + j)
      && GetDay(w.from) == 1
  {
    var f := FirstMonday(y);
    assert GetDay(f + 7 * (k - 1)) == GetDay(f) by { MondayStride(f, k - 1); }
  }

  lemma MondayStride(d: int, j: nat)
    ensures GetDay(d + 7 * j) == GetDay(d)
  {
    DayAfter(d, 7 * j);
  }

  /** Week 1 starts on the first Monday on or after 1 January; the days of
      the year before it belong to no week. */
  lemma FirstWeek(y: int, d: int, k: int)
    requires y >= 1 && k >= 1 && YearStart(y) <= d < FirstMonday(y)
    ensures WeekAt(y, 1).from == FirstMonday(y)
    ensures d !in WeekAt(y, k).days
  {
  }

  /** Consecutive weeks start exactly seven days apart. */
  lemma WeekSpacing(y: int, k: int)
    requires y >= 1 && k >= 1
    ensures WeekAt(y, k + 1).from == WeekAt(y, k).from + 7
  {
  }

  /** Every recorded week starts inside the year, and the last one contains
      31 December, so its end may fall in January of the next year. */
  lemma LastWeek(y: int)
    requires y >= 1
    ensures forall k :: 1 <= k <= WeekCount(y) ==> YearStart(y) <= WeekAt(y, k).from < YearStart(y + 1)
    ensures var w := WeekAt(y, WeekCount(y)); w.from <= YearStart(y + 1) - 1 <= w.to
  {
  }

  /** A year has 52 or 53 weeks. */
  lemma WeekCountBounds(y: int)
    requires y >= 1
    ensures 52 <= WeekCount(y) <= 53
  {
    YearLength(y);
  }

  /** The weeks tile the days from the first Monday to the end of the last
      week: each such day lies in exactly one week, the one `(d - first
      Monday) / 7 + 1`. */
  lemma WeeksTile(y: int, d: int, k: int)
    requires y >= 1
    requires FirstMonday(y) <= d < FirstMonday(y) + 7 * WeekCount(y)
    ensures var q := (d - FirstMonday(y)) / 7 + 1;
      1 <= q <= WeekCount(y) && d in WeekAt(y, q).days
    ensures 1 <= k <= WeekCount(y) && d in WeekAt(y, k).days ==> k == (d - FirstMonday(y)) / 7 + 1
  {
    var f := FirstMonday(y);
    var q := (d - f) / 7 + 1;
    assert WeekAt(y, q).days[(d - f) % 7] == d;
    if 1 <= k <= WeekCount(y) && d in WeekAt(y, k).days {
      var j :| 0 <= j < 7 && WeekAt(y, k).days[j] == d;
      assert d - f == 7 * (k - 1) + j;
    }
  }

  /** The number of Mondays in the day range [lo, hi). */
  function CountMondays(lo: int, hi: int): (n: int)
    ensures n >= 0
    decreases hi - lo
  {
    if hi <= lo then 0 else CountMondays(lo, hi - 1) + (if GetDay(hi - 1) == 1 then 1 else 0)
  }

  lemma {:induction false} CountSplit(lo: int, mid: int, hi: int)
    requires lo <= mid <= hi
    ensures CountMondays(lo, hi) == CountMondays(lo, mid) + CountMondays(mid, hi)
    decreases hi - mid
  {
    if hi > mid {
      CountSplit(lo, mid, hi - 1);
    }
  }

  /** A range that starts on a Monday and is at most a week long holds one Monday. */
  lemma {:induction false} OneMonday(d: int, len: int)
    requires GetDay(d) == 1 && 1 <= len <= 7
    ensures CountMondays(d, d + len) == 1
    decreases len
  {
    if len > 1 {
      OneMonday(d, len - 1);
      DayAfter(d, len - 1);
    }
  }

  /** A range with no Monday counts none. */
  lemma {:induction false} NoMonday(lo: int, hi: int)
    requires forall d :: lo <= d < hi ==> GetDay(d) != 1
    ensures CountMondays(lo, hi) == 0
    decreases hi - lo
  {
    if hi > lo {
      NoMonday(lo, hi - 1);
    }
  }

  lemma {:induction false} MondaysInWeeks(d: int, j: nat)
    requires GetDay(d) == 1
    ensures CountMondays(d, d + 7 * j) == j
  {
    if j > 0 {
      MondaysInWeeks(d, j - 1);
      CountSplit(d, d + 7 * (j - 1), d + 7 * j);
      MondayStride(d, j - 1);
      OneMonday(d + 7 * (j - 1), 7);
    }
  }

  /** One week per Monday: the number of weeks recorded for a year is the
      number of Mondays in that year. */
  lemma WeekCountIsMondays(y: int)
    requires y >= 1
    ensures WeekCount(y) == CountMondays(YearStart(y), YearStart(y + 1))
  {
    var s := YearStart(y);
    var e := YearStart(y + 1);
    var f := FirstMonday(y);
    var n := WeekCount(y);
    var last := f + 7 * (n - 1);
    MondaysBeforeFirst(y);
    MondaysOfFullWeeks(y);
    MondaysOfLastWeek(y);
    CountSplit(s, f, e);
    CountSplit(f, last, e);
  }

  lemma MondaysBeforeFirst(y: int)
    requires y >= 1
    ensures CountMondays(YearStart(y), FirstMonday(y)) == 0
  {
    NoMonday(YearStart(y), FirstMonday(y));
  }

  lemma MondaysOfFullWeeks(y: int)
    requires y >= 1
    ensures CountMondays(FirstMonday(y), FirstMonday(y) + 7 * (WeekCount(y) - 1)) == WeekCount(y) - 1
  {
    MondaysInWeeks(FirstMonday(y), WeekCount(y) - 1);
  }

  lemma MondaysOfLastWeek(y: int)
    requires y >= 1
    ensures CountMondays(FirstMonday(y) + 7 * (WeekCount(y) - 1), YearStart(y + 1)) == 1
  {
    var last := FirstMonday(y) + 7 * (WeekCount(y) - 1);
    MondayStride(FirstMonday(y), WeekCount(y) - 1);
    OneMonday(last, YearStart(y + 1) - last);
  }
}
