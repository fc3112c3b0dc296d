/** The release-cadence arithmetic of graph.py: calendar dates and their day
    ordinals, the month difference, the axis interval, the average month and
    day gaps between consecutive volumes, the next-volume prediction and the
    chart title. Chart drawing is not modelled; `today` is a parameter. */
module Graph {
  import opened Base
  import opened PyDict
  import opened Arith

  // ---------------------------------------------------------------- dates

  /** A `datetime.date`. */
  datatype Date = Date(year: int, month: int, day: int)

  predicate IsLeap(y: int) {
    y % 4 == 0 && (y % 100 != 0 || y % 400 == 0)
  }

  function DaysInMonth(y: int, m: int): int
    requires 1 <= m <= 12
  {
    if m == 2 then (if IsLeap(y) then 29 else 28)
    else if m == 4 || m == 6 || m == 9 || m == 11 then 30
    else 31
  }

  function DaysInYear(y: int): int {
    if IsLeap(y) then 366 else 365
  }

  /** Every value a `date` can hold: years 1 to 9999, real calendar days. */
  predicate ValidDate(d: Date) {
    1 <= d.year <= 9999 && 1 <= d.month <= 12 && 1 <= d.day <= DaysInMonth(d.year, d.month)
  }

  function DaysBeforeMonth(y: int, m: int): int
    requires 1 <= m <= 12
  {
    [0, 31, 59, 90, 120, 151, 181, 212, 243, 273, 304, 334][m - 1] + (if m > 2 && IsLeap(y) then 1 else 0)
  }

  function DaysBeforeYear(y: int): int {
    var z := y - 1;
    z * 365 + z / 4 - z / 100 + z / 400
  }

  /** `date.toordinal()`: 1 for 0001-01-01, one more for each following day. */
  function Ordinal(d: Date): int
    requires 1 <= d.month <= 12
  {
    DaysBeforeYear(d.year) + DaysBeforeMonth(d.year, d.month) + d.day
  }

  /** The ordinal of 9999-12-31, the last day a `date` can hold. */
  const MaxOrdinal := 3652059

  /** Every valid date has an ordinal between those of 0001-01-01 and
      9999-12-31, which are 1 and `MaxOrdinal`. */
  lemma OrdinalRange(d: Date)
    requires ValidDate(d)
    ensures 1 <= Ordinal(d) <= MaxOrdinal
  {
    var first, last := Date(1, 1, 1), Date(9999, 12, 31);
    assert ValidDate(first) && ValidDate(last);
    assert !Before(d, first) && !Before(last, d);
    OrdinalMonotone(d, first);
    OrdinalMonotone(last, d);
    OrdinalBounds();
  }

  lemma OrdinalBounds()
    ensures Ordinal(Date(1, 1, 1)) == 1 && Ordinal(Date(9999, 12, 31)) == MaxOrdinal
  {
    assert DaysBeforeYear(1) == 0;
    LastYearStart();
    assert !IsLeap(9999);
    assert DaysBeforeMonth(9999, 12) == 334;
  }

  /** 9998 years of 365 days, plus 2499 - 99 + 24 leap days. */
  lemma LastYearStart()
    ensures DaysBeforeYear(9999) == 3651694
  {
    assert 9998 / 4 == 2499 && 9998 / 100 == 99 && 9998 / 400 == 24;
  }

  /** Python's `a < b` on dates: year, then month, then day. */
  predicate Before(a: Date, b: Date) {
    a.year < b.year
    || (a.year == b.year && a.month < b.month)
    || (a.year == b.year && a.month == b.month && a.day < b.day)
  }

  predicate NotAfter(a: Date, b: Date) {
    a == b || Before(a, b)
  }

  lemma MonthStep(y: int, m: int)
    requires 1 <= m < 12
    ensures DaysBeforeMonth(y, m) + DaysInMonth(y, m) == DaysBeforeMonth(y, m + 1)
  {
  }

  lemma {:induction false} MonthsBefore(y: int, m1: int, m2: int)
    requires 1 <= m1 < m2 <= 12
    ensures DaysBeforeMonth(y, m1) + DaysInMonth(y, m1) <= DaysBeforeMonth(y, m2)
    decreases m2 - m1
  {
    MonthStep(y, m1);
    if m1 + 1 < m2 {
      MonthsBefore(y, m1 + 1, m2);
    }
  }

  lemma YearStep(y: int)
    requires y >= 1
    ensures DaysBeforeYear(y + 1) == DaysBeforeYear(y) + DaysInYear(y)
  {
    var z := y - 1;
    DivStep(z, 4);
    DivStep(z, 100);
    DivStep(z, 400);
    LeapDivisors(y);
    var before := z * 365 + z / 4 - z / 100 + z / 400;
    var after := y * 365 + y / 4 - y / 100 + y / 400;
    assert DaysBeforeYear(y) == before;
    assert DaysBeforeYear(y + 1) == after;
    assert after - before == 365 + (if y % 4 == 0 then 1 else 0) - (if y % 100 == 0 then 1 else 0)
      + (if y % 400 == 0 then 1 else 0);
  }

  /** A multiple of 400 is one of 100, and a multiple of 100 is one of 4. */
  lemma LeapDivisors(y: nat)
    ensures y % 400 == 0 ==> y % 100 == 0
    ensures y % 100 == 0 ==> y % 4 == 0
  {
    if y % 400 == 0 {
      var q := y / 400;
      assert y == q * 400;
      DivUnique(y, 100, 4 * q, 0);
    }
    if y % 100 == 0 {
      var q := y / 100;
      assert y == q * 100;
      DivUnique(y, 4, 25 * q, 0);
    }
  }

  lemma {:induction false} YearsBefore(y1: int, y2: int)
    requires 1 <= y1 < y2
    ensures DaysBeforeYear(y1) + DaysInYear(y1) <= DaysBeforeYear(y2)
    decreases y2 - y1
  {
    YearStep(y1);
    if y1 + 1 < y2 {
      YearsBefore(y1 + 1, y2);
    }
  }

  /** A valid date's day number within its year lies in `1..DaysInYear`. */
  lemma DayOfYearBounds(d: Date)
    requires ValidDate(d)
    ensures 1 <= DaysBeforeMonth(d.year, d.month) + d.day <= DaysInYear(d.year)
  {
    if d.month < 12 {
      MonthsBefore(d.year, d.month, 12);
    }
  }

  /** Comparing valid dates is comparing their ordinals, so the clamp on
      day numbers below is Python's clamp on dates. */
  lemma OrdinalMonotone(a: Date, b: Date)
    requires ValidDate(a) && ValidDate(b)
    ensures Before(a, b) <==> Ordinal(a) < Ordinal(b)
  {
    if Before(a, b) {
      OrdinalStrict(a, b);
    } else if Before(b, a) {
      OrdinalStrict(b, a);
    }
  }

  lemma OrdinalStrict(a: Date, b: Date)
    requires ValidDate(a) && ValidDate(b) && Before(a, b)
    ensures Ordinal(a) < Ordinal(b)
  {
    if a.year < b.year {
      DayOfYearBounds(a);
      YearsBefore(a.year, b.year);
    } else if a.month < b.month {
      MonthsBefore(a.year, a.month, b.month);
    }
  }

  // ---------------------------------------------------------------- months

  /** `months_between_vols`: calendar months from `d1` to `d2`, ignoring days. */
  function MonthsBetween(d1: Date, d2: Date): (m: int)
    ensures d1.year * 12 + d1.month + m == d2.year * 12 + d2.month
  {
    (d2.year - d1.year) * 12 + (d2.month - d1.month)
  }

  lemma MonthsBetweenAdditive(a: Date, b: Date, c: Date)
    ensures MonthsBetween(a, b) + MonthsBetween(b, c) == MonthsBetween(a, c)
  {
  }

  lemma MonthsBetweenAntisymmetric(a: Date, b: Date)
    ensures MonthsBetween(a, b) == -MonthsBetween(b, a)
  {
  }

  /** Two valid dates are zero months apart exactly when they share year and
      month, and never a negative number of months apart in date order. */
  lemma MonthsBetweenSign(a: Date, b: Date)
    requires ValidDate(a) && ValidDate(b)
    ensures MonthsBetween(a, b) == 0 <==> a.year == b.year && a.month == b.month
    ensures NotAfter(a, b) ==> MonthsBetween(a, b) >= 0
  {
  }

  /** `set_xaxis_interval`: the month step between axis ticks. */
  function XAxisInterval(gap: int): (interval: int)
    ensures interval in {1, 2, 3, 6}
    ensures interval == 1 <==> gap <= 12
    ensures interval == 2 <==> 12 < gap <= 24
    ensures interval == 3 <==> 24 < gap <= 48
    ensures interval == 6 <==> gap > 48
  {
    if gap <= 12 then 1
    else if gap <= 24 then 2
    else if gap <= 48 then 3
    else 6
  }

  /** A longer span never gets denser ticks. */
  lemma XAxisIntervalMonotone(g1: int, g2: int)
    requires g1 <= g2
    ensures XAxisInterval(g1) <= XAxisInterval(g2)
  {
  }

  // ---------------------------------------------------------------- gaps

  function Sum(xs: seq<int>): int {
    if |xs| == 0 then 0 else Sum(xs[..|xs| - 1]) + xs[|xs| - 1]
  }

  /** `[months_between_vols(d[i], d[i+1]) for i in range(len(d) - 1)]`. */
  function MonthGaps(ds: seq<Date>): (gaps: seq<int>)
    ensures |gaps| == Max(0, |ds| - 1)
    ensures forall i :: 0 <= i < |gaps| ==> gaps[i] == MonthsBetween(ds[i], ds[i + 1])
  {
    seq(Max(0, |ds| - 1), i requires 0 <= i < |ds| - 1 => MonthsBetween(ds[i], ds[i + 1]))
  }

  predicate AllValid(ds: seq<Date>) {
    forall i :: 0 <= i < |ds| ==> ValidDate(ds[i])
  }

  function Ordinals(ds: seq<Date>): (os: seq<int>)
    requires AllValid(ds)
    ensures |os| == |ds|
    ensures forall i :: 0 <= i < |ds| ==> os[i] == Ordinal(ds[i])
  {
    seq(|ds|, i requires 0 <= i < |ds| => Ordinal(ds[i]))
  }

  /** Differences of consecutive numbers. */
  function Diffs(xs: seq<int>): (ds: seq<int>)
    ensures |ds| == Max(0, |xs| - 1)
    ensures forall i :: 0 <= i < |ds| ==> ds[i] == xs[i + 1] - xs[i]
  {
    seq(Max(0, |xs| - 1), i requires 0 <= i < |xs| - 1 => xs[i + 1] - xs[i])
  }

  /** Consecutive differences telescope to last minus first. */
  lemma {:induction false} SumDiffs(xs: seq<int>)
    requires |xs| >= 1
    ensures Sum(Diffs(xs)) == xs[|xs| - 1] - xs[0]
    decreases |xs|
  {
    if |xs| > 1 {
      var init := xs[..|xs| - 1];
      SumDiffs(init);
      assert Diffs(xs)[..|xs| - 2] == Diffs(init);
    }
  }

  /** `[(d[i+1] - d[i]).days for i in range(len(d) - 1)]`. */
  function DayGaps(ds: seq<Date>): (gaps: seq<int>)
    requires AllValid(ds)
    ensures |gaps| == Max(0, |ds| - 1)
    ensures forall i :: 0 <= i < |gaps| ==> gaps[i] == Ordinal(ds[i + 1]) - Ordinal(ds[i])
  {
    Diffs(Ordinals(ds))
  }

  /** The month gaps telescope: their sum is the month distance from the
      first date to the last. */
  lemma {:induction false} SumMonthGaps(ds: seq<Date>)
    requires |ds| >= 1
    ensures Sum(MonthGaps(ds)) == MonthsBetween(ds[0], ds[|ds| - 1])
    decreases |ds|
  {
    if |ds| > 1 {
      var init := ds[..|ds| - 1];
      SumMonthGaps(init);
      assert MonthGaps(ds)[..|ds| - 2] == MonthGaps(init);
      MonthsBetweenAdditive(ds[0], ds[|ds| - 2], ds[|ds| - 1]);
    }
  }

  /** The day gaps telescope: their sum is the number of days from the first
      date to the last. */
  lemma SumDayGaps(ds: seq<Date>)
    requires |ds| >= 1 && AllValid(ds)
    ensures Sum(DayGaps(ds)) == Ordinal(ds[|ds| - 1]) - Ordinal(ds[0])
  {
    SumDiffs(Ordinals(ds));
  }

  /** Dates in non-decreasing order have no negative day gap. */
  lemma DayGapsNonNegative(ds: seq<Date>)
    requires AllValid(ds)
    requires forall i :: 0 <= i < |ds| - 1 ==> NotAfter(ds[i], ds[i + 1])
    ensures forall i :: 0 <= i < |DayGaps(ds)| ==> DayGaps(ds)[i] >= 0
  {
    forall i | 0 <= i < |ds| - 1 ensures Ordinal(ds[i]) <= Ordinal(ds[i + 1]) {
      OrdinalMonotone(ds[i], ds[i + 1]);
    }
  }

  /** An average `sum(gaps) / len(gaps)`, kept as the exact fraction. */
  datatype Average = Average(total: int, count: nat)

  // ---------------------------------------------------------------- extremes

  function MinDate(ds: seq<Date>): (m: Date)
    requires |ds| > 0
    ensures m in ds
    ensures forall i :: 0 <= i < |ds| ==> NotAfter(m, ds[i])
  {
    if |ds| == 1 then ds[0]
    else
      var rest := MinDate(ds[1..]);
      assert forall i :: 1 <= i < |ds| ==> ds[i] == ds[1..][i - 1];
      if Before(rest, ds[0]) then rest else ds[0]
  }

  function MaxDate(ds: seq<Date>): (m: Date)
    requires |ds| > 0
    ensures m in ds
    ensures forall i :: 0 <= i < |ds| ==> NotAfter(ds[i], m)
  {
    if |ds| == 1 then ds[0]
    else
      var rest := MaxDate(ds[1..]);
      assert forall i :: 1 <= i < |ds| ==> ds[i] == ds[1..][i - 1];
      if Before(ds[0], rest) then rest else ds[0]
  }

  /** `months_between_vols(min(dates), max(dates)) + 1`: at least 1, above
      the month distance of any two dates, and reached by one pair. */
  function TotalMonths(ds: seq<Date>): (t: int)
    requires |ds| > 0 && AllValid(ds)
    ensures t >= 1
    ensures forall i, j :: 0 <= i < |ds| && 0 <= j < |ds| ==> MonthsBetween(ds[i], ds[j]) < t
    ensures exists i, j :: 0 <= i < |ds| && 0 <= j < |ds| && MonthsBetween(ds[i], ds[j]) == t - 1
  {
    var lo, hi := MinDate(ds), MaxDate(ds);
    MonthsBetweenSign(lo, hi);
    forall i, j | 0 <= i < |ds| && 0 <= j < |ds| ensures MonthsBetween(ds[i], ds[j]) < MonthsBetween(lo, hi) + 1 {
      MonthsBetweenSign(lo, ds[i]);
      MonthsBetweenSign(ds[j], hi);
      MonthsBetweenAdditive(lo, ds[i], ds[j]);
      MonthsBetweenAdditive(lo, ds[j], hi);
    }
    MonthsBetween(lo, hi) + 1
  }

  // ---------------------------------------------------------------- prediction

  /** The predicted next volume: its release day (as an ordinal) and number. */
  datatype Prediction = Prediction(dayOrdinal: int, volume: int)

  /** Every release date of a volume-to-date dict is a valid date. */
  predicate ValidDates(vols: Dict<int, Date>) {
    forall i :: 0 <= i < |vols| ==> ValidDate(vols[i].1)
  }

  function FirstDay(vols: Dict<int, Date>): int
    requires |vols| >= 1 && ValidDates(vols)
  {
    Ordinal(vols[0].1)
  }

  function LastDay(vols: Dict<int, Date>): int
    requires |vols| >= 1 && ValidDates(vols)
  {
    Ordinal(vols[|vols| - 1].1)
  }

  /** `a // n` for a positive divisor: Python's floor division, counted out
      by whole steps of `n`. */
  function FloorDiv(a: int, n: nat): int
    requires n > 0
    decreases if a < 0 then n - a else a
  {
    if a < 0 then FloorDiv(a + n, n) - 1
    else if a < n then 0
    else FloorDiv(a - n, n) + 1
  }

  /** For a positive divisor floor division is Dafny's Euclidean `/`. */
  lemma {:induction false} FloorDivIsDiv(a: int, n: nat)
    requires n > 0
    ensures FloorDiv(a, n) == a / n
    decreases if a < 0 then n - a else a
  {
    if a < 0 {
      FloorDivIsDiv(a + n, n);
      DivUnique(a, n, (a + n) / n - 1, (a + n) % n);
    } else if a < n {
      DivUnique(a, n, 0, a);
    } else {
      FloorDivIsDiv(a - n, n);
      DivUnique(a, n, (a - n) / n + 1, (a - n) % n);
    }
  }

  /** The last release day moved by the floor of the average gap, clamped
      to today. */
  function Extrapolate(last: int, gapSum: int, gapCount: nat, today: int): (day: int)
    requires gapCount > 0
    ensures day >= today && day >= last + FloorDiv(gapSum, gapCount)
    ensures day == today || day == last + FloorDiv(gapSum, gapCount)
  {
    var predicted := last + FloorDiv(gapSum, gapCount);
    if predicted < today then today else predicted
  }

  /** The release dates of `vols` in order: their day gaps number one fewer
      than the volumes and sum to the first-to-last span. */
  lemma VolumeGaps(vols: Dict<int, Date>)
    requires |vols| >= 2 && ValidDates(vols)
    ensures AllValid(Values(vols))
    ensures |DayGaps(Values(vols))| == |vols| - 1
    ensures Sum(DayGaps(Values(vols))) == LastDay(vols) - FirstDay(vols)
    ensures Ordinal(Values(vols)[|vols| - 1]) == LastDay(vols)
  {
    var dates := Values(vols);
    assert AllValid(dates);
    SumDayGaps(dates);
    assert dates[0] == vols[0].1 && dates[|dates| - 1] == vols[|vols| - 1].1;
  }

  /** The prediction block of `generate_graph` when the moved date exists:
      the last date plus the average day gap (a `timedelta` of a fractional
      day count moves a date by its floor), not earlier than today; the volume
      after the last. */
  function Forecast(vols: Dict<int, Date>, today: Date): (p: Prediction)
    requires |vols| >= 2
    requires ValidDates(vols) && ValidDate(today)
    ensures p.volume == vols[|vols| - 1].0 + 1
    ensures p.dayOrdinal == Extrapolate(LastDay(vols), LastDay(vols) - FirstDay(vols), |vols| - 1, Ordinal(today))
    ensures NotAfter(vols[0].1, vols[|vols| - 1].1) ==>
      p.dayOrdinal == Ordinal(today) || LastDay(vols) <= p.dayOrdinal <= 2 * LastDay(vols) - FirstDay(vols)
  {
    VolumeGaps(vols);
    OrdinalNotAfter(vols[0].1, vols[|vols| - 1].1);
    ExtrapolateBounds(LastDay(vols), FirstDay(vols), |vols| - 1, Ordinal(today));
    var dates := Values(vols);
    var gaps := DayGaps(dates);
    Prediction(Extrapolate(Ordinal(dates[|dates| - 1]), Sum(gaps), |gaps|, Ordinal(today)), vols[|vols| - 1].0 + 1)
  }

  /** The prediction block of `generate_graph`: moving the last date outside
      the years 1 to 9999 raises `OverflowError` before the clamp to today is
      reached; otherwise the forecast, which is then a valid day. */
  function PredictNext(vols: Dict<int, Date>, today: Date): (r: Result<Prediction, Failure>)
    requires |vols| >= 2
    requires ValidDates(vols) && ValidDate(today)
    ensures var moved := LastDay(vols) + FloorDiv(LastDay(vols) - FirstDay(vols), |vols| - 1);
      r.Err? <==> moved < 1 || moved > MaxOrdinal
    ensures r.Err? ==> r.error == OverflowError
    ensures r.Ok? ==> r.value == Forecast(vols, today) && 1 <= r.value.dayOrdinal <= MaxOrdinal
  {
    var moved := LastDay(vols) + FloorDiv(LastDay(vols) - FirstDay(vols), |vols| - 1);
    if moved < 1 || moved > MaxOrdinal then Err(OverflowError)
    else
      OrdinalRange(today);
      Ok(Forecast(vols, today))
  }

  /** With a non-negative gap sum, the prediction lands between the last
      release and one full span after it, unless the clamp chose today. */
  lemma ExtrapolateBounds(last: int, first: int, gapCount: nat, today: int)
    requires gapCount > 0
    ensures var day := Extrapolate(last, last - first, gapCount, today);
      first <= last ==> day == today || last <= day <= 2 * last - first
  {
    if first <= last {
      FloorDivIsDiv(last - first, gapCount);
      DivBounds(last - first, gapCount);
    }
  }

  /** A date not after another has an ordinal not above the other's. */
  lemma OrdinalNotAfter(a: Date, b: Date)
    requires ValidDate(a) && ValidDate(b)
    ensures NotAfter(a, b) ==> Ordinal(a) <= Ordinal(b)
  {
    OrdinalMonotone(b, a);
  }

  // ---------------------------------------------------------------- chart

  const TitleLimit := 90

  /** The chart title: unchanged below 90 characters, otherwise its first 90
      characters followed by five dots. */
  function ChartTitle(title: string): (t: string)
    ensures |title| < TitleLimit ==> t == title
    ensures |title| >= TitleLimit ==> |t| == TitleLimit + 5 && t[TitleLimit..] == "....."
    ensures |t| <= TitleLimit + 5
    ensures t[..Min(|t|, TitleLimit)] == title[..Min(|t|, TitleLimit)]
  {
    if |title| < TitleLimit then title else title[..TitleLimit] + "....."
  }

  /** What `generate_graph` computes before drawing. */
  datatype Chart = Chart(
    title: string,
    totalMonths: int,
    interval: int,
    avgMonthGap: Average,
    prediction: Option<Prediction>)

  /** `generate_graph` without the drawing: unpacking no volumes raises
      `ValueError`, averaging the gaps of one volume raises
      `ZeroDivisionError`, and a prediction that leaves the date range
      raises `OverflowError`. */
  function GenerateGraph(vols: Dict<int, Date>, predict: bool, title: string, today: Date): (r: Result<Chart, Failure>)
    requires ValidDates(vols) && ValidDate(today)
    ensures r == Err(ValueError) <==> |vols| == 0
    ensures r == Err(ZeroDivisionError) <==> |vols| == 1
    ensures r == Err(OverflowError) <==> |vols| >= 2 && predict && PredictNext(vols, today).Err?
    ensures r.Ok? <==> |vols| >= 2 && !(predict && PredictNext(vols, today).Err?)
    ensures r.Ok? ==> r.value.title == ChartTitle(title)
    ensures r.Ok? ==> AllValid(Values(vols)) && r.value.totalMonths == TotalMonths(Values(vols))
    ensures r.Ok? ==> r.value.interval == XAxisInterval(r.value.totalMonths)
    ensures r.Ok? ==> r.value.avgMonthGap == Average(MonthsBetween(vols[0].1, vols[|vols| - 1].1), |vols| - 1)
    ensures r.Ok? ==> (r.value.prediction.Some? <==> predict)
    ensures r.Ok? && predict ==> r.value.prediction == Some(PredictNext(vols, today).value)
  {
    if |vols| == 0 then Err(ValueError)
    else
      var dates := Values(vols);
      assert AllValid(dates);
      var total := TotalMonths(dates);
      var gaps := MonthGaps(dates);
      if |gaps| == 0 then Err(ZeroDivisionError)
      else
        SumMonthGaps(dates);
        if predict && PredictNext(vols, today).Err? then Err(OverflowError)
        else
          var prediction := if predict then Some(PredictNext(vols, today).value) else None;
          Ok(Chart(ChartTitle(title), total, XAxisInterval(total), Average(Sum(gaps), |gaps|), prediction))
  }
}
