/** The four indicators computed from the filtered frame (app.py:65-74):
    total hours, calendar days, standard days and daily intensity. */
module Metrics {
  import opened WorkLog
  import opened Filters

  /** The length of a standard shift, in hours (app.py:9). */
  const HoursPerDay: nat := 8

  /** `filtered_df['Hours'].sum()`: 0 for an empty frame. */
  function TotalHours(rows: seq<Row>): (total: real)
    ensures rows == [] ==> total == 0.0
    ensures (forall i :: 0 <= i < |rows| ==> rows[i].hours >= 0.0) ==> total >= 0.0
  {
    if rows == [] then 0.0 else rows[0].hours + TotalHours(rows[1..])
  }

  /** The distinct worked dates of the frame. */
  function DatesOf(rows: seq<Row>): set<Date>
  {
    KeySet(rows, DateOf)
  }

  /** `filtered_df['Worked Date'].nunique()`: the number of distinct dates on
      which at least one row was logged. */
  function CalendarDays(rows: seq<Row>): (days: nat)
    ensures days <= |rows|
    ensures days == 0 <==> rows == []
  {
    DatesOfBounds(rows);
    |DatesOf(rows)|
  }

  /** Total hours expressed in 8-hour shifts. */
  function StandardDays(totalHours: real): (days: real)
    ensures days * (HoursPerDay as real) == totalHours
  {
    totalHours / (HoursPerDay as real)
  }

  /** Shifts worked per calendar day, as a percentage; 0 when there are no
      calendar days, so the ratio is never taken over zero. */
  function Intensity(standardDays: real, calendarDays: nat): (pct: real)
    ensures calendarDays > 0 ==> pct * (calendarDays as real) == 100.0 * standardDays
    ensures calendarDays == 0 ==> pct == 0.0
    ensures standardDays >= 0.0 ==> pct >= 0.0
  {
    if calendarDays > 0 then standardDays / (calendarDays as real) * 100.0 else 0.0
  }

  datatype Kpis = Kpis(totalHours: real, calendarDays: nat, standardDays: real, intensity: real)

  /** The KPI row of the dashboard for a filtered frame. The intensity
      compares the hours actually worked with the hours of one full shift on
      every active day. */
  function ComputeKpis(rows: seq<Row>): (k: Kpis)
    ensures k.totalHours == TotalHours(rows) && k.calendarDays == CalendarDays(rows)
    ensures k.calendarDays <= |rows| && (k.calendarDays == 0 <==> rows == [])
    ensures k.standardDays * (HoursPerDay as real) == k.totalHours
    ensures k.calendarDays > 0 ==>
              k.intensity * ((HoursPerDay * k.calendarDays) as real) == 100.0 * k.totalHours
    ensures k.calendarDays > 0 ==> k.intensity == k.standardDays / (k.calendarDays as real) * 100.0
    ensures k.calendarDays == 0 ==> k.intensity == 0.0
  {
    var total := TotalHours(rows);
    var days := CalendarDays(rows);
    var standard := StandardDays(total);
    var intensity := Intensity(standard, days);
    IntensityAgainstShiftHours(total, standard, days, intensity);
    Kpis(total, days, standard, intensity)
  }

  lemma IntensityAgainstShiftHours(total: real, standard: real, days: nat, intensity: real)
    requires standard * (HoursPerDay as real) == total
    requires intensity == Intensity(standard, days)
    ensures days > 0 ==> intensity * ((HoursPerDay * days) as real) == 100.0 * total
  {
    if days > 0 {
      var d := days as real;
      assert (HoursPerDay * days) as real == 8.0 * d;
      calc {
        intensity * (8.0 * d);
        (standard / d * 100.0) * (8.0 * d);
        standard * 8.0 * 100.0 * (d / d);
        100.0 * total;
      }
    }
  }

  /** There are never more calendar days than rows, and there is at least
      one as soon as there is a row. */
  lemma {:induction false} DatesOfBounds(rows: seq<Row>)
    ensures |DatesOf(rows)| <= |rows|
    ensures rows != [] ==> |DatesOf(rows)| >= 1
    ensures rows == [] ==> |DatesOf(rows)| == 0
  {
    if rows != [] {
      KeySetCons(rows, DateOf);
      DatesOfBounds(rows[1..]);
      assert rows[0].date in DatesOf(rows);
    }
  }

  /** The total of a concatenation is the sum of the totals. */
  lemma {:induction false} TotalHoursAppend(a: seq<Row>, b: seq<Row>)
    ensures TotalHours(a + b) == TotalHours(a) + TotalHours(b)
  {
    if a == [] {
      assert a + b == b;
    } else {
      TotalHoursAppend(a[1..], b);
      assert (a + b)[1..] == a[1..] + b;
    }
  }

  /** Rows that all carry non-negative hours give non-negative indicators. */
  lemma {:induction false} NonNegativeIndicators(rows: seq<Row>)
    requires forall i :: 0 <= i < |rows| ==> rows[i].hours >= 0.0
    ensures ComputeKpis(rows).totalHours >= 0.0
    ensures ComputeKpis(rows).standardDays >= 0.0
    ensures ComputeKpis(rows).intensity >= 0.0
  {
    if rows != [] {
      NonNegativeIndicators(rows[1..]);
    }
  }

  /** An empty frame gives zero for every indicator. */
  lemma EmptyFrameIndicators()
    ensures ComputeKpis([]) == Kpis(0.0, 0, 0.0, 0.0)
  {
    assert DatesOf([]) == {};
  }

  /** Narrowing the frame can only remove calendar days. */
  lemma FilterShrinksCalendarDays(rows: seq<Row>, c: Criteria)
    ensures CalendarDays(ApplyFilters(rows, c)) <= CalendarDays(rows)
  {
    var out := ApplyFilters(rows, c);
    forall d | d in DatesOf(out)
      ensures d in DatesOf(rows)
    {
      var i :| 0 <= i < |out| && out[i].date == d;
      KeptIffAccepted(rows, c, out[i]);
      var j :| 0 <= j < |rows| && rows[j] == out[i];
    }
    var kept, all := DatesOf(out), DatesOf(rows);
    assert all == kept + (all - kept);
    assert |all| == |kept| + |all - kept|;
  }
}
