/** One row of the work log and the loading step that derives its decimal
    `Hours` column from the text in `Total Hours` (app.py:28). */
module WorkLog {
  import opened Duration

  /** A calendar day, as a day number: later days are larger numbers. */
  type Date = int

  /** A row of the log: `Operator Name`, `Machinery Code`, `Worked Date`,
      `Total Hours` (text) and the derived `Hours`. */
  datatype Row = Row(operator: string, machine: string, date: Date, totalHoursText: string, hours: real)

  /** The row with its `Hours` cell recomputed from its `Total Hours` text. */
  function WithHours(r: Row): (w: Row)
    ensures HoursDerived(w)
    ensures w.operator == r.operator && w.machine == r.machine && w.date == r.date
    ensures w.totalHoursText == r.totalHoursText
  {
    r.(hours := TimeToHours(r.totalHoursText))
  }

  /** The row's `Hours` cell is the one its text determines. */
  predicate HoursDerived(r: Row)
  {
    r.hours == TimeToHours(r.totalHoursText)
  }

  /** `df['Hours'] = df['Total Hours'].apply(time_to_hours)`: the frame is
      updated in place, one row at a time; a malformed text gives 0.0 for its
      row and does not stop the others. Only the `Hours` cells change. */
  method AddHoursColumn(df: array<Row>)
    modifies df
    ensures forall i :: 0 <= i < df.Length ==> df[i] == WithHours(old(df[i]))
    ensures forall i :: 0 <= i < df.Length ==> HoursDerived(df[i])
  {
    for i := 0 to df.Length
      invariant forall j :: 0 <= j < i ==> df[j] == WithHours(old(df[j]))
      invariant forall j :: i <= j < df.Length ==> df[j] == old(df[j])
    {
      var row := df[i];
      df[i] := WithHours(row);
    }
  }

  /** Deriving the column a second time changes nothing. */
  lemma WithHoursIdempotent(r: Row)
    ensures WithHours(WithHours(r)) == WithHours(r)
    ensures HoursDerived(WithHours(r))
    ensures WithHours(r).totalHoursText == r.totalHoursText
  {
  }

  /** The `Operator Name` and `Worked Date` columns, as key functions. */
  function OperatorOf(r: Row): string
  {
    r.operator
  }

  function DateOf(r: Row): Date
  {
    r.date
  }

  /** The distinct values a key function takes on the rows. */
  function KeySet<K>(rows: seq<Row>, key: Row -> K): set<K>
  {
    set i | 0 <= i < |rows| :: key(rows[i])
  }

  lemma KeySetCons<K>(rows: seq<Row>, key: Row -> K)
    requires rows != []
    ensures KeySet(rows, key) == {key(rows[0])} + KeySet(rows[1..], key)
  {
    var tail := rows[1..];
    forall x | x in KeySet(rows, key)
      ensures x in {key(rows[0])} + KeySet(tail, key)
    {
      var i :| 0 <= i < |rows| && key(rows[i]) == x;
      if i > 0 {
        assert key(tail[i - 1]) == x;
      }
    }
    forall x | x in KeySet(tail, key)
      ensures x in KeySet(rows, key)
    {
      var i :| 0 <= i < |tail| && key(tail[i]) == x;
      assert key(rows[i + 1]) == x;
    }
  }
}
