/** What the whole pipeline gives for a small frame: loading, filtering with
    nothing selected, then the indicators and the grouped sums. */
module Scenario {
  import opened Duration
  import opened WorkLog
  import opened Filters
  import opened Metrics
  import opened Grouping

  /** Two 4-hour rows for one operator, machine and day, and one 8-hour row
      for another operator, machine and the next day. */
  function ExampleFrame(): seq<Row>
  {
    [ Row("OpA", "M1", 1, "4:00:00", 4.0),
      Row("OpA", "M1", 1, "4:00:00", 4.0),
      Row("OpB", "M2", 2, "8:00:00", 8.0) ]
  }

  lemma FourHours()
    ensures TimeToHours("4:00:00") == 4.0
  {
    WholeHours('4');
    assert ['4'] + ":00:00" == "4:00:00";
  }

  lemma EightHours()
    ensures TimeToHours("8:00:00") == 8.0
  {
    WholeHours('8');
    assert ['8'] + ":00:00" == "8:00:00";
  }

  /** The frame's `Hours` cells are the ones loading derives from its texts. */
  lemma ExampleFrameLoaded()
    ensures forall i :: 0 <= i < |ExampleFrame()| ==> HoursDerived(ExampleFrame()[i])
  {
    FourHours();
    EightHours();
  }

  /** With nothing selected, 16 hours over 2 calendar days are 2 standard
      days and an intensity of 100%. */
  lemma ExampleIndicators()
    ensures ComputeKpis(ApplyFilters(ExampleFrame(), Criteria([], [], DateTuple([])))) == Kpis(16.0, 2, 2.0, 100.0)
  {
    var rows := ExampleFrame();
    assert rows[1..] == [rows[1], rows[2]] && rows[1..][1..] == [rows[2]] && rows[1..][1..][1..] == [];
    assert TotalHours(rows) == 16.0;
    assert DatesOf(rows) == {1, 2} by {
      assert rows[0].date == 1 && rows[2].date == 2;
    }
  }

  /** The hours split 8/8 by operator, in name order, and 8/8 by day. */
  lemma ExampleGroups()
    ensures HoursByOperator(ExampleFrame()) == [Group("OpA", 8.0), Group("OpB", 8.0)]
    ensures HoursByDate(ExampleFrame()) == [Group(1, 8.0), Group(2, 8.0)]
  {
    var rows := ExampleFrame();
    assert rows[1..] == [rows[1], rows[2]] && rows[1..][1..] == [rows[2]] && rows[1..][1..][1..] == [];
    assert StrLess("OpA", "OpB") by {
      assert "OpA"[1..] == "pA" && "OpB"[1..] == "pB";
      assert "pA"[1..] == "A" && "pB"[1..] == "B";
    }
    assert GroupSum(rows[1..][1..], OperatorOf, StrLess) == [Group("OpB", 8.0)];
    assert GroupSum(rows[1..], OperatorOf, StrLess) == [Group("OpA", 4.0), Group("OpB", 8.0)];
    assert GroupSum(rows[1..][1..], DateOf, DateLess) == [Group(2, 8.0)];
    assert GroupSum(rows[1..], DateOf, DateLess) == [Group(1, 4.0), Group(2, 8.0)];
  }
}
