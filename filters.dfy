/** The sidebar filters (app.py:51-62): the frame is copied and narrowed
    stage by stage, by operator, by machine and by an inclusive date range,
    each stage applied only when its selection is active. */
module Filters {
  import opened WorkLog

  /** Boolean-mask selection `frame[mask]`: the elements that pass, in order. */
  function Keep<T>(s: seq<T>, p: T -> bool): (r: seq<T>)
    ensures |r| <= |s|
    ensures forall i :: 0 <= i < |r| ==> p(r[i])
    ensures forall x :: x in r ==> x in s
  {
    if s == [] then []
    else if p(s[0]) then [s[0]] + Keep(s[1..], p)
    else Keep(s[1..], p)
  }

  /** `xs` is `ys` with some elements removed and the rest in their order. */
  ghost predicate IsSubsequence<T>(xs: seq<T>, ys: seq<T>)
    decreases |ys|
  {
    if xs == [] then true
    else if ys == [] then false
    else (xs[0] == ys[0] && IsSubsequence(xs[1..], ys[1..])) || IsSubsequence(xs, ys[1..])
  }

  lemma {:induction false} SubsequenceReflexive<T>(s: seq<T>)
    ensures IsSubsequence(s, s)
  {
    if s != [] {
      SubsequenceReflexive(s[1..]);
    }
  }

  lemma {:induction false} SubsequenceTransitive<T>(xs: seq<T>, ys: seq<T>, zs: seq<T>)
    requires IsSubsequence(xs, ys) && IsSubsequence(ys, zs)
    ensures IsSubsequence(xs, zs)
    decreases |zs|
  {
    if xs != [] {
      if IsSubsequence(ys, zs[1..]) {
        SubsequenceTransitive(xs, ys, zs[1..]);
      } else if xs[0] == ys[0] && IsSubsequence(xs[1..], ys[1..]) {
        SubsequenceTransitive(xs[1..], ys[1..], zs[1..]);
      } else {
        SubsequenceTransitive(xs, ys[1..], zs[1..]);
      }
    }
  }

  /** Selection keeps the order of what it keeps. */
  lemma {:induction false} KeepIsSubsequence<T>(s: seq<T>, p: T -> bool)
    ensures IsSubsequence(Keep(s, p), s)
  {
    if s != [] {
      KeepIsSubsequence(s[1..], p);
      if p(s[0]) {
        assert Keep(s, p)[1..] == Keep(s[1..], p);
      }
    }
  }

  /** Selection keeps every copy of an element that passes and no copy of
      one that fails. */
  lemma {:induction false} KeepCount<T>(s: seq<T>, p: T -> bool, x: T)
    ensures multiset(Keep(s, p))[x] == if p(x) then multiset(s)[x] else 0
  {
    if s != [] {
      KeepCount(s[1..], p, x);
      assert s == [s[0]] + s[1..];
    }
  }

  /** Selection with a mask that passes every element is the identity. */
  lemma {:induction false} KeepAll<T>(s: seq<T>, p: T -> bool)
    requires forall i :: 0 <= i < |s| ==> p(s[i])
    ensures Keep(s, p) == s
  {
    if s != [] {
      KeepAll(s[1..], p);
    }
  }

  /** What `st.date_input` hands back: a single date, or a tuple of dates
      (while a range is being picked it holds fewer than two). */
  datatype DateInput = SingleDate(day: Date) | DateTuple(days: seq<Date>)

  /** The sidebar selections. Empty operator or machine lists select nothing
      and so restrict nothing. */
  datatype Criteria = Criteria(operators: seq<string>, machines: seq<string>, dateRange: DateInput)

  /** `isinstance(date_range, tuple) and len(date_range) == 2` */
  predicate RangeActive(d: DateInput)
  {
    d.DateTuple? && |d.days| == 2
  }

  predicate OperatorAccepts(ops: seq<string>, r: Row)
  {
    |ops| > 0 ==> r.operator in ops
  }

  predicate MachineAccepts(machines: seq<string>, r: Row)
  {
    |machines| > 0 ==> r.machine in machines
  }

  predicate DateAccepts(d: DateInput, r: Row)
  {
    RangeActive(d) ==> d.days[0] <= r.date <= d.days[1]
  }

  /** The reference meaning of the filters: a row survives when every active
      filter accepts it. */
  predicate Accepts(c: Criteria, r: Row)
  {
    OperatorAccepts(c.operators, r) && MachineAccepts(c.machines, r) && DateAccepts(c.dateRange, r)
  }

  /** `df[df['Operator Name'].isin(selected_operators)]` when the list is
      non-empty. */
  function OperatorStage(rows: seq<Row>, ops: seq<string>): (r: seq<Row>)
    ensures |r| <= |rows|
    ensures forall x :: x in r ==> x in rows && OperatorAccepts(ops, x)
    ensures |ops| == 0 ==> r == rows
  {
    if |ops| > 0 then Keep(rows, (r: Row) => r.operator in ops) else rows
  }

  /** `df[df['Machinery Code'].isin(selected_machines)]` when the list is
      non-empty. */
  function MachineStage(rows: seq<Row>, machines: seq<string>): (r: seq<Row>)
    ensures |r| <= |rows|
    ensures forall x :: x in r ==> x in rows && MachineAccepts(machines, x)
    ensures |machines| == 0 ==> r == rows
  {
    if |machines| > 0 then Keep(rows, (r: Row) => r.machine in machines) else rows
  }

  /** The inclusive range `start <= date <= end`, only for a 2-tuple. */
  function DateStage(rows: seq<Row>, d: DateInput): (r: seq<Row>)
    ensures |r| <= |rows|
    ensures forall x :: x in r ==> x in rows && DateAccepts(d, x)
    ensures !RangeActive(d) ==> r == rows
  {
    if RangeActive(d) then
      var start, end := d.days[0], d.days[1];
      Keep(rows, (r: Row) => start <= r.date && r.date <= end)
    else rows
  }

  /** The filter block as the dashboard runs it: start from a copy of the
      frame and narrow it by each active selection in turn. */
  function ApplyFilters(rows: seq<Row>, c: Criteria): (r: seq<Row>)
    ensures |r| <= |rows|
    ensures forall x :: x in r ==> x in rows && Accepts(c, x)
    ensures |c.operators| == 0 && |c.machines| == 0 && !RangeActive(c.dateRange) ==> r == rows
  {
    DateStage(MachineStage(OperatorStage(rows, c.operators), c.machines), c.dateRange)
  }

  /** Each stage keeps the order of the rows it keeps. */
  lemma StagesKeepOrder(rows: seq<Row>, c: Criteria)
    ensures IsSubsequence(OperatorStage(rows, c.operators), rows)
    ensures IsSubsequence(MachineStage(rows, c.machines), rows)
    ensures IsSubsequence(DateStage(rows, c.dateRange), rows)
  {
    SubsequenceReflexive(rows);
    if |c.operators| > 0 {
      KeepIsSubsequence(rows, (r: Row) => r.operator in c.operators);
    }
    if |c.machines| > 0 {
      KeepIsSubsequence(rows, (r: Row) => r.machine in c.machines);
    }
    if RangeActive(c.dateRange) {
      var start, end := c.dateRange.days[0], c.dateRange.days[1];
      KeepIsSubsequence(rows, (r: Row) => start <= r.date && r.date <= end);
    }
  }

  /** Each stage is a selection by its own filter. */
  lemma StagesSelect(rows: seq<Row>, c: Criteria, x: Row)
    ensures multiset(OperatorStage(rows, c.operators))[x]
         == if OperatorAccepts(c.operators, x) then multiset(rows)[x] else 0
    ensures multiset(MachineStage(rows, c.machines))[x]
         == if MachineAccepts(c.machines, x) then multiset(rows)[x] else 0
    ensures multiset(DateStage(rows, c.dateRange))[x]
         == if DateAccepts(c.dateRange, x) then multiset(rows)[x] else 0
  {
    if |c.operators| > 0 {
      KeepCount(rows, (r: Row) => r.operator in c.operators, x);
    }
    if |c.machines| > 0 {
      KeepCount(rows, (r: Row) => r.machine in c.machines, x);
    }
    if RangeActive(c.dateRange) {
      var start, end := c.dateRange.days[0], c.dateRange.days[1];
      KeepCount(rows, (r: Row) => start <= r.date && r.date <= end, x);
    }
  }

  /** The staged narrowing is the conjunctive filter: the result keeps the
      input's order, keeps every copy of a row that all active filters
      accept, and drops every row that one of them rejects. */
  lemma FilterCharacterisation(rows: seq<Row>, c: Criteria)
    ensures IsSubsequence(ApplyFilters(rows, c), rows)
    ensures forall x :: multiset(ApplyFilters(rows, c))[x] == if Accepts(c, x) then multiset(rows)[x] else 0
  {
    var afterOperators := OperatorStage(rows, c.operators);
    var afterMachines := MachineStage(afterOperators, c.machines);
    forall x
      ensures multiset(ApplyFilters(rows, c))[x] == if Accepts(c, x) then multiset(rows)[x] else 0
    {
      StagesSelect(rows, c, x);
      StagesSelect(afterOperators, c, x);
      StagesSelect(afterMachines, c, x);
    }
    StagesKeepOrder(rows, c);
    StagesKeepOrder(afterOperators, c);
    StagesKeepOrder(afterMachines, c);
    SubsequenceTransitive(afterMachines, afterOperators, rows);
    SubsequenceTransitive(ApplyFilters(rows, c), afterMachines, rows);
  }

  /** A row is in the result exactly when it is in the input and every
      active filter accepts it. */
  lemma KeptIffAccepted(rows: seq<Row>, c: Criteria, x: Row)
    ensures x in ApplyFilters(rows, c) <==> x in rows && Accepts(c, x)
  {
    FilterCharacterisation(rows, c);
    assert x in ApplyFilters(rows, c) <==> multiset(ApplyFilters(rows, c))[x] > 0;
  }

  /** When every row is accepted the filters return the input unchanged. */
  lemma AllAcceptedUnchanged(rows: seq<Row>, c: Criteria)
    requires forall i :: 0 <= i < |rows| ==> Accepts(c, rows[i])
    ensures ApplyFilters(rows, c) == rows
  {
    if |c.operators| > 0 {
      KeepAll(rows, (r: Row) => r.operator in c.operators);
    }
    if |c.machines| > 0 {
      KeepAll(rows, (r: Row) => r.machine in c.machines);
    }
    if RangeActive(c.dateRange) {
      var start, end := c.dateRange.days[0], c.dateRange.days[1];
      KeepAll(rows, (r: Row) => start <= r.date && r.date <= end);
    }
  }

  /** Filtering an already filtered frame with the same selections changes
      nothing. */
  lemma FilterIdempotent(rows: seq<Row>, c: Criteria)
    ensures ApplyFilters(ApplyFilters(rows, c), c) == ApplyFilters(rows, c)
  {
    var once := ApplyFilters(rows, c);
    forall i | 0 <= i < |once|
      ensures Accepts(c, once[i])
    {
      KeptIffAccepted(rows, c, once[i]);
    }
    AllAcceptedUnchanged(once, c);
  }

  /** Both ends of a date range are inclusive: a row dated on the first or
      the last day of the range survives when the other filters accept it. */
  lemma RangeEndsInclusive(rows: seq<Row>, c: Criteria, x: Row)
    requires RangeActive(c.dateRange) && c.dateRange.days[0] <= c.dateRange.days[1]
    requires x in rows && OperatorAccepts(c.operators, x) && MachineAccepts(c.machines, x)
    requires x.date == c.dateRange.days[0] || x.date == c.dateRange.days[1]
    ensures x in ApplyFilters(rows, c)
  {
    KeptIffAccepted(rows, c, x);
  }

  /** A date selection that is not a pair of dates restricts nothing: the
      result is the same as with any other such selection, and a row's date
      then plays no part in whether it is kept. */
  lemma IncompleteRangeIgnored(rows: seq<Row>, c: Criteria, other: DateInput, x: Row, day: Date)
    requires !RangeActive(c.dateRange) && !RangeActive(other)
    ensures ApplyFilters(rows, c) == ApplyFilters(rows, c.(dateRange := other))
    ensures Accepts(c, x) == Accepts(c, x.(date := day))
  {
  }

  /** Filtering never produces a row whose `Hours` disagrees with its text. */
  lemma FilterKeepsDerivedHours(rows: seq<Row>, c: Criteria)
    requires forall i :: 0 <= i < |rows| ==> HoursDerived(rows[i])
    ensures forall i :: 0 <= i < |ApplyFilters(rows, c)| ==> HoursDerived(ApplyFilters(rows, c)[i])
  {
    var out := ApplyFilters(rows, c);
    forall i | 0 <= i < |out|
      ensures HoursDerived(out[i])
    {
      KeptIffAccepted(rows, c, out[i]);
    }
  }
}
