/** The grouped sums behind the charts: `groupby('Operator Name')['Hours'].sum()`
    (app.py:104) and `groupby('Worked Date')['Hours'].sum()` (app.py:109).
    Like pandas' default `groupby`, the groups come out in ascending key
    order, one group per distinct key. */
module Grouping {
  import opened WorkLog
  import opened Filters
  import opened Metrics

  /** One line of a grouped sum: a key and the hours summed over its rows. */
  datatype Group<K> = Group(key: K, hours: real)

  /** Python's `<` on `str`: code point by code point, a proper prefix first. */
  predicate StrLess(a: string, b: string)
    ensures StrLess(a, b) ==> a != b
  {
    if a == [] then b != []
    else if b == [] then false
    else if a[0] != b[0] then a[0] < b[0]
    else StrLess(a[1..], b[1..])
  }

  /** Calendar order of dates. */
  predicate DateLess(a: Date, b: Date)
  {
    a < b
  }

  ghost predicate StrictTotalOrder<K(!new)>(lt: (K, K) -> bool)
  {
    && (forall a :: !lt(a, a))
    && (forall a, b, c :: lt(a, b) && lt(b, c) ==> lt(a, c))
    && (forall a, b :: a != b ==> lt(a, b) || lt(b, a))
  }

  lemma {:induction false} StrLessIrreflexive(a: string)
    ensures !StrLess(a, a)
  {
    if a != [] {
      StrLessIrreflexive(a[1..]);
    }
  }

  lemma {:induction false} StrLessTransitive(a: string, b: string, c: string)
    requires StrLess(a, b) && StrLess(b, c)
    ensures StrLess(a, c)
  {
    if a != [] && a[0] == b[0] && b[0] == c[0] {
      StrLessTransitive(a[1..], b[1..], c[1..]);
    }
  }

  lemma {:induction false} StrLessTotal(a: string, b: string)
    requires a != b
    ensures StrLess(a, b) || StrLess(b, a)
  {
    if a != [] && b != [] && a[0] == b[0] {
      assert a == [a[0]] + a[1..] && b == [b[0]] + b[1..];
      StrLessTotal(a[1..], b[1..]);
    }
  }

  /** Operator names are ordered the way Python orders strings, which is a
      strict total order. */
  lemma StrLessIsStrictTotalOrder()
    ensures StrictTotalOrder(StrLess)
  {
    forall a: string
      ensures !StrLess(a, a)
    {
      StrLessIrreflexive(a);
    }
    forall a: string, b: string, c: string | StrLess(a, b) && StrLess(b, c)
      ensures StrLess(a, c)
    {
      StrLessTransitive(a, b, c);
    }
    forall a: string, b: string | a != b
      ensures StrLess(a, b) || StrLess(b, a)
    {
      StrLessTotal(a, b);
    }
  }

  lemma DateLessIsStrictTotalOrder()
    ensures StrictTotalOrder(DateLess)
  {
  }

  /** Add `h` hours under key `k`: to the group of `k` when there is one,
      otherwise as a new group placed before the first larger key. */
  function Accumulate<K(==)>(g: seq<Group<K>>, k: K, h: real, lt: (K, K) -> bool): (r: seq<Group<K>>)
    ensures r != [] && |g| <= |r| <= |g| + 1
  {
    if g == [] then [Group(k, h)]
    else if g[0].key == k then [Group(k, g[0].hours + h)] + g[1..]
    else if lt(k, g[0].key) then [Group(k, h)] + g
    else [g[0]] + Accumulate(g[1..], k, h, lt)
  }

  /** The grouped sum of the `Hours` column by the key `key` picks out. */
  function GroupSum<K(==)>(rows: seq<Row>, key: Row -> K, lt: (K, K) -> bool): (g: seq<Group<K>>)
    ensures |g| <= |rows|
    ensures g == [] <==> rows == []
  {
    if rows == [] then [] else Accumulate(GroupSum(rows[1..], key, lt), key(rows[0]), rows[0].hours, lt)
  }

  /** `op_sum` before its display sort, the hours-by-operator table:
      operators in ascending name order, one line per operator present, the
      frame's total split among them. */
  function HoursByOperator(rows: seq<Row>): (g: seq<Group<string>>)
    ensures SortedByKey(g, StrLess)
    ensures KeysOf(g) == set i | 0 <= i < |rows| :: rows[i].operator
    ensures forall i :: 0 <= i < |g| ==> g[i].hours == SumWhere(rows, OperatorOf, g[i].key)
    ensures GroupTotal(g) == TotalHours(rows)
  {
    StrLessIsStrictTotalOrder();
    GroupSumCorrect(rows, OperatorOf, StrLess);
    assert KeySet(rows, OperatorOf) == set i | 0 <= i < |rows| :: rows[i].operator;
    GroupSum(rows, OperatorOf, StrLess)
  }

  /** `daily_trend`, the hours per worked date: dates in calendar order, one
      line per calendar day (so as many lines as the calendar-day count), the
      frame's total split among them. */
  function HoursByDate(rows: seq<Row>): (g: seq<Group<Date>>)
    ensures SortedByKey(g, DateLess)
    ensures KeysOf(g) == DatesOf(rows)
    ensures |g| == CalendarDays(rows)
    ensures forall i :: 0 <= i < |g| ==> g[i].hours == SumWhere(rows, DateOf, g[i].key)
    ensures GroupTotal(g) == TotalHours(rows)
  {
    DateLessIsStrictTotalOrder();
    GroupSumCorrect(rows, DateOf, DateLess);
    GroupSum(rows, DateOf, DateLess)
  }

  // Reference definitions that the grouped sums are proved against.

  /** The hours of the rows whose key is `k`, summed directly. */
  function SumWhere<K(==)>(rows: seq<Row>, key: Row -> K, k: K): real
  {
    if rows == [] then 0.0
    else (if key(rows[0]) == k then rows[0].hours else 0.0) + SumWhere(rows[1..], key, k)
  }

  function GroupTotal<K>(g: seq<Group<K>>): real
  {
    if g == [] then 0.0 else g[0].hours + GroupTotal(g[1..])
  }

  function KeysOf<K>(g: seq<Group<K>>): set<K>
  {
    set i | 0 <= i < |g| :: g[i].key
  }

  /** The hours listed under key `k`, over every group with that key. */
  function HoursOf<K(==)>(g: seq<Group<K>>, k: K): real
  {
    if g == [] then 0.0 else (if g[0].key == k then g[0].hours else 0.0) + HoursOf(g[1..], k)
  }

  ghost predicate SortedByKey<K>(g: seq<Group<K>>, lt: (K, K) -> bool)
  {
    forall i, j :: 0 <= i < j < |g| ==> lt(g[i].key, g[j].key)
  }

  ghost predicate DistinctKeys<K>(g: seq<Group<K>>)
  {
    forall i, j :: 0 <= i < j < |g| ==> g[i].key != g[j].key
  }

  // Accumulate, one row at a time.

  lemma {:induction false} AccumulateTotal<K>(g: seq<Group<K>>, k: K, h: real, lt: (K, K) -> bool)
    ensures GroupTotal(Accumulate(g, k, h, lt)) == GroupTotal(g) + h
  {
    if g != [] && g[0].key != k && !lt(k, g[0].key) {
      AccumulateTotal(g[1..], k, h, lt);
      assert ([g[0]] + Accumulate(g[1..], k, h, lt))[1..] == Accumulate(g[1..], k, h, lt);
    } else if g != [] && g[0].key == k {
      assert ([Group(k, g[0].hours + h)] + g[1..])[1..] == g[1..];
    } else if g != [] {
      assert ([Group(k, h)] + g)[1..] == g;
    }
  }

  lemma {:induction false} AccumulateHoursOf<K>(g: seq<Group<K>>, k: K, h: real, lt: (K, K) -> bool, x: K)
    ensures HoursOf(Accumulate(g, k, h, lt), x) == HoursOf(g, x) + (if k == x then h else 0.0)
  {
    if g != [] && g[0].key != k && !lt(k, g[0].key) {
      AccumulateHoursOf(g[1..], k, h, lt, x);
      assert ([g[0]] + Accumulate(g[1..], k, h, lt))[1..] == Accumulate(g[1..], k, h, lt);
    } else if g != [] && g[0].key == k {
      assert ([Group(k, g[0].hours + h)] + g[1..])[1..] == g[1..];
    } else if g != [] {
      assert ([Group(k, h)] + g)[1..] == g;
    }
  }

  lemma KeysOfCons<K>(g: seq<Group<K>>)
    requires g != []
    ensures KeysOf(g) == {g[0].key} + KeysOf(g[1..])
  {
    var tail := g[1..];
    forall x | x in KeysOf(g)
      ensures x in {g[0].key} + KeysOf(tail)
    {
      var i :| 0 <= i < |g| && g[i].key == x;
      if i > 0 {
        assert tail[i - 1].key == x;
      }
    }
    forall x | x in KeysOf(tail)
      ensures x in KeysOf(g)
    {
      var i :| 0 <= i < |tail| && tail[i].key == x;
      assert g[i + 1].key == x;
    }
  }

  lemma {:induction false} AccumulateKeys<K>(g: seq<Group<K>>, k: K, h: real, lt: (K, K) -> bool)
    ensures KeysOf(Accumulate(g, k, h, lt)) == KeysOf(g) + {k}
  {
    var r := Accumulate(g, k, h, lt);
    if g == [] {
      assert KeysOf(r) == {k} by {
        assert r[0].key == k;
      }
    } else if g[0].key == k {
      KeysOfCons(g);
      KeysOfCons(r);
      assert r[1..] == g[1..];
    } else if lt(k, g[0].key) {
      KeysOfCons(r);
      assert r[1..] == g;
    } else {
      AccumulateKeys(g[1..], k, h, lt);
      KeysOfCons(g);
      KeysOfCons(r);
      assert r[1..] == Accumulate(g[1..], k, h, lt);
    }
  }

  lemma {:induction false} AccumulateSorted<K(!new)>(g: seq<Group<K>>, k: K, h: real, lt: (K, K) -> bool)
    requires StrictTotalOrder(lt) && SortedByKey(g, lt)
    ensures SortedByKey(Accumulate(g, k, h, lt), lt)
  {
    var r := Accumulate(g, k, h, lt);
    if g == [] {
    } else if g[0].key == k {
      assert forall i :: 0 <= i < |r| ==> r[i].key == g[i].key;
    } else if lt(k, g[0].key) {
      forall i, j | 0 <= i < j < |r|
        ensures lt(r[i].key, r[j].key)
      {
        if i > 0 {
          assert r[i] == g[i - 1] && r[j] == g[j - 1];
        } else if j > 1 {
          assert lt(g[0].key, g[j - 1].key);
        }
      }
    } else {
      var tail := g[1..];
      var rest := Accumulate(tail, k, h, lt);
      assert lt(g[0].key, k);
      assert SortedByKey(tail, lt);
      AccumulateSorted(tail, k, h, lt);
      AccumulateKeys(tail, k, h, lt);
      assert r == [g[0]] + rest;
      forall j | 0 <= j < |rest|
        ensures lt(g[0].key, rest[j].key)
      {
        assert rest[j].key in KeysOf(rest);
        if rest[j].key != k {
          var i :| 0 <= i < |tail| && tail[i].key == rest[j].key;
          assert g[i + 1] == tail[i];
        }
      }
      forall i, j | 0 <= i < j < |r|
        ensures lt(r[i].key, r[j].key)
      {
        if i == 0 {
          assert r[j] == rest[j - 1];
        } else {
          assert r[i] == rest[i - 1] && r[j] == rest[j - 1];
        }
      }
    }
  }

  lemma SortedIsDistinct<K(!new)>(g: seq<Group<K>>, lt: (K, K) -> bool)
    requires StrictTotalOrder(lt) && SortedByKey(g, lt)
    ensures DistinctKeys(g)
  {
    forall i, j | 0 <= i < j < |g|
      ensures g[i].key != g[j].key
    {
      assert lt(g[i].key, g[j].key);
    }
  }

  /** With distinct keys, the hours listed under a group's key are that
      group's own hours. */
  lemma {:induction false} DistinctHoursOf<K>(g: seq<Group<K>>, i: nat)
    requires DistinctKeys(g) && i < |g|
    ensures HoursOf(g, g[i].key) == g[i].hours
  {
    var tail := g[1..];
    assert DistinctKeys(tail) by {
      forall a, b | 0 <= a < b < |tail|
        ensures tail[a].key != tail[b].key
      {
        assert tail[a] == g[a + 1] && tail[b] == g[b + 1];
      }
    }
    if i == 0 {
      AbsentHoursOf(tail, g[0].key);
    } else {
      DistinctHoursOf(tail, i - 1);
      assert g[0].key != g[i].key;
    }
  }

  lemma {:induction false} AbsentHoursOf<K>(g: seq<Group<K>>, k: K)
    requires forall i :: 0 <= i < |g| ==> g[i].key != k
    ensures HoursOf(g, k) == 0.0
  {
    if g != [] {
      AbsentHoursOf(g[1..], k);
    }
  }

  /** With distinct keys there are as many groups as keys. */
  lemma {:induction false} DistinctSize<K>(g: seq<Group<K>>)
    requires DistinctKeys(g)
    ensures |KeysOf(g)| == |g|
  {
    if g != [] {
      var tail := g[1..];
      KeysOfCons(g);
      assert DistinctKeys(tail) by {
        forall a, b | 0 <= a < b < |tail|
          ensures tail[a].key != tail[b].key
        {
          assert tail[a] == g[a + 1] && tail[b] == g[b + 1];
        }
      }
      DistinctSize(tail);
      assert g[0].key !in KeysOf(tail);
    }
  }

  // The grouped sum over a whole frame.

  /** Summing the groups gives the total hours of the frame. */
  lemma {:induction false} GroupSumConserves<K>(rows: seq<Row>, key: Row -> K, lt: (K, K) -> bool)
    ensures GroupTotal(GroupSum(rows, key, lt)) == TotalHours(rows)
  {
    if rows != [] {
      GroupSumConserves(rows[1..], key, lt);
      AccumulateTotal(GroupSum(rows[1..], key, lt), key(rows[0]), rows[0].hours, lt);
    }
  }

  /** The groups are exactly the distinct keys of the frame. */
  lemma {:induction false} GroupSumKeys<K>(rows: seq<Row>, key: Row -> K, lt: (K, K) -> bool)
    ensures KeysOf(GroupSum(rows, key, lt)) == KeySet(rows, key)
  {
    if rows == [] {
      assert KeySet(rows, key) == {};
    } else {
      GroupSumKeys(rows[1..], key, lt);
      AccumulateKeys(GroupSum(rows[1..], key, lt), key(rows[0]), rows[0].hours, lt);
      KeySetCons(rows, key);
    }
  }

  /** The hours listed under a key are the hours of the rows with that key. */
  lemma {:induction false} GroupSumHoursOf<K>(rows: seq<Row>, key: Row -> K, lt: (K, K) -> bool, k: K)
    ensures HoursOf(GroupSum(rows, key, lt), k) == SumWhere(rows, key, k)
  {
    if rows != [] {
      GroupSumHoursOf(rows[1..], key, lt, k);
      AccumulateHoursOf(GroupSum(rows[1..], key, lt), key(rows[0]), rows[0].hours, lt, k);
    }
  }

  /** Under a strict total order the groups come out in ascending key order. */
  lemma {:induction false} GroupSumSorted<K(!new)>(rows: seq<Row>, key: Row -> K, lt: (K, K) -> bool)
    requires StrictTotalOrder(lt)
    ensures SortedByKey(GroupSum(rows, key, lt), lt)
  {
    if rows != [] {
      GroupSumSorted(rows[1..], key, lt);
      AccumulateSorted(GroupSum(rows[1..], key, lt), key(rows[0]), rows[0].hours, lt);
    }
  }

  /** What a grouped sum is: one group per distinct key, in ascending key
      order, each holding the hours of exactly the rows with its key, and
      all groups together holding the frame's total hours. */
  lemma GroupSumCorrect<K(!new)>(rows: seq<Row>, key: Row -> K, lt: (K, K) -> bool)
    requires StrictTotalOrder(lt)
    ensures SortedByKey(GroupSum(rows, key, lt), lt)
    ensures KeysOf(GroupSum(rows, key, lt)) == KeySet(rows, key)
    ensures forall i :: 0 <= i < |GroupSum(rows, key, lt)| ==>
              GroupSum(rows, key, lt)[i].hours == SumWhere(rows, key, GroupSum(rows, key, lt)[i].key)
    ensures GroupTotal(GroupSum(rows, key, lt)) == TotalHours(rows)
    ensures |GroupSum(rows, key, lt)| == |KeySet(rows, key)|
  {
    var g := GroupSum(rows, key, lt);
    GroupSumSorted(rows, key, lt);
    SortedIsDistinct(g, lt);
    GroupSumKeys(rows, key, lt);
    GroupSumConserves(rows, key, lt);
    DistinctSize(g);
    forall i | 0 <= i < |g|
      ensures g[i].hours == SumWhere(rows, key, g[i].key)
    {
      DistinctHoursOf(g, i);
      GroupSumHoursOf(rows, key, lt, g[i].key);
    }
  }

  lemma {:induction false} SumWhereIsFilteredTotal<K>(rows: seq<Row>, key: Row -> K, k: K, p: Row -> bool)
    requires forall r :: p(r) == (key(r) == k)
    ensures TotalHours(Keep(rows, p)) == SumWhere(rows, key, k)
  {
    if rows != [] {
      SumWhereIsFilteredTotal(rows[1..], key, k, p);
      if p(rows[0]) {
        assert ([rows[0]] + Keep(rows[1..], p))[1..] == Keep(rows[1..], p);
      }
    }
  }

  /** An operator's slice of the pie holds the total hours the dashboard
      shows when that operator alone is selected. */
  lemma OperatorShareMatchesFilter(rows: seq<Row>, op: string)
    ensures SumWhere(rows, OperatorOf, op) == TotalHours(ApplyFilters(rows, Criteria([op], [], DateTuple([]))))
  {
    SumWhereIsFilteredTotal(rows, OperatorOf, op, (r: Row) => r.operator in [op]);
  }

  /** A day's point on the trend holds the total hours the dashboard shows
      for the one-day range of that date. */
  lemma DateShareMatchesFilter(rows: seq<Row>, day: Date)
    ensures SumWhere(rows, DateOf, day) == TotalHours(ApplyFilters(rows, Criteria([], [], DateTuple([day, day]))))
  {
    SumWhereIsFilteredTotal(rows, DateOf, day, (r: Row) => day <= r.date && r.date <= day);
  }
}
