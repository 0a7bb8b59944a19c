/** The reporting endpoint `GET /api/reports`: the date filter built from
    the query string, the three report views (`quantity`, `byCategory`,
    `resolutionDuration`) and the dispatch on `type` with its 400 and 500
    answers. The ORM's queries are modelled by their results: the rows of
    the occurrence and category tables are inputs, and a store that
    throws is the `Failing` case of `Store`. */
module Reports {
  import opened Calendar
  import opened Tally

  datatype Option<T> = None | Some(value: T)

  /** An occurrence row: id, creation instant, completion instant (None
      while still open), category id, and the name of the category the
      row's relation points to. */
  datatype Occurrence = Occurrence(
    id: string,
    createdAt: int,
    finishedIn: Option<int>,
    categoryId: string,
    categoryName: string)

  /** A row of the category table. */
  datatype Category = Category(id: string, name: string)

  // ---------------------------------------------------------------------
  // Query parameters and the date filter
  // ---------------------------------------------------------------------

  /** A date query parameter: its text and the instant `new Date(text)`
      denotes, None when that is an Invalid Date. */
  datatype DateParam = DateParam(text: string, instant: Option<int>)

  /** The query string: `startDate`, `endDate` and `type`, each None when
      absent. */
  datatype Query = Query(
    startDate: Option<DateParam>,
    endDate: Option<DateParam>,
    reportType: Option<string>)

  /** A parameter counts as given when it is present and not empty (the
      truthiness of the string `searchParams.get` returns). */
  predicate Given(p: Option<DateParam>) {
    p.Some? && p.value.text != ""
  }

  /** The restriction on `created_at` that the where clause imposes. */
  datatype DateFilter = AllDates | Between(start: int, end: int)

  /** Whether the filter keeps an occurrence created at `t`: both bounds
      are inclusive (`gte`, `lte`). */
  predicate Admits(f: DateFilter, t: int) {
    match f
    case AllDates => true
    case Between(start, end) => start <= t <= end
  }

  /** The where clause built from the query. It restricts `created_at`
      only when both dates are given. None stands for a given date that
      is an Invalid Date: the ORM refuses such a query by throwing. */
  function WhereClause(q: Query): (w: Option<DateFilter>)
    ensures w == Some(AllDates) <==> !(Given(q.startDate) && Given(q.endDate))
    ensures w.None? <==>
      Given(q.startDate) && Given(q.endDate) && (q.startDate.value.instant.None? || q.endDate.value.instant.None?)
    ensures w.Some? && w.value.Between? ==>
      Given(q.startDate) && Given(q.endDate) &&
      q.startDate.value.instant == Some(w.value.start) && q.endDate.value.instant == Some(w.value.end)
  {
    if Given(q.startDate) && Given(q.endDate) then
      if q.startDate.value.instant.Some? && q.endDate.value.instant.Some? then
        Some(Between(q.startDate.value.instant.value, q.endDate.value.instant.value))
      else
        None
    else
      Some(AllDates)
  }

  /** The rows the ORM returns under filter `f`: exactly the admitted
      rows, each as many times as it occurs in the table. */
  function Filtered(rows: seq<Occurrence>, f: DateFilter): (r: seq<Occurrence>)
    ensures forall o :: multiset(r)[o] == if Admits(f, o.createdAt) then multiset(rows)[o] else 0
    ensures forall o :: o in r <==> o in rows && Admits(f, o.createdAt)
  {
    if rows == [] then []
    else
      assert rows == [rows[0]] + rows[1..];
      (if Admits(f, rows[0].createdAt) then [rows[0]] else []) + Filtered(rows[1..], f)
  }

  /** A filter that admits every instant returns the table unchanged. */
  lemma {:induction false} FilterAllDates(rows: seq<Occurrence>)
    ensures Filtered(rows, AllDates) == rows
  {
    if rows != [] {
      FilterAllDates(rows[1..]);
      assert Admits(AllDates, rows[0].createdAt);
      assert Filtered(rows, AllDates) == [rows[0]] + Filtered(rows[1..], AllDates);
      assert [rows[0]] + rows[1..] == rows;
    }
  }

  /** The date filter takes effect only when both dates are given, is
      inclusive at both ends, and a given date that does not parse makes
      the query fail. */
  lemma FilterSemantics(q: Query, rows: seq<Occurrence>)
    ensures !(Given(q.startDate) && Given(q.endDate)) ==>
      WhereClause(q) == Some(AllDates) && Filtered(rows, AllDates) == rows
    ensures Given(q.startDate) && Given(q.endDate) && q.startDate.value.instant.Some? && q.endDate.value.instant.Some? ==>
      WhereClause(q).Some? &&
      forall o :: o in Filtered(rows, WhereClause(q).value) <==>
        o in rows && q.startDate.value.instant.value <= o.createdAt <= q.endDate.value.instant.value
    ensures WhereClause(q).None? <==>
      Given(q.startDate) && Given(q.endDate) && (q.startDate.value.instant.None? || q.endDate.value.instant.None?)
  {
    FilterAllDates(rows);
  }

  /** The end bound is an instant, not a day: with the end at the UTC
      midnight starting day `d` (what a date-only `endDate` denotes), an
      occurrence created on day `d` after that midnight is not kept. */
  lemma MidnightEndBound(rows: seq<Occurrence>, start: int, d: int, o: Occurrence)
    requires o in rows && DayOf(o.createdAt) == d && o.createdAt != DayStart(d)
    ensures o !in Filtered(rows, Between(start, DayStart(d)))
  {
    DayOfIff(o.createdAt, d);
  }

  // ---------------------------------------------------------------------
  // quantity: occurrences per UTC day, ascending
  // ---------------------------------------------------------------------

  /** One point of the `quantity` series: the UTC midnight of a day and
      the number of occurrences created that day. */
  datatype DailyCount = DailyCount(date: int, count: nat)

  /** The day key of every row, in row order. */
  function Days(rows: seq<Occurrence>): (ds: seq<int>)
    ensures |ds| == |rows|
    ensures forall i :: 0 <= i < |rows| ==> ds[i] == DayOf(rows[i].createdAt)
  {
    seq(|rows|, i requires 0 <= i < |rows| => DayOf(rows[i].createdAt))
  }

  /** `acc` maps exactly the keys of `ks` to their number of occurrences. */
  ghost predicate CountsOf(acc: map<int, nat>, ks: seq<int>) {
    && (forall d :: d in acc <==> d in ks)
    && (forall d :: d in acc ==> acc[d] == Count(ks, d))
  }

  /** The day keys of two consecutive stretches of rows. */
  lemma DaysAppend(a: seq<Occurrence>, b: seq<Occurrence>)
    ensures Days(a + b) == Days(a) + Days(b)
  {
    assert forall i :: 0 <= i < |a + b| ==> Days(a + b)[i] == (Days(a) + Days(b))[i];
  }

  /** The day keys of the first `i + 1` rows extend those of the first `i`. */
  lemma DaysSnoc(rows: seq<Occurrence>, i: nat)
    requires i < |rows|
    ensures Days(rows[..i + 1]) == Days(rows[..i]) + [DayOf(rows[i].createdAt)]
  {
    assert rows[..i + 1] == rows[..i] + [rows[i]];
    DaysAppend(rows[..i], [rows[i]]);
  }

  /** One more key raises its count by one, or enters it with count 1.
      `acc'` is `acc` after the step, described entry by entry. */
  lemma CountsOfSnoc(acc: map<int, nat>, acc': map<int, nat>, ks: seq<int>, k: int)
    requires CountsOf(acc, ks)
    requires k in acc' && acc'[k] == (if k in acc then acc[k] else 0) + 1
    requires forall d :: d != k ==> (d in acc' <==> d in acc)
    requires forall d :: d != k && d in acc ==> acc'[d] == acc[d]
    ensures CountsOf(acc', ks + [k])
  {
    forall d | d in acc'
      ensures acc'[d] == Count(ks + [k], d)
    {
      CountSnoc(ks, k, d);
    }
  }

  /** One pass of the `reduce` over row `i`: if `acc` is `before` with the
      row's day counted once more, `acc` counts the first `i + 1` rows. */
  lemma CountStep(before: map<int, nat>, acc: map<int, nat>, rows: seq<Occurrence>, i: nat)
    requires i < |rows| && CountsOf(before, Days(rows[..i]))
    requires var k := DayOf(rows[i].createdAt);
      && k in acc && acc[k] == (if k in before then before[k] else 0) + 1
      && (forall d :: d != k ==> (d in acc <==> d in before))
      && (forall d :: d != k && d in before ==> acc[d] == before[d])
    ensures CountsOf(acc, Days(rows[..i + 1]))
  {
    CountsOfSnoc(before, acc, Days(rows[..i]), DayOf(rows[i].createdAt));
    DaysSnoc(rows, i);
  }

  /** The `reduce` that counts rows per day key into a dictionary: the
      keys are exactly the days that occur, each mapped to the number of
      rows created on it. */
  method CountByDay(rows: seq<Occurrence>) returns (acc: map<int, nat>)
    ensures forall d :: d in acc <==> d in Days(rows)
    ensures forall d :: d in acc ==> acc[d] == Count(Days(rows), d)
  {
    acc := map[];
    var i := 0;
    while i < |rows|
      invariant 0 <= i <= |rows|
      invariant CountsOf(acc, Days(rows[..i]))
    {
      var dateKey := DayOf(rows[i].createdAt);
      ghost var before := acc;
      if dateKey !in acc || acc[dateKey] == 0 {
        acc := acc[dateKey := 0];
      }
      acc := acc[dateKey := acc[dateKey] + 1];
      CountStep(before, acc, rows, i);
      i := i + 1;
    }
    assert rows[..i] == rows;
  }

  /** Every non-empty finite set of days has a least element. */
  lemma {:induction false} LeastDayExists(s: set<int>)
    requires s != {}
    ensures exists m :: m in s && forall x :: x in s ==> m <= x
  {
    if forall z :: z !in s {
      assert false;
    }
    var y :| y in s;
    if s != {y} {
      var rest := s - {y};
      LeastDayExists(rest);
      var m :| m in rest && forall x :: x in rest ==> m <= x;
      var least := if y < m then y else m;
      forall x | x in s
        ensures least <= x
      {
        if x != y {
          assert x in rest;
        }
      }
      assert least in s;
    } else {
      assert forall x :: x in s ==> y <= x;
    }
  }

  /** The state of the sort after some days are placed: `series` holds
      the points of the days in `done`, which ascend, all precede the days
      still `pending`, and together with them make up the keys of `acc`. */
  ghost predicate Placed(acc: map<int, nat>, pending: set<int>, done: seq<int>, series: seq<DailyCount>) {
    && pending <= acc.Keys
    && |done| == |series|
    && (forall i :: 0 <= i < |series| ==> done[i] in acc && series[i] == DailyCount(DayStart(done[i]), acc[done[i]]))
    && (forall i, j :: 0 <= i < j < |done| ==> done[i] < done[j])
    && (forall i, d :: 0 <= i < |done| && d in pending ==> done[i] < d)
    && (forall d :: d in acc ==> d in pending || d in done)
  }

  lemma PlaceLeast(acc: map<int, nat>, pending: set<int>, done: seq<int>, series: seq<DailyCount>, day: int)
    requires Placed(acc, pending, done, series)
    requires day in pending && forall d :: d in pending ==> day <= d
    ensures Placed(acc, pending - {day}, done + [day], series + [DailyCount(DayStart(day), acc[day])])
  {
  }

  lemma PlacedAll(acc: map<int, nat>, done: seq<int>, series: seq<DailyCount>)
    requires Placed(acc, {}, done, series)
    ensures forall i, j :: 0 <= i < j < |series| ==> series[i].date < series[j].date
    ensures forall i :: 0 <= i < |series| ==>
      series[i].date == DayStart(DayOf(series[i].date)) &&
      DayOf(series[i].date) in acc && series[i].count == acc[DayOf(series[i].date)]
    ensures forall d :: d in acc ==> exists i :: 0 <= i < |series| && series[i].date == DayStart(d)
  {
    forall i, j | 0 <= i < j < |series|
      ensures series[i].date < series[j].date
    {
      DayStartMonotone(done[i], done[j]);
    }
    forall i | 0 <= i < |series|
      ensures series[i].date == DayStart(DayOf(series[i].date))
      ensures DayOf(series[i].date) == done[i]
    {
      DayOfDayStart(done[i]);
    }
    forall d | d in acc
      ensures exists i :: 0 <= i < |series| && series[i].date == DayStart(d)
    {
      var i :| 0 <= i < |done| && done[i] == d;
      assert series[i].date == DayStart(d);
    }
  }

  /** `Object.entries(...).map(...).sort(...)`: one point per key, dated
      at that day's UTC midnight, in ascending order of date. Distinct
      keys leave a sort no choice, so any correct sort gives this order. */
  method SortByDay(acc: map<int, nat>) returns (series: seq<DailyCount>)
    ensures forall i, j :: 0 <= i < j < |series| ==> series[i].date < series[j].date
    ensures forall i :: 0 <= i < |series| ==>
      series[i].date == DayStart(DayOf(series[i].date)) &&
      DayOf(series[i].date) in acc && series[i].count == acc[DayOf(series[i].date)]
    ensures forall d :: d in acc ==> exists i :: 0 <= i < |series| && series[i].date == DayStart(d)
  {
    series := [];
    ghost var done: seq<int> := [];
    var pending := acc.Keys;
    while pending != {}
      invariant Placed(acc, pending, done, series)
      decreases |pending|
    {
      LeastDayExists(pending);
      var day :| day in pending && forall d :: d in pending ==> day <= d;
      PlaceLeast(acc, pending, done, series, day);
      series := series + [DailyCount(DayStart(day), acc[day])];
      done := done + [day];
      pending := pending - {day};
    }
    PlacedAll(acc, done, series);
  }

  /** The (day, count) entries of a series. */
  function DayEntries(series: seq<DailyCount>): (t: seq<Entry<int>>)
    ensures |t| == |series|
    ensures forall i :: 0 <= i < |series| ==> t[i] == Entry(DayOf(series[i].date), series[i].count)
  {
    seq(|series|, i requires 0 <= i < |series| => Entry(DayOf(series[i].date), series[i].count))
  }

  /** `series` is the `quantity` report of `rows`: strictly ascending
      dates, each a UTC midnight, one point per day on which some row was
      created and none for other days, each counting that day's rows. */
  predicate IsDailySeries(series: seq<DailyCount>, rows: seq<Occurrence>) {
    && (forall i, j :: 0 <= i < j < |series| ==> series[i].date < series[j].date)
    && (forall i :: 0 <= i < |series| ==> series[i].date == DayStart(DayOf(series[i].date)))
    && IsTally(DayEntries(series), Days(rows))
  }

  /** The `quantity` branch: count per day, then sort. */
  method QuantityReport(rows: seq<Occurrence>) returns (series: seq<DailyCount>)
    ensures IsDailySeries(series, rows)
  {
    var acc := CountByDay(rows);
    series := SortByDay(acc);
    var t, ks := DayEntries(series), Days(rows);
    forall i, j | 0 <= i < j < |t|
      ensures t[i].key != t[j].key
    {
      assert series[i].date < series[j].date;
    }
    forall x | x in ks
      ensures HasKey(t, x)
    {
      var i :| 0 <= i < |series| && series[i].date == DayStart(x);
      DayOfDayStart(x);
      assert t[i].key == x;
    }
  }

  /** Sum of the counts of a series. */
  function SeriesTotal(series: seq<DailyCount>): nat {
    if series == [] then 0 else series[0].count + SeriesTotal(series[1..])
  }

  lemma {:induction false} SeriesTotalIsTotal(series: seq<DailyCount>)
    ensures SeriesTotal(series) == Total(DayEntries(series))
  {
    if series != [] {
      SeriesTotalIsTotal(series[1..]);
      assert DayEntries(series)[1..] == DayEntries(series[1..]);
    }
  }

  /** The counts of the `quantity` report add up to the number of
      filtered occurrences. */
  lemma QuantityTotal(series: seq<DailyCount>, rows: seq<Occurrence>)
    requires IsDailySeries(series, rows)
    ensures SeriesTotal(series) == |rows|
  {
    SeriesTotalIsTotal(series);
    TallyTotal(DayEntries(series), Days(rows));
  }

  /** The series is sparse: every point counts at least one occurrence and
      is the UTC midnight of the day some occurrence was created on. */
  lemma QuantitySparse(series: seq<DailyCount>, rows: seq<Occurrence>, i: nat)
    requires IsDailySeries(series, rows)
    requires i < |series|
    ensures series[i].count >= 1
    ensures exists k :: 0 <= k < |rows| && series[i].date == DayStart(DayOf(rows[k].createdAt))
  {
    var d := DayEntries(series)[i].key;
    var k :| 0 <= k < |rows| && Days(rows)[k] == d;
  }

  /** Each occurrence is counted in exactly one point: the one whose date
      is the midnight starting its UTC day. Occurrences on the same UTC day
      share that point whatever their time of day. */
  lemma QuantityBucket(series: seq<DailyCount>, rows: seq<Occurrence>, k: nat)
    requires IsDailySeries(series, rows)
    requires k < |rows|
    ensures exists i :: 0 <= i < |series| && series[i].date <= rows[k].createdAt < series[i].date + MsPerDay
    ensures forall i, j ::
      (0 <= i < |series| && 0 <= j < |series| &&
       series[i].date <= rows[k].createdAt < series[i].date + MsPerDay &&
       series[j].date <= rows[k].createdAt < series[j].date + MsPerDay) ==> i == j
  {
    var t := rows[k].createdAt;
    var d := DayOf(t);
    assert Days(rows)[k] == d;
    assert HasKey(DayEntries(series), d);
    var i :| 0 <= i < |series| && DayEntries(series)[i].key == d;
    assert series[i].date == DayStart(d);
    forall i, j |
      0 <= i < j < |series| &&
      series[i].date <= t < series[i].date + MsPerDay &&
      series[j].date <= t < series[j].date + MsPerDay
      ensures false
    {
      var di, dj := DayOf(series[i].date), DayOf(series[j].date);
      DayOfMonotone(series[i].date, series[j].date);
      assert di != dj;
      DayStartMonotone(di, dj);
    }
  }

  /** The dates of a series, in order. */
  function Dates(series: seq<DailyCount>): (ds: seq<int>)
    ensures |ds| == |series|
    ensures forall i :: 0 <= i < |series| ==> ds[i] == series[i].date
  {
    seq(|series|, i requires 0 <= i < |series| => series[i].date)
  }

  /** Two strictly ascending sequences with the same elements are equal. */
  lemma {:induction false} AscendingUnique(a: seq<int>, b: seq<int>)
    requires forall i, j :: 0 <= i < j < |a| ==> a[i] < a[j]
    requires forall i, j :: 0 <= i < j < |b| ==> b[i] < b[j]
    requires forall x :: x in a <==> x in b
    ensures a == b
  {
    if a != [] {
      assert a[0] in a;
    }
    if b != [] {
      assert b[0] in b;
    }
    if a != [] && b != [] {
      assert a[0] in b && b[0] in a;
      assert a[0] == b[0];
      forall x
        ensures x in a[1..] <==> x in b[1..]
      {
        if x in a[1..] {
          assert x in b && x != b[0];
        }
        if x in b[1..] {
          assert x in a && x != a[0];
        }
      }
      AscendingUnique(a[1..], b[1..]);
      assert a == [a[0]] + a[1..] && b == [b[0]] + b[1..];
    }
  }

  /** The `quantity` report is determined by the rows: whatever order the
      dictionary or the sort visit days in, there is only one series. */
  lemma QuantityUnique(s1: seq<DailyCount>, s2: seq<DailyCount>, rows: seq<Occurrence>)
    requires IsDailySeries(s1, rows) && IsDailySeries(s2, rows)
    ensures s1 == s2
  {
    forall x
      ensures x in Dates(s1) <==> x in Dates(s2)
    {
      if x in Dates(s1) {
        SameDatesOneWay(s1, s2, rows, x);
      }
      if x in Dates(s2) {
        SameDatesOneWay(s2, s1, rows, x);
      }
    }
    AscendingUnique(Dates(s1), Dates(s2));
    forall i | 0 <= i < |s1|
      ensures s1[i] == s2[i]
    {
      assert Dates(s1)[i] == Dates(s2)[i];
      assert DayEntries(s1)[i].key == DayEntries(s2)[i].key;
    }
  }

  lemma SameDatesOneWay(s1: seq<DailyCount>, s2: seq<DailyCount>, rows: seq<Occurrence>, x: int)
    requires IsDailySeries(s1, rows) && IsDailySeries(s2, rows)
    requires x in Dates(s1)
    ensures x in Dates(s2)
  {
    var i :| 0 <= i < |s1| && Dates(s1)[i] == x;
    var d := DayEntries(s1)[i].key;
    assert d in Days(rows);
    var j :| 0 <= j < |s2| && DayEntries(s2)[j].key == d;
    assert Dates(s2)[j] == x;
  }

  /** Taking element `j` out of a sequence takes it out of its multiset. */
  lemma RemoveAt<T>(s: seq<T>, j: nat)
    requires j < |s|
    ensures multiset(s) == multiset(s[..j] + s[j + 1..]) + multiset{s[j]}
  {
    assert s == s[..j] + [s[j]] + s[j + 1..];
  }

  /** Taking row `j` out of a table takes its day key out of the table's
      day keys. */
  lemma DaysWithout(rows: seq<Occurrence>, j: nat)
    requires j < |rows|
    ensures Days(rows[..j] + rows[j + 1..]) == Days(rows)[..j] + Days(rows)[j + 1..]
  {
    var rest, ds := rows[..j] + rows[j + 1..], Days(rows);
    assert forall i :: 0 <= i < |rest| ==> Days(rest)[i] == (ds[..j] + ds[j + 1..])[i];
  }

  /** Taking row `j` out of a table takes it out of the table's multiset
      and its day key out of the multiset of the table's day keys. */
  lemma RemoveRow(rows: seq<Occurrence>, j: nat)
    requires j < |rows|
    ensures var rest := rows[..j] + rows[j + 1..];
      && multiset(rows) == multiset(rest) + multiset{rows[j]}
      && multiset(Days(rows)) == multiset(Days(rest)) + multiset{DayOf(rows[j].createdAt)}
  {
    RemoveAt(rows, j);
    RemoveAt(Days(rows), j);
    DaysWithout(rows, j);
  }

  /** Adding the same element to two multisets keeps them apart. */
  lemma AddOneCancels<T>(m1: multiset<T>, m2: multiset<T>, x: T)
    requires m1 + multiset{x} == m2 + multiset{x}
    ensures m1 == m2
  {
    forall y
      ensures m1[y] == m2[y]
    {
      assert (m1 + multiset{x})[y] == (m2 + multiset{x})[y];
    }
  }

  /** Reordering the rows reorders their day keys and nothing more. */
  lemma {:induction false} DaysPermutation(rows: seq<Occurrence>, rows': seq<Occurrence>)
    requires multiset(rows) == multiset(rows')
    ensures multiset(Days(rows)) == multiset(Days(rows'))
    decreases |rows|
  {
    if rows == [] {
      assert |multiset(rows')| == 0;
    } else {
      var n := |rows| - 1;
      var x := rows[n];
      assert x in multiset(rows') by {
        assert rows[n] in rows;
      }
      var j :| 0 <= j < |rows'| && rows'[j] == x;
      RemoveRow(rows, n);
      RemoveRow(rows', j);
      var rest, rest' := rows[..n] + rows[n + 1..], rows'[..j] + rows'[j + 1..];
      AddOneCancels(multiset(rest), multiset(rest'), x);
      DaysPermutation(rest, rest');
    }
  }

  /** The `quantity` report does not depend on the order the ORM returns
      the rows in: a series is the report of the rows exactly when it is
      the report of any reordering of them. */
  lemma QuantityReorder(series: seq<DailyCount>, rows: seq<Occurrence>, rows': seq<Occurrence>)
    requires multiset(rows) == multiset(rows')
    ensures IsDailySeries(series, rows) <==> IsDailySeries(series, rows')
  {
    DaysPermutation(rows, rows');
    TallyPermutation(DayEntries(series), Days(rows), Days(rows'));
  }

  // ---------------------------------------------------------------------
  // byCategory: occurrences per category, named from the catalog
  // ---------------------------------------------------------------------

  /** One row of the `byCategory` report. */
  datatype CategoryCount = CategoryCount(category: string, count: nat)

  const CategoryNotFound: string := "Categoria não encontrada"

  /** The category id of every row, in row order. */
  function CategoryIds(rows: seq<Occurrence>): (ids: seq<string>)
    ensures |ids| == |rows|
    ensures forall i :: 0 <= i < |rows| ==> ids[i] == rows[i].categoryId
  {
    seq(|rows|, i requires 0 <= i < |rows| => rows[i].categoryId)
  }

  /** The ORM's `groupBy` on `categoryId` with a count of ids: one group
      per category id that occurs, counting its rows. This one lists groups
      in order of first occurrence; `CategoryReportSpec` holds for a
      grouping in any order. */
  function GroupByCategory(rows: seq<Occurrence>): (groups: seq<Entry<string>>)
    ensures IsTally(groups, CategoryIds(rows))
  {
    TallyOfIsTally(CategoryIds(rows));
    TallyOf(CategoryIds(rows))
  }

  /** The ids of the groups, in group order. */
  function GroupIds(groups: seq<Entry<string>>): (ids: seq<string>)
    ensures |ids| == |groups|
    ensures forall i :: 0 <= i < |groups| ==> ids[i] == groups[i].key
  {
    seq(|groups|, i requires 0 <= i < |groups| => groups[i].key)
  }

  /** `categories.find(cat => cat.id === id)`: the first catalog entry with
      that id, None when there is none. */
  function FindCategory(catalog: seq<Category>, id: string): (r: Option<Category>)
    ensures r.None? <==> forall i :: 0 <= i < |catalog| ==> catalog[i].id != id
    ensures r.Some? ==>
      exists i :: 0 <= i < |catalog| && catalog[i] == r.value && catalog[i].id == id &&
        forall j :: 0 <= j < i ==> catalog[j].id != id
  {
    if catalog == [] then None
    else if catalog[0].id == id then Some(catalog[0])
    else
      var r := FindCategory(catalog[1..], id);
      assert forall i :: 1 <= i < |catalog| ==> catalog[i] == catalog[1..][i - 1];
      r
  }

  /** `category?.name || "Categoria não encontrada"`: the name of the first
      catalog entry with the id, or the sentinel when no entry has the id
      or that entry's name is empty. */
  function Label(catalog: seq<Category>, id: string): (shown: string)
    ensures shown != ""
    ensures (forall i :: 0 <= i < |catalog| ==> catalog[i].id != id) ==> shown == CategoryNotFound
    ensures forall i :: 0 <= i < |catalog| && catalog[i].id == id && (forall j :: 0 <= j < i ==> catalog[j].id != id) ==>
      shown == if catalog[i].name == "" then CategoryNotFound else catalog[i].name
  {
    match FindCategory(catalog, id)
    case None => CategoryNotFound
    case Some(c) => if c.name != "" then c.name else CategoryNotFound
  }

  /** `prisma.category.findMany({ where: { id: { in: ids } } })`: the
      catalog entries whose id is among `ids`, in catalog order. */
  function CategoriesWithIds(catalog: seq<Category>, ids: seq<string>): (r: seq<Category>)
    ensures forall c :: c in r <==> c in catalog && c.id in ids
  {
    if catalog == [] then []
    else
      assert catalog == [catalog[0]] + catalog[1..];
      (if catalog[0].id in ids then [catalog[0]] else []) + CategoriesWithIds(catalog[1..], ids)
  }

  /** Fetching only the categories of the groups loses nothing: the lookup
      finds the same entry as it would in the whole catalog. */
  lemma {:induction false} LookupInFetched(catalog: seq<Category>, ids: seq<string>, id: string)
    requires id in ids
    ensures FindCategory(CategoriesWithIds(catalog, ids), id) == FindCategory(catalog, id)
  {
    if catalog != [] {
      var rest := CategoriesWithIds(catalog[1..], ids);
      LookupInFetched(catalog[1..], ids, id);
      if catalog[0].id in ids {
        assert CategoriesWithIds(catalog, ids) == [catalog[0]] + rest;
        assert ([catalog[0]] + rest)[1..] == rest;
      } else {
        assert CategoriesWithIds(catalog, ids) == rest;
      }
    }
  }

  /** The `categoryData.map(...)` step: for each group, the label of its
      category and the group's count. */
  function NameGroups(groups: seq<Entry<string>>, fetched: seq<Category>): (r: seq<CategoryCount>)
    ensures |r| == |groups|
    ensures forall i :: 0 <= i < |groups| ==> r[i] == CategoryCount(Label(fetched, groups[i].key), groups[i].count)
  {
    seq(|groups|, i requires 0 <= i < |groups| => CategoryCount(Label(fetched, groups[i].key), groups[i].count))
  }

  /** Sum of the counts of a `byCategory` report. */
  function CategoryTotal(r: seq<CategoryCount>): nat {
    if r == [] then 0 else r[0].count + CategoryTotal(r[1..])
  }

  lemma {:induction false} NameGroupsTotal(groups: seq<Entry<string>>, fetched: seq<Category>)
    ensures CategoryTotal(NameGroups(groups, fetched)) == Total(groups)
  {
    if groups != [] {
      NameGroupsTotal(groups[1..], fetched);
      assert NameGroups(groups, fetched)[1..] == NameGroups(groups[1..], fetched);
    }
  }

  /** Fetch the categories of the groups and name each group. */
  function NameCategories(groups: seq<Entry<string>>, catalog: seq<Category>): seq<CategoryCount> {
    NameGroups(groups, CategoriesWithIds(catalog, GroupIds(groups)))
  }

  /** What the `byCategory` report promises, for a grouping of the rows in
      any order: one report row per group, in group order, with the
      group's count and the label of the group's category as the whole
      catalog gives it; and the counts add up to the number of rows. */
  lemma CategoryReportSpec(groups: seq<Entry<string>>, rows: seq<Occurrence>, catalog: seq<Category>)
    requires IsTally(groups, CategoryIds(rows))
    ensures var r := NameCategories(groups, catalog);
      |r| == |groups| &&
      forall i :: 0 <= i < |groups| ==>
        r[i].count == groups[i].count && r[i].category == Label(catalog, groups[i].key)
    ensures CategoryTotal(NameCategories(groups, catalog)) == |rows|
  {
    var ids := GroupIds(groups);
    forall i | 0 <= i < |groups|
      ensures Label(CategoriesWithIds(catalog, ids), groups[i].key) == Label(catalog, groups[i].key)
    {
      assert ids[i] == groups[i].key;
      LookupInFetched(catalog, ids, groups[i].key);
    }
    NameGroupsTotal(groups, CategoriesWithIds(catalog, ids));
    TallyTotal(groups, CategoryIds(rows));
  }

  /** The `byCategory` branch: group the filtered rows, fetch the groups'
      categories, name each group. Every report row stands for a category
      id of some row, carries that id's label and its number of rows, and
      the counts add up to the number of rows. */
  function CategoryReport(rows: seq<Occurrence>, catalog: seq<Category>): (r: seq<CategoryCount>)
    ensures forall i :: 0 <= i < |r| ==> NamesSomeRow(r[i], rows, catalog)
    ensures CategoryTotal(r) == |rows|
  {
    var groups := GroupByCategory(rows);
    CategoryReportSpec(groups, rows, catalog);
    CategoryRowsWitnessed(groups, rows, catalog);
    NameCategories(groups, catalog)
  }

  /** `c` reports the category id of some row: its label and its number
      of rows. */
  predicate NamesSomeRow(c: CategoryCount, rows: seq<Occurrence>, catalog: seq<Category>) {
    exists k :: 0 <= k < |rows| &&
      c.category == Label(catalog, rows[k].categoryId) &&
      c.count == Count(CategoryIds(rows), rows[k].categoryId)
  }

  /** Each report row of a grouping names the category id of some row. */
  lemma CategoryRowsWitnessed(groups: seq<Entry<string>>, rows: seq<Occurrence>, catalog: seq<Category>)
    requires IsTally(groups, CategoryIds(rows))
    requires |NameCategories(groups, catalog)| == |groups|
    requires forall i :: 0 <= i < |groups| ==>
      NameCategories(groups, catalog)[i].count == groups[i].count &&
      NameCategories(groups, catalog)[i].category == Label(catalog, groups[i].key)
    ensures forall i :: 0 <= i < |groups| ==> NamesSomeRow(NameCategories(groups, catalog)[i], rows, catalog)
  {
    forall i | 0 <= i < |groups|
      ensures NamesSomeRow(NameCategories(groups, catalog)[i], rows, catalog)
    {
      var key := groups[i].key;
      assert key in CategoryIds(rows);
      var k :| 0 <= k < |rows| && CategoryIds(rows)[k] == key;
      assert rows[k].categoryId == key;
    }
  }

  // ---------------------------------------------------------------------
  // resolutionDuration: elapsed whole hours per finished occurrence
  // ---------------------------------------------------------------------

  /** One row of the `resolutionDuration` report. */
  datatype ResolutionSample = ResolutionSample(
    id: string,
    category: string,
    duration: int,
    createdAt: int,
    finishedIn: int)

  /** The `finished_in: { not: null }` condition: the finished rows, each
      as many times as it occurs. */
  function Finished(rows: seq<Occurrence>): (r: seq<Occurrence>)
    ensures |r| <= |rows|
    ensures forall o :: multiset(r)[o] == if o.finishedIn.Some? then multiset(rows)[o] else 0
    ensures forall o :: o in r <==> o in rows && o.finishedIn.Some?
  {
    if rows == [] then []
    else
      assert rows == [rows[0]] + rows[1..];
      (if rows[0].finishedIn.Some? then [rows[0]] else []) + Finished(rows[1..])
  }

  /** The sample of one finished row: id, category name and both
      instants copied, and the elapsed time rounded to the nearest whole
      hour (half hours up), with no clamping of negative or zero
      durations. */
  function Sample(o: Occurrence): (s: ResolutionSample)
    requires o.finishedIn.Some?
    ensures s.id == o.id && s.category == o.categoryName
    ensures s.createdAt == o.createdAt && o.finishedIn == Some(s.finishedIn)
    ensures s.duration == RoundHours(s.finishedIn - s.createdAt)
  {
    ResolutionSample(o.id, o.categoryName, RoundHours(o.finishedIn.value - o.createdAt), o.createdAt, o.finishedIn.value)
  }

  /** The `resolutionData.map(...)` step: one sample per finished row, in
      row order. */
  function Durations(rows: seq<Occurrence>): (r: seq<ResolutionSample>)
    requires forall o :: o in rows ==> o.finishedIn.Some?
    ensures |r| == |rows|
    ensures forall i :: 0 <= i < |rows| ==> r[i] == Sample(rows[i])
  {
    seq(|rows|, i requires 0 <= i < |rows| => Sample(rows[i]))
  }

  /** The `resolutionDuration` branch: the i-th sample is the sample of
      the i-th finished row. */
  function ResolutionReport(rows: seq<Occurrence>): (r: seq<ResolutionSample>)
    ensures |r| == |Finished(rows)|
    ensures forall i :: 0 <= i < |r| ==> Finished(rows)[i] in rows && r[i] == Sample(Finished(rows)[i])
  {
    var f := Finished(rows);
    assert forall i :: 0 <= i < |f| ==> f[i] in f;
    Durations(f)
  }

  /** Every finished row of the table is sampled, and no open row is. */
  lemma ResolutionCoverage(rows: seq<Occurrence>, o: Occurrence)
    ensures o in rows && o.finishedIn.Some? ==> Sample(o) in ResolutionReport(rows)
    ensures forall s :: s in ResolutionReport(rows) ==>
      exists p :: p in rows && p.finishedIn.Some? && s == Sample(p)
  {
    var f, r := Finished(rows), ResolutionReport(rows);
    if o in rows && o.finishedIn.Some? {
      assert o in f;
      var i :| 0 <= i < |f| && f[i] == o;
      assert r[i] == Sample(o);
    }
    forall s | s in r
      ensures exists p :: p in rows && p.finishedIn.Some? && s == Sample(p)
    {
      var i :| 0 <= i < |r| && r[i] == s;
      assert f[i] in f;
    }
  }

  /** Two occurrences of category A created at `d0`, one finished two
      hours later and one still open, and one of category B finished five
      hours after `d0`. */
  function ScenarioRows(d0: int): seq<Occurrence> {
    [ Occurrence("1", d0, Some(d0 + 2 * MsPerHour), "a", "A"),
      Occurrence("2", d0, None, "a", "A"),
      Occurrence("3", d0, Some(d0 + 5 * MsPerHour), "b", "B") ]
  }

  /** Ids a, a, b count a twice and b once, in that order. */
  lemma ScenarioTally()
    ensures TallyOf(["a", "a", "b"]) == [Entry("a", 2), Entry("b", 1)]
  {
    var ids := ["a", "a", "b"];
    assert ids[..2] == ["a", "a"] && ids[..2][..1] == ["a"] && ids[..2][..1][..0] == [];
    var t1 := TallyOf(["a"]);
    assert t1 == [Entry("a", 1)];
    assert HasKey(t1, "a");
    var t2 := TallyOf(["a", "a"]);
    assert t2 == Bump(t1, "a");
    assert t2 == [Entry("a", 2)];
    assert !HasKey(t2, "b");
    assert TallyOf(ids) == Bump(t2, "b");
  }

  /** In that scenario the grouping finds A twice and B once. */
  lemma ScenarioGroups(d0: int)
    ensures GroupByCategory(ScenarioRows(d0)) == [Entry("a", 2), Entry("b", 1)]
  {
    assert CategoryIds(ScenarioRows(d0)) == ["a", "a", "b"];
    ScenarioTally();
  }

  /** A catalog of two categories with distinct ids and non-empty names
      labels each id with its own name. */
  lemma ScenarioLabels(a: string, b: string, nameA: string, nameB: string)
    requires a != b && nameA != "" && nameB != ""
    ensures Label([Category(a, nameA), Category(b, nameB)], a) == nameA
    ensures Label([Category(a, nameA), Category(b, nameB)], b) == nameB
  {
    var catalog := [Category(a, nameA), Category(b, nameB)];
    assert FindCategory(catalog, a) == Some(catalog[0]);
    assert catalog[1..] == [Category(b, nameB)];
    assert FindCategory(catalog, b) == Some(catalog[1]);
  }

  /** In that scenario A counts 2 and B counts 1. */
  lemma CategoryScenario(d0: int)
    ensures CategoryReport(ScenarioRows(d0), [Category("a", "A"), Category("b", "B")]) ==
      [CategoryCount("A", 2), CategoryCount("B", 1)]
  {
    var rows, catalog := ScenarioRows(d0), [Category("a", "A"), Category("b", "B")];
    var groups := GroupByCategory(rows);
    var r := CategoryReport(rows, catalog);
    assert r == NameCategories(groups, catalog);
    ScenarioGroups(d0);
    CategoryReportSpec(groups, rows, catalog);
    ScenarioLabels("a", "b", "A", "B");
    assert r[0] == CategoryCount("A", 2) && r[1] == CategoryCount("B", 1);
  }

  /** In that scenario the first and the third occurrence are finished. */
  lemma ScenarioFinished(d0: int)
    ensures Finished(ScenarioRows(d0)) == [ScenarioRows(d0)[0], ScenarioRows(d0)[2]]
  {
    var rows := ScenarioRows(d0);
    assert Finished(rows[2..]) == [rows[2]];
    assert Finished(rows[1..]) == [rows[2]];
  }

  /** In that scenario only the two finished occurrences give samples, of
      2 and 5 hours. */
  lemma ResolutionScenario(d0: int)
    ensures |ResolutionReport(ScenarioRows(d0))| == 2
    ensures ResolutionReport(ScenarioRows(d0))[0].duration == 2
    ensures ResolutionReport(ScenarioRows(d0))[1].duration == 5
  {
    var rows := ScenarioRows(d0);
    ScenarioFinished(d0);
    var r := ResolutionReport(rows);
    assert r[0] == Sample(rows[0]) && r[1] == Sample(rows[2]);
    assert rows[0].finishedIn.value - rows[0].createdAt == 2 * MsPerHour;
    assert rows[2].finishedIn.value - rows[2].createdAt == 5 * MsPerHour;
    WholeHours(2);
    WholeHours(5);
  }

  // ---------------------------------------------------------------------
  // The handler
  // ---------------------------------------------------------------------

  datatype ReportType = Quantity | ByCategory | ResolutionDuration | Unrecognised

  /** The `switch (reportType)`: exactly the three names, matched case by
      case, select a report; anything else, a missing type included, falls
      to `default`. */
  function ParseReportType(t: Option<string>): (r: ReportType)
    ensures r == Quantity <==> t == Some("quantity")
    ensures r == ByCategory <==> t == Some("byCategory")
    ensures r == ResolutionDuration <==> t == Some("resolutionDuration")
  {
    match t
    case Some("quantity") => Quantity
    case Some("byCategory") => ByCategory
    case Some("resolutionDuration") => ResolutionDuration
    case _ => Unrecognised
  }

  /** The occurrence and category tables as the ORM sees them, or a store
      whose queries throw. */
  datatype Store =
    | Available(occurrences: seq<Occurrence>, categories: seq<Category>)
    | Failing

  datatype Body =
    | DailyData(days: seq<DailyCount>)
    | CategoryData(categories: seq<CategoryCount>)
    | DurationData(samples: seq<ResolutionSample>)
    | ErrorMessage(error: string)

  datatype Response = Response(status: int, body: Body)

  const InvalidReportType: string := "Tipo de relatório inválido"
  const InternalServerError: string := "Erro interno do servidor"

  /** `GET /api/reports`. An unrecognised type is answered with 400 before
      any query runs; for the three report types, a query that throws (a
      failing store, or a given date that is an Invalid Date) is answered
      with 500; otherwise the chosen report of the filtered rows with 200. */
  method Get(q: Query, store: Store) returns (resp: Response)
    ensures ParseReportType(q.reportType) == Unrecognised ==>
      resp == Response(400, ErrorMessage(InvalidReportType))
    ensures ParseReportType(q.reportType) != Unrecognised && (store.Failing? || WhereClause(q).None?) ==>
      resp == Response(500, ErrorMessage(InternalServerError))
    ensures resp.status == 200 <==>
      ParseReportType(q.reportType) != Unrecognised && store.Available? && WhereClause(q).Some?
    ensures resp.status == 200 ==>
      var rows := Filtered(store.occurrences, WhereClause(q).value);
      match ParseReportType(q.reportType)
      case Quantity => resp.body.DailyData? && IsDailySeries(resp.body.days, rows)
      case ByCategory => resp.body == CategoryData(CategoryReport(rows, store.categories))
      case ResolutionDuration => resp.body == DurationData(ResolutionReport(rows))
      case Unrecognised => false
  {
    var reportType := ParseReportType(q.reportType);
    if reportType == Unrecognised {
      return Response(400, ErrorMessage(InvalidReportType));
    }
    var where := WhereClause(q);
    if store.Failing? || where.None? {
      return Response(500, ErrorMessage(InternalServerError));
    }
    var rows := Filtered(store.occurrences, where.value);
    match reportType {
      case Quantity =>
        var series := QuantityReport(rows);
        resp := Response(200, DailyData(series));
      case ByCategory =>
        resp := Response(200, CategoryData(CategoryReport(rows, store.categories)));
      case ResolutionDuration =>
        resp := Response(200, DurationData(ResolutionReport(rows)));
    }
  }
}
