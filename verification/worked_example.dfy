/**
 A worked example: a Friday, Saturday and Sunday in March 2024, each with 8
 theoretical hours, through cleaning and the monthly totals.
 */
module WorkedExample {
  import opened Wrappers
  import opened Text
  import opened Dates
  import opened Cleaning
  import opened Monthly

  /** Capitalised day names as they appear in the data file. */
  lemma ExampleDayNames()
    ensures !IsWeekend(Some("Vendredi"))
    ensures IsWeekend(Some("Samedi")) && IsWeekend(Some("Dimanche"))
  {
    assert Lower("Samedi") == "samedi";
    assert Lower("Dimanche") == "dimanche";
    assert Lower("Vendredi")[0] == 'v';
  }

  /** Every day of March 2024 falls in the group "2024-03". */
  lemma ExampleMonthLabel(day: nat)
    ensures MonthLabel(Date(2024, 3, day)) == "2024-03"
  {
    assert Digits(2024, 4) == "2024";
    assert Digits(3, 2) == "03";
  }

  const ExampleRows: seq<RawRow> := [
    RawRow(Parsed(Date(2024, 3, 1)), Some("Vendredi"), 8.0, 2.0),
    RawRow(Parsed(Date(2024, 3, 2)), Some("Samedi"), 8.0, 5.0),
    RawRow(Parsed(Date(2024, 3, 3)), Some("Dimanche"), 8.0, 0.0)]

  const ExampleRecords: seq<Record> := [
    Record(Date(2024, 3, 1), Some("Vendredi"), 8.0, 2.0, 6.0),
    Record(Date(2024, 3, 2), Some("Samedi"), 8.0, 0.0, 8.0),
    Record(Date(2024, 3, 3), Some("Dimanche"), 8.0, 0.0, 8.0)]

  /** Three rows that each survive cleaning give their three records, in order. */
  lemma CleanRowsThree(a: RawRow, b: RawRow, c: RawRow, x: Record, y: Record, z: Record)
    requires CleanCell(a) == [x] && CleanCell(b) == [y] && CleanCell(c) == [z]
    ensures CleanRows([a, b, c]) == [x, y, z]
  {
    CleanRowsSingle(a);
    CleanRowsSnoc([a], b);
    assert [a] + [b] == [a, b];
    CleanRowsSnoc([a, b], c);
    assert [a, b] + [c] == [a, b, c];
  }

  /** An ordinary day keeps its downtime: 8 - 2 = 6 running hours. */
  lemma ExampleFriday()
    ensures CleanCell(RawRow(Parsed(Date(2024, 3, 1)), Some("Vendredi"), 8.0, 2.0)) ==
      [Record(Date(2024, 3, 1), Some("Vendredi"), 8.0, 2.0, 6.0)]
  {
    ExampleDayNames();
  }

  /** Saturday's 5 hours of downtime are zeroed: 8 running hours. */
  lemma ExampleSaturday()
    ensures CleanCell(RawRow(Parsed(Date(2024, 3, 2)), Some("Samedi"), 8.0, 5.0)) ==
      [Record(Date(2024, 3, 2), Some("Samedi"), 8.0, 0.0, 8.0)]
  {
    ExampleDayNames();
  }

  /** Sunday has no downtime to zero: 8 running hours. */
  lemma ExampleSunday()
    ensures CleanCell(RawRow(Parsed(Date(2024, 3, 3)), Some("Dimanche"), 8.0, 0.0)) ==
      [Record(Date(2024, 3, 3), Some("Dimanche"), 8.0, 0.0, 8.0)]
  {
    ExampleDayNames();
  }

  /** Friday keeps its downtime; Saturday's and Sunday's are zeroed; running is 6, 8 and 8 hours. */
  lemma ExampleCleaning()
    ensures CleanRows(ExampleRows) == ExampleRecords
  {
    ExampleFriday();
    ExampleSaturday();
    ExampleSunday();
    CleanRowsThree(ExampleRows[0], ExampleRows[1], ExampleRows[2],
      ExampleRecords[0], ExampleRecords[1], ExampleRecords[2]);
  }

  /** One record makes one group. */
  lemma AggregateSingle(x: Record)
    ensures Aggregate([x]) == [MonthTotal(MonthLabel(x.date), HoursOf(x))]
  {
    AggregateSnoc([], x);
    AddToEmpty(MonthLabel(x.date), HoursOf(x));
    assert [] + [x] == [x];
  }

  /** A record of the only month present adds its hours to that month's group. */
  lemma AggregateSameMonth(rs: seq<Record>, m: MonthTotal, r: Record)
    requires Aggregate(rs) == [m] && MonthLabel(r.date) == m.key
    ensures Aggregate(rs + [r]) == [MonthTotal(m.key, m.hours.Plus(HoursOf(r)))]
  {
    AggregateSnoc(rs, r);
    AddToSame(m, HoursOf(r));
  }

  /** Three records of one month make a single group holding their summed hours. */
  lemma AggregateOneMonth(x: Record, y: Record, z: Record, key: string)
    requires MonthLabel(x.date) == key && MonthLabel(y.date) == key && MonthLabel(z.date) == key
    ensures Aggregate([x, y, z]) == [MonthTotal(key, HoursOf(x).Plus(HoursOf(y)).Plus(HoursOf(z)))]
  {
    AggregateSingle(x);
    AggregateSameMonth([x], MonthTotal(key, HoursOf(x)), y);
    assert [x] + [y] == [x, y];
    AggregateSameMonth([x, y], MonthTotal(key, HoursOf(x).Plus(HoursOf(y))), z);
    assert [x, y] + [z] == [x, y, z];
  }

  /** The three March days make one group of 22 running hours and 2 hours of downtime. */
  lemma ExampleMonthlyTotals()
    ensures Aggregate(ExampleRecords) == [MonthTotal("2024-03", Hours(22.0, 2.0))]
  {
    var rs := ExampleRecords;
    ExampleMonthLabel(1);
    ExampleMonthLabel(2);
    ExampleMonthLabel(3);
    AggregateOneMonth(rs[0], rs[1], rs[2], "2024-03");
    assert rs == [rs[0], rs[1], rs[2]];
  }

  /** From input rows to the bar chart: the March group totals 22 running hours and 2 hours of downtime. */
  lemma MarchWeekendExample()
    ensures Aggregate(CleanRows(ExampleRows)) == [MonthTotal("2024-03", Hours(22.0, 2.0))]
  {
    ExampleCleaning();
    ExampleMonthlyTotals();
  }
}
