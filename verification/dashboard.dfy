/**
 One run of the dashboard: load and clean the table, read the range
 selection, filter the records to it and total them by month. What is drawn
 from the result is left to the charting layer.
 */
module Dashboard {
  import opened Wrappers
  import opened Text
  import opened Dates
  import opened Cleaning
  import opened Filtering
  import opened Monthly

  /** What a run shows: the two charts, the prompt to finish the range, or the error message. */
  datatype View =
    | Charts(daily: seq<Record>, monthly: seq<MonthTotal>)
    | Prompt
    | Failed(error: LoadError)

  function Render(table: RawTable, selection: seq<Date>): (v: View)
    ensures Load(table).Failure? ==> v == Failed(Load(table).error)
    ensures Load(table).Success? && |selection| != 2 ==> v == Prompt
    ensures v.Charts? <==> Load(table).Success? && |selection| == 2
    ensures v.Charts? ==> forall r :: r in v.daily <==>
      r in Load(table).value && NotAfter(selection[0], r.date) && NotAfter(r.date, selection[1])
    ensures v.Charts? ==> forall j :: 0 <= j < |v.daily| ==> Consistent(v.daily[j])
    ensures v.Charts? ==> Ascending(v.monthly) && Labels(v.monthly) == MonthsOf(v.daily)
    ensures v.Charts? ==> v.daily == FilterWindow(Load(table).value, Window(selection[0], selection[1]))
    ensures v.Charts? ==> TotalOf(v.monthly) == SumHours(v.daily)
    ensures v.Charts? ==> forall l :: TotalFor(v.monthly, l) == SumHours(InMonth(v.daily, l))
    ensures v.Charts? ==> v.monthly == Aggregate(v.daily)
  {
    match Load(table)
    case Failure(e) => Failed(e)
    case Success(rs) =>
      match WindowOf(selection)
      case None => Prompt
      case Some(w) =>
        var daily := FilterWindow(rs, w);
        assert forall j :: 0 <= j < |daily| ==> daily[j] in rs;
        Charts(daily, Aggregate(daily))
  }

  /** The selection the range widget starts with: the earliest and latest dates, when there are any. */
  function DefaultSelection(rs: seq<Record>): (s: seq<Date>)
    ensures |rs| > 0 ==> |s| == 2
    ensures |rs| > 0 ==> exists i :: 0 <= i < |rs| && rs[i].date == s[0]
    ensures |rs| > 0 ==> exists i :: 0 <= i < |rs| && rs[i].date == s[1]
    ensures |rs| > 0 ==> forall i :: 0 <= i < |rs| ==> NotAfter(s[0], rs[i].date) && NotAfter(rs[i].date, s[1])
    ensures |rs| == 0 ==> s == []
  {
    match DefaultWindow(rs)
    case Some(w) => [w.start, w.end]
    case None => []
  }

  /** Before the user narrows the range, the charts cover every loaded record. */
  lemma DefaultSelectionShowsAll(table: RawTable)
    requires Load(table).Success? && |Load(table).value| > 0
    ensures Render(table, DefaultSelection(Load(table).value)) ==
      Charts(Load(table).value, Aggregate(Load(table).value))
  {
    var rs := Load(table).value;
    FilterDefaultKeepsAll(rs);
  }

  /** A selection with a single date shows the prompt instead of charts. */
  lemma OneDateShowsPrompt(table: RawTable, d: Date)
    requires Load(table).Success?
    ensures Render(table, [d]) == Prompt
  {
  }

  /** A table with three columns is reported as an error, not drawn, whatever the selection. */
  lemma ThreeColumnsFail(rows: seq<RawRow>, selection: seq<Date>)
    ensures Render(RawTable(3, rows), selection) == Failed(ColumnCount(3))
  {
  }

  /** A day column with no text at all is reported as an error, not drawn. */
  lemma BlankDayNamesFail(d: ValidDate, selection: seq<Date>)
    ensures Render(RawTable(4, [RawRow(Parsed(d), None, 8.0, 2.0)]), selection) == Failed(DayNamesNotText)
  {
  }

  /** The monthly chart lists its months in chronological order. */
  lemma ChartMonthsChronological(table: RawTable, selection: seq<Date>)
    requires Render(table, selection).Charts?
    ensures var v := Render(table, selection);
      forall i, j, p, q ::
        && 0 <= i < j < |v.monthly| && 0 <= p < |v.daily| && 0 <= q < |v.daily|
        && MonthLabel(v.daily[p].date) == v.monthly[i].key
        && MonthLabel(v.daily[q].date) == v.monthly[j].key
        ==> MonthBefore(v.daily[p].date, v.daily[q].date)
  {
    AggregateChronological(Render(table, selection).daily);
  }
}
