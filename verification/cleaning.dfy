/**
 Loading and cleaning the daily table (`load_and_clean_data`): name the four
 columns by position, drop rows without a date, parse the dates, zero the
 downtime of weekend days and derive the running time.
 */
module Cleaning {
  import opened Wrappers
  import opened Text
  import opened Dates

  /** The date cell of an input row: blank, a date the parser accepts, or text it rejects. */
  datatype DateCell = Missing | Parsed(date: ValidDate) | Unparseable

  /**
   One input row, columns in file order: date, day name, theoretical hours,
   downtime. `day` is `None` when the cell is blank or holds something other
   than text, such as a number.
   */
  datatype RawRow = RawRow(date: DateCell, day: Option<string>, theo: real, downtime: real)

  /** The table as read from the file: its number of columns and its rows. */
  datatype RawTable = RawTable(columns: nat, rows: seq<RawRow>)

  /** A cleaned daily record, with the derived running time. */
  datatype Record = Record(date: ValidDate, day: Option<string>, theo: real, downtime: real, running: real)

  datatype LoadError =
    | ColumnCount(found: nat)  // the four positional names do not fit the table
    | DateParse                // a non-blank date cell the parser rejects
    | DayNamesNotText          // no day cell holds text, so the column has no string methods

  /** The names given to the columns, by position. */
  const ColumnNames: seq<string> := ["Date", "Jour", "Heure_Theorique", "Downtime"]

  /** The day names, in lower case, of the days whose downtime does not count. */
  const WeekendNames: set<string> := {"samedi", "dimanche"}

  /** The weekend test: the day name, lower-cased, is one of the weekend names. */
  predicate IsWeekend(day: Option<string>)
    ensures IsWeekend(day) <==>
      day.Some? && (SpellsIgnoringCase(day.value, "samedi") || SpellsIgnoringCase(day.value, "dimanche"))
  {
    match day
    case None => false
    case Some(name) =>
      LowerMatchesWord(name, "samedi");
      LowerMatchesWord(name, "dimanche");
      Lower(name) in WeekendNames
  }

  /** Theoretical hours minus downtime, floored at zero. */
  function Running(theo: real, downtime: real): (r: real)
    ensures r >= 0.0 && r >= theo - downtime
    ensures r == theo - downtime || r == 0.0
  {
    var x := theo - downtime;
    if x > 0.0 then x else 0.0
  }

  /**
   What every cleaned record satisfies: a weekend day has no downtime, and the
   running time is the larger of zero and theoretical hours minus downtime.
   */
  ghost predicate Consistent(rec: Record)
  {
    && (IsWeekend(rec.day) ==> rec.downtime == 0.0)
    && rec.running >= 0.0
    && rec.running >= rec.theo - rec.downtime
    && (rec.running == rec.theo - rec.downtime || rec.running == 0.0)
  }

  /** Cleans one row whose date parsed as `date`: the weekend rule first, then the running time. */
  function CleanRow(date: ValidDate, r: RawRow): (c: Record)
    ensures c.date == date && c.day == r.day && c.theo == r.theo
    ensures IsWeekend(r.day) ==> c.downtime == 0.0
    ensures !IsWeekend(r.day) ==> c.downtime == r.downtime
    ensures Consistent(c)
  {
    var downtime := if IsWeekend(r.day) then 0.0 else r.downtime;
    Record(date, r.day, r.theo, downtime, Running(r.theo, downtime))
  }

  /** The cleaned record of a row, or nothing when its date is not a parsed date. */
  function CleanCell(r: RawRow): seq<Record>
  {
    match r.date
    case Parsed(d) => [CleanRow(d, r)]
    case _ => []
  }

  /** `rs` is a cleaning of `rows`: consistent records, each from a dated row, every dated row represented. */
  ghost predicate CleanedFrom(rows: seq<RawRow>, rs: seq<Record>)
  {
    && |rs| <= |rows|
    && (forall j :: 0 <= j < |rs| ==> Consistent(rs[j]))
    && (forall j :: 0 <= j < |rs| ==>
         exists i :: 0 <= i < |rows| && rows[i].date == Parsed(rs[j].date) && rs[j] == CleanRow(rs[j].date, rows[i]))
    && (forall i :: 0 <= i < |rows| && rows[i].date.Parsed? ==> CleanRow(rows[i].date.date, rows[i]) in rs)
  }

  /** Cleaning the first row in front of a cleaning of the others is a cleaning of all the rows. */
  lemma CleanedFromCons(rows: seq<RawRow>, rest: seq<Record>)
    requires |rows| > 0 && CleanedFrom(rows[1..], rest)
    ensures CleanedFrom(rows, CleanCell(rows[0]) + rest)
  {
    var head := CleanCell(rows[0]);
    var out := head + rest;
    forall j | 0 <= j < |out|
      ensures Consistent(out[j])
      ensures exists i :: 0 <= i < |rows| && rows[i].date == Parsed(out[j].date) && out[j] == CleanRow(out[j].date, rows[i])
    {
      if j < |head| {
        assert out[j] == head[j];
      } else {
        var k := j - |head|;
        assert out[j] == rest[k];
        var i :| 0 <= i < |rows[1..]| && rows[1..][i].date == Parsed(rest[k].date) && rest[k] == CleanRow(rest[k].date, rows[1..][i]);
        assert rows[i + 1] == rows[1..][i];
      }
    }
    forall i | 0 <= i < |rows| && rows[i].date.Parsed?
      ensures CleanRow(rows[i].date.date, rows[i]) in out
    {
      if i == 0 {
        assert out[0] == head[0];
      } else {
        assert rows[1..][i - 1] == rows[i];
        var k :| 0 <= k < |rest| && rest[k] == CleanRow(rows[i].date.date, rows[i]);
        assert out[|head| + k] == rest[k];
      }
    }
  }

  /** Cleans every row, dropping those without a date and keeping the others in order. */
  function CleanRows(rows: seq<RawRow>): (rs: seq<Record>)
    ensures CleanedFrom(rows, rs)
  {
    if |rows| == 0 then [] else
      var rest := CleanRows(rows[1..]);
      CleanedFromCons(rows, rest);
      CleanCell(rows[0]) + rest
  }


  /** Cleaning distributes over concatenation: surviving rows keep their relative order. */
  lemma {:induction false} CleanRowsAppend(a: seq<RawRow>, b: seq<RawRow>)
    ensures CleanRows(a + b) == CleanRows(a) + CleanRows(b)
  {
    if |a| == 0 {
      assert a + b == b;
    } else {
      assert (a + b)[0] == a[0];
      assert (a + b)[1..] == a[1..] + b;
      CleanRowsAppend(a[1..], b);
    }
  }

  /** A single row survives cleaning exactly when its date cell holds a parsed date. */
  lemma CleanRowsSingle(r: RawRow)
    ensures r.date.Parsed? ==> CleanRows([r]) == [CleanRow(r.date.date, r)]
    ensures !r.date.Parsed? ==> CleanRows([r]) == []
  {
    assert [r][1..] == [];
  }

  /** Cleaning one more row appends what that row's own cleaning gives. */
  lemma CleanRowsSnoc(rows: seq<RawRow>, r: RawRow)
    ensures CleanRows(rows + [r]) == CleanRows(rows) + CleanCell(r)
  {
    CleanRowsAppend(rows, [r]);
    CleanRowsSingle(r);
  }

  /** No day cell holds text, so the day column is read as a numeric column. */
  predicate NoDayText(rows: seq<RawRow>)
  {
    |rows| > 0 && forall i :: 0 <= i < |rows| ==> rows[i].day.None?
  }

  /**
   Loads the table: the positional renaming fails unless the table has exactly
   four columns; then a single rejected date fails the whole load; then the
   weekend test fails on a day column without any text; otherwise the
   cleaned rows.
   */
  function Load(table: RawTable): (r: Result<seq<Record>, LoadError>)
    ensures table.columns != |ColumnNames| ==> r == Failure(ColumnCount(table.columns))
    ensures table.columns == |ColumnNames| && (exists i :: 0 <= i < |table.rows| && table.rows[i].date == Unparseable)
      ==> r == Failure(DateParse)
    ensures r == Failure(DayNamesNotText) <==>
      && table.columns == |ColumnNames|
      && (forall i :: 0 <= i < |table.rows| ==> table.rows[i].date != Unparseable)
      && NoDayText(table.rows)
    ensures r.Success? <==>
      && table.columns == |ColumnNames|
      && (forall i :: 0 <= i < |table.rows| ==> table.rows[i].date != Unparseable)
      && (|table.rows| == 0 || exists i :: 0 <= i < |table.rows| && table.rows[i].day.Some?)
    ensures r.Success? ==> r.value == CleanRows(table.rows)
  {
    if table.columns != |ColumnNames| then Failure(ColumnCount(table.columns))
    else if exists i :: 0 <= i < |table.rows| && table.rows[i].date == Unparseable then Failure(DateParse)
    else if NoDayText(table.rows) then Failure(DayNamesNotText)
    else Success(CleanRows(table.rows))
  }

  /** A cleaned record written back as an input row (the derived running column is not read). */
  function Reload(rec: Record): RawRow
  {
    RawRow(Parsed(rec.date), rec.day, rec.theo, rec.downtime)
  }

  function ReloadAll(rs: seq<Record>): (rows: seq<RawRow>)
    ensures |rows| == |rs|
  {
    if |rs| == 0 then [] else [Reload(rs[0])] + ReloadAll(rs[1..])
  }

  /** Cleaning a record that already satisfies the weekend and running rules gives it back unchanged. */
  lemma CleanRowFixesConsistent(rec: Record)
    requires Consistent(rec)
    ensures CleanRow(rec.date, Reload(rec)) == rec
  {
  }

  /** A consistent record written back in front of some rows comes out of cleaning unchanged, in front. */
  lemma CleanConsFixed(rec: Record, rows: seq<RawRow>)
    requires Consistent(rec)
    ensures CleanRows([Reload(rec)] + rows) == [rec] + CleanRows(rows)
  {
    var s := [Reload(rec)] + rows;
    assert s[0] == Reload(rec) && s[1..] == rows;
    CleanRowFixesConsistent(rec);
  }

  /** Cleaning consistent records written back as rows gives the same records. */
  lemma {:induction false} CleanReloadedConsistent(rs: seq<Record>)
    requires forall j :: 0 <= j < |rs| ==> Consistent(rs[j])
    ensures CleanRows(ReloadAll(rs)) == rs
  {
    if |rs| > 0 {
      assert ReloadAll(rs) == [Reload(rs[0])] + ReloadAll(rs[1..]);
      CleanReloadedConsistent(rs[1..]);
      CleanConsFixed(rs[0], ReloadAll(rs[1..]));
      assert rs == [rs[0]] + rs[1..];
    }
  }

  /** Cleaning is idempotent: re-cleaning the cleaned table changes nothing. */
  lemma CleanIdempotent(rows: seq<RawRow>)
    ensures CleanRows(ReloadAll(CleanRows(rows))) == CleanRows(rows)
  {
    CleanReloadedConsistent(CleanRows(rows));
  }
}
