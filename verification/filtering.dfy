/**
 The inclusive date-range filter, the range selection that enables it, and
 the default range offered before the user picks one.
 */
module Filtering {
  import opened Wrappers
  import opened Dates
  import opened Cleaning

  /** An inclusive range of days. */
  datatype Window = Window(start: Date, end: Date)

  predicate InWindow(d: Date, w: Window)
  {
    NotAfter(w.start, d) && NotAfter(d, w.end)
  }

  /** The records dated from `w.start` to `w.end`, both included, in their original order. */
  function FilterWindow(rs: seq<Record>, w: Window): (out: seq<Record>)
    ensures |out| <= |rs|
    ensures forall r :: r in out <==> r in rs && InWindow(r.date, w)
  {
    if |rs| == 0 then []
    else (if InWindow(rs[0].date, w) then [rs[0]] else []) + FilterWindow(rs[1..], w)
  }

  /** Filtering distributes over concatenation: the kept records stay in order. */
  lemma {:induction false} FilterAppend(a: seq<Record>, b: seq<Record>, w: Window)
    ensures FilterWindow(a + b, w) == FilterWindow(a, w) + FilterWindow(b, w)
  {
    if |a| == 0 {
      assert a + b == b;
    } else {
      assert (a + b)[0] == a[0];
      assert (a + b)[1..] == a[1..] + b;
      FilterAppend(a[1..], b, w);
    }
  }

  /** Both bounds are inclusive: a record dated exactly at either end of a non-empty range is kept. */
  lemma FilterKeepsBounds(rs: seq<Record>, w: Window, r: Record)
    requires NotAfter(w.start, w.end)
    requires r in rs && (r.date == w.start || r.date == w.end)
    ensures r in FilterWindow(rs, w)
  {
  }

  /** When every record lies in the range, the filter keeps the whole sequence. */
  lemma {:induction false} FilterAllInWindow(rs: seq<Record>, w: Window)
    requires forall i :: 0 <= i < |rs| ==> InWindow(rs[i].date, w)
    ensures FilterWindow(rs, w) == rs
  {
    if |rs| > 0 {
      FilterAllInWindow(rs[1..], w);
      assert rs == [rs[0]] + rs[1..];
    }
  }

  /** The earliest date of a non-empty table (the range's default start). */
  function Earliest(rs: seq<Record>): (d: Date)
    requires |rs| > 0
    ensures exists i :: 0 <= i < |rs| && rs[i].date == d
    ensures forall i :: 0 <= i < |rs| ==> NotAfter(d, rs[i].date)
  {
    if |rs| == 1 then rs[0].date
    else
      var m := Earliest(rs[1..]);
      assert forall i :: 1 <= i < |rs| ==> rs[i] == rs[1..][i - 1];
      if NotAfter(rs[0].date, m) then rs[0].date else m
  }

  /** The latest date of a non-empty table (the range's default end). */
  function Latest(rs: seq<Record>): (d: Date)
    requires |rs| > 0
    ensures exists i :: 0 <= i < |rs| && rs[i].date == d
    ensures forall i :: 0 <= i < |rs| ==> NotAfter(rs[i].date, d)
  {
    if |rs| == 1 then rs[0].date
    else
      var m := Latest(rs[1..]);
      assert forall i :: 1 <= i < |rs| ==> rs[i] == rs[1..][i - 1];
      if NotAfter(m, rs[0].date) then rs[0].date else m
  }

  /** The range first offered by the selector: from the earliest to the latest date of the table. */
  function DefaultWindow(rs: seq<Record>): (w: Option<Window>)
    ensures w.Some? <==> |rs| > 0
    ensures w.Some? ==> forall i :: 0 <= i < |rs| ==> InWindow(rs[i].date, w.value)
    ensures w.Some? ==> exists i :: 0 <= i < |rs| && rs[i].date == w.value.start
    ensures w.Some? ==> exists i :: 0 <= i < |rs| && rs[i].date == w.value.end
  {
    if |rs| == 0 then None else Some(Window(Earliest(rs), Latest(rs)))
  }

  /** With the default range the filter keeps every record. */
  lemma FilterDefaultKeepsAll(rs: seq<Record>)
    requires |rs| > 0
    ensures FilterWindow(rs, DefaultWindow(rs).value) == rs
  {
    FilterAllInWindow(rs, DefaultWindow(rs).value);
  }

  /**
   The range a selection denotes: only a selection of exactly two dates is a
   range; none or one date is an incomplete selection.
   */
  function WindowOf(selection: seq<Date>): (w: Option<Window>)
    ensures w.Some? <==> |selection| == 2
    ensures w.Some? ==> w.value.start == selection[0] && w.value.end == selection[1]
  {
    if |selection| == 2 then Some(Window(selection[0], selection[1])) else None
  }
}
