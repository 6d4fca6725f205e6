/**
 The monthly totals: records are grouped by the `%Y-%m` label of their date,
 running and downtime hours are summed per label, and the groups come out
 sorted by label, as a group-by on a string column sorts them.
 */
module Monthly {
  import opened Text
  import opened Dates
  import opened Cleaning

  /** Where the year field, the dash and the month field sit in a label. */
  lemma LabelParts(year: string, month: string)
    requires |year| == 4 && |month| == 2
    ensures var s := year + "-" + month;
      && |s| == 7 && s[4] == '-' && s[..4] == year && s[5..] == month
      && (forall i :: 0 <= i < 4 ==> s[i] == year[i])
      && (forall i :: 5 <= i < 7 ==> s[i] == month[i - 5])
  {
    var s := year + "-" + month;
    assert s[..4] == year && s[5..] == month;
  }

  /** The `%Y-%m` label of a date's month: four-digit year, a dash, two-digit month. */
  function MonthLabel(d: Date): (s: string)
    ensures |s| == 7 && s[4] == '-'
    ensures forall i :: 0 <= i < 7 && i != 4 ==> '0' <= s[i] <= '9'
    ensures DecimalValue(s[..4]) == d.year % 10000 && DecimalValue(s[5..]) == d.month % 100
    ensures Valid(d) ==> DecimalValue(s[..4]) == d.year && DecimalValue(s[5..]) == d.month
  {
    var year, month := Digits(d.year, 4), Digits(d.month, 2);
    var s := year + "-" + month;
    LabelParts(year, month);
    DigitsValue(d.year, 4);
    DigitsValue(d.month, 2);
    assert Pow10(4) == 10000 && Pow10(2) == 100;
    assert Valid(d) ==> d.year < 10000 && d.month < 100;
    if d.year < 10000 && d.month < 100 then
      ModUnique(d.year, 10000, 0, d.year);
      ModUnique(d.month, 100, 0, d.month);
      s
    else s
  }

  /**
   For real dates, sorting labels as strings sorts months chronologically, and
   two dates share a label exactly when they share a year and a month.
   */
  lemma MonthLabelOrder(a: Date, b: Date)
    requires Valid(a) && Valid(b)
    ensures LexLess(MonthLabel(a), MonthLabel(b)) <==> MonthBefore(a, b)
    ensures MonthLabel(a) == MonthLabel(b) <==> a.year == b.year && a.month == b.month
  {
    assert Pow10(4) == 10000 && Pow10(2) == 100;
    var ya, yb := Digits(a.year, 4), Digits(b.year, 4);
    DigitsOrder(a.year, b.year, 4);
    DigitsOrder(a.month, b.month, 2);
    LexIrreflexive("-");
    LexAppend(ya, "-", yb, "-");
    LexAppend(ya + "-", Digits(a.month, 2), yb + "-", Digits(b.month, 2));
  }

  /** A pair of hour totals: running and downtime. */
  datatype Hours = Hours(running: real, downtime: real) {
    function Plus(other: Hours): Hours
    {
      Hours(running + other.running, downtime + other.downtime)
    }
  }

  const NoHours := Hours(0.0, 0.0)

  function HoursOf(r: Record): Hours
  {
    Hours(r.running, r.downtime)
  }

  /** Running and downtime summed over a sequence of records. */
  function SumHours(rs: seq<Record>): Hours
  {
    if |rs| == 0 then NoHours else SumHours(rs[..|rs| - 1]).Plus(HoursOf(rs[|rs| - 1]))
  }

  lemma SumHoursSnoc(rs: seq<Record>, r: Record)
    ensures SumHours(rs + [r]) == SumHours(rs).Plus(HoursOf(r))
  {
    assert (rs + [r])[..|rs|] == rs;
  }

  /** The records of one month, in order. */
  function InMonth(rs: seq<Record>, key: string): (out: seq<Record>)
    ensures forall r :: r in out <==> r in rs && MonthLabel(r.date) == key
  {
    if |rs| == 0 then []
    else
      var last := rs[|rs| - 1];
      assert rs == rs[..|rs| - 1] + [last];
      InMonth(rs[..|rs| - 1], key) + (if MonthLabel(last.date) == key then [last] else [])
  }

  /** The labels of the months that have at least one record. */
  function MonthsOf(rs: seq<Record>): set<string>
  {
    set i | 0 <= i < |rs| :: MonthLabel(rs[i].date)
  }

  /** One bar group of the monthly chart. */
  datatype MonthTotal = MonthTotal(key: string, hours: Hours)

  function Labels(ms: seq<MonthTotal>): set<string>
  {
    set i | 0 <= i < |ms| :: ms[i].key
  }

  /** Labels strictly increase, so no label occurs twice. */
  ghost predicate Ascending(ms: seq<MonthTotal>)
  {
    forall i, j :: 0 <= i < j < |ms| ==> LexLess(ms[i].key, ms[j].key)
  }

  /** The hours of all groups together. */
  function TotalOf(ms: seq<MonthTotal>): Hours
  {
    if |ms| == 0 then NoHours else ms[0].hours.Plus(TotalOf(ms[1..]))
  }

  /** The hours of the groups labelled `key`. */
  function TotalFor(ms: seq<MonthTotal>, key: string): Hours
  {
    if |ms| == 0 then NoHours
    else if ms[0].key == key then ms[0].hours.Plus(TotalFor(ms[1..], key))
    else TotalFor(ms[1..], key)
  }

  lemma AscendingTail(ms: seq<MonthTotal>)
    requires |ms| > 0 && Ascending(ms)
    ensures Ascending(ms[1..])
    ensures forall l :: l in Labels(ms[1..]) ==> LexLess(ms[0].key, l)
  {
    forall l | l in Labels(ms[1..])
      ensures LexLess(ms[0].key, l)
    {
      var k :| 0 <= k < |ms[1..]| && ms[1..][k].key == l;
      assert ms[1..][k] == ms[k + 1];
    }
  }

  lemma LabelsCons(m: MonthTotal, ms: seq<MonthTotal>)
    ensures Labels([m] + ms) == {m.key} + Labels(ms)
  {
    var s := [m] + ms;
    forall l | l in Labels(s)
      ensures l in {m.key} + Labels(ms)
    {
      var k :| 0 <= k < |s| && s[k].key == l;
      if k > 0 {
        assert s[k] == ms[k - 1];
      }
    }
    forall l | l in Labels(ms)
      ensures l in Labels(s)
    {
      var k :| 0 <= k < |ms| && ms[k].key == l;
      assert s[k + 1] == ms[k];
    }
    assert s[0] == m;
  }

  /** A group put in front of ascending groups with larger labels keeps them ascending. */
  lemma AscendingCons(m: MonthTotal, ms: seq<MonthTotal>)
    requires Ascending(ms)
    requires forall l :: l in Labels(ms) ==> LexLess(m.key, l)
    ensures Ascending([m] + ms)
  {
    var s := [m] + ms;
    forall i, j | 0 <= i < j < |s|
      ensures LexLess(s[i].key, s[j].key)
    {
      assert s[j] == ms[j - 1];
      if i > 0 {
        assert s[i] == ms[i - 1];
      } else {
        assert ms[j - 1].key in Labels(ms);
      }
    }
  }

  /** What adding one record's hours to the groups must give: `out` is `ms` with `h` added to `key`. */
  ghost predicate AddsTo(ms: seq<MonthTotal>, key: string, h: Hours, out: seq<MonthTotal>)
  {
    && Ascending(out)
    && Labels(out) == Labels(ms) + {key}
    && TotalOf(out) == TotalOf(ms).Plus(h)
    && forall l :: TotalFor(out, l) == if l == key then TotalFor(ms, l).Plus(h) else TotalFor(ms, l)
  }

  /** A label below every existing label starts a new group at the front. */
  lemma AddToFront(ms: seq<MonthTotal>, key: string, h: Hours)
    requires Ascending(ms)
    requires |ms| == 0 || LexLess(key, ms[0].key)
    ensures AddsTo(ms, key, h, [MonthTotal(key, h)] + ms)
  {
    var out := [MonthTotal(key, h)] + ms;
    forall l | l in Labels(ms)
      ensures LexLess(key, l)
    {
      var k :| 0 <= k < |ms| && ms[k].key == l;
      if k > 0 {
        LexTransitive(key, ms[0].key, l);
      }
    }
    LabelsCons(MonthTotal(key, h), ms);
    AscendingCons(MonthTotal(key, h), ms);
    assert out[1..] == ms;
  }

  /** A label equal to the first group's adds to that group. */
  lemma AddToHead(ms: seq<MonthTotal>, key: string, h: Hours)
    requires Ascending(ms) && |ms| > 0 && ms[0].key == key
    ensures AddsTo(ms, key, h, [MonthTotal(key, ms[0].hours.Plus(h))] + ms[1..])
  {
    var head := ms[0];
    var out := [MonthTotal(key, head.hours.Plus(h))] + ms[1..];
    assert ms == [head] + ms[1..];
    AscendingTail(ms);
    LabelsCons(head, ms[1..]);
    LabelsCons(MonthTotal(key, head.hours.Plus(h)), ms[1..]);
    AscendingCons(MonthTotal(key, head.hours.Plus(h)), ms[1..]);
    assert out[1..] == ms[1..];
  }


  /** A label above the first group's is added among the remaining groups. */
  lemma AddToRest(ms: seq<MonthTotal>, key: string, h: Hours, rest: seq<MonthTotal>)
    requires Ascending(ms) && |ms| > 0 && LexLess(ms[0].key, key)
    requires AddsTo(ms[1..], key, h, rest)
    ensures AddsTo(ms, key, h, [ms[0]] + rest)
  {
    var head := ms[0];
    var out := [head] + rest;
    assert ms == [head] + ms[1..];
    LabelsCons(head, ms[1..]);
    LabelsCons(head, rest);
    AscendingTail(ms);
    AscendingCons(head, rest);
    assert out[1..] == rest;
  }

  /** Adds the hours `h` of one record to the group `key`, creating it in label order if absent. */
  function AddTo(ms: seq<MonthTotal>, key: string, h: Hours): (out: seq<MonthTotal>)
    requires Ascending(ms)
    ensures Ascending(out)
    ensures Labels(out) == Labels(ms) + {key}
    ensures TotalOf(out) == TotalOf(ms).Plus(h)
    ensures forall l :: TotalFor(out, l) == if l == key then TotalFor(ms, l).Plus(h) else TotalFor(ms, l)
  {
    if |ms| == 0 then
      AddToFront(ms, key, h);
      [MonthTotal(key, h)] + ms
    else if ms[0].key == key then
      AddToHead(ms, key, h);
      [MonthTotal(key, ms[0].hours.Plus(h))] + ms[1..]
    else if LexLess(key, ms[0].key) then
      AddToFront(ms, key, h);
      [MonthTotal(key, h)] + ms
    else
      LexConnected(key, ms[0].key);
      AscendingTail(ms);
      var rest := AddTo(ms[1..], key, h);
      AddToRest(ms, key, h, rest);
      [ms[0]] + rest
  }


  /** The months of a prefix are months of the whole sequence. */
  lemma MonthsOfPrefix(rs: seq<Record>, n: nat)
    requires n <= |rs|
    ensures MonthsOf(rs[..n]) <= MonthsOf(rs)
  {
    forall l | l in MonthsOf(rs[..n])
      ensures l in MonthsOf(rs)
    {
      var k :| 0 <= k < n && MonthLabel(rs[..n][k].date) == l;
      assert rs[..n][k] == rs[k];
    }
  }

  /** Every month of a non-empty sequence is a month of all but its last record, or the last record's. */
  lemma MonthsOfCover(rs: seq<Record>)
    requires |rs| > 0
    ensures MonthsOf(rs) <= MonthsOf(rs[..|rs| - 1]) + {MonthLabel(rs[|rs| - 1].date)}
  {
    var init := rs[..|rs| - 1];
    forall l | l in MonthsOf(rs)
      ensures l in MonthsOf(init) + {MonthLabel(rs[|rs| - 1].date)}
    {
      var k :| 0 <= k < |rs| && MonthLabel(rs[k].date) == l;
      if k < |init| {
        assert init[k] == rs[k];
        assert l in MonthsOf(init);
      } else {
        assert k == |rs| - 1;
      }
    }
  }

  lemma MonthsOfSnoc(rs: seq<Record>)
    requires |rs| > 0
    ensures MonthsOf(rs) == MonthsOf(rs[..|rs| - 1]) + {MonthLabel(rs[|rs| - 1].date)}
  {
    MonthsOfPrefix(rs, |rs| - 1);
    MonthsOfCover(rs);
    var last := |rs| - 1;
    assert MonthLabel(rs[last].date) in MonthsOf(rs);
  }

  lemma InMonthSnocAt(rs: seq<Record>, l: string)
    requires |rs| > 0
    ensures SumHours(InMonth(rs, l)) ==
      (if l == MonthLabel(rs[|rs| - 1].date) then SumHours(InMonth(rs[..|rs| - 1], l)).Plus(HoursOf(rs[|rs| - 1]))
       else SumHours(InMonth(rs[..|rs| - 1], l)))
  {
    var init, last := rs[..|rs| - 1], rs[|rs| - 1];
    var before := InMonth(init, l);
    var here := MonthLabel(last.date) == l;
    assert InMonth(rs, l) == before + (if here then [last] else []);
    if here {
      SumHoursSnoc(before, last);
    } else {
      assert before + [] == before;
    }
  }

  lemma InMonthSnoc(rs: seq<Record>)
    requires |rs| > 0
    ensures forall l :: (SumHours(InMonth(rs, l)) ==
      (if l == MonthLabel(rs[|rs| - 1].date) then SumHours(InMonth(rs[..|rs| - 1], l)).Plus(HoursOf(rs[|rs| - 1]))
       else SumHours(InMonth(rs[..|rs| - 1], l))))
  {
    forall l {
      InMonthSnocAt(rs, l);
    }
  }

  /**
   The monthly totals of the records: one group per month that has a record,
   in ascending label order.
   */
  function Aggregate(rs: seq<Record>): (ms: seq<MonthTotal>)
    ensures Ascending(ms)
    ensures Labels(ms) == MonthsOf(rs)
    ensures TotalOf(ms) == SumHours(rs)
    ensures forall l :: TotalFor(ms, l) == SumHours(InMonth(rs, l))
  {
    if |rs| == 0 then []
    else
      var last := rs[|rs| - 1];
      MonthsOfSnoc(rs);
      InMonthSnoc(rs);
      AddTo(Aggregate(rs[..|rs| - 1]), MonthLabel(last.date), HoursOf(last))
  }

  /** The first record of a month opens a group of its own. */
  lemma AddToEmpty(key: string, h: Hours)
    ensures AddTo([], key, h) == [MonthTotal(key, h)]
  {
  }

  /** A later record of the only month present adds to that group. */
  lemma AddToSame(m: MonthTotal, h: Hours)
    ensures AddTo([m], m.key, h) == [MonthTotal(m.key, m.hours.Plus(h))]
  {
    assert [m][1..] == [];
  }

  /** Each new record is added to the totals of the records before it. */
  lemma AggregateSnoc(rs: seq<Record>, r: Record)
    ensures Aggregate(rs + [r]) == AddTo(Aggregate(rs), MonthLabel(r.date), HoursOf(r))
  {
    assert (rs + [r])[..|rs|] == rs;
  }

  /**
   One more record adds its hours to the group of its own month, opening the
   group if the month is new, and leaves every other month's total unchanged.
   */
  lemma AggregateAddsRecord(rs: seq<Record>, r: Record)
    ensures Labels(Aggregate(rs + [r])) == Labels(Aggregate(rs)) + {MonthLabel(r.date)}
    ensures TotalOf(Aggregate(rs + [r])) == TotalOf(Aggregate(rs)).Plus(HoursOf(r))
    ensures forall l :: (TotalFor(Aggregate(rs + [r]), l) ==
      if l == MonthLabel(r.date) then TotalFor(Aggregate(rs), l).Plus(HoursOf(r)) else TotalFor(Aggregate(rs), l))
  {
    var all := rs + [r];
    assert all[..|all| - 1] == rs && all[|all| - 1] == r;
    MonthsOfSnoc(all);
    InMonthSnoc(all);
    SumHoursSnoc(rs, r);
  }

  /** In ascending groups, the hours recorded for a label are those of its one group. */
  lemma {:induction false} TotalForAscending(ms: seq<MonthTotal>, i: nat)
    requires Ascending(ms) && i < |ms|
    ensures TotalFor(ms, ms[i].key) == ms[i].hours
  {
    AscendingTail(ms);
    if i == 0 {
      LexIrreflexive(ms[0].key);
      TotalForAbsent(ms[1..], ms[0].key);
    } else {
      assert ms[1..][i - 1] == ms[i];
      assert ms[0].key != ms[i].key by { LexIrreflexive(ms[0].key); }
      TotalForAscending(ms[1..], i - 1);
    }
  }

  lemma {:induction false} TotalForAbsent(ms: seq<MonthTotal>, key: string)
    requires key !in Labels(ms)
    ensures TotalFor(ms, key) == NoHours
  {
    if |ms| > 0 {
      assert ms == [ms[0]] + ms[1..];
      LabelsCons(ms[0], ms[1..]);
      TotalForAbsent(ms[1..], key);
    }
  }

  /** Groups with ascending labels have pairwise different labels, as many as there are groups. */
  lemma {:induction false} AscendingLabelCount(ms: seq<MonthTotal>)
    requires Ascending(ms)
    ensures |Labels(ms)| == |ms|
  {
    if |ms| > 0 {
      assert ms == [ms[0]] + ms[1..];
      LabelsCons(ms[0], ms[1..]);
      AscendingTail(ms);
      LexIrreflexive(ms[0].key);
      AscendingLabelCount(ms[1..]);
    }
  }

  /** There is exactly one group per month that has at least one record. */
  lemma OneGroupPerMonth(rs: seq<Record>)
    ensures |Aggregate(rs)| == |MonthsOf(rs)|
  {
    AscendingLabelCount(Aggregate(rs));
  }

  /** Each group holds exactly the summed hours of the records of its month. */
  lemma MonthTotalsAreMonthSums(rs: seq<Record>)
    ensures forall i :: 0 <= i < |Aggregate(rs)| ==>
      Aggregate(rs)[i].hours == SumHours(InMonth(rs, Aggregate(rs)[i].key))
  {
    var ms := Aggregate(rs);
    forall i | 0 <= i < |ms|
      ensures ms[i].hours == SumHours(InMonth(rs, ms[i].key))
    {
      TotalForAscending(ms, i);
    }
  }

  /** The groups come in chronological order of their months. */
  lemma AggregateChronological(rs: seq<Record>)
    ensures forall i, j, p, q ::
      && 0 <= i < j < |Aggregate(rs)| && 0 <= p < |rs| && 0 <= q < |rs|
      && MonthLabel(rs[p].date) == Aggregate(rs)[i].key
      && MonthLabel(rs[q].date) == Aggregate(rs)[j].key
      ==> MonthBefore(rs[p].date, rs[q].date)
  {
    var ms := Aggregate(rs);
    forall i, j, p, q |
      && 0 <= i < j < |ms| && 0 <= p < |rs| && 0 <= q < |rs|
      && MonthLabel(rs[p].date) == ms[i].key
      && MonthLabel(rs[q].date) == ms[j].key
      ensures MonthBefore(rs[p].date, rs[q].date)
    {
      MonthLabelOrder(rs[p].date, rs[q].date);
    }
  }
}
