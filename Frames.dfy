/** The daily weather table of one station, column by column, and the row
    operations `get_daily_weather` applies to it: concatenating year files,
    parsing the date column, dropping duplicate dates, rebuilding the daily
    calendar and cutting the result to the requested window. */
module Frames {
  import opened Options

  /** One numeric cell; `None` is NaN. */
  type Reading = Option<real>

  /** A year file as read: per row the parsed day number of its date cell
      (`None` when it cannot be parsed), and the numeric columns by name. */
  datatype RawTable = RawTable(dates: seq<Option<int>>, readings: map<string, seq<Reading>>) {
    predicate Valid() {
      forall c :: c in readings ==> |readings[c]| == |dates|
    }
  }

  /** A table whose date column has been parsed: per row a day number. */
  datatype Table = Table(dates: seq<int>, readings: map<string, seq<Reading>>) {
    predicate Valid() {
      forall c :: c in readings ==> |readings[c]| == |dates|
    }
  }

  /** `pd.DataFrame()`: no rows and no columns. */
  const NO_ROWS: RawTable := RawTable([], map[])

  /** The table returned on the "Corrupted date column" path. */
  const EMPTY_FRAME: Table := Table([], map[])

  function Missing(n: nat): (s: seq<Reading>)
    ensures |s| == n && forall i :: 0 <= i < n ==> s[i] == None
  {
    seq(n, i => None)
  }

  /** Column `c` of `t`, or NaN throughout when `t` lacks it. */
  function ColumnOr(t: RawTable, c: string): (s: seq<Reading>)
    requires t.Valid()
    ensures |s| == |t.dates|
  {
    if c in t.readings then t.readings[c] else Missing(|t.dates|)
  }

  /** `pd.concat([a, b])`: rows of `a` then rows of `b`, over the union of
      their columns, NaN where a table lacks a column. */
  function Concat(a: RawTable, b: RawTable): (r: RawTable)
    requires a.Valid() && b.Valid()
    ensures r.Valid()
    ensures r.dates == a.dates + b.dates
    ensures r.readings.Keys == a.readings.Keys + b.readings.Keys
    ensures forall c :: c in r.readings ==> r.readings[c] == ColumnOr(a, c) + ColumnOr(b, c)
  {
    RawTable(a.dates + b.dates,
             map c | c in a.readings.Keys + b.readings.Keys :: ColumnOr(a, c) + ColumnOr(b, c))
  }

  /** `pd.to_datetime` on the date column followed by `pd.date_range` over
      its minimum and maximum: `None` when a date cannot be parsed or when
      there is no row at all (both raise and lead to "Corrupted date
      column"). */
  function Parse(raw: RawTable): (r: Option<Table>)
    requires raw.Valid()
    ensures r.None? <==> |raw.dates| == 0 || exists i :: 0 <= i < |raw.dates| && raw.dates[i].None?
    ensures r.Some? ==> r.value.Valid() && r.value.readings == raw.readings
    ensures r.Some? ==> |r.value.dates| == |raw.dates|
                        && forall i :: 0 <= i < |raw.dates| ==> raw.dates[i] == Some(r.value.dates[i])
  {
    if |raw.dates| == 0 || exists i :: 0 <= i < |raw.dates| && raw.dates[i].None? then None
    else Some(Table(seq(|raw.dates|, i requires 0 <= i < |raw.dates| => raw.dates[i].value), raw.readings))
  }

  predicate IndicesBelow(idx: seq<nat>, n: nat) {
    forall k :: 0 <= k < |idx| ==> idx[k] < n
  }

  predicate StrictlyIncreasing(s: seq<int>) {
    forall p, q :: 0 <= p < q < |s| ==> s[p] < s[q]
  }

  predicate Distinct(s: seq<int>) {
    forall p, q :: 0 <= p < q < |s| ==> s[p] != s[q]
  }

  /** The rows at positions `idx`, in that order (boolean-mask selection). */
  function Select(t: Table, idx: seq<nat>): (r: Table)
    requires t.Valid() && IndicesBelow(idx, |t.dates|)
    ensures r.Valid() && r.readings.Keys == t.readings.Keys && |r.dates| == |idx|
    ensures forall k :: 0 <= k < |idx| ==> r.dates[k] == t.dates[idx[k]]
    ensures forall c, k :: c in r.readings && 0 <= k < |idx| ==> r.readings[c][k] == t.readings[c][idx[k]]
  {
    Table(seq(|idx|, k requires 0 <= k < |idx| => t.dates[idx[k]]),
          map c | c in t.readings :: seq(|idx|, k requires 0 <= k < |idx| => t.readings[c][idx[k]]))
  }

  /** Position of the first row dated `d`. */
  function FirstIndex(s: seq<int>, d: int): (j: nat)
    requires d in s
    ensures j < |s| && s[j] == d && d !in s[..j]
  {
    if s[0] == d then 0
    else
      assert d in s[1..];
      var j := FirstIndex(s[1..], d);
      assert s[..j + 1] == [s[0]] + s[1..][..j];
      j + 1
  }

  /** Positions among the first `n` rows that `~df.index.duplicated(keep='first')`
      keeps: those whose date does not occur on an earlier row. */
  function FirstOccurrences(dates: seq<int>, n: nat): (idx: seq<nat>)
    requires n <= |dates|
    ensures IndicesBelow(idx, n) && StrictlyIncreasing(idx)
    ensures forall i :: 0 <= i < n ==> (i in idx <==> dates[i] !in dates[..i])
    decreases n
  {
    if n == 0 then []
    else
      var prev := FirstOccurrences(dates, n - 1);
      if dates[n - 1] in dates[..n - 1] then prev else prev + [n - 1]
  }

  /** `df[~df.index.duplicated(keep='first')]`. */
  function Dedupe(t: Table): (r: Table)
    requires t.Valid()
    ensures r.Valid()
    ensures |t.dates| > 0 ==> |r.dates| > 0
  {
    assert |t.dates| > 0 ==> t.dates[..0] == [];
    Select(t, FirstOccurrences(t.dates, |t.dates|))
  }

  /** The `p`-th kept row is the first row carrying its date. */
  lemma KeptRowIsFirst(t: Table, p: nat)
    requires t.Valid() && p < |FirstOccurrences(t.dates, |t.dates|)|
    ensures var idx := FirstOccurrences(t.dates, |t.dates|);
      t.dates[idx[p]] in t.dates && FirstIndex(t.dates, t.dates[idx[p]]) == idx[p]
  {
    var idx := FirstOccurrences(t.dates, |t.dates|);
    var i := idx[p];
    assert t.dates[..|t.dates|] == t.dates;
    assert i in idx;
    var j := FirstIndex(t.dates, t.dates[i]);
  }

  /** Dropping duplicate dates keeps each date once, loses none, keeps the
      row of its first occurrence, and keeps the concatenation order. */
  lemma DedupeKeepsFirst(t: Table)
    requires t.Valid()
    ensures var r := Dedupe(t);
      && r.readings.Keys == t.readings.Keys
      && Distinct(r.dates)
      && (forall d :: d in r.dates <==> d in t.dates)
      && (forall p, c :: 0 <= p < |r.dates| && c in r.readings ==>
            r.dates[p] in t.dates && r.readings[c][p] == t.readings[c][FirstIndex(t.dates, r.dates[p])])
      && (forall p, q :: 0 <= p < q < |r.dates| ==>
            r.dates[p] in t.dates && r.dates[q] in t.dates &&
            FirstIndex(t.dates, r.dates[p]) < FirstIndex(t.dates, r.dates[q]))
  {
    var idx := FirstOccurrences(t.dates, |t.dates|);
    var r := Dedupe(t);
    assert t.dates[..|t.dates|] == t.dates;
    forall p | 0 <= p < |r.dates|
      ensures r.dates[p] in t.dates && FirstIndex(t.dates, r.dates[p]) == idx[p]
    {
      KeptRowIsFirst(t, p);
    }
    forall d | d in t.dates ensures d in r.dates {
      var j := FirstIndex(t.dates, d);
      assert j in idx;
      var p :| 0 <= p < |idx| && idx[p] == j;
      assert r.dates[p] == d;
    }
  }

  /** One cell of the de-duplicated table: row `p` carries the reading of
      the first loaded row of its date. */
  lemma DedupeRowIsFirst(t: Table, p: int, c: string)
    requires t.Valid() && 0 <= p < |Dedupe(t).dates| && c in t.readings
    ensures var r := Dedupe(t);
      && r.dates[p] in t.dates && c in r.readings
      && r.readings[c][p] == t.readings[c][FirstIndex(t.dates, r.dates[p])]
  {
    KeptRowIsFirst(t, p);
  }

  /** Dropping repeated dates keeps the columns and the set of dates. */
  lemma DedupeMembers(t: Table)
    requires t.Valid()
    ensures Dedupe(t).readings.Keys == t.readings.Keys
    ensures forall d :: d in Dedupe(t).dates <==> d in t.dates
  {
    DedupeKeepsFirst(t);
  }

  function MinOf(s: seq<int>): (m: int)
    requires |s| > 0
    ensures m in s && forall i :: 0 <= i < |s| ==> m <= s[i]
  {
    if |s| == 1 then s[0]
    else
      var m := MinOf(s[1..]);
      assert forall i :: 1 <= i < |s| ==> s[i] == s[1..][i - 1];
      if s[0] <= m then s[0] else m
  }

  function MaxOf(s: seq<int>): (m: int)
    requires |s| > 0
    ensures m in s && forall i :: 0 <= i < |s| ==> s[i] <= m
  {
    if |s| == 1 then s[0]
    else
      var m := MaxOf(s[1..]);
      assert forall i :: 1 <= i < |s| ==> s[i] == s[1..][i - 1];
      if m <= s[0] then s[0] else m
  }

  /** The reading of column `c` on day `d`, NaN when no row is dated `d`. */
  function Lookup(t: Table, c: string, d: int): Reading
    requires t.Valid() && c in t.readings
  {
    if d in t.dates then t.readings[c][FirstIndex(t.dates, d)] else None
  }

  /** Two non-empty sequences with the same members share their least and
      greatest element. */
  lemma SameExtremes(a: seq<int>, b: seq<int>)
    requires |a| > 0 && |b| > 0 && forall x :: x in a <==> x in b
    ensures MinOf(a) == MinOf(b) && MaxOf(a) == MaxOf(b)
  {
    var ia :| 0 <= ia < |a| && a[ia] == MinOf(b);
    var ib :| 0 <= ib < |b| && b[ib] == MinOf(a);
    var ja :| 0 <= ja < |a| && a[ja] == MaxOf(b);
    var jb :| 0 <= jb < |b| && b[jb] == MaxOf(a);
  }

  /** Dropping repeated dates keeps the first and the last day. */
  lemma DedupeSpan(t: Table)
    requires t.Valid() && |t.dates| > 0
    ensures Dedupe(t).readings.Keys == t.readings.Keys
    ensures MinOf(Dedupe(t).dates) == MinOf(t.dates) && MaxOf(Dedupe(t).dates) == MaxOf(t.dates)
  {
    DedupeMembers(t);
    SameExtremes(Dedupe(t).dates, t.dates);
  }

  /** `df.reindex(pd.date_range(df.index.min(), df.index.max()))`: one row
      per day from the first to the last date, NaN on days without a row. */
  function Reindex(t: Table): (r: Table)
    requires t.Valid() && |t.dates| > 0
    ensures r.Valid()
  {
    var lo := MinOf(t.dates);
    var n := MaxOf(t.dates) - lo + 1;
    Table(seq(n, k => lo + k),
          map c | c in t.readings :: seq(n, k requires 0 <= k < n => Lookup(t, c, lo + k)))
  }

  /** Row `i` of the rebuilt calendar is day `min + i`, and its reading is
      the one looked up for that day. */
  lemma ReindexCell(t: Table, i: int, c: string)
    requires t.Valid() && |t.dates| > 0 && c in t.readings && 0 <= i < |Reindex(t).dates|
    ensures Reindex(t).dates[i] == MinOf(t.dates) + i
    ensures c in Reindex(t).readings && Reindex(t).readings[c][i] == Lookup(t, c, MinOf(t.dates) + i)
  {
  }

  /** A loaded day of the rebuilt calendar carries the readings of the
      first row of that day. */
  lemma ReindexLoadedCell(t: Table, i: int, c: string)
    requires t.Valid() && |t.dates| > 0 && c in t.readings && 0 <= i < |Reindex(t).dates|
    requires Reindex(t).dates[i] in t.dates
    ensures c in Reindex(t).readings
    ensures Reindex(t).readings[c][i] == t.readings[c][FirstIndex(t.dates, Reindex(t).dates[i])]
  {
    ReindexCell(t, i, c);
  }

  /** With distinct dates, the first row dated `s[i]` is row `i`. */
  lemma FirstIndexOfDistinct(s: seq<int>, i: nat)
    requires Distinct(s) && i < |s|
    ensures FirstIndex(s, s[i]) == i
  {
    var j := FirstIndex(s, s[i]);
  }

  /** After the reindex every day from the minimum to the maximum date is
      present exactly once, in increasing order. */
  lemma ReindexCompletesCalendar(t: Table)
    requires t.Valid() && |t.dates| > 0
    ensures var r := Reindex(t);
      && r.readings.Keys == t.readings.Keys
      && |r.dates| > 0
      && r.dates[0] == MinOf(t.dates) && r.dates[|r.dates| - 1] == MaxOf(t.dates)
      && (forall k :: 0 <= k < |r.dates| - 1 ==> r.dates[k + 1] == r.dates[k] + 1)
      && (forall d :: d in t.dates ==> d in r.dates)
  {
    var r := Reindex(t);
    forall d | d in t.dates ensures d in r.dates {
      var i :| 0 <= i < |t.dates| && t.dates[i] == d;
      assert r.dates[d - MinOf(t.dates)] == d;
    }
  }

  /** The reindex carries every original row over unchanged to the row of
      its day. */
  lemma ReindexKeepsRow(t: Table, i: nat, c: string)
    requires t.Valid() && |t.dates| > 0 && Distinct(t.dates) && i < |t.dates| && c in t.readings
    ensures var r := Reindex(t); var k := t.dates[i] - MinOf(t.dates);
      0 <= k < |r.dates| && r.dates[k] == t.dates[i] && r.readings[c][k] == t.readings[c][i]
  {
    FirstIndexOfDistinct(t.dates, i);
    var r := Reindex(t);
    var k := t.dates[i] - MinOf(t.dates);
    assert r.readings[c][k] == Lookup(t, c, t.dates[i]);
  }

  /** A day of the rebuilt calendar that was not loaded has every reading
      missing. */
  lemma ReindexFillsGaps(t: Table, k: int, c: string)
    requires t.Valid() && |t.dates| > 0
    requires 0 <= k < |Reindex(t).dates| && Reindex(t).dates[k] !in t.dates && c in Reindex(t).readings
    ensures Reindex(t).readings[c][k] == None
  {
    assert Reindex(t).readings[c][k] == Lookup(t, c, MinOf(t.dates) + k);
  }

  function WindowRows(dates: seq<int>, lo: int, hi: int, n: nat): (idx: seq<nat>)
    requires n <= |dates|
    ensures IndicesBelow(idx, n) && StrictlyIncreasing(idx)
    ensures forall i :: 0 <= i < n ==> (i in idx <==> lo <= dates[i] <= hi)
    decreases n
  {
    if n == 0 then []
    else
      var prev := WindowRows(dates, lo, hi, n - 1);
      if lo <= dates[n - 1] <= hi then prev + [n - 1] else prev
  }

  /** Reference definition: the days of `s` that lie in `[lo, hi]`, in order. */
  function InWindow(s: seq<int>, lo: int, hi: int): seq<int> {
    if s == [] then []
    else InWindow(s[..|s| - 1], lo, hi) + (if lo <= s[|s| - 1] <= hi then [s[|s| - 1]] else [])
  }

  /** `df[(date >= start) & (date <= end)]` followed by `reset_index`. */
  function Truncate(t: Table, lo: int, hi: int): (r: Table)
    requires t.Valid()
    ensures r.Valid()
  {
    Select(t, WindowRows(t.dates, lo, hi, |t.dates|))
  }

  lemma {:induction false} WindowRowsDates(dates: seq<int>, lo: int, hi: int, n: nat)
    requires n <= |dates|
    ensures var idx := WindowRows(dates, lo, hi, n);
      seq(|idx|, k requires 0 <= k < |idx| => dates[idx[k]]) == InWindow(dates[..n], lo, hi)
    decreases n
  {
    if n > 0 {
      WindowRowsDates(dates, lo, hi, n - 1);
      assert dates[..n][..n - 1] == dates[..n - 1];
    }
  }

  /** The window cut keeps exactly the rows whose day lies in `[lo, hi]`,
      in their existing order, with their readings unchanged. */
  lemma TruncateKeepsWindow(t: Table, lo: int, hi: int)
    requires t.Valid()
    ensures var r := Truncate(t, lo, hi);
      && r.readings.Keys == t.readings.Keys
      && r.dates == InWindow(t.dates, lo, hi)
      && (forall p :: 0 <= p < |r.dates| ==> lo <= r.dates[p] <= hi)
      && (forall p :: 0 <= p < |r.dates| ==>
            exists i :: 0 <= i < |t.dates| && t.dates[i] == r.dates[p] &&
              forall c :: c in t.readings ==> r.readings[c][p] == t.readings[c][i])
  {
    var idx := WindowRows(t.dates, lo, hi, |t.dates|);
    WindowRowsDates(t.dates, lo, hi, |t.dates|);
    assert t.dates[..|t.dates|] == t.dates;
    var r := Truncate(t, lo, hi);
    forall p | 0 <= p < |r.dates|
      ensures lo <= r.dates[p] <= hi
      ensures exists i :: 0 <= i < |t.dates| && t.dates[i] == r.dates[p] &&
                forall c :: c in t.readings ==> r.readings[c][p] == t.readings[c][i]
    {
      assert idx[p] in idx;
    }
  }

  /** The window cut keeps exactly the days of `s` that lie in `[lo, hi]`,
      and keeps a sequence without repeated days without repeats. */
  lemma {:induction false} InWindowMembers(s: seq<int>, lo: int, hi: int)
    ensures forall x :: x in InWindow(s, lo, hi) <==> x in s && lo <= x <= hi
    ensures Distinct(s) ==> Distinct(InWindow(s, lo, hi))
  {
    if s != [] {
      var init := s[..|s| - 1];
      var x := s[|s| - 1];
      assert s == init + [x];
      InWindowMembers(init, lo, hi);
      InWindowSnoc(init, x, lo, hi);
      if Distinct(s) {
        DistinctSnoc(init, x);
        DistinctSnoc(InWindow(init, lo, hi), x);
      }
    }
  }

  /** A sequence ending in `x` has no repeat iff its front has none and
      does not hold `x`. */
  lemma DistinctSnoc(a: seq<int>, x: int)
    ensures Distinct(a + [x]) <==> Distinct(a) && x !in a
  {
    var s := a + [x];
    if Distinct(s) {
      forall p, q | 0 <= p < q < |a| ensures a[p] != a[q] {
        assert s[p] == a[p] && s[q] == a[q];
      }
      forall k | 0 <= k < |a| ensures a[k] != x {
        assert s[k] == a[k] && s[|a|] == x;
      }
    }
  }

  /** The days `a..b`, one row each (none when `b < a`). */
  function Run(a: int, b: int): (s: seq<int>)
    ensures |s| == if b < a then 0 else b - a + 1
    ensures forall k :: 0 <= k < |s| ==> s[k] == a + k
  {
    seq(if b < a then 0 else b - a + 1, k => a + k)
  }

  /** The calendar built by `Reindex` is the run of days from the first to
      the last date, over the same columns. */
  lemma ReindexSpan(t: Table)
    requires t.Valid() && |t.dates| > 0
    ensures Reindex(t).readings.Keys == t.readings.Keys
    ensures Reindex(t).dates == Run(MinOf(t.dates), MaxOf(t.dates))
  {
    ReindexCompletesCalendar(t);
  }

  /** Cutting a run of consecutive days to `[lo, hi]` leaves the run of the
      days they have in common. */
  lemma {:induction false} InWindowOfRun(a: int, b: int, lo: int, hi: int)
    ensures InWindow(Run(a, b), lo, hi) ==
      Run(if a < lo then lo else a, if b < hi then b else hi)
    decreases b - a
  {
    if a <= b {
      var m := if a < lo then lo else a;
      RunSnoc(a, b);
      InWindowSnoc(Run(a, b - 1), b, lo, hi);
      InWindowOfRun(a, b - 1, lo, hi);
      if b < lo {
        assert Run(m, b) == [] && Run(m, b - 1) == [];
      } else if b <= hi {
        RunSnoc(m, b);
      }
    }
  }

  lemma InWindowSnoc(s: seq<int>, x: int, lo: int, hi: int)
    ensures InWindow(s + [x], lo, hi) == InWindow(s, lo, hi) + (if lo <= x <= hi then [x] else [])
  {
    assert (s + [x])[..|s|] == s;
  }

  lemma RunSnoc(a: int, b: int)
    requires a <= b
    ensures Run(a, b) == Run(a, b - 1) + [b]
  {
  }
}
