/** `BlastDT3.py`: the loader that tolerates a missing `weather_data`
    directory and really rebuilds the daily calendar, and the classifier
    with three per-day rules (TxMaxAbs >= lower, Tx < upper, RH >= threshold)
    without window and without unknowns. */
module BlastDT3 {
  import opened Options
  import opened ThreeValued
  import opened Calendar
  import opened Frames
  import opened Cleaning
  import opened YearFiles
  import opened Rules
  import opened DataFrame

  const TX_MAX_ABS := "TxMaxAbs"
  const TX := "Tx"
  const RH := "RH"
  const FLAG := "BlastDT3"

  /** What follows the year loop: parse the dates (an empty table on the
      "Corrupted date column" path), drop repeated dates, reindex onto every
      day from the first to the last date, scrub sentinels, interpolate
      inside gaps and keep the days of `[start, end]`. */
  function Normalize(raw: RawTable, start: CivilDate, end: CivilDate): (r: Table)
    requires raw.Valid()
    ensures r.Valid()
  {
    match Parse(raw)
    case None => EMPTY_FRAME
    case Some(t) =>
      Truncate(InterpolateInside(Scrub(Reindex(Dedupe(t)))), DayNumber(start), DayNumber(end))
  }

  function Max(a: int, b: int): int { if a < b then b else a }
  function Min(a: int, b: int): int { if a < b then a else b }

  /** The rebuilt calendar runs from the first to the last loaded date. */
  lemma CalendarSpan(t: Table)
    requires t.Valid() && |t.dates| > 0
    ensures var x := Reindex(Dedupe(t));
      x.readings.Keys == t.readings.Keys && x.dates == Run(MinOf(t.dates), MaxOf(t.dates))
  {
    DedupeSpan(t);
    ReindexSpan(Dedupe(t));
  }

  /** The result has one row for every day that lies both between the
      first and the last loaded date and in `[start, end]`, in calendar
      order, with no day repeated or skipped. */
  lemma NormalizeRows(raw: RawTable, start: CivilDate, end: CivilDate)
    requires raw.Valid()
    ensures Parse(raw).None? ==> Normalize(raw, start, end) == EMPTY_FRAME
    ensures Parse(raw).Some? ==>
      var t := Parse(raw).value; var r := Normalize(raw, start, end);
      && r.readings.Keys == raw.readings.Keys
      && r.dates == Run(Max(MinOf(t.dates), DayNumber(start)), Min(MaxOf(t.dates), DayNumber(end)))
  {
    if Parse(raw).Some? {
      var t := Parse(raw).value;
      var lo, hi := DayNumber(start), DayNumber(end);
      var x := Reindex(Dedupe(t));
      CalendarSpan(t);
      ScrubSpec(x);
      var s := InterpolateInside(Scrub(x));
      TruncateKeepsWindow(s, lo, hi);
      InWindowOfRun(MinOf(t.dates), MaxOf(t.dates), lo, hi);
    }
  }

  /** Each reading of the normalised table on a day that was loaded comes
      from the first loaded row of that day: a known, non-sentinel reading
      there is kept as it is. No reading of the result lies below -99. */
  lemma NormalizeValues(raw: RawTable, start: CivilDate, end: CivilDate)
    requires raw.Valid()
    ensures Parse(raw).Some? ==>
      var t := Parse(raw).value; var r := Normalize(raw, start, end);
      && (forall p, c :: 0 <= p < |r.dates| && c in r.readings && r.dates[p] in t.dates ==>
            var v := t.readings[c][FirstIndex(t.dates, r.dates[p])];
            v.Some? && !IsSentinel(v.value) ==> r.readings[c][p] == v)
      && (forall p, c :: 0 <= p < |r.dates| && c in r.readings && r.readings[c][p].Some? ==>
            -99.0 <= r.readings[c][p].value)
  {
    if Parse(raw).Some? {
      WindowCellValues(Parse(raw).value, DayNumber(start), DayNumber(end));
    }
  }

  /** `NormalizeValues` for a parsed table, one cell at a time. */
  lemma WindowCellValues(t: Table, lo: int, hi: int)
    requires t.Valid() && |t.dates| > 0
    ensures var r := Truncate(InterpolateInside(Scrub(Reindex(Dedupe(t)))), lo, hi);
      forall p, c :: 0 <= p < |r.dates| && c in r.readings ==>
        && (r.dates[p] in t.dates ==>
              var v := t.readings[c][FirstIndex(t.dates, r.dates[p])];
              v.Some? && !IsSentinel(v.value) ==> r.readings[c][p] == v)
        && (r.readings[c][p].Some? ==> -99.0 <= r.readings[c][p].value)
  {
    var x := Reindex(Dedupe(t));
    var s := InterpolateInside(Scrub(x));
    var r := Truncate(s, lo, hi);
    CalendarSpan(t);
    forall p, c | 0 <= p < |r.dates| && c in r.readings
      ensures r.dates[p] in t.dates ==>
        var v := t.readings[c][FirstIndex(t.dates, r.dates[p])];
        v.Some? && !IsSentinel(v.value) ==> r.readings[c][p] == v
      ensures r.readings[c][p].Some? ==> -99.0 <= r.readings[c][p].value
    {
      TruncateKeepsWindow(s, lo, hi);
      var i :| 0 <= i < |s.dates| && s.dates[i] == r.dates[p] &&
        forall c' :: c' in s.readings ==> r.readings[c'][p] == s.readings[c'][i];
      assert c in x.readings;
      CleanInsideCell(x, c, i);
      if r.dates[p] in t.dates {
        CalendarCell(t, i, c);
      }
    }
  }

  /** A loaded day of the rebuilt calendar carries the readings of the
      first loaded row of that day. */
  lemma CalendarCell(t: Table, i: int, c: string)
    requires t.Valid() && |t.dates| > 0 && c in t.readings
    requires 0 <= i < |Reindex(Dedupe(t)).dates| && Reindex(Dedupe(t)).dates[i] in t.dates
    ensures var x := Reindex(Dedupe(t));
      x.readings[c][i] == t.readings[c][FirstIndex(t.dates, x.dates[i])]
  {
    var d := Dedupe(t);
    DedupeMembers(t);
    ReindexLoadedCell(d, i, c);
    DedupeRowIsFirst(t, FirstIndex(d.dates, Reindex(d).dates[i]), c);
  }

  /** The predictor `nian` of `BlastDT3.py`, with its constructor defaults. */
  datatype Nian = Nian(rhThreshold: real := 74.0, tUpper: real := 30.8, tLower: real := 20.7)
  {
    /** `get_daily_weather`: the year files `StartYear(start)..EndYear(end)`
        are concatenated in year order; a file that cannot be read is
        skipped, whether or not `weather_data` exists. */
    method GetDailyWeather(store: Store, start: CivilDate, end: CivilDate) returns (r: Table)
      requires ValidStore(store)
      ensures r == Normalize(Accumulate(store, StartYear(start), EndYear(end)), start, end)
    {
      var lo, hi := StartYear(start), EndYear(end);
      var df := NO_ROWS;
      var year := lo;
      while year <= hi
        invariant lo <= year && (year <= hi + 1 || year == lo)
        invariant df == Accumulate(store, lo, year - 1)
        decreases hi - year
      {
        if year in store {
          var temp := store[year];
          df := if |df.dates| != 0 then Concat(df, temp) else temp;
        }
        year := year + 1;
      }
      assert df == Accumulate(store, StartYear(start), EndYear(end));
      var parsed := Parse(df);
      if parsed.None? {
        return EMPTY_FRAME;
      }
      var calendar := Reindex(Dedupe(parsed.value));
      r := Truncate(InterpolateInside(Scrub(calendar)), DayNumber(start), DayNumber(end));
    }

    predicate HasInputs(readings: map<string, seq<Reading>>, n: nat) {
      && TX_MAX_ABS in readings && TX in readings && RH in readings
      && |readings[TX_MAX_ABS]| == n && |readings[TX]| == n && |readings[RH]| == n
    }

    /** The three per-day condition columns; a NaN reading compares False. */
    function Conditions(readings: map<string, seq<Reading>>, n: nat): (cs: seq<seq<Tri>>)
      requires HasInputs(readings, n)
      ensures |cs| == 3 && forall k :: 0 <= k < 3 ==> |cs[k]| == n
    {
      [TestColumn(AtLeast, tLower, false, readings[TX_MAX_ABS]),
       TestColumn(Below, tUpper, false, readings[TX]),
       TestColumn(AtLeast, rhThreshold, false, readings[RH])]
    }

    /** The `BlastDT3` column: `TxMaxAbs_condition & Tx_condition & RH_condition`. */
    function Flag(readings: map<string, seq<Reading>>, n: nat): (f: seq<Tri>)
      requires HasInputs(readings, n)
      ensures |f| == n
    {
      AllOf(Conditions(readings, n), n)
    }

    /** Day `j` is high risk: all three readings known and within their
        thresholds, the mean temperature strictly below the upper one. */
    predicate Favourable(readings: map<string, seq<Reading>>, n: nat, j: int)
      requires HasInputs(readings, n) && 0 <= j < n
    {
      && readings[TX_MAX_ABS][j].Some? && readings[TX_MAX_ABS][j].value >= tLower
      && readings[TX][j].Some? && readings[TX][j].value < tUpper
      && readings[RH][j].Some? && readings[RH][j].value >= rhThreshold
    }

    /** The flag of a day depends on that day alone: true exactly when the
        day is favourable, never unknown, and false on any day with a
        missing reading. */
    lemma FlagMeaning(readings: map<string, seq<Reading>>, n: nat, i: int)
      requires HasInputs(readings, n) && 0 <= i < n
      ensures Flag(readings, n)[i] != Unknown
      ensures Flag(readings, n)[i] == Yes <==> Favourable(readings, n, i)
      ensures readings[TX_MAX_ABS][i].None? || readings[TX][i].None? || readings[RH][i].None? ==>
        Flag(readings, n)[i] == No
    {
      var cs := Conditions(readings, n);
      assert Flag(readings, n)[i] == Yes <==> cs[0][i] == Yes && cs[1][i] == Yes && cs[2][i] == Yes;
      assert Flag(readings, n)[i] == Unknown <==>
        cs[0][i] == Unknown || cs[1][i] == Unknown || cs[2][i] == Unknown;
    }

    /** The derived columns after a complete run. */
    function Annotated(derived: map<string, seq<Tri>>, readings: map<string, seq<Reading>>, n: nat)
      : map<string, seq<Tri>>
      requires HasInputs(readings, n)
    {
      var cs := Conditions(readings, n);
      derived[ConditionName(TX_MAX_ABS) := cs[0]][ConditionName(TX) := cs[1]][ConditionName(RH) := cs[2]]
             [FLAG := Flag(readings, n)]
    }

    /** `BlastDT3(df)`: the three readings are cast first, so a missing one
        raises `KeyError` before anything is written (`ok` false); otherwise
        the three condition columns and the flag are added. No reading
        changes and row 0 is not cleared. */
    method BlastDT3(df: Frame) returns (ok: bool)
      requires df.Valid()
      modifies df
      ensures df.Valid() && df.dates == old(df.dates) && df.readings == old(df.readings)
      ensures ok <==> TX_MAX_ABS in df.readings && TX in df.readings && RH in df.readings
      ensures ok ==> (HasInputs(df.readings, |df.dates|) &&
                      df.derived == Annotated(old(df.derived), df.readings, |df.dates|))
      ensures !ok ==> df.derived == old(df.derived)
    {
      if TX_MAX_ABS !in df.readings || TX !in df.readings || RH !in df.readings {
        return false;
      }
      var c0 := TestColumn(AtLeast, tLower, false, df.readings[TX_MAX_ABS]);
      var c1 := TestColumn(Below, tUpper, false, df.readings[TX]);
      var c2 := TestColumn(AtLeast, rhThreshold, false, df.readings[RH]);
      df.Put(ConditionName(TX_MAX_ABS), c0);
      df.Put(ConditionName(TX), c1);
      df.Put(ConditionName(RH), c2);
      df.Put(FLAG, AllOf([c0, c1, c2], |df.dates|));
      ok := true;
    }
  }
}
