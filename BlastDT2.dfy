/** `BlastDT2.py`: the loader that interpolates inside gaps only, and the
    classifier with three windowed rules (TxMaxAbs >= lower, Tx <= upper,
    RH >= threshold) whose missing readings stay unknown. */
module BlastDT2 {
  import opened Options
  import opened ThreeValued
  import opened Calendar
  import opened Frames
  import opened Cleaning
  import opened YearFiles
  import opened Rules
  import opened DataFrame

  const TX_MAX_ABS := "TxMaxAbs"
  const TX := "Tx"
  const RH := "RH"
  const FLAG := "BlastDT2"

  /** `os.listdir` raising inside the `except` block of the year loop: a
      year file could not be read and there is no `weather_data` directory
      to list. The exception leaves `get_daily_weather`. */
  datatype LoadError = WeatherDataDirMissing

  /** What follows the year loop: parse the dates (an empty table on the
      "Corrupted date column" path), drop repeated dates, scrub sentinels,
      interpolate inside gaps and keep the days of `[start, end]`. The
      `reindex` result is discarded, so no missing day is inserted. */
  function Normalize(raw: RawTable, start: CivilDate, end: CivilDate): (r: Table)
    requires raw.Valid()
    ensures r.Valid()
  {
    match Parse(raw)
    case None => EMPTY_FRAME
    case Some(t) => Truncate(InterpolateInside(Scrub(Dedupe(t))), DayNumber(start), DayNumber(end))
  }

  /** The rows of the normalised table are the distinct dates of the loaded
      rows that fall in `[start, end]`, each once, in the order of their
      first appearance; a date column that cannot be parsed, or no row at
      all, gives the empty table. */
  lemma NormalizeRows(raw: RawTable, start: CivilDate, end: CivilDate)
    requires raw.Valid()
    ensures Parse(raw).None? ==> Normalize(raw, start, end) == EMPTY_FRAME
    ensures Parse(raw).Some? ==>
      var t := Parse(raw).value; var r := Normalize(raw, start, end);
      && r.readings.Keys == raw.readings.Keys
      && r.dates == InWindow(Dedupe(t).dates, DayNumber(start), DayNumber(end))
      && Distinct(r.dates)
      && forall d :: d in r.dates <==> d in t.dates && DayNumber(start) <= d <= DayNumber(end)
  {
    if Parse(raw).Some? {
      var t := Parse(raw).value;
      var lo, hi := DayNumber(start), DayNumber(end);
      var d := Dedupe(t);
      DedupeKeepsFirst(t);
      ScrubSpec(d);
      var s := InterpolateInside(Scrub(d));
      TruncateKeepsWindow(s, lo, hi);
      InWindowMembers(d.dates, lo, hi);
    }
  }

  /** Each reading of the normalised table comes from the first loaded row
      of its date: a known, non-sentinel reading there is kept as it is.
      No reading of the result lies below -99, since interpolated values
      lie between known ones. */
  lemma NormalizeValues(raw: RawTable, start: CivilDate, end: CivilDate)
    requires raw.Valid()
    ensures Parse(raw).Some? ==>
      var t := Parse(raw).value; var r := Normalize(raw, start, end);
      && (forall p, c :: 0 <= p < |r.dates| && c in r.readings ==>
            r.dates[p] in t.dates &&
            var v := t.readings[c][FirstIndex(t.dates, r.dates[p])];
            v.Some? && !IsSentinel(v.value) ==> r.readings[c][p] == v)
      && (forall p, c :: 0 <= p < |r.dates| && c in r.readings && r.readings[c][p].Some? ==>
            -99.0 <= r.readings[c][p].value)
  {
    if Parse(raw).Some? {
      WindowCellValues(Parse(raw).value, DayNumber(start), DayNumber(end));
    }
  }

  /** `NormalizeValues` for a parsed table, one cell at a time. */
  lemma WindowCellValues(t: Table, lo: int, hi: int)
    requires t.Valid()
    ensures var r := Truncate(InterpolateInside(Scrub(Dedupe(t))), lo, hi);
      forall p, c :: 0 <= p < |r.dates| && c in r.readings ==>
        && r.dates[p] in t.dates
        && (var v := t.readings[c][FirstIndex(t.dates, r.dates[p])];
            v.Some? && !IsSentinel(v.value) ==> r.readings[c][p] == v)
        && (r.readings[c][p].Some? ==> -99.0 <= r.readings[c][p].value)
  {
    var d := Dedupe(t);
    var s := InterpolateInside(Scrub(d));
    var r := Truncate(s, lo, hi);
    forall p, c | 0 <= p < |r.dates| && c in r.readings
      ensures r.dates[p] in t.dates
      ensures var v := t.readings[c][FirstIndex(t.dates, r.dates[p])];
        v.Some? && !IsSentinel(v.value) ==> r.readings[c][p] == v
      ensures r.readings[c][p].Some? ==> -99.0 <= r.readings[c][p].value
    {
      TruncateKeepsWindow(s, lo, hi);
      var i :| 0 <= i < |s.dates| && s.dates[i] == r.dates[p] &&
        forall c' :: c' in s.readings ==> r.readings[c'][p] == s.readings[c'][i];
      assert c in t.readings;
      DedupeRowIsFirst(t, i, c);
      CleanInsideCell(d, c, i);
    }
  }

  /** The predictor `nian` of `BlastDT2.py`, with its constructor defaults. */
  datatype Nian = Nian(rhThreshold: real := 77.0, tUpper: real := 30.7, tLower: real := 20.7,
                       windowLength: WindowLength := 3)
  {
    /** `get_daily_weather`: the year files `StartYear(start)..EndYear(end)`
        are concatenated in year order, skipping any that cannot be read,
        unless one cannot be read and `weather_data` does not exist. */
    method GetDailyWeather(store: Store, dataDirExists: bool, start: CivilDate, end: CivilDate)
      returns (r: Result<Table, LoadError>)
      requires ValidStore(store)
      ensures r.Err? <==> !dataDirExists && exists y :: StartYear(start) <= y <= EndYear(end) && y !in store
      ensures r.Ok? ==> r.value == Normalize(Accumulate(store, StartYear(start), EndYear(end)), start, end)
    {
      var lo, hi := StartYear(start), EndYear(end);
      var df := NO_ROWS;
      var year := lo;
      while year <= hi
        invariant lo <= year && (year <= hi + 1 || year == lo)
        invariant df == Accumulate(store, lo, year - 1)
        invariant !dataDirExists ==> forall y :: lo <= y < year ==> y in store
        decreases hi - year
      {
        if year in store {
          var temp := store[year];
          df := if |df.dates| != 0 then Concat(df, temp) else temp;
        } else if !dataDirExists {
          return Err(WeatherDataDirMissing);
        }
        year := year + 1;
      }
      assert df == Accumulate(store, StartYear(start), EndYear(end));
      var parsed := Parse(df);
      if parsed.None? {
        return Ok(EMPTY_FRAME);
      }
      var filled := InterpolateInside(Scrub(Dedupe(parsed.value)));
      return Ok(Truncate(filled, DayNumber(start), DayNumber(end)));
    }

    /** The frame has the three readings the classifier reads. */
    predicate HasInputs(readings: map<string, seq<Reading>>, n: nat) {
      && TX_MAX_ABS in readings && TX in readings && RH in readings
      && |readings[TX_MAX_ABS]| == n && |readings[TX]| == n && |readings[RH]| == n
    }

    /** The three per-day condition columns. */
    function Conditions(readings: map<string, seq<Reading>>, n: nat): (cs: seq<seq<Tri>>)
      requires HasInputs(readings, n)
      ensures |cs| == 3 && forall k :: 0 <= k < 3 ==> |cs[k]| == n
    {
      [TestColumn(AtLeast, tLower, true, readings[TX_MAX_ABS]),
       TestColumn(AtMost, tUpper, true, readings[TX]),
       TestColumn(AtLeast, rhThreshold, true, readings[RH])]
    }

    /** The three rolling columns. */
    function Rollings(readings: map<string, seq<Reading>>, n: nat): (rs: seq<seq<Tri>>)
      requires HasInputs(readings, n)
      ensures |rs| == 3 && forall k :: 0 <= k < 3 ==> |rs[k]| == n
    {
      var cs := Conditions(readings, n);
      [Rolling(cs[0], windowLength), Rolling(cs[1], windowLength), Rolling(cs[2], windowLength)]
    }

    /** The `BlastDT2` column. */
    function Flag(readings: map<string, seq<Reading>>, n: nat): (f: seq<Tri>)
      requires HasInputs(readings, n)
      ensures |f| == n
    {
      AllOf(Rollings(readings, n), n)
    }

    /** Day `j` is favourable: all three readings are known and within
        their thresholds. */
    predicate Favourable(readings: map<string, seq<Reading>>, n: nat, j: int)
      requires HasInputs(readings, n) && 0 <= j < n
    {
      && readings[TX_MAX_ABS][j].Some? && readings[TX_MAX_ABS][j].value >= tLower
      && readings[TX][j].Some? && readings[TX][j].value <= tUpper
      && readings[RH][j].Some? && readings[RH][j].value >= rhThreshold
    }

    /** Some reading of day `j` is missing. */
    predicate AnyMissing(readings: map<string, seq<Reading>>, n: nat, j: int)
      requires HasInputs(readings, n) && 0 <= j < n
    {
      readings[TX_MAX_ABS][j].None? || readings[TX][j].None? || readings[RH][j].None?
    }

    /** The flag of day `i` is true exactly when each of the last
        `windowLength` days up to `i` is favourable. */
    lemma FlagTrue(readings: map<string, seq<Reading>>, n: nat, i: int)
      requires HasInputs(readings, n) && 0 <= i < n
      ensures Flag(readings, n)[i] == Yes <==>
        windowLength <= i + 1 && forall j :: i + 1 - windowLength <= j <= i ==> Favourable(readings, n, j)
    {
      var cs := Conditions(readings, n);
      var rs := Rollings(readings, n);
      assert Flag(readings, n)[i] == Yes <==> rs[0][i] == Yes && rs[1][i] == Yes && rs[2][i] == Yes;
      if i + 1 >= windowLength {
        forall j | 0 <= j < n
          ensures Favourable(readings, n, j) <==> cs[0][j] == Yes && cs[1][j] == Yes && cs[2][j] == Yes
        {
          DayConditions(readings, n, j);
        }
      }
    }

    /** The flag of day `i` is unknown exactly when fewer than
        `windowLength` days exist up to `i` or one of the last
        `windowLength` days has a missing reading. */
    lemma FlagUnknown(readings: map<string, seq<Reading>>, n: nat, i: int)
      requires HasInputs(readings, n) && 0 <= i < n
      ensures Flag(readings, n)[i] == Unknown <==>
        i + 1 < windowLength || exists j :: i + 1 - windowLength <= j <= i && AnyMissing(readings, n, j)
    {
      var cs := Conditions(readings, n);
      var rs := Rollings(readings, n);
      var w := windowLength;
      assert Flag(readings, n)[i] == Unknown <==>
        rs[0][i] == Unknown || rs[1][i] == Unknown || rs[2][i] == Unknown;
      if i + 1 >= w {
        forall j | 0 <= j < n
          ensures AnyMissing(readings, n, j) <==>
            cs[0][j] == Unknown || cs[1][j] == Unknown || cs[2][j] == Unknown
        {
          DayConditions(readings, n, j);
        }
        if exists j :: i + 1 - w <= j <= i && AnyMissing(readings, n, j) {
          var j :| i + 1 - w <= j <= i && AnyMissing(readings, n, j);
          assert cs[0][j] == Unknown || cs[1][j] == Unknown || cs[2][j] == Unknown;
        }
      }
    }

    /** The conditions of one day: all three true exactly when the day is
        favourable, one of them unknown exactly when a reading is missing. */
    lemma DayConditions(readings: map<string, seq<Reading>>, n: nat, j: int)
      requires HasInputs(readings, n) && 0 <= j < n
      ensures var cs := Conditions(readings, n);
        && (Favourable(readings, n, j) <==> cs[0][j] == Yes && cs[1][j] == Yes && cs[2][j] == Yes)
        && (AnyMissing(readings, n, j) <==> cs[0][j] == Unknown || cs[1][j] == Unknown || cs[2][j] == Unknown)
    {
    }

    /** Because row 0's TxMaxAbs is cleared before the test, the flag is
        unknown on the first `windowLength` rows, one more than the short
        windows alone would give. */
    lemma FirstWindowUnknown(readings: map<string, seq<Reading>>, n: nat, i: int)
      requires HasInputs(readings, n) && n > 0 && readings[TX_MAX_ABS][0].None?
      requires 0 <= i < n && i < windowLength
      ensures Flag(readings, n)[i] == Unknown
    {
      FlagUnknown(readings, n, i);
      if i + 1 >= windowLength {
        assert AnyMissing(readings, n, 0);
      }
    }

    /** The derived columns after a complete run. */
    function Annotated(derived: map<string, seq<Tri>>, readings: map<string, seq<Reading>>, n: nat)
      : map<string, seq<Tri>>
      requires HasInputs(readings, n)
    {
      var cs := Conditions(readings, n);
      var rs := Rollings(readings, n);
      derived[ConditionName(TX_MAX_ABS) := cs[0]][ConditionName(TX) := cs[1]][ConditionName(RH) := cs[2]]
             [RollingName(TX_MAX_ABS) := rs[0]][RollingName(TX) := rs[1]][RollingName(RH) := rs[2]]
             [FLAG := Flag(readings, n)]
    }

    /** `BlastDT2(df)`: clears row 0's TxMaxAbs, then writes the condition,
        rolling and flag columns into the caller's frame. A missing `Tx` or
        `RH` column raises `KeyError` after the columns written so far;
        `ok` is false then. No reading other than row 0's TxMaxAbs changes. */
    method BlastDT2(df: Frame) returns (ok: bool)
      requires df.Valid()
      modifies df
      ensures df.Valid() && df.dates == old(df.dates)
      ensures df.readings ==
        old(df.readings)[TX_MAX_ABS := WithFirstMissing(ColumnOrMissing(old(df.readings), TX_MAX_ABS, |df.dates|))]
      ensures ok <==> TX in old(df.readings) && RH in old(df.readings)
      ensures ok ==> (HasInputs(df.readings, |df.dates|) &&
                      df.derived == Annotated(old(df.derived), df.readings, |df.dates|))
      ensures !ok && TX !in old(df.readings) ==> (df.derived ==
        old(df.derived)[ConditionName(TX_MAX_ABS) := TestColumn(AtLeast, tLower, true, df.readings[TX_MAX_ABS])])
      ensures !ok && TX in old(df.readings) ==> (df.derived ==
        old(df.derived)[ConditionName(TX_MAX_ABS) := TestColumn(AtLeast, tLower, true, df.readings[TX_MAX_ABS])]
                       [ConditionName(TX) := TestColumn(AtMost, tUpper, true, df.readings[TX])])
    {
      df.ClearFirst(TX_MAX_ABS);
      var c0 := TestColumn(AtLeast, tLower, true, df.readings[TX_MAX_ABS]);
      df.Put(ConditionName(TX_MAX_ABS), c0);
      if TX !in df.readings {
        return false;
      }
      var c1 := TestColumn(AtMost, tUpper, true, df.readings[TX]);
      df.Put(ConditionName(TX), c1);
      if RH !in df.readings {
        return false;
      }
      var c2 := TestColumn(AtLeast, rhThreshold, true, df.readings[RH]);
      df.Put(ConditionName(RH), c2);
      var r0 := Rolling(c0, windowLength);
      df.Put(RollingName(TX_MAX_ABS), r0);
      var r1 := Rolling(c1, windowLength);
      df.Put(RollingName(TX), r1);
      var r2 := Rolling(c2, windowLength);
      df.Put(RollingName(RH), r2);
      df.Put(FLAG, AllOf([r0, r1, r2], |df.dates|));
      ok := true;
    }
  }
}
