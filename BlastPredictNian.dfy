/** `blast_predict_nian.py`: the loader whose frame is only ever bound by the
    first year's file and that fills every gap (interpolation, then forward
    and backward fill), and the classifier with two strict windowed rules
    (TxMaxAbs > T_threshold, RH > RH_threshold). */
module BlastPredictNian {
  import opened Options
  import opened ThreeValued
  import opened Calendar
  import opened Frames
  import opened Cleaning
  import opened YearFiles
  import opened Rules
  import opened DataFrame

  const TX_MAX_ABS := "TxMaxAbs"
  const RH := "RH"
  const FLAG := "nian_prediction"

  /** What follows the year loop. An unbound `df` raises `NameError` inside
      the date `try`, which returns the empty table like a date column that
      cannot be parsed. Otherwise: drop repeated dates (the `reindex` result
      is discarded), scrub sentinels, fill every gap and keep the days of
      `[start, end]`. */
  function Normalize(raw: Option<RawTable>, start: CivilDate, end: CivilDate): (r: Table)
    requires raw.Some? ==> raw.value.Valid()
    ensures r.Valid()
  {
    if raw.None? then EMPTY_FRAME
    else match Parse(raw.value)
      case None => EMPTY_FRAME
      case Some(t) => Truncate(FillGaps(Scrub(Dedupe(t))), DayNumber(start), DayNumber(end))
  }

  /** If the first year's file cannot be read, nothing is loaded at all,
      whatever the later years hold. */
  lemma FirstFileLost(store: Store, start: CivilDate, end: CivilDate)
    requires ValidStore(store) && StartYear(start) !in store
    ensures Normalize(NianAccumulate(store, StartYear(start), EndYear(end)), start, end) == EMPTY_FRAME
  {
    NianUnboundWithoutFirstYear(store, StartYear(start), EndYear(end));
  }

  /** The rows of the normalised table are the distinct loaded dates that
      fall in `[start, end]`, each once, in the order of first appearance. */
  lemma NormalizeRows(raw: RawTable, start: CivilDate, end: CivilDate)
    requires raw.Valid()
    ensures Parse(raw).None? ==> Normalize(Some(raw), start, end) == EMPTY_FRAME
    ensures Parse(raw).Some? ==>
      var t := Parse(raw).value; var r := Normalize(Some(raw), start, end);
      && r.readings.Keys == raw.readings.Keys
      && r.dates == InWindow(Dedupe(t).dates, DayNumber(start), DayNumber(end))
      && Distinct(r.dates)
      && forall d :: d in r.dates <==> d in t.dates && DayNumber(start) <= d <= DayNumber(end)
  {
    if Parse(raw).Some? {
      var t := Parse(raw).value;
      var lo, hi := DayNumber(start), DayNumber(end);
      var d := Dedupe(t);
      DedupeKeepsFirst(t);
      ScrubSpec(d);
      var s := FillGaps(Scrub(d));
      TruncateKeepsWindow(s, lo, hi);
      InWindowMembers(d.dates, lo, hi);
    }
  }

  /** Each reading of the normalised table comes from the first loaded row
      of its date: a known, non-sentinel reading there is kept as it is.
      No reading of the result lies below -99, since a filled value is a
      known one or lies between two. */
  lemma NormalizeValues(raw: RawTable, start: CivilDate, end: CivilDate)
    requires raw.Valid()
    ensures Parse(raw).Some? ==>
      var t := Parse(raw).value; var r := Normalize(Some(raw), start, end);
      && (forall p, c :: 0 <= p < |r.dates| && c in r.readings ==>
            r.dates[p] in t.dates &&
            var v := t.readings[c][FirstIndex(t.dates, r.dates[p])];
            v.Some? && !IsSentinel(v.value) ==> r.readings[c][p] == v)
      && (forall p, c :: 0 <= p < |r.dates| && c in r.readings && r.readings[c][p].Some? ==>
            -99.0 <= r.readings[c][p].value)
  {
    if Parse(raw).Some? {
      var t := Parse(raw).value;
      var lo, hi := DayNumber(start), DayNumber(end);
      WindowCellValues(t, lo, hi);
      assert Normalize(Some(raw), start, end) == Truncate(FillGaps(Scrub(Dedupe(t))), lo, hi);
    }
  }

  /** `NormalizeValues` for a parsed table, one cell at a time. */
  lemma WindowCellValues(t: Table, lo: int, hi: int)
    requires t.Valid()
    ensures var r := Truncate(FillGaps(Scrub(Dedupe(t))), lo, hi);
      forall p, c :: 0 <= p < |r.dates| && c in r.readings ==>
        && r.dates[p] in t.dates
        && (var v := t.readings[c][FirstIndex(t.dates, r.dates[p])];
            v.Some? && !IsSentinel(v.value) ==> r.readings[c][p] == v)
        && (r.readings[c][p].Some? ==> -99.0 <= r.readings[c][p].value)
  {
    var d := Dedupe(t);
    var s := FillGaps(Scrub(d));
    var r := Truncate(s, lo, hi);
    forall p, c | 0 <= p < |r.dates| && c in r.readings
      ensures r.dates[p] in t.dates
      ensures var v := t.readings[c][FirstIndex(t.dates, r.dates[p])];
        v.Some? && !IsSentinel(v.value) ==> r.readings[c][p] == v
      ensures r.readings[c][p].Some? ==> -99.0 <= r.readings[c][p].value
    {
      TruncateKeepsWindow(s, lo, hi);
      var i :| 0 <= i < |s.dates| && s.dates[i] == r.dates[p] &&
        forall c' :: c' in s.readings ==> r.readings[c'][p] == s.readings[c'][i];
      assert c in t.readings;
      DedupeRowIsFirst(t, i, c);
      CleanFillCell(d, c, i);
    }
  }

  /** No reading of the result is missing in a column that had at least one
      known (non-sentinel) value among the deduplicated rows. */
  lemma NoGapsLeft(raw: RawTable, start: CivilDate, end: CivilDate, c: string)
    requires raw.Valid() && Parse(raw).Some?
    requires var s := Scrub(Dedupe(Parse(raw).value));
      c in s.readings && exists m :: 0 <= m < |s.dates| && s.readings[c][m].Some?
    ensures var r := Normalize(Some(raw), start, end);
      c in r.readings && forall p :: 0 <= p < |r.dates| ==> r.readings[c][p].Some?
  {
    var s := Scrub(Dedupe(Parse(raw).value));
    var f := FillGaps(s);
    assert forall k :: 0 <= k < |f.dates| ==> f.readings[c][k].Some? by {
      FillColumnSpec(s.readings[c]);
    }
    var r := Truncate(f, DayNumber(start), DayNumber(end));
    assert r == Normalize(Some(raw), start, end);
    assert c in r.readings && forall p :: 0 <= p < |r.dates| ==> r.readings[c][p].Some? by {
      TruncateKeepsWindow(f, DayNumber(start), DayNumber(end));
    }
  }

  /** The predictor `nian` of `blast_predict_nian.py`, with its constructor
      defaults. */
  datatype Nian = Nian(rhThreshold: real := 80.0, tThreshold: real := 24.0, windowLength: WindowLength := 3)
  {
    /** `get_daily_weather`: the first year's file binds `df`; each later
        readable year is concatenated onto it, which fails (and is skipped)
        while `df` is unbound. */
    method GetDailyWeather(store: Store, start: CivilDate, end: CivilDate) returns (r: Table)
      requires ValidStore(store)
      ensures r == Normalize(NianAccumulate(store, StartYear(start), EndYear(end)), start, end)
    {
      var lo, hi := StartYear(start), EndYear(end);
      var df: Option<RawTable> := None;
      var year := lo;
      while year <= hi
        invariant lo <= year && (year <= hi + 1 || year == lo)
        invariant df == NianAccumulate(store, lo, year - 1)
        decreases hi - year
      {
        if year == lo {
          if year in store {
            df := Some(store[year]);
          }
        } else if df.Some? && year in store {
          df := Some(Concat(df.value, store[year]));
        }
        year := year + 1;
      }
      assert df == NianAccumulate(store, StartYear(start), EndYear(end));
      if df.None? {
        return EMPTY_FRAME;
      }
      var parsed := Parse(df.value);
      if parsed.None? {
        return EMPTY_FRAME;
      }
      r := Truncate(FillGaps(Scrub(Dedupe(parsed.value))), DayNumber(start), DayNumber(end));
    }

    predicate HasInputs(readings: map<string, seq<Reading>>, n: nat) {
      TX_MAX_ABS in readings && RH in readings && |readings[TX_MAX_ABS]| == n && |readings[RH]| == n
    }

    /** The two per-day condition columns, both strict. */
    function Conditions(readings: map<string, seq<Reading>>, n: nat): (cs: seq<seq<Tri>>)
      requires HasInputs(readings, n)
      ensures |cs| == 2 && forall k :: 0 <= k < 2 ==> |cs[k]| == n
    {
      [TestColumn(Above, tThreshold, true, readings[TX_MAX_ABS]),
       TestColumn(Above, rhThreshold, true, readings[RH])]
    }

    function Rollings(readings: map<string, seq<Reading>>, n: nat): (rs: seq<seq<Tri>>)
      requires HasInputs(readings, n)
      ensures |rs| == 2 && forall k :: 0 <= k < 2 ==> |rs[k]| == n
    {
      var cs := Conditions(readings, n);
      [Rolling(cs[0], windowLength), Rolling(cs[1], windowLength)]
    }

    /** The `nian_prediction` column. */
    function Flag(readings: map<string, seq<Reading>>, n: nat): (f: seq<Tri>)
      requires HasInputs(readings, n)
      ensures |f| == n
    {
      AllOf(Rollings(readings, n), n)
    }

    /** Day `j` is favourable: both readings known and strictly above
        their thresholds. */
    predicate Favourable(readings: map<string, seq<Reading>>, n: nat, j: int)
      requires HasInputs(readings, n) && 0 <= j < n
    {
      && readings[TX_MAX_ABS][j].Some? && readings[TX_MAX_ABS][j].value > tThreshold
      && readings[RH][j].Some? && readings[RH][j].value > rhThreshold
    }

    predicate AnyMissing(readings: map<string, seq<Reading>>, n: nat, j: int)
      requires HasInputs(readings, n) && 0 <= j < n
    {
      readings[TX_MAX_ABS][j].None? || readings[RH][j].None?
    }

    /** The prediction of day `i` is true exactly when each of the last
        `windowLength` days up to `i` is favourable. */
    lemma FlagTrue(readings: map<string, seq<Reading>>, n: nat, i: int)
      requires HasInputs(readings, n) && 0 <= i < n
      ensures Flag(readings, n)[i] == Yes <==>
        windowLength <= i + 1 && forall j :: i + 1 - windowLength <= j <= i ==> Favourable(readings, n, j)
    {
      var cs := Conditions(readings, n);
      var rs := Rollings(readings, n);
      assert Flag(readings, n)[i] == Yes <==> rs[0][i] == Yes && rs[1][i] == Yes;
      if i + 1 >= windowLength {
        forall j | 0 <= j < n
          ensures Favourable(readings, n, j) <==> cs[0][j] == Yes && cs[1][j] == Yes
        {
          DayConditions(readings, n, j);
        }
      }
    }

    /** The prediction of day `i` is unknown exactly when fewer than
        `windowLength` days exist up to `i` or one of the last
        `windowLength` days has a missing reading; otherwise it is true or
        false. */
    lemma FlagUnknown(readings: map<string, seq<Reading>>, n: nat, i: int)
      requires HasInputs(readings, n) && 0 <= i < n
      ensures Flag(readings, n)[i] == Unknown <==>
        i + 1 < windowLength || exists j :: i + 1 - windowLength <= j <= i && AnyMissing(readings, n, j)
    {
      var cs := Conditions(readings, n);
      var rs := Rollings(readings, n);
      var w := windowLength;
      assert Flag(readings, n)[i] == Unknown <==> rs[0][i] == Unknown || rs[1][i] == Unknown;
      if i + 1 >= w {
        forall j | 0 <= j < n
          ensures AnyMissing(readings, n, j) <==> cs[0][j] == Unknown || cs[1][j] == Unknown
        {
          DayConditions(readings, n, j);
        }
        if exists j :: i + 1 - w <= j <= i && AnyMissing(readings, n, j) {
          var j :| i + 1 - w <= j <= i && AnyMissing(readings, n, j);
          assert cs[0][j] == Unknown || cs[1][j] == Unknown;
        }
      }
    }

    /** The conditions of one day: both true exactly when the day is
        favourable, one of them unknown exactly when a reading is missing. */
    lemma DayConditions(readings: map<string, seq<Reading>>, n: nat, j: int)
      requires HasInputs(readings, n) && 0 <= j < n
      ensures var cs := Conditions(readings, n);
        && (Favourable(readings, n, j) <==> cs[0][j] == Yes && cs[1][j] == Yes)
        && (AnyMissing(readings, n, j) <==> cs[0][j] == Unknown || cs[1][j] == Unknown)
    {
    }

    /** With row 0's TxMaxAbs cleared, the TxMaxAbs rolling column and the
        prediction are unknown on the first `windowLength` rows. */
    lemma FirstWindowUnknown(readings: map<string, seq<Reading>>, n: nat, i: int)
      requires HasInputs(readings, n) && n > 0 && readings[TX_MAX_ABS][0].None?
      requires 0 <= i < n && i < windowLength
      ensures Rollings(readings, n)[0][i] == Unknown
      ensures Flag(readings, n)[i] == Unknown
    {
      FlagUnknown(readings, n, i);
      if i + 1 >= windowLength {
        assert AnyMissing(readings, n, 0);
        assert Conditions(readings, n)[0][0] == Unknown;
      }
    }

    /** The derived columns after a complete run. */
    function Annotated(derived: map<string, seq<Tri>>, readings: map<string, seq<Reading>>, n: nat)
      : map<string, seq<Tri>>
      requires HasInputs(readings, n)
    {
      var cs := Conditions(readings, n);
      var rs := Rollings(readings, n);
      derived[ConditionName(TX_MAX_ABS) := cs[0]][ConditionName(RH) := cs[1]]
             [RollingName(TX_MAX_ABS) := rs[0]][RollingName(RH) := rs[1]]
             [FLAG := Flag(readings, n)]
    }

    /** `nian_formula(df)`: clears row 0's TxMaxAbs (creating the column if
        absent), then writes the condition, rolling and prediction columns
        into the caller's frame. A missing `RH` column raises `KeyError`
        after the TxMaxAbs condition is written; `ok` is false then. */
    method NianFormula(df: Frame) returns (ok: bool)
      requires df.Valid()
      modifies df
      ensures df.Valid() && df.dates == old(df.dates)
      ensures df.readings ==
        old(df.readings)[TX_MAX_ABS := WithFirstMissing(ColumnOrMissing(old(df.readings), TX_MAX_ABS, |df.dates|))]
      ensures ok <==> RH in old(df.readings)
      ensures ok ==> (HasInputs(df.readings, |df.dates|) &&
                      df.derived == Annotated(old(df.derived), df.readings, |df.dates|))
      ensures !ok ==> (df.derived ==
        old(df.derived)[ConditionName(TX_MAX_ABS) := TestColumn(Above, tThreshold, true, df.readings[TX_MAX_ABS])])
    {
      df.ClearFirst(TX_MAX_ABS);
      var c0 := TestColumn(Above, tThreshold, true, df.readings[TX_MAX_ABS]);
      df.Put(ConditionName(TX_MAX_ABS), c0);
      if RH !in df.readings {
        return false;
      }
      var c1 := TestColumn(Above, rhThreshold, true, df.readings[RH]);
      df.Put(ConditionName(RH), c1);
      var r0 := Rolling(c0, windowLength);
      df.Put(RollingName(TX_MAX_ABS), r0);
      var r1 := Rolling(c1, windowLength);
      df.Put(RollingName(RH), r1);
      df.Put(FLAG, AllOf([r0, r1], |df.dates|));
      ok := true;
    }
  }
}
