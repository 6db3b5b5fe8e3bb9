/** Worked examples of the normalisation and of the classifier rules, on
    small concrete inputs. */
module Scenarios {
  import opened Options
  import opened ThreeValued
  import opened Frames
  import opened Cleaning
  import opened Rules

  /** Four consecutive days of relative humidity. */
  const RH_DAYS: seq<Reading> := [Some(70.0), Some(80.0), Some(75.0), Some(78.0)]

  /** The rule `RH >= 77` day by day. */
  lemma HumidityPerDay()
    ensures TestColumn(AtLeast, 77.0, true, RH_DAYS) == [No, Yes, No, Yes]
  {
  }

  /** A window of one day repeats the daily results. */
  lemma HumidityWindowOfOne()
    ensures Rolling(TestColumn(AtLeast, 77.0, true, RH_DAYS), 1) == [No, Yes, No, Yes]
  {
    RollingOfOne(TestColumn(AtLeast, 77.0, true, RH_DAYS));
    HumidityPerDay();
  }

  /** A window of three days: unknown while the history is short, then
      false because each window holds a false day. */
  lemma HumidityWindowOfThree()
    ensures Rolling(TestColumn(AtLeast, 77.0, true, RH_DAYS), 3) == [Unknown, Unknown, No, No]
  {
    var c := TestColumn(AtLeast, 77.0, true, RH_DAYS);
    HumidityPerDay();
    assert c == [No, Yes, No, Yes];
    var r := Rolling(c, 3);
    assert r[0] == Unknown && r[1] == Unknown;
    assert r[2] == No by {
      assert r[2] == WindowAll(c, 3, 2) && c[0] == No;
      assert forall j :: 0 <= j <= 2 ==> c[j] != Unknown;
    }
    assert r[3] == No by {
      assert r[3] == WindowAll(c, 3, 3) && c[2] == No;
      assert forall j :: 1 <= j <= 3 ==> c[j] != Unknown;
    }
  }

  /** A missing mean temperature is unknown under `Tx <= 30`, never false. */
  lemma MissingTemperature()
    ensures TestColumn(AtMost, 30.0, true, [None, Some(25.0), Some(26.0)]) == [Unknown, Yes, Yes]
  {
  }

  /** A date loaded twice keeps the values of its first row. */
  lemma RepeatedDateKeepsFirst(day: int)
    ensures Dedupe(Table([day, day, day + 1], map["RH" := [Some(81.0), Some(60.0), Some(79.0)]]))
      == Table([day, day + 1], map["RH" := [Some(81.0), Some(79.0)]])
  {
    var dates := [day, day, day + 1];
    var t := Table(dates, map["RH" := [Some(81.0), Some(60.0), Some(79.0)]]);
    assert dates[..1] == [day] && dates[..2] == [day, day];
    assert FirstOccurrences(dates, 3) == [0, 2];
    var r := Dedupe(t);
    assert r.dates == [day, day + 1];
    assert r.readings["RH"] == [Some(81.0), Some(79.0)];
  }

  /** The sentinel `-9.8` between 20 and 22 becomes their midpoint. */
  lemma SentinelInterpolated()
    ensures InterpolateColumn(ScrubColumn([Some(20.0), Some(-9.8), Some(22.0)]))
      == [Some(20.0), Some(21.0), Some(22.0)]
  {
    var col := ScrubColumn([Some(20.0), Some(-9.8), Some(22.0)]);
    assert col == [Some(20.0), None, Some(22.0)];
    assert PrevKnown(col, 1) == Some(0);
    assert NextKnown(col, 1) == Some(2);
    assert InsideAt(col, 1) == Some(21.0);
  }

  /** Interpolating between two known readings can land exactly on the
      sentinel code -9.8: the cleaned series may hold it again. */
  lemma InterpolationMeetsSentinel()
    ensures InterpolateColumn([Some(-5.0), None, Some(-14.6)])[1] == Some(-9.8)
  {
    var col := [Some(-5.0), None, Some(-14.6)];
    assert PrevKnown(col, 1) == Some(0);
    assert NextKnown(col, 1) == Some(2);
    assert InsideAt(col, 1) == Some(-9.8);
  }
}
