/** Cleaning the readings of a daily table: sentinel codes become NaN, and
    NaN gaps are filled by linear interpolation over row positions, either
    only between two known values (`limit_area='inside'`) or also at the
    edges (`interpolate().ffill().bfill()`). */
module Cleaning {
  import opened Options
  import opened Frames

  /** The invalid-sensor codes: exactly -9.8 or -99.7, or anything below -99. */
  predicate IsSentinel(v: real) {
    v == -9.8 || v == -99.7 || v < -99.0
  }

  function ScrubReading(x: Reading): Reading {
    if x.Some? && IsSentinel(x.value) then None else x
  }

  function ScrubColumn(col: seq<Reading>): (r: seq<Reading>)
    ensures |r| == |col|
  {
    seq(|col|, i requires 0 <= i < |col| => ScrubReading(col[i]))
  }

  /** `df.replace(-9.8, NaN)`, `df.replace(-99.7, NaN)` and `mask(x < -99)`
      over every numeric column. */
  function Scrub(t: Table): (r: Table)
    requires t.Valid()
    ensures r.Valid()
  {
    Table(t.dates, map c | c in t.readings :: ScrubColumn(t.readings[c]))
  }

  /** Scrubbing turns exactly the sentinel readings into NaN, leaves every
      other cell as it was, keeps dates and columns, and leaves no sentinel. */
  lemma ScrubSpec(t: Table)
    requires t.Valid()
    ensures var r := Scrub(t);
      && r.dates == t.dates && r.readings.Keys == t.readings.Keys
      && (forall c, i :: c in t.readings && 0 <= i < |t.dates| ==>
            r.readings[c][i] == (if t.readings[c][i].Some? && IsSentinel(t.readings[c][i].value)
                                 then None else t.readings[c][i]))
      && (forall c, i :: c in r.readings && 0 <= i < |r.dates| && r.readings[c][i].Some? ==>
            !IsSentinel(r.readings[c][i].value))
      && Scrub(r) == r
  {
    var r := Scrub(t);
    var rr := Scrub(r);
    forall c | c in r.readings ensures rr.readings[c] == r.readings[c] {
      assert ScrubColumn(r.readings[c]) == r.readings[c];
    }
  }

  /** The nearest row before `k` with a known value. */
  function PrevKnown(col: seq<Reading>, k: nat): (j: Option<nat>)
    requires k <= |col|
    ensures j.Some? ==> j.value < k && col[j.value].Some? && forall m :: j.value < m < k ==> col[m].None?
    ensures j.None? ==> forall m :: 0 <= m < k ==> col[m].None?
    decreases k
  {
    if k == 0 then None
    else if col[k - 1].Some? then Some(k - 1)
    else PrevKnown(col, k - 1)
  }

  /** The nearest row after `k` with a known value. */
  function NextKnown(col: seq<Reading>, k: nat): (j: Option<nat>)
    requires k < |col|
    ensures j.Some? ==> k < j.value < |col| && col[j.value].Some? && forall m :: k < m < j.value ==> col[m].None?
    ensures j.None? ==> forall m :: k < m < |col| ==> col[m].None?
    decreases |col| - k
  {
    if k + 1 == |col| then None
    else if col[k + 1].Some? then Some(k + 1)
    else NextKnown(col, k + 1)
  }

  /** The point a fraction `t` of the way from `a` to `b`. */
  function Along(a: real, b: real, t: real): real {
    a + (b - a) * t
  }

  /** The point at row `k` on the line through `(i, a)` and `(j, b)`. */
  function Lerp(a: real, b: real, i: int, j: int, k: int): real
    requires i < j
  {
    Along(a, b, (k - i) as real / (j - i) as real)
  }

  /** A product of non-negative factors is non-negative. */
  lemma NonNegProduct(x: real, y: real)
    requires 0.0 <= x && 0.0 <= y
    ensures 0.0 <= x * y
  {
  }

  /** Moving a fraction `t` of the way from `a` to `b` stays between them,
      and the ends of the way are `a` and `b`. */
  lemma AlongBetween(a: real, b: real, t: real)
    requires 0.0 <= t <= 1.0
    ensures Along(a, b, 0.0) == a && Along(a, b, 1.0) == b
    ensures a <= b ==> a <= Along(a, b, t) <= b
    ensures b < a ==> b <= Along(a, b, t) <= a
  {
    if a <= b {
      NonNegProduct(b - a, t);
      NonNegProduct(b - a, 1.0 - t);
      assert (b - a) * (1.0 - t) == (b - a) - (b - a) * t;
    } else {
      NonNegProduct(a - b, t);
      NonNegProduct(a - b, 1.0 - t);
      assert (a - b) * t == -((b - a) * t);
      assert (a - b) * (1.0 - t) == (a - b) - (a - b) * t;
    }
  }

  /** A part of a positive whole is a fraction between 0 and 1; nothing is
      0 of it and all of it is 1. */
  lemma RatioBetween(n: real, d: real)
    requires 0.0 <= n <= d && 0.0 < d
    ensures 0.0 <= n / d <= 1.0
    ensures 0.0 / d == 0.0 && d / d == 1.0
  {
    var t := n / d;
    assert t * d == n;
    NonNegProduct(d - n, 1.0 / d);
    assert (d - n) * (1.0 / d) == 1.0 - t;
  }

  /** A value interpolated between two neighbours lies between them, and the
      line passes through both neighbours. */
  lemma LerpBetween(a: real, b: real, i: int, j: int, k: int)
    requires i <= k <= j && i < j
    ensures Lerp(a, b, i, j, i) == a && Lerp(a, b, i, j, j) == b
    ensures (if a <= b then a else b) <= Lerp(a, b, i, j, k) <= (if a <= b then b else a)
  {
    var n, d := (k - i) as real, (j - i) as real;
    RatioBetween(n, d);
    AlongBetween(a, b, n / d);
    assert (i - i) as real == 0.0 && (j - i) as real == d;
  }

  /** Row `k` after `interpolate(method='linear', limit_area='inside')`. */
  function InsideAt(col: seq<Reading>, k: nat): Reading
    requires k < |col|
  {
    if col[k].Some? then col[k]
    else match PrevKnown(col, k)
      case None => None
      case Some(i) =>
        match NextKnown(col, k)
        case None => None
        case Some(j) => Some(Lerp(col[i].value, col[j].value, i, j, k))
  }

  function InterpolateColumn(col: seq<Reading>): (r: seq<Reading>)
    ensures |r| == |col|
  {
    seq(|col|, k requires 0 <= k < |col| => InsideAt(col, k))
  }

  /** `df.interpolate(method='linear', axis=0, limit_area='inside')`. */
  function InterpolateInside(t: Table): (r: Table)
    requires t.Valid()
    ensures r.Valid() && r.dates == t.dates && r.readings.Keys == t.readings.Keys
  {
    Table(t.dates, map c | c in t.readings :: InterpolateColumn(t.readings[c]))
  }

  /** `i` and `j` bound a run of NaN rows that contains `k`. */
  predicate Brackets(col: seq<Reading>, i: int, k: int, j: int) {
    0 <= i < k < j < |col| && col[i].Some? && col[j].Some?
    && forall m :: i < m < j ==> col[m].None?
  }

  lemma BracketsAreNearest(col: seq<Reading>, i: int, k: int, j: int)
    requires Brackets(col, i, k, j)
    ensures PrevKnown(col, k) == Some(i) && NextKnown(col, k) == Some(j)
  {
  }

  /** Inside interpolation keeps every known value, fills a NaN row that has
      a known value on both sides with the point on the line between those
      two neighbours (so between their values), and leaves leading and
      trailing NaN runs unfilled. */
  lemma InterpolateColumnSpec(col: seq<Reading>)
    ensures var r := InterpolateColumn(col);
      && (forall k :: 0 <= k < |col| && col[k].Some? ==> r[k] == col[k])
      && (forall i, k, j :: Brackets(col, i, k, j) ==>
            r[k] == Some(Lerp(col[i].value, col[j].value, i, j, k))
            && (if col[i].value <= col[j].value then col[i].value else col[j].value) <= r[k].value
            && r[k].value <= (if col[i].value <= col[j].value then col[j].value else col[i].value))
      && (forall k :: 0 <= k < |col| && (forall m :: 0 <= m <= k ==> col[m].None?) ==> r[k].None?)
      && (forall k :: 0 <= k < |col| && (forall m :: k <= m < |col| ==> col[m].None?) ==> r[k].None?)
  {
    var r := InterpolateColumn(col);
    forall i, k, j | Brackets(col, i, k, j)
      ensures r[k] == Some(Lerp(col[i].value, col[j].value, i, j, k))
      ensures (if col[i].value <= col[j].value then col[i].value else col[j].value) <= r[k].value
      ensures r[k].value <= (if col[i].value <= col[j].value then col[j].value else col[i].value)
    {
      BracketsAreNearest(col, i, k, j);
      LerpBetween(col[i].value, col[j].value, i, j, k);
    }
  }

  /** Inside interpolation never goes below a floor that every known value
      respects: each filled value lies between two known ones. */
  lemma InterpolateKeepsFloor(col: seq<Reading>, floor: real)
    requires forall k :: 0 <= k < |col| && col[k].Some? ==> floor <= col[k].value
    ensures forall k :: 0 <= k < |col| && InterpolateColumn(col)[k].Some? ==>
      floor <= InterpolateColumn(col)[k].value
  {
    var r := InterpolateColumn(col);
    forall k | 0 <= k < |col| && r[k].Some? ensures floor <= r[k].value {
      if col[k].None? {
        var i := PrevKnown(col, k).value;
        var j := NextKnown(col, k).value;
        LerpBetween(col[i].value, col[j].value, i, j, k);
      }
    }
  }

  /** Scrubbing then inside interpolation keeps a known, non-sentinel cell
      as it was, and leaves no known cell below -99. */
  lemma CleanInsideCell(t: Table, c: string, i: int)
    requires t.Valid() && c in t.readings && 0 <= i < |t.dates|
    ensures var v := t.readings[c][i]; var w := InterpolateInside(Scrub(t)).readings[c][i];
      && (v.Some? && !IsSentinel(v.value) ==> w == v)
      && (w.Some? ==> -99.0 <= w.value)
  {
    var col := ScrubColumn(t.readings[c]);
    assert Scrub(t).readings[c] == col;
    assert InterpolateInside(Scrub(t)).readings[c] == InterpolateColumn(col);
    assert col[i] == ScrubReading(t.readings[c][i]);
    forall k | 0 <= k < |col| && col[k].Some? ensures -99.0 <= col[k].value {
      assert col[k] == ScrubReading(t.readings[c][k]);
    }
    InterpolateColumnSpec(col);
    InterpolateKeepsFloor(col, -99.0);
  }

  /** Interpolating an interpolated column changes nothing: no gap that
      could be filled is left. */
  lemma InterpolateColumnIdempotent(col: seq<Reading>)
    ensures InterpolateColumn(InterpolateColumn(col)) == InterpolateColumn(col)
  {
    var r := InterpolateColumn(col);
    forall k | 0 <= k < |r| ensures InsideAt(r, k) == r[k] {
      if r[k].None? {
        assert col[k].None?;
        if PrevKnown(col, k).None? {
          forall m | 0 <= m < k ensures r[m].None? {
            assert PrevKnown(col, m).None?;
          }
          assert PrevKnown(r, k).None?;
        } else {
          assert NextKnown(col, k).None?;
          forall m | k < m < |r| ensures r[m].None? {
            assert NextKnown(col, m).None?;
          }
          assert NextKnown(r, k).None?;
        }
      }
    }
  }

  /** Row `k` after `interpolate(method='linear').ffill().bfill()`. */
  function FillAt(col: seq<Reading>, k: nat): Reading
    requires k < |col|
  {
    if col[k].Some? then col[k]
    else match (PrevKnown(col, k), NextKnown(col, k))
      case (Some(i), Some(j)) => Some(Lerp(col[i].value, col[j].value, i, j, k))
      case (Some(i), None) => col[i]
      case (None, Some(j)) => col[j]
      case (None, None) => None
  }

  function FillColumn(col: seq<Reading>): (r: seq<Reading>)
    ensures |r| == |col|
  {
    seq(|col|, k requires 0 <= k < |col| => FillAt(col, k))
  }

  /** `df.interpolate(method='linear', axis=0).ffill().bfill()`. */
  function FillGaps(t: Table): (r: Table)
    requires t.Valid()
    ensures r.Valid() && r.dates == t.dates && r.readings.Keys == t.readings.Keys
  {
    Table(t.dates, map c | c in t.readings :: FillColumn(t.readings[c]))
  }

  /** Full filling agrees with inside interpolation wherever that yields a
      value, copies the first known value into the leading run and the last
      known value into the trailing run, and leaves no NaN in a column that
      has at least one known value; an all-NaN column stays all NaN. */
  lemma FillColumnSpec(col: seq<Reading>)
    ensures var r := FillColumn(col);
      && (forall k :: 0 <= k < |col| && InterpolateColumn(col)[k].Some? ==> r[k] == InterpolateColumn(col)[k])
      && (forall j, k :: 0 <= k < j < |col| && col[j].Some? && (forall m :: 0 <= m < j ==> col[m].None?) ==>
            r[k] == col[j])
      && (forall i, k :: 0 <= i < k < |col| && col[i].Some? && (forall m :: i < m < |col| ==> col[m].None?) ==>
            r[k] == col[i])
      && ((exists m :: 0 <= m < |col| && col[m].Some?) ==> forall k :: 0 <= k < |col| ==> r[k].Some?)
      && ((forall m :: 0 <= m < |col| ==> col[m].None?) ==> r == col)
  {
    var r := FillColumn(col);
    forall j, k | 0 <= k < j < |col| && col[j].Some? && (forall m :: 0 <= m < j ==> col[m].None?)
      ensures r[k] == col[j]
    {
      assert PrevKnown(col, k).None?;
      assert NextKnown(col, k) == Some(j);
    }
    forall i, k | 0 <= i < k < |col| && col[i].Some? && (forall m :: i < m < |col| ==> col[m].None?)
      ensures r[k] == col[i]
    {
      assert PrevKnown(col, k) == Some(i);
    }
    if exists m :: 0 <= m < |col| && col[m].Some? {
      forall k | 0 <= k < |col| ensures r[k].Some? {
        if col[k].None? && PrevKnown(col, k).None? {
          var m :| 0 <= m < |col| && col[m].Some?;
          assert k < m;
          assert NextKnown(col, k).Some?;
        }
      }
    }
  }

  /** Filling every gap never goes below a floor that every known value
      respects: a filled value is a known one or lies between two. */
  lemma FillKeepsFloor(col: seq<Reading>, floor: real)
    requires forall k :: 0 <= k < |col| && col[k].Some? ==> floor <= col[k].value
    ensures forall k :: 0 <= k < |col| && FillColumn(col)[k].Some? ==> floor <= FillColumn(col)[k].value
  {
    var r := FillColumn(col);
    forall k | 0 <= k < |col| && r[k].Some? ensures floor <= r[k].value {
      if col[k].None? && PrevKnown(col, k).Some? && NextKnown(col, k).Some? {
        var i := PrevKnown(col, k).value;
        var j := NextKnown(col, k).value;
        LerpBetween(col[i].value, col[j].value, i, j, k);
      }
    }
  }

  /** Scrubbing then filling every gap keeps a known, non-sentinel cell as
      it was, and leaves no known cell below -99. */
  lemma CleanFillCell(t: Table, c: string, i: int)
    requires t.Valid() && c in t.readings && 0 <= i < |t.dates|
    ensures var v := t.readings[c][i]; var w := FillGaps(Scrub(t)).readings[c][i];
      && (v.Some? && !IsSentinel(v.value) ==> w == v)
      && (w.Some? ==> -99.0 <= w.value)
  {
    var col := ScrubColumn(t.readings[c]);
    assert Scrub(t).readings[c] == col;
    assert FillGaps(Scrub(t)).readings[c] == FillColumn(col);
    assert col[i] == ScrubReading(t.readings[c][i]);
    forall k | 0 <= k < |col| && col[k].Some? ensures -99.0 <= col[k].value {
      assert col[k] == ScrubReading(t.readings[c][k]);
    }
    FillKeepsFloor(col, -99.0);
  }
}
