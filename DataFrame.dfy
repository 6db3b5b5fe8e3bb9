/** The pandas frame a classifier receives and annotates in place. */
module DataFrame {
  import opened Options
  import opened ThreeValued
  import opened Frames

  /** `df.loc[0, c] = NaN` applied to one column: the first row becomes
      missing and every other row keeps its value. */
  function WithFirstMissing(col: seq<Reading>): (r: seq<Reading>)
    ensures |r| == |col|
    ensures |col| > 0 ==> r[0] == None
    ensures forall i :: 1 <= i < |col| ==> r[i] == col[i]
  {
    if |col| == 0 then col else [None] + col[1..]
  }

  /** Column `c` of a frame's readings, or NaN throughout when the frame has
      no such column (assigning through `loc` creates it). */
  function ColumnOrMissing(readings: map<string, seq<Reading>>, c: string, n: nat): (col: seq<Reading>)
    requires c in readings ==> |readings[c]| == n
    ensures |col| == n
    ensures c in readings ==> col == readings[c]
    ensures c !in readings ==> forall i :: 0 <= i < n ==> col[i] == None
  {
    if c in readings then readings[c] else Missing(n)
  }

  /** A frame returned by `get_daily_weather`: the `Unnamed: 0` dates as day
      numbers, the reading columns, and the condition, rolling and flag
      columns a classifier adds to it. */
  class Frame {
    var dates: seq<int>
    var readings: map<string, seq<Reading>>
    var derived: map<string, seq<Tri>>

    ghost predicate Valid()
      reads this
    {
      && (forall c :: c in readings ==> |readings[c]| == |dates|)
      && (forall c :: c in derived ==> |derived[c]| == |dates|)
    }

    constructor (t: Table)
      requires t.Valid()
      ensures Valid()
      ensures dates == t.dates && readings == t.readings && derived == map[]
    {
      dates := t.dates;
      readings := t.readings;
      derived := map[];
    }

    /** `df.loc[0, c] = float("NaN")`. A frame without column `c` gains it,
        NaN throughout. */
    method ClearFirst(c: string)
      requires Valid()
      modifies this
      ensures Valid()
      ensures dates == old(dates) && derived == old(derived)
      ensures readings == old(readings)[c := WithFirstMissing(ColumnOrMissing(old(readings), c, |dates|))]
    {
      readings := readings[c := WithFirstMissing(ColumnOrMissing(readings, c, |dates|))];
    }

    /** `df[name] = col` for a derived column. */
    method Put(name: string, col: seq<Tri>)
      requires Valid() && |col| == |dates|
      modifies this
      ensures Valid()
      ensures dates == old(dates) && readings == old(readings)
      ensures derived == old(derived)[name := col]
    {
      derived := derived[name := col];
    }
  }
}
