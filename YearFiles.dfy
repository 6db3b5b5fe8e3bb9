/** The year files of one station and what the year loops of
    `get_daily_weather` build from them. A file that `pd.read_csv` cannot
    read is a year absent from the store. */
module YearFiles {
  import opened Options
  import opened Frames

  type Store = map<int, RawTable>

  predicate ValidStore(store: Store) {
    forall y :: y in store ==> store[y].Valid()
  }

  /** The years of `range(lo, hi + 1)` whose file can be read, in order. */
  function ReadableYears(store: Store, lo: int, hi: int): (ys: seq<int>)
    ensures forall k :: 0 <= k < |ys| ==> lo <= ys[k] <= hi && ys[k] in store
    decreases hi - lo
  {
    if hi < lo then []
    else ReadableYears(store, lo, hi - 1) + (if hi in store then [hi] else [])
  }

  /** Exactly the readable years of the span, each once, in increasing order. */
  lemma {:induction false} ReadableYearsSpec(store: Store, lo: int, hi: int)
    ensures var ys := ReadableYears(store, lo, hi);
      && StrictlyIncreasing(ys)
      && forall y :: y in ys <==> lo <= y <= hi && y in store
    decreases hi - lo
  {
    if hi >= lo {
      ReadableYearsSpec(store, lo, hi - 1);
    }
  }

  /** The date cells of the files of years `ys`, one file after another. */
  function DatesOf(store: Store, ys: seq<int>): seq<Option<int>>
    requires forall k :: 0 <= k < |ys| ==> ys[k] in store
  {
    if ys == [] then [] else DatesOf(store, ys[..|ys| - 1]) + store[ys[|ys| - 1]].dates
  }

  /** Column `c` of the files of years `ys`, NaN for a file lacking it. */
  function ColumnOf(store: Store, ys: seq<int>, c: string): (s: seq<Reading>)
    requires ValidStore(store) && forall k :: 0 <= k < |ys| ==> ys[k] in store
    ensures |s| == |DatesOf(store, ys)|
  {
    if ys == [] then []
    else
      var y := ys[|ys| - 1];
      assert store[y].Valid();
      ColumnOf(store, ys[..|ys| - 1], c) + ColumnOr(store[y], c)
  }

  lemma SnocYears(store: Store, ys: seq<int>, y: int)
    requires ValidStore(store) && (forall k :: 0 <= k < |ys| ==> ys[k] in store) && y in store
    ensures DatesOf(store, ys + [y]) == DatesOf(store, ys) + store[y].dates
    ensures forall c :: ColumnOf(store, ys + [y], c) == ColumnOf(store, ys, c) + ColumnOr(store[y], c)
  {
    assert (ys + [y])[..|ys|] == ys;
  }

  /** A column no file of `ys` has (with rows) is NaN throughout. */
  lemma {:induction false} AbsentColumn(store: Store, ys: seq<int>, c: string)
    requires ValidStore(store) && forall k :: 0 <= k < |ys| ==> ys[k] in store
    requires forall k :: 0 <= k < |ys| ==> c !in store[ys[k]].readings || |store[ys[k]].dates| == 0
    ensures ColumnOf(store, ys, c) == Missing(|DatesOf(store, ys)|)
  {
    if ys != [] {
      var init := ys[..|ys| - 1];
      AbsentColumn(store, init, c);
      var y := ys[|ys| - 1];
      assert ColumnOf(store, ys, c) == ColumnOf(store, init, c) + ColumnOr(store[y], c);
      assert ColumnOr(store[y], c) == Missing(|store[y].dates|);
    }
  }

  /** `df = pd.concat([df, temp_df]) if not df.empty else temp_df`. */
  function Append(acc: RawTable, file: RawTable): (r: RawTable)
    requires acc.Valid() && file.Valid()
    ensures r.Valid()
    ensures r.dates == acc.dates + file.dates
    ensures |acc.dates| == 0 ==> r == file
    ensures |acc.dates| > 0 ==> r.readings.Keys == acc.readings.Keys + file.readings.Keys
  {
    if |acc.dates| == 0 then file else Concat(acc, file)
  }

  /** The frame after the years `lo..hi` of the loop in `BlastDT2.py` and
      `BlastDT3.py`: unreadable years are skipped. */
  function Accumulate(store: Store, lo: int, hi: int): (r: RawTable)
    requires ValidStore(store)
    ensures r.Valid()
    decreases hi - lo
  {
    if hi < lo then NO_ROWS
    else
      var acc := Accumulate(store, lo, hi - 1);
      if hi in store then Append(acc, store[hi]) else acc
  }

  /** Every readable year of the span contributes its rows, in year order,
      and no other year does. */
  lemma {:induction false} AccumulateRows(store: Store, lo: int, hi: int)
    requires ValidStore(store)
    ensures Accumulate(store, lo, hi).dates == DatesOf(store, ReadableYears(store, lo, hi))
    decreases hi - lo
  {
    if hi >= lo {
      AccumulateRows(store, lo, hi - 1);
      var prev := ReadableYears(store, lo, hi - 1);
      var acc := Accumulate(store, lo, hi - 1);
      if hi in store {
        assert ReadableYears(store, lo, hi) == prev + [hi];
        SnocYears(store, prev, hi);
        assert Accumulate(store, lo, hi) == Append(acc, store[hi]);
        if |acc.dates| == 0 {
          assert DatesOf(store, prev) == [];
        }
      } else {
        assert ReadableYears(store, lo, hi) == prev;
      }
    }
  }

  /** Each column of the result holds, row for row, that column of the
      readable years' files, NaN where a file lacks it. */
  lemma {:induction false} AccumulateValues(store: Store, lo: int, hi: int)
    requires ValidStore(store)
    ensures var r := Accumulate(store, lo, hi); var ys := ReadableYears(store, lo, hi);
      forall c :: c in r.readings ==> r.readings[c] == ColumnOf(store, ys, c)
    decreases hi - lo
  {
    if hi >= lo {
      AccumulateValues(store, lo, hi - 1);
      AccumulateRows(store, lo, hi - 1);
      AccumulateColumns(store, lo, hi - 1);
      var prev := ReadableYears(store, lo, hi - 1);
      var acc := Accumulate(store, lo, hi - 1);
      var ys := ReadableYears(store, lo, hi);
      var r := Accumulate(store, lo, hi);
      if hi in store {
        assert ys == prev + [hi];
        SnocYears(store, prev, hi);
        assert r == Append(acc, store[hi]);
        if |acc.dates| == 0 {
          EmptyColumns(store, prev);
        } else {
          forall c | c in r.readings
            ensures r.readings[c] == ColumnOf(store, ys, c)
          {
            if c !in acc.readings {
              AbsentColumn(store, prev, c);
            }
          }
        }
      } else {
        assert ys == prev;
      }
    }
  }

  /** The columns of every readable year with at least one row are columns
      of the result (a year without rows may lose its columns to the
      `df.empty` test). */
  lemma {:induction false} AccumulateColumns(store: Store, lo: int, hi: int)
    requires ValidStore(store)
    ensures var r := Accumulate(store, lo, hi); var ys := ReadableYears(store, lo, hi);
      forall k, c :: 0 <= k < |ys| && |store[ys[k]].dates| > 0 && c in store[ys[k]].readings ==>
        c in r.readings
    decreases hi - lo
  {
    if hi >= lo {
      AccumulateColumns(store, lo, hi - 1);
      AccumulateRows(store, lo, hi - 1);
      var prev := ReadableYears(store, lo, hi - 1);
      var acc := Accumulate(store, lo, hi - 1);
      if hi in store && |acc.dates| == 0 {
        EmptyColumns(store, prev);
      }
    }
  }

  lemma {:induction false} EmptyColumns(store: Store, ys: seq<int>)
    requires ValidStore(store) && forall k :: 0 <= k < |ys| ==> ys[k] in store
    requires |DatesOf(store, ys)| == 0
    ensures forall c :: ColumnOf(store, ys, c) == []
    ensures forall k :: 0 <= k < |ys| ==> |store[ys[k]].dates| == 0
  {
    if ys != [] {
      var init := ys[..|ys| - 1];
      EmptyColumns(store, init);
      forall k | 0 <= k < |ys| ensures |store[ys[k]].dates| == 0 {
        if k < |ys| - 1 {
          assert ys[k] == init[k];
        }
      }
    }
  }

  /** The `df` of the loop in `blast_predict_nian.py` after years `lo..hi`:
      `None` while the name is unbound. The first year assigns `df`; a later
      year concatenates onto it, which raises `NameError` (caught and
      skipped) when the first year's file could not be read. */
  function NianAccumulate(store: Store, lo: int, hi: int): (r: Option<RawTable>)
    requires ValidStore(store)
    ensures r.Some? ==> r.value.Valid()
    decreases hi - lo
  {
    if hi < lo then None
    else if hi == lo then (if lo in store then Some(store[lo]) else None)
    else
      var acc := NianAccumulate(store, lo, hi - 1);
      if acc.Some? && hi in store then Some(Concat(acc.value, store[hi])) else acc
  }

  /** If the first year's file cannot be read, `df` is never bound, whatever
      the later years hold. */
  lemma {:induction false} NianUnboundWithoutFirstYear(store: Store, lo: int, hi: int)
    requires ValidStore(store) && lo !in store
    ensures NianAccumulate(store, lo, hi) == None
    decreases hi - lo
  {
    if hi > lo {
      NianUnboundWithoutFirstYear(store, lo, hi - 1);
    }
  }

  /** With the first year's file readable, every readable year contributes
      its rows and its columns, in year order. */
  lemma {:induction false} NianAccumulateRows(store: Store, lo: int, hi: int)
    requires ValidStore(store) && lo in store && lo <= hi
    ensures var r := NianAccumulate(store, lo, hi); var ys := ReadableYears(store, lo, hi);
      && r.Some?
      && r.value.dates == DatesOf(store, ys)
      && (forall c :: c in r.value.readings ==> r.value.readings[c] == ColumnOf(store, ys, c))
      && (forall k, c :: 0 <= k < |ys| && c in store[ys[k]].readings ==> c in r.value.readings)
    decreases hi - lo
  {
    var ys := ReadableYears(store, lo, hi);
    if hi > lo {
      NianAccumulateRows(store, lo, hi - 1);
      var prev := ReadableYears(store, lo, hi - 1);
      var acc := NianAccumulate(store, lo, hi - 1).value;
      if hi in store {
        SnocYears(store, prev, hi);
        assert ys == prev + [hi];
        var r := NianAccumulate(store, lo, hi).value;
        assert r == Concat(acc, store[hi]);
        forall c | c in r.readings
          ensures r.readings[c] == ColumnOf(store, ys, c)
        {
          if c !in acc.readings {
            AbsentColumn(store, prev, c);
          }
        }
        forall k, c | 0 <= k < |ys| && c in store[ys[k]].readings
          ensures c in NianAccumulate(store, lo, hi).value.readings
        {
          if k < |prev| {
            assert ys[k] == prev[k];
          }
        }
      } else {
        assert ys == prev;
      }
    } else {
      assert ReadableYears(store, lo, hi - 1) == [];
      assert ys == [lo];
      SnocYears(store, [], lo);
    }
  }
}
