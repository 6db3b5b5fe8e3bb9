/** `consolidate_daily.py`: the per-station prediction tables of each
    version are checked, their rows regrouped by date, and one table per
    date written, sorted by station id. The folder walk and the CSV reads
    are replaced by a list of tables per version folder (`None` for a file
    `read_csv` cannot read); the date parser `pd.to_datetime` is a
    parameter. */
module ConsolidateDaily {
  import opened Options
  import opened Calendar
  import opened Text

  const DATE := "Date"
  const DATE_ZH := "日期"
  const STATION := "站號"
  const NAME := "站名"
  const LAT := "lat"
  const LON := "lon"

  /** The version folders and their forecast columns, in dictionary order. */
  const VERSIONS: seq<(string, string)> :=
    [("prediction", "BlastDT"), ("prediction_BlastDT2", "BlastDT2"), ("prediction_BlastDT3", "BlastDT3")]

  /** One CSV row: cell text by column name. */
  type Row = map<string, string>

  datatype CsvTable = CsvTable(columns: set<string>, rows: seq<Row>) {
    predicate Valid() {
      forall i :: 0 <= i < |rows| ==> rows[i].Keys == columns
    }
  }

  /** A row of a per-date output table, in its column order
      `[站號, 站名, 日期, lat, lon, forecast]`. */
  datatype OutRow = OutRow(station: string, name: string, date: string, lat: string, lon: string, forecast: string)

  datatype OutFile = OutFile(name: string, rows: seq<OutRow>)

  /** `pd.to_datetime(..., errors="coerce")` on one cell: `None` for NaT. */
  type DateParser = string -> Option<CivilDate>

  predicate ValidFiles(files: seq<Option<CsvTable>>) {
    forall i :: 0 <= i < |files| && files[i].Some? ==> files[i].value.Valid()
  }

  /** `df.rename(columns={"Date": "日期"})` when a `Date` column exists. */
  function RenameDate(t: CsvTable): (r: CsvTable)
    requires t.Valid()
    ensures r.Valid() && |r.rows| == |t.rows|
    ensures DATE in t.columns ==> r.columns == t.columns - {DATE} + {DATE_ZH}
    ensures DATE in t.columns ==> forall i :: 0 <= i < |t.rows| ==> r.rows[i][DATE_ZH] == t.rows[i][DATE]
    ensures DATE !in t.columns ==> r == t
  {
    if DATE in t.columns then
      CsvTable(t.columns - {DATE} + {DATE_ZH},
               seq(|t.rows|, i requires 0 <= i < |t.rows| => (t.rows[i] - {DATE})[DATE_ZH := t.rows[i][DATE]]))
    else t
  }

  /** `required_cols`: the columns a table must have. */
  function Required(col: string): set<string> {
    {STATION, NAME, DATE_ZH, LAT, LON, col}
  }

  /** The checks a table passes to be used: a date column under either name,
      the version's forecast column, and every required column. */
  predicate Admissible(t: CsvTable, col: string)
    requires t.Valid()
    ensures Admissible(t, col) ==> DATE_ZH in RenameDate(t).columns && col in RenameDate(t).columns
  {
    && (DATE in t.columns || DATE_ZH in t.columns)
    && col in RenameDate(t).columns
    && Required(col) <= RenameDate(t).columns
  }

  predicate HasRequired(rows: seq<Row>, col: string) {
    forall i :: 0 <= i < |rows| ==> Required(col) <= rows[i].Keys
  }

  ghost predicate IsIsoDate(s: string) {
    exists d: CivilDate :: s == Iso(d)
  }

  /** A row reduced to the output columns, its date written as `%Y-%m-%d`. */
  function Project(row: Row, col: string, d: CivilDate): OutRow
    requires Required(col) <= row.Keys
  {
    OutRow(row[STATION], row[NAME], Iso(d), row[LAT], row[LON], row[col])
  }

  /** The rows whose date parses, in order, reduced to the output columns. */
  function Survivors(rows: seq<Row>, col: string, parse: DateParser): (r: seq<OutRow>)
    requires HasRequired(rows, col)
    ensures |r| <= |rows|
    ensures forall k :: 0 <= k < |r| ==> IsIsoDate(r[k].date)
  {
    if rows == [] then []
    else
      var init := rows[..|rows| - 1];
      var row := rows[|rows| - 1];
      var kept := Survivors(init, col, parse);
      match parse(row[DATE_ZH])
      case None => kept
      case Some(d) => kept + [Project(row, col, d)]
  }

  /** Every input row whose date parses survives, projected. */
  lemma {:induction false} SurvivorsComplete(rows: seq<Row>, col: string, parse: DateParser, i: int)
    requires HasRequired(rows, col) && 0 <= i < |rows| && parse(rows[i][DATE_ZH]).Some?
    ensures Project(rows[i], col, parse(rows[i][DATE_ZH]).value) in Survivors(rows, col, parse)
  {
    var init := rows[..|rows| - 1];
    if i < |init| {
      assert init[i] == rows[i];
      SurvivorsComplete(init, col, parse, i);
    }
  }

  /** Every surviving row is the projection of an input row whose date
      parses. */
  lemma {:induction false} SurvivorsSound(rows: seq<Row>, col: string, parse: DateParser, e: OutRow)
    requires HasRequired(rows, col) && e in Survivors(rows, col, parse)
    ensures exists i :: (0 <= i < |rows| && parse(rows[i][DATE_ZH]).Some? &&
                         e == Project(rows[i], col, parse(rows[i][DATE_ZH]).value))
  {
    var init := rows[..|rows| - 1];
    var row := rows[|rows| - 1];
    if e in Survivors(init, col, parse) {
      SurvivorsSound(init, col, parse, e);
      var i :| 0 <= i < |init| && parse(init[i][DATE_ZH]).Some? &&
               e == Project(init[i], col, parse(init[i][DATE_ZH]).value);
      assert init[i] == rows[i];
    } else {
      assert e == Project(row, col, parse(row[DATE_ZH]).value);
    }
  }

  /** `df_subset` after the date filter, or `None` when the table is
      skipped. */
  function Subset(t: CsvTable, col: string, parse: DateParser): (r: Option<seq<OutRow>>)
    requires t.Valid()
    ensures r.Some? <==> Admissible(t, col)
    ensures r.Some? ==> |r.value| <= |t.rows| && forall k :: 0 <= k < |r.value| ==> IsIsoDate(r.value[k].date)
  {
    if !Admissible(t, col) then None
    else
      var u := RenameDate(t);
      assert HasRequired(u.rows, col);
      Some(Survivors(u.rows, col, parse))
  }

  /** Every row appended to the buckets of one version, in encounter order. */
  function Entries(files: seq<Option<CsvTable>>, col: string, parse: DateParser): (r: seq<OutRow>)
    requires ValidFiles(files)
    ensures forall k :: 0 <= k < |r| ==> IsIsoDate(r[k].date)
  {
    if files == [] then []
    else
      var init := Entries(files[..|files| - 1], col, parse);
      var f := files[|files| - 1];
      if f.None? then init
      else match Subset(f.value, col, parse)
        case None => init
        case Some(rows) => init + rows
  }

  /** The keys of `daily_data` in insertion order: each date once, in the
      order it was first met. */
  function Keys(rows: seq<OutRow>): (ks: seq<string>)
    ensures rows == [] <==> ks == []
  {
    if rows == [] then []
    else
      var keys := Keys(rows[..|rows| - 1]);
      var d := rows[|rows| - 1].date;
      if d in keys then keys else keys + [d]
  }

  /** `daily_data[date]`: the rows of that date, in encounter order. */
  function Bucket(rows: seq<OutRow>, date: string): (b: seq<OutRow>)
    ensures |b| <= |rows|
  {
    if rows == [] then []
    else Bucket(rows[..|rows| - 1], date) + (if rows[|rows| - 1].date == date then [rows[|rows| - 1]] else [])
  }

  /** Each date enters the keys once. */
  lemma {:induction false} KeysDistinct(rows: seq<OutRow>)
    ensures forall p, q :: 0 <= p < q < |Keys(rows)| ==> Keys(rows)[p] != Keys(rows)[q]
  {
    if rows != [] {
      KeysDistinct(rows[..|rows| - 1]);
    }
  }

  /** The keys are exactly the dates of the rows. */
  lemma {:induction false} KeysAreDates(rows: seq<OutRow>, d: string)
    ensures d in Keys(rows) <==> exists i :: 0 <= i < |rows| && rows[i].date == d
  {
    if rows != [] {
      var init := rows[..|rows| - 1];
      KeysAreDates(init, d);
      if d in Keys(init) {
        var i :| 0 <= i < |init| && init[i].date == d;
        assert rows[i].date == d;
      }
      if exists i :: 0 <= i < |rows| && rows[i].date == d {
        var i :| 0 <= i < |rows| && rows[i].date == d;
        if i < |init| {
          assert init[i].date == d;
        }
      }
    }
  }

  /** The bucket of a date holds each row of that date as often as it
      occurs, and nothing else. */
  lemma {:induction false} BucketCount(rows: seq<OutRow>, d: string, e: OutRow)
    ensures multiset(Bucket(rows, d))[e] == if e.date == d then multiset(rows)[e] else 0
  {
    if rows != [] {
      var init := rows[..|rows| - 1];
      BucketCount(init, d, e);
      assert rows == init + [rows[|rows| - 1]];
    }
  }

  /** A string that is no key has an empty bucket. */
  lemma {:induction false} BucketOfNonKey(rows: seq<OutRow>, d: string)
    requires d !in Keys(rows)
    ensures Bucket(rows, d) == []
  {
    if rows != [] {
      BucketOfNonKey(rows[..|rows| - 1], d);
    }
  }

  /** Every row lands in exactly one bucket: the one of its date, which is
      a key. */
  lemma RowFiled(entries: seq<OutRow>, i: int)
    requires 0 <= i < |entries|
    ensures entries[i].date in Keys(entries)
    ensures forall d :: entries[i] in Bucket(entries, d) <==> d == entries[i].date
  {
    KeysAreDates(entries, entries[i].date);
    forall d ensures entries[i] in Bucket(entries, d) <==> d == entries[i].date {
      BucketCount(entries, d, entries[i]);
    }
  }

  /** A key is the ISO string of some day, and its file is named after the
      `%Y%m%d` form of that day. */
  lemma KeyFileName(entries: seq<OutRow>, key: string, col: string)
    requires forall k :: 0 <= k < |entries| ==> IsIsoDate(entries[k].date)
    requires key in Keys(entries)
    ensures exists d: CivilDate :: key == Iso(d) && FileName(key, col) == Compact(d) + "_" + col + ".csv"
  {
    KeysAreDates(entries, key);
    var i :| 0 <= i < |entries| && entries[i].date == key;
    assert IsIsoDate(entries[i].date);
    var d: CivilDate :| key == Iso(d);
    CompactIsIsoWithoutDashes(d);
  }

  /** The dictionary the row loop builds, as keys in insertion order plus
      the map from each key to its bucket. */
  ghost predicate Grouped(keys: seq<string>, daily: map<string, seq<OutRow>>, rows: seq<OutRow>) {
    && keys == Keys(rows)
    && (forall d :: d in daily <==> d in keys)
    && (forall d :: d in daily ==> daily[d] == Bucket(rows, d))
  }

  /** Appending one row to its date's bucket keeps the dictionary in step
      with the rows seen. */
  lemma AppendRow(keys: seq<string>, daily: map<string, seq<OutRow>>, rows: seq<OutRow>, x: OutRow,
                  keys': seq<string>, daily': map<string, seq<OutRow>>)
    requires Grouped(keys, daily, rows)
    requires keys' == if x.date in daily then keys else keys + [x.date]
    requires daily' == daily[x.date := (if x.date in daily then daily[x.date] else []) + [x]]
    ensures Grouped(keys', daily', rows + [x])
  {
    var all := rows + [x];
    assert all[..|all| - 1] == rows;
    if x.date !in daily {
      BucketOfNonKey(rows, x.date);
    }
    forall d | d in daily' ensures daily'[d] == Bucket(all, d) {
      assert Bucket(all, d) == Bucket(rows, d) + (if x.date == d then [x] else []);
    }
  }

  predicate SortedByStation(rows: seq<OutRow>) {
    forall p, q :: 0 <= p < q < |rows| ==> LexLe(rows[p].station, rows[q].station)
  }

  /** `x` placed before the first row of `s` whose station id is not
      smaller. */
  function Insert(x: OutRow, s: seq<OutRow>): (r: seq<OutRow>)
    ensures |r| == |s| + 1 && x in r
  {
    if s == [] then [x]
    else if LexLe(x.station, s[0].station) then [x] + s
    else [s[0]] + Insert(x, s[1..])
  }

  lemma {:induction false} InsertPermutes(x: OutRow, s: seq<OutRow>)
    ensures multiset(Insert(x, s)) == multiset(s) + multiset{x}
  {
    if s != [] && !LexLe(x.station, s[0].station) {
      InsertPermutes(x, s[1..]);
      assert s == [s[0]] + s[1..];
    }
  }

  /** No station id in `s` is smaller than `b`. */
  predicate AllFrom(b: string, s: seq<OutRow>) {
    forall k :: 0 <= k < |s| ==> LexLe(b, s[k].station)
  }

  lemma {:induction false} InsertKeepsBound(x: OutRow, s: seq<OutRow>, b: string)
    requires AllFrom(b, s) && LexLe(b, x.station)
    ensures AllFrom(b, Insert(x, s))
  {
    if s != [] && !LexLe(x.station, s[0].station) {
      InsertKeepsBound(x, s[1..], b);
      var r := Insert(x, s);
      forall k | 0 <= k < |r| ensures LexLe(b, r[k].station) {
        if k > 0 {
          assert r[k] == Insert(x, s[1..])[k - 1];
        }
      }
    }
  }

  /** Inserting into a sequence sorted by station id keeps it sorted. */
  lemma {:induction false} InsertSorted(x: OutRow, s: seq<OutRow>)
    requires SortedByStation(s)
    ensures SortedByStation(Insert(x, s))
  {
    if s == [] {
    } else if LexLe(x.station, s[0].station) {
      forall q | 0 <= q < |s| ensures LexLe(x.station, s[q].station) {
        if q > 0 {
          LexLeTransitive(x.station, s[0].station, s[q].station);
        }
      }
    } else {
      LexLeTotal(x.station, s[0].station);
      var tail := Insert(x, s[1..]);
      InsertSorted(x, s[1..]);
      assert AllFrom(s[0].station, s[1..]) by {
        forall k | 0 <= k < |s[1..]| ensures LexLe(s[0].station, s[1..][k].station) {
          assert s[1..][k] == s[k + 1];
        }
      }
      InsertKeepsBound(x, s[1..], s[0].station);
      var r := [s[0]] + tail;
      forall p, q | 0 <= p < q < |r| ensures LexLe(r[p].station, r[q].station) {
        assert r[q] == tail[q - 1];
        if p > 0 {
          assert r[p] == tail[p - 1];
        }
      }
    }
  }

  /** `df_out.sort_values("站號", inplace=True)`: ordered by station id as
      a string. pandas' default sort is not stable, so only the order of
      the ids and the multiset of rows are promised. */
  method SortByStation(rows: seq<OutRow>) returns (sorted: seq<OutRow>)
    ensures SortedByStation(sorted) && multiset(sorted) == multiset(rows)
  {
    sorted := [];
    for i := 0 to |rows|
      invariant SortedByStation(sorted) && multiset(sorted) == multiset(rows[..i])
    {
      assert rows[..i + 1] == rows[..i] + [rows[i]];
      InsertPermutes(rows[i], sorted);
      InsertSorted(rows[i], sorted);
      sorted := Insert(rows[i], sorted);
    }
    assert rows[..|rows|] == rows;
  }

  /** `f"{file_date}_{forecast_col}.csv"` for the bucket key `date`. */
  function FileName(date: string, col: string): (name: string)
    ensures |name| == |RemoveDashes(date)| + |col| + 5
    ensures name[|name| - 4..] == ".csv"
  {
    RemoveDashes(date) + "_" + col + ".csv"
  }

  /** The files written for one version: one per bucket key in insertion
      order, named after its date, holding that date's rows sorted by
      station id. */
  predicate Consolidated(out: seq<OutFile>, entries: seq<OutRow>, col: string) {
    var keys := Keys(entries);
    |out| == |keys| && forall p :: 0 <= p < |out| ==> WrittenFor(out[p], entries, keys[p], col)
  }

  /** The file of bucket `key`: named after the date, holding the rows of
      that date sorted by station id. */
  predicate WrittenFor(f: OutFile, entries: seq<OutRow>, key: string, col: string) {
    && f.name == FileName(key, col)
    && SortedByStation(f.rows)
    && multiset(f.rows) == multiset(Bucket(entries, key))
  }

  /** `daily_data[date_str].append(row)`: a new date becomes the last key. */
  method AddRow(keys: seq<string>, daily: map<string, seq<OutRow>>, ghost seen: seq<OutRow>, row: OutRow)
    returns (keys': seq<string>, daily': map<string, seq<OutRow>>)
    requires Grouped(keys, daily, seen)
    ensures Grouped(keys', daily', seen + [row])
  {
    var bucket := if row.date in daily then daily[row.date] else [];
    keys' := if row.date in daily then keys else keys + [row.date];
    daily' := daily[row.date := bucket + [row]];
    AppendRow(keys, daily, seen, row, keys', daily');
  }

  /** The row loop over one table. */
  method AddRows(keys: seq<string>, daily: map<string, seq<OutRow>>, ghost seen: seq<OutRow>, rows: seq<OutRow>)
    returns (keys': seq<string>, daily': map<string, seq<OutRow>>)
    requires Grouped(keys, daily, seen)
    ensures Grouped(keys', daily', seen + rows)
  {
    keys', daily' := keys, daily;
    ghost var prefix := seen;
    for j := 0 to |rows|
      invariant prefix == seen + rows[..j]
      invariant Grouped(keys', daily', prefix)
    {
      keys', daily' := AddRow(keys', daily', prefix, rows[j]);
      prefix := prefix + [rows[j]];
      assert prefix == seen + rows[..j + 1];
    }
    assert rows[..|rows|] == rows;
  }

  /** One version folder: the loops over files and rows fill `daily_data`,
      then each bucket is sorted and written. */
  method ConsolidateVersion(files: seq<Option<CsvTable>>, col: string, parse: DateParser)
    returns (out: seq<OutFile>)
    requires ValidFiles(files)
    ensures Consolidated(out, Entries(files, col, parse), col)
  {
    var keys: seq<string> := [];
    var daily: map<string, seq<OutRow>> := map[];
    for i := 0 to |files|
      invariant Grouped(keys, daily, Entries(files[..i], col, parse))
    {
      ghost var before := Entries(files[..i], col, parse);
      assert files[..i + 1][..i] == files[..i];
      if files[i].Some? {
        var subset := Subset(files[i].value, col, parse);
        if subset.Some? {
          keys, daily := AddRows(keys, daily, before, subset.value);
        }
      }
      assert Entries(files[..i + 1], col, parse) ==
        before + (if files[i].Some? && Subset(files[i].value, col, parse).Some?
                  then Subset(files[i].value, col, parse).value else []);
    }
    assert files[..|files|] == files;
    out := WriteBuckets(keys, daily, Entries(files, col, parse), col);
  }

  /** The output loop: one file per key of `daily_data`, in key order. */
  method WriteBuckets(keys: seq<string>, daily: map<string, seq<OutRow>>, ghost entries: seq<OutRow>, col: string)
    returns (out: seq<OutFile>)
    requires Grouped(keys, daily, entries)
    ensures Consolidated(out, entries, col)
  {
    out := [];
    for k := 0 to |keys|
      invariant |out| == k
      invariant forall p :: 0 <= p < k ==> WrittenFor(out[p], entries, keys[p], col)
    {
      var key := keys[k];
      assert key in daily && daily[key] == Bucket(entries, key) by {
        assert key in keys;
      }
      var sorted := SortByStation(daily[key]);
      ghost var before := out;
      out := out + [OutFile(FileName(key, col), sorted)];
      forall p | 0 <= p < k + 1 ensures WrittenFor(out[p], entries, keys[p], col) {
        if p < k {
          assert out[p] == before[p];
        }
      }
    }
  }

  /** `consolidate_forecasts`: the versions in order; a missing folder is
      skipped, and each version has its own buckets. */
  method ConsolidateForecasts(folders: map<string, seq<Option<CsvTable>>>, parse: DateParser)
    returns (outputs: seq<seq<OutFile>>)
    requires forall f :: f in folders ==> ValidFiles(folders[f])
    ensures |outputs| == |VERSIONS|
    ensures forall v :: 0 <= v < |VERSIONS| && VERSIONS[v].0 !in folders ==> outputs[v] == []
    ensures forall v :: 0 <= v < |VERSIONS| && VERSIONS[v].0 in folders ==>
      Consolidated(outputs[v], Entries(folders[VERSIONS[v].0], VERSIONS[v].1, parse), VERSIONS[v].1)
  {
    outputs := [];
    for v := 0 to |VERSIONS|
      invariant |outputs| == v
      invariant forall u :: 0 <= u < v && VERSIONS[u].0 !in folders ==> outputs[u] == []
      invariant forall u :: 0 <= u < v && VERSIONS[u].0 in folders ==>
        Consolidated(outputs[u], Entries(folders[VERSIONS[u].0], VERSIONS[u].1, parse), VERSIONS[u].1)
    {
      var folder, col := VERSIONS[v].0, VERSIONS[v].1;
      if folder !in folders {
        outputs := outputs + [[]];
      } else {
        var files := ConsolidateVersion(folders[folder], col, parse);
        outputs := outputs + [files];
      }
    }
  }
}
