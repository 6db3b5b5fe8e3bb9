/** The building blocks the three classifiers share: a per-day threshold
    test, the trailing "all true" window of `rolling(w).apply(all)`, and the
    row-by-row AND of the rule results. Each classifier instantiates them
    with its own comparisons, window and treatment of missing readings. */
module Rules {
  import opened Options
  import opened ThreeValued
  import opened Frames

  /** The column a classifier writes the per-day test of reading `v` to. */
  function ConditionName(v: string): string {
    v + "_condition"
  }

  /** The column a classifier writes the rolling result of reading `v` to. */
  function RollingName(v: string): string {
    v + "_condition_rolling"
  }

  /** The comparison a rule applies to a reading. */
  datatype Cmp = AtLeast | Above | AtMost | Below

  predicate Holds(cmp: Cmp, v: real, bound: real) {
    match cmp
    case AtLeast => v >= bound
    case Above => v > bound
    case AtMost => v <= bound
    case Below => v < bound
  }

  /** The per-day test of one reading. A missing reading gives Unknown when
      the classifier carries NaN through (`.where(notnull, NaN)`), and No
      when it does not (a pandas comparison with NaN is False). */
  function Test(cmp: Cmp, bound: real, carryMissing: bool, x: Reading): (t: Tri)
    ensures t == Yes <==> x.Some? && Holds(cmp, x.value, bound)
    ensures t == Unknown <==> carryMissing && x.None?
  {
    match x
    case None => if carryMissing then Unknown else No
    case Some(v) => FromBool(Holds(cmp, v, bound))
  }

  /** A condition column: the test applied to every row of a reading column. */
  function TestColumn(cmp: Cmp, bound: real, carryMissing: bool, col: seq<Reading>): (c: seq<Tri>)
    ensures |c| == |col|
    ensures forall i :: 0 <= i < |col| ==> c[i] == Test(cmp, bound, carryMissing, col[i])
  {
    seq(|col|, i requires 0 <= i < |col| => Test(cmp, bound, carryMissing, col[i]))
  }

  /** A rolling window length; pandas refuses a negative one and the
      classifiers are only ever given a positive one. */
  type WindowLength = w: int | 1 <= w witness 1

  /** `rolling(w).apply(lambda x: all(x), raw=True)` at row `i`: NaN while
      fewer than `w` rows exist and whenever a NaN lies in the window
      (pandas' default `min_periods` is `w`), otherwise whether every row of
      the window is true. */
  function WindowAll(c: seq<Tri>, w: WindowLength, i: int): (t: Tri)
    requires 0 <= i < |c|
    ensures t == Yes <==> w <= i + 1 && forall j :: i + 1 - w <= j <= i ==> c[j] == Yes
    ensures t == Unknown <==> i + 1 < w || exists j :: i + 1 - w <= j <= i && c[j] == Unknown
  {
    if i + 1 < w then Unknown
    else
      var win := c[i + 1 - w .. i + 1];
      assert forall j :: i + 1 - w <= j <= i ==> c[j] == win[j - (i + 1 - w)];
      Conj(win)
  }

  /** A rolling column: the window at every row. */
  function Rolling(c: seq<Tri>, w: WindowLength): (r: seq<Tri>)
    ensures |r| == |c|
    ensures forall i :: 0 <= i < |c| ==> r[i] == WindowAll(c, w, i)
  {
    seq(|c|, i requires 0 <= i < |c| => WindowAll(c, w, i))
  }

  /** Row `i` across the rule columns. */
  function Across(cols: seq<seq<Tri>>, i: nat): (row: seq<Tri>)
    requires forall k :: 0 <= k < |cols| ==> i < |cols[k]|
    ensures |row| == |cols| && forall k :: 0 <= k < |cols| ==> row[k] == cols[k][i]
  {
    seq(|cols|, k requires 0 <= k < |cols| => cols[k][i])
  }

  /** The flag: the rule columns ANDed row by row with `&`, then set to NaN
      wherever any of them is NaN. */
  function AllOf(cols: seq<seq<Tri>>, n: nat): (r: seq<Tri>)
    requires forall k :: 0 <= k < |cols| ==> |cols[k]| == n
    ensures |r| == n
    ensures forall i :: 0 <= i < n ==>
      (r[i] == Yes <==> forall k :: 0 <= k < |cols| ==> cols[k][i] == Yes)
    ensures forall i :: 0 <= i < n ==>
      (r[i] == Unknown <==> exists k :: 0 <= k < |cols| && cols[k][i] == Unknown)
  {
    seq(n, i requires 0 <= i < n => Conj(Across(cols, i)))
  }

  /** A rolling value depends only on rows up to its own: appending later
      days never changes an earlier day's result. */
  lemma RollingIsCausal(c: seq<Tri>, d: seq<Tri>, w: WindowLength, i: int)
    requires 0 <= i < |c| && i < |d| && c[..i + 1] == d[..i + 1]
    ensures Rolling(c, w)[i] == Rolling(d, w)[i]
  {
    if w <= i + 1 {
      assert c[i + 1 - w .. i + 1] == c[..i + 1][i + 1 - w ..];
      assert d[i + 1 - w .. i + 1] == d[..i + 1][i + 1 - w ..];
    }
  }

  /** A window of one row is the condition itself. */
  lemma RollingOfOne(c: seq<Tri>)
    ensures Rolling(c, 1) == c
  {
    var r := Rolling(c, 1);
    forall i | 0 <= i < |c| ensures r[i] == c[i] {
      assert c[i .. i + 1] == [c[i]];
    }
  }

  /** An Unknown condition on row `j` makes every window that covers it
      Unknown: the `w` rolling values from row `j` on. */
  lemma UnknownSpreads(c: seq<Tri>, w: WindowLength, j: int)
    requires 0 <= j < |c| && c[j] == Unknown
    ensures forall i :: j <= i < |c| && i < j + w ==> Rolling(c, w)[i] == Unknown
  {
  }
}
