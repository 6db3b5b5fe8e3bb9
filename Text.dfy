/** Date strings as `strftime` writes them, and Python's string order. */
module Text {
  import opened Calendar

  predicate IsDigit(c: char) {
    '0' <= c <= '9'
  }

  function Digit(n: int): (c: char)
    requires 0 <= n < 10
    ensures IsDigit(c) && c != '-'
  {
    (48 + n) as char
  }

  /** `%02d`: two digits, zero padded. */
  function Pad2(n: int): (s: string)
    requires 0 <= n < 100
    ensures |s| == 2 && forall i :: 0 <= i < 2 ==> IsDigit(s[i])
  {
    [Digit(n / 10), Digit(n % 10)]
  }

  /** `%Y` for years 1 to 9999: four digits, zero padded. */
  function Pad4(n: int): (s: string)
    requires 0 <= n < 10000
    ensures |s| == 4 && forall i :: 0 <= i < 4 ==> IsDigit(s[i])
  {
    Pad2(n / 100) + Pad2(n % 100)
  }

  /** `strftime("%Y-%m-%d")`. */
  function Iso(d: CivilDate): (s: string)
    ensures |s| == 10 && s[4] == '-' && s[7] == '-'
  {
    Pad4(d.year) + "-" + Pad2(d.month) + "-" + Pad2(d.day)
  }

  /** `strftime("%Y%m%d")`. */
  function Compact(d: CivilDate): (s: string)
    ensures |s| == 8 && forall i :: 0 <= i < 8 ==> IsDigit(s[i])
  {
    Pad4(d.year) + Pad2(d.month) + Pad2(d.day)
  }

  /** The string without its `-` characters. */
  function RemoveDashes(s: string): (r: string)
    ensures |r| <= |s| && '-' !in r
  {
    if s == [] then []
    else RemoveDashes(s[..|s| - 1]) + (if s[|s| - 1] == '-' then [] else [s[|s| - 1]])
  }

  lemma {:induction false} RemoveDashesConcat(a: string, b: string)
    ensures RemoveDashes(a + b) == RemoveDashes(a) + RemoveDashes(b)
    decreases |b|
  {
    if b != [] {
      var init := b[..|b| - 1];
      RemoveDashesConcat(a, init);
      assert (a + b)[..|a + b| - 1] == a + init;
    } else {
      assert a + b == a;
    }
  }

  lemma {:induction false} RemoveDashesOfDigits(s: string)
    requires forall i :: 0 <= i < |s| ==> IsDigit(s[i])
    ensures RemoveDashes(s) == s
  {
    if s != [] {
      RemoveDashesOfDigits(s[..|s| - 1]);
    }
  }

  /** Re-reading an ISO date and writing it as `%Y%m%d` drops its dashes:
      the compact name of day `d` is its ISO string without the dashes. */
  lemma CompactIsIsoWithoutDashes(d: CivilDate)
    ensures RemoveDashes(Iso(d)) == Compact(d)
  {
    var y, m, dd := Pad4(d.year), Pad2(d.month), Pad2(d.day);
    assert RemoveDashes("-") == [];
    calc {
      RemoveDashes(Iso(d));
      { RemoveDashesConcat(y + "-" + m + "-", dd); RemoveDashesOfDigits(dd); }
      RemoveDashes(y + "-" + m + "-") + dd;
      { RemoveDashesConcat(y + "-" + m, "-"); }
      RemoveDashes(y + "-" + m) + dd;
      { RemoveDashesConcat(y + "-", m); RemoveDashesOfDigits(m); }
      RemoveDashes(y + "-") + m + dd;
      { RemoveDashesConcat(y, "-"); RemoveDashesOfDigits(y); }
      y + m + dd;
    }
  }

  /** Python's `<=` on strings: lexicographic by character. */
  predicate LexLe(a: string, b: string) {
    |a| == 0 || (|b| > 0 && (a[0] < b[0] || (a[0] == b[0] && LexLe(a[1..], b[1..]))))
  }

  lemma {:induction false} LexLeTotal(a: string, b: string)
    ensures LexLe(a, b) || LexLe(b, a)
  {
    if |a| > 0 && |b| > 0 && a[0] == b[0] {
      LexLeTotal(a[1..], b[1..]);
    }
  }

  lemma {:induction false} LexLeTransitive(a: string, b: string, c: string)
    requires LexLe(a, b) && LexLe(b, c)
    ensures LexLe(a, c)
  {
    if |a| > 0 && a[0] == b[0] && b[0] == c[0] {
      LexLeTransitive(a[1..], b[1..], c[1..]);
    }
  }

  /** Comparing two strings that start with equal-length heads: the heads
      decide unless they are equal, and then the tails do. */
  lemma {:induction false} LexLeAppend(p: string, q: string, r: string, s: string)
    requires |p| == |r|
    ensures LexLe(p + q, r + s) <==> (p != r && LexLe(p, r)) || (p == r && LexLe(q, s))
    decreases |p|
  {
    if |p| == 0 {
      assert p + q == q && r + s == s;
    } else {
      assert (p + q)[0] == p[0] && (r + s)[0] == r[0];
      assert (p + q)[1..] == p[1..] + q && (r + s)[1..] == r[1..] + s;
      assert p == [p[0]] + p[1..] && r == [r[0]] + r[1..];
      LexLeAppend(p[1..], q, r[1..], s);
    }
  }

  /** Concatenations of equal-length heads are equal exactly when heads
      and tails are. */
  lemma AppendEq(p: string, q: string, r: string, s: string)
    requires |p| == |r|
    ensures p + q == r + s <==> p == r && q == s
  {
    if p + q == r + s {
      assert p == (p + q)[..|p|] && r == (r + s)[..|r|];
      assert q == (p + q)[|p|..] && s == (r + s)[|r|..];
    }
  }

  lemma DigitOrder(n: int, m: int)
    requires 0 <= n < 10 && 0 <= m < 10
    ensures Digit(n) < Digit(m) <==> n < m
    ensures Digit(n) == Digit(m) <==> n == m
  {
  }

  /** Two-digit fields compare as their numbers. */
  lemma Pad2Order(x: int, y: int)
    requires 0 <= x < 100 && 0 <= y < 100
    ensures LexLe(Pad2(x), Pad2(y)) <==> x <= y
    ensures Pad2(x) == Pad2(y) <==> x == y
  {
    var a, b := Pad2(x), Pad2(y);
    DigitOrder(x / 10, y / 10);
    DigitOrder(x % 10, y % 10);
    assert LexLe(a[1..], b[1..]) <==> a[1] <= b[1] by {
      assert a[1..][1..] == [] && b[1..][1..] == [];
    }
    assert x <= y <==> x / 10 < y / 10 || (x / 10 == y / 10 && x % 10 <= y % 10);
    assert x == y <==> x / 10 == y / 10 && x % 10 == y % 10;
    assert a == b <==> a[0] == b[0] && a[1] == b[1];
  }

  /** Four-digit years compare as their numbers. */
  lemma Pad4Order(x: int, y: int)
    requires 0 <= x < 10000 && 0 <= y < 10000
    ensures LexLe(Pad4(x), Pad4(y)) <==> x <= y
    ensures Pad4(x) == Pad4(y) <==> x == y
  {
    Pad2Order(x / 100, y / 100);
    Pad2Order(x % 100, y % 100);
    LexLeAppend(Pad2(x / 100), Pad2(x % 100), Pad2(y / 100), Pad2(y % 100));
    assert x == 100 * (x / 100) + x % 100 && y == 100 * (y / 100) + y % 100;
    AppendEq(Pad2(x / 100), Pad2(x % 100), Pad2(y / 100), Pad2(y % 100));
  }

  /** `-` then a two-digit field, as in `-MM` and `-DD`. */
  function DashField(n: int): (s: string)
    requires 0 <= n < 100
    ensures |s| == 3
  {
    "-" + Pad2(n)
  }

  lemma DashFieldOrder(x: int, y: int)
    requires 0 <= x < 100 && 0 <= y < 100
    ensures LexLe(DashField(x), DashField(y)) <==> x <= y
    ensures DashField(x) == DashField(y) <==> x == y
  {
    Pad2Order(x, y);
    LexLeAppend("-", Pad2(x), "-", Pad2(y));
    AppendEq("-", Pad2(x), "-", Pad2(y));
  }

  /** The window filter compares `%Y-%m-%d` strings; that comparison is the
      comparison of day numbers, and equal strings are equal dates. */
  lemma IsoOrder(a: CivilDate, b: CivilDate)
    ensures LexLe(Iso(a), Iso(b)) <==> DayNumber(a) <= DayNumber(b)
    ensures Iso(a) == Iso(b) <==> a == b
  {
    var ya, yb := Pad4(a.year), Pad4(b.year);
    var ma, mb := DashField(a.month), DashField(b.month);
    var da, db := DashField(a.day), DashField(b.day);
    assert Iso(a) == ya + (ma + da) && Iso(b) == yb + (mb + db);
    Pad4Order(a.year, b.year);
    DashFieldOrder(a.month, b.month);
    DashFieldOrder(a.day, b.day);
    LexLeAppend(ya, ma + da, yb, mb + db);
    LexLeAppend(ma, da, mb, db);
    DayNumberOrder(a, b);
    DayNumberOrder(b, a);
    AppendEq(ya, ma + da, yb, mb + db);
    AppendEq(ma, da, mb, db);
  }

  /** The mask `(date >= start) & (date <= end)` on `%Y-%m-%d` strings keeps
      a day exactly when its day number lies in `[start, end]`. */
  lemma IsoWindow(start: CivilDate, end: CivilDate, x: CivilDate)
    ensures LexLe(Iso(start), Iso(x)) && LexLe(Iso(x), Iso(end)) <==>
      DayNumber(start) <= DayNumber(x) <= DayNumber(end)
  {
    IsoOrder(start, x);
    IsoOrder(x, end);
  }
}
