/** The three-valued outcome of a condition: pandas' True, False and NaN in
    the condition, rolling and flag columns. */
module ThreeValued {

  datatype Tri = Yes | No | Unknown

  function FromBool(b: bool): (t: Tri)
    ensures t != Unknown
    ensures t == Yes <==> b
  {
    if b then Yes else No
  }

  /** The AND the classifiers use: `(a == 1) & (b == 1)` followed by
      `.where(notnull, NaN)`. Unknown wins over everything, so this is not
      Kleene logic: `And(No, Unknown)` is Unknown. */
  function And(a: Tri, b: Tri): (r: Tri)
    ensures r == Unknown <==> a == Unknown || b == Unknown
    ensures r == Yes <==> a == Yes && b == Yes
  {
    if a == Unknown || b == Unknown then Unknown
    else if a == Yes && b == Yes then Yes
    else No
  }

  /** `all(window)` over a rolling window, and the flag over all rules. */
  function Conj(s: seq<Tri>): (r: Tri)
    ensures r == Yes <==> forall i :: 0 <= i < |s| ==> s[i] == Yes
    ensures r == Unknown <==> exists i :: 0 <= i < |s| && s[i] == Unknown
    ensures r == No <==> (forall i :: 0 <= i < |s| ==> s[i] != Unknown) && (exists i :: 0 <= i < |s| && s[i] == No)
    decreases |s|
  {
    if s == [] then Yes
    else
      var rest := Conj(s[1..]);
      assert forall i :: 1 <= i < |s| ==> s[i] == s[1..][i - 1];
      And(s[0], rest)
  }

  /** Unknown is never read as "not met": false AND unknown is unknown. */
  lemma UnknownAbsorbsNo()
    ensures And(No, Unknown) == Unknown && Conj([No, Unknown]) == Unknown
  {
  }
}
