/** A loop of a method (chj/app/Loop.py): its pcs, its depth, the jump
    conditions inside it and the bounds the analysis found for its number
    of iterations. */
module Loops {
  import opened Wrappers
  import opened Strings
  import opened JTerms

  /** `maxIterations` is None when the results have no max-iterations
      element for the loop. */
  datatype Loop = Loop(
    depth: int, entryPc: int, firstPc: int, lastPc: int, instrCount: int,
    maxIterations: Option<seq<JTerm>>,
    jumpConditions: map<int, string>)

  /** The iteration bounds, none when the element is absent. */
  function GetMaxIterations(l: Loop): (r: seq<JTerm>)
    ensures l.maxIterations.None? ==> r == []
    ensures forall t :: t in r ==> l.maxIterations.Some? && t in l.maxIterations.value
  {
    match l.maxIterations
    case None => []
    case Some(ts) => ts
  }

  /** The constant terms among the bounds, in order. */
  function ConstantTerms(ts: seq<JTerm>): (r: seq<JTerm>)
    ensures forall t :: t in r <==> t in ts && t.Constant?
  {
    if ts == [] then []
    else (if ts[0].Constant? then [ts[0]] else []) + ConstantTerms(ts[1..])
  }

  function GetConstantBounds(l: Loop): (r: seq<JTerm>)
    ensures forall t :: t in r <==> t in GetMaxIterations(l) && t.Constant?
  {
    ConstantTerms(GetMaxIterations(l))
  }

  /** A loop is bounded iff some iteration bound is a constant. */
  predicate IsBounded(l: Loop)
  {
    |GetConstantBounds(l)| > 0
  }

  lemma BoundedIffConstantBound(l: Loop)
    ensures IsBounded(l) <==> exists t :: t in GetMaxIterations(l) && t.Constant?
  {
    if IsBounded(l) {
      assert GetConstantBounds(l)[0] in GetConstantBounds(l);
    }
  }

  /** The largest value of a non-empty list of constants, each read back
      from its decimal text as the code does. */
  function MaxValue(cs: seq<JTerm>): (m: int)
    requires |cs| > 0 && forall t :: t in cs ==> t.Constant?
    ensures exists t :: t in cs && t.value == m
    ensures forall t :: t in cs ==> t.value <= m
  {
    ConstantToStringParses(cs[0]);
    var v := ParseInt(ToString(cs[0])).value;
    if |cs| == 1 then v
    else
      var rest := MaxValue(cs[1..]);
      assert forall t :: t in cs ==> t == cs[0] || t in cs[1..];
      if v >= rest then v else rest
  }

  /** The largest constant bound, None when the loop is unbounded. */
  function GetMaxBound(l: Loop): (r: Option<int>)
    ensures r.Some? <==> IsBounded(l)
    ensures r.Some? ==> forall t :: t in GetMaxIterations(l) && t.Constant? ==> t.value <= r.value
    ensures r.Some? ==> exists t :: t in GetMaxIterations(l) && t.Constant? && t.value == r.value
  {
    if IsBounded(l) then Some(MaxValue(GetConstantBounds(l))) else None
  }

  /** Bounds at or above this threshold print as 'MAX'. */
  const MaxThreshold := 2147483645

  /** '?' when unbounded, 'MAX' for a largest bound at or above the
      threshold, otherwise the largest bound in decimal. */
  function GetBound(l: Loop): (s: string)
  {
    if IsBounded(l) then
      var mxx := MaxValue(GetConstantBounds(l));
      if mxx >= MaxThreshold then "MAX" else IntToString(mxx)
    else "?"
  }

  /** The printed bound tells the three cases apart, and a decimal bound
      reads back as the largest constant bound. */
  lemma GetBoundCases(l: Loop)
    ensures GetBound(l) == "?" <==> GetMaxBound(l).None?
    ensures GetBound(l) == "MAX" <==> GetMaxBound(l).Some? && GetMaxBound(l).value >= MaxThreshold
    ensures GetMaxBound(l).Some? && GetMaxBound(l).value < MaxThreshold ==>
      ParseInt(GetBound(l)) == GetMaxBound(l)
  {
    if IsBounded(l) {
      var m := GetMaxBound(l).value;
      if m < MaxThreshold {
        ParseIntToString(m);
        assert GetBound(l) != "?" && GetBound(l) != "MAX" by {
          assert ParseInt("?").None?;
          assert ParseInt("MAX").None?;
        }
      }
    }
  }
}
