/** Cost measures (chj/cost/CostMeasure.py): the cost of a method as a
    range of bound terms, its classification (top, single value, constant
    range, open above) and the partial order the reports sort costs by.

    Floating-point ranges are not modelled: `is_float_range` of a term range
    is always false, so only the integer branches remain. Where the code
    calls list methods that do not exist (`is_value` and `[0]` on a term
    list, `haslowerbound`, `istop`, `is_symbolic_bound`), the model uses
    the evidently meant ones (`is_constant`, `get_constant`,
    `has_lowerbound`, `is_top`, `is_symbolic_expr`). */
module CostMeasures {
  import opened Wrappers
  import opened JTerms

  datatype CostMeasure = CostMeasure(cost: JTermRange)

  function GetValue(c: CostMeasure): (v: Option<int>)
    ensures v.Some? <==> IsValue(c)
  {
    RangeGetValue(c.cost)
  }

  /** The constant lower bound, or 0 when there is none. */
  function GetLowerbound(c: CostMeasure): (lb: int)
    ensures HasLowerbound(c) ==> Some(lb) == ListGetConstant(c.cost.lbs)
    ensures !HasLowerbound(c) ==> lb == 0
  {
    ListGetConstant(c.cost.lbs).GetOr(0)
  }

  function GetUpperbound(c: CostMeasure): (ub: Option<int>)
    ensures ub.Some? <==> ListIsConstant(c.cost.ubs)
  {
    ListGetConstant(c.cost.ubs)
  }

  function GetUbSymbolicDependencies(c: CostMeasure): (ds: seq<JTerm>)
    ensures forall d :: d in ds ==> d.SymbolicConstant?
  {
    RangeUbDependencies(c.cost)
  }

  function GetRange(c: CostMeasure): (p: Option<(int, int)>)
    ensures p.Some? <==> RangeIsRange(c.cost)
    ensures p.Some? ==> p.value.0 == GetLowerbound(c) && Some(p.value.1) == GetUpperbound(c)
  {
    RangeGetRange(c.cost)
  }

  /** A cost with a constant lower bound and no upper bound. */
  predicate IsUnknown(c: CostMeasure) { RangeIsUbOpen(c.cost) }

  predicate IsValue(c: CostMeasure) { RangeIsValue(c.cost) }

  /** A constant range that is not a single value. */
  predicate IsRange(c: CostMeasure) { RangeIsRange(c.cost) && !IsValue(c) }

  predicate HasLowerbound(c: CostMeasure) { ListIsConstant(c.cost.lbs) }

  predicate HasSymbolicBound(c: CostMeasure) { ListIsSymbolicExpr(c.cost.ubs) }

  function GetSymbolicBound(c: CostMeasure): (t: Option<JTerm>)
    ensures t.Some? <==> HasSymbolicBound(c)
    ensures t.Some? ==> t.value in c.cost.ubs.terms && IsSymbolicExpr(t.value)
  {
    ListSymbolicExpr(c.cost.ubs)
  }

  predicate IsTop(c: CostMeasure) { ListIsTop(c.cost.lbs) && ListIsTop(c.cost.ubs) }

  /** The classification of a cost: top, a value, a range, open above (with
      a lower bound only), or none of these. */
  lemma Classification(c: CostMeasure)
    ensures !(IsValue(c) && IsRange(c))
    ensures IsValue(c) || IsRange(c) <==> RangeIsRange(c.cost)
    ensures IsTop(c) ==> !HasLowerbound(c) && !IsValue(c) && !IsRange(c) && !IsUnknown(c)
    ensures IsUnknown(c) ==> HasLowerbound(c) && !IsValue(c) && !IsRange(c)
    ensures IsValue(c) ==> GetValue(c) == Some(GetLowerbound(c)) && GetUpperbound(c).Some?
  {
  }

  /** `__lt__`: false against None; a top cost is below nothing and every
      other cost is below top; then values, ranges and costs with only a
      lower bound are compared by their constants. The combinations the
      code does not handle raise. */
  function Lt(a: CostMeasure, other: Option<CostMeasure>): (r: Result<bool>)
    ensures other.None? ==> r == Ok(false)
    ensures other.Some? && IsTop(a) ==> r == Ok(false)
    ensures other.Some? && !IsTop(a) && IsTop(other.value) ==> r == Ok(true)
  {
    if other.None? then Ok(false)
    else
      var b := other.value;
      if IsTop(a) then Ok(false)
      else if IsTop(b) then Ok(true)
      else if IsValue(a) then
        var v := GetValue(a).value;
        if IsValue(b) then Ok(v < GetValue(b).value)
        else if IsRange(b) then Ok(v < GetUpperbound(b).value)
        else if HasLowerbound(b) then Ok(v < GetLowerbound(b))
        else Err(Failure(""))
      else if IsRange(a) then
        var ub := GetUpperbound(a).value;
        if IsValue(b) then Ok(ub < GetValue(b).value)
        else if IsRange(b) then
          if ub == GetUpperbound(b).value then Ok(GetLowerbound(a) < GetLowerbound(b))
          else Ok(ub < GetUpperbound(b).value)
        else if HasLowerbound(b) then Ok(ub < GetLowerbound(b))
        else Err(Failure(""))
      else if HasLowerbound(a) then
        if IsValue(b) then Ok(GetLowerbound(a) < GetValue(b).value)
        else if IsRange(b) || HasLowerbound(b) then Ok(GetLowerbound(a) < GetLowerbound(b))
        else Err(Failure(""))
      else Err(Failure("no bounds"))
  }

  /** `__eq__`: false against None; top equals only top, a value only an
      equal value, a range only a range with the same bounds; any other
      cost raises. */
  function Eq(a: CostMeasure, other: Option<CostMeasure>): (r: Result<bool>)
    ensures other.None? ==> r == Ok(false)
    ensures other.Some? && IsTop(a) ==> r == Ok(IsTop(other.value))
    ensures r == Ok(true) ==> (other.Some? &&
      (IsTop(a) <==> IsTop(other.value)) && (IsValue(a) <==> IsValue(other.value)) &&
      (IsRange(a) <==> IsRange(other.value)) && GetLowerbound(a) == GetLowerbound(other.value) &&
      (IsRange(a) ==> GetUpperbound(a) == GetUpperbound(other.value)))
    ensures r.Err? <==> other.Some? && !IsTop(a) && !IsValue(a) && !IsRange(a)
  {
    if other.None? then Ok(false)
    else
      var b := other.value;
      if IsTop(a) then Ok(IsTop(b))
      else if IsValue(a) then Ok(IsValue(b) && GetValue(a) == GetValue(b))
      else if IsRange(a) then
        Ok(IsRange(b) && GetLowerbound(a) == GetLowerbound(b) && GetUpperbound(a) == GetUpperbound(b))
      else Err(Failure(""))
  }

  /** `__ne__`: the negation of `__eq__`. */
  function Ne(a: CostMeasure, other: Option<CostMeasure>): (r: Result<bool>)
    ensures r.Ok? <==> Eq(a, other).Ok?
    ensures r.Ok? ==> r.value == !Eq(a, other).value
  {
    match Eq(a, other)
    case Ok(e) => Ok(!e)
    case Err(x) => Err(x)
  }

  /** `__le__`: below, or else equal; equality is not consulted when the
      cost is already below. */
  function Le(a: CostMeasure, other: Option<CostMeasure>): (r: Result<bool>)
    ensures Lt(a, other) == Ok(true) ==> r == Ok(true)
    ensures Lt(a, other) == Ok(false) ==> r == Eq(a, other)
    ensures Lt(a, other).Err? ==> r == Lt(a, other)
  {
    match Lt(a, other)
    case Err(x) => Err(x)
    case Ok(lt) => if lt then Ok(true) else Eq(a, other)
  }

  /** `__ge__` as written: the other cost is below this one, which is the
      test for `>`. */
  function GeAsWritten(a: CostMeasure, b: CostMeasure): Result<bool>
  {
    Lt(b, Some(a))
  }

  /** `__gt__` as written: the other cost is at most this one, which is the
      test for `>=`. */
  function GtAsWritten(a: CostMeasure, b: CostMeasure): Result<bool>
  {
    Le(b, Some(a))
  }

  /** With the two bodies swapped, a value cost is not `>=` itself but is
      `>` itself. */
  lemma GeGtSwapped(c: CostMeasure)
    requires IsValue(c)
    ensures GeAsWritten(c, c) == Ok(false) && GtAsWritten(c, c) == Ok(true)
  {
  }

  /** `__ge__` as intended: the other cost is at most this one. */
  function Ge(a: CostMeasure, b: CostMeasure): (r: Result<bool>)
    ensures Lt(b, Some(a)) == Ok(true) ==> r == Ok(true)
    ensures Eq(b, Some(a)) == Ok(true) && Lt(b, Some(a)).Ok? ==> r == Ok(true)
  {
    Le(b, Some(a))
  }

  /** `__gt__` as intended: the other cost is below this one. */
  function Gt(a: CostMeasure, b: CostMeasure): (r: Result<bool>)
    ensures r != Ok(true) || Eq(b, Some(a)) != Ok(true)
  {
    Lt(b, Some(a))
  }

  /** A well-formed cost has its constant lower bound at most its constant
      upper bound. */
  predicate WellFormed(c: CostMeasure)
  {
    RangeIsRange(c.cost) ==> GetLowerbound(c) <= GetUpperbound(c).value
  }

  /** No cost is below itself. */
  lemma LtIrreflexive(a: CostMeasure)
    ensures Lt(a, Some(a)) != Ok(true)
  {
  }

  /** Between well-formed costs, `<` is asymmetric. */
  lemma LtAsymmetric(a: CostMeasure, b: CostMeasure)
    requires WellFormed(a) && WellFormed(b)
    requires Lt(a, Some(b)) == Ok(true)
    ensures Lt(b, Some(a)) != Ok(true)
  {
  }

  /** Equality is symmetric wherever both directions are defined, and equal
      costs are not below each other. */
  lemma EqSymmetric(a: CostMeasure, b: CostMeasure)
    requires Eq(a, Some(b)).Ok? && Eq(b, Some(a)).Ok?
    ensures Eq(a, Some(b)) == Eq(b, Some(a))
  {
  }

  lemma EqNotLt(a: CostMeasure, b: CostMeasure)
    requires Eq(a, Some(b)) == Ok(true)
    ensures Lt(a, Some(b)) == Ok(false) && Lt(b, Some(a)) == Ok(false)
  {
  }

  /** Two values compare by their numbers, and exactly one of below, equal
      and above holds. */
  lemma ValuesCompare(a: CostMeasure, b: CostMeasure)
    requires IsValue(a) && IsValue(b)
    ensures Lt(a, Some(b)) == Ok(GetValue(a).value < GetValue(b).value)
    ensures Eq(a, Some(b)) == Ok(GetValue(a) == GetValue(b))
    ensures Le(a, Some(b)) == Ok(GetValue(a).value <= GetValue(b).value)
    ensures Ge(a, b) == Ok(GetValue(a).value >= GetValue(b).value)
    ensures Gt(a, b) == Ok(GetValue(a).value > GetValue(b).value)
  {
  }

  /** Two ranges compare by upper bound, ties broken by lower bound: the
      order is lexicographic on (upper, lower), and it is total. */
  lemma RangesCompare(a: CostMeasure, b: CostMeasure)
    requires IsRange(a) && IsRange(b)
    ensures var ua, ub := GetUpperbound(a).value, GetUpperbound(b).value;
      Lt(a, Some(b)) == Ok(ua < ub || (ua == ub && GetLowerbound(a) < GetLowerbound(b)))
    ensures Lt(a, Some(b)) == Ok(true) || Eq(a, Some(b)) == Ok(true) || Lt(b, Some(a)) == Ok(true)
  {
  }
}
