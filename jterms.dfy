/** Symbolic cost and bound terms, their lists and ranges (chj/index/JTerm.py).
    A term object of the library keeps its children as indices into the term
    tables; here each term carries its children directly, which is the same
    information once the indices are resolved. */
module JTerms {
  import opened Wrappers
  import opened Strings

  datatype JTerm =
    | Constant(index: int, value: int)                          // 'c'
    | FloatConstant(index: int, text: string)                   // 'fc'
    | AuxiliaryVar(index: int, name: string)                    // 'xv'
    | LocalVar(index: int, vix: int)                            // 'lv'
    | LoopCounter(index: int, lc: int)                          // 'lc'
    | BoolConstant(index: int, b: bool)                         // 'bc'
    | SymbolicConstant(index: int, name: string)                // 'symc'
    | LengthOf(index: int, kind: LengthKind, operand: JTerm)    // 'al', 'sl', 'si'
    | ArithmeticExpr(index: int, op: string, e1: JTerm, e2: JTerm)   // 'ar'
    | Resolved(index: int, lookup: ResolvedKind, text: string)  // 'sf', 'of', 'sc'

  datatype LengthKind = ArrayLength | StringLength | Size

  /** Terms whose text is looked up in other dictionaries; the term carries
      the text it prints. */
  datatype ResolvedKind = StaticFieldValue | ObjectFieldValue | StringConstant

  /** The tag under which each kind is registered in the term table. */
  function Tag(t: JTerm): string
  {
    match t
    case Constant(_, _) => "c"
    case FloatConstant(_, _) => "fc"
    case AuxiliaryVar(_, _) => "xv"
    case LocalVar(_, _) => "lv"
    case LoopCounter(_, _) => "lc"
    case BoolConstant(_, _) => "bc"
    case SymbolicConstant(_, _) => "symc"
    case LengthOf(_, kind, _) => match kind { case ArrayLength => "al" case StringLength => "sl" case Size => "si" }
    case ArithmeticExpr(_, _, _, _) => "ar"
    case Resolved(_, kind, _) => match kind { case StaticFieldValue => "sf" case ObjectFieldValue => "of" case StringConstant => "sc" }
  }

  predicate IsZero(t: JTerm) { t.Constant? && t.value == 0 }

  predicate IsOne(t: JTerm) { t.Constant? && t.value == 1 }

  /** `is_symbolic_expr`: variables, loop counters, field values and lengths
      are symbolic; an arithmetic expression is when either operand is;
      constants (including symbolic constants) are not. */
  predicate IsSymbolicExpr(t: JTerm)
  {
    match t
    case AuxiliaryVar(_, _) => true
    case LocalVar(_, _) => true
    case LoopCounter(_, _) => true
    case LengthOf(_, _, _) => true
    case Resolved(_, kind, _) => !kind.StringConstant?
    case ArithmeticExpr(_, _, e1, e2) => IsSymbolicExpr(e1) || IsSymbolicExpr(e2)
    case _ => false
  }

  /** `get_symbolic_dependencies`: a symbolic constant depends on itself, an
      arithmetic expression on its operands' dependencies in order. */
  function SymbolicDependencies(t: JTerm): (ds: seq<JTerm>)
    ensures forall d :: d in ds ==> d.SymbolicConstant?
  {
    match t
    case SymbolicConstant(_, _) => [t]
    case ArithmeticExpr(_, _, e1, e2) => SymbolicDependencies(e1) + SymbolicDependencies(e2)
    case _ => []
  }

  /** `has_symbolic_dependency`: compared by index. */
  predicate HasSymbolicDependency(t: JTerm, s: JTerm)
  {
    match t
    case SymbolicConstant(ix, _) => ix == s.index
    case ArithmeticExpr(_, _, e1, e2) => HasSymbolicDependency(e1, s) || HasSymbolicDependency(e2, s)
    case _ => false
  }

  /** The two queries agree: a term has a dependency on s exactly when one of
      its listed dependencies has the index of s. */
  lemma {:induction false} HasSymbolicDependencyIffListed(t: JTerm, s: JTerm)
    ensures HasSymbolicDependency(t, s) <==> exists d :: d in SymbolicDependencies(t) && d.index == s.index
  {
    match t
    case SymbolicConstant(_, _) =>
      assert t in SymbolicDependencies(t);
    case ArithmeticExpr(_, _, e1, e2) =>
      HasSymbolicDependencyIffListed(e1, s);
      HasSymbolicDependencyIffListed(e2, s);
      var d1 := SymbolicDependencies(e1);
      var d2 := SymbolicDependencies(e2);
      assert forall d :: d in d1 + d2 <==> d in d1 || d in d2;
    case _ =>
  }

  /** `convert_op`: the four arithmetic operators print with spaces around
      them, anything else prints as itself. */
  function OpString(op: string): (s: string)
    ensures op in {"mult", "add", "div", "sub"} ==> |s| == 3 && s[0] == ' ' && s[2] == ' '
    ensures op !in {"mult", "add", "div", "sub"} ==> s == op
  {
    if op == "mult" then " * "
    else if op == "add" then " + "
    else if op == "div" then " / "
    else if op == "sub" then " - "
    else op
  }

  function LengthName(kind: LengthKind): string
  {
    match kind
    case ArrayLength => "arraylength"
    case StringLength => "stringlength"
    case Size => "size"
  }

  /** `__str__` of a term. */
  function ToString(t: JTerm): (s: string)
    ensures t.ArithmeticExpr? ==> |s| >= 2 && s[0] == '(' && s[|s| - 1] == ')'
  {
    match t
    case Constant(_, v) => IntToString(v)
    case FloatConstant(_, text) => text
    case AuxiliaryVar(_, name) => "aux:" + name
    case LocalVar(_, vix) => "r:" + IntToString(vix)
    case LoopCounter(_, lc) => "lc:" + IntToString(lc)
    case BoolConstant(_, b) => "bc:" + (if b then "True" else "False")
    case SymbolicConstant(_, name) => "symc:" + name
    case LengthOf(_, kind, e) => LengthName(kind) + "(" + ToString(e) + ")"
    case ArithmeticExpr(_, op, e1, e2) => "(" + ToString(e1) + " " + OpString(op) + " " + ToString(e2) + ")"
    case Resolved(_, _, text) => text
  }

  /** Constants print as their decimal value, so reading the text back gives
      the value. */
  lemma ConstantToStringParses(t: JTerm)
    requires t.Constant?
    ensures ParseInt(ToString(t)) == Some(t.value)
  {
    ParseIntToString(t.value);
  }

  // ----------------------------------------------------------------- add, div

  /** What `add` and `div` decide, before any interning: return one of the
      operands, fold two integer constants, build a new expression from two
      operands, or do floating-point arithmetic. */
  datatype Outcome =
    | Same(t: JTerm)
    | Fold(v: int)
    | Compose(e1: JTerm, e2: JTerm)
    | FloatArithmetic

  /** `add`, dispatched on the receiver's class: `JTConstant.add` folds two
      integer constants, `JTFloatConstant.add` and the float branches do
      floating-point sums, and `JTermBase.add` returns the receiver for a
      zero operand and hands a constant or float operand the receiver. */
  function AddOutcome(a: JTerm, b: JTerm): (o: Outcome)
    ensures o.Same? ==> o.t == a
    ensures o.Compose? ==> (o.e1 == a && o.e2 == b) || (o.e1 == b && o.e2 == a)
  {
    match a
    case Constant(_, va) =>
      if b.Constant? then Fold(va + b.value)
      else if b.FloatConstant? then FloatArithmetic
      else Compose(a, b)
    case FloatConstant(_, _) =>
      if b.Constant? || b.FloatConstant? then FloatArithmetic
      else Compose(a, b)
    case _ =>
      if IsZero(b) then Same(a)
      else if b.Constant? || b.FloatConstant? then Compose(b, a)
      else Compose(a, b)
  }

  /** `div`: a divisor that is the constant one returns the dividend (except
      for a float dividend); constants and floats divide in floating point. */
  function DivOutcome(a: JTerm, b: JTerm): (o: Outcome)
    ensures o.Same? ==> o.t == a
    ensures o.Compose? ==> o.e1 == a && o.e2 == b
    ensures !o.Fold?
  {
    match a
    case Constant(_, _) =>
      if IsOne(b) then Same(a)
      else if b.Constant? || b.FloatConstant? then FloatArithmetic
      else Compose(a, b)
    case FloatConstant(_, _) =>
      if b.Constant? || b.FloatConstant? then FloatArithmetic
      else Compose(a, b)
    case _ =>
      if IsOne(b) then Same(a) else Compose(a, b)
  }

  /** Adding zero to a term that is not a constant gives the term itself; a
      constant plus zero folds to the same value. */
  lemma AddZero(a: JTerm, b: JTerm)
    requires IsZero(b) && !a.FloatConstant?
    ensures !a.Constant? ==> AddOutcome(a, b) == Same(a)
    ensures a.Constant? ==> AddOutcome(a, b) == Fold(a.value)
  {
  }

  /** Integer constants fold, whichever is the receiver, and folding is
      symmetric. */
  lemma AddConstants(a: JTerm, b: JTerm)
    requires a.Constant? && b.Constant?
    ensures AddOutcome(a, b) == Fold(a.value + b.value) == AddOutcome(b, a)
  {
  }

  /** When exactly one operand is an integer constant, it ends up as the first
      operand of the new expression, whichever side it was on. */
  lemma AddPutsConstantFirst(a: JTerm, b: JTerm)
    requires a.Constant? != b.Constant?
    requires !a.FloatConstant? && !b.FloatConstant? && !IsZero(a) && !IsZero(b)
    ensures AddOutcome(a, b).Compose? && AddOutcome(a, b).e1.Constant?
    ensures AddOutcome(a, b) == AddOutcome(b, a)
  {
  }

  /** Dividing by one returns the dividend, unless the dividend is a float. */
  lemma DivByOne(a: JTerm, b: JTerm)
    requires IsOne(b) && !a.FloatConstant?
    ensures DivOutcome(a, b) == Same(a)
  {
  }

  // ---------------------------------------------------------------- JTermList

  datatype JTermList = JTermList(index: int, terms: seq<JTerm>)

  /** The list's args are the indices of its terms. */
  function ListArgs(l: JTermList): (args: seq<int>)
    ensures |args| == |l.terms|
    ensures forall k :: 0 <= k < |args| ==> args[k] == l.terms[k].index
  {
    seq(|l.terms|, k requires 0 <= k < |l.terms| => l.terms[k].index)
  }

  predicate ListEquals(l: JTermList, other: JTermList) { l.index == other.index }

  predicate ListIsTop(l: JTermList) { |ListArgs(l)| == 0 }

  predicate ListIsConstant(l: JTermList) { |ListArgs(l)| == 1 && l.terms[0].Constant? }

  /** `get_constant`: the value of the single constant, None otherwise. */
  function ListGetConstant(l: JTermList): (r: Option<int>)
    ensures r.Some? <==> ListIsConstant(l)
    ensures r.Some? ==> l.terms == [Constant(l.terms[0].index, r.value)]
  {
    if ListIsConstant(l) then Some(l.terms[0].value) else None
  }

  /** Top and constant exclude each other. */
  lemma ListTopNotConstant(l: JTermList)
    ensures ListIsTop(l) <==> l.terms == []
    ensures !(ListIsTop(l) && ListIsConstant(l))
  {
  }

  predicate ListIsSymbolicExpr(l: JTermList)
  {
    exists k :: 0 <= k < |l.terms| && IsSymbolicExpr(l.terms[k])
  }

  function TermsDependencies(ts: seq<JTerm>): (ds: seq<JTerm>)
    ensures forall d :: d in ds ==> d.SymbolicConstant?
  {
    if ts == [] then [] else SymbolicDependencies(ts[0]) + TermsDependencies(ts[1..])
  }

  /** `get_symbolic_dependencies` of a list: the members' dependencies, in order. */
  function ListDependencies(l: JTermList): (ds: seq<JTerm>)
    ensures forall d :: d in ds ==> d.SymbolicConstant?
  {
    TermsDependencies(l.terms)
  }

  /** A list depends on a symbolic constant iff one of its members does. */
  lemma {:induction false} TermsDependenciesMembers(ts: seq<JTerm>, d: JTerm)
    ensures d in TermsDependencies(ts) <==> exists k :: 0 <= k < |ts| && d in SymbolicDependencies(ts[k])
  {
    if ts != [] {
      TermsDependenciesMembers(ts[1..], d);
      if d in TermsDependencies(ts[1..]) {
        var k :| 0 <= k < |ts[1..]| && d in SymbolicDependencies(ts[1..][k]);
        assert d in SymbolicDependencies(ts[k + 1]);
      }
      if exists k :: 0 <= k < |ts| && d in SymbolicDependencies(ts[k]) {
        var k :| 0 <= k < |ts| && d in SymbolicDependencies(ts[k]);
        if k > 0 {
          assert d in SymbolicDependencies(ts[1..][k - 1]);
        }
      }
    }
  }

  function FirstSymbolic(ts: seq<JTerm>): (r: Option<JTerm>)
    ensures r.Some? <==> exists k :: 0 <= k < |ts| && IsSymbolicExpr(ts[k])
    ensures r.Some? ==> r.value in ts && IsSymbolicExpr(r.value)
  {
    if ts == [] then None
    else if IsSymbolicExpr(ts[0]) then Some(ts[0])
    else
      var r := FirstSymbolic(ts[1..]);
      assert forall k :: 1 <= k < |ts| ==> ts[k] == ts[1..][k - 1];
      r
  }

  /** `get_symbolic_expr` of a list: its first symbolic member. */
  function ListSymbolicExpr(l: JTermList): (r: Option<JTerm>)
    ensures r.Some? <==> ListIsSymbolicExpr(l)
    ensures r.Some? ==> r.value in l.terms && IsSymbolicExpr(r.value)
  {
    FirstSymbolic(l.terms)
  }

  function TermStrings(ts: seq<JTerm>): (r: seq<string>)
    ensures |r| == |ts|
    ensures forall k :: 0 <= k < |ts| ==> r[k] == ToString(ts[k])
  {
    if ts == [] then [] else [ToString(ts[0])] + TermStrings(ts[1..])
  }

  /** `__str__` of a list: the members' texts joined by ','. */
  function ListToString(l: JTermList): (s: string)
    ensures ListIsTop(l) ==> s == ""
    ensures ListIsConstant(l) ==> s == IntToString(l.terms[0].value)
  {
    Join(",", TermStrings(l.terms))
  }

  // --------------------------------------------------------------- JTermRange

  datatype JTermRange = JTermRange(index: int, lbs: JTermList, ubs: JTermList)

  predicate RangeIsTop(r: JTermRange) { ListIsTop(r.lbs) && ListIsTop(r.ubs) }

  /** `is_value`: both bounds constant and the two lists the same list. */
  predicate RangeIsValue(r: JTermRange)
  {
    ListIsConstant(r.lbs) && ListIsConstant(r.ubs) && ListEquals(r.lbs, r.ubs)
  }

  predicate RangeIsRange(r: JTermRange) { ListIsConstant(r.lbs) && ListIsConstant(r.ubs) }

  predicate RangeIsUbOpen(r: JTermRange) { ListIsConstant(r.lbs) && ListIsTop(r.ubs) }

  /** `is_lb_open_range` as written: it computes the test into a local and
      returns nothing, so it never holds. */
  predicate RangeIsLbOpenAsWritten(r: JTermRange) { false }

  /** `is_lb_open_range` as intended: no lower bound, a constant upper bound. */
  predicate RangeIsLbOpen(r: JTermRange) { ListIsTop(r.lbs) && ListIsConstant(r.ubs) }

  /** The written predicate misses a range it is meant to recognise: one with
      no lower bound and the constant 7 as upper bound. */
  lemma LbOpenAsWrittenMissesRange()
    ensures var r := JTermRange(3, JTermList(1, []), JTermList(2, [Constant(5, 7)]));
      RangeIsLbOpen(r) && !RangeIsLbOpenAsWritten(r)
  {
    var r := JTermRange(3, JTermList(1, []), JTermList(2, [Constant(5, 7)]));
    assert ListArgs(r.lbs) == [];
    assert ListArgs(r.ubs) == [5];
  }

  /** `get_value`: the shared constant of a value range. */
  function RangeGetValue(r: JTermRange): (v: Option<int>)
    ensures v.Some? <==> RangeIsValue(r)
    ensures v.Some? ==> ListGetConstant(r.lbs) == v && ListGetConstant(r.ubs).Some?
  {
    if RangeIsValue(r) then ListGetConstant(r.lbs) else None
  }

  /** `get_range`: the two constants of a constant range. */
  function RangeGetRange(r: JTermRange): (p: Option<(int, int)>)
    ensures p.Some? <==> RangeIsRange(r)
    ensures p.Some? ==> Some(p.value.0) == ListGetConstant(r.lbs) && Some(p.value.1) == ListGetConstant(r.ubs)
  {
    if RangeIsRange(r) then Some((r.lbs.terms[0].value, r.ubs.terms[0].value)) else None
  }

  /** The shapes of a range are exclusive, except that a value is a range. */
  lemma RangeShapes(r: JTermRange)
    ensures RangeIsValue(r) ==> RangeIsRange(r)
    ensures RangeIsTop(r) ==> !RangeIsRange(r) && !RangeIsUbOpen(r) && !RangeIsLbOpen(r)
    ensures RangeIsRange(r) ==> !RangeIsUbOpen(r) && !RangeIsLbOpen(r)
    ensures !(RangeIsUbOpen(r) && RangeIsLbOpen(r))
  {
  }

  predicate RangeIsSymbolicExpr(r: JTermRange) { ListIsSymbolicExpr(r.ubs) }

  function RangeUbDependencies(r: JTermRange): (ds: seq<JTerm>)
    ensures forall d :: d in ds ==> d.SymbolicConstant?
  {
    ListDependencies(r.ubs)
  }

  /** `__str__` of a range, with the lower-open case as intended. */
  function RangeToString(r: JTermRange): (s: string)
    ensures RangeIsTop(r) ==> s == "T"
    ensures RangeIsValue(r) ==> s == IntToString(RangeGetValue(r).value)
    ensures RangeIsRange(r) && !RangeIsValue(r) ==>
      s == "[" + IntToString(RangeGetRange(r).value.0) + "; " + IntToString(RangeGetRange(r).value.1) + "]"
  {
    if RangeIsTop(r) then "T"
    else if RangeIsValue(r) then IntToString(RangeGetValue(r).value)
    else if RangeIsRange(r) then
      var (lb, ub) := RangeGetRange(r).value;
      "[" + IntToString(lb) + "; " + IntToString(ub) + "]"
    else if RangeIsUbOpen(r) then "[" + IntToString(r.lbs.terms[0].value) + "; ->"
    else if RangeIsLbOpen(r) then "<- ; " + IntToString(r.ubs.terms[0].value) + "]"
    else if RangeIsSymbolicExpr(r) then ToString(ListSymbolicExpr(r.ubs).value)
    else
      var lb := ListToString(r.lbs);
      var ub := ListToString(r.ubs);
      if lb == ub then lb else "lb:" + lb + "\n   ub:" + ub
  }

  /** The printed text of a value range reads back as the value, and the
      printed text of a proper range is bracketed, so the two never clash. */
  lemma RangeToStringDistinguishes(r: JTermRange)
    ensures RangeIsValue(r) ==> ParseInt(RangeToString(r)) == RangeGetValue(r)
    ensures RangeIsRange(r) && !RangeIsValue(r) ==> RangeToString(r)[0] == '['
    ensures RangeIsTop(r) ==> ParseInt(RangeToString(r)) == None
  {
    if RangeIsValue(r) {
      ParseIntToString(RangeGetValue(r).value);
    }
  }
}
