/** A side-channel check of a method (chj/cost/SideChannelCheck.py): the
    decision and observation pcs of the check, the full paths between them,
    the longest of those paths through a given pc, and the branch
    conditions met along a path. */
module SideChannelChecks {
  import opened Wrappers
  import opened Strings
  import opened Dicts
  import opened Cfgs
  import opened Loops
  import opened JavaMethods

  /** The attributes of the check's xml element. */
  type Attributes = map<string, string>

  /** Reads an integer attribute: CHJError when it is missing, ValueError
      when it is not an integer (Python's `int`). */
  function IntAttribute(attrs: Attributes, name: string): (r: Result<int>)
    ensures name !in attrs <==> r.Err? && r.error.CHJError?
    ensures r.Err? && r.error.CHJError? ==> r.error.msg == name + " missing from xml"
    ensures name in attrs ==> (r.Ok? <==> ParseInt(attrs[name]).Some?)
    ensures r.Ok? ==> r.value == ParseInt(attrs[name]).value
  {
    if name !in attrs then Err(CHJError(name + " missing from xml"))
    else match ParseInt(attrs[name])
      case None => Err(ValueError("invalid literal for int() with base 10: '" + attrs[name] + "'"))
      case Some(v) => Ok(v)
  }

  /** `decisionpc`. */
  function DecisionPc(attrs: Attributes): (r: Result<int>)
    ensures "decision-pc" !in attrs ==> r == Err(CHJError("decision-pc missing from xml"))
    ensures r.Ok? ==> "decision-pc" in attrs && ParseInt(attrs["decision-pc"]) == Some(r.value)
  {
    IntAttribute(attrs, "decision-pc")
  }

  /** `observationpc`. */
  function ObservationPc(attrs: Attributes): (r: Result<int>)
    ensures "observation-pc" !in attrs ==> r == Err(CHJError("observation-pc missing from xml"))
    ensures r.Ok? ==> "observation-pc" in attrs && ParseInt(attrs["observation-pc"]) == Some(r.value)
  {
    IntAttribute(attrs, "observation-pc")
  }

  /** `get_full_paths`: the enumerated paths of the method's cfg from the
      decision pc to the observation pc. */
  method GetFullPaths(attrs: Attributes, cfg: Cfg) returns (r: Result<seq<seq<int>>>)
    ensures DecisionPc(attrs).Err? ==> r == Err(DecisionPc(attrs).error)
    ensures DecisionPc(attrs).Ok? && ObservationPc(attrs).Err? ==> r == Err(ObservationPc(attrs).error)
    ensures r.Ok? ==>
      DecisionPc(attrs).Ok? && ObservationPc(attrs).Ok? &&
      AllPaths(cfg.edges, r.value, DecisionPc(attrs).value, ObservationPc(attrs).value)
  {
    var d := DecisionPc(attrs);
    if d.Err? {
      return Err(d.error);
    }
    var o := ObservationPc(attrs);
    if o.Err? {
      return Err(o.error);
    }
    r := cfg.EnumeratePaths(d.value, o.value);
  }

  /** Whether the second-to-last node of a path is pc. */
  predicate EndsVia(p: seq<int>, pc: int)
    requires |p| >= 2
  {
    p[|p| - 2] == pc
  }

  /** `get_full_paths_through_pc`: the paths whose second-to-last node is
      pc, in order; a path of fewer than two nodes raises IndexError. */
  function PathsThroughPc(paths: seq<seq<int>>, pc: int): (r: Result<seq<seq<int>>>)
    ensures r.Ok? <==> forall k :: 0 <= k < |paths| ==> |paths[k]| >= 2
    ensures r.Err? ==> r.error.IndexError?
    ensures r.Ok? ==> |r.value| <= |paths|
    ensures r.Ok? ==> forall p :: p in r.value <==> p in paths && EndsVia(p, pc)
  {
    if paths == [] then Ok([])
    else
      var init := paths[..|paths| - 1];
      var last := paths[|paths| - 1];
      assert forall p :: p in paths <==> p in init || p == last;
      match PathsThroughPc(init, pc)
      case Err(e) => Err(e)
      case Ok(ps) =>
        if |last| < 2 then Err(IndexError("list index out of range"))
        else Ok(ps + (if EndsVia(last, pc) then [last] else []))
  }

  /** The enumerated paths of a cfg have at least two nodes, so selecting
      those through a pc never fails. */
  lemma EnumeratedPathsThroughPc(edges: map<int, seq<int>>, paths: seq<seq<int>>, startpc: int, endpc: int, pc: int)
    requires AllPaths(edges, paths, startpc, endpc)
    ensures PathsThroughPc(paths, pc).Ok?
  {
    assert forall k :: 0 <= k < |paths| ==> PathFromTo(edges, paths[k], startpc, endpc);
  }

  /** The node sets of the paths. */
  function PathSets(ps: seq<seq<int>>): set<set<int>>
  {
    set p | p in ps :: NodeSet(p)
  }

  /** A node set that no other set of the collection strictly contains. */
  predicate IsMaximal(s: set<int>, sets: set<set<int>>)
  {
    forall x :: x in sets ==> !(s < x)
  }

  /** The maximal node sets of a collection. */
  function MaximalSets(sets: set<set<int>>): (r: set<set<int>>)
    ensures forall s :: s in r <==> s in sets && IsMaximal(s, sets)
  {
    set s | s in sets && IsMaximal(s, sets)
  }

  /** The paths, in order, whose node set is one of the given sets. */
  function WithNodeSetIn(ps: seq<seq<int>>, sets: set<set<int>>): (r: seq<seq<int>>)
    ensures |r| <= |ps|
    ensures forall p :: p in r <==> p in ps && NodeSet(p) in sets
  {
    if ps == [] then []
    else
      var last := ps[|ps| - 1];
      assert forall p :: p in ps <==> p in ps[..|ps| - 1] || p == last;
      WithNodeSetIn(ps[..|ps| - 1], sets) + (if NodeSet(last) in sets then [last] else [])
  }

  /** The paths of the list, in order, whose node set is maximal among the
      node sets of the list. */
  function MaximalPaths(ps: seq<seq<int>>): seq<seq<int>>
  {
    WithNodeSetIn(ps, MaximalSets(PathSets(ps)))
  }

  /** A path is kept exactly when no path of the list has a node set that
      strictly contains its own. */
  lemma MaximalPathsMembers(ps: seq<seq<int>>, p: seq<int>)
    ensures p in MaximalPaths(ps) <==> p in ps && forall q :: q in ps ==> !(NodeSet(p) < NodeSet(q))
  {
    var sets := PathSets(ps);
    if p in ps && forall q :: q in ps ==> !(NodeSet(p) < NodeSet(q)) {
      forall x | x in sets
        ensures !(NodeSet(p) < x)
      {
        var q :| q in ps && NodeSet(q) == x;
      }
    }
  }

  /** A path of the list with the most distinct nodes. */
  function Largest(ps: seq<seq<int>>): (p: seq<int>)
    requires |ps| > 0
    ensures p in ps
    ensures forall q :: q in ps ==> |NodeSet(q)| <= |NodeSet(p)|
  {
    if |ps| == 1 then ps[0]
    else
      var rest := Largest(ps[1..]);
      assert forall q :: q in ps <==> q == ps[0] || q in ps[1..];
      if |NodeSet(ps[0])| >= |NodeSet(rest)| then ps[0] else rest
  }

  /** A strict superset has more elements. */
  lemma StrictSupersetLarger(s: set<int>, x: set<int>)
    requires s < x
    ensures |s| < |x|
  {
    if forall y :: y in x ==> y in s {
      assert false;
    }
    var e :| e in x && e !in s;
    SubsetNoLarger(s, x - {e});
  }

  lemma {:induction false} SubsetNoLarger(a: set<int>, b: set<int>)
    requires a <= b
    ensures |a| <= |b|
    decreases b
  {
    if a != {} {
      if forall y :: y !in a {
        assert false;
      }
      var e :| e in a;
      SubsetNoLarger(a - {e}, b - {e});
    }
  }

  /** Some path survives whenever there is a path through pc: a path with
      the most distinct nodes is maximal. */
  lemma {:induction false} MaximalPathsNonEmpty(ps: seq<seq<int>>)
    requires |ps| > 0
    ensures |MaximalPaths(ps)| > 0
  {
    var p := Largest(ps);
    forall q | q in ps
      ensures !(NodeSet(p) < NodeSet(q))
    {
      if NodeSet(p) < NodeSet(q) {
        StrictSupersetLarger(NodeSet(p), NodeSet(q));
      }
    }
    MaximalPathsMembers(ps, p);
  }

  /** `get_longest_full_paths_through_pc`: of the paths through pc, those
      whose node set no other such path strictly contains, in order. */
  method LongestFullPathsThroughPc(paths: seq<seq<int>>, pc: int) returns (r: Result<seq<seq<int>>>)
    ensures r.Ok? <==> PathsThroughPc(paths, pc).Ok?
    ensures r.Err? ==> r == PathsThroughPc(paths, pc)
    ensures r.Ok? ==> r.value == MaximalPaths(PathsThroughPc(paths, pc).value)
  {
    var through := PathsThroughPc(paths, pc);
    if through.Err? {
      return through;
    }
    var fullpaths := through.value;
    var maximalsets := MaximalSets(PathSets(fullpaths));
    var maximalpaths := [];
    var i := 0;
    while i < |fullpaths|
      invariant 0 <= i <= |fullpaths|
      invariant maximalpaths == WithNodeSetIn(fullpaths[..i], maximalsets)
    {
      assert fullpaths[..i + 1][..i] == fullpaths[..i];
      if NodeSet(fullpaths[i]) in maximalsets {
        maximalpaths := maximalpaths + [fullpaths[i]];
      }
      i := i + 1;
    }
    assert fullpaths[..i] == fullpaths;
    return Ok(maximalpaths);
  }

  /** Every longest path is a path through pc, and there is one whenever
      some path goes through pc. */
  lemma LongestAreThroughPc(paths: seq<seq<int>>, pc: int, p: seq<int>)
    requires PathsThroughPc(paths, pc).Ok?
    ensures p in MaximalPaths(PathsThroughPc(paths, pc).value) ==> p in paths && |p| >= 2 && EndsVia(p, pc)
    ensures |PathsThroughPc(paths, pc).value| > 0 ==> |MaximalPaths(PathsThroughPc(paths, pc).value)| > 0
  {
    var through := PathsThroughPc(paths, pc).value;
    MaximalPathsMembers(through, p);
    if |through| > 0 {
      MaximalPathsNonEmpty(through);
    }
  }

  /** One node's contribution to `get_conditions_in_path`: nothing when
      its block has no conditions or it is the last node; 'L:' with the
      false condition and the loop bound for a loop head that comes back
      later in the path; the false condition for a step to the pc after
      the block; the true condition otherwise. An unknown block, a missing
      false condition in the loop text, or a block end that is not an
      instruction pc raises. */
  function StepCondition(m: JavaMethod, p: seq<int>, n: int): (r: Result<Option<(string, Option<string>)>>)
    reads m
    requires m.cfg.Some? && 0 <= n < |p|
    ensures Lookup(m.cfg.value, p[n]).None? ==> r.Err?
    ensures r.Ok? && r.value.Some? ==>
      n < |p| - 1 && Lookup(m.cfg.value, p[n]).Some? && HasConditions(Lookup(m.cfg.value, p[n]).value) &&
      r.value.value.0 == IntToString(p[n])
    ensures (Lookup(m.cfg.value, p[n]).Some? && n < |p| - 1 && HasConditions(Lookup(m.cfg.value, p[n]).value) &&
             m.IsLoopHead(p[n]) && p[n] in p[n + 1..] && GetFcond(Lookup(m.cfg.value, p[n]).value).Some?) ==>
      r == Ok(Some((IntToString(p[n]), Some("L:" + GetFcond(Lookup(m.cfg.value, p[n]).value).value +
        " (bound: " + GetBound(m.GetLoop(p[n]).value) + ")"))))
    ensures (Lookup(m.cfg.value, p[n]).Some? && n < |p| - 1 && HasConditions(Lookup(m.cfg.value, p[n]).value) &&
             !(m.IsLoopHead(p[n]) && p[n] in p[n + 1..]) && m.GetNextPc(Lookup(m.cfg.value, p[n]).value.lastpc).Ok?) ==>
      r == Ok(Some((IntToString(p[n]),
        if m.GetNextPc(Lookup(m.cfg.value, p[n]).value.lastpc).value == Some(p[n + 1])
        then GetFcond(Lookup(m.cfg.value, p[n]).value)
        else GetTcond(Lookup(m.cfg.value, p[n]).value))))
  {
    match Lookup(m.cfg.value, p[n])
    case None => Err(Failure("'NoneType' object has no attribute 'has_conditions'"))
    case Some(b) =>
      if !(HasConditions(b) && n < |p| - 1) then Ok(None)
      else if m.IsLoopHead(p[n]) && p[n] in p[n + 1..] then
        match GetFcond(b)
        case None => Err(Failure("can only concatenate str (not \"NoneType\") to str"))
        case Some(f) => Ok(Some((IntToString(p[n]), Some("L:" + f + " (bound: " + GetBound(m.GetLoop(p[n]).value) + ")"))))
      else
        match m.GetNextPc(b.lastpc)
        case Err(e) => Err(e)
        case Ok(next) =>
          Ok(Some((IntToString(p[n]), if next == Some(p[n + 1]) then GetFcond(b) else GetTcond(b))))
  }

  /** The conditions of the nodes from position n on, stopping at the
      first node that raises; the last node never contributes. */
  function ConditionsFrom(m: JavaMethod, p: seq<int>, n: nat): (r: Result<seq<(string, Option<string>)>>)
    reads m
    requires m.cfg.Some? && n <= |p|
    ensures r.Ok? && n < |p| ==> |r.value| < |p| - n
    decreases |p| - n
  {
    if n == |p| then Ok([])
    else match StepCondition(m, p, n)
      case Err(e) => Err(e)
      case Ok(c) =>
        match ConditionsFrom(m, p, n + 1)
        case Err(e) => Err(e)
        case Ok(rest) => Ok((if c.Some? then [c.value] else []) + rest)
  }

  /** Each condition listed comes from a node of the path, in the way
      StepCondition describes. */
  lemma {:induction false} ConditionsFromOrigin(m: JavaMethod, p: seq<int>, n: nat, k: int)
    requires m.cfg.Some? && n <= |p|
    requires ConditionsFrom(m, p, n).Ok? && 0 <= k < |ConditionsFrom(m, p, n).value|
    ensures exists j :: n <= j < |p| - 1 && StepCondition(m, p, j) == Ok(Some(ConditionsFrom(m, p, n).value[k]))
    decreases |p| - n
  {
    ConditionsFromCons(m, p, n);
    var c := StepCondition(m, p, n).value;
    var all := ConditionsFrom(m, p, n).value;
    var rest := ConditionsFrom(m, p, n + 1).value;
    if c.Some? && k == 0 {
      assert all[0] == c.value;
      assert n <= n < |p| - 1 && StepCondition(m, p, n) == Ok(Some(all[k]));
    } else {
      var k' := if c.Some? then k - 1 else k;
      assert all[k] == rest[k'];
      ConditionsFromOrigin(m, p, n + 1, k');
      var j :| n + 1 <= j < |p| - 1 && StepCondition(m, p, j) == Ok(Some(rest[k']));
      assert n <= j < |p| - 1 && StepCondition(m, p, j) == Ok(Some(all[k]));
    }
  }

  /** The conditions from node n on: those of node n, then the rest. */
  lemma ConditionsFromCons(m: JavaMethod, p: seq<int>, n: nat)
    requires m.cfg.Some? && n <= |p| && ConditionsFrom(m, p, n).Ok? && 0 < |ConditionsFrom(m, p, n).value|
    ensures n < |p| && StepCondition(m, p, n).Ok? && ConditionsFrom(m, p, n + 1).Ok?
    ensures ConditionsFrom(m, p, n).value ==
      (if StepCondition(m, p, n).value.Some? then [StepCondition(m, p, n).value.value] else []) + ConditionsFrom(m, p, n + 1).value
  {
  }

  /** `get_conditions_in_path`: the conditions met along the path; a
      method without cfg raises once there is a node to look up. */
  function GetConditionsInPath(m: JavaMethod, p: seq<int>): (r: Result<seq<(string, Option<string>)>>)
    reads m
    ensures p == [] ==> r == Ok([])
    ensures p != [] && m.cfg.None? ==> r.Err?
    ensures p != [] && m.cfg.Some? ==> r == ConditionsFrom(m, p, 0)
    ensures r.Ok? && p != [] ==> |r.value| < |p|
  {
    if p == [] then Ok([])
    else if m.cfg.None? then Err(Failure("'NoneType' object has no attribute 'get_block'"))
    else ConditionsFrom(m, p, 0)
  }

  /** Every condition listed is that of a node other than the last whose
      block has conditions, labelled with that node's pc. */
  lemma ConditionsFromBranches(m: JavaMethod, p: seq<int>, k: int)
    requires GetConditionsInPath(m, p).Ok? && 0 <= k < |GetConditionsInPath(m, p).value|
    ensures p != [] && m.cfg.Some?
    ensures exists j :: (0 <= j < |p| - 1 && GetConditionsInPath(m, p).value[k].0 == IntToString(p[j]) &&
      Lookup(m.cfg.value, p[j]).Some? && HasConditions(Lookup(m.cfg.value, p[j]).value))
  {
    ConditionsFromOrigin(m, p, 0, k);
  }

  /** A node contributes no condition unless its block has conditions and
      it is not the last node; a path whose blocks have no conditions has
      none. */
  lemma {:induction false} NoConditionsWithoutBranches(m: JavaMethod, p: seq<int>, n: nat)
    requires m.cfg.Some? && n <= |p|
    requires forall j :: n <= j < |p| ==> Lookup(m.cfg.value, p[j]).Some? && !HasConditions(Lookup(m.cfg.value, p[j]).value)
    ensures ConditionsFrom(m, p, n) == Ok([])
    decreases |p| - n
  {
    if n < |p| {
      NoConditionsWithoutBranches(m, p, n + 1);
    }
  }
}
