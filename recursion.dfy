/** Recursion among application methods (chj/reporting/Recursion.py): the
    application callees of each caller, read off the call-graph edges, and
    the three queries over them: methods that call themselves, pairs of
    methods that call each other, and cycles through two other methods. */
module Recursions {
  import opened Wrappers
  import opened Strings
  import opened Dicts
  import opened CallgraphDictionaries

  /** A call-graph edge as the data dictionary hands it to its iterator:
      the calling method, the pc of the call, the callee signature and the
      call's targets. */
  datatype GraphEdge = GraphEdge(caller: int, pc: int, callee: int, tgt: CallgraphTarget)

  /** The elements of a list, as a set. */
  function Elems(s: seq<int>): set<int>
  {
    set x | x in s
  }

  lemma ElemsSnoc(s: seq<int>, x: int)
    ensures Elems(s + [x]) == Elems(s) + {x}
  {
  }

  /** `cmstgts`: `get_cmsix` of each application target class of an edge
      with the callee signature, in the order of the targets. */
  function CmsTargets(e: GraphEdge, app: set<int>, cmsixOf: (int, int) -> int): (r: seq<int>)
    ensures |r| == |e.tgt.ApplicationTargets(app)|
    ensures forall k :: 0 <= k < |r| ==> r[k] == cmsixOf(e.tgt.ApplicationTargets(app)[k], e.callee)
  {
    var ts := e.tgt.ApplicationTargets(app);
    seq(|ts|, k requires 0 <= k < |ts| => cmsixOf(ts[k], e.callee))
  }

  /** The methods an edge leads to inside the application. */
  function EdgeCallees(e: GraphEdge, app: set<int>, cmsixOf: (int, int) -> int): set<int>
  {
    Elems(CmsTargets(e, app, cmsixOf))
  }

  /** An edge leads to y exactly when y is the method of the callee
      signature in one of its application target classes. */
  lemma EdgeCalleesSpec(e: GraphEdge, app: set<int>, cmsixOf: (int, int) -> int, y: int)
    ensures y in EdgeCallees(e, app, cmsixOf) <==>
      exists x :: x in e.tgt.Cnixs() && x in app && y == cmsixOf(x, e.callee)
  {
    var ts := e.tgt.ApplicationTargets(app);
    if y in EdgeCallees(e, app, cmsixOf) {
      var k :| 0 <= k < |ts| && CmsTargets(e, app, cmsixOf)[k] == y;
      assert ts[k] in ts;
    }
    if exists x :: x in e.tgt.Cnixs() && x in app && y == cmsixOf(x, e.callee) {
      var x :| x in e.tgt.Cnixs() && x in app && y == cmsixOf(x, e.callee);
      var k :| 0 <= k < |ts| && ts[k] == x;
      assert CmsTargets(e, app, cmsixOf)[k] == y;
    }
  }

  /** The callees recorded for a method, none when it has no entry. */
  function CalleesOf(d: Dict<int, set<int>>, c: int): set<int>
  {
    if Lookup(d, c).Some? then Lookup(d, c).value else {}
  }

  /** Method a calls method b in the application. */
  predicate Calls(d: Dict<int, set<int>>, a: int, b: int)
  {
    b in CalleesOf(d, a)
  }

  /** The dictionary `get_appedges` has built after the given edges: an
      edge with application targets makes sure its caller has an entry and
      adds the edge's application callees to it; other edges are skipped. */
  function AppEdges(es: seq<GraphEdge>, app: set<int>, cmsixOf: (int, int) -> int): (d: Dict<int, set<int>>)
    ensures KeysDistinct(d)
  {
    if es == [] then []
    else
      var d := AppEdges(es[..|es| - 1], app, cmsixOf);
      var e := es[|es| - 1];
      if e.tgt.HasApplicationTargets(app) then Put(d, e.caller, CalleesOf(d, e.caller) + EdgeCallees(e, app, cmsixOf))
      else d
  }

  /** Some edge from c has application targets. */
  ghost predicate HasAppEdge(es: seq<GraphEdge>, app: set<int>, c: int)
  {
    exists k :: 0 <= k < |es| && es[k].caller == c && es[k].tgt.HasApplicationTargets(app)
  }

  /** Some edge from c with application targets leads to y. */
  ghost predicate CallsThrough(es: seq<GraphEdge>, app: set<int>, cmsixOf: (int, int) -> int, c: int, y: int)
  {
    exists k :: 0 <= k < |es| && es[k].caller == c && es[k].tgt.HasApplicationTargets(app) &&
      y in EdgeCallees(es[k], app, cmsixOf)
  }

  lemma HasAppEdgeSnoc(es: seq<GraphEdge>, e: GraphEdge, app: set<int>, c: int)
    ensures HasAppEdge(es + [e], app, c) <==> HasAppEdge(es, app, c) || (e.caller == c && e.tgt.HasApplicationTargets(app))
  {
    if HasAppEdge(es + [e], app, c) {
      var k :| 0 <= k < |es + [e]| && (es + [e])[k].caller == c && (es + [e])[k].tgt.HasApplicationTargets(app);
      if k < |es| {
        assert (es + [e])[k] == es[k];
      }
    }
    if HasAppEdge(es, app, c) {
      var k :| 0 <= k < |es| && es[k].caller == c && es[k].tgt.HasApplicationTargets(app);
      assert (es + [e])[k] == es[k];
    }
    assert (es + [e])[|es|] == e;
  }

  lemma CallsThroughSnoc(es: seq<GraphEdge>, e: GraphEdge, app: set<int>, cmsixOf: (int, int) -> int, c: int, y: int)
    ensures CallsThrough(es + [e], app, cmsixOf, c, y) <==> (CallsThrough(es, app, cmsixOf, c, y) ||
      (e.caller == c && e.tgt.HasApplicationTargets(app) && y in EdgeCallees(e, app, cmsixOf)))
  {
    var es' := es + [e];
    if CallsThrough(es', app, cmsixOf, c, y) {
      var k :| 0 <= k < |es'| && es'[k].caller == c && es'[k].tgt.HasApplicationTargets(app) &&
        y in EdgeCallees(es'[k], app, cmsixOf);
      if k < |es| {
        assert es'[k] == es[k];
      }
    }
    if CallsThrough(es, app, cmsixOf, c, y) {
      var k :| 0 <= k < |es| && es[k].caller == c && es[k].tgt.HasApplicationTargets(app) &&
        y in EdgeCallees(es[k], app, cmsixOf);
      assert es'[k] == es[k];
    }
    assert es'[|es|] == e;
  }

  /** A caller has an entry exactly when one of its edges has application
      targets. */
  lemma {:induction false} AppEdgesKeys(es: seq<GraphEdge>, app: set<int>, cmsixOf: (int, int) -> int, c: int)
    ensures Lookup(AppEdges(es, app, cmsixOf), c).Some? <==> HasAppEdge(es, app, c)
  {
    if es != [] {
      var es0, e := es[..|es| - 1], es[|es| - 1];
      var d := AppEdges(es0, app, cmsixOf);
      AppEdgesKeys(es0, app, cmsixOf, c);
      assert es == es0 + [e];
      HasAppEdgeSnoc(es0, e, app, c);
      if e.tgt.HasApplicationTargets(app) {
        LookupPut(d, e.caller, CalleesOf(d, e.caller) + EdgeCallees(e, app, cmsixOf), c);
      }
    }
  }

  /** A caller's entry holds exactly the application callees of its edges
      with application targets. */
  lemma {:induction false} AppEdgesCalls(es: seq<GraphEdge>, app: set<int>, cmsixOf: (int, int) -> int, c: int, y: int)
    ensures Calls(AppEdges(es, app, cmsixOf), c, y) <==> CallsThrough(es, app, cmsixOf, c, y)
  {
    if es != [] {
      var es0, e := es[..|es| - 1], es[|es| - 1];
      var d := AppEdges(es0, app, cmsixOf);
      AppEdgesCalls(es0, app, cmsixOf, c, y);
      assert es == es0 + [e];
      CallsThroughSnoc(es0, e, app, cmsixOf, c, y);
      if e.tgt.HasApplicationTargets(app) {
        LookupPut(d, e.caller, CalleesOf(d, e.caller) + EdgeCallees(e, app, cmsixOf), c);
      }
    }
  }

  /** The loop adding each target's method to a set of callees. */
  method AddAll(callees0: set<int>, cmstgts: seq<int>) returns (callees: set<int>)
    ensures callees == callees0 + Elems(cmstgts)
  {
    callees := callees0;
    assert cmstgts[..0] == [];
    var j := 0;
    while j < |cmstgts|
      invariant 0 <= j <= |cmstgts|
      invariant callees == callees0 + Elems(cmstgts[..j])
    {
      assert cmstgts[..j + 1] == cmstgts[..j] + [cmstgts[j]];
      ElemsSnoc(cmstgts[..j], cmstgts[j]);
      callees := callees + {cmstgts[j]};
      j := j + 1;
    }
    assert cmstgts[..j] == cmstgts;
  }

  /** The part of `get_appedges` for one edge with application targets:
      the caller gets an empty entry if it has none, and each target's
      method is added to the set in that entry. */
  method AddCallees(d: Dict<int, set<int>>, caller: int, cmstgts: seq<int>) returns (d': Dict<int, set<int>>)
    ensures d' == Put(d, caller, CalleesOf(d, caller) + Elems(cmstgts))
  {
    ghost var present := Lookup(d, caller).Some?;
    d' := d;
    if Lookup(d', caller).None? {
      d' := Put(d', caller, {});
      LookupPut(d, caller, {}, caller);
    }
    var callees := AddAll(CalleesOf(d', caller), cmstgts);
    if present {
      PutTwice(d, caller, CalleesOf(d, caller), callees);
      PutPresent(d, caller);
    } else {
      PutTwice(d, caller, {}, callees);
    }
    d' := Put(d', caller, callees);
  }

  /** `get_appedges`: the edges in the dictionary's order, the application
      classes and `get_cmsix` are given. */
  method GetAppEdges(es: seq<GraphEdge>, app: set<int>, cmsixOf: (int, int) -> int) returns (d: Dict<int, set<int>>)
    ensures d == AppEdges(es, app, cmsixOf)
  {
    d := [];
    var i := 0;
    while i < |es|
      invariant 0 <= i <= |es|
      invariant d == AppEdges(es[..i], app, cmsixOf)
    {
      var e := es[i];
      assert es[..i + 1][..i] == es[..i];
      if e.tgt.HasApplicationTargets(app) {
        var cmstgts := CmsTargets(e, app, cmsixOf);
        d := AddCallees(d, e.caller, cmstgts);
      }
      i := i + 1;
    }
    assert es[..i] == es;
  }

  /** The methods that call themselves, in the order of their entries. */
  function SelfRecursive(d: Dict<int, set<int>>): seq<int>
  {
    if d == [] then []
    else
      var (c, callees) := d[|d| - 1];
      SelfRecursive(d[..|d| - 1]) + (if c in callees then [c] else [])
  }

  predicate NoDuplicates<T(==)>(s: seq<T>)
  {
    forall i, j :: 0 <= i < j < |s| ==> s[i] != s[j]
  }

  /** The self-recursive list holds each method that calls itself, once. */
  lemma {:induction false} SelfRecursiveSpec(d: Dict<int, set<int>>, c: int)
    requires KeysDistinct(d)
    ensures c in SelfRecursive(d) <==> Calls(d, c, c)
    ensures NoDuplicates(SelfRecursive(d))
  {
    if d != [] {
      var d0, k, v := d[..|d| - 1], d[|d| - 1].0, d[|d| - 1].1;
      assert d == d0 + [(k, v)];
      assert KeysDistinct(d0);
      SelfRecursiveSpec(d0, c);
      SelfRecursiveSpec(d0, k);
      LookupSnoc(d0, k, v, c);
      LookupSnoc(d0, k, v, k);
    }
  }

  /** a and b call each other, a being the smaller. */
  predicate MutualPair(d: Dict<int, set<int>>, a: int, b: int)
  {
    a < b && Calls(d, a, b) && Calls(d, b, a)
  }

  /** c calls a different method m, which calls e, which calls c back. */
  predicate TwoCycle(d: Dict<int, set<int>>, c: int, m: int, e: int)
  {
    c != m && Calls(d, c, m) && Calls(d, m, e) && Calls(d, e, c)
  }

  /** Every method with an entry is among the callers already gone
      through. */
  lemma CallerSeen(d: Dict<int, set<int>>, seen: set<int>, a: int, b: int)
    requires forall j :: 0 <= j < |d| ==> d[j].0 in seen
    requires Calls(d, a, b)
    ensures a in seen
  {
    var j :| 0 <= j < |d| && d[j] == (a, Lookup(d, a).value);
  }

  /** The report `as_dictionary` returns, one field per key. */
  datatype RecursionDictionary = RecursionDictionary(
    recursivecalls: seq<(int, string)>,
    mutualrecursivecalls: seq<(int, string, int, string)>,
    recursive2cycles: seq<(int, string, int, string, int, string)>)

  /** The report entries: each method with its signature text. */
  function NamedCalls(selfs: seq<int>, cmsName: int -> string): (r: seq<(int, string)>)
    ensures |r| == |selfs|
    ensures forall k :: 0 <= k < |selfs| ==> r[k] == (selfs[k], cmsName(selfs[k]))
  {
    seq(|selfs|, k requires 0 <= k < |selfs| => (selfs[k], cmsName(selfs[k])))
  }

  function NamedPairs(pairs: seq<(int, int)>, cmsName: int -> string): (r: seq<(int, string, int, string)>)
    ensures |r| == |pairs|
    ensures forall k :: 0 <= k < |pairs| ==> r[k] == (pairs[k].0, cmsName(pairs[k].0), pairs[k].1, cmsName(pairs[k].1))
  {
    seq(|pairs|, k requires 0 <= k < |pairs| => (pairs[k].0, cmsName(pairs[k].0), pairs[k].1, cmsName(pairs[k].1)))
  }

  function NamedCycles(cycles: seq<(int, int, int)>, cmsName: int -> string): (r: seq<(int, string, int, string, int, string)>)
    ensures |r| == |cycles|
    ensures forall k :: 0 <= k < |cycles| ==>
      r[k] == (cycles[k].0, cmsName(cycles[k].0), cycles[k].1, cmsName(cycles[k].1), cycles[k].2, cmsName(cycles[k].2))
  {
    seq(|cycles|, k requires 0 <= k < |cycles| =>
      (cycles[k].0, cmsName(cycles[k].0), cycles[k].1, cmsName(cycles[k].1), cycles[k].2, cmsName(cycles[k].2)))
  }

  /** Appending an element not yet present keeps the elements distinct. */
  lemma NoDuplicatesSnoc<T>(s: seq<T>, x: T)
    requires NoDuplicates(s) && x !in s
    ensures NoDuplicates(s + [x])
  {
    var t := s + [x];
    forall i, j | 0 <= i < j < |t|
      ensures t[i] != t[j]
    {
      assert t[i] == s[i];
      if j == |s| {
        assert t[i] in s;
      } else {
        assert t[j] == s[j];
      }
    }
  }

  /** Iterating over a set of pairs: each element once, in an order the
      set does not fix. */
  method Enumerate(s: set<(int, int)>) returns (l: seq<(int, int)>)
    ensures forall p :: p in l <==> p in s
    ensures NoDuplicates(l)
  {
    l := [];
    var rest := s;
    while rest != {}
      invariant rest <= s
      invariant forall p :: p in l <==> p in s - rest
      invariant NoDuplicates(l)
      decreases |rest|
    {
      if forall y :: y !in rest {
        assert false;
      }
      var p :| p in rest;
      assert p !in l;
      NoDuplicatesSnoc(l, p);
      l := l + [p];
      rest := rest - {p};
    }
  }

  /** The lines of `to_string`: a heading per query followed by one entry
      per result. */
  function ReportLines(selfs: seq<int>, pairs: seq<(int, int)>, cycles: seq<(int, int, int)>, cmsName: int -> string): (r: seq<string>)
    ensures |r| == 3 + |selfs| + |pairs| + |cycles|
    ensures r[0] == "\nDirect recursion: "
    ensures forall k :: 0 <= k < |selfs| ==> r[1 + k] == cmsName(selfs[k])
    ensures r[1 + |selfs|] == "\nMutual recursion: "
    ensures forall k :: 0 <= k < |pairs| ==>
      r[2 + |selfs| + k] == "\n" + cmsName(pairs[k].0) + "\n ==> " + cmsName(pairs[k].1)
    ensures r[2 + |selfs| + |pairs|] == "\nCycle of 2: "
    ensures forall k :: 0 <= k < |cycles| ==>
      r[3 + |selfs| + |pairs| + k] ==
        "\n" + cmsName(cycles[k].0) + "\n ==> " + cmsName(cycles[k].1) + "\n ====> " + cmsName(cycles[k].2)
  {
    var a := seq(|selfs|, k requires 0 <= k < |selfs| => cmsName(selfs[k]));
    var b := seq(|pairs|, k requires 0 <= k < |pairs| => "\n" + cmsName(pairs[k].0) + "\n ==> " + cmsName(pairs[k].1));
    var c := seq(|cycles|, k requires 0 <= k < |cycles| =>
      "\n" + cmsName(cycles[k].0) + "\n ==> " + cmsName(cycles[k].1) + "\n ====> " + cmsName(cycles[k].2));
    ["\nDirect recursion: "] + a + ["\nMutual recursion: "] + b + ["\nCycle of 2: "] + c
  }

  /** The inner loop of `get_recursive_2_cycles`: for a caller and one of
      its callees, each method the callee calls that calls the caller back
      closes a cycle and is added once. */
  method SubcalleeCycles(d: Dict<int, set<int>>, caller: int, callee: int, subcallees: set<int>, r0: seq<(int, int, int)>)
    returns (r: seq<(int, int, int)>)
    requires caller != callee && Calls(d, caller, callee) && Lookup(d, callee) == Some(subcallees)
    requires NoDuplicates(r0)
    requires forall t :: t in r0 ==> !(t.0 == caller && t.1 == callee)
    ensures NoDuplicates(r)
    ensures forall t :: t in r <==> t in r0 || (t.0 == caller && t.1 == callee && TwoCycle(d, t.0, t.1, t.2))
  {
    r := r0;
    var rest := subcallees;
    while rest != {}
      invariant rest <= subcallees
      invariant NoDuplicates(r)
      invariant forall t :: t in r <==> t in r0 || (t.0 == caller && t.1 == callee && t.2 in subcallees - rest && Calls(d, t.2, caller))
      decreases |rest|
    {
      if forall y :: y !in rest {
        assert false;
      }
      var subcallee :| subcallee in rest;
      if Lookup(d, subcallee).Some? && caller in Lookup(d, subcallee).value {
        NoDuplicatesSnoc(r, (caller, callee, subcallee));
        r := r + [(caller, callee, subcallee)];
      }
      rest := rest - {subcallee};
    }
  }

  /** `Recursion`: the application call edges of each caller, computed once
      when the report is made. */
  class Recursion {
    const appedges: Dict<int, set<int>>

    /** Each caller has one entry. */
    ghost predicate Valid()
    {
      KeysDistinct(appedges)
    }

    constructor (es: seq<GraphEdge>, app: set<int>, cmsixOf: (int, int) -> int)
      ensures appedges == AppEdges(es, app, cmsixOf)
      ensures Valid()
    {
      var d := GetAppEdges(es, app, cmsixOf);
      appedges := d;
    }

    /** `get_self_recursive_calls`. */
    method SelfRecursiveCalls() returns (r: seq<int>)
      ensures r == SelfRecursive(appedges)
    {
      r := [];
      var i := 0;
      while i < |appedges|
        invariant 0 <= i <= |appedges|
        invariant r == SelfRecursive(appedges[..i])
      {
        var (caller, callees) := appedges[i];
        assert appedges[..i + 1][..i] == appedges[..i];
        if caller in callees {
          r := r + [caller];
        }
        i := i + 1;
      }
      assert appedges[..i] == appedges;
    }

    /** `get_mutual_recursive_calls`: each pair of methods calling each
        other, smaller first. */
    method MutualRecursiveCalls() returns (r: set<(int, int)>)
      requires Valid()
      ensures forall p :: p in r <==> MutualPair(appedges, p.0, p.1)
    {
      r := {};
      ghost var seen: set<int> := {};
      var i := 0;
      while i < |appedges|
        invariant 0 <= i <= |appedges|
        invariant forall j :: 0 <= j < i ==> appedges[j].0 in seen
        invariant forall p :: p in r <==> MutualPair(appedges, p.0, p.1) && (p.0 in seen || p.1 in seen)
      {
        var (caller, callees) := appedges[i];
        LookupFinds(appedges, caller, callees);
        var rest := callees;
        while rest != {}
          invariant rest <= callees
          invariant forall p :: p in r <==> (MutualPair(appedges, p.0, p.1) &&
            (p.0 in seen || p.1 in seen || (p.0 == caller && p.1 in callees - rest) || (p.1 == caller && p.0 in callees - rest)))
          decreases |rest|
        {
          if forall y :: y !in rest {
            assert false;
          }
          var callee :| callee in rest;
          if Lookup(appedges, callee).Some? && caller in Lookup(appedges, callee).value {
            if callee != caller {
              r := r + {if caller <= callee then (caller, callee) else (callee, caller)};
            }
          }
          rest := rest - {callee};
        }
        seen := seen + {caller};
        i := i + 1;
      }
      forall a, b | MutualPair(appedges, a, b)
        ensures a in seen
      {
        CallerSeen(appedges, seen, a, b);
      }
    }

    /** `get_recursive_2_cycles`: each cycle once, in an order the sets of
        callees do not fix. */
    method Recursive2Cycles() returns (r: seq<(int, int, int)>)
      requires Valid()
      ensures forall t :: t in r <==> TwoCycle(appedges, t.0, t.1, t.2)
      ensures NoDuplicates(r)
    {
      r := [];
      ghost var seen: set<int> := {};
      var i := 0;
      while i < |appedges|
        invariant 0 <= i <= |appedges|
        invariant seen == set j | 0 <= j < i :: appedges[j].0
        invariant NoDuplicates(r)
        invariant forall t :: t in r <==> TwoCycle(appedges, t.0, t.1, t.2) && t.0 in seen
      {
        var (caller, callees) := appedges[i];
        LookupFinds(appedges, caller, callees);
        var rest := callees;
        while rest != {}
          invariant rest <= callees
          invariant NoDuplicates(r)
          invariant forall t :: t in r <==> (TwoCycle(appedges, t.0, t.1, t.2) &&
            (t.0 in seen || (t.0 == caller && t.1 in callees - rest)))
          decreases |rest|
        {
          if forall y :: y !in rest {
            assert false;
          }
          var callee :| callee in rest;
          if callee != caller && Lookup(appedges, callee).Some? {
            r := SubcalleeCycles(appedges, caller, callee, Lookup(appedges, callee).value, r);
          }
          rest := rest - {callee};
        }
        seen := seen + {caller};
        i := i + 1;
      }
      forall c, m, e | TwoCycle(appedges, c, m, e)
        ensures c in seen
      {
        CallerSeen(appedges, seen, c, m);
      }
    }

    /** `as_dictionary`: the three query results with each method's
        signature text. */
    method AsDictionary(cmsName: int -> string) returns (r: RecursionDictionary, ghost pairs: seq<(int, int)>, ghost cycles: seq<(int, int, int)>)
      requires Valid()
      ensures r == RecursionDictionary(NamedCalls(SelfRecursive(appedges), cmsName), NamedPairs(pairs, cmsName), NamedCycles(cycles, cmsName))
      ensures forall p :: p in pairs <==> MutualPair(appedges, p.0, p.1)
      ensures forall t :: t in cycles <==> TwoCycle(appedges, t.0, t.1, t.2)
      ensures NoDuplicates(pairs) && NoDuplicates(cycles)
    {
      var selfs := SelfRecursiveCalls();
      var mutual := MutualRecursiveCalls();
      var ps := Enumerate(mutual);
      var cs := Recursive2Cycles();
      r := RecursionDictionary(NamedCalls(selfs, cmsName), NamedPairs(ps, cmsName), NamedCycles(cs, cmsName));
      pairs, cycles := ps, cs;
    }

    /** `to_string`: the headings and entries joined by newlines. */
    method ToString(cmsName: int -> string) returns (s: string, ghost pairs: seq<(int, int)>, ghost cycles: seq<(int, int, int)>)
      requires Valid()
      ensures s == Join("\n", ReportLines(SelfRecursive(appedges), pairs, cycles, cmsName))
      ensures forall p :: p in pairs <==> MutualPair(appedges, p.0, p.1)
      ensures forall t :: t in cycles <==> TwoCycle(appedges, t.0, t.1, t.2)
      ensures NoDuplicates(pairs) && NoDuplicates(cycles)
    {
      var selfs := SelfRecursiveCalls();
      var mutual := MutualRecursiveCalls();
      var ps := Enumerate(mutual);
      var cs := Recursive2Cycles();
      s := Join("\n", ReportLines(selfs, ps, cs, cmsName));
      pairs, cycles := ps, cs;
    }
  }
}
