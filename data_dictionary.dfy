/** The data dictionary of an application (chj/index/DataDictionary.py):
    the application classes by name, the method signatures with the classes
    that implement them, and the call-graph edges with their targets. */
module DataDictionaries {
  import opened Wrappers
  import opened Strings
  import opened CallgraphDictionaries

  /** A `cn` element of the class-name file: optional package, name, index. */
  datatype ClassEntry = ClassEntry(package: Option<string>, name: string, ix: int)

  /** An `ms` element: index, name and signature, and the `ixs` attribute
      of each of its `stubs`, `bc` and `native` children, None for a child
      without one. */
  datatype SignatureEntry = SignatureEntry(ix: int, name: string, sig: string,
                                           stubs: seq<Option<string>>, bcs: seq<Option<string>>,
                                           natives: seq<Option<string>>)

  /** An `edge` element of the call graph: caller, pc, callee signature and
      the index of the target in the call-graph dictionary. */
  datatype CallEdge = CallEdge(cmsix: int, pc: int, msix: int, itgt: int)

  /** Stub classes, application classes and native classes. */
  type Targets = (seq<int>, seq<int>, seq<int>)

  // ------------------------------------------------- application classes

  /** The name an application class is filed under: the package, a dot and
      the name when the package is present and non-empty, else the name. */
  function AppClassName(c: ClassEntry): (r: string)
    ensures |r| >= |c.name| && r[|r| - |c.name|..] == c.name
    ensures r == c.name <==> c.package.None? || c.package.value == ""
    ensures r != c.name ==> (c.package.Some? && |r| > |c.package.value| &&
      r[..|c.package.value|] == c.package.value && r[|c.package.value|] == '.')
  {
    if c.package.Some? && |c.package.value| > 0 then
      var r := c.package.value + "." + c.name;
      assert r[|r| - |c.name|..] == c.name;
      r
    else c.name
  }

  /** The class map after filing each entry in turn. */
  function AddAppClasses(m: map<string, int>, cs: seq<ClassEntry>): map<string, int>
  {
    if cs == [] then m
    else
      var c := cs[|cs| - 1];
      AddAppClasses(m, cs[..|cs| - 1])[AppClassName(c) := c.ix]
  }

  /** Every entry's name is filed, each filed index is an old one or an
      entry's, and an entry whose name no later entry reuses keeps its
      index. */
  lemma AppClassesLoaded(m: map<string, int>, cs: seq<ClassEntry>)
    ensures forall c :: c in cs ==> AppClassName(c) in AddAppClasses(m, cs)
    ensures forall n :: n in AddAppClasses(m, cs) ==>
      (n in m && AddAppClasses(m, cs)[n] == m[n]) || exists c :: c in cs && AppClassName(c) == n && c.ix == AddAppClasses(m, cs)[n]
    ensures forall i :: 0 <= i < |cs| && (forall j :: i < j < |cs| ==> AppClassName(cs[j]) != AppClassName(cs[i])) ==>
      AddAppClasses(m, cs)[AppClassName(cs[i])] == cs[i].ix
  {
    AppClassesFiled(m, cs);
    AppClassesFrom(m, cs);
    AppClassesKept(m, cs);
  }

  /** The last entry is filed over the map of the others. */
  lemma AppClassesStep(m: map<string, int>, cs: seq<ClassEntry>)
    requires cs != []
    ensures AddAppClasses(m, cs) == AddAppClasses(m, cs[..|cs| - 1])[AppClassName(cs[|cs| - 1]) := cs[|cs| - 1].ix]
  {
  }

  lemma {:induction false} AppClassesFiled(m: map<string, int>, cs: seq<ClassEntry>)
    ensures forall c :: c in cs ==> AppClassName(c) in AddAppClasses(m, cs)
  {
    if cs != [] {
      var init := cs[..|cs| - 1];
      var last := cs[|cs| - 1];
      AppClassesFiled(m, init);
      AppClassesStep(m, cs);
      var prev := AddAppClasses(m, init);
      forall c | c in cs
        ensures AppClassName(c) in AddAppClasses(m, cs)
      {
        if c != last {
          var i :| 0 <= i < |cs| && cs[i] == c;
          assert init[i] == c;
          assert AppClassName(c) in prev;
        }
      }
    }
  }

  /** A filed name either keeps its old index or took it from an entry. */
  predicate FiledFrom(m: map<string, int>, cs: seq<ClassEntry>, n: string, v: int)
  {
    (n in m && m[n] == v) || exists c :: c in cs && AppClassName(c) == n && c.ix == v
  }

  lemma FiledFromMore(m: map<string, int>, init: seq<ClassEntry>, cs: seq<ClassEntry>, n: string, v: int)
    requires forall c :: c in init ==> c in cs
    requires FiledFrom(m, init, n, v)
    ensures FiledFrom(m, cs, n, v)
  {
    if !(n in m && m[n] == v) {
      var c :| c in init && AppClassName(c) == n && c.ix == v;
      assert c in cs;
    }
  }

  lemma {:induction false} AppClassesFrom(m: map<string, int>, cs: seq<ClassEntry>)
    ensures forall n :: n in AddAppClasses(m, cs) ==> FiledFrom(m, cs, n, AddAppClasses(m, cs)[n])
  {
    if cs != [] {
      var init := cs[..|cs| - 1];
      var last := cs[|cs| - 1];
      AppClassesFrom(m, init);
      AppClassesStep(m, cs);
      var prev := AddAppClasses(m, init);
      var cur := AddAppClasses(m, cs);
      assert forall c :: c in init ==> c in cs;
      forall n | n in cur
        ensures FiledFrom(m, cs, n, cur[n])
      {
        if n == AppClassName(last) {
          assert last in cs;
        } else {
          assert n in prev && cur[n] == prev[n];
          FiledFromMore(m, init, cs, n, prev[n]);
        }
      }
    }
  }

  lemma {:induction false} AppClassesKept(m: map<string, int>, cs: seq<ClassEntry>)
    ensures forall i :: 0 <= i < |cs| && (forall j :: i < j < |cs| ==> AppClassName(cs[j]) != AppClassName(cs[i])) ==>
      AppClassName(cs[i]) in AddAppClasses(m, cs) && AddAppClasses(m, cs)[AppClassName(cs[i])] == cs[i].ix
  {
    AppClassesFiled(m, cs);
    if cs != [] {
      var init := cs[..|cs| - 1];
      var last := cs[|cs| - 1];
      AppClassesKept(m, init);
      AppClassesFiled(m, init);
      AppClassesStep(m, cs);
      var prev := AddAppClasses(m, init);
      var cur := AddAppClasses(m, cs);
      forall i | 0 <= i < |cs| && (forall j :: i < j < |cs| ==> AppClassName(cs[j]) != AppClassName(cs[i]))
        ensures AppClassName(cs[i]) in cur && cur[AppClassName(cs[i])] == cs[i].ix
      {
        assert cs[i] in cs;
        if i < |cs| - 1 {
          var c := cs[i];
          assert init[i] == c;
          assert forall j :: i < j < |init| ==> init[j] == cs[j];
          assert AppClassName(last) != AppClassName(c);
          assert prev[AppClassName(c)] == c.ix;
        }
      }
    }
  }

  // ------------------------------------------------- method signatures

  /** The indices of the `ixs` attributes of a list of children, parsed and
      concatenated in order; children without the attribute add nothing. */
  function ConcatIxs(elems: seq<Option<string>>): (r: Result<seq<int>>)
    ensures r.Ok? <==> forall k :: 0 <= k < |elems| && elems[k].Some? ==> ParseIntList(elems[k].value).Some?
    ensures r.Err? ==> r.error.ValueError?
  {
    if elems == [] then Ok([])
    else
      var init := elems[..|elems| - 1];
      var last := elems[|elems| - 1];
      assert forall k :: 0 <= k < |init| ==> init[k] == elems[k];
      match ConcatIxs(init)
      case Err(e) => Err(e)
      case Ok(xs) =>
        if last.None? then Ok(xs)
        else match ParseIntList(last.value)
          case None => Err(ValueError("invalid literal for int()"))
          case Some(ys) => Ok(xs + ys)
  }

  /** Children without `ixs` contribute nothing. */
  lemma {:induction false} ConcatIxsAbsent(elems: seq<Option<string>>)
    requires forall k :: 0 <= k < |elems| ==> elems[k].None?
    ensures ConcatIxs(elems) == Ok([])
  {
    if elems != [] {
      ConcatIxsAbsent(elems[..|elems| - 1]);
    }
  }

  /** The indices of two runs of children are the indices of the first
      followed by those of the second. */
  lemma {:induction false} ConcatIxsAppend(a: seq<Option<string>>, b: seq<Option<string>>)
    requires ConcatIxs(a).Ok? && ConcatIxs(b).Ok?
    ensures ConcatIxs(a + b) == Ok(ConcatIxs(a).value + ConcatIxs(b).value)
    decreases |b|
  {
    if b == [] {
      assert a + b == a;
      assert ConcatIxs(a).value + [] == ConcatIxs(a).value;
    } else {
      var binit := b[..|b| - 1];
      assert (a + b)[..|a + b| - 1] == a + binit;
      assert (a + b)[|a + b| - 1] == b[|b| - 1];
      var zs := ConcatIxsSnoc(b);
      ConcatIxsAppend(a, binit);
      var zs' := ConcatIxsSnoc(a + b);
      Assoc3(ConcatIxs(a).value, ConcatIxs(binit).value, zs);
    }
  }

  /** The indices of a run of children: those of all but the last, then
      those of the last. */
  lemma ConcatIxsSnoc(elems: seq<Option<string>>) returns (zs: seq<int>)
    requires elems != [] && ConcatIxs(elems).Ok?
    ensures ConcatIxs(elems[..|elems| - 1]).Ok?
    ensures zs == if elems[|elems| - 1].Some? then ParseIntList(elems[|elems| - 1].value).value else []
    ensures ConcatIxs(elems).value == ConcatIxs(elems[..|elems| - 1]).value + zs
  {
    var last := elems[|elems| - 1];
    zs := if last.Some? then ParseIntList(last.value).value else [];
  }

  /** A child that carries a comma-joined list of indices gives that list. */
  lemma ConcatIxsSingle(xs: seq<int>)
    requires xs != []
    ensures ConcatIxs([Some(Join(",", IntStrings(xs)))]) == Ok(xs)
  {
    ParseIntListJoin(xs);
    var elems := [Some(Join(",", IntStrings(xs)))];
    assert elems[..0] == [];
    assert ConcatIxs(elems) == Ok([] + xs);
    assert [] + xs == xs;
  }

  /** The stubs, application classes and natives of a signature, read in
      that order; the first list with a piece that is not a number raises
      ValueError. */
  function SignatureTargets(e: SignatureEntry): (r: Result<Targets>)
    ensures r.Ok? <==> ConcatIxs(e.stubs).Ok? && ConcatIxs(e.bcs).Ok? && ConcatIxs(e.natives).Ok?
    ensures r.Ok? ==> r.value == (ConcatIxs(e.stubs).value, ConcatIxs(e.bcs).value, ConcatIxs(e.natives).value)
  {
    match ConcatIxs(e.stubs)
    case Err(x) => Err(x)
    case Ok(stubs) =>
      match ConcatIxs(e.bcs)
      case Err(x) => Err(x)
      case Ok(app) =>
        match ConcatIxs(e.natives)
        case Err(x) => Err(x)
        case Ok(natives) => Ok((stubs, app, natives))
  }

  function AddIndices(m: map<(string, string), int>, es: seq<SignatureEntry>): map<(string, string), int>
  {
    if es == [] then m
    else
      var e := es[|es| - 1];
      AddIndices(m, es[..|es| - 1])[(e.name, e.sig) := e.ix]
  }

  function AddSignatures(m: map<int, (string, string)>, es: seq<SignatureEntry>): map<int, (string, string)>
  {
    if es == [] then m
    else
      var e := es[|es| - 1];
      AddSignatures(m, es[..|es| - 1])[e.ix := (e.name, e.sig)]
  }

  predicate AllTargetsRead(es: seq<SignatureEntry>)
  {
    forall k :: 0 <= k < |es| ==> SignatureTargets(es[k]).Ok?
  }

  function AddTargets(m: map<int, Targets>, es: seq<SignatureEntry>): map<int, Targets>
    requires AllTargetsRead(es)
  {
    if es == [] then m
    else
      var e := es[|es| - 1];
      AddTargets(m, es[..|es| - 1])[e.ix := SignatureTargets(e).value]
  }

  /** Filing one more entry whose targets are read. */
  lemma SignatureStep(es: seq<SignatureEntry>, i: int)
    requires 0 <= i < |es| && AllTargetsRead(es[..i]) && SignatureTargets(es[i]).Ok?
    ensures AllTargetsRead(es[..i + 1])
    ensures es[..i + 1][..i] == es[..i] && es[..i + 1][i] == es[i]
  {
    assert es[..i + 1][..i] == es[..i];
  }

  /** Every index `AddIndices` files is an old one or the index of an entry. */
  lemma {:induction false} IndicesFromEntries(es: seq<SignatureEntry>)
    ensures forall k :: k in AddIndices(map[], es) ==> exists e :: e in es && e.ix == AddIndices(map[], es)[k] && (e.name, e.sig) == k
  {
    if es != [] {
      IndicesFromEntries(es[..|es| - 1]);
      assert forall e :: e in es[..|es| - 1] ==> e in es;
    }
  }

  /** Every pair `AddSignatures` files is an old one or the pair of an entry. */
  lemma {:induction false} SignaturesFromEntries(es: seq<SignatureEntry>)
    ensures forall ix :: ix in AddSignatures(map[], es) ==> exists e :: e in es && e.ix == ix && (e.name, e.sig) == AddSignatures(map[], es)[ix]
  {
    if es != [] {
      SignaturesFromEntries(es[..|es| - 1]);
      assert forall e :: e in es[..|es| - 1] ==> e in es;
    }
  }

  /** When no two entries share an index, every filed (name, signature)
      pair leads to an index that leads back to the pair. */
  lemma {:induction false} IndicesInverse(es: seq<SignatureEntry>)
    requires forall i, j :: 0 <= i < j < |es| ==> es[i].ix != es[j].ix
    ensures forall k :: k in AddIndices(map[], es) ==>
      AddIndices(map[], es)[k] in AddSignatures(map[], es) && AddSignatures(map[], es)[AddIndices(map[], es)[k]] == k
  {
    if es != [] {
      var init := es[..|es| - 1];
      var e := es[|es| - 1];
      IndicesInverse(init);
      IndicesFromEntries(init);
      forall k | k in AddIndices(map[], init) && k != (e.name, e.sig)
        ensures AddIndices(map[], init)[k] != e.ix
      {
        var d :| d in init && d.ix == AddIndices(map[], init)[k] && (d.name, d.sig) == k;
        var i :| 0 <= i < |init| && init[i] == d;
        assert es[i] == d;
      }
    }
  }

  /** When no two entries share a (name, signature) pair, every filed index
      leads to a pair that leads back to the index. */
  lemma {:induction false} SignaturesInverse(es: seq<SignatureEntry>)
    requires forall i, j :: 0 <= i < j < |es| ==> (es[i].name, es[i].sig) != (es[j].name, es[j].sig)
    ensures forall ix :: ix in AddSignatures(map[], es) ==>
      AddSignatures(map[], es)[ix] in AddIndices(map[], es) && AddIndices(map[], es)[AddSignatures(map[], es)[ix]] == ix
  {
    if es != [] {
      var init := es[..|es| - 1];
      var e := es[|es| - 1];
      SignaturesInverse(init);
      SignaturesFromEntries(init);
      forall ix | ix in AddSignatures(map[], init) && ix != e.ix
        ensures AddSignatures(map[], init)[ix] != (e.name, e.sig)
      {
        var d :| d in init && d.ix == ix && (d.name, d.sig) == AddSignatures(map[], init)[ix];
        var i :| 0 <= i < |init| && init[i] == d;
        assert es[i] == d;
      }
    }
  }

  // ------------------------------------------------- call-graph edges

  predicate TargetsKnown(es: seq<CallEdge>, it: map<int, CallgraphTarget>)
  {
    forall k :: 0 <= k < |es| ==> es[k].itgt in it
  }

  /** The edge map after filing each edge's callee signature and target
      under (caller, pc) in turn. */
  function AddEdges(m: map<(int, int), (int, CallgraphTarget)>, es: seq<CallEdge>, it: map<int, CallgraphTarget>): map<(int, int), (int, CallgraphTarget)>
    requires TargetsKnown(es, it)
  {
    if es == [] then m
    else
      var e := es[|es| - 1];
      AddEdges(m, es[..|es| - 1], it)[(e.cmsix, e.pc) := (e.msix, it[e.itgt])]
  }

  /** A (caller, pc) pair is filed exactly when an edge carries it, and the
      last such edge gives the callee signature and target. */
  lemma {:induction false} EdgesLoaded(es: seq<CallEdge>, it: map<int, CallgraphTarget>, cmsix: int, pc: int)
    requires TargetsKnown(es, it)
    ensures (cmsix, pc) in AddEdges(map[], es, it) <==> exists k :: 0 <= k < |es| && es[k].cmsix == cmsix && es[k].pc == pc
    ensures forall k :: (0 <= k < |es| && es[k].cmsix == cmsix && es[k].pc == pc &&
      (forall j :: k < j < |es| ==> es[j].cmsix != cmsix || es[j].pc != pc)) ==>
      AddEdges(map[], es, it)[(cmsix, pc)] == (es[k].msix, it[es[k].itgt])
  {
    if es != [] {
      var init := es[..|es| - 1];
      EdgesLoaded(init, it, cmsix, pc);
      if exists k :: 0 <= k < |init| && init[k].cmsix == cmsix && init[k].pc == pc {
        var k :| 0 <= k < |init| && init[k].cmsix == cmsix && init[k].pc == pc;
        assert es[k] == init[k];
      }
      forall k | 0 <= k < |es| - 1 ensures es[k] == init[k] { }
    }
  }

  class DataDictionary {
    var appClassIndices: map<string, int>
    var msIndices: map<(string, string), int>
    var msSignatures: map<int, (string, string)>
    var msTargets: map<int, Targets>
    var callGraphEdges: map<(int, int), (int, CallgraphTarget)>

    /** The dictionary before its files are read. */
    constructor ()
      ensures appClassIndices == map[] && msIndices == map[] && msSignatures == map[]
      ensures msTargets == map[] && callGraphEdges == map[]
    {
      appClassIndices := map[];
      msIndices := map[];
      msSignatures := map[];
      msTargets := map[];
      callGraphEdges := map[];
    }

    /** `_initialize_app_classes`: nothing without a class-name file;
        otherwise each `cn` entry is filed under its class name. */
    method InitializeAppClasses(cns: Option<seq<ClassEntry>>)
      modifies this`appClassIndices
      ensures cns.None? ==> appClassIndices == old(appClassIndices)
      ensures cns.Some? ==> appClassIndices == AddAppClasses(old(appClassIndices), cns.value)
    {
      if cns.None? {
        return;
      }
      var cs := cns.value;
      var i := 0;
      while i < |cs|
        invariant 0 <= i <= |cs|
        invariant appClassIndices == AddAppClasses(old(appClassIndices), cs[..i])
      {
        assert cs[..i + 1][..i] == cs[..i];
        appClassIndices := appClassIndices[AppClassName(cs[i]) := cs[i].ix];
        i := i + 1;
      }
      assert cs[..i] == cs;
    }

    /** The signature maps hold the given maps with the entries filed in turn. */
    ghost predicate SignaturesFiled(mi: map<(string, string), int>, ms: map<int, (string, string)>,
                                    mt: map<int, Targets>, es: seq<SignatureEntry>)
      requires AllTargetsRead(es)
      reads this
    {
      msIndices == AddIndices(mi, es) && msSignatures == AddSignatures(ms, es) && msTargets == AddTargets(mt, es)
    }

    /** `_initialize_method_signatures`: nothing without a signature file;
        otherwise each `ms` entry files its index under (name, signature),
        the pair under its index and its targets under its index. An entry
        whose indices do not parse raises ValueError, leaving the entries
        before it filed. */
    method InitializeMethodSignatures(ms: Option<seq<SignatureEntry>>) returns (r: Result<()>)
      modifies this`msIndices, this`msSignatures, this`msTargets
      ensures ms.None? ==> r.Ok? && msIndices == old(msIndices) && msSignatures == old(msSignatures) && msTargets == old(msTargets)
      ensures ms.Some? ==> (r.Ok? <==> AllTargetsRead(ms.value))
      ensures ms.Some? && r.Ok? ==> SignaturesFiled(old(msIndices), old(msSignatures), old(msTargets), ms.value)
      ensures r.Err? ==> ms.Some? && exists k :: (0 <= k < |ms.value| && AllTargetsRead(ms.value[..k]) &&
        SignatureTargets(ms.value[k]) == Err(r.error) &&
        SignaturesFiled(old(msIndices), old(msSignatures), old(msTargets), ms.value[..k]))
    {
      r := Ok(());
      if ms.None? {
        return;
      }
      var es := ms.value;
      var i := 0;
      while i < |es|
        invariant 0 <= i <= |es|
        invariant AllTargetsRead(es[..i])
        invariant SignaturesFiled(old(msIndices), old(msSignatures), old(msTargets), es[..i])
      {
        var e := es[i];
        var targets := SignatureTargets(e);
        if targets.Err? {
          assert !AllTargetsRead(es) by {
            assert !SignatureTargets(es[i]).Ok?;
          }
          return Err(targets.error);
        }
        SignatureStep(es, i);
        msIndices, msSignatures, msTargets :=
          msIndices[(e.name, e.sig) := e.ix], msSignatures[e.ix := (e.name, e.sig)], msTargets[e.ix := targets.value];
        i := i + 1;
      }
      assert es[..i] == es;
    }

    /** `_initialize_callgraph` after the call-graph dictionary is built:
        nothing without a call-graph file; otherwise each edge files its
        callee signature and target under (caller, pc), a later edge with
        the same pair replacing an earlier one. A target index the
        dictionary does not hold raises IndexedTableError, leaving the edges
        before it filed. */
    method InitializeCallgraph(cgd: CallgraphDictionary, edges: Option<seq<CallEdge>>) returns (r: Result<()>)
      modifies this`callGraphEdges
      ensures edges.None? ==> r.Ok? && callGraphEdges == old(callGraphEdges)
      ensures edges.Some? ==> (r.Ok? <==> TargetsKnown(edges.value, cgd.targetTable.indextable))
      ensures edges.Some? && r.Ok? ==>
        callGraphEdges == AddEdges(old(callGraphEdges), edges.value, cgd.targetTable.indextable)
      ensures r.Err? ==> edges.Some? && r.error.IndexedTableError? && exists k :: (0 <= k < |edges.value| &&
        TargetsKnown(edges.value[..k], cgd.targetTable.indextable) &&
        edges.value[k].itgt !in cgd.targetTable.indextable &&
        callGraphEdges == AddEdges(old(callGraphEdges), edges.value[..k], cgd.targetTable.indextable))
    {
      r := Ok(());
      if edges.None? {
        return;
      }
      var es := edges.value;
      ghost var it := cgd.targetTable.indextable;
      var i := 0;
      while i < |es|
        invariant 0 <= i <= |es|
        invariant TargetsKnown(es[..i], it)
        invariant callGraphEdges == AddEdges(old(callGraphEdges), es[..i], it)
      {
        var e := es[i];
        var tgt := cgd.GetTarget(e.itgt);
        if tgt.Err? {
          return Err(tgt.error);
        }
        assert es[..i + 1][..i] == es[..i];
        callGraphEdges := callGraphEdges[(e.cmsix, e.pc) := (e.msix, tgt.value)];
        i := i + 1;
      }
      assert es[..i] == es;
    }

    /** `get_msix`: the index of a filed (name, signature) pair, None for
        any other pair. */
    function GetMsix(name: string, sig: string): (r: Option<int>)
      reads this
      ensures r.Some? <==> (name, sig) in msIndices
      ensures r.Some? ==> r.value == msIndices[(name, sig)]
    {
      if (name, sig) in msIndices then Some(msIndices[(name, sig)]) else None
    }

    /** `get_cnix`: the index of a filed application class name. */
    function GetCnix(classname: string): (r: Option<int>)
      reads this
      ensures r.Some? <==> classname in appClassIndices
      ensures r.Some? ==> r.value == appClassIndices[classname]
    {
      if classname in appClassIndices then Some(appClassIndices[classname]) else None
    }

    /** `is_application_class`: whether the index is filed under some
        application class name. */
    predicate IsApplicationClass(cnix: int)
      reads this
    {
      cnix in appClassIndices.Values
    }

    /** The indices `is_application_class` accepts. */
    function AppClasses(): (s: set<int>)
      reads this
      ensures forall cnix :: cnix in s <==> IsApplicationClass(cnix)
    {
      appClassIndices.Values
    }

    /** `get_method_signatures`: the signature of every filed index whose
        name is the given one, and no other index. */
    method GetMethodSignatures(name: string) returns (r: map<int, string>)
      ensures forall ix :: ix in r <==> ix in msSignatures && msSignatures[ix].0 == name
      ensures forall ix :: ix in r ==> r[ix] == msSignatures[ix].1
    {
      r := map[];
      var todo := msSignatures.Keys;
      while todo != {}
        invariant todo <= msSignatures.Keys
        invariant forall ix :: ix in r <==> ix in msSignatures && ix !in todo && msSignatures[ix].0 == name
        invariant forall ix :: ix in r ==> r[ix] == msSignatures[ix].1
        decreases |todo|
      {
        if forall y :: y !in todo {
          assert false;
        }
        var ix :| ix in todo;
        if msSignatures[ix].0 == name {
          r := r[ix := msSignatures[ix].1];
        }
        todo := todo - {ix};
      }
    }

    /** `get_implementing_classes`: stubs, then application classes, then
        natives of a filed signature, and [] for any other index. */
    function GetImplementingClasses(msix: int): (r: seq<int>)
      reads this
      ensures msix !in msTargets ==> r == []
      ensures msix in msTargets ==>
        var (stubs, app, natives) := msTargets[msix];
        |r| == |stubs| + |app| + |natives| && r[..|stubs|] == stubs &&
        r[|stubs|..|stubs| + |app|] == app && r[|stubs| + |app|..] == natives
    {
      if msix in msTargets then
        var (stubs, app, natives) := msTargets[msix];
        var r := stubs + app + natives;
        assert r[..|stubs|] == stubs && r[|stubs|..|stubs| + |app|] == app && r[|stubs| + |app|..] == natives;
        r
      else []
    }

    /** `has_call_target`: whether an edge is filed for (caller, pc). */
    predicate HasCallTarget(cmsix: int, pc: int)
      reads this
    {
      (cmsix, pc) in callGraphEdges
    }

    /** `get_call_target`: the filed callee signature and target, None
        exactly when `has_call_target` is false. */
    function GetCallTarget(cmsix: int, pc: int): (r: Option<(int, CallgraphTarget)>)
      reads this
      ensures r.Some? <==> HasCallTarget(cmsix, pc)
      ensures r.Some? ==> r.value == callGraphEdges[(cmsix, pc)]
    {
      if HasCallTarget(cmsix, pc) then Some(callGraphEdges[(cmsix, pc)]) else None
    }
  }

  /** A freshly read class-name file makes an index an application class
      only if some entry carries it, and makes the index of every entry
      whose name no later entry reuses an application class. */
  lemma ApplicationClassesFromEntries(cs: seq<ClassEntry>, cnix: int)
    ensures cnix in AddAppClasses(map[], cs).Values ==> exists c :: c in cs && c.ix == cnix
    ensures forall i :: 0 <= i < |cs| && (forall j :: i < j < |cs| ==> AppClassName(cs[j]) != AppClassName(cs[i])) ==>
      cs[i].ix in AddAppClasses(map[], cs).Values
  {
    AppClassesLoaded(map[], cs);
    var m := AddAppClasses(map[], cs);
    if cnix in m.Values {
      var n :| n in m && m[n] == cnix;
    }
    forall i | 0 <= i < |cs| && (forall j :: i < j < |cs| ==> AppClassName(cs[j]) != AppClassName(cs[i]))
      ensures cs[i].ix in m.Values
    {
      assert m[AppClassName(cs[i])] == cs[i].ix;
    }
  }
}
