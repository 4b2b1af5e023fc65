/** The call graph of an application (chj/index/Callgraph.py): the call
    edges of the results file, the targets they resolve to, and the two
    traversals that draw what a method calls and what calls it as dot
    graphs. */
module Callgraphs {
  import opened Wrappers
  import opened Strings
  import opened Dicts
  import opened CallgraphDictionaries
  import opened DataDictionaries
  import opened DotGraphs

  /** What the traversals ask of the rest of the application: the indices
      of the application classes, the class-method index of a class and a
      method signature (`get_cmsix`), the qualified name of a method, the
      name of a class, and the name of a method signature. */
  datatype Env = Env(app: set<int>, cmsixOf: (int, int) -> int, aqname: int -> string,
                     className: int -> string, msName: int -> string)

  // --------------------------------------------------------- edge table

  /** `_get_edges`: each edge's target filed under its caller and pc, a
      later edge at the same place replacing an earlier one. */
  function EdgeTable(es: seq<CallEdge>, it: map<int, CallgraphTarget>): map<int, map<int, CallgraphTarget>>
    requires TargetsKnown(es, it)
  {
    if es == [] then map[]
    else
      var e := es[|es| - 1];
      var m := EdgeTable(es[..|es| - 1], it);
      m[e.cmsix := (if e.cmsix in m then m[e.cmsix] else map[])[e.pc := it[e.itgt]]]
  }

  lemma EdgeTableSnoc(es: seq<CallEdge>, it: map<int, CallgraphTarget>, k: nat)
    requires k < |es| && TargetsKnown(es[..k], it) && es[k].itgt in it
    ensures TargetsKnown(es[..k + 1], it)
    ensures var m := EdgeTable(es[..k], it);
      EdgeTable(es[..k + 1], it) == m[es[k].cmsix := (if es[k].cmsix in m then m[es[k].cmsix] else map[])[es[k].pc := it[es[k].itgt]]]
  {
    assert es[..k + 1][..k] == es[..k];
  }

  /** The call graph's table and the data dictionary's call-graph edges,
      read from the same edges, file the same places with the same
      targets. */
  lemma {:induction false} EdgeTableAgrees(es: seq<CallEdge>, it: map<int, CallgraphTarget>, cmsix: int, pc: int)
    requires TargetsKnown(es, it)
    ensures (cmsix in EdgeTable(es, it) && pc in EdgeTable(es, it)[cmsix]) <==> (cmsix, pc) in AddEdges(map[], es, it)
    ensures (cmsix, pc) in AddEdges(map[], es, it) ==> EdgeTable(es, it)[cmsix][pc] == AddEdges(map[], es, it)[(cmsix, pc)].1
  {
    if es != [] {
      EdgeTableAgrees(es[..|es| - 1], it, cmsix, pc);
    }
  }

  /** After a complete load a caller and pc have a target exactly when an
      edge carries them, and the last such edge gives it. */
  lemma EdgeTableFinds(es: seq<CallEdge>, it: map<int, CallgraphTarget>, cmsix: int, pc: int)
    requires TargetsKnown(es, it)
    ensures (cmsix in EdgeTable(es, it) && pc in EdgeTable(es, it)[cmsix]) <==>
      exists k :: 0 <= k < |es| && es[k].cmsix == cmsix && es[k].pc == pc
    ensures forall k :: (0 <= k < |es| && es[k].cmsix == cmsix && es[k].pc == pc &&
      (forall j :: k < j < |es| ==> es[j].cmsix != cmsix || es[j].pc != pc)) ==>
      cmsix in EdgeTable(es, it) && pc in EdgeTable(es, it)[cmsix] && EdgeTable(es, it)[cmsix][pc] == it[es[k].itgt]
  {
    EdgeTableAgrees(es, it, cmsix, pc);
    EdgesLoaded(es, it, cmsix, pc);
  }

  // ------------------------------------------------------- method edges

  /** The edges of one caller have targets the dictionary holds. */
  predicate CallerTargetsKnown(es: seq<CallEdge>, cmsix: int, it: map<int, CallgraphTarget>)
  {
    forall k :: 0 <= k < |es| && es[k].cmsix == cmsix ==> es[k].itgt in it
  }

  /** The targets `_get_method_edges` keeps: non-virtual and virtual ones. */
  predicate Kept(t: CallgraphTarget)
  {
    t.IsNonVirtualTarget() || t.IsVirtualTarget()
  }

  /** `_get_method_edges` as a function of the edges: by pc, the callee
      signature and the kept target of each edge of the caller, a later
      edge at the same pc replacing the earlier one in its place. */
  function MethodEdges(es: seq<CallEdge>, cmsix: int, it: map<int, CallgraphTarget>): (r: Dict<int, (int, CallgraphTarget)>)
    requires CallerTargetsKnown(es, cmsix, it)
    ensures KeysDistinct(r)
  {
    if es == [] then []
    else
      var e := es[|es| - 1];
      var d := MethodEdges(es[..|es| - 1], cmsix, it);
      if e.cmsix == cmsix && Kept(it[e.itgt]) then Put(d, e.pc, (e.msix, it[e.itgt])) else d
  }

  /** An edge of the caller at a pc, with its callee signature and kept
      target. */
  predicate Gives(e: CallEdge, cmsix: int, it: map<int, CallgraphTarget>, p: (int, (int, CallgraphTarget)))
  {
    e.cmsix == cmsix && e.itgt in it && Kept(it[e.itgt]) && e.pc == p.0 && p.1 == (e.msix, it[e.itgt])
  }

  /** Every entry of a caller's method edges comes from one of its edges
      with a kept target, and every such edge's pc has an entry. */
  lemma {:induction false} MethodEdgesFrom(es: seq<CallEdge>, cmsix: int, it: map<int, CallgraphTarget>)
    requires CallerTargetsKnown(es, cmsix, it)
    ensures forall p :: p in MethodEdges(es, cmsix, it) ==> exists k :: 0 <= k < |es| && Gives(es[k], cmsix, it, p)
    ensures forall k :: 0 <= k < |es| && es[k].cmsix == cmsix && Kept(it[es[k].itgt]) ==>
      Lookup(MethodEdges(es, cmsix, it), es[k].pc).Some?
  {
    if es != [] {
      var init := es[..|es| - 1];
      var e := es[|es| - 1];
      MethodEdgesFrom(init, cmsix, it);
      var d := MethodEdges(init, cmsix, it);
      forall p | p in MethodEdges(es, cmsix, it)
        ensures exists k :: 0 <= k < |es| && Gives(es[k], cmsix, it, p)
      {
        if e.cmsix == cmsix && Kept(it[e.itgt]) && p.0 == e.pc {
          assert p == (e.pc, (e.msix, it[e.itgt]));
          assert Gives(es[|es| - 1], cmsix, it, p);
        } else {
          assert p in d;
          var k :| 0 <= k < |init| && Gives(init[k], cmsix, it, p);
          assert es[k] == init[k];
        }
      }
      forall k | 0 <= k < |es| && es[k].cmsix == cmsix && Kept(it[es[k].itgt])
        ensures Lookup(MethodEdges(es, cmsix, it), es[k].pc).Some?
      {
        if e.cmsix == cmsix && Kept(it[e.itgt]) {
          LookupPut(d, e.pc, (e.msix, it[e.itgt]), es[k].pc);
        }
        if k < |es| - 1 {
          assert init[k] == es[k];
        }
      }
    }
  }

  /** `rem_nodes` entries of one method's edges: each class of a target
      with the callee signature, in the order `as_dot` visits them. */
  function Pairs(cnixs: seq<int>, msix: int): (r: seq<(int, int)>)
    ensures |r| == |cnixs|
    ensures forall j :: 0 <= j < |cnixs| ==> r[j] == (cnixs[j], msix)
  {
    if cnixs == [] then [] else Pairs(cnixs[..|cnixs| - 1], msix) + [(cnixs[|cnixs| - 1], msix)]
  }

  /** The (class, callee signature) pairs of a method's edges in the order
      `as_dot` draws them. */
  function Calls(d: Dict<int, (int, CallgraphTarget)>): seq<(int, int)>
  {
    if d == [] then [] else Calls(d[..|d| - 1]) + Pairs(d[|d| - 1].1.1.Cnixs(), d[|d| - 1].1.0)
  }

  lemma CallsSnoc(d: Dict<int, (int, CallgraphTarget)>, i: nat)
    requires i < |d|
    ensures Calls(d[..i + 1]) == Calls(d[..i]) + Pairs(d[i].1.1.Cnixs(), d[i].1.0)
  {
    assert d[..i + 1][..i] == d[..i];
  }

  /** Every drawn pair names a class of a target of the method's edges and
      that edge's callee signature. */
  lemma {:induction false} CallsFrom(d: Dict<int, (int, CallgraphTarget)>, c: (int, int))
    requires c in Calls(d)
    ensures exists i :: 0 <= i < |d| && c.1 == d[i].1.0 && c.0 in d[i].1.1.Cnixs()
  {
    var init := d[..|d| - 1];
    if c in Calls(init) {
      CallsFrom(init, c);
      var i :| 0 <= i < |init| && c.1 == init[i].1.0 && c.0 in init[i].1.1.Cnixs();
      assert d[i] == init[i];
    } else {
      var ps := Pairs(d[|d| - 1].1.1.Cnixs(), d[|d| - 1].1.0);
      var j :| 0 <= j < |ps| && ps[j] == c;
      assert c.0 == d[|d| - 1].1.1.Cnixs()[j];
    }
  }

  /** The method of a class implementing a callee signature. */
  function Callee(c: (int, int), env: Env): int
  {
    env.cmsixOf(c.0, c.1)
  }

  /** The name `as_dot` draws for a callee: the qualified name of the
      method in an application class, otherwise the class name and the
      signature name joined by a dot. */
  function CalleeName(c: (int, int), env: Env): (r: string)
    ensures c.0 in env.app ==> r == env.aqname(Callee(c, env))
    ensures c.0 !in env.app ==> r == env.className(c.0) + "." + env.msName(c.1)
  {
    if c.0 in env.app then env.aqname(Callee(c, env)) else env.className(c.0) + "." + env.msName(c.1)
  }

  /** One of the pairs is an application class whose method is `y`. */
  predicate CallsApp(calls: seq<(int, int)>, y: int, env: Env)
  {
    exists c :: c in calls && c.0 in env.app && Callee(c, env) == y
  }

  /** `as_dot` goes from method x to method y. */
  ghost predicate DotStep(es: seq<CallEdge>, it: map<int, CallgraphTarget>, env: Env, x: int, y: int)
  {
    CallerTargetsKnown(es, x, it) && CallsApp(Calls(MethodEdges(es, x, it)), y, env)
  }

  /** The application-class methods a target's classes implement the
      callee signature with. */
  function AppCallees(cnixs: seq<int>, msix: int, env: Env): set<int>
  {
    set j | 0 <= j < |cnixs| && cnixs[j] in env.app :: env.cmsixOf(cnixs[j], msix)
  }

  /** The application-class methods any of the edges can lead to. */
  function AllAppCallees(es: seq<CallEdge>, it: map<int, CallgraphTarget>, env: Env): set<int>
  {
    if es == [] then {}
    else
      var e := es[|es| - 1];
      AllAppCallees(es[..|es| - 1], it, env) + if e.itgt in it then AppCallees(it[e.itgt].Cnixs(), e.msix, env) else {}
  }

  lemma {:induction false} AllAppCalleesHas(es: seq<CallEdge>, it: map<int, CallgraphTarget>, env: Env, k: int, cnix: int)
    requires 0 <= k < |es| && es[k].itgt in it && cnix in it[es[k].itgt].Cnixs() && cnix in env.app
    ensures env.cmsixOf(cnix, es[k].msix) in AllAppCallees(es, it, env)
  {
    if k == |es| - 1 {
      var cnixs := it[es[k].itgt].Cnixs();
      var j :| 0 <= j < |cnixs| && cnixs[j] == cnix;
      assert env.cmsixOf(cnixs[j], es[k].msix) in AppCallees(cnixs, es[k].msix, env);
    } else {
      AllAppCalleesHas(es[..|es| - 1], it, env, k, cnix);
    }
  }

  /** The methods `as_dot` can reach: the start and the application-class
      methods any edge can lead to. */
  function DotUniverse(es: seq<CallEdge>, it: map<int, CallgraphTarget>, env: Env, start: int): set<int>
  {
    {start} + AllAppCallees(es, it, env)
  }

  lemma DotStepInUniverse(es: seq<CallEdge>, it: map<int, CallgraphTarget>, env: Env, start: int, x: int, y: int)
    requires DotStep(es, it, env, x, y)
    ensures y in DotUniverse(es, it, env, start)
  {
    var d := MethodEdges(es, x, it);
    var c :| c in Calls(d) && c.0 in env.app && Callee(c, env) == y;
    CallsFrom(d, c);
    var i :| 0 <= i < |d| && c.1 == d[i].1.0 && c.0 in d[i].1.1.Cnixs();
    MethodEdgesFrom(es, x, it);
    assert d[i] in d;
    var k :| 0 <= k < |es| && Gives(es[k], x, it, d[i]);
    AllAppCalleesHas(es, it, env, k, c.0);
  }

  // -------------------------------------------------- reverse edges

  /** One of the classes implements the callee signature as the method. */
  predicate Resolves(cnixs: seq<int>, msix: int, cmsix: int, env: Env)
  {
    exists j :: 0 <= j < |cnixs| && env.cmsixOf(cnixs[j], msix) == cmsix
  }

  /** `_get_rev_method_edges` as a function of the edges: by pc, the caller
      of each edge one of whose target classes implements the callee
      signature as the method, a later edge at the same pc replacing the
      earlier one in its place. */
  function RevMethodEdges(es: seq<CallEdge>, cmsix: int, it: map<int, CallgraphTarget>, env: Env): (r: Dict<int, int>)
    requires TargetsKnown(es, it)
    ensures KeysDistinct(r)
  {
    if es == [] then []
    else
      var e := es[|es| - 1];
      var d := RevMethodEdges(es[..|es| - 1], cmsix, it, env);
      if Resolves(it[e.itgt].Cnixs(), e.msix, cmsix, env) then Put(d, e.pc, e.cmsix) else d
  }

  /** Every entry of the reverse edges comes from an edge whose target
      resolves to the method, and every such edge's pc has an entry. */
  lemma RevMethodEdgesFrom(es: seq<CallEdge>, cmsix: int, it: map<int, CallgraphTarget>, env: Env)
    requires TargetsKnown(es, it)
    ensures forall p :: p in RevMethodEdges(es, cmsix, it, env) ==>
      exists k :: 0 <= k < |es| && es[k].pc == p.0 && es[k].cmsix == p.1 && Resolves(it[es[k].itgt].Cnixs(), es[k].msix, cmsix, env)
    ensures forall k :: 0 <= k < |es| && Resolves(it[es[k].itgt].Cnixs(), es[k].msix, cmsix, env) ==>
      Lookup(RevMethodEdges(es, cmsix, it, env), es[k].pc).Some?
  {
    RevMethodEdgesSound(es, cmsix, it, env);
    RevMethodEdgesComplete(es, cmsix, it, env);
  }

  /** Every reverse edge comes from a resolving call edge. */
  lemma {:induction false} RevMethodEdgesSound(es: seq<CallEdge>, cmsix: int, it: map<int, CallgraphTarget>, env: Env)
    requires TargetsKnown(es, it)
    ensures forall p :: p in RevMethodEdges(es, cmsix, it, env) ==>
      exists k :: 0 <= k < |es| && es[k].pc == p.0 && es[k].cmsix == p.1 && Resolves(it[es[k].itgt].Cnixs(), es[k].msix, cmsix, env)
  {
    if es != [] {
      var init := es[..|es| - 1];
      var e := es[|es| - 1];
      RevMethodEdgesSound(init, cmsix, it, env);
      var d := RevMethodEdges(init, cmsix, it, env);
      forall p | p in RevMethodEdges(es, cmsix, it, env)
        ensures exists k :: 0 <= k < |es| && es[k].pc == p.0 && es[k].cmsix == p.1 && Resolves(it[es[k].itgt].Cnixs(), es[k].msix, cmsix, env)
      {
        if Resolves(it[e.itgt].Cnixs(), e.msix, cmsix, env) && p.0 == e.pc {
          assert p == (e.pc, e.cmsix);
          assert es[|es| - 1] == e;
        } else {
          assert p in d;
          var k :| 0 <= k < |init| &&
            init[k].pc == p.0 && init[k].cmsix == p.1 && Resolves(it[init[k].itgt].Cnixs(), init[k].msix, cmsix, env);
          assert es[k] == init[k];
        }
      }
    }
  }

  /** Every resolving call edge leaves an entry at its pc. */
  lemma {:induction false} RevMethodEdgesComplete(es: seq<CallEdge>, cmsix: int, it: map<int, CallgraphTarget>, env: Env)
    requires TargetsKnown(es, it)
    ensures forall k :: 0 <= k < |es| && Resolves(it[es[k].itgt].Cnixs(), es[k].msix, cmsix, env) ==>
      Lookup(RevMethodEdges(es, cmsix, it, env), es[k].pc).Some?
  {
    if es != [] {
      var init := es[..|es| - 1];
      var e := es[|es| - 1];
      RevMethodEdgesComplete(init, cmsix, it, env);
      var d := RevMethodEdges(init, cmsix, it, env);
      forall k | 0 <= k < |es| && Resolves(it[es[k].itgt].Cnixs(), es[k].msix, cmsix, env)
        ensures Lookup(RevMethodEdges(es, cmsix, it, env), es[k].pc).Some?
      {
        if Resolves(it[e.itgt].Cnixs(), e.msix, cmsix, env) {
          LookupPut(d, e.pc, e.cmsix, es[k].pc);
        }
        if k < |es| - 1 {
          assert init[k] == es[k];
        }
      }
    }
  }

  /** One of the reverse edges comes from method y. */
  predicate HasCaller(d: Dict<int, int>, y: int)
  {
    exists p :: p in d && p.1 == y
  }

  /** `as_rev_dot` goes from method x to method y. */
  ghost predicate RevStep(es: seq<CallEdge>, it: map<int, CallgraphTarget>, env: Env, x: int, y: int)
  {
    TargetsKnown(es, it) && HasCaller(RevMethodEdges(es, x, it, env), y)
  }

  /** The methods `as_rev_dot` can reach: the start and the callers of the
      edges. */
  ghost function RevUniverse(es: seq<CallEdge>, start: int): set<int>
  {
    {start} + set k | 0 <= k < |es| :: es[k].cmsix
  }

  lemma RevStepInUniverse(es: seq<CallEdge>, it: map<int, CallgraphTarget>, env: Env, start: int, x: int, y: int)
    requires RevStep(es, it, env, x, y)
    ensures y in RevUniverse(es, start)
  {
    var p :| p in RevMethodEdges(es, x, it, env) && p.1 == y;
    RevMethodEdgesFrom(es, x, it, env);
    var k :| 0 <= k < |es| && es[k].pc == p.0 && es[k].cmsix == p.1 && Resolves(it[es[k].itgt].Cnixs(), es[k].msix, x, env);
    assert es[k].cmsix in set k | 0 <= k < |es| :: es[k].cmsix;
  }

  // ------------------------------------------------------- worklists

  /** The stack discipline of the traversals: a done method still on the
      stack has each successor done or above it on the stack. */
  ghost predicate StackClosed(rem: seq<int>, done: set<int>, succ: (int, int) -> bool)
  {
    forall i, y :: 0 <= i < |rem| && rem[i] in done && succ(rem[i], y) ==> y in done || y in rem[i + 1..]
  }

  /** Each successor of a done method is done or on the stack. */
  ghost predicate DoneClosed(rem: seq<int>, done: set<int>, succ: (int, int) -> bool)
  {
    forall x, y :: x in done && succ(x, y) ==> y in done || y in rem
  }

  /** The methods pushed after popping n are successors of n not done, and
      every successor of n not done is pushed. */
  ghost predicate Pushes(pushed: seq<int>, n: int, done: set<int>, succ: (int, int) -> bool)
  {
    (forall k :: 0 <= k < |pushed| ==> succ(n, pushed[k]) && pushed[k] !in done) &&
    (forall y :: succ(n, y) ==> y in done || y in pushed)
  }

  /** Popping the top method, marking it done and pushing its successors
      that are not done keeps both closures; a method popped a second time
      pushes nothing. */
  lemma PopStep(rem: seq<int>, done: set<int>, succ: (int, int) -> bool, pushed: seq<int>)
    requires |rem| > 0
    requires StackClosed(rem, done, succ) && DoneClosed(rem, done, succ)
    requires Pushes(pushed, rem[|rem| - 1], done + {rem[|rem| - 1]}, succ)
    ensures rem[|rem| - 1] in done ==> pushed == []
    ensures StackClosed(rem[..|rem| - 1] + pushed, done + {rem[|rem| - 1]}, succ)
    ensures DoneClosed(rem[..|rem| - 1] + pushed, done + {rem[|rem| - 1]}, succ)
  {
    var n := rem[|rem| - 1];
    var low := rem[..|rem| - 1];
    var rem', done' := low + pushed, done + {n};
    assert Pushes(pushed, n, done', succ);
    if pushed != [] {
      var y := pushed[0];
      assert succ(n, y) && y !in done';
      assert y !in rem[|rem| - 1 + 1..];
      assert n !in done;
    }
    forall i | |low| <= i < |rem'|
      ensures rem'[i] !in done'
    {
      assert rem'[i] == pushed[i - |low|];
    }
    forall i, y | 0 <= i < |rem'| && rem'[i] in done' && succ(rem'[i], y)
      ensures y in done' || y in rem'[i + 1..]
    {
      if i < |low| {
        assert rem'[i] == rem[i];
        if rem[i] in done {
          assert y in done || y in rem[i + 1..];
          if y !in done && y != n {
            var j :| i + 1 <= j < |rem| && rem[j] == y;
            assert rem'[j] == y;
          }
        } else {
          assert rem[i] == n && succ(n, y);
          if y !in done' {
            assert y in pushed;
            var j :| 0 <= j < |pushed| && pushed[j] == y;
            assert rem'[|low| + j] == y;
          }
        }
      }
    }
    forall x, y | x in done' && succ(x, y)
      ensures y in done' || y in rem'
    {
      if x in done && y !in done' {
        assert y in rem && y != n;
        var j :| 0 <= j < |rem| && rem[j] == y;
        assert rem'[j] == y;
      } else if x == n && y !in done' {
        assert y in pushed;
      }
    }
  }

  /** The facts `DotVisit` gathers, drawing the calls of the popped method
      and pushing its callees, restore the traversal's invariant. */
  lemma DotVisitStep(es: seq<CallEdge>, it: map<int, CallgraphTarget>, env: Env, start: int,
    rem: seq<int>, visited: set<int>, u: set<int>, nodes0: Dict<string, DotNode>, edges0: Dict<(string, string), DotEdge>,
    done: seq<int>, d: Dict<int, (int, CallgraphTarget)>, rem': seq<int>, nodes1: Dict<string, DotNode>, edges1: Dict<(string, string), DotEdge>)
    requires |rem| > 0
    requires forall x :: x in done <==> x in visited || x == rem[|rem| - 1]
    requires DotInvariant(es, it, env, start, rem, visited, nodes0, edges0)
    requires u == DotUniverse(es, it, env, start)
    requires CallerTargetsKnown(es, rem[|rem| - 1], it) && d == MethodEdges(es, rem[|rem| - 1], it)
    requires Extends(nodes0, nodes1) && Extends(edges0, edges1)
    requires AllDrawn(nodes1, edges1, env.aqname(rem[|rem| - 1]), Calls(d), env)
    requires |rem[..|rem| - 1]| <= |rem'| && rem'[..|rem[..|rem| - 1]|] == rem[..|rem| - 1]
    requires PushedFrom(rem'[|rem[..|rem| - 1]|..], Calls(d), done, nodes1, env)
    requires AllPushed(Calls(d), done, rem'[|rem[..|rem| - 1]|..], env)
    ensures DotInvariant(es, it, env, start, rem', visited + {rem[|rem| - 1]}, nodes1, edges1)
    ensures |u - (visited + {rem[|rem| - 1]})| < |u - visited| ||
      (|u - (visited + {rem[|rem| - 1]})| == |u - visited| && |rem'| < |rem|)
  {
    var low := rem[..|rem| - 1];
    var pushed := rem'[|low|..];
    assert rem' == low + pushed;
    DotPop(es, it, env, start, rem, visited, nodes0, edges0, done, pushed, nodes1, edges1);
    PopDecreases(rem, visited, pushed, u);
  }

  lemma PopDecreases(rem: seq<int>, visited: set<int>, pushed: seq<int>, u: set<int>)
    requires |rem| > 0 && InUniverse(rem, visited, u)
    requires rem[|rem| - 1] in visited ==> pushed == []
    ensures |u - (visited + {rem[|rem| - 1]})| < |u - visited| ||
      (|u - (visited + {rem[|rem| - 1]})| == |u - visited| && |rem[..|rem| - 1] + pushed| < |rem|)
  {
    var n := rem[|rem| - 1];
    if n in visited {
      assert visited + {n} == visited;
    } else {
      FewerUndone(u, visited, n);
    }
  }

  lemma FewerUndone(u: set<int>, done: set<int>, n: int)
    requires n in u && n !in done
    ensures |u - (done + {n})| < |u - done|
  {
    assert u - (done + {n}) == (u - done) - {n};
  }

  // ----------------------------------------------------------- drawing

  /** The edge from the method to a callee is drawn, and so is the node of
      an application-class callee. */
  predicate Drawn(nodes: Dict<string, DotNode>, edges: Dict<(string, string), DotEdge>, name: string, c: (int, int), env: Env)
  {
    Lookup(edges, (name, CalleeName(c, env))).Some? &&
    (c.0 in env.app ==> Lookup(nodes, env.aqname(Callee(c, env))).Some?)
  }

  /** A drawing survives the graph growing. */
  lemma DrawnExtends(nodes: Dict<string, DotNode>, edges: Dict<(string, string), DotEdge>,
                     nodes': Dict<string, DotNode>, edges': Dict<(string, string), DotEdge>,
                     name: string, c: (int, int), env: Env)
    requires Extends(nodes, nodes') && Extends(edges, edges') && Drawn(nodes, edges, name, c, env)
    ensures Drawn(nodes', edges', name, c, env)
  {
    LookupExtends(edges, edges', (name, CalleeName(c, env)));
    if c.0 in env.app {
      LookupExtends(nodes, nodes', env.aqname(Callee(c, env)));
    }
  }

  /** Every pair is drawn. */
  predicate AllDrawn(nodes: Dict<string, DotNode>, edges: Dict<(string, string), DotEdge>, name: string, calls: seq<(int, int)>, env: Env)
  {
    forall c :: c in calls ==> Drawn(nodes, edges, name, c, env)
  }

  lemma AllDrawnExtends(nodes: Dict<string, DotNode>, edges: Dict<(string, string), DotEdge>,
                        nodes': Dict<string, DotNode>, edges': Dict<(string, string), DotEdge>,
                        name: string, calls: seq<(int, int)>, env: Env)
    requires Extends(nodes, nodes') && Extends(edges, edges') && AllDrawn(nodes, edges, name, calls, env)
    ensures AllDrawn(nodes', edges', name, calls, env)
  {
    forall c | c in calls
      ensures Drawn(nodes', edges', name, c, env)
    {
      DrawnExtends(nodes, edges, nodes', edges', name, c, env);
    }
  }

  /** The pushed methods are application callees of the pairs that were
      not done, and their nodes are drawn. */
  predicate PushedFrom(pushed: seq<int>, calls: seq<(int, int)>, done: seq<int>, nodes: Dict<string, DotNode>, env: Env)
  {
    forall y :: y in pushed ==> CallsApp(calls, y, env) && y !in done && Lookup(nodes, env.aqname(y)).Some?
  }

  lemma PushedFromExtends(pushed: seq<int>, calls: seq<(int, int)>, done: seq<int>, nodes: Dict<string, DotNode>, nodes': Dict<string, DotNode>, env: Env)
    requires Extends(nodes, nodes') && PushedFrom(pushed, calls, done, nodes, env)
    ensures PushedFrom(pushed, calls, done, nodes', env)
  {
    forall y | y in pushed
      ensures Lookup(nodes', env.aqname(y)).Some?
    {
      LookupExtends(nodes, nodes', env.aqname(y));
    }
  }

  /** Every application callee of the pairs is done or pushed. */
  predicate AllPushed(calls: seq<(int, int)>, done: seq<int>, pushed: seq<int>, env: Env)
  {
    forall c :: c in calls && c.0 in env.app ==> Callee(c, env) in done || Callee(c, env) in pushed
  }

  lemma AllPushedCallsApp(calls: seq<(int, int)>, done: seq<int>, pushed: seq<int>, env: Env)
    requires AllPushed(calls, done, pushed, env)
    ensures forall y :: CallsApp(calls, y, env) ==> y in done || y in pushed
  {
  }

  /** One pass of the innermost loop of `as_dot`: the edge from the method
      to the class's implementation of the callee signature, and a push of
      it when the class is an application class and it is not done. */
  method DrawTarget(g: DotGraph, name: string, cnix: int, msix: int, env: Env, done: seq<int>, rem: seq<int>)
    returns (rem': seq<int>)
    requires g.Valid()
    modifies g
    ensures g.Valid() && Extends(old(g.nodes), g.nodes) && Extends(old(g.edges), g.edges)
    ensures Drawn(g.nodes, g.edges, name, (cnix, msix), env)
    ensures rem' == if cnix in env.app && Callee((cnix, msix), env) !in done then rem + [Callee((cnix, msix), env)] else rem
  {
    var tgtcmsix := env.cmsixOf(cnix, msix);
    var tgtname := if cnix in env.app then env.aqname(tgtcmsix) else env.className(cnix) + "." + env.msName(msix);
    g.AddEdge(name, tgtname, None);
    rem' := rem;
    if cnix in env.app {
      if tgtcmsix !in done {
        rem' := rem' + [tgtcmsix];
      }
    }
  }

  /** What one pass of the innermost loop of `as_dot` adds to what the
      passes before it drew and pushed. */
  lemma TargetsStep(nodesA: Dict<string, DotNode>, edgesA: Dict<(string, string), DotEdge>,
                    nodes0: Dict<string, DotNode>, edges0: Dict<(string, string), DotEdge>,
                    nodes1: Dict<string, DotNode>, edges1: Dict<(string, string), DotEdge>,
                    name: string, ps: seq<(int, int)>, j: int, env: Env, done: seq<int>, pushed0: seq<int>, pushed1: seq<int>)
    requires Extends(nodesA, nodes0) && Extends(edgesA, edges0) && Extends(nodes0, nodes1) && Extends(edges0, edges1)
    requires 0 <= j < |ps|
    requires AllDrawn(nodes0, edges0, name, ps[..j], env) && Drawn(nodes1, edges1, name, ps[j], env)
    requires PushedFrom(pushed0, ps, done, nodes0, env) && AllPushed(ps[..j], done, pushed0, env)
    requires pushed1 == if ps[j].0 in env.app && Callee(ps[j], env) !in done then pushed0 + [Callee(ps[j], env)] else pushed0
    ensures Extends(nodesA, nodes1) && Extends(edgesA, edges1)
    ensures AllDrawn(nodes1, edges1, name, ps[..j + 1], env)
    ensures PushedFrom(pushed1, ps, done, nodes1, env) && AllPushed(ps[..j + 1], done, pushed1, env)
  {
    ExtendsTransitive(nodesA, nodes0, nodes1);
    ExtendsTransitive(edgesA, edges0, edges1);
    AllDrawnExtends(nodes0, edges0, nodes1, edges1, name, ps[..j], env);
    PushedFromExtends(pushed0, ps, done, nodes0, nodes1, env);
    assert ps[..j + 1] == ps[..j] + [ps[j]];
    assert ps[j] in ps;
  }

  /** The innermost loop of `as_dot` for one edge: an edge from the method
      to each class's implementation of the callee signature, and a push
      of each application-class one that is not done. */
  method DrawTargets(g: DotGraph, name: string, cnixs: seq<int>, msix: int, env: Env, done: seq<int>, rem: seq<int>)
    returns (rem': seq<int>)
    requires g.Valid()
    modifies g
    ensures g.Valid() && Extends(old(g.nodes), g.nodes) && Extends(old(g.edges), g.edges)
    ensures AllDrawn(g.nodes, g.edges, name, Pairs(cnixs, msix), env)
    ensures |rem| <= |rem'| && rem'[..|rem|] == rem
    ensures PushedFrom(rem'[|rem|..], Pairs(cnixs, msix), done, g.nodes, env)
    ensures AllPushed(Pairs(cnixs, msix), done, rem'[|rem|..], env)
  {
    var ps := Pairs(cnixs, msix);
    rem' := rem;
    ghost var pushed := [];
    var j := 0;
    while j < |cnixs|
      invariant 0 <= j <= |cnixs|
      invariant g.Valid() && Extends(old(g.nodes), g.nodes) && Extends(old(g.edges), g.edges)
      invariant AllDrawn(g.nodes, g.edges, name, ps[..j], env)
      invariant rem' == rem + pushed
      invariant PushedFrom(pushed, ps, done, g.nodes, env)
      invariant AllPushed(ps[..j], done, pushed, env)
    {
      ghost var nodes0, edges0, pushed0 := g.nodes, g.edges, pushed;
      assert ps[j] == (cnixs[j], msix);
      rem' := DrawTarget(g, name, cnixs[j], msix, env, done, rem');
      if cnixs[j] in env.app && Callee(ps[j], env) !in done {
        ghost var y := Callee(ps[j], env);
        Assoc3(rem, pushed, [y]);
        pushed := pushed + [y];
      }
      TargetsStep(old(g.nodes), old(g.edges), nodes0, edges0, g.nodes, g.edges, name, ps, j, env, done, pushed0, pushed);
      j := j + 1;
    }
    assert ps[..j] == ps;
  }

  /** What the edges after the first ones add to what was drawn and pushed
      for the first ones. */
  lemma CallsStep(nodesA: Dict<string, DotNode>, edgesA: Dict<(string, string), DotEdge>,
                  nodes0: Dict<string, DotNode>, edges0: Dict<(string, string), DotEdge>,
                  nodes1: Dict<string, DotNode>, edges1: Dict<(string, string), DotEdge>,
                  name: string, a: seq<(int, int)>, b: seq<(int, int)>, env: Env, done: seq<int>, pushed0: seq<int>, q: seq<int>)
    requires Extends(nodesA, nodes0) && Extends(edgesA, edges0) && Extends(nodes0, nodes1) && Extends(edges0, edges1)
    requires AllDrawn(nodes0, edges0, name, a, env) && AllDrawn(nodes1, edges1, name, b, env)
    requires PushedFrom(pushed0, a, done, nodes0, env) && AllPushed(a, done, pushed0, env)
    requires PushedFrom(q, b, done, nodes1, env) && AllPushed(b, done, q, env)
    ensures Extends(nodesA, nodes1) && Extends(edgesA, edges1)
    ensures AllDrawn(nodes1, edges1, name, a + b, env)
    ensures PushedFrom(pushed0 + q, a + b, done, nodes1, env) && AllPushed(a + b, done, pushed0 + q, env)
  {
    ExtendsTransitive(nodesA, nodes0, nodes1);
    ExtendsTransitive(edgesA, edges0, edges1);
    AllDrawnExtends(nodes0, edges0, nodes1, edges1, name, a, env);
    PushedFromExtends(pushed0, a, done, nodes0, nodes1, env);
    forall y | y in pushed0 + q
      ensures CallsApp(a + b, y, env)
    {
      if y in pushed0 {
        var c :| c in a && c.0 in env.app && Callee(c, env) == y;
        assert c in a + b;
      } else {
        var c :| c in b && c.0 in env.app && Callee(c, env) == y;
        assert c in a + b;
      }
    }
  }

  /** The two inner loops of `as_dot` for one method: every edge of the
      method to every class of each target, and a push of every
      application-class callee that is not done. */
  method DrawCalls(g: DotGraph, name: string, d: Dict<int, (int, CallgraphTarget)>, env: Env, done: seq<int>, rem: seq<int>)
    returns (rem': seq<int>)
    requires g.Valid()
    modifies g
    ensures g.Valid() && Extends(old(g.nodes), g.nodes) && Extends(old(g.edges), g.edges)
    ensures AllDrawn(g.nodes, g.edges, name, Calls(d), env)
    ensures |rem| <= |rem'| && rem'[..|rem|] == rem
    ensures PushedFrom(rem'[|rem|..], Calls(d), done, g.nodes, env)
    ensures AllPushed(Calls(d), done, rem'[|rem|..], env)
  {
    ghost var nodesA, edgesA := g.nodes, g.edges;
    rem' := rem;
    ghost var pushed := [];
    var i := 0;
    while i < |d|
      invariant 0 <= i <= |d|
      invariant g.Valid() && Extends(nodesA, g.nodes) && Extends(edgesA, g.edges)
      invariant AllDrawn(g.nodes, g.edges, name, Calls(d[..i]), env)
      invariant rem' == rem + pushed
      invariant PushedFrom(pushed, Calls(d[..i]), done, g.nodes, env)
      invariant AllPushed(Calls(d[..i]), done, pushed, env)
    {
      var (msix, tgt) := d[i].1;
      ghost var nodes0, edges0, rem0 := g.nodes, g.edges, rem';
      rem' := DrawTargets(g, name, tgt.Cnixs(), msix, env, done, rem');
      ghost var q := rem'[|rem0|..];
      assert rem' == rem0 + q;
      Assoc3(rem, pushed, q);
      CallsSnoc(d, i);
      CallsStep(nodesA, edgesA, nodes0, edges0, g.nodes, g.edges, name,
                Calls(d[..i]), Pairs(tgt.Cnixs(), msix), env, done, pushed, q);
      pushed := pushed + q;
      i := i + 1;
    }
    assert d[..i] == d;
    assert rem'[..|rem|] == rem && rem'[|rem|..] == pushed;
  }

  // ------------------------------------------------ drawing the callers

  /** The edge from each caller to the method is drawn, with the caller's
      node. */
  predicate CallersDrawn(nodes: Dict<string, DotNode>, edges: Dict<(string, string), DotEdge>, name: string, d: Dict<int, int>, env: Env)
  {
    forall p :: p in d ==> Lookup(edges, (env.aqname(p.1), name)).Some? && Lookup(nodes, env.aqname(p.1)).Some?
  }

  lemma CallersDrawnExtends(nodes: Dict<string, DotNode>, edges: Dict<(string, string), DotEdge>,
                            nodes': Dict<string, DotNode>, edges': Dict<(string, string), DotEdge>,
                            name: string, d: Dict<int, int>, env: Env)
    requires Extends(nodes, nodes') && Extends(edges, edges') && CallersDrawn(nodes, edges, name, d, env)
    ensures CallersDrawn(nodes', edges', name, d, env)
  {
    LookupsExtend(nodes, nodes');
    LookupsExtend(edges, edges');
  }

  /** The pushed methods are callers not done, with their nodes drawn. */
  predicate PushedCallers(pushed: seq<int>, d: Dict<int, int>, done: seq<int>, nodes: Dict<string, DotNode>, env: Env)
  {
    forall y :: y in pushed ==> HasCaller(d, y) && y !in done && Lookup(nodes, env.aqname(y)).Some?
  }

  /** Every caller is done or pushed. */
  predicate AllCallersPushed(d: Dict<int, int>, done: seq<int>, pushed: seq<int>)
  {
    forall p :: p in d ==> p.1 in done || p.1 in pushed
  }

  /** What one pass of the inner loop of `as_rev_dot` adds to what the
      passes before it drew and pushed. */
  lemma CallersStep(nodesA: Dict<string, DotNode>, edgesA: Dict<(string, string), DotEdge>,
                    nodes0: Dict<string, DotNode>, edges0: Dict<(string, string), DotEdge>,
                    nodes1: Dict<string, DotNode>, edges1: Dict<(string, string), DotEdge>,
                    name: string, d: Dict<int, int>, i: int, env: Env, done: seq<int>, pushed0: seq<int>, pushed1: seq<int>)
    requires Extends(nodesA, nodes0) && Extends(edgesA, edges0) && Extends(nodes0, nodes1) && Extends(edges0, edges1)
    requires 0 <= i < |d|
    requires CallersDrawn(nodes0, edges0, name, d[..i], env)
    requires Lookup(edges1, (env.aqname(d[i].1), name)).Some? && Lookup(nodes1, env.aqname(d[i].1)).Some?
    requires PushedCallers(pushed0, d, done, nodes0, env) && AllCallersPushed(d[..i], done, pushed0)
    requires pushed1 == if d[i].1 !in done then pushed0 + [d[i].1] else pushed0
    ensures Extends(nodesA, nodes1) && Extends(edgesA, edges1)
    ensures CallersDrawn(nodes1, edges1, name, d[..i + 1], env)
    ensures PushedCallers(pushed1, d, done, nodes1, env) && AllCallersPushed(d[..i + 1], done, pushed1)
  {
    ExtendsTransitive(nodesA, nodes0, nodes1);
    ExtendsTransitive(edgesA, edges0, edges1);
    CallersDrawnExtends(nodes0, edges0, nodes1, edges1, name, d[..i], env);
    CallersDrawnSnoc(nodes1, edges1, name, d, i, env);
    PushedCallersSnoc(nodes0, nodes1, d, i, env, done, pushed0, pushed1);
    AllCallersPushedSnoc(d, i, done, pushed0, pushed1);
  }

  lemma CallersDrawnSnoc(nodes: Dict<string, DotNode>, edges: Dict<(string, string), DotEdge>,
                         name: string, d: Dict<int, int>, i: int, env: Env)
    requires 0 <= i < |d|
    requires CallersDrawn(nodes, edges, name, d[..i], env)
    requires Lookup(edges, (env.aqname(d[i].1), name)).Some? && Lookup(nodes, env.aqname(d[i].1)).Some?
    ensures CallersDrawn(nodes, edges, name, d[..i + 1], env)
  {
    assert d[..i + 1] == d[..i] + [d[i]];
  }

  lemma PushedCallersSnoc(nodes0: Dict<string, DotNode>, nodes1: Dict<string, DotNode>, d: Dict<int, int>, i: int,
                          env: Env, done: seq<int>, pushed0: seq<int>, pushed1: seq<int>)
    requires 0 <= i < |d| && Extends(nodes0, nodes1)
    requires PushedCallers(pushed0, d, done, nodes0, env)
    requires Lookup(nodes1, env.aqname(d[i].1)).Some?
    requires pushed1 == if d[i].1 !in done then pushed0 + [d[i].1] else pushed0
    ensures PushedCallers(pushed1, d, done, nodes1, env)
  {
    LookupsExtend(nodes0, nodes1);
    assert d[i] in d;
  }

  lemma AllCallersPushedSnoc(d: Dict<int, int>, i: int, done: seq<int>, pushed0: seq<int>, pushed1: seq<int>)
    requires 0 <= i < |d|
    requires AllCallersPushed(d[..i], done, pushed0)
    requires pushed1 == if d[i].1 !in done then pushed0 + [d[i].1] else pushed0
    ensures AllCallersPushed(d[..i + 1], done, pushed1)
  {
    assert d[..i + 1] == d[..i] + [d[i]];
  }

  /** One pass of the inner loop of `as_rev_dot`: the edge from a caller
      to the method, and a push of the caller when it is not done. */
  method DrawCaller(g: DotGraph, name: string, srccmsix: int, env: Env, done: seq<int>, rem: seq<int>)
    returns (rem': seq<int>)
    requires g.Valid()
    modifies g
    ensures g.Valid() && Extends(old(g.nodes), g.nodes) && Extends(old(g.edges), g.edges)
    ensures Lookup(g.edges, (env.aqname(srccmsix), name)).Some? && Lookup(g.nodes, env.aqname(srccmsix)).Some?
    ensures rem' == if srccmsix !in done then rem + [srccmsix] else rem
  {
    var srcname := env.aqname(srccmsix);
    g.AddEdge(srcname, name, None);
    rem' := rem;
    if srccmsix !in done {
      rem' := rem' + [srccmsix];
    }
  }

  /** The inner loop of `as_rev_dot` for one method: an edge from the
      caller of each reverse edge to the method, and a push of each caller
      that is not done. */
  method DrawCallers(g: DotGraph, name: string, d: Dict<int, int>, env: Env, done: seq<int>, rem: seq<int>)
    returns (rem': seq<int>)
    requires g.Valid()
    modifies g
    ensures g.Valid() && Extends(old(g.nodes), g.nodes) && Extends(old(g.edges), g.edges)
    ensures CallersDrawn(g.nodes, g.edges, name, d, env)
    ensures |rem| <= |rem'| && rem'[..|rem|] == rem
    ensures PushedCallers(rem'[|rem|..], d, done, g.nodes, env)
    ensures AllCallersPushed(d, done, rem'[|rem|..])
  {
    ghost var nodesA, edgesA := g.nodes, g.edges;
    rem' := rem;
    ghost var pushed := [];
    var i := 0;
    while i < |d|
      invariant 0 <= i <= |d|
      invariant g.Valid() && Extends(nodesA, g.nodes) && Extends(edgesA, g.edges)
      invariant CallersDrawn(g.nodes, g.edges, name, d[..i], env)
      invariant rem' == rem + pushed
      invariant PushedCallers(pushed, d, done, g.nodes, env)
      invariant AllCallersPushed(d[..i], done, pushed)
    {
      var srccmsix := d[i].1;
      ghost var nodes0, edges0, pushed0 := g.nodes, g.edges, pushed;
      rem' := DrawCaller(g, name, srccmsix, env, done, rem');
      pushed := if srccmsix !in done then pushed + [srccmsix] else pushed;
      if srccmsix !in done {
        Assoc3(rem, pushed0, [srccmsix]);
      }
      CallersStep(nodesA, edgesA, nodes0, edges0, g.nodes, g.edges, name, d, i, env, done, pushed0, pushed);
      i := i + 1;
    }
    assert d[..i] == d;
    assert rem'[..|rem|] == rem && rem'[|rem|..] == pushed;
  }

  // -------------------------------------------------- traversal states

  /** The visited and pushed methods lie in the universe. */
  ghost predicate InUniverse(rem: seq<int>, visited: set<int>, u: set<int>)
  {
    visited <= u && forall y :: y in rem ==> y in u
  }

  /** Popping the top method and pushing methods of the universe keeps the
      traversal in the universe, and a method visited for the first time
      leaves fewer methods of the universe unvisited. */
  lemma UniverseStep(rem: seq<int>, visited: set<int>, u: set<int>, pushed: seq<int>)
    requires |rem| > 0 && InUniverse(rem, visited, u)
    requires forall y :: y in pushed ==> y in u
    ensures InUniverse(rem[..|rem| - 1] + pushed, visited + {rem[|rem| - 1]}, u)
    ensures rem[|rem| - 1] !in visited ==> |u - (visited + {rem[|rem| - 1]})| < |u - visited|
  {
    var n := rem[|rem| - 1];
    assert n in u;
    if n !in visited {
      FewerUndone(u, visited, n);
    }
  }

  /** Every visited or pushed method has its node. */
  ghost predicate NodesDrawn(nodes: Dict<string, DotNode>, rem: seq<int>, visited: set<int>, env: Env)
  {
    forall x :: x in visited || x in rem ==> Lookup(nodes, env.aqname(x)).Some?
  }

  lemma NodesStep(nodes0: Dict<string, DotNode>, nodes1: Dict<string, DotNode>, rem: seq<int>, visited: set<int>, pushed: seq<int>, env: Env)
    requires |rem| > 0 && NodesDrawn(nodes0, rem, visited, env) && Extends(nodes0, nodes1)
    requires forall y :: y in pushed ==> Lookup(nodes1, env.aqname(y)).Some?
    ensures NodesDrawn(nodes1, rem[..|rem| - 1] + pushed, visited + {rem[|rem| - 1]}, env)
  {
    LookupsExtend(nodes0, nodes1);
  }

  /** The successor relation of `as_dot`. */
  ghost function DotSucc(es: seq<CallEdge>, it: map<int, CallgraphTarget>, env: Env): (int, int) -> bool
  {
    (x, y) => DotStep(es, it, env, x, y)
  }

  /** The visited methods' edges were read, and all their calls drawn. */
  ghost predicate CallsAllDrawn(es: seq<CallEdge>, it: map<int, CallgraphTarget>, env: Env, visited: set<int>,
                                nodes: Dict<string, DotNode>, edges: Dict<(string, string), DotEdge>)
  {
    forall x :: x in visited ==>
      CallerTargetsKnown(es, x, it) && AllDrawn(nodes, edges, env.aqname(x), Calls(MethodEdges(es, x, it)), env)
  }

  lemma CallsAllDrawnStep(es: seq<CallEdge>, it: map<int, CallgraphTarget>, env: Env, visited: set<int>, n: int,
                          nodes0: Dict<string, DotNode>, edges0: Dict<(string, string), DotEdge>,
                          nodes1: Dict<string, DotNode>, edges1: Dict<(string, string), DotEdge>)
    requires CallsAllDrawn(es, it, env, visited, nodes0, edges0) && Extends(nodes0, nodes1) && Extends(edges0, edges1)
    requires CallerTargetsKnown(es, n, it)
    requires AllDrawn(nodes1, edges1, env.aqname(n), Calls(MethodEdges(es, n, it)), env)
    ensures CallsAllDrawn(es, it, env, visited + {n}, nodes1, edges1)
  {
    forall x | x in visited
      ensures AllDrawn(nodes1, edges1, env.aqname(x), Calls(MethodEdges(es, x, it)), env)
    {
      AllDrawnExtends(nodes0, edges0, nodes1, edges1, env.aqname(x), Calls(MethodEdges(es, x, it)), env);
    }
  }

  /** What the inner loops of `as_dot` push for a method are exactly its
      successors that were not visited. */
  lemma DotPushes(es: seq<CallEdge>, it: map<int, CallgraphTarget>, env: Env, n: int, visited: set<int>,
                  done: seq<int>, pushed: seq<int>, nodes: Dict<string, DotNode>)
    requires CallerTargetsKnown(es, n, it)
    requires forall x :: x in done <==> x in visited || x == n
    requires PushedFrom(pushed, Calls(MethodEdges(es, n, it)), done, nodes, env)
    requires AllPushed(Calls(MethodEdges(es, n, it)), done, pushed, env)
    ensures Pushes(pushed, n, visited + {n}, DotSucc(es, it, env))
  {
    var succ := DotSucc(es, it, env);
    forall k | 0 <= k < |pushed|
      ensures succ(n, pushed[k]) && pushed[k] !in visited + {n}
    {
      assert pushed[k] in pushed;
    }
    AllPushedCallsApp(Calls(MethodEdges(es, n, it)), done, pushed, env);
  }

  /** What holds of `as_dot` at the head of its loop: visited and pushed
      methods lie in the universe, the start was visited or is pushed, the
      visited methods' calls are drawn, the stack and the visited set are
      closed under the successor relation, and every visited or pushed
      method has its node. */
  ghost predicate DotInvariant(es: seq<CallEdge>, it: map<int, CallgraphTarget>, env: Env, start: int,
                               rem: seq<int>, visited: set<int>, nodes: Dict<string, DotNode>, edges: Dict<(string, string), DotEdge>)
  {
    InUniverse(rem, visited, DotUniverse(es, it, env, start)) &&
    (start in visited || start in rem) &&
    StackClosed(rem, visited, DotSucc(es, it, env)) && DoneClosed(rem, visited, DotSucc(es, it, env)) &&
    NodesDrawn(nodes, rem, visited, env) &&
    CallsAllDrawn(es, it, env, visited, nodes, edges)
  }

  /** One pass of the `as_dot` loop keeps its invariant, and either
      visits a new method of the universe or shrinks the stack. */
  lemma DotPop(es: seq<CallEdge>, it: map<int, CallgraphTarget>, env: Env, start: int,
               rem: seq<int>, visited: set<int>, nodes0: Dict<string, DotNode>, edges0: Dict<(string, string), DotEdge>,
               done: seq<int>, pushed: seq<int>, nodes1: Dict<string, DotNode>, edges1: Dict<(string, string), DotEdge>)
    requires |rem| > 0
    requires DotInvariant(es, it, env, start, rem, visited, nodes0, edges0)
    requires CallerTargetsKnown(es, rem[|rem| - 1], it)
    requires Extends(nodes0, nodes1) && Extends(edges0, edges1)
    requires forall x :: x in done <==> x in visited || x == rem[|rem| - 1]
    requires AllDrawn(nodes1, edges1, env.aqname(rem[|rem| - 1]), Calls(MethodEdges(es, rem[|rem| - 1], it)), env)
    requires PushedFrom(pushed, Calls(MethodEdges(es, rem[|rem| - 1], it)), done, nodes1, env)
    requires AllPushed(Calls(MethodEdges(es, rem[|rem| - 1], it)), done, pushed, env)
    ensures DotInvariant(es, it, env, start, rem[..|rem| - 1] + pushed, visited + {rem[|rem| - 1]}, nodes1, edges1)
    ensures rem[|rem| - 1] in visited ==> pushed == []
  {
    var n := rem[|rem| - 1];
    DotPushes(es, it, env, n, visited, done, pushed, nodes1);
    PopStep(rem, visited, DotSucc(es, it, env), pushed);
    forall y | y in pushed
      ensures y in DotUniverse(es, it, env, start)
    {
      var k :| 0 <= k < |pushed| && pushed[k] == y;
      DotStepInUniverse(es, it, env, start, n, y);
    }
    UniverseStep(rem, visited, DotUniverse(es, it, env, start), pushed);
    NodesStep(nodes0, nodes1, rem, visited, pushed, env);
    CallsAllDrawnStep(es, it, env, visited, n, nodes0, edges0, nodes1, edges1);
  }

  /** The successor relation of `as_rev_dot`. */
  ghost function RevSucc(es: seq<CallEdge>, it: map<int, CallgraphTarget>, env: Env): (int, int) -> bool
  {
    (x, y) => RevStep(es, it, env, x, y)
  }

  /** The visited methods' callers are all drawn. */
  ghost predicate CallersAllDrawn(es: seq<CallEdge>, it: map<int, CallgraphTarget>, env: Env, visited: set<int>,
                                  nodes: Dict<string, DotNode>, edges: Dict<(string, string), DotEdge>)
  {
    (visited != {} ==> TargetsKnown(es, it)) &&
    forall x :: x in visited && TargetsKnown(es, it) ==>
      CallersDrawn(nodes, edges, env.aqname(x), RevMethodEdges(es, x, it, env), env)
  }

  lemma CallersAllDrawnStep(es: seq<CallEdge>, it: map<int, CallgraphTarget>, env: Env, visited: set<int>, n: int,
                            nodes0: Dict<string, DotNode>, edges0: Dict<(string, string), DotEdge>,
                            nodes1: Dict<string, DotNode>, edges1: Dict<(string, string), DotEdge>)
    requires CallersAllDrawn(es, it, env, visited, nodes0, edges0) && Extends(nodes0, nodes1) && Extends(edges0, edges1)
    requires TargetsKnown(es, it)
    requires CallersDrawn(nodes1, edges1, env.aqname(n), RevMethodEdges(es, n, it, env), env)
    ensures CallersAllDrawn(es, it, env, visited + {n}, nodes1, edges1)
  {
    forall x | x in visited
      ensures CallersDrawn(nodes1, edges1, env.aqname(x), RevMethodEdges(es, x, it, env), env)
    {
      CallersDrawnExtends(nodes0, edges0, nodes1, edges1, env.aqname(x), RevMethodEdges(es, x, it, env), env);
    }
  }

  /** What the inner loop of `as_rev_dot` pushes for a method are exactly
      its callers that were not visited. */
  lemma RevPushes(es: seq<CallEdge>, it: map<int, CallgraphTarget>, env: Env, n: int, visited: set<int>,
                  done: seq<int>, pushed: seq<int>, nodes: Dict<string, DotNode>)
    requires TargetsKnown(es, it)
    requires forall x :: x in done <==> x in visited || x == n
    requires PushedCallers(pushed, RevMethodEdges(es, n, it, env), done, nodes, env)
    requires AllCallersPushed(RevMethodEdges(es, n, it, env), done, pushed)
    ensures Pushes(pushed, n, visited + {n}, RevSucc(es, it, env))
  {
    var succ := RevSucc(es, it, env);
    forall k | 0 <= k < |pushed|
      ensures succ(n, pushed[k]) && pushed[k] !in visited + {n}
    {
      assert pushed[k] in pushed;
    }
    forall y | succ(n, y)
      ensures y in visited + {n} || y in pushed
    {
      var p :| p in RevMethodEdges(es, n, it, env) && p.1 == y;
    }
  }

  /** What holds of `as_rev_dot` at the head of its loop, as for `as_dot`
      with callers in place of callees. */
  ghost predicate RevInvariant(es: seq<CallEdge>, it: map<int, CallgraphTarget>, env: Env, start: int,
                               rem: seq<int>, visited: set<int>, nodes: Dict<string, DotNode>, edges: Dict<(string, string), DotEdge>)
  {
    InUniverse(rem, visited, RevUniverse(es, start)) &&
    (start in visited || start in rem) &&
    StackClosed(rem, visited, RevSucc(es, it, env)) && DoneClosed(rem, visited, RevSucc(es, it, env)) &&
    NodesDrawn(nodes, rem, visited, env) &&
    CallersAllDrawn(es, it, env, visited, nodes, edges)
  }

  /** One pass of the `as_rev_dot` loop keeps its invariant, and either
      visits a new method of the universe or shrinks the stack. */
  lemma RevPop(es: seq<CallEdge>, it: map<int, CallgraphTarget>, env: Env, start: int,
               rem: seq<int>, visited: set<int>, nodes0: Dict<string, DotNode>, edges0: Dict<(string, string), DotEdge>,
               done: seq<int>, pushed: seq<int>, nodes1: Dict<string, DotNode>, edges1: Dict<(string, string), DotEdge>)
    requires |rem| > 0
    requires RevInvariant(es, it, env, start, rem, visited, nodes0, edges0)
    requires TargetsKnown(es, it)
    requires Extends(nodes0, nodes1) && Extends(edges0, edges1)
    requires forall x :: x in done <==> x in visited || x == rem[|rem| - 1]
    requires CallersDrawn(nodes1, edges1, env.aqname(rem[|rem| - 1]), RevMethodEdges(es, rem[|rem| - 1], it, env), env)
    requires PushedCallers(pushed, RevMethodEdges(es, rem[|rem| - 1], it, env), done, nodes1, env)
    requires AllCallersPushed(RevMethodEdges(es, rem[|rem| - 1], it, env), done, pushed)
    ensures RevInvariant(es, it, env, start, rem[..|rem| - 1] + pushed, visited + {rem[|rem| - 1]}, nodes1, edges1)
    ensures rem[|rem| - 1] in visited ==> pushed == []
  {
    var n := rem[|rem| - 1];
    RevPushes(es, it, env, n, visited, done, pushed, nodes1);
    PopStep(rem, visited, RevSucc(es, it, env), pushed);
    forall y | y in pushed
      ensures y in RevUniverse(es, start)
    {
      var k :| 0 <= k < |pushed| && pushed[k] == y;
      RevStepInUniverse(es, it, env, start, n, y);
    }
    UniverseStep(rem, visited, RevUniverse(es, start), pushed);
    NodesStep(nodes0, nodes1, rem, visited, pushed, env);
    CallersAllDrawnStep(es, it, env, visited, n, nodes0, edges0, nodes1, edges1);
  }

  /** The `as_dot` loop starts in its invariant. */
  lemma DotStart(es: seq<CallEdge>, it: map<int, CallgraphTarget>, env: Env, start: int,
                 nodes: Dict<string, DotNode>, edges: Dict<(string, string), DotEdge>)
    requires Lookup(nodes, env.aqname(start)).Some?
    ensures DotInvariant(es, it, env, start, [start], {}, nodes, edges)
  {
  }

  /** When the `as_dot` stack is empty, the visited methods are closed
      under the successor relation. */
  lemma DotFinish(es: seq<CallEdge>, it: map<int, CallgraphTarget>, env: Env, start: int, visited: set<int>,
                  nodes: Dict<string, DotNode>, edges: Dict<(string, string), DotEdge>)
    requires DotInvariant(es, it, env, start, [], visited, nodes, edges)
    ensures start in visited && visited <= DotUniverse(es, it, env, start)
    ensures forall x, y :: x in visited && DotStep(es, it, env, x, y) ==> y in visited
    ensures forall x :: x in visited ==> Lookup(nodes, env.aqname(x)).Some?
    ensures forall x :: x in visited ==> (CallerTargetsKnown(es, x, it) &&
      AllDrawn(nodes, edges, env.aqname(x), Calls(MethodEdges(es, x, it)), env))
  {
    forall x, y | x in visited && DotStep(es, it, env, x, y)
      ensures y in visited
    {
      assert DotSucc(es, it, env)(x, y);
    }
  }

  /** The `as_rev_dot` loop starts in its invariant. */
  lemma RevStart(es: seq<CallEdge>, it: map<int, CallgraphTarget>, env: Env, start: int,
                 nodes: Dict<string, DotNode>, edges: Dict<(string, string), DotEdge>)
    requires Lookup(nodes, env.aqname(start)).Some?
    ensures RevInvariant(es, it, env, start, [start], {}, nodes, edges)
  {
  }

  /** When the `as_rev_dot` stack is empty, the visited methods are closed
      under the successor relation. */
  lemma RevFinish(es: seq<CallEdge>, it: map<int, CallgraphTarget>, env: Env, start: int, visited: set<int>,
                  nodes: Dict<string, DotNode>, edges: Dict<(string, string), DotEdge>)
    requires RevInvariant(es, it, env, start, [], visited, nodes, edges)
    ensures start in visited && visited <= RevUniverse(es, start) && TargetsKnown(es, it)
    ensures forall x, y :: x in visited && RevStep(es, it, env, x, y) ==> y in visited
    ensures forall x :: x in visited ==> Lookup(nodes, env.aqname(x)).Some?
    ensures forall x :: x in visited ==> CallersDrawn(nodes, edges, env.aqname(x), RevMethodEdges(es, x, it, env), env)
  {
    forall x, y | x in visited && RevStep(es, it, env, x, y)
      ensures y in visited
    {
      assert RevSucc(es, it, env)(x, y);
    }
  }

  // ---------------------------------------------------------- the graph

  class Callgraph {
    const cgd: CallgraphDictionary
    /** The `edge` children of the `edges` element. */
    const edgeNodes: seq<CallEdge>
    /** The `ix` attribute of each `cb-edge` child of the `callback-edges`
        element. */
    const callbackNodes: seq<int>
    /** Caller index to pc to target. */
    var edges: map<int, map<int, CallgraphTarget>>
    var callbackEdges: seq<int>

    /** The fields of `__init__` before its final edge load: both tables
        start empty. */
    constructor (cgd: CallgraphDictionary, edgeNodes: seq<CallEdge>, callbackNodes: seq<int>)
      ensures this.cgd == cgd && this.edgeNodes == edgeNodes && this.callbackNodes == callbackNodes
      ensures edges == map[] && callbackEdges == []
    {
      this.cgd := cgd;
      this.edgeNodes := edgeNodes;
      this.callbackNodes := callbackNodes;
      edges := map[];
      callbackEdges := [];
    }

    /** `__init__`: the empty graph followed by `_get_edges`, so that
        building a graph fails, with the dictionary's lookup error, unless
        every edge's target is in the dictionary, and a graph that is built
        holds every edge of the file. */
    static method New(cgd: CallgraphDictionary, edgeNodes: seq<CallEdge>, callbackNodes: seq<int>) returns (r: Result<Callgraph>)
      ensures r.Ok? <==> TargetsKnown(edgeNodes, cgd.targetTable.indextable)
      ensures r.Err? ==> r.error.IndexedTableError?
      ensures r.Ok? ==> fresh(r.value) && r.value.cgd == cgd && r.value.edgeNodes == edgeNodes
      ensures r.Ok? ==> r.value.callbackNodes == callbackNodes && r.value.callbackEdges == []
      ensures r.Ok? ==> r.value.edges == EdgeTable(edgeNodes, cgd.targetTable.indextable)
    {
      var g := new Callgraph(cgd, edgeNodes, callbackNodes);
      var loaded := g.LoadEdges();
      if loaded.Err? {
        return Err(loaded.error);
      }
      return Ok(g);
    }

    /** The targets of the call-graph dictionary. */
    function Targets(): map<int, CallgraphTarget>
      reads cgd.targetTable
    {
      cgd.targetTable.indextable
    }

    /** `_get_edges`: the edges are read only while the table is empty; a
        target missing from the dictionary stops the reading, with the
        edges before it filed. */
    method LoadEdges() returns (r: Result<()>)
      modifies this
      ensures callbackEdges == old(callbackEdges)
      ensures old(edges) != map[] ==> r.Ok? && edges == old(edges)
      ensures old(edges) == map[] ==> (r.Ok? <==> TargetsKnown(edgeNodes, Targets()))
      ensures old(edges) == map[] && r.Ok? ==> edges == EdgeTable(edgeNodes, Targets())
      ensures old(edges) == map[] && r.Err? ==> (r.error.IndexedTableError? &&
        exists k :: 0 <= k < |edgeNodes| && TargetsKnown(edgeNodes[..k], Targets()) &&
          edgeNodes[k].itgt !in Targets() && edges == EdgeTable(edgeNodes[..k], Targets()))
    {
      if |edges| > 0 {
        return Ok(());
      }
      var k := 0;
      while k < |edgeNodes|
        invariant 0 <= k <= |edgeNodes| && callbackEdges == old(callbackEdges)
        invariant TargetsKnown(edgeNodes[..k], Targets())
        invariant edges == EdgeTable(edgeNodes[..k], Targets())
      {
        var e := edgeNodes[k];
        var t := cgd.GetTarget(e.itgt);
        if t.Err? {
          assert 0 <= k < |edgeNodes| && TargetsKnown(edgeNodes[..k], Targets()) &&
            edgeNodes[k].itgt !in Targets() && edges == EdgeTable(edgeNodes[..k], Targets());
          return Err(t.error);
        }
        EdgeTableSnoc(edgeNodes, Targets(), k);
        var row := if e.cmsix in edges then edges[e.cmsix] else map[];
        edges := edges[e.cmsix := row[e.pc := t.value]];
        k := k + 1;
      }
      assert edgeNodes[..k] == edgeNodes;
      return Ok(());
    }

    /** `has_target`: whether the edges file a target at the caller and
        pc; after a first, complete reading, exactly when an edge carries
        them. */
    method HasTarget(cmsix: int, pc: int) returns (r: Result<bool>)
      modifies this
      ensures callbackEdges == old(callbackEdges)
      ensures old(edges) != map[] ==> edges == old(edges) && r.Ok?
      ensures old(edges) == map[] ==> (r.Ok? <==> TargetsKnown(edgeNodes, Targets()))
      ensures r.Ok? ==> r.value == (cmsix in edges && pc in edges[cmsix])
      ensures old(edges) == map[] && r.Ok? ==>
        (r.value <==> exists k :: 0 <= k < |edgeNodes| && edgeNodes[k].cmsix == cmsix && edgeNodes[k].pc == pc)
    {
      var loaded := LoadEdges();
      if loaded.Err? {
        return Err(loaded.error);
      }
      if old(edges) == map[] {
        EdgeTableFinds(edgeNodes, Targets(), cmsix, pc);
      }
      return Ok(cmsix in edges && pc in edges[cmsix]);
    }

    /** `get_target`: the target filed at the caller and pc, None when there
        is none; after a first, complete reading, the target of the last
        edge carrying them. */
    method GetTarget(cmsix: int, pc: int) returns (r: Result<Option<CallgraphTarget>>)
      modifies this
      ensures callbackEdges == old(callbackEdges)
      ensures old(edges) != map[] ==> edges == old(edges) && r.Ok?
      ensures old(edges) == map[] ==> (r.Ok? <==> TargetsKnown(edgeNodes, Targets()))
      ensures r.Ok? ==> (r.value.Some? <==> cmsix in edges && pc in edges[cmsix])
      ensures r.Ok? && r.value.Some? ==> r.value.value == edges[cmsix][pc]
      ensures old(edges) == map[] && r.Ok? ==> forall k ::
        (0 <= k < |edgeNodes| && edgeNodes[k].cmsix == cmsix && edgeNodes[k].pc == pc &&
         (forall j :: k < j < |edgeNodes| ==> edgeNodes[j].cmsix != cmsix || edgeNodes[j].pc != pc)) ==>
        r.value == Some(Targets()[edgeNodes[k].itgt])
    {
      var loaded := LoadEdges();
      if loaded.Err? {
        return Err(loaded.error);
      }
      if old(edges) == map[] {
        EdgeTableFinds(edgeNodes, Targets(), cmsix, pc);
      }
      if cmsix in edges && pc in edges[cmsix] {
        return Ok(Some(edges[cmsix][pc]));
      }
      return Ok(None);
    }

    /** `_get_method_edges`: the method edges of a caller, read afresh
        from the edges; a missing target of one of its edges raises. */
    method GetMethodEdges(cmsix: int) returns (r: Result<Dict<int, (int, CallgraphTarget)>>)
      ensures r.Ok? <==> CallerTargetsKnown(edgeNodes, cmsix, Targets())
      ensures r.Ok? ==> r.value == MethodEdges(edgeNodes, cmsix, Targets())
      ensures r.Err? ==> r.error.IndexedTableError?
    {
      var d := [];
      var k := 0;
      while k < |edgeNodes|
        invariant 0 <= k <= |edgeNodes|
        invariant CallerTargetsKnown(edgeNodes[..k], cmsix, Targets())
        invariant d == MethodEdges(edgeNodes[..k], cmsix, Targets())
      {
        var e := edgeNodes[k];
        assert edgeNodes[..k + 1][..k] == edgeNodes[..k];
        if e.cmsix == cmsix {
          var t := cgd.GetTarget(e.itgt);
          if t.Err? {
            return Err(t.error);
          }
          if t.value.IsNonVirtualTarget() || t.value.IsVirtualTarget() {
            d := Put(d, e.pc, (e.msix, t.value));
          }
        }
        k := k + 1;
      }
      assert edgeNodes[..k] == edgeNodes;
      return Ok(d);
    }

    /** `_get_rev_method_edges`: the reverse edges of a method, read afresh
        from the edges; a missing target of any edge raises. */
    method GetRevMethodEdges(cmsix: int, env: Env) returns (r: Result<Dict<int, int>>)
      ensures r.Ok? <==> TargetsKnown(edgeNodes, Targets())
      ensures r.Ok? ==> r.value == RevMethodEdges(edgeNodes, cmsix, Targets(), env)
      ensures r.Err? ==> r.error.IndexedTableError?
    {
      var d: Dict<int, int> := [];
      var k := 0;
      while k < |edgeNodes|
        invariant 0 <= k <= |edgeNodes|
        invariant TargetsKnown(edgeNodes[..k], Targets())
        invariant d == RevMethodEdges(edgeNodes[..k], cmsix, Targets(), env)
      {
        var e := edgeNodes[k];
        var t := cgd.GetTarget(e.itgt);
        if t.Err? {
          return Err(t.error);
        }
        var cnixs := t.value.Cnixs();
        ghost var d0 := d;
        var j := 0;
        while j < |cnixs|
          invariant 0 <= j <= |cnixs|
          invariant d == if Resolves(cnixs[..j], e.msix, cmsix, env) then Put(d0, e.pc, e.cmsix) else d0
        {
          if env.cmsixOf(cnixs[j], e.msix) == cmsix {
            PutAgain(d0, e.pc, e.cmsix);
            d := Put(d, e.pc, e.cmsix);
            assert cnixs[..j + 1][j] == cnixs[j];
          }
          ResolvesSnoc(cnixs, j, e.msix, cmsix, env);
          j := j + 1;
        }
        assert cnixs[..j] == cnixs;
        assert edgeNodes[..k + 1][..k] == edgeNodes[..k];
        k := k + 1;
      }
      assert edgeNodes[..k] == edgeNodes;
      return Ok(d);
    }

    /** One pass of the `as_dot` loop, once the top method is marked done:
        pop it, draw its calls and push the application callees not yet done. The
        traversal's invariant holds again, and it either visits a new
        method of the universe or shrinks the stack. */
    method DotVisit(g: DotGraph, env: Env, start: int, rem: seq<int>, done: seq<int>, ghost visited: set<int>, ghost u: set<int>)
      returns (r: Result<seq<int>>)
      requires |rem| > 0 && g.Valid()
      requires forall x :: x in done <==> x in visited || x == rem[|rem| - 1]
      requires DotInvariant(edgeNodes, Targets(), env, start, rem, visited, g.nodes, g.edges)
      requires u == DotUniverse(edgeNodes, Targets(), env, start)
      modifies g
      ensures g.Valid()
      ensures r.Err? ==> r.error.IndexedTableError?
      ensures r.Ok? ==> DotInvariant(edgeNodes, Targets(), env, start, r.value, visited + {rem[|rem| - 1]}, g.nodes, g.edges)
      ensures r.Ok? ==> (|u - (visited + {rem[|rem| - 1]})| < |u - visited| ||
        (|u - (visited + {rem[|rem| - 1]})| == |u - visited| && |r.value| < |rem|))
    {
      ghost var nodes0, edges0 := g.nodes, g.edges;
      var n := rem[|rem| - 1];
      var low := rem[..|rem| - 1];
      var tgts := GetMethodEdges(n);
      if tgts.Err? {
        return Err(tgts.error);
      }
      var rem' := DrawCalls(g, env.aqname(n), tgts.value, env, done, low);
      DotVisitStep(edgeNodes, Targets(), env, start, rem, visited, u, nodes0, edges0, done, tgts.value, rem', g.nodes, g.edges);
      return Ok(rem');
    }

    /** `as_dot`: the graph of the methods reachable from a method through
        application-class callees, drawn by popping the last pushed method,
        drawing an edge to every class of each of its kept targets, and
        pushing the application-class callees not yet visited. It visits
        the start and every method reachable from a visited one, draws
        every call of every visited method, and stops, as it only visits
        methods the edges can lead to and pops a visited method again
        without pushing anything. */
    method AsDot(cmsix: int, env: Env) returns (r: Result<DotGraph>, ghost visited: set<int>)
      ensures r.Err? ==> r.error.IndexedTableError?
      ensures r.Ok? ==> fresh(r.value) && r.value.Valid() && r.value.name == "cg_" + IntToString(cmsix)
      ensures r.Ok? ==> cmsix in visited && visited <= DotUniverse(edgeNodes, Targets(), env, cmsix)
      ensures r.Ok? ==> forall x, y :: x in visited && DotStep(edgeNodes, Targets(), env, x, y) ==> y in visited
      ensures r.Ok? ==> forall x :: x in visited ==> Lookup(r.value.nodes, env.aqname(x)).Some?
      ensures r.Ok? ==> forall x :: x in visited ==> (CallerTargetsKnown(edgeNodes, x, Targets()) &&
        AllDrawn(r.value.nodes, r.value.edges, env.aqname(x), Calls(MethodEdges(edgeNodes, x, Targets())), env))
    {
      ghost var es, it := edgeNodes, Targets();
      ghost var u := DotUniverse(es, it, env, cmsix);
      var g := new DotGraph("cg_" + IntToString(cmsix));
      g.AddNode(env.aqname(cmsix), None, false, None, None);
      DotStart(es, it, env, cmsix, g.nodes, g.edges);
      var rem := [cmsix];
      var done: seq<int> := [];
      visited := {};
      while |rem| > 0
        invariant fresh(g) && g.Valid() && g.name == "cg_" + IntToString(cmsix)
        invariant es == edgeNodes && it == Targets()
        invariant forall x :: x in done <==> x in visited
        invariant DotInvariant(es, it, env, cmsix, rem, visited, g.nodes, g.edges)
        decreases |u - visited|, |rem|
      {
        var n := rem[|rem| - 1];
        done := done + [n];
        var next := DotVisit(g, env, cmsix, rem, done, visited, u);
        if next.Err? {
          return Err(next.error), visited;
        }
        rem := next.value;
        visited := visited + {n};
      }
      DotFinish(es, it, env, cmsix, visited, g.nodes, g.edges);
      return Ok(g), visited;
    }

    /** One pass of the `as_rev_dot` loop, once the top method is marked done:
        pop it, draw its reverse edges and push the callers not yet done. The
        traversal's invariant holds again, and it either visits a new
        method of the universe or shrinks the stack. */
    method RevVisit(g: DotGraph, env: Env, start: int, rem: seq<int>, done: seq<int>, ghost visited: set<int>, ghost u: set<int>)
      returns (r: Result<seq<int>>)
      requires |rem| > 0 && g.Valid()
      requires forall x :: x in done <==> x in visited || x == rem[|rem| - 1]
      requires RevInvariant(edgeNodes, Targets(), env, start, rem, visited, g.nodes, g.edges)
      requires u == RevUniverse(edgeNodes, start)
      modifies g
      ensures g.Valid()
      ensures r.Err? ==> r.error.IndexedTableError?
      ensures r.Ok? <==> TargetsKnown(edgeNodes, Targets())
      ensures r.Ok? ==> RevInvariant(edgeNodes, Targets(), env, start, r.value, visited + {rem[|rem| - 1]}, g.nodes, g.edges)
      ensures r.Ok? ==> (|u - (visited + {rem[|rem| - 1]})| < |u - visited| ||
        (|u - (visited + {rem[|rem| - 1]})| == |u - visited| && |r.value| < |rem|))
    {
      var n := rem[|rem| - 1];
      var low := rem[..|rem| - 1];
      var tgts := GetRevMethodEdges(n, env);
      if tgts.Err? {
        return Err(tgts.error);
      }
      var rem' := DrawCallers(g, env.aqname(n), tgts.value, env, done, low);
      ghost var pushed := rem'[|low|..];
      assert rem' == low + pushed;
      RevPop(edgeNodes, Targets(), env, start, rem, visited, old(g.nodes), old(g.edges), done, pushed, g.nodes, g.edges);
      PopDecreases(rem, visited, pushed, u);
      return Ok(rem');
    }

    /** `as_rev_dot`: the graph of the methods from which a method is
        reachable, drawn by popping the last pushed method, drawing an edge
        from the caller of each of its reverse edges, and pushing the
        callers not yet visited. It fails exactly when a target of some
        edge is missing; otherwise it visits the start and every caller of
        a visited method, draws every reverse edge of every visited method,
        and stops. */
    method AsRevDot(cmsix: int, env: Env) returns (r: Result<DotGraph>, ghost visited: set<int>)
      ensures r.Ok? <==> TargetsKnown(edgeNodes, Targets())
      ensures r.Err? ==> r.error.IndexedTableError?
      ensures r.Ok? ==> fresh(r.value) && r.value.Valid() && r.value.name == "revcg_" + IntToString(cmsix)
      ensures r.Ok? ==> cmsix in visited && visited <= RevUniverse(edgeNodes, cmsix)
      ensures r.Ok? ==> forall x, y :: x in visited && RevStep(edgeNodes, Targets(), env, x, y) ==> y in visited
      ensures r.Ok? ==> forall x :: x in visited ==> Lookup(r.value.nodes, env.aqname(x)).Some?
      ensures r.Ok? ==> forall x :: x in visited ==>
        CallersDrawn(r.value.nodes, r.value.edges, env.aqname(x), RevMethodEdges(edgeNodes, x, Targets(), env), env)
    {
      ghost var es, it := edgeNodes, Targets();
      ghost var u := RevUniverse(es, cmsix);
      var g := new DotGraph("revcg_" + IntToString(cmsix));
      g.AddNode(env.aqname(cmsix), None, false, None, None);
      RevStart(es, it, env, cmsix, g.nodes, g.edges);
      var rem := [cmsix];
      var done: seq<int> := [];
      visited := {};
      while |rem| > 0
        invariant fresh(g) && g.Valid() && g.name == "revcg_" + IntToString(cmsix)
        invariant es == edgeNodes && it == Targets()
        invariant forall x :: x in done <==> x in visited
        invariant RevInvariant(es, it, env, cmsix, rem, visited, g.nodes, g.edges)
        decreases |u - visited|, |rem|
      {
        var n := rem[|rem| - 1];
        done := done + [n];
        var next := RevVisit(g, env, cmsix, rem, done, visited, u);
        if next.Err? {
          return Err(next.error), visited;
        }
        rem := next.value;
        visited := visited + {n};
      }
      RevFinish(es, it, env, cmsix, visited, g.nodes, g.edges);
      return Ok(g), visited;
    }

    /** `is_callback` as written: it calls `_get_callback_edges`, a name
        the class does not define (its loader is `_getcallbackedges`), so
        every call raises. */
    method IsCallbackAsWritten(cmsix: int) returns (r: Result<bool>)
      ensures r.Err? && r.error.Failure?
    {
      return Err(Failure("'Callgraph' object has no attribute '_get_callback_edges'"));
    }

    /** `_getcallbackedges`: the callback edges are read only while their
        list is empty. */
    method LoadCallbackEdges()
      modifies this
      ensures edges == old(edges)
      ensures old(callbackEdges) != [] ==> callbackEdges == old(callbackEdges)
      ensures old(callbackEdges) == [] ==> callbackEdges == callbackNodes
    {
      if |callbackEdges| > 0 {
        return;
      }
      var k := 0;
      while k < |callbackNodes|
        invariant 0 <= k <= |callbackNodes| && edges == old(edges)
        invariant callbackEdges == callbackNodes[..k]
      {
        callbackEdges := callbackEdges + [callbackNodes[k]];
        assert callbackNodes[..k + 1] == callbackNodes[..k] + [callbackNodes[k]];
        k := k + 1;
      }
      assert callbackNodes[..k] == callbackNodes;
    }

    /** `is_callback` with the loader it evidently means: whether the method
        is the source of a callback edge. */
    method IsCallback(cmsix: int) returns (b: bool)
      requires callbackEdges == [] || callbackEdges == callbackNodes
      modifies this
      ensures edges == old(edges) && callbackEdges == callbackNodes
      ensures b <==> cmsix in callbackNodes
    {
      LoadCallbackEdges();
      b := cmsix in callbackEdges;
    }
  }

  /** Whether the first j+1 classes resolve, from the first j. */
  lemma ResolvesSnoc(cnixs: seq<int>, j: int, msix: int, cmsix: int, env: Env)
    requires 0 <= j < |cnixs|
    ensures Resolves(cnixs[..j + 1], msix, cmsix, env) <==>
      Resolves(cnixs[..j], msix, cmsix, env) || env.cmsixOf(cnixs[j], msix) == cmsix
  {
    if Resolves(cnixs[..j + 1], msix, cmsix, env) {
      var i :| 0 <= i < j + 1 && env.cmsixOf(cnixs[..j + 1][i], msix) == cmsix;
      if i < j {
        assert cnixs[..j][i] == cnixs[i];
      }
    }
    if Resolves(cnixs[..j], msix, cmsix, env) {
      var i :| 0 <= i < j && env.cmsixOf(cnixs[..j][i], msix) == cmsix;
      assert cnixs[..j + 1][i] == cnixs[i];
    }
    if env.cmsixOf(cnixs[j], msix) == cmsix {
      assert cnixs[..j + 1][j] == cnixs[j];
    }
  }
}
