/** Method control-flow graphs (chj/app/Cfg.py): basic blocks keyed by their
    first pc, successor lists per block in file order, loop-level counts,
    and the bounded enumeration of paths from a start pc to an end pc in
    which no node occurs more than twice. The XML is replaced by the list of
    parsed blocks and the list of (src, tgt) edges. */
module Cfgs {
  import opened Wrappers

  /** A basic block: its pc range, the `loop-levels` child (None when the
      element is absent) and its attributes, of which `tcond` and `fcond`
      matter here. */
  datatype BBlock = BBlock(firstpc: int, lastpc: int, loopLevels: Option<seq<int>>,
                           attrs: map<string, string>)

  function GetLoopLevels(b: BBlock): (ls: seq<int>)
    ensures b.loopLevels.None? ==> ls == []
  {
    if b.loopLevels.None? then [] else b.loopLevels.value
  }

  function GetLoopLevelCount(b: BBlock): (n: nat)
    ensures n == 0 <==> GetLoopLevels(b) == []
  {
    |GetLoopLevels(b)|
  }

  predicate HasConditions(b: BBlock) { "tcond" in b.attrs }

  function GetTcond(b: BBlock): (c: Option<string>)
    ensures c.Some? <==> HasConditions(b)
  {
    if HasConditions(b) then Some(b.attrs["tcond"]) else None
  }

  function GetFcond(b: BBlock): (c: Option<string>)
    ensures c.Some? ==> HasConditions(b) && "fcond" in b.attrs && c.value == b.attrs["fcond"]
    ensures HasConditions(b) && "fcond" in b.attrs ==> c.Some?
  {
    if HasConditions(b) && "fcond" in b.attrs then Some(b.attrs["fcond"]) else None
  }

  /** The block map filled from the parsed blocks; a later block with the
      same first pc overwrites. */
  function BlocksOf(bs: seq<BBlock>): (m: map<int, BBlock>)
    ensures forall pc :: pc in m <==> exists b :: b in bs && b.firstpc == pc
    ensures forall pc :: pc in m ==> m[pc].firstpc == pc
  {
    if bs == [] then map[]
    else
      var b := bs[|bs| - 1];
      var m := BlocksOf(bs[..|bs| - 1])[b.firstpc := b];
      assert forall x :: x in bs[..|bs| - 1] ==> x in bs;
      assert forall x :: x in bs ==> x in bs[..|bs| - 1] || x == b;
      m
  }

  /** The targets of the edges out of src, in file order. */
  function TargetsOf(es: seq<(int, int)>, src: int): (ts: seq<int>)
    ensures forall t :: t in ts <==> (src, t) in es
  {
    if es == [] then []
    else
      var e := es[|es| - 1];
      assert forall x :: x in es <==> x in es[..|es| - 1] || x == e;
      TargetsOf(es[..|es| - 1], src) + (if e.0 == src then [e.1] else [])
  }

  /** The edge map: each source with at least one edge, to its targets in
      file order. */
  function EdgesOf(es: seq<(int, int)>): (m: map<int, seq<int>>)
  {
    if es == [] then map[]
    else
      var e := es[|es| - 1];
      var prev := EdgesOf(es[..|es| - 1]);
      prev[e.0 := (if e.0 in prev then prev[e.0] else []) + [e.1]]
  }

  /** `get_successors` after loading: the recorded targets in file order,
      duplicates included, and [] for a pc with no out-edges. */
  lemma {:induction false} EdgesOfTargets(es: seq<(int, int)>, src: int)
    ensures src in EdgesOf(es) <==> exists k :: 0 <= k < |es| && es[k].0 == src
    ensures Successors(EdgesOf(es), src) == TargetsOf(es, src)
  {
    if es != [] {
      var init := es[..|es| - 1];
      EdgesOfTargets(init, src);
      var e := es[|es| - 1];
      var prev := EdgesOf(init);
      assert EdgesOf(es) == prev[e.0 := (if e.0 in prev then prev[e.0] else []) + [e.1]];
      if src != e.0 && exists k :: 0 <= k < |es| && es[k].0 == src {
        var k :| 0 <= k < |es| && es[k].0 == src;
        assert init[k].0 == src;
      }
    }
  }

  /** The number of occurrences of e in l. */
  function Count(l: seq<int>, e: int): nat
  {
    if l == [] then 0 else Count(l[..|l| - 1], e) + (if l[|l| - 1] == e then 1 else 0)
  }

  /** The nested helper `multiplicity`: counts by a loop. */
  method Multiplicity(l: seq<int>, e: int) returns (count: nat)
    ensures count == Count(l, e)
  {
    count := 0;
    var i := 0;
    while i < |l|
      invariant 0 <= i <= |l|
      invariant count == Count(l[..i], e)
    {
      assert l[..i + 1][..i] == l[..i];
      if l[i] == e {
        count := count + 1;
      }
      i := i + 1;
    }
    assert l[..i] == l;
  }

  function Without(l: seq<int>, x: int): seq<int>
  {
    if l == [] then [] else Without(l[..|l| - 1], x) + (if l[|l| - 1] == x then [] else [l[|l| - 1]])
  }

  lemma {:induction false} WithoutLength(l: seq<int>, x: int)
    ensures |l| == |Without(l, x)| + Count(l, x)
  {
    if l != [] {
      WithoutLength(l[..|l| - 1], x);
    }
  }

  lemma {:induction false} WithoutCountOther(l: seq<int>, x: int, y: int)
    requires y != x
    ensures Count(Without(l, x), y) == Count(l, y)
  {
    if l != [] {
      WithoutCountOther(l[..|l| - 1], x, y);
      var w := Without(l[..|l| - 1], x);
      var last := l[|l| - 1];
      assert Count(l, y) == Count(l[..|l| - 1], y) + (if last == y then 1 else 0);
      if last != x {
        assert Without(l, x) == w + [last];
        CountSnoc(w, last);
      } else {
        assert Without(l, x) == w + [];
        assert w + [] == w;
      }
    }
  }

  lemma {:induction false} WithoutMembers(l: seq<int>, x: int, y: int)
    requires y in Without(l, x)
    ensures y in l && y != x
  {
    var init := l[..|l| - 1];
    var w := Without(init, x);
    if y in w {
      WithoutMembers(init, x, y);
      assert forall z :: z in init ==> z in l;
    }
  }

  /** A list over the nodes N in which no node occurs more than twice has at
      most 2|N| elements. */
  lemma {:induction false} CountBound(l: seq<int>, nodes: set<int>)
    requires forall k :: 0 <= k < |l| ==> l[k] in nodes
    requires forall x :: Count(l, x) <= 2
    ensures |l| <= 2 * |nodes|
    decreases nodes
  {
    if l != [] {
      var x := l[0];
      var w := Without(l, x);
      WithoutLength(l, x);
      forall k | 0 <= k < |w|
        ensures w[k] in nodes - {x}
      {
        assert w[k] in w;
        WithoutMembers(l, x, w[k]);
        var j :| 0 <= j < |l| && l[j] == w[k];
      }
      forall y
        ensures Count(w, y) <= 2
      {
        if y == x {
          if x in w {
            WithoutMembers(l, x, x);
          }
          CountAbsent(w, x);
        } else {
          WithoutCountOther(l, x, y);
        }
      }
      CountBound(w, nodes - {x});
    }
  }

  lemma {:induction false} CountAbsent(l: seq<int>, x: int)
    requires x !in l
    ensures Count(l, x) == 0
  {
    if l != [] {
      assert forall y :: y in l[..|l| - 1] ==> y in l;
      CountAbsent(l[..|l| - 1], x);
    }
  }

  lemma {:induction false} CountSnoc(l: seq<int>, s: int)
    ensures forall x :: Count(l + [s], x) == Count(l, x) + (if x == s then 1 else 0)
  {
    assert (l + [s])[..|l|] == l;
  }

  function Successors(edges: map<int, seq<int>>, pc: int): (ss: seq<int>)
    ensures pc !in edges ==> ss == []
  {
    if pc in edges then edges[pc] else []
  }

  /** Every target of an edge is one of the nodes. */
  ghost predicate TargetsIn(edges: map<int, seq<int>>, nodes: set<int>)
  {
    forall src, k :: src in edges && 0 <= k < |edges[src]| ==> edges[src][k] in nodes
  }

  /** A walk along edges: each consecutive pair is an edge. */
  ghost predicate Walk(edges: map<int, seq<int>>, p: seq<int>)
  {
    forall k :: 0 <= k < |p| - 1 ==> p[k + 1] in Successors(edges, p[k])
  }

  /** An enumerated path: a walk from startpc to endpc of at least one step
      in which no node occurs more than twice. */
  ghost predicate PathFromTo(edges: map<int, seq<int>>, p: seq<int>, startpc: int, endpc: int)
  {
    |p| >= 2 && p[0] == startpc && p[|p| - 1] == endpc && Walk(edges, p) &&
    forall x :: Count(p, x) <= 2
  }

  ghost predicate AllPaths(edges: map<int, seq<int>>, ps: seq<seq<int>>, startpc: int, endpc: int)
  {
    forall k :: 0 <= k < |ps| ==> PathFromTo(edges, ps[k], startpc, endpc)
  }

  lemma WalkSnoc(edges: map<int, seq<int>>, p: seq<int>, s: int)
    requires |p| > 0 && Walk(edges, p) && s in Successors(edges, p[|p| - 1])
    ensures Walk(edges, p + [s])
  {
    var q := p + [s];
    forall k | 0 <= k < |q| - 1
      ensures q[k + 1] in Successors(edges, q[k])
    {
      if k < |p| - 1 {
        assert q[k] == p[k] && q[k + 1] == p[k + 1];
      }
    }
  }

  /** The nested `enumpaths`: extends the prefix along every successor whose
      count in the prefix is at most the depth (1 inside a loop, else 0),
      appending to the result the prefix extended by endpc (at most one
      such path per prefix) and recursing on the other successors. A block
      missing from the block map raises. */
  method EnumPaths(blocks: map<int, BBlock>, edges: map<int, seq<int>>, endpc: int,
                   prefix: seq<int>, result: seq<seq<int>>, ghost nodes: set<int>)
    returns (r: Result<seq<seq<int>>>)
    requires |prefix| > 0 && TargetsIn(edges, nodes)
    requires forall k :: 0 <= k < |prefix| ==> prefix[k] in nodes
    requires forall x :: Count(prefix, x) <= 2
    requires Walk(edges, prefix)
    requires AllPaths(edges, result, prefix[0], endpc)
    ensures r.Ok? ==> |result| <= |r.value| && r.value[..|result|] == result
    ensures r.Ok? ==> AllPaths(edges, r.value, prefix[0], endpc)
    ensures r.Ok? ==> forall k :: |result| <= k < |r.value| ==> |prefix| < |r.value[k]| && r.value[k][..|prefix|] == prefix
    decreases 2 * |nodes| + 1 - |prefix|
  {
    CountBound(prefix, nodes);
    var lastpc := prefix[|prefix| - 1];
    var succs := Successors(edges, lastpc);
    if lastpc !in blocks {
      return Err(Failure("no block at the last pc of the prefix"));
    }
    var depth := if GetLoopLevelCount(blocks[lastpc]) > 0 then 1 else 0;
    var acc := result;
    var i := 0;
    while i < |succs|
      invariant 0 <= i <= |succs|
      invariant AllPaths(edges, acc, prefix[0], endpc)
      invariant acc == result
    {
      var m := Multiplicity(prefix, succs[i]);
      if m <= depth && succs[i] == endpc {
        var p := prefix + [endpc];
        CountSnoc(prefix, endpc);
        WalkSnoc(edges, prefix, endpc);
        acc := acc + [p];
        assert acc[..|result|] == result;
        break;
      }
      i := i + 1;
    }
    assert |result| <= |acc| && acc[..|result|] == result;
    assert forall k :: |result| <= k < |acc| ==> |prefix| < |acc[k]| && acc[k][..|prefix|] == prefix;
    i := 0;
    while i < |succs|
      invariant 0 <= i <= |succs|
      invariant AllPaths(edges, acc, prefix[0], endpc)
      invariant |result| <= |acc| && acc[..|result|] == result
      invariant forall k :: |result| <= k < |acc| ==> |prefix| < |acc[k]| && acc[k][..|prefix|] == prefix
    {
      var s := succs[i];
      var m := Multiplicity(prefix, s);
      if m <= depth && s != endpc {
        var next := prefix + [s];
        CountSnoc(prefix, s);
        WalkSnoc(edges, prefix, s);
        assert s in nodes;
        assert next[0] == prefix[0];
        var sub := EnumPaths(blocks, edges, endpc, next, acc, nodes);
        if sub.Err? {
          return sub;
        }
        ghost var old_acc := acc;
        acc := sub.value;
        forall k | |result| <= k < |acc|
          ensures |prefix| < |acc[k]| && acc[k][..|prefix|] == prefix
        {
          if k < |old_acc| {
            assert acc[k] == old_acc[k];
          } else {
            assert acc[k][..|next|] == next;
            assert acc[k][..|prefix|] == next[..|prefix|];
          }
        }
        assert acc[..|result|] == old_acc[..|result|];
      }
      i := i + 1;
    }
    return Ok(acc);
  }

  function NodeSet(p: seq<int>): set<int>
  {
    set x | x in p
  }

  /** What the de-duplication compares: the node set and the length. */
  function PathKey(p: seq<int>): (set<int>, int)
  {
    (NodeSet(p), |p|)
  }

  /** The de-duplication at the end of `enumerate_paths`: a path is kept
      only when no earlier kept path has the same node set and length. */
  method UniquePaths(result: seq<seq<int>>) returns (unique: seq<seq<int>>)
    ensures forall k :: 0 <= k < |unique| ==> unique[k] in result
    ensures forall j, k :: 0 <= j < k < |unique| ==>
      PathKey(unique[j]) != PathKey(unique[k])
    ensures forall p :: p in result ==> exists q :: q in unique && PathKey(q) == PathKey(p)
  {
    var pathsets: seq<(set<int>, int)> := [];
    unique := [];
    var i := 0;
    while i < |result|
      invariant 0 <= i <= |result|
      invariant |pathsets| == |unique|
      invariant forall k :: 0 <= k < |unique| ==> pathsets[k] == PathKey(unique[k])
      invariant forall k :: 0 <= k < |unique| ==> unique[k] in result
      invariant forall j, k :: 0 <= j < k < |unique| ==> pathsets[j] != pathsets[k]
      invariant forall j :: 0 <= j < i ==> PathKey(result[j]) in pathsets
    {
      var p := result[i];
      if PathKey(p) !in pathsets {
        pathsets := pathsets + [PathKey(p)];
        unique := unique + [p];
      }
      i := i + 1;
    }
    forall p | p in result
      ensures exists q :: q in unique && PathKey(q) == PathKey(p)
    {
      var j :| 0 <= j < |result| && result[j] == p;
      var k :| 0 <= k < |pathsets| && pathsets[k] == PathKey(p);
      assert unique[k] in unique;
    }
  }

  /** `_initialize_blocks`: one block per first pc, the last one read wins. */
  method LoadBlocks(bs: seq<BBlock>) returns (blocks: map<int, BBlock>)
    ensures blocks == BlocksOf(bs)
  {
    blocks := map[];
    var i := 0;
    while i < |bs|
      invariant 0 <= i <= |bs|
      invariant blocks == BlocksOf(bs[..i])
    {
      assert bs[..i + 1][..i] == bs[..i];
      blocks := blocks[bs[i].firstpc := bs[i]];
      i := i + 1;
    }
    assert bs[..i] == bs;
  }

  /** `_initialize_edges`: the targets of each source appended in file
      order. */
  method LoadEdges(es: seq<(int, int)>) returns (edges: map<int, seq<int>>)
    ensures edges == EdgesOf(es)
  {
    edges := map[];
    var i := 0;
    while i < |es|
      invariant 0 <= i <= |es|
      invariant edges == EdgesOf(es[..i])
    {
      assert es[..i + 1][..i] == es[..i];
      var (src, tgt) := es[i];
      if src !in edges {
        edges := edges[src := []];
      }
      edges := edges[src := edges[src] + [tgt]];
      i := i + 1;
    }
    assert es[..i] == es;
  }

  ghost function AllTargets(edges: map<int, seq<int>>): set<int>
  {
    set src, k | src in edges && 0 <= k < |edges[src]| :: edges[src][k]
  }

  class Cfg {
    var blocks: map<int, BBlock>
    var edges: map<int, seq<int>>

    /** `_initialize_blocks` and `_initialize_edges`: one block per first pc,
        and the targets of each source appended in file order. */
    constructor (bs: seq<BBlock>, es: seq<(int, int)>)
      ensures blocks == BlocksOf(bs)
      ensures edges == EdgesOf(es)
    {
      var b := LoadBlocks(bs);
      var e := LoadEdges(es);
      blocks, edges := b, e;
    }

    function GetBlock(pc: int): (b: Option<BBlock>)
      reads this
      ensures b.Some? <==> pc in blocks
      ensures b.Some? ==> b.value == blocks[pc]
    {
      if pc in blocks then Some(blocks[pc]) else None
    }

    function GetSuccessors(pc: int): (ss: seq<int>)
      reads this
      ensures pc !in edges ==> ss == []
      ensures pc in edges ==> ss == edges[pc]
    {
      Successors(edges, pc)
    }

    method GetLoopLevelCounts() returns (levels: map<int, nat>)
      ensures levels.Keys == blocks.Keys
      ensures forall pc :: pc in levels ==> levels[pc] == |GetLoopLevels(blocks[pc])|
    {
      levels := map[];
      var todo := blocks.Keys;
      while todo != {}
        invariant todo <= blocks.Keys
        invariant levels.Keys == blocks.Keys - todo
        invariant forall pc :: pc in levels ==> levels[pc] == |GetLoopLevels(blocks[pc])|
        decreases todo
      {
        if forall x :: x !in todo {
          assert false;
        }
        var pc :| pc in todo;
        levels := levels[pc := GetLoopLevelCount(blocks[pc])];
        todo := todo - {pc};
      }
    }

    /** Every path returned starts at startpc, ends at endpc, follows edges
        and repeats no node more than twice, and no two returned paths
        share both node set and length. */
    method EnumeratePaths(startpc: int, endpc: int) returns (r: Result<seq<seq<int>>>)
      ensures r.Ok? ==> AllPaths(edges, r.value, startpc, endpc)
      ensures r.Ok? ==> forall j, k :: 0 <= j < k < |r.value| ==> PathKey(r.value[j]) != PathKey(r.value[k])
    {
      ghost var nodes := {startpc} + AllTargets(edges);
      assert TargetsIn(edges, nodes);
      var res := EnumPaths(blocks, edges, endpc, [startpc], [], nodes);
      if res.Err? {
        return res;
      }
      var unique := UniquePaths(res.value);
      assert forall k :: 0 <= k < |unique| ==> unique[k] in res.value;
      return Ok(unique);
    }
  }
}
