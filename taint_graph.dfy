/** The graph of a taint trail (chj/index/TaintGraph.py). A trail lists its
    nodes and its edge elements, each a source node and its target nodes.
    The graph keeps the trail's nodes, picks the path nodes (all nodes, or
    those on paths from the root to the chosen sinks) and the edges whose
    endpoints are both nodes of the trail, and draws them in DOT. The
    taint-node types come from the application's taint dictionary and are
    the parameter `nodeType`; the path search of the graph utilities is
    the parameter `findPaths`. */
module TaintGraphs {
  import opened Wrappers
  import opened Strings
  import opened Dicts
  import opened DotGraphs

  /** An `edge` element of the trail: `src` and the parsed `tgts`. */
  datatype EdgeRecord = EdgeRecord(src: int, tgts: seq<int>)

  /** What the report uses of a taint-node type: its text, whether it is
      a variable and the variable's text, whether it is a call or a
      conditional, and its DOT label. */
  datatype NodeType = NodeType(text: string, isVar: bool, variable: string, isCall: bool,
                               isConditional: bool, dotLabel: string)

  /** The paths the graph utilities find from a source to a sink, given
      the nodes and the reverse adjacency lists. */
  type PathSearch = (seq<int>, Dict<int, seq<int>>, int, int) -> seq<seq<int>>

  // ---------------------------------------------------------------------
  // The root node
  // ---------------------------------------------------------------------

  /** The `src` of every edge element, in order. */
  function Sources(recs: seq<EdgeRecord>): (r: seq<int>)
    ensures |r| == |recs| && forall k :: 0 <= k < |recs| ==> r[k] == recs[k].src
  {
    seq(|recs|, k requires 0 <= k < |recs| => recs[k].src)
  }

  /** The first node that is no edge's source. */
  function RootNode(nodes: seq<int>, recs: seq<EdgeRecord>): Option<int>
  {
    if nodes == [] then None
    else if nodes[0] !in Sources(recs) then Some(nodes[0])
    else RootNode(nodes[1..], recs)
  }

  /** The root is a node that is no edge's source and every node before
      it is one; there is no root exactly when every node is a source. */
  lemma {:induction false} RootNodeMeaning(nodes: seq<int>, recs: seq<EdgeRecord>)
    ensures RootNode(nodes, recs).None? <==> forall i :: 0 <= i < |nodes| ==> nodes[i] in Sources(recs)
    ensures RootNode(nodes, recs).Some? ==>
      exists i :: 0 <= i < |nodes| && nodes[i] == RootNode(nodes, recs).value && nodes[i] !in Sources(recs) &&
        forall j :: 0 <= j < i ==> nodes[j] in Sources(recs)
  {
    if nodes != [] && nodes[0] in Sources(recs) {
      RootNodeMeaning(nodes[1..], recs);
      assert forall i :: 1 <= i < |nodes| ==> nodes[i] == nodes[1..][i - 1];
      if RootNode(nodes[1..], recs).Some? {
        var i :| 0 <= i < |nodes[1..]| && nodes[1..][i] == RootNode(nodes[1..], recs).value &&
          nodes[1..][i] !in Sources(recs) && forall j :: 0 <= j < i ==> nodes[1..][j] in Sources(recs);
        assert forall j :: 0 <= j < i + 1 ==> nodes[j] in Sources(recs) by {
          forall j | 0 <= j < i + 1 ensures nodes[j] in Sources(recs) {
            if j > 0 {
              assert nodes[j] == nodes[1..][j - 1];
            }
          }
        }
        assert nodes[i + 1] == nodes[1..][i];
      }
    }
  }

  /** `_get_root_node`: collect the sources, then return the first node
      not among them. */
  method GetRootNode(nodes: seq<int>, recs: seq<EdgeRecord>) returns (r: Option<int>)
    ensures r == RootNode(nodes, recs)
  {
    var srcs: seq<int> := [];
    for k := 0 to |recs|
      invariant srcs == Sources(recs[..k])
    {
      srcs := srcs + [recs[k].src];
    }
    assert recs[..|recs|] == recs;
    for i := 0 to |nodes|
      invariant RootNode(nodes, recs) == RootNode(nodes[i..], recs)
    {
      assert nodes[i..][1..] == nodes[i + 1..];
      if nodes[i] !in srcs {
        return Some(nodes[i]);
      }
    }
    return None;
  }

  // ---------------------------------------------------------------------
  // Reverse adjacency
  // ---------------------------------------------------------------------

  function PairsOf(src: int, tgts: seq<int>): (r: seq<(int, int)>)
    ensures |r| == |tgts| && forall k :: 0 <= k < |tgts| ==> r[k] == (src, tgts[k])
  {
    seq(|tgts|, k requires 0 <= k < |tgts| => (src, tgts[k]))
  }

  /** Every (source, target) pair of the edge elements, in order. */
  function Pairs(recs: seq<EdgeRecord>): seq<(int, int)>
  {
    if recs == [] then [] else Pairs(recs[..|recs| - 1]) + PairsOf(recs[|recs| - 1].src, recs[|recs| - 1].tgts)
  }

  lemma {:induction false} PairsMembers(recs: seq<EdgeRecord>, s: int, t: int)
    ensures (s, t) in Pairs(recs) <==> exists k :: 0 <= k < |recs| && recs[k].src == s && t in recs[k].tgts
  {
    if recs != [] {
      var init := recs[..|recs| - 1];
      var last := recs[|recs| - 1];
      PairsMembers(init, s, t);
      if (s, t) in PairsOf(last.src, last.tgts) {
        var j :| 0 <= j < |last.tgts| && PairsOf(last.src, last.tgts)[j] == (s, t);
        assert recs[|recs| - 1].src == s && t in recs[|recs| - 1].tgts;
      }
      if exists k :: 0 <= k < |recs| && recs[k].src == s && t in recs[k].tgts {
        var k :| 0 <= k < |recs| && recs[k].src == s && t in recs[k].tgts;
        if k < |recs| - 1 {
          assert init[k] == recs[k];
        } else {
          var j :| 0 <= j < |last.tgts| && last.tgts[j] == t;
          assert PairsOf(last.src, last.tgts)[j] == (s, t);
        }
      }
      if exists k :: 0 <= k < |init| && init[k].src == s && t in init[k].tgts {
        var k :| 0 <= k < |init| && init[k].src == s && t in init[k].tgts;
        assert recs[k] == init[k];
      }
    }
  }

  /** The reverse adjacency lists: each pair appends its source to the
      list of its target. */
  function Adjacency(ps: seq<(int, int)>): Dict<int, seq<int>>
  {
    if ps == [] then []
    else
      var d := Adjacency(ps[..|ps| - 1]);
      var (s, t) := ps[|ps| - 1];
      Put(d, t, Get(d, t, []) + [s])
  }

  /** The sources paired with t, in order. */
  function SourcesTo(ps: seq<(int, int)>, t: int): (r: seq<int>)
    ensures forall s :: s in r <==> (s, t) in ps
  {
    if ps == [] then []
    else
      var init := SourcesTo(ps[..|ps| - 1], t);
      assert ps == ps[..|ps| - 1] + [ps[|ps| - 1]];
      if ps[|ps| - 1].1 == t then init + [ps[|ps| - 1].0] else init
  }

  /** Each target maps to the sources of the edges into it, in order and
      with repetitions; a node no edge reaches has no list. */
  lemma {:induction false} AdjacencyMeaning(ps: seq<(int, int)>, t: int)
    ensures Lookup(Adjacency(ps), t) == if SourcesTo(ps, t) == [] then None else Some(SourcesTo(ps, t))
  {
    if ps != [] {
      var init := ps[..|ps| - 1];
      AdjacencyMeaning(init, t);
      var d := Adjacency(init);
      var (s, t') := ps[|ps| - 1];
      var v := Get(d, t', []) + [s];
      assert Adjacency(ps) == Put(d, t', v);
      LookupPut(d, t', v, t);
      if t' == t {
        assert SourcesTo(ps, t) == SourcesTo(init, t) + [s];
        assert v == SourcesTo(ps, t);
      } else {
        assert SourcesTo(ps, t) == SourcesTo(init, t);
      }
    }
  }

  /** A source is in the list of t exactly when one of its edge elements
      lists t among its targets. */
  lemma AdjacencyMembers(recs: seq<EdgeRecord>, s: int, t: int)
    ensures s in Get(Adjacency(Pairs(recs)), t, []) <==>
      exists k :: 0 <= k < |recs| && recs[k].src == s && t in recs[k].tgts
  {
    AdjacencyMeaning(Pairs(recs), t);
    PairsMembers(recs, s, t);
  }

  lemma PairsOfSnoc(pre: seq<(int, int)>, src: int, tgts: seq<int>, j: nat)
    requires j < |tgts|
    ensures pre + PairsOf(src, tgts[..j + 1]) == (pre + PairsOf(src, tgts[..j])) + [(src, tgts[j])]
  {
  }

  lemma PairsNext(recs: seq<EdgeRecord>, i: nat)
    requires i < |recs|
    ensures Pairs(recs[..i + 1]) == Pairs(recs[..i]) + PairsOf(recs[i].src, recs[i].tgts)
  {
    assert recs[..i + 1][..i] == recs[..i];
  }

  lemma AdjacencySnoc(ps: seq<(int, int)>, s: int, t: int)
    ensures Adjacency(ps + [(s, t)]) == Put(Adjacency(ps), t, Get(Adjacency(ps), t, []) + [s])
  {
    assert (ps + [(s, t)])[..|ps|] == ps;
  }

  /** The step of the loop: `setdefault(t, [])`, then append the source. */
  method AddSource(d: Dict<int, seq<int>>, s: int, t: int) returns (d': Dict<int, seq<int>>)
    ensures d' == Put(d, t, Get(d, t, []) + [s])
  {
    var l: seq<int> := [];
    var found := Lookup(d, t);
    if found.Some? {
      l := found.value;
    }
    d' := Put(d, t, l + [s]);
  }

  /** The inner loop, over the targets of one edge element. */
  method AddTargets(d: Dict<int, seq<int>>, ghost pre: seq<(int, int)>, src: int, tgts: seq<int>)
    returns (d': Dict<int, seq<int>>)
    requires d == Adjacency(pre)
    ensures d' == Adjacency(pre + PairsOf(src, tgts))
  {
    d' := d;
    assert pre + PairsOf(src, tgts[..0]) == pre;
    for j := 0 to |tgts|
      invariant d' == Adjacency(pre + PairsOf(src, tgts[..j]))
    {
      PairsOfSnoc(pre, src, tgts, j);
      AdjacencySnoc(pre + PairsOf(src, tgts[..j]), src, tgts[j]);
      d' := AddSource(d', src, tgts[j]);
    }
    assert tgts[..|tgts|] == tgts;
  }

  /** The loops building `edge_adjacencylists`. */
  method BuildAdjacency(recs: seq<EdgeRecord>) returns (d: Dict<int, seq<int>>)
    ensures d == Adjacency(Pairs(recs))
  {
    d := [];
    for i := 0 to |recs|
      invariant d == Adjacency(Pairs(recs[..i]))
    {
      d := AddTargets(d, Pairs(recs[..i]), recs[i].src, recs[i].tgts);
      PairsNext(recs, i);
    }
    assert recs[..|recs|] == recs;
  }

  // ---------------------------------------------------------------------
  // Sinks and path nodes
  // ---------------------------------------------------------------------

  /** The nodes whose type text contains the sink text, in order. */
  function SinkMatches(nodes: seq<int>, sink: string, nodeType: int -> NodeType): (r: seq<int>)
    ensures forall n :: n in r <==> n in nodes && Contains(nodeType(n).text, sink)
  {
    if nodes == [] then []
    else
      var init := SinkMatches(nodes[..|nodes| - 1], sink, nodeType);
      var n := nodes[|nodes| - 1];
      assert nodes == nodes[..|nodes| - 1] + [n];
      if Contains(nodeType(n).text, sink) then init + [n] else init
  }

  /** A node for the loop counter: a variable printed 'lc'. */
  predicate IsLoopCounter(t: NodeType)
  {
    t.isVar && t.variable == "lc"
  }

  /** The loop-counter nodes, in order. */
  function LoopCounters(nodes: seq<int>, nodeType: int -> NodeType): (r: seq<int>)
    ensures forall n :: n in r <==> n in nodes && IsLoopCounter(nodeType(n))
  {
    if nodes == [] then []
    else
      var init := LoopCounters(nodes[..|nodes| - 1], nodeType);
      var n := nodes[|nodes| - 1];
      assert nodes == nodes[..|nodes| - 1] + [n];
      if IsLoopCounter(nodeType(n)) then init + [n] else init
  }

  /** The sinks: the nodes matching the sink text when one is given, then
      the loop counters when loops are asked for. */
  function SinkIds(nodes: seq<int>, sink: Option<string>, loops: bool, nodeType: int -> NodeType): seq<int>
  {
    (if sink.Some? then SinkMatches(nodes, sink.value, nodeType) else []) +
    (if loops then LoopCounters(nodes, nodeType) else [])
  }

  /** The nodes on a list of paths. */
  function NodesOn(paths: seq<seq<int>>): (r: set<int>)
    ensures forall n :: n in r <==> exists p :: p in paths && n in p
  {
    if paths == [] then {}
    else
      var init := paths[..|paths| - 1];
      var last := paths[|paths| - 1];
      assert paths == init + [last];
      NodesOn(init) + set n | n in last
  }

  /** The path nodes of the sinks in turn: a sink already on a path is
      skipped, every other adds the nodes of the paths to it. */
  function PathNodes(sinks: seq<int>, root: int, nodes: seq<int>, adj: Dict<int, seq<int>>, findPaths: PathSearch): (r: set<int>)
  {
    if sinks == [] then {}
    else
      var acc := PathNodes(sinks[..|sinks| - 1], root, nodes, adj, findPaths);
      var s := sinks[|sinks| - 1];
      if s in acc then acc else acc + NodesOn(findPaths(nodes, adj, root, s))
  }

  /** The path nodes only grow, and each is on a path to one of the
      sinks. */
  lemma {:induction false} PathNodesFromPaths(sinks: seq<int>, root: int, nodes: seq<int>, adj: Dict<int, seq<int>>,
                                               findPaths: PathSearch, n: int)
    requires n in PathNodes(sinks, root, nodes, adj, findPaths)
    ensures exists k :: 0 <= k < |sinks| && n in NodesOn(findPaths(nodes, adj, root, sinks[k]))
  {
    var init := sinks[..|sinks| - 1];
    var s := sinks[|sinks| - 1];
    if n in PathNodes(init, root, nodes, adj, findPaths) {
      PathNodesFromPaths(init, root, nodes, adj, findPaths, n);
      var k :| 0 <= k < |init| && n in NodesOn(findPaths(nodes, adj, root, init[k]));
      assert sinks[k] == init[k];
    } else {
      assert n in NodesOn(findPaths(nodes, adj, root, sinks[|sinks| - 1]));
    }
  }

  /** The loop over the sinks. */
  method CollectPathNodes(sinks: seq<int>, root: int, nodes: seq<int>, adj: Dict<int, seq<int>>, findPaths: PathSearch)
    returns (p: set<int>)
    ensures p == PathNodes(sinks, root, nodes, adj, findPaths)
  {
    p := {};
    for k := 0 to |sinks|
      invariant p == PathNodes(sinks[..k], root, nodes, adj, findPaths)
    {
      assert sinks[..k + 1][..k] == sinks[..k];
      if sinks[k] !in p {
        var paths := findPaths(nodes, adj, root, sinks[k]);
        for j := 0 to |paths|
          invariant p == PathNodes(sinks[..k], root, nodes, adj, findPaths) + NodesOn(paths[..j])
        {
          assert paths[..j + 1][..j] == paths[..j];
          var path := paths[j];
          p := p + set n | n in path;
        }
        assert paths[..|paths|] == paths;
      }
    }
    assert sinks[..|sinks|] == sinks;
  }

  // ---------------------------------------------------------------------
  // Edges of the trail
  // ---------------------------------------------------------------------

  /** The targets of one edge element that are nodes, paired with its
      source. */
  function KeptTargets(src: int, tgts: seq<int>, nodes: seq<int>): (r: seq<(int, int)>)
    ensures forall e :: e in r <==> e.0 == src && e.1 in tgts && e.1 in nodes
  {
    if tgts == [] then []
    else
      var init := KeptTargets(src, tgts[..|tgts| - 1], nodes);
      var t := tgts[|tgts| - 1];
      assert tgts == tgts[..|tgts| - 1] + [t];
      if t in nodes then init + [(src, t)] else init
  }

  /** The edges of the trail: the pairs of each edge element whose source
      and target are both nodes, in order. */
  function TrailEdges(recs: seq<EdgeRecord>, nodes: seq<int>): seq<(int, int)>
  {
    if recs == [] then []
    else
      var last := recs[|recs| - 1];
      TrailEdges(recs[..|recs| - 1], nodes) + (if last.src in nodes then KeptTargets(last.src, last.tgts, nodes) else [])
  }

  /** An edge is kept exactly when an edge element joins its endpoints and
      both are nodes of the trail. */
  lemma {:induction false} TrailEdgesMeaning(recs: seq<EdgeRecord>, nodes: seq<int>, s: int, t: int)
    ensures (s, t) in TrailEdges(recs, nodes) <==> s in nodes && t in nodes && (s, t) in Pairs(recs)
  {
    PairsMembers(recs, s, t);
    if recs != [] {
      var init := recs[..|recs| - 1];
      PairsMembers(init, s, t);
      TrailEdgesMeaning(init, nodes, s, t);
      assert forall k :: 0 <= k < |init| ==> init[k] == recs[k];
    }
  }

  /** The loops collecting the edges. */
  method CollectEdges(recs: seq<EdgeRecord>, nodes: seq<int>) returns (edges: seq<(int, int)>)
    ensures edges == TrailEdges(recs, nodes)
  {
    edges := [];
    for i := 0 to |recs|
      invariant edges == TrailEdges(recs[..i], nodes)
    {
      assert recs[..i + 1][..i] == recs[..i];
      var src := recs[i].src;
      if src in nodes {
        var tgts := recs[i].tgts;
        for j := 0 to |tgts|
          invariant edges == TrailEdges(recs[..i], nodes) + KeptTargets(src, tgts[..j], nodes)
        {
          assert tgts[..j + 1][..j] == tgts[..j];
          if tgts[j] in nodes {
            edges := edges + [(src, tgts[j])];
          }
        }
        assert tgts[..|tgts|] == tgts;
      }
    }
    assert recs[..|recs|] == recs;
  }

  // ---------------------------------------------------------------------
  // DOT drawing
  // ---------------------------------------------------------------------

  /** The fill color of a node: red for the loop counter, green for the
      return value, yellow for a conditional. */
  function FillColor(t: NodeType): Option<string>
  {
    if t.isVar then
      if t.variable == "lc" then Some("red")
      else if t.variable == "return" then Some("green")
      else None
    else if t.isConditional then Some("yellow")
    else None
  }

  /** The DOT node of a trail node. */
  function DotNodeOf(n: int, nodeType: int -> NodeType): DotNode
  {
    DotNode(IntToString(n), SanitizeLabel(Some(nodeType(n).dotLabel)), None, FillColor(nodeType(n)), nodeType(n).isCall)
  }

  /** The nodes drawn: the path nodes among the given ones, each once. */
  function NodeEntries(ns: seq<int>, pathnodes: set<int>, nodeType: int -> NodeType): Dict<string, DotNode>
  {
    if ns == [] then []
    else
      var d := NodeEntries(ns[..|ns| - 1], pathnodes, nodeType);
      var n := ns[|ns| - 1];
      if n in pathnodes && Lookup(d, IntToString(n)).None? then d + [(IntToString(n), DotNodeOf(n, nodeType))] else d
  }

  /** Every drawn node is the text of a path node of the trail. */
  lemma {:induction false} NodeEntriesOnly(ns: seq<int>, pathnodes: set<int>, nodeType: int -> NodeType, name: string)
    ensures Lookup(NodeEntries(ns, pathnodes, nodeType), name).Some? ==>
      exists n :: n in ns && n in pathnodes && name == IntToString(n)
  {
    if ns != [] {
      var init := ns[..|ns| - 1];
      var n := ns[|ns| - 1];
      var d := NodeEntries(init, pathnodes, nodeType);
      NodeEntriesOnly(init, pathnodes, nodeType, name);
      if n in pathnodes && Lookup(d, IntToString(n)).None? {
        LookupSnoc(d, IntToString(n), DotNodeOf(n, nodeType), name);
      }
      if Lookup(d, name).Some? {
        var m :| m in init && m in pathnodes && name == IntToString(m);
        assert m in ns;
      }
    }
  }

  /** Every path node of the trail is drawn, with its label and color. */
  lemma {:induction false} NodeEntriesHas(ns: seq<int>, pathnodes: set<int>, nodeType: int -> NodeType, n: int)
    requires n in ns && n in pathnodes
    ensures Lookup(NodeEntries(ns, pathnodes, nodeType), IntToString(n)) == Some(DotNodeOf(n, nodeType))
  {
    var init := ns[..|ns| - 1];
    var m := ns[|ns| - 1];
    var d := NodeEntries(init, pathnodes, nodeType);
    if m in pathnodes && Lookup(d, IntToString(m)).None? {
      LookupSnoc(d, IntToString(m), DotNodeOf(m, nodeType), IntToString(n));
    }
    if n in init {
      NodeEntriesHas(init, pathnodes, nodeType, n);
    } else {
      assert n == m;
      if Lookup(d, IntToString(n)).Some? {
        NodeEntriesOnly(init, pathnodes, nodeType, IntToString(n));
        var k :| k in init && k in pathnodes && IntToString(n) == IntToString(k);
        IntToStringInjective(n, k);
      }
    }
  }

  /** The edges drawn: each edge between path nodes, reversed, once. */
  function EdgeEntries(es: seq<(int, int)>, pathnodes: set<int>): Dict<(string, string), DotEdge>
  {
    if es == [] then []
    else
      var d := EdgeEntries(es[..|es| - 1], pathnodes);
      var (s, t) := es[|es| - 1];
      var key := (IntToString(t), IntToString(s));
      if s in pathnodes && t in pathnodes && Lookup(d, key).None? then d + [(key, DotEdge(key.0, key.1, None))] else d
  }

  /** Edge e joins two path nodes and is drawn under the labels of s and t. */
  predicate Joins(e: (int, int), pathnodes: set<int>, s: int, t: int)
  {
    e.0 in pathnodes && e.1 in pathnodes && IntToString(e.1) == IntToString(t) && IntToString(e.0) == IntToString(s)
  }

  /** An edge is drawn, from target to source, exactly when it joins two
      path nodes. */
  lemma {:induction false} EdgeEntriesMeaning(es: seq<(int, int)>, pathnodes: set<int>, s: int, t: int)
    ensures Lookup(EdgeEntries(es, pathnodes), (IntToString(t), IntToString(s))).Some? <==>
      exists e :: e in es && Joins(e, pathnodes, s, t)
    ensures Lookup(EdgeEntries(es, pathnodes), (IntToString(t), IntToString(s))).Some? ==>
      Lookup(EdgeEntries(es, pathnodes), (IntToString(t), IntToString(s))).value == DotEdge(IntToString(t), IntToString(s), None)
  {
    if es != [] {
      var k := (IntToString(t), IntToString(s));
      var init, last := es[..|es| - 1], es[|es| - 1];
      var d := EdgeEntries(init, pathnodes);
      var key := (IntToString(last.1), IntToString(last.0));
      EdgeEntriesMeaning(init, pathnodes, s, t);
      assert es == init + [last];
      JoinsSnoc(init, last, pathnodes, s, t);
      assert Joins(last, pathnodes, s, t) <==> last.0 in pathnodes && last.1 in pathnodes && key == k;
      if last.0 in pathnodes && last.1 in pathnodes && Lookup(d, key).None? {
        assert EdgeEntries(es, pathnodes) == d + [(key, DotEdge(key.0, key.1, None))];
        LookupSnoc(d, key, DotEdge(key.0, key.1, None), k);
      } else {
        assert EdgeEntries(es, pathnodes) == d;
      }
    }
  }

  lemma JoinsSnoc(init: seq<(int, int)>, last: (int, int), pathnodes: set<int>, s: int, t: int)
    ensures (exists e :: e in init + [last] && Joins(e, pathnodes, s, t)) <==>
      (exists e :: e in init && Joins(e, pathnodes, s, t)) || Joins(last, pathnodes, s, t)
  {
    if exists e :: e in init + [last] && Joins(e, pathnodes, s, t) {
      var e :| e in init + [last] && Joins(e, pathnodes, s, t);
      if e != last {
        assert e in init;
      }
    }
    if exists e :: e in init && Joins(e, pathnodes, s, t) {
      var e :| e in init && Joins(e, pathnodes, s, t);
      assert e in init + [last];
    }
    if Joins(last, pathnodes, s, t) {
      assert last in init + [last];
    }
  }

  /** A taint graph: the trail's nodes, the chosen path nodes and the
      trail's edges. */
  class TaintGraph {
    const loops: bool
    const sink: Option<string>
    var nodes: seq<int>
    var pathnodes: set<int>
    var edges: seq<(int, int)>

    /** Every edge joins two nodes of the trail. */
    ghost predicate Valid()
      reads this
    {
      forall e :: e in edges ==> e.0 in nodes && e.1 in nodes
    }

    /** The fields set by `__init__` before the graph is built, with the
        trail's nodes as `_get_edges` reads them. */
    constructor (nodes: seq<int>, loops: bool, sink: Option<string>)
      ensures this.nodes == nodes && this.loops == loops && this.sink == sink
      ensures pathnodes == {} && edges == []
      ensures Valid()
    {
      this.loops := loops;
      this.sink := sink;
      this.nodes := nodes;
      pathnodes := {};
      edges := [];
    }

    /** `_build_graph`: the path nodes chosen by the sink or the loop
        counters, or all the nodes when none were chosen, and the edges of
        the trail. With a sink that no node matches it returns early and
        leaves the graph empty (Ok(false)). */
    method BuildGraph(recs: seq<EdgeRecord>, nodeType: int -> NodeType, findPaths: PathSearch) returns (r: Result<bool>)
      requires Valid()
      modifies this
      ensures nodes == old(nodes) && Valid()
      ensures var sel := Selection(nodes, recs, sink, loops, nodeType, findPaths);
        r == (if sel.Err? then Err(sel.error) else Ok(sel.value.Some?))
      ensures r != Ok(true) ==> pathnodes == old(pathnodes) && edges == old(edges)
      ensures r == Ok(true) ==> edges == TrailEdges(recs, nodes)
      ensures r == Ok(true) ==>
        var chosen := Selection(nodes, recs, sink, loops, nodeType, findPaths).value.value;
        pathnodes == if chosen == {} then set n | n in nodes else chosen
    {
      var sel := Restrict(nodes, recs, sink, loops, nodeType, findPaths);
      if sel.Err? {
        return Err(sel.error);
      }
      if sel.value.None? {
        return Ok(false);
      }
      var chosen := sel.value.value;
      var es := CollectEdges(recs, nodes);
      forall e | e in es
        ensures e.0 in nodes && e.1 in nodes
      {
        TrailEdgesMeaning(recs, nodes, e.0, e.1);
      }
      if chosen == {} {
        pathnodes := set n | n in nodes;
      } else {
        pathnodes := chosen;
      }
      edges := es;
      return Ok(true);
    }

    /** `as_dot`: the path nodes in order, each with its label, shaded
        when it is a call and filled by its kind; then the edges between
        path nodes, each drawn from target to source. */
    method AsDot(taintsourceid: int, nodeType: int -> NodeType) returns (g: DotGraph)
      requires Valid()
      ensures fresh(g) && g.Valid()
      ensures g.name == "trail_" + IntToString(taintsourceid)
      ensures g.nodes == NodeEntries(nodes, pathnodes, nodeType)
      ensures g.edges == EdgeEntries(edges, pathnodes)
    {
      g := new DotGraph("trail_" + IntToString(taintsourceid));
      for i := 0 to |nodes|
        invariant fresh(g) && g.Valid()
        invariant g.name == "trail_" + IntToString(taintsourceid)
        invariant g.nodes == NodeEntries(nodes[..i], pathnodes, nodeType) && g.edges == []
      {
        var n := nodes[i];
        assert nodes[..i + 1][..i] == nodes[..i];
        if n in pathnodes {
          var t := nodeType(n);
          g.AddNode(IntToString(n), Some(t.dotLabel), t.isCall, None, FillColor(t));
        }
      }
      assert nodes[..|nodes|] == nodes;
      for k := 0 to |edges|
        invariant fresh(g) && g.Valid()
        invariant g.name == "trail_" + IntToString(taintsourceid)
        invariant g.nodes == NodeEntries(nodes, pathnodes, nodeType)
        invariant g.edges == EdgeEntries(edges[..k], pathnodes)
      {
        var (src, tgt) := edges[k];
        assert edges[..k + 1][..k] == edges[..k];
        if src in pathnodes && tgt in pathnodes {
          assert edges[k] in edges;
          NodeEntriesHas(nodes, pathnodes, nodeType, src);
          NodeEntriesHas(nodes, pathnodes, nodeType, tgt);
          g.AddEdge(IntToString(tgt), IntToString(src), None);
        }
      }
      assert edges[..|edges|] == edges;
    }
  }

  /** The path nodes `_build_graph` chooses: none without a sink or loops;
      Ok(None) for the early return when a sink is given and no node
      matches it; a failure when there is no root, since the root's type
      is looked up; otherwise the nodes on the paths from the root to the
      sinks. */
  function Selection(nodes: seq<int>, recs: seq<EdgeRecord>, sink: Option<string>, loops: bool,
                     nodeType: int -> NodeType, findPaths: PathSearch): Result<Option<set<int>>>
  {
    if sink.None? && !loops then Ok(Some({}))
    else if sink.Some? && SinkMatches(nodes, sink.value, nodeType) == [] then Ok(None)
    else if RootNode(nodes, recs).None? then Err(IndexedTableError("Unable to retrieve item None"))
    else Ok(Some(PathNodes(SinkIds(nodes, sink, loops, nodeType), RootNode(nodes, recs).value, nodes,
                           Adjacency(Pairs(recs)), findPaths)))
  }

  /** Without a sink or loops no node is chosen, so every node is a path
      node; with them, every chosen node is on a path from the root to a
      sink. */
  lemma SelectionMeaning(nodes: seq<int>, recs: seq<EdgeRecord>, sink: Option<string>, loops: bool,
                         nodeType: int -> NodeType, findPaths: PathSearch, n: int)
    ensures sink.None? && !loops ==> Selection(nodes, recs, sink, loops, nodeType, findPaths) == Ok(Some({}))
    ensures var sel := Selection(nodes, recs, sink, loops, nodeType, findPaths);
      sel.Ok? && sel.value.Some? && n in sel.value.value ==>
        var sinks := SinkIds(nodes, sink, loops, nodeType);
        exists k :: 0 <= k < |sinks| &&
          n in NodesOn(findPaths(nodes, Adjacency(Pairs(recs)), RootNode(nodes, recs).value, sinks[k]))
  {
    var sel := Selection(nodes, recs, sink, loops, nodeType, findPaths);
    if sel.Ok? && sel.value.Some? && n in sel.value.value {
      PathNodesFromPaths(SinkIds(nodes, sink, loops, nodeType), RootNode(nodes, recs).value, nodes,
                         Adjacency(Pairs(recs)), findPaths, n);
    }
  }

  /** The restriction part of `_build_graph`. */
  method Restrict(nodes: seq<int>, recs: seq<EdgeRecord>, sink: Option<string>, loops: bool,
                  nodeType: int -> NodeType, findPaths: PathSearch) returns (r: Result<Option<set<int>>>)
    ensures r == Selection(nodes, recs, sink, loops, nodeType, findPaths)
  {
    if sink.None? && !loops {
      return Ok(Some({}));
    }
    var sinkids: seq<int> := [];
    if sink.Some? {
      sinkids := MatchingNodes(nodes, sink.value, nodeType);
      if |sinkids| == 0 {
        return Ok(None);
      }
    }
    assert sinkids == if sink.Some? then SinkMatches(nodes, sink.value, nodeType) else [];
    if loops {
      var counters := LoopCounterNodes(nodes, nodeType);
      sinkids := sinkids + counters;
    } else {
      assert sinkids == sinkids + [];
    }
    assert sinkids == SinkIds(nodes, sink, loops, nodeType);
    var adj := BuildAdjacency(recs);
    var root := GetRootNode(nodes, recs);
    if root.None? {
      return Err(IndexedTableError("Unable to retrieve item None"));
    }
    var chosen := CollectPathNodes(sinkids, root.value, nodes, adj, findPaths);
    return Ok(Some(chosen));
  }

  /** The sink loop of `_build_graph`. */
  method MatchingNodes(nodes: seq<int>, sink: string, nodeType: int -> NodeType) returns (ids: seq<int>)
    ensures ids == SinkMatches(nodes, sink, nodeType)
  {
    ids := [];
    for i := 0 to |nodes|
      invariant ids == SinkMatches(nodes[..i], sink, nodeType)
    {
      assert nodes[..i + 1][..i] == nodes[..i];
      if Contains(nodeType(nodes[i]).text, sink) {
        ids := ids + [nodes[i]];
      }
    }
    assert nodes[..|nodes|] == nodes;
  }

  /** The loop-counter loop of `_build_graph`. */
  method LoopCounterNodes(nodes: seq<int>, nodeType: int -> NodeType) returns (ids: seq<int>)
    ensures ids == LoopCounters(nodes, nodeType)
  {
    ids := [];
    for i := 0 to |nodes|
      invariant ids == LoopCounters(nodes[..i], nodeType)
    {
      assert nodes[..i + 1][..i] == nodes[..i];
      var t := nodeType(nodes[i]);
      if t.isVar && t.variable == "lc" {
        ids := ids + [nodes[i]];
      }
    }
    assert nodes[..|nodes|] == nodes;
  }
}
