/** Graphs in the DOT language of graphviz (chj/util/DotGraph.py): nodes
    and edges kept by name in insertion order, and their text. */
module DotGraphs {
  import opened Wrappers
  import opened Strings
  import opened Dicts

  /** `sanitize`: a double quote becomes backslash-quote, then '<init>'
      becomes '\<init\>'. */
  function Sanitize(s: string): (r: string)
  {
    Replace(Replace(s, "\"", "\\\""), "<init>", "\\<init\\>")
  }

  /** Text with neither a double quote nor '<init>' passes unchanged. */
  lemma SanitizeUnchanged(s: string)
    requires !Contains(s, "\"") && !Contains(s, "<init>")
    ensures Sanitize(s) == s
  {
    ReplaceAbsent(s, "\"", "\\\"");
    ReplaceAbsent(s, "<init>", "\\<init\\>");
  }

  /** Every double quote is preceded by a backslash. */
  predicate QuotesEscaped(r: string)
  {
    forall i :: 0 <= i < |r| && r[i] == '"' ==> i > 0 && r[i - 1] == '\\'
  }

  /** The first replacement of `sanitize` leaves no double quote
      unescaped. */
  lemma {:induction false} QuoteStepEscapes(s: string)
    ensures QuotesEscaped(Replace(s, "\"", "\\\""))
  {
    ReplaceCharIsReplace(s, '"', "\\\"");
    if s != [] {
      QuoteStepEscapes(s[1..]);
      ReplaceCharIsReplace(s[1..], '"', "\\\"");
      var h := if s[0] == '"' then "\\\"" else [s[0]];
      var t := ReplaceChar(s[1..], '"', "\\\"");
      assert ReplaceChar(s, '"', "\\\"") == h + t;
      forall i | 0 <= i < |h + t| && (h + t)[i] == '"'
        ensures i > 0 && (h + t)[i - 1] == '\\'
      {
        if i >= |h| {
          assert t[i - |h|] == '"';
          if i - |h| == 0 {
            assert false;
          }
          assert (h + t)[i - 1] == t[i - |h| - 1];
        }
      }
    }
  }

  function SanitizeLabel(l: Option<string>): Option<string>
  {
    if l.None? then None else Some(Sanitize(l.value))
  }

  datatype DotNode = DotNode(name: string, labelText: Option<string>, color: Option<string>,
                             fillcolor: Option<string>, shaded: bool)

  datatype DotEdge = DotEdge(src: string, tgt: string, labelText: Option<string>)

  function Quoted(s: string): string { "\"" + s + "\"" }

  /** The style of a node: shaded wins over color, color over fillcolor. */
  function ShadeText(n: DotNode): (r: string)
    ensures r == "" <==> !n.shaded && n.color.None? && n.fillcolor.None?
    ensures n.shaded ==> r == "style=filled,color=\".7 .3 1.0\""
    ensures !n.shaded && n.color.Some? ==> r == "style=filled,color=\"" + n.color.value + "\""
    ensures !n.shaded && n.color.None? && n.fillcolor.Some? ==> r == "style=filled,fillcolor=\"" + n.fillcolor.value + "\""
  {
    if n.shaded then "style=filled,color=\".7 .3 1.0\""
    else if n.color.Some? then "style=filled,color=\"" + n.color.value + "\""
    else if n.fillcolor.Some? then "style=filled,fillcolor=\"" + n.fillcolor.value + "\""
    else ""
  }

  /** A node's text: its quoted name alone when it has neither label nor
      style, otherwise followed by the bracketed attributes. */
  function NodeToString(n: DotNode): (r: string)
    ensures r == Quoted(n.name) <==> n.labelText.None? && !n.shaded && n.color.None? && n.fillcolor.None?
    ensures StartsWith(r, Quoted(n.name))
  {
    var labeltxt := if n.labelText.None? then "" else "label=\"" + n.labelText.value + "\"";
    var shadetxt := ShadeText(n);
    var q := Quoted(n.name);
    if |labeltxt| == 0 && |shadetxt| == 0 then q
    else
      var r := q + " [" + labeltxt + "," + shadetxt + "];";
      assert r[..|q|] == q;
      r
  }

  /** An edge's text: the quoted endpoints joined by an arrow, followed by
      the label attribute only when there is a label. */
  function EdgeToString(e: DotEdge): (r: string)
    ensures StartsWith(r, Quoted(e.src) + " -> " + Quoted(e.tgt))
    ensures e.labelText.None? <==> r == Quoted(e.src) + " -> " + Quoted(e.tgt)
  {
    var head := Quoted(e.src) + " -> " + Quoted(e.tgt);
    var attrs := if e.labelText.None? then "" else " [ label=\"" + e.labelText.value + "\" ];";
    assert (head + attrs)[..|head|] == head;
    head + attrs
  }

  function NodeLines(ns: Dict<string, DotNode>): (r: seq<string>)
    ensures |r| == |ns|
    ensures forall i :: 0 <= i < |ns| ==> r[i] == NodeToString(ns[i].1)
  {
    seq(|ns|, i requires 0 <= i < |ns| => NodeToString(ns[i].1))
  }

  function EdgeLines(es: Dict<(string, string), DotEdge>): (r: seq<string>)
    ensures |r| == |es|
    ensures forall i :: 0 <= i < |es| ==> r[i] == EdgeToString(es[i].1)
  {
    seq(|es|, i requires 0 <= i < |es| => EdgeToString(es[i].1))
  }

  /** The default edge and node attributes every graph's text declares. */
  const EdgeDefaults: string := "edge [fontname=\"FreeSans\",fontsize=\"12\", labelfontname=\"FreeSans\",labelfontsize=\"12\"]"
  const NodeDefaults: string := "node [fontname=\"FreeSans\",fontsize=\"14\",shape=\"record\"]"

  /** The opening lines of a graph's text: its name, the fonts, the rank
      direction and the background. */
  function Header(name: string, rankdir: string, bgcolor: string): (r: seq<string>)
    ensures |r| == 5
  {
    ["digraph \"" + name + "\" {",
     EdgeDefaults,
     NodeDefaults,
     "rankdir=" + rankdir,
     "bgcolor=" + bgcolor]
  }

  /** Where the parts of a text made of a header, two runs of lines and a
      closing line end up. */
  lemma ConcatLayout<T>(h: seq<T>, ns: seq<T>, es: seq<T>, t: T)
    ensures |h + ns + es + [t]| == |h| + |ns| + |es| + 1
    ensures |h| > 0 ==> (h + ns + es + [t])[0] == h[0]
    ensures forall i :: 0 <= i < |ns| ==> (h + ns + es + [t])[|h| + i] == ns[i]
    ensures forall j :: 0 <= j < |es| ==> (h + ns + es + [t])[|h| + |ns| + j] == es[j]
    ensures (h + ns + es + [t])[|h| + |ns| + |es|] == t
  {
  }

  /** The edge part of a graph's validity: distinct endpoint pairs, each
      edge filed under its own endpoints, both of them nodes. */
  ghost predicate EdgesValid(nodes: Dict<string, DotNode>, edges: Dict<(string, string), DotEdge>)
  {
    KeysDistinct(edges) &&
    forall i :: 0 <= i < |edges| ==>
      edges[i].1.src == edges[i].0.0 && edges[i].1.tgt == edges[i].0.1 &&
      Lookup(nodes, edges[i].0.0).Some? && Lookup(nodes, edges[i].0.1).Some?
  }

  /** Appending a new edge between two nodes keeps the edges valid. */
  lemma EdgeSnocValid(nodes: Dict<string, DotNode>, edges: Dict<(string, string), DotEdge>, e: DotEdge)
    requires EdgesValid(nodes, edges)
    requires Lookup(edges, (e.src, e.tgt)).None?
    requires Lookup(nodes, e.src).Some? && Lookup(nodes, e.tgt).Some?
    ensures EdgesValid(nodes, edges + [((e.src, e.tgt), e)])
    ensures Lookup(edges + [((e.src, e.tgt), e)], (e.src, e.tgt)).Some?
  {
    LookupSnoc(edges, (e.src, e.tgt), e, (e.src, e.tgt));
    var es := edges + [((e.src, e.tgt), e)];
    forall i, j | 0 <= i < j < |es|
      ensures es[i].0 != es[j].0
    {
      if j == |edges| {
        assert es[i] == edges[i];
        assert edges[i] in edges;
      }
    }
  }

  lemma PrefixOfPrefix<T>(a: seq<T>, b: seq<T>, c: seq<T>)
    requires |a| <= |b| && b[..|a|] == a
    requires |b| <= |c| && c[..|b|] == b
    ensures |a| <= |c| && c[..|a|] == a
  {
    assert c[..|a|] == c[..|b|][..|a|];
  }

  class DotGraph {
    const name: string
    var nodes: Dict<string, DotNode>
    var edges: Dict<(string, string), DotEdge>
    var rankdir: string
    var bgcolor: string

    /** Each node is stored under its own name and each edge under its
        endpoints, once, and every edge joins two stored nodes. */
    ghost predicate Valid()
      reads this
    {
      KeysDistinct(nodes) &&
      (forall i :: 0 <= i < |nodes| ==> nodes[i].1.name == nodes[i].0) &&
      EdgesValid(nodes, edges)
    }

    constructor (name: string)
      ensures this.name == name && nodes == [] && edges == []
      ensures rankdir == "TB" && bgcolor == "gray96"
      ensures Valid()
    {
      this.name := name;
      nodes := [];
      edges := [];
      rankdir := "TB";
      bgcolor := "gray96";
    }

    /** `add_node`: a name already present is left as it is; a new one is
        appended with its label sanitized. */
    method AddNode(name: string, labelText: Option<string>, shaded: bool, color: Option<string>, fillcolor: Option<string>)
      requires Valid()
      modifies this
      ensures Valid()
      ensures Lookup(old(nodes), name).Some? ==> nodes == old(nodes)
      ensures Lookup(old(nodes), name).None? ==>
        nodes == old(nodes) + [(name, DotNode(name, SanitizeLabel(labelText), color, fillcolor, shaded))]
      ensures Lookup(nodes, name).Some?
      ensures edges == old(edges) && rankdir == old(rankdir) && bgcolor == old(bgcolor)
    {
      if Lookup(nodes, name).None? {
        var n := DotNode(name, SanitizeLabel(labelText), color, fillcolor, shaded);
        forall k | true
          ensures Lookup(nodes + [(name, n)], k) == if Lookup(nodes, k).Some? then Lookup(nodes, k) else if k == name then Some(n) else None
        {
          LookupSnoc(nodes, name, n, k);
        }
        nodes := nodes + [(name, n)];
      }
    }

    /** `add_edge`: both endpoints become nodes, and the edge is stored
        only when the pair has none yet. */
    method AddEdge(src: string, tgt: string, labelText: Option<string>)
      requires Valid()
      modifies this
      ensures Valid()
      ensures Lookup(nodes, src).Some? && Lookup(nodes, tgt).Some? && Lookup(edges, (src, tgt)).Some?
      ensures |old(nodes)| <= |nodes| && nodes[..|old(nodes)|] == old(nodes)
      ensures Lookup(old(nodes), src).Some? && Lookup(old(nodes), tgt).Some? ==> nodes == old(nodes)
      ensures Lookup(old(edges), (src, tgt)).Some? ==> edges == old(edges)
      ensures Lookup(old(edges), (src, tgt)).None? ==>
        edges == old(edges) + [((src, tgt), DotEdge(src, tgt, SanitizeLabel(labelText)))]
      ensures rankdir == old(rankdir) && bgcolor == old(bgcolor)
    {
      ghost var start := nodes;
      AddNode(src, None, false, None, None);
      ghost var mid := nodes;
      assert |start| <= |mid| && mid[..|start|] == start;
      AddNode(tgt, None, false, None, None);
      assert |mid| <= |nodes| && nodes[..|mid|] == mid;
      if nodes != mid {
        LookupSnoc(mid, tgt, nodes[|nodes| - 1].1, src);
      }
      PrefixOfPrefix(start, mid, nodes);
      StoreEdge(src, tgt, labelText);
    }

    /** The edge part of `add_edge`, once both endpoints are nodes. */
    method StoreEdge(src: string, tgt: string, labelText: Option<string>)
      requires Valid()
      requires Lookup(nodes, src).Some? && Lookup(nodes, tgt).Some?
      modifies this
      ensures Valid()
      ensures nodes == old(nodes) && Lookup(edges, (src, tgt)).Some?
      ensures rankdir == old(rankdir) && bgcolor == old(bgcolor)
      ensures Lookup(old(edges), (src, tgt)).Some? ==> edges == old(edges)
      ensures Lookup(old(edges), (src, tgt)).None? ==>
        edges == old(edges) + [((src, tgt), DotEdge(src, tgt, SanitizeLabel(labelText)))]
    {
      if Lookup(edges, (src, tgt)).None? {
        var e := DotEdge(src, tgt, SanitizeLabel(labelText));
        EdgeSnocValid(nodes, edges, e);
        edges := edges + [((src, tgt), e)];
      }
    }

    /** The lines of `__str__`. */
    function Lines(): (r: seq<string>)
      reads this
    {
      Header(name, rankdir, bgcolor) + NodeLines(nodes) + EdgeLines(edges) + [" }"]
    }

    /** `__str__`. */
    function ToString(): string
      reads this
    {
      Join("\n", Lines())
    }

    /** The text opens with the graph's name, lists every node before any
        edge, each in insertion order, and closes the graph. */
    lemma LinesLayout()
      ensures |Lines()| == 6 + |nodes| + |edges|
      ensures Lines()[0] == "digraph \"" + name + "\" {"
      ensures forall i :: 0 <= i < |nodes| ==> Lines()[5 + i] == NodeToString(nodes[i].1)
      ensures forall j :: 0 <= j < |edges| ==> Lines()[5 + |nodes| + j] == EdgeToString(edges[j].1)
      ensures Lines()[|Lines()| - 1] == " }"
    {
      ConcatLayout(Header(name, rankdir, bgcolor), NodeLines(nodes), EdgeLines(edges), " }");
    }
  }
}
