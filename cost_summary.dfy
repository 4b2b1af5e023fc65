/** The cost summary report (chj/reporting/CostSummary.py): package-name
    abbreviation, and the marking of constant-cost methods as leaves
    (` (*)  `: no calls) or callers of leaves (` (**) `: every call target is
    already a leaf). The list of leaves is kept in the summary object and
    grows across reports.

    The names of methods (the data dictionary's `get_cms`) and the calls a
    method makes (the application's instructions) are given as functions. */
module CostSummaries {
  import opened Wrappers
  import opened Strings
  import opened CostMeasures
  import opened CostModels
  import opened Sorting

  const Abbreviations: seq<(string, string)> := [
    ("com.cyberpointllc.stac.easydecision", "ccse"),
    ("com.cyberpointllc.stac.webcontroller", "ccsw"),
    ("com.cyberpointllc.stac", "ccs"),
    ("com.google.protobuf", "cgp"),
    ("java.lang.String", "String"),
    ("java.lang.Class", "Class"),
    ("java.lang.Object", "Object"),
    ("java.util.Map", "Map"),
    ("java.util.List", "List"),
    ("java.util.Set", "Set"),
    ("java.math.BigDecimal", "BigDecimal"),
    ("java.math.BigInteger", "BigInteger"),
    ("java.io.InputStream", "InputStream"),
    ("java.io.OutputStream", "OutputStream"),
    ("java.io.Reader", "Reader"),
    ("java.io.Writer", "Writer")
  ]

  predicate PatternsNonEmpty(ps: seq<(string, string)>)
  {
    forall k :: 0 <= k < |ps| ==> |ps[k].0| > 0
  }

  /** Applies the replacements in list order. */
  function AbbreviateWith(ps: seq<(string, string)>, s: string): string
    requires PatternsNonEmpty(ps)
  {
    if ps == [] then s
    else AbbreviateWith(ps[1..], Replace(s, ps[0].0, ps[0].1))
  }

  /** A string holding none of the patterns is left unchanged. */
  lemma {:induction false} AbbreviateAbsent(ps: seq<(string, string)>, s: string)
    requires PatternsNonEmpty(ps)
    requires forall k :: 0 <= k < |ps| ==> !Contains(s, ps[k].0)
    ensures AbbreviateWith(ps, s) == s
  {
    if ps != [] {
      ReplaceAbsent(s, ps[0].0, ps[0].1);
      AbbreviateAbsent(ps[1..], s);
    }
  }

  method AbbreviatePackages(s0: string) returns (s: string)
    ensures s == AbbreviateWith(Abbreviations, s0)
    ensures (forall k :: 0 <= k < |Abbreviations| ==> !Contains(s0, Abbreviations[k].0)) ==> s == s0
  {
    AbbreviationsNonEmpty();
    s := ReplaceAll(Abbreviations, s0);
    if forall k :: 0 <= k < |Abbreviations| ==> !Contains(s0, Abbreviations[k].0) {
      AbbreviateAbsent(Abbreviations, s0);
    }
  }

  lemma AbbreviationsNonEmpty()
    ensures PatternsNonEmpty(Abbreviations)
  {
  }

  /** The loop of `abbreviate_packages` over a list of replacements. */
  method ReplaceAll(ps: seq<(string, string)>, s0: string) returns (s: string)
    requires PatternsNonEmpty(ps)
    ensures s == AbbreviateWith(ps, s0)
  {
    s := s0;
    for i := 0 to |ps|
      invariant PatternsNonEmpty(ps[i..])
      invariant AbbreviateWith(ps[i..], s) == AbbreviateWith(ps, s0)
    {
      assert ps[i..][1..] == ps[i + 1..];
      s := Replace(s, ps[i].0, ps[i].1);
    }
  }

  /** A string made of the pattern followed by a shorter tail has the
      pattern replaced once. */
  lemma ReplacePrefix(p: string, t: string, rep: string)
    requires |p| > 0 && |t| < |p|
    ensures Replace(p + t, p, rep) == rep + t
  {
    assert (p + t)[..|p|] == p;
    assert (p + t)[|p|..] == t;
  }

  lemma AbbreviateStep(ps: seq<(string, string)>, s: string)
    requires ps != [] && PatternsNonEmpty(ps)
    ensures AbbreviateWith(ps, s) == AbbreviateWith(ps[1..], Replace(s, ps[0].0, ps[0].1))
  {
  }

  lemma ReplaceWhole(p: string, rep: string)
    requires |p| > 0
    ensures Replace(p, p, rep) == rep
  {
    assert p[..|p|] == p;
    assert p[|p|..] == [];
  }

  /** "ccse" holds none of the patterns after the first. */
  lemma CcseHasNoLaterPattern()
    ensures forall k :: 1 <= k < |Abbreviations| ==> !Contains("ccse", Abbreviations[k].0)
  {
    forall k | 1 <= k < |Abbreviations|
      ensures !Contains("ccse", Abbreviations[k].0)
    {
      NoLongerContained("ccse", Abbreviations[k].0);
    }
  }

  const EasyDecision := "com.cyberpointllc.stac.easydecision"

  /** Because the list order puts the specific prefix first, the easydecision
      package becomes 'ccse'. */
  lemma SpecificPrefixFirst()
    ensures AbbreviateWith(Abbreviations, EasyDecision) == "ccse"
  {
    var rest := Abbreviations[1..];
    assert Abbreviations[0] == (EasyDecision, "ccse");
    ReplaceWhole(EasyDecision, "ccse");
    CcseHasNoLaterPattern();
    AbbreviateAbsent(rest, "ccse");
    AbbreviateStep(Abbreviations, EasyDecision);
  }

  /** The generic prefix applied first would have left 'ccs.easydecision'. */
  lemma GenericPrefixFirst()
    ensures Replace(EasyDecision, Abbreviations[2].0, "ccs") == "ccs.easydecision"
  {
    assert EasyDecision == Abbreviations[2].0 + ".easydecision";
    ReplacePrefix(Abbreviations[2].0, ".easydecision", "ccs");
  }

  lemma {:induction false} NoLongerContained(s: string, sub: string)
    requires |sub| > |s|
    ensures !Contains(s, sub)
    decreases |s|
  {
    if |s| > 0 {
      NoLongerContained(s[1..], sub);
    }
  }

  /** What the application says about the calls of a method: whether it has
      call instructions, and the cmsix targets of those calls. */
  datatype CallInfo = CallInfo(hasCalls: bool, targets: seq<int>)

  const LeafMark := " (*)  "
  const CallerMark := " (**) "
  const NoMark := "      "

  /** The mark of a constant-cost method given the leaves found so far. */
  function Mark(info: CallInfo, leaves: seq<int>): (m: string)
    ensures m == LeafMark <==> !info.hasCalls
    ensures m == CallerMark <==> info.hasCalls && forall t :: t in info.targets ==> t in leaves
    ensures m != NoMark <==> !info.hasCalls || forall t :: t in info.targets ==> t in leaves
  {
    if !info.hasCalls then LeafMark
    else if forall t :: t in info.targets ==> t in leaves then CallerMark
    else NoMark
  }

  /** The lines produced for the constant costs whose name passes the filter,
      as (cmsix, cost text with mark), and the leaves afterwards. */
  function MarkEntries(entries: seq<(int, int)>, calls: int -> CallInfo, names: int -> string,
                       filter: string -> bool, leaves: seq<int>): (r: (seq<(int, string)>, seq<int>))
    ensures |r.0| <= |entries|
  {
    if entries == [] then ([], leaves)
    else
      var prev := MarkEntries(entries[..|entries| - 1], calls, names, filter, leaves);
      var e := entries[|entries| - 1];
      if !filter(names(e.0)) then prev
      else
        var m := Mark(calls(e.0), prev.1);
        (prev.0 + [(e.0, RJust(IntToString(e.1), 10) + m)],
         if m != NoMark then prev.1 + [e.0] else prev.1)
  }

  /** Every leaf was marked after all the targets of its calls: a method that
      has calls appears only after each of its targets. */
  ghost predicate LeavesClosed(leaves: seq<int>, calls: int -> CallInfo)
  {
    forall k, t :: 0 <= k < |leaves| && calls(leaves[k]).hasCalls && t in calls(leaves[k]).targets ==>
      t in leaves[..k]
  }

  lemma {:induction false} MarkEntriesKeepsClosed(entries: seq<(int, int)>, calls: int -> CallInfo,
                                                 names: int -> string, filter: string -> bool, leaves: seq<int>)
    requires LeavesClosed(leaves, calls)
    ensures LeavesClosed(MarkEntries(entries, calls, names, filter, leaves).1, calls)
  {
    if entries != [] {
      var init := entries[..|entries| - 1];
      MarkEntriesKeepsClosed(init, calls, names, filter, leaves);
      var prev := MarkEntries(init, calls, names, filter, leaves).1;
      var e := entries[|entries| - 1];
      if filter(names(e.0)) && Mark(calls(e.0), prev) != NoMark {
        var l := prev + [e.0];
        assert l[..|prev|] == prev;
        forall k, t | 0 <= k < |l| && calls(l[k]).hasCalls && t in calls(l[k]).targets
          ensures t in l[..k]
        {
          if k < |prev| {
            assert t in prev[..k];
            assert l[..k] == prev[..k];
          }
        }
      }
    }
  }

  /** The earlier leaves stay, and each leaf added is a listed constant-cost
      method whose name passes the filter. */
  lemma {:induction false} MarkEntriesGrows(entries: seq<(int, int)>, calls: int -> CallInfo,
                                           names: int -> string, filter: string -> bool, leaves: seq<int>)
    ensures var l := MarkEntries(entries, calls, names, filter, leaves).1;
      |leaves| <= |l| && l[..|leaves|] == leaves &&
      forall k :: |leaves| <= k < |l| ==> filter(names(l[k])) && exists e :: e in entries && e.0 == l[k]
  {
    if entries != [] {
      var init := entries[..|entries| - 1];
      MarkEntriesGrows(init, calls, names, filter, leaves);
      var prev := MarkEntries(init, calls, names, filter, leaves).1;
      var l := MarkEntries(entries, calls, names, filter, leaves).1;
      assert forall e :: e in init ==> e in entries;
      if l != prev {
        assert l[..|prev|] == prev;
      }
    }
  }

  /** The constant-cost entries whose method name passes the filter, in
      order. */
  function Passing(entries: seq<(int, int)>, names: int -> string, filter: string -> bool): (r: seq<(int, int)>)
    ensures forall e :: e in r <==> e in entries && filter(names(e.0))
  {
    if entries == [] then []
    else
      var e := entries[|entries| - 1];
      var init := entries[..|entries| - 1];
      assert forall x :: x in entries <==> x in init || x == e;
      Passing(init, names, filter) + (if filter(names(e.0)) then [e] else [])
  }

  /** One line per entry whose name passes the filter, in order: the line
      of the k-th such entry carries its cmsix and starts with its cost
      right-justified in ten columns. */
  lemma {:induction false} MarkEntriesLines(entries: seq<(int, int)>, calls: int -> CallInfo,
                                           names: int -> string, filter: string -> bool, leaves: seq<int>)
    ensures var lines, ps := MarkEntries(entries, calls, names, filter, leaves).0, Passing(entries, names, filter);
      |lines| == |ps| &&
      forall k :: 0 <= k < |ps| ==>
        lines[k].0 == ps[k].0 && StartsWith(lines[k].1, RJust(IntToString(ps[k].1), 10))
  {
    if entries != [] {
      var init := entries[..|entries| - 1];
      MarkEntriesLines(init, calls, names, filter, leaves);
      var e := entries[|entries| - 1];
      if filter(names(e.0)) {
        var prev := MarkEntries(init, calls, names, filter, leaves);
        var text := RJust(IntToString(e.1), 10);
        var m := Mark(calls(e.0), prev.1);
        assert StartsWith(text + m, text) by {
          assert (text + m)[..|text|] == text;
        }
      }
    }
  }

  /** The name with the cmsix, as the reports print a method. */
  function Label(names: int -> string, cmsix: int): (s: string)
    ensures StartsWith(s, names(cmsix))
  {
    names(cmsix) + " (" + IntToString(cmsix) + ")"
  }

  function AllNames(name: string): bool { true }

  /** The dictionary cmsix -> (label, text) filled from the marked lines in
      order; a later line for the same cmsix overwrites. */
  function LabelMap(marked: seq<(int, string)>, names: int -> string): map<int, (string, string)>
  {
    if marked == [] then map[]
    else
      var m := marked[|marked| - 1];
      LabelMap(marked[..|marked| - 1], names)[m.0 := (Label(names, m.0), m.1)]
  }

  lemma {:induction false} LabelMapKeys(marked: seq<(int, string)>, names: int -> string, id: int)
    ensures id in LabelMap(marked, names) <==> exists k :: 0 <= k < |marked| && marked[k].0 == id
  {
    if marked != [] {
      var init := marked[..|marked| - 1];
      LabelMapKeys(init, names, id);
      if id in LabelMap(init, names) {
        var k :| 0 <= k < |init| && init[k].0 == id;
        assert marked[k].0 == id;
      }
      if exists k :: 0 <= k < |marked| && marked[k].0 == id {
        var k :| 0 <= k < |marked| && marked[k].0 == id;
        if k < |init| {
          assert init[k].0 == id;
        }
      }
    }
  }

  /** An entry whose cmsix does not recur later keeps its own label and
      text. */
  lemma {:induction false} LabelMapValue(marked: seq<(int, string)>, names: int -> string, k: int)
    requires 0 <= k < |marked|
    requires forall l :: k < l < |marked| ==> marked[l].0 != marked[k].0
    ensures marked[k].0 in LabelMap(marked, names)
    ensures LabelMap(marked, names)[marked[k].0] == (Label(names, marked[k].0), marked[k].1)
  {
    var init := marked[..|marked| - 1];
    if k < |init| {
      LabelMapValue(init, names, k);
    }
  }

  /** The top-cost lines of `to_string`: the header and one line per top
      method whose name passes the filter. */
  function TopLines(ids: seq<int>, names: int -> string, filter: string -> bool): (lines: seq<string>)
    ensures |lines| <= |ids|
  {
    if ids == [] then []
    else
      var id := ids[|ids| - 1];
      TopLines(ids[..|ids| - 1], names, filter) +
        (if filter(names(id)) then ["  " + Label(names, id)] else [])
  }

  lemma {:induction false} TopLinesFiltered(ids: seq<int>, names: int -> string, filter: string -> bool, line: string)
    ensures line in TopLines(ids, names, filter) <==>
      exists id :: id in ids && filter(names(id)) && line == "  " + Label(names, id)
  {
    if ids != [] {
      var init := ids[..|ids| - 1];
      assert ids == init + [ids[|ids| - 1]];
      TopLinesFiltered(init, names, filter, line);
    }
  }

  function ConstantLines(marked: seq<(int, string)>, names: int -> string): (lines: seq<string>)
    ensures |lines| == |marked|
  {
    if marked == [] then []
    else [marked[0].1 + Label(names, marked[0].0)] + ConstantLines(marked[1..], names)
  }

  function Abbreviated(lines: seq<string>): (r: seq<string>)
    ensures |r| == |lines|
    ensures forall k :: 0 <= k < |r| ==> r[k] == AbbreviateWith(Abbreviations, lines[k])
  {
    if lines == [] then [] else [AbbreviateWith(Abbreviations, lines[0])] + Abbreviated(lines[1..])
  }

  class CostSummary {
    const costmodel: CostModel
    const names: int -> string
    const calls: int -> CallInfo
    /** The leaves found so far, in the order they were found. */
    var constantcost: seq<int>

    ghost predicate Valid()
      reads this
    {
      LeavesClosed(constantcost, calls)
    }

    constructor (costmodel: CostModel, names: int -> string, calls: int -> CallInfo)
      ensures Valid()
      ensures this.costmodel == costmodel && this.names == names && this.calls == calls
      ensures constantcost == []
    {
      this.costmodel := costmodel;
      this.names := names;
      this.calls := calls;
      constantcost := [];
    }

    /** Marks the constant costs whose name passes the filter, in order. */
    method MarkConstantCosts(entries: seq<(int, int)>, filter: string -> bool) returns (marked: seq<(int, string)>)
      requires Valid()
      modifies this`constantcost
      ensures Valid()
      ensures (marked, constantcost) == MarkEntries(entries, calls, names, filter, old(constantcost))
    {
      ghost var leaves0 := constantcost;
      marked := [];
      var i := 0;
      while i < |entries|
        invariant 0 <= i <= |entries|
        invariant (marked, constantcost) == MarkEntries(entries[..i], calls, names, filter, leaves0)
      {
        assert entries[..i + 1][..i] == entries[..i];
        var e := entries[i];
        if filter(names(e.0)) {
          var info := calls(e.0);
          var pcalls;
          if !info.hasCalls {
            pcalls := LeafMark;
            constantcost := constantcost + [e.0];
          } else if forall t :: t in info.targets ==> t in constantcost {
            pcalls := CallerMark;
            constantcost := constantcost + [e.0];
          } else {
            pcalls := NoMark;
          }
          marked := marked + [(e.0, RJust(IntToString(e.1), 10) + pcalls)];
        }
        i := i + 1;
      }
      assert entries[..i] == entries;
      MarkEntriesKeepsClosed(entries, calls, names, filter, leaves0);
    }

    /** The top and constant parts of `as_dictionary`: top methods map to
        their label and 'Top'; constant methods to their label and the
        marked cost text. */
    method AsDictionary() returns (topcosts: map<int, (string, string)>, constantcosts: map<int, (string, string)>)
      requires Valid()
      modifies this`constantcost
      ensures Valid()
      ensures forall id :: id in topcosts <==> id in TopIds(costmodel.methodcosts)
      ensures forall id :: id in topcosts ==> topcosts[id] == (Label(names, id), "Top")
      ensures var m := MarkEntries(SortBy(ConstantPairs(costmodel.methodcosts), ValueKey), calls, names, AllNames, old(constantcost));
        constantcost == m.1 && constantcosts == LabelMap(m.0, names)
    {
      var top := costmodel.GetTopMethodCosts();
      topcosts := TopCostsMap(top, names);
      var constant := costmodel.GetConstantMethodCosts();
      var marked := MarkConstantCosts(constant, AllNames);
      constantcosts := LabelMapOf(marked, names);
    }

    /** The top and constant sections of `to_string`, each line with its
        package names abbreviated. */
    method ToString(filter: string -> bool) returns (lines: seq<string>)
      requires Valid()
      modifies this`constantcost
      ensures Valid()
      ensures var top := TopIds(costmodel.methodcosts);
        var constant := SortBy(ConstantPairs(costmodel.methodcosts), ValueKey);
        var m := MarkEntries(constant, calls, names, filter, old(constantcost));
        constantcost == m.1 &&
        lines == Abbreviated(["\n\nCost is Top: " + IntToString(|top|)] + TopLines(top, names, filter) +
                             ["\n\nConstant Cost: " + IntToString(|constant|)] + ConstantLines(m.0, names))
    {
      var top := costmodel.GetTopMethodCosts();
      var toplines := TopLinesOf(top, names, filter);
      var raw := ["\n\nCost is Top: " + IntToString(|top|)] + toplines;
      var constant := costmodel.GetConstantMethodCosts();
      raw := raw + ["\n\nConstant Cost: " + IntToString(|constant|)];
      var marked := MarkConstantCosts(constant, filter);
      raw := raw + ConstantLines(marked, names);
      lines := AbbreviateLines(raw);
    }
  }

  /** The loop over the top methods of `to_string`. */
  method TopLinesOf(top: seq<int>, names: int -> string, filter: string -> bool) returns (lines: seq<string>)
    ensures lines == TopLines(top, names, filter)
  {
    lines := [];
    for i := 0 to |top|
      invariant lines == TopLines(top[..i], names, filter)
    {
      assert top[..i + 1][..i] == top[..i];
      if filter(names(top[i])) {
        lines := lines + ["  " + Label(names, top[i])];
      }
    }
    assert top[..|top|] == top;
  }

  /** The `topcosts` dictionary: each top method to its label and 'Top'. */
  method TopCostsMap(top: seq<int>, names: int -> string) returns (topcosts: map<int, (string, string)>)
    ensures forall id :: id in topcosts <==> id in top
    ensures forall id :: id in topcosts ==> topcosts[id] == (Label(names, id), "Top")
  {
    topcosts := map[];
    var i := 0;
    while i < |top|
      invariant 0 <= i <= |top|
      invariant forall id :: id in topcosts <==> id in top[..i]
      invariant forall id :: id in topcosts ==> topcosts[id] == (Label(names, id), "Top")
    {
      assert top[..i + 1] == top[..i] + [top[i]];
      topcosts := topcosts[top[i] := (Label(names, top[i]), "Top")];
      i := i + 1;
    }
    assert top[..i] == top;
  }

  /** The `constantcosts` dictionary, filled from the marked lines. */
  method LabelMapOf(marked: seq<(int, string)>, names: int -> string) returns (m: map<int, (string, string)>)
    ensures m == LabelMap(marked, names)
  {
    m := map[];
    var i := 0;
    while i < |marked|
      invariant 0 <= i <= |marked|
      invariant m == LabelMap(marked[..i], names)
    {
      assert marked[..i + 1][..i] == marked[..i];
      m := m[marked[i].0 := (Label(names, marked[i].0), marked[i].1)];
      i := i + 1;
    }
    assert marked[..i] == marked;
  }

  /** `abbreviatepackages` applied to every line. */
  method AbbreviateLines(raw: seq<string>) returns (lines: seq<string>)
    ensures lines == Abbreviated(raw)
  {
    lines := [];
    var i := 0;
    while i < |raw|
      invariant 0 <= i <= |raw|
      invariant lines == Abbreviated(raw[..i])
    {
      AbbreviatedSnoc(raw[..i], raw[i]);
      assert raw[..i + 1] == raw[..i] + [raw[i]];
      var s := AbbreviatePackages(raw[i]);
      lines := lines + [s];
      i := i + 1;
    }
    assert raw[..i] == raw;
  }

  lemma AbbreviatedSnoc(lines: seq<string>, s: string)
    ensures Abbreviated(lines + [s]) == Abbreviated(lines) + [AbbreviateWith(Abbreviations, s)]
  {
  }
}
