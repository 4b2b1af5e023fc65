/** The loop report of an application (chj/reporting/LoopSummary.py). The
    application's methods are given as a list of their loop facts: the loop
    count and maximum depth recorded for the method, its abbreviated name,
    and for each loop its bound text and the index of the taint node of the
    loop counter `lc` at the loop's first pc, when there is one. The
    column-centering helper of chj/util/printutil.py is not part of this
    model and is the parameter `cjust`. */
module LoopSummaries {
  import opened Wrappers
  import opened Strings
  import opened Sorting

  datatype LoopFacts = LoopFacts(firstPc: int, bound: string, lcTaint: Option<int>)

  datatype MethodLoops = MethodLoops(cmsix: int, aqname: string, loopCount: int, maxDepth: int, loops: seq<LoopFacts>)

  /** The constructor's reading of the requested taint sources: none means
      all, and each given source is converted to an integer, a ValueError
      when one is not a number. */
  function ReadSources(sources: Option<seq<string>>): (r: Result<seq<int>>)
    ensures sources.None? ==> r == Ok([])
    ensures sources.Some? ==> (r.Ok? <==> ParseInts(sources.value).Some?)
    ensures r.Ok? && sources.Some? ==> r.value == ParseInts(sources.value).value
  {
    if sources.None? then Ok([])
    else
      var xs := ParseInts(sources.value);
      if xs.None? then Err(ValueError("invalid literal for int()")) else Ok(xs.value)
  }

  /** Reading the decimal texts of some sources gives them back. */
  lemma ReadSourcesRoundTrip(xs: seq<int>)
    ensures ReadSources(Some(IntStrings(xs))) == Ok(xs)
  {
    ParseIntStrings(xs);
  }

  /** `taint_from_included_origin`: every origin counts when no sources
      were requested. */
  predicate Included(sources: seq<int>, index: int)
  {
    |sources| == 0 || index in sources
  }

  /** Once sources are requested, an origin counts for the loop taints
      exactly when `_get_target_sources` keeps it. */
  lemma IncludedMatching(sources: seq<int>, origin: int)
    requires |sources| > 0
    ensures Included(sources, origin) <==> Matching([origin], sources) == [origin]
  {
    assert [origin][..0] == [];
  }

  /** The origins that are requested sources, in input order. */
  function Matching(origins: seq<int>, sources: seq<int>): (r: seq<int>)
    ensures forall x :: x in r <==> x in origins && x in sources
    ensures |r| <= |origins|
  {
    if origins == [] then []
    else
      var init := Matching(origins[..|origins| - 1], sources);
      var o := origins[|origins| - 1];
      assert origins == origins[..|origins| - 1] + [o];
      if o in sources then init + [o] else init
  }

  /** The text of `_get_target_sources`. */
  function TargetSourcesText(origins: seq<int>, sources: seq<int>): string
  {
    var ms := Matching(origins, sources);
    if ms == [] then "-" else Join(",", IntStrings(ms))
  }

  /** `_get_target_sources`: the decimal text of each origin that is a
      requested source, collected in input order. */
  method GetTargetSources(origins: seq<int>, sources: seq<int>) returns (s: string)
    ensures s == TargetSourcesText(origins, sources)
  {
    var result: seq<string> := [];
    for i := 0 to |origins|
      invariant result == IntStrings(Matching(origins[..i], sources))
    {
      MatchingSnoc(origins, i, sources);
      if origins[i] in sources {
        IntStringsSnoc(Matching(origins[..i], sources), origins[i]);
        result := result + [IntToString(origins[i])];
      }
    }
    assert origins[..|origins|] == origins;
    if |result| == 0 {
      return "-";
    }
    return Join(",", result);
  }

  lemma MatchingSnoc(origins: seq<int>, i: nat, sources: seq<int>)
    requires i < |origins|
    ensures Matching(origins[..i + 1], sources) ==
      Matching(origins[..i], sources) + if origins[i] in sources then [origins[i]] else []
  {
    assert origins[..i + 1][..i] == origins[..i];
  }

  lemma IntStringsSnoc(xs: seq<int>, x: int)
    ensures IntStrings(xs + [x]) == IntStrings(xs) + [IntToString(x)]
  {
  }

  /** The text is '-' exactly when no origin is a requested source, and
      otherwise reads back as the matching origins in input order. */
  lemma TargetSourcesMeaning(origins: seq<int>, sources: seq<int>)
    ensures TargetSourcesText(origins, sources) == "-" <==> forall x :: x in origins ==> x !in sources
    ensures TargetSourcesText(origins, sources) != "-" ==>
      ParseIntList(TargetSourcesText(origins, sources)) == Some(Matching(origins, sources))
  {
    var ms := Matching(origins, sources);
    if ms != [] {
      ParseIntListJoin(ms);
      assert Split("-", ',') == ["-"];
      assert ParseIntList("-") == None;
    } else {
      forall x | x in origins ensures x !in sources {
        assert x !in ms;
      }
    }
  }

  /** The mark of one loop: '+' when its loop counter is tainted from an
      included origin. */
  function Mark(l: LoopFacts, sources: seq<int>): string
  {
    if l.lcTaint.Some? && Included(sources, l.lcTaint.value) then "+" else "_"
  }

  function Marks(ls: seq<LoopFacts>, sources: seq<int>): (r: seq<string>)
    ensures |r| == |ls|
    ensures forall k :: 0 <= k < |ls| ==> r[k] == Mark(ls[k], sources)
  {
    seq(|ls|, k requires 0 <= k < |ls| => Mark(ls[k], sources))
  }

  /** `_get_loop_taints`: one mark per loop, joined by commas. */
  method GetLoopTaints(m: MethodLoops, sources: seq<int>) returns (s: string)
    ensures s == Join(",", Marks(m.loops, sources))
  {
    var result: seq<string> := [];
    for i := 0 to |m.loops|
      invariant result == Marks(m.loops[..i], sources)
    {
      var l := m.loops[i];
      if l.lcTaint.Some? && Included(sources, l.lcTaint.value) {
        result := result + ["+"];
      } else {
        result := result + ["_"];
      }
    }
    assert m.loops[..|m.loops|] == m.loops;
    return Join(",", result);
  }

  /** The loop taints text has one mark per loop: splitting it at the
      commas gives, for each loop in order, '+' exactly when the loop
      counter is tainted from an included origin and '_' otherwise. */
  lemma LoopTaintsMeaning(m: MethodLoops, sources: seq<int>)
    requires |m.loops| > 0
    ensures var parts := Split(Join(",", Marks(m.loops, sources)), ',');
      |parts| == |m.loops| &&
      forall k :: 0 <= k < |m.loops| ==>
        (parts[k] == "+" <==> m.loops[k].lcTaint.Some? && Included(sources, m.loops[k].lcTaint.value)) &&
        (parts[k] == "_" <==> !(m.loops[k].lcTaint.Some? && Included(sources, m.loops[k].lcTaint.value)))
  {
    var ms := Marks(m.loops, sources);
    assert forall k :: 0 <= k < |ms| ==> ',' !in ms[k];
    SplitJoin(ms, ',');
  }

  /** The bounds of the loops, comma-joined. */
  function Bounds(ls: seq<LoopFacts>): (r: seq<string>)
    ensures |r| == |ls| && forall k :: 0 <= k < |ls| ==> r[k] == ls[k].bound
  {
    seq(|ls|, k requires 0 <= k < |ls| => ls[k].bound)
  }

  /** The five entries `as_dictionary` records for a method. */
  datatype LoopRecord = LoopRecord(loopcount: string, maxDepth: string, loopbounds: string, looptaints: string, aqname: string)

  function RecordOf(m: MethodLoops, sources: seq<int>): LoopRecord
  {
    LoopRecord(IntToString(m.loopCount), IntToString(m.maxDepth), Join(",", Bounds(m.loops)),
               Join(",", Marks(m.loops, sources)), m.aqname)
  }

  /** The dictionary `as_dictionary` builds from the methods in order: a
      later method with the same index overwrites an earlier one. */
  function LoopDictionary(ms: seq<MethodLoops>, sources: seq<int>): (r: map<int, LoopRecord>)
    ensures r.Keys == LoopKeys(ms)
  {
    if ms == [] then map[]
    else
      var d := LoopDictionary(ms[..|ms| - 1], sources);
      var m := ms[|ms| - 1];
      if m.loopCount > 0 then d[m.cmsix := RecordOf(m, sources)] else d
  }

  /** `as_dictionary`. */
  method AsDictionary(ms: seq<MethodLoops>, sources: seq<int>) returns (results: map<int, LoopRecord>)
    ensures results == LoopDictionary(ms, sources)
  {
    results := map[];
    for i := 0 to |ms|
      invariant results == LoopDictionary(ms[..i], sources)
    {
      assert ms[..i + 1][..i] == ms[..i];
      var m := ms[i];
      if m.loopCount > 0 {
        var looptaints := GetLoopTaints(m, sources);
        var r := LoopRecord(IntToString(m.loopCount), IntToString(m.maxDepth), Join(",", Bounds(m.loops)),
                            looptaints, m.aqname);
        results := results[m.cmsix := r];
      }
    }
    assert ms[..|ms|] == ms;
  }

  /** Exactly the methods with loops are keyed. */
  lemma {:induction false} LoopDictionaryKeys(ms: seq<MethodLoops>, c: int)
    ensures c in LoopKeys(ms) <==> exists k :: 0 <= k < |ms| && ms[k].cmsix == c && ms[k].loopCount > 0
  {
    if ms != [] {
      var init := ms[..|ms| - 1];
      LoopDictionaryKeys(init, c);
      if exists k :: 0 <= k < |ms| && ms[k].cmsix == c && ms[k].loopCount > 0 {
        var k :| 0 <= k < |ms| && ms[k].cmsix == c && ms[k].loopCount > 0;
        if k < |init| {
          assert init[k] == ms[k];
        }
      }
      if exists k :: 0 <= k < |init| && init[k].cmsix == c && init[k].loopCount > 0 {
        var k :| 0 <= k < |init| && init[k].cmsix == c && init[k].loopCount > 0;
        assert ms[k] == init[k];
      }
    }
  }

  /** The indices of the methods with loops. */
  function LoopKeys(ms: seq<MethodLoops>): set<int>
  {
    if ms == [] then {}
    else
      var m := ms[|ms| - 1];
      LoopKeys(ms[..|ms| - 1]) + if m.loopCount > 0 then {m.cmsix} else {}
  }

  /** A method with loops that no later method with loops shares its index
      with is keyed to its own record. */
  lemma {:induction false} LoopDictionaryLastWins(ms: seq<MethodLoops>, sources: seq<int>, k: int)
    requires 0 <= k < |ms| && ms[k].loopCount > 0
    requires forall j :: k < j < |ms| ==> ms[j].cmsix != ms[k].cmsix || ms[j].loopCount <= 0
    ensures ms[k].cmsix in LoopDictionary(ms, sources)
    ensures LoopDictionary(ms, sources)[ms[k].cmsix] == RecordOf(ms[k], sources)
  {
    if k < |ms| - 1 {
      var init := ms[..|ms| - 1];
      assert init[k] == ms[k];
      forall j | k < j < |init| ensures init[j].cmsix != init[k].cmsix || init[j].loopCount <= 0 {
        assert init[j] == ms[j];
      }
      LoopDictionaryLastWins(init, sources, k);
    }
  }

  /** A row of the text report. */
  datatype Row = Row(loopCount: int, maxDepth: int, loopbounds: string, looptaints: string, aqname: string, cmsix: int)

  function RowOf(m: MethodLoops, sources: seq<int>): Row
  {
    Row(m.loopCount, m.maxDepth, Join(",", Bounds(m.loops)), Join(",", Marks(m.loops, sources)), m.aqname, m.cmsix)
  }

  /** The rows of the methods with loops, in method order. */
  function Rows(ms: seq<MethodLoops>, sources: seq<int>): seq<Row>
  {
    if ms == [] then []
    else
      var init := Rows(ms[..|ms| - 1], sources);
      var m := ms[|ms| - 1];
      if m.loopCount > 0 then init + [RowOf(m, sources)] else init
  }

  /** `x` is the row of method `m`, which has loops. */
  predicate RowFor(m: MethodLoops, sources: seq<int>, x: Row)
  {
    m.loopCount > 0 && x == RowOf(m, sources)
  }

  /** The rows are those of the methods with loops. */
  lemma RowsMembers(ms: seq<MethodLoops>, sources: seq<int>, x: Row)
    ensures x in Rows(ms, sources) <==> exists k :: 0 <= k < |ms| && RowFor(ms[k], sources, x)
  {
    RowsPrefixMembers(ms, |ms|, sources, x);
    assert ms[..|ms|] == ms;
  }

  lemma {:induction false} RowsPrefixMembers(ms: seq<MethodLoops>, n: nat, sources: seq<int>, x: Row)
    requires n <= |ms|
    ensures x in Rows(ms[..n], sources) <==> exists k :: 0 <= k < n && RowFor(ms[k], sources, x)
  {
    if n > 0 {
      RowsPrefixMembers(ms, n - 1, sources, x);
      RowsLast(ms, n, sources, x);
      if x in Rows(ms[..n], sources) {
        if RowFor(ms[n - 1], sources, x) {
          assert 0 <= n - 1 < n && RowFor(ms[n - 1], sources, x);
        } else {
          var k :| 0 <= k < n - 1 && RowFor(ms[k], sources, x);
          assert 0 <= k < n && RowFor(ms[k], sources, x);
        }
      } else {
        forall k | 0 <= k < n ensures !RowFor(ms[k], sources, x) {
          if k < n - 1 {
            assert !(0 <= k < n - 1 && RowFor(ms[k], sources, x));
          }
        }
      }
    }
  }

  lemma RowsLast(ms: seq<MethodLoops>, n: nat, sources: seq<int>, x: Row)
    requires 0 < n <= |ms|
    ensures x in Rows(ms[..n], sources) <==> x in Rows(ms[..n - 1], sources) || RowFor(ms[n - 1], sources, x)
  {
    assert ms[..n][..n - 1] == ms[..n - 1];
  }

  /** The sort key of `to_string`: max-depth, largest first. */
  function DepthDescending(r: Row): int { -r.maxDepth }

  function RowLine(r: Row, cjust: (string, int) -> string): string
  {
    cjust(IntToString(r.loopCount), 8) + cjust(IntToString(r.maxDepth), 14) + cjust(r.loopbounds, 14) +
    cjust(r.looptaints, 14) + r.aqname + " (" + IntToString(r.cmsix) + ")"
  }

  function RowLines(rs: seq<Row>, cjust: (string, int) -> string): (r: seq<string>)
    ensures |r| == |rs| && forall k :: 0 <= k < |rs| ==> r[k] == RowLine(rs[k], cjust)
  {
    seq(|rs|, k requires 0 <= k < |rs| => RowLine(rs[k], cjust))
  }

  function HeaderLine(cjust: (string, int) -> string): string
  {
    cjust("#loops", 8) + cjust("max-depth", 14) + cjust("bounds", 14) + cjust("taints", 14) + " method name (id)"
  }

  /** The rows `to_string` collects, in method order. */
  method CollectRows(ms: seq<MethodLoops>, sources: seq<int>) returns (result: seq<Row>)
    ensures result == Rows(ms, sources)
  {
    result := [];
    for i := 0 to |ms|
      invariant result == Rows(ms[..i], sources)
    {
      assert ms[..i + 1][..i] == ms[..i];
      var m := ms[i];
      if m.loopCount > 0 {
        var looptaints := GetLoopTaints(m, sources);
        result := result + [Row(m.loopCount, m.maxDepth, Join(",", Bounds(m.loops)), looptaints, m.aqname, m.cmsix)];
      }
    }
    assert ms[..|ms|] == ms;
  }

  /** `to_string`: the header, a rule, and one line per method with loops,
      deepest first. */
  method ToString(ms: seq<MethodLoops>, sources: seq<int>, cjust: (string, int) -> string) returns (s: string)
    ensures s == Join("\n", [HeaderLine(cjust), Dashes(80)] + RowLines(SortBy(Rows(ms, sources), DepthDescending), cjust))
  {
    var result := CollectRows(ms, sources);
    var sorted := SortBy(result, DepthDescending);
    var lines := AppendRowLines([HeaderLine(cjust), Dashes(80)], sorted, cjust);
    return Join("\n", lines);
  }

  /** The line of each row, in order, after the given lines. */
  method AppendRowLines(header: seq<string>, rows: seq<Row>, cjust: (string, int) -> string) returns (lines: seq<string>)
    ensures lines == header + RowLines(rows, cjust)
  {
    lines := header;
    for k := 0 to |rows|
      invariant lines == header + RowLines(rows[..k], cjust)
    {
      RowLinesSnoc(rows, k, cjust);
      lines := lines + [RowLine(rows[k], cjust)];
    }
    assert rows[..|rows|] == rows;
  }

  lemma RowLinesSnoc(rs: seq<Row>, k: nat, cjust: (string, int) -> string)
    requires k < |rs|
    ensures RowLines(rs[..k + 1], cjust) == RowLines(rs[..k], cjust) + [RowLine(rs[k], cjust)]
  {
  }

  /** The report lists every method with loops exactly once each, and the
      deeper methods first. */
  lemma ReportOrder(ms: seq<MethodLoops>, sources: seq<int>)
    ensures var rows := SortBy(Rows(ms, sources), DepthDescending);
      multiset(rows) == multiset(Rows(ms, sources)) &&
      (forall i, j :: 0 <= i < j < |rows| ==> rows[i].maxDepth >= rows[j].maxDepth) &&
      (forall x :: x in rows <==> exists k :: 0 <= k < |ms| && RowFor(ms[k], sources, x))
  {
    var rows := SortBy(Rows(ms, sources), DepthDescending);
    SortBySorted(Rows(ms, sources), DepthDescending);
    forall x ensures x in rows <==> exists k :: 0 <= k < |ms| && RowFor(ms[k], sources, x) {
      assert x in rows <==> x in multiset(rows);
      assert x in Rows(ms, sources) <==> x in multiset(Rows(ms, sources));
      RowsMembers(ms, sources, x);
    }
  }
}
