/** The branch-condition report (chj/reporting/BranchConditions.py). The
    application's branch conditions are given as the list of occurrences
    the report collects: for each method in turn, and each of its
    conditions in turn, the method's index, its abbreviated name and the
    condition text. The column-centering helper of chj/util/printutil.py
    is not part of this model and is the parameter `cjust`. */
module BranchConditionReports {
  import opened Wrappers
  import opened Strings
  import opened Dicts
  import opened Sorting

  datatype Occurrence = Occurrence(cmsix: int, name: string, cond: string)

  /** The methods (index and name) that hold condition c, in order. */
  function Holders(occs: seq<Occurrence>, c: string): seq<(int, string)>
  {
    if occs == [] then []
    else
      var init := Holders(occs[..|occs| - 1], c);
      var o := occs[|occs| - 1];
      if o.cond == c then init + [(o.cmsix, o.name)] else init
  }

  /** The table `get_table` builds: each condition, in order of first
      occurrence, with the methods holding it. */
  function Grouped(occs: seq<Occurrence>): (r: Dict<string, seq<(int, string)>>)
    ensures KeysDistinct(r)
  {
    if occs == [] then []
    else
      var d := Grouped(occs[..|occs| - 1]);
      var o := occs[|occs| - 1];
      var prev := Lookup(d, o.cond);
      if prev.Some? then Put(d, o.cond, prev.value + [(o.cmsix, o.name)])
      else Put(d, o.cond, [(o.cmsix, o.name)])
  }

  /** `get_table` (and `as_dictionary`). */
  method GetTable(occs: seq<Occurrence>) returns (table: Dict<string, seq<(int, string)>>)
    ensures table == Grouped(occs)
  {
    table := [];
    for i := 0 to |occs|
      invariant table == Grouped(occs[..i])
    {
      assert occs[..i + 1][..i] == occs[..i];
      var o := occs[i];
      var prev := Lookup(table, o.cond);
      if prev.Some? {
        table := Put(table, o.cond, prev.value + [(o.cmsix, o.name)]);
      } else {
        table := Put(table, o.cond, [(o.cmsix, o.name)]);
      }
    }
    assert occs[..|occs|] == occs;
  }

  /** Each condition that occurs maps to exactly the methods holding it, in
      order, and no other condition is in the table. */
  lemma {:induction false} GroupedMeaning(occs: seq<Occurrence>, c: string)
    ensures Lookup(Grouped(occs), c) == if Holders(occs, c) == [] then None else Some(Holders(occs, c))
  {
    if occs != [] {
      var init := occs[..|occs| - 1];
      GroupedMeaning(init, c);
      var o := occs[|occs| - 1];
      var d := Grouped(init);
      var prev := Lookup(d, o.cond);
      var v := if prev.Some? then prev.value + [(o.cmsix, o.name)] else [(o.cmsix, o.name)];
      assert Grouped(occs) == Put(d, o.cond, v);
      LookupPut(d, o.cond, v, c);
      if o.cond == c {
        assert Holders(occs, c) == Holders(init, c) + [(o.cmsix, o.name)];
        assert v == Holders(occs, c);
      } else {
        assert Holders(occs, c) == Holders(init, c);
      }
    }
  }

  /** The number of (index, name) entries in a table. */
  function Total(d: Dict<string, seq<(int, string)>>): nat
  {
    if d == [] then 0 else |d[0].1| + Total(d[1..])
  }

  lemma {:induction false} TotalPut(d: Dict<string, seq<(int, string)>>, k: string, v: seq<(int, string)>)
    ensures Total(Put(d, k, v)) + (if Lookup(d, k).Some? then |Lookup(d, k).value| else 0) == Total(d) + |v|
  {
    if d != [] && d[0].0 != k {
      TotalPut(d[1..], k, v);
      assert Put(d, k, v)[1..] == Put(d[1..], k, v);
    }
  }

  /** The table holds one entry per occurrence: every (method, condition)
      pair is counted once. */
  lemma {:induction false} GroupedTotal(occs: seq<Occurrence>)
    ensures Total(Grouped(occs)) == |occs|
  {
    if occs != [] {
      var init := occs[..|occs| - 1];
      GroupedTotal(init);
      var o := occs[|occs| - 1];
      var d := Grouped(init);
      var prev := Lookup(d, o.cond);
      TotalPut(d, o.cond, if prev.Some? then prev.value + [(o.cmsix, o.name)] else [(o.cmsix, o.name)]);
    }
  }

  /** What `tostring` records for a condition: the name of the method
      holding it when there is one, the number of occurrences otherwise. */
  datatype Count = Named(name: string) | Times(n: int)

  function Bump(prev: Option<Count>, name: string): Count
  {
    match prev
    case None => Named(name)
    case Some(Named(_)) => Times(2)
    case Some(Times(n)) => Times(n + 1)
  }

  /** The table `tostring` builds. */
  function Tally(occs: seq<Occurrence>): (r: Dict<string, Count>)
    ensures KeysDistinct(r)
    ensures |r| <= |occs|
  {
    if occs == [] then []
    else
      var d := Tally(occs[..|occs| - 1]);
      var o := occs[|occs| - 1];
      var r := Put(d, o.cond, Bump(Lookup(d, o.cond), o.name));
      PutLength(d, o.cond, Bump(Lookup(d, o.cond), o.name));
      r
  }

  lemma {:induction false} PutLength<K, V>(d: Dict<K, V>, k: K, v: V)
    ensures |Put(d, k, v)| == if Lookup(d, k).Some? then |d| else |d| + 1
  {
    if d != [] && d[0].0 != k {
      PutLength(d[1..], k, v);
    }
  }

  /** The occurrences of condition c. */
  function Occurrences(occs: seq<Occurrence>, c: string): nat
  {
    |Holders(occs, c)|
  }

  /** A condition that occurs once is recorded with the name of its method,
      one that occurs n > 1 times with n, and one that does not occur is
      absent. */
  lemma {:induction false} TallyMeaning(occs: seq<Occurrence>, c: string)
    ensures Occurrences(occs, c) == 0 <==> Lookup(Tally(occs), c).None?
    ensures Occurrences(occs, c) == 1 ==> Lookup(Tally(occs), c) == Some(Named(Holders(occs, c)[0].1))
    ensures Occurrences(occs, c) > 1 ==> Lookup(Tally(occs), c) == Some(Times(Occurrences(occs, c)))
  {
    if occs != [] {
      var init := occs[..|occs| - 1];
      TallyMeaning(init, c);
      var o := occs[|occs| - 1];
      var d := Tally(init);
      var h := Holders(init, c);
      assert Tally(occs) == Put(d, o.cond, Bump(Lookup(d, o.cond), o.name));
      LookupPut(d, o.cond, Bump(Lookup(d, o.cond), o.name), c);
      if o.cond == c {
        assert Holders(occs, c) == h + [(o.cmsix, o.name)];
        assert Lookup(Tally(occs), c) == Some(Bump(Lookup(d, c), o.name));
        assert Occurrences(occs, c) == |h| + 1;
        if h == [] {
          assert Lookup(d, c).None?;
        } else if |h| == 1 {
          assert Holders(occs, c)[0] == h[0];
          assert Lookup(d, c) == Some(Named(h[0].1));
          assert Lookup(Tally(occs), c) == Some(Times(2));
        } else {
          assert Holders(occs, c)[0] == h[0];
          assert Lookup(d, c) == Some(Times(|h|));
          assert Lookup(Tally(occs), c) == Some(Times(|h| + 1));
        }
      } else {
        assert Holders(occs, c) == h;
        assert Lookup(Tally(occs), c) == Lookup(d, c);
      }
    }
  }

  /** One step of the counting loops: a first occurrence stores the
      method name, a second sets 2, later ones add one. */
  method Record(table: Dict<string, Count>, o: Occurrence) returns (t: Dict<string, Count>)
    ensures t == Put(table, o.cond, Bump(Lookup(table, o.cond), o.name))
  {
    var prev := Lookup(table, o.cond);
    if prev.Some? {
      if prev.value.Times? {
        t := Put(table, o.cond, Times(prev.value.n + 1));
      } else {
        t := Put(table, o.cond, Times(2));
      }
    } else {
      t := Put(table, o.cond, Named(o.name));
    }
  }

  /** `tostring`'s loop over the occurrences. */
  method CountOccurrences(occs: seq<Occurrence>) returns (table: Dict<string, Count>)
    ensures table == Tally(occs)
  {
    table := [];
    for i := 0 to |occs|
      invariant table == Tally(occs[..i])
    {
      assert occs[..i + 1][..i] == occs[..i];
      table := Record(table, occs[i]);
    }
    assert occs[..|occs|] == occs;
  }

  /** The occurrences whose condition contains s. */
  function Containing(occs: seq<Occurrence>, s: string): (r: seq<Occurrence>)
    ensures forall o :: o in r <==> o in occs && Contains(o.cond, s)
  {
    if occs == [] then []
    else
      var init := Containing(occs[..|occs| - 1], s);
      var o := occs[|occs| - 1];
      assert occs == occs[..|occs| - 1] + [o];
      if Contains(o.cond, s) then init + [o] else init
  }

  /** `toincludestring`'s loop: only the conditions that contain s are
      counted. */
  method CountMatching(occs: seq<Occurrence>, s: string) returns (table: Dict<string, Count>)
    ensures table == Tally(Containing(occs, s))
  {
    table := [];
    for i := 0 to |occs|
      invariant table == Tally(Containing(occs[..i], s))
    {
      assert occs[..i + 1][..i] == occs[..i];
      var o := occs[i];
      if Contains(o.cond, s) {
        assert Containing(occs[..i + 1], s) == Containing(occs[..i], s) + [o];
        table := Record(table, o);
      } else {
        assert Containing(occs[..i + 1], s) == Containing(occs[..i], s);
      }
    }
    assert occs[..|occs|] == occs;
  }

  /** Every condition of the filtered table contains s, and the table is
      empty exactly when no condition contains s. */
  lemma {:induction false} MatchingKeys(occs: seq<Occurrence>, s: string)
    ensures forall i :: 0 <= i < |Tally(Containing(occs, s))| ==> Contains(Tally(Containing(occs, s))[i].0, s)
    ensures Tally(Containing(occs, s)) == [] <==> forall o :: o in occs ==> !Contains(o.cond, s)
  {
    var fs := Containing(occs, s);
    var t := Tally(fs);
    forall i | 0 <= i < |t| ensures Contains(t[i].0, s) {
      var c := t[i].0;
      LookupFinds(t, c, t[i].1);
      TallyMeaning(fs, c);
      HoldersCond(fs, c);
    }
    if fs != [] {
      var c := fs[0].cond;
      TallyMeaning(fs, c);
      HoldersHas(fs, 0);
    }
  }

  /** When c has a holder, some occurrence has condition c. */
  lemma {:induction false} HoldersCond(occs: seq<Occurrence>, c: string)
    ensures Holders(occs, c) != [] ==> exists o :: o in occs && o.cond == c
  {
    if occs != [] {
      HoldersCond(occs[..|occs| - 1], c);
      if Holders(occs[..|occs| - 1], c) != [] {
        var o :| o in occs[..|occs| - 1] && o.cond == c;
        assert o in occs;
      } else {
        assert occs[|occs| - 1] in occs;
      }
    }
  }

  /** The condition of every occurrence has a holder. */
  lemma {:induction false} HoldersHas(occs: seq<Occurrence>, k: int)
    requires 0 <= k < |occs|
    ensures Holders(occs, occs[k].cond) != []
  {
    if k < |occs| - 1 {
      assert occs[..|occs| - 1][k] == occs[k];
      HoldersHas(occs[..|occs| - 1], k);
    }
  }

  /** The longest condition. */
  function MaxKeyLen(d: Dict<string, Count>): (m: nat)
    ensures forall i :: 0 <= i < |d| ==> |d[i].0| <= m
    ensures d != [] ==> exists i :: 0 <= i < |d| && |d[i].0| == m
  {
    if d == [] then 0
    else
      var rest := MaxKeyLen(d[1..]);
      if |d[0].0| >= rest then |d[0].0|
      else
        assert d[1..] != [];
        var j :| 0 <= j < |d[1..]| && |d[1..][j].0| == rest;
        assert |d[j + 1].0| == rest;
        rest
  }

  /** The condition column width of `tostring`: 80 when the longest
      condition plus two is over 60, 50 otherwise; for an empty table the
      width is never assigned and the report fails. */
  function Width(d: Dict<string, Count>): (r: Result<nat>)
    ensures r.Ok? <==> d != []
    ensures r.Ok? ==> (r.value == 80 <==> exists i :: 0 <= i < |d| && |d[i].0| + 2 > 60)
    ensures r.Ok? ==> (r.value == 50 <==> forall i :: 0 <= i < |d| ==> |d[i].0| + 2 <= 60)
  {
    if d == [] then Err(Failure("local variable 'slen' referenced before assignment"))
    else if MaxKeyLen(d) + 2 > 60 then Ok(80)
    else Ok(50)
  }

  /** The second column: the method name, or the decimal text of the
      occurrence count. */
  function CountText(c: Count): (s: string)
    ensures c.Named? ==> s == c.name
    ensures c.Times? ==> ParseInt(s) == Some(c.n)
  {
    match c
    case Named(name) => name
    case Times(k) => ParseIntToString(k); IntToString(k)
  }

  /** Sorting by condition text. */
  predicate ItemLess(a: (string, Count), b: (string, Count))
  {
    StringLess(a.0, b.0)
  }

  lemma ItemLessStrict()
    ensures StrictOrder(ItemLess)
  {
    forall a: (string, Count) ensures !ItemLess(a, a) {
      StringLessIrreflexive(a.0);
    }
    forall a: (string, Count), b: (string, Count), c: (string, Count) | ItemLess(a, b) && ItemLess(b, c)
      ensures ItemLess(a, c)
    {
      StringLessTransitive(a.0, b.0, c.0);
    }
  }

  function ItemLine(item: (string, Count), width: int, sep: string): string
  {
    LJust(item.0, width) + sep + CountText(item.1)
  }

  function ItemLines(items: seq<(string, Count)>, width: int, sep: string): (r: seq<string>)
    ensures |r| == |items| && forall k :: 0 <= k < |items| ==> r[k] == ItemLine(items[k], width, sep)
  {
    seq(|items|, k requires 0 <= k < |items| => ItemLine(items[k], width, sep))
  }

  function HeaderLine(width: int, cjust: (string, int) -> string): string
  {
    cjust("condition", width) + "method name or occurrences"
  }

  /** The lines of a report: header, rule, and one line per condition. */
  method ReportLines(items: seq<(string, Count)>, width: int, sep: string, cjust: (string, int) -> string)
    returns (lines: seq<string>)
    ensures lines == [HeaderLine(width, cjust), Dashes(80)] + ItemLines(items, width, sep)
  {
    var head := [HeaderLine(width, cjust), Dashes(80)];
    lines := head;
    for k := 0 to |items|
      invariant lines == head + ItemLines(items[..k], width, sep)
    {
      ItemLinesSnoc(items, k, width, sep);
      lines := lines + [ItemLine(items[k], width, sep)];
    }
    assert items[..|items|] == items;
  }

  lemma ItemLinesSnoc(items: seq<(string, Count)>, k: nat, width: int, sep: string)
    requires k < |items|
    ensures ItemLines(items[..k + 1], width, sep) == ItemLines(items[..k], width, sep) + [ItemLine(items[k], width, sep)]
  {
    var a := ItemLines(items[..k + 1], width, sep);
    var b := ItemLines(items[..k], width, sep) + [ItemLine(items[k], width, sep)];
    assert |a| == |b|;
    forall j | 0 <= j < |a| ensures a[j] == b[j] {
      assert items[..k + 1][j] == items[j];
    }
  }

  /** `tostring`: the conditions sorted by text, each padded to the column
      width and followed by two spaces and its method name or number of
      occurrences; a failure when there are no conditions. */
  method ToString(occs: seq<Occurrence>, cjust: (string, int) -> string) returns (r: Result<string>)
    ensures r.Err? <==> occs == []
    ensures r.Ok? ==> r.value == Join("\n", [HeaderLine(Width(Tally(occs)).value, cjust), Dashes(80)] +
      ItemLines(SortWith(Tally(occs), ItemLess), Width(Tally(occs)).value, "  "))
  {
    var table := CountOccurrences(occs);
    var w := Width(table);
    if w.Err? {
      return Err(w.error);
    }
    var lines := ReportLines(SortWith(table, ItemLess), w.value, "  ", cjust);
    return Ok(Join("\n", lines));
  }

  /** `toincludestring`: the conditions containing s, sorted by text, each
      padded to the longest plus two; a fixed message when none contains
      s. */
  method IncludeString(occs: seq<Occurrence>, s: string, cjust: (string, int) -> string) returns (r: string)
    ensures var t := Tally(Containing(occs, s));
      r == if t == [] then "No matching conditions were found"
           else Join("\n", [HeaderLine(MaxKeyLen(t) + 2, cjust), Dashes(80)] +
                           ItemLines(SortWith(t, ItemLess), MaxKeyLen(t) + 2, ""))
  {
    var table := CountMatching(occs, s);
    if |table| > 0 {
      var slen := MaxKeyLen(table) + 2;
      var lines := ReportLines(SortWith(table, ItemLess), slen, "", cjust);
      return Join("\n", lines);
    }
    return "No matching conditions were found";
  }

  /** The report lines come in ascending condition order and list every
      condition of the table once. */
  lemma ReportOrder(d: Dict<string, Count>)
    ensures SortedWith(SortWith(d, ItemLess), ItemLess)
    ensures multiset(SortWith(d, ItemLess)) == multiset(d)
  {
    ItemLessStrict();
    SortWithSorted(d, ItemLess);
  }
}
