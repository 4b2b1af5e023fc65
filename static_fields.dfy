/** The static-field report (chj/reporting/StaticFields.py). The
    application's static initializers and static field readers are given
    as lists of (method index, accesses), each access a pc, a class index
    and a field-signature index, in the order the application lists them.
    The texts of classes, field signatures and methods come from the
    application's dictionaries and are the parameter `names`. */
module StaticFieldReports {
  import opened Wrappers
  import opened Strings
  import opened Dicts
  import opened Sorting

  /** One `putstatic` or `getstatic` of a method: pc, class, field. */
  datatype Access = Access(pc: int, cn: int, field: int)

  /** The accesses of one method. */
  type MethodAccesses = (int, seq<Access>)

  /** An access together with the method that makes it. */
  datatype Entry = Entry(cmsix: int, pc: int, cn: int, field: int)

  /** The dictionary texts the report prints: class name, field signature
      and abbreviated method name, by index. */
  datatype Names = Names(className: int -> string, fieldName: int -> string, methodName: int -> string)

  function EntriesOf(cmsix: int, accs: seq<Access>): (r: seq<Entry>)
    ensures |r| == |accs|
    ensures forall k :: 0 <= k < |accs| ==> r[k] == Entry(cmsix, accs[k].pc, accs[k].cn, accs[k].field)
  {
    seq(|accs|, k requires 0 <= k < |accs| => Entry(cmsix, accs[k].pc, accs[k].cn, accs[k].field))
  }

  /** The accesses of all methods, in the order the loops visit them. */
  function Flatten(xs: seq<MethodAccesses>): seq<Entry>
  {
    if xs == [] then []
    else Flatten(xs[..|xs| - 1]) + EntriesOf(xs[|xs| - 1].0, xs[|xs| - 1].1)
  }

  /** One more method visited by the outer loop, one more access by the
      inner one. */
  lemma FlattenStep(xs: seq<MethodAccesses>, i: nat, j: nat)
    requires i < |xs| && j < |xs[i].1|
    ensures var e := Entry(xs[i].0, xs[i].1[j].pc, xs[i].1[j].cn, xs[i].1[j].field);
      Flatten(xs[..i]) + EntriesOf(xs[i].0, xs[i].1[..j + 1]) ==
      (Flatten(xs[..i]) + EntriesOf(xs[i].0, xs[i].1[..j])) + [e]
  {
  }

  lemma FlattenNext(xs: seq<MethodAccesses>, i: nat)
    requires i < |xs|
    ensures Flatten(xs[..i + 1]) == Flatten(xs[..i]) + EntriesOf(xs[i].0, xs[i].1[..|xs[i].1|])
  {
    assert xs[..i + 1][..i] == xs[..i];
    assert xs[i].1[..|xs[i].1|] == xs[i].1;
  }

  // ---------------------------------------------------------------------
  // as_dictionary: class name -> field signature -> method -> (pc, name)
  // ---------------------------------------------------------------------

  type ByMethod = Dict<int, (int, string)>
  type ByField = Dict<string, ByMethod>
  type ByClass = Dict<string, ByField>

  /** One access entered into the nested table: the entry for its method
      is set, replacing any earlier one. */
  function Record(d: ByClass, e: Entry, names: Names): ByClass
  {
    var c := names.className(e.cn);
    var f := names.fieldName(e.field);
    var byField := Get(d, c, []);
    var byMethod := Get(byField, f, []);
    Put(d, c, Put(byField, f, Put(byMethod, e.cmsix, (e.pc, names.methodName(e.cmsix)))))
  }

  /** The nested table of a list of accesses. */
  function Grouped(es: seq<Entry>, names: Names): ByClass
  {
    if es == [] then [] else Record(Grouped(es[..|es| - 1], names), es[|es| - 1], names)
  }

  lemma GroupedSnoc(es: seq<Entry>, e: Entry, names: Names)
    ensures Grouped(es + [e], names) == Record(Grouped(es, names), e, names)
  {
    assert (es + [e])[..|es|] == es;
  }

  /** `d[c][f][m]`, None when any key is missing. */
  function At(d: ByClass, c: string, f: string, m: int): Option<(int, string)>
  {
    var byField := Lookup(d, c);
    if byField.None? then None
    else
      var byMethod := Lookup(byField.value, f);
      if byMethod.None? then None else Lookup(byMethod.value, m)
  }

  /** The access is by method m to a field printed f of a class printed c. */
  predicate Matches(e: Entry, names: Names, c: string, f: string, m: int)
  {
    names.className(e.cn) == c && names.fieldName(e.field) == f && e.cmsix == m
  }

  lemma AtRecord(d: ByClass, e: Entry, names: Names, c: string, f: string, m: int)
    ensures At(Record(d, e, names), c, f, m) ==
      if Matches(e, names, c, f, m) then Some((e.pc, names.methodName(m))) else At(d, c, f, m)
  {
    var c' := names.className(e.cn);
    var f' := names.fieldName(e.field);
    var byField := Get(d, c', []);
    var byMethod := Get(byField, f', []);
    var byMethod' := Put(byMethod, e.cmsix, (e.pc, names.methodName(e.cmsix)));
    var byField' := Put(byField, f', byMethod');
    LookupPut(d, c', byField', c);
    LookupPut(byField, f', byMethod', f);
    LookupPut(byMethod, e.cmsix, (e.pc, names.methodName(e.cmsix)), m);
  }

  /** A (class, field, method) is in the table exactly when some access
      matches it. */
  lemma {:induction false} GroupedAbsent(es: seq<Entry>, names: Names, c: string, f: string, m: int)
    ensures At(Grouped(es, names), c, f, m).None? <==> NoAccess(es, names, c, f, m)
  {
    if es != [] {
      var init := es[..|es| - 1];
      GroupedAbsent(init, names, c, f, m);
      AtRecord(Grouped(init, names), es[|es| - 1], names, c, f, m);
      NoAccessSnoc(es, names, c, f, m);
    }
  }

  /** No access matches (class c, field f, method m). */
  predicate NoAccess(es: seq<Entry>, names: Names, c: string, f: string, m: int)
  {
    forall x :: x in es ==> !Matches(x, names, c, f, m)
  }

  lemma NoAccessSnoc(es: seq<Entry>, names: Names, c: string, f: string, m: int)
    requires es != []
    ensures NoAccess(es, names, c, f, m) <==>
      NoAccess(es[..|es| - 1], names, c, f, m) && !Matches(es[|es| - 1], names, c, f, m)
  {
    assert es == es[..|es| - 1] + [es[|es| - 1]];
  }

  /** A (class, field, method) maps to the pc of its LAST matching access,
      with the method's name: a later access replaces an earlier one. */
  lemma {:induction false} GroupedLastWins(es: seq<Entry>, names: Names, c: string, f: string, m: int, i: nat)
    requires i < |es| && Matches(es[i], names, c, f, m)
    requires forall j :: i < j < |es| ==> !Matches(es[j], names, c, f, m)
    ensures At(Grouped(es, names), c, f, m) == Some((es[i].pc, names.methodName(m)))
  {
    var init := es[..|es| - 1];
    var e := es[|es| - 1];
    AtRecord(Grouped(init, names), e, names, c, f, m);
    if i < |es| - 1 {
      assert forall j :: 0 <= j < |init| ==> init[j] == es[j];
      GroupedLastWins(init, names, c, f, m, i);
    }
  }

  /** The step of the inner loop: create the class and field tables when
      missing, then set the entry of the method. */
  method Enter(d: ByClass, e: Entry, names: Names) returns (d': ByClass)
    ensures d' == Record(d, e, names)
  {
    var c := names.className(e.cn);
    var f := names.fieldName(e.field);
    var byField: ByField := [];
    var present := Lookup(d, c);
    if present.Some? {
      byField := present.value;
    }
    var byMethod: ByMethod := [];
    var found := Lookup(byField, f);
    if found.Some? {
      byMethod := found.value;
    }
    byMethod := Put(byMethod, e.cmsix, (e.pc, names.methodName(e.cmsix)));
    d' := Put(d, c, Put(byField, f, byMethod));
  }

  /** The loops filling `initdict` (and, the same way, `readerdict`). */
  method GroupByName(xs: seq<MethodAccesses>, names: Names) returns (d: ByClass)
    ensures d == Grouped(Flatten(xs), names)
  {
    d := [];
    for i := 0 to |xs|
      invariant d == Grouped(Flatten(xs[..i]), names)
    {
      var (cmsix, accs) := xs[i];
      assert EntriesOf(cmsix, accs[..0]) == [];
      assert Flatten(xs[..i]) + [] == Flatten(xs[..i]);
      for j := 0 to |accs|
        invariant d == Grouped(Flatten(xs[..i]) + EntriesOf(cmsix, accs[..j]), names)
      {
        var e := Entry(cmsix, accs[j].pc, accs[j].cn, accs[j].field);
        FlattenStep(xs, i, j);
        GroupedSnoc(Flatten(xs[..i]) + EntriesOf(cmsix, accs[..j]), e, names);
        d := Enter(d, e, names);
      }
      FlattenNext(xs, i);
    }
    assert xs[..|xs|] == xs;
  }

  /** `as_dictionary`: the initializer table under 'initdict' and the
      reader table under 'readerdict', and nothing else. */
  method AsDictionary(initializers: seq<MethodAccesses>, readers: seq<MethodAccesses>, names: Names)
    returns (r: map<string, ByClass>)
    ensures r.Keys == {"initdict", "readerdict"}
    ensures r["initdict"] == Grouped(Flatten(initializers), names)
    ensures r["readerdict"] == Grouped(Flatten(readers), names)
  {
    var initdict := GroupByName(initializers, names);
    var readerdict := GroupByName(readers, names);
    r := map[];
    r := r["initdict" := initdict];
    r := r["readerdict" := readerdict];
  }

  // ---------------------------------------------------------------------
  // to_string: class index -> field index -> every (method, pc)
  // ---------------------------------------------------------------------

  type Occurrences = seq<(int, int)>
  type ByIndex = Dict<int, Dict<int, Occurrences>>

  /** One access appended to the list of its class and field. */
  function Append(d: ByIndex, e: Entry): ByIndex
  {
    var byField := Get(d, e.cn, []);
    Put(d, e.cn, Put(byField, e.field, Get(byField, e.field, []) + [(e.cmsix, e.pc)]))
  }

  function Collected(es: seq<Entry>): ByIndex
  {
    if es == [] then [] else Append(Collected(es[..|es| - 1]), es[|es| - 1])
  }

  lemma CollectedSnoc(es: seq<Entry>, e: Entry)
    ensures Collected(es + [e]) == Append(Collected(es), e)
  {
    assert (es + [e])[..|es|] == es;
  }

  /** The (method, pc) of every access to field f of class cn, in order. */
  function OccurrencesOf(es: seq<Entry>, cn: int, f: int): Occurrences
  {
    if es == [] then []
    else
      var init := OccurrencesOf(es[..|es| - 1], cn, f);
      var e := es[|es| - 1];
      if e.cn == cn && e.field == f then init + [(e.cmsix, e.pc)] else init
  }

  /** `d[cn][f]`, None when either key is missing. */
  function At2(d: ByIndex, cn: int, f: int): Option<Occurrences>
  {
    var byField := Lookup(d, cn);
    if byField.None? then None else Lookup(byField.value, f)
  }

  /** No access is lost: each class and field holds the list of all its
      accesses, repetitions included, in order; a class or field without
      accesses is absent. */
  lemma {:induction false} CollectedMeaning(es: seq<Entry>, cn: int, f: int)
    ensures At2(Collected(es), cn, f) == if OccurrencesOf(es, cn, f) == [] then None else Some(OccurrencesOf(es, cn, f))
    ensures Lookup(Collected(es), cn).Some? <==> exists i :: 0 <= i < |es| && es[i].cn == cn
  {
    if es != [] {
      var init := es[..|es| - 1];
      var e := es[|es| - 1];
      CollectedMeaning(init, cn, f);
      var d := Collected(init);
      var byField := Get(d, e.cn, []);
      var l := Get(byField, e.field, []) + [(e.cmsix, e.pc)];
      var byField' := Put(byField, e.field, l);
      assert Collected(es) == Put(d, e.cn, byField');
      LookupPut(d, e.cn, byField', cn);
      LookupPut(byField, e.field, l, f);
      if e.cn == cn && e.field == f {
        CollectedMeaning(init, cn, e.field);
        assert l == OccurrencesOf(es, cn, f);
      } else if e.cn == cn {
        assert Get(byField, f, []) == Get(Get(d, cn, []), f, []);
      }
      if exists i :: 0 <= i < |init| && init[i].cn == cn {
        var i :| 0 <= i < |init| && init[i].cn == cn;
        assert es[i].cn == cn;
      }
      if exists i :: 0 <= i < |es| && es[i].cn == cn {
        var i :| 0 <= i < |es| && es[i].cn == cn;
        if i < |init| {
          assert init[i].cn == cn;
        }
      }
    }
  }

  /** The step of the inner loop: create the class and field entries when
      missing, then append (method, pc). */
  method AppendEntry(d: ByIndex, e: Entry) returns (d': ByIndex)
    ensures d' == Append(d, e)
  {
    var byField: Dict<int, Occurrences> := [];
    var present := Lookup(d, e.cn);
    if present.Some? {
      byField := present.value;
    }
    var occs: Occurrences := [];
    var found := Lookup(byField, e.field);
    if found.Some? {
      occs := found.value;
    }
    d' := Put(d, e.cn, Put(byField, e.field, occs + [(e.cmsix, e.pc)]));
  }

  /** The loops of `to_string` filling `initdict` (and `readerdict`). */
  method CollectByIndex(xs: seq<MethodAccesses>) returns (d: ByIndex)
    ensures d == Collected(Flatten(xs))
  {
    d := [];
    for i := 0 to |xs|
      invariant d == Collected(Flatten(xs[..i]))
    {
      var (cmsix, accs) := xs[i];
      assert EntriesOf(cmsix, accs[..0]) == [];
      assert Flatten(xs[..i]) + [] == Flatten(xs[..i]);
      for j := 0 to |accs|
        invariant d == Collected(Flatten(xs[..i]) + EntriesOf(cmsix, accs[..j]))
      {
        var e := Entry(cmsix, accs[j].pc, accs[j].cn, accs[j].field);
        FlattenStep(xs, i, j);
        CollectedSnoc(Flatten(xs[..i]) + EntriesOf(cmsix, accs[..j]), e);
        d := AppendEntry(d, e);
      }
      FlattenNext(xs, i);
    }
    assert xs[..|xs|] == xs;
  }

  /** The keys of a table, in order. */
  function KeysOf<V>(d: Dict<int, V>): (r: seq<int>)
    ensures |r| == |d| && forall i :: 0 <= i < |d| ==> r[i] == d[i].0
  {
    seq(|d|, i requires 0 <= i < |d| => d[i].0)
  }

  /** Python's `sorted` of the keys. */
  function SortedKeys<V>(d: Dict<int, V>): seq<int>
  {
    SortBy(KeysOf(d), (k: int) => k)
  }

  /** Classes and fields are printed in ascending index order, each key
      once. */
  lemma SortedKeysOrder<V>(d: Dict<int, V>)
    ensures forall i, j :: 0 <= i < j < |SortedKeys(d)| ==> SortedKeys(d)[i] <= SortedKeys(d)[j]
    ensures multiset(SortedKeys(d)) == multiset(KeysOf(d))
  {
    SortBySorted(KeysOf(d), (k: int) => k);
  }

  function OccLine(o: (int, int), names: Names): string
  {
    RJust(IntToString(o.1), 6) + "  " + names.methodName(o.0)
  }

  function OccLines(os: Occurrences, names: Names): (r: seq<string>)
    ensures |r| == |os|
  {
    if os == [] then [] else OccLines(os[..|os| - 1], names) + [OccLine(os[|os| - 1], names)]
  }

  /** The lines of one field: its signature, its initializers, and its
      readers when it has any. */
  function FieldBlock(f: int, inits: Occurrences, readers: Option<Occurrences>, names: Names): seq<string>
  {
    ["\n  " + names.fieldName(f), "  initializers:"] + OccLines(inits, names) + ["\n  readers:"] +
    (if readers.Some? then OccLines(readers.value, names) else [])
  }

  /** The field blocks of class cn, for the fields fs in turn. */
  function FieldBlocks(cn: int, fs: seq<int>, fields: Dict<int, Occurrences>, readerdict: ByIndex, names: Names): seq<string>
  {
    if fs == [] then []
    else
      var f := fs[|fs| - 1];
      FieldBlocks(cn, fs[..|fs| - 1], fields, readerdict, names) +
      FieldBlock(f, Get(fields, f, []), At2(readerdict, cn, f), names)
  }

  /** The lines of one class: a blank line, its name between two rules,
      then its fields in ascending order. */
  function ClassBlock(cn: int, fields: Dict<int, Occurrences>, readerdict: ByIndex, names: Names): seq<string>
  {
    ["\n", Dashes(80), names.className(cn), Dashes(80)] + FieldBlocks(cn, SortedKeys(fields), fields, readerdict, names)
  }

  function ClassBlocks(cs: seq<int>, initdict: ByIndex, readerdict: ByIndex, names: Names): seq<string>
  {
    if cs == [] then []
    else
      var cn := cs[|cs| - 1];
      ClassBlocks(cs[..|cs| - 1], initdict, readerdict, names) + ClassBlock(cn, Get(initdict, cn, []), readerdict, names)
  }

  lemma ClassBlocksSnoc(cs: seq<int>, k: nat, initdict: ByIndex, readerdict: ByIndex, names: Names)
    requires k < |cs|
    ensures ClassBlocks(cs[..k + 1], initdict, readerdict, names) ==
      ClassBlocks(cs[..k], initdict, readerdict, names) + ClassBlock(cs[k], Get(initdict, cs[k], []), readerdict, names)
  {
    assert cs[..k + 1][..k] == cs[..k];
  }

  /** The report's lines: the classes with initializers in ascending
      order. */
  function ReportLines(initdict: ByIndex, readerdict: ByIndex, names: Names): seq<string>
  {
    ClassBlocks(SortedKeys(initdict), initdict, readerdict, names)
  }

  /** A field block has one line per access, initializers and readers,
      besides its three headings; the readers heading follows the
      initializers, and nothing follows it when the field is not read. */
  lemma FieldBlockReaders(f: int, inits: Occurrences, readers: Option<Occurrences>, names: Names)
    ensures var b := FieldBlock(f, inits, readers, names);
      |b| == 3 + |inits| + (if readers.Some? then |readers.value| else 0) &&
      b[2 + |inits|] == "\n  readers:"
  {
  }

  lemma Assoc4<T>(a: seq<T>, b: seq<T>, c: seq<T>, d: seq<T>, e: seq<T>)
    ensures a + (((b + c) + d) + e) == (((a + b) + c) + d) + e
  {
  }

  /** Appends the lines of a list of occurrences. */
  method AppendOccurrences(lines: seq<string>, os: Occurrences, names: Names) returns (r: seq<string>)
    ensures r == lines + OccLines(os, names)
  {
    r := lines;
    for k := 0 to |os|
      invariant r == lines + OccLines(os[..k], names)
    {
      assert os[..k + 1][..k] == os[..k];
      var (cmsix, pc) := os[k];
      r := r + [RJust(IntToString(pc), 6) + "  " + names.methodName(cmsix)];
    }
    assert os[..|os|] == os;
  }

  /** The lines of one field. */
  method AppendField(lines: seq<string>, cn: int, f: int, fields: Dict<int, Occurrences>, readerdict: ByIndex, names: Names)
    returns (r: seq<string>)
    ensures r == lines + FieldBlock(f, Get(fields, f, []), At2(readerdict, cn, f), names)
  {
    var h := ["\n  " + names.fieldName(f), "  initializers:"];
    var occs := Get(fields, f, []);
    var inits := AppendOccurrences(lines + h, occs, names);
    r := inits + ["\n  readers:"];
    var readers := At2(readerdict, cn, f);
    var rest := [];
    if readers.Some? {
      rest := OccLines(readers.value, names);
      r := AppendOccurrences(r, readers.value, names);
    } else {
      assert r == r + rest;
    }
    Assoc4(lines, h, OccLines(occs, names), ["\n  readers:"], rest);
  }

  /** The loop over the fields of one class. */
  method AppendFields(lines: seq<string>, cn: int, fields: Dict<int, Occurrences>, readerdict: ByIndex, names: Names)
    returns (r: seq<string>)
    ensures r == lines + FieldBlocks(cn, SortedKeys(fields), fields, readerdict, names)
  {
    var fs := SortedKeys(fields);
    r := lines;
    for k := 0 to |fs|
      invariant r == lines + FieldBlocks(cn, fs[..k], fields, readerdict, names)
    {
      FieldBlocksSnoc(cn, fs, k, fields, readerdict, names);
      ghost var before := FieldBlocks(cn, fs[..k], fields, readerdict, names);
      ghost var block := FieldBlock(fs[k], Get(fields, fs[k], []), At2(readerdict, cn, fs[k]), names);
      r := AppendField(r, cn, fs[k], fields, readerdict, names);
      Assoc3(lines, before, block);
    }
    assert fs[..|fs|] == fs;
  }

  lemma FieldBlocksSnoc(cn: int, fs: seq<int>, k: nat, fields: Dict<int, Occurrences>, readerdict: ByIndex, names: Names)
    requires k < |fs|
    ensures FieldBlocks(cn, fs[..k + 1], fields, readerdict, names) ==
      FieldBlocks(cn, fs[..k], fields, readerdict, names) + FieldBlock(fs[k], Get(fields, fs[k], []), At2(readerdict, cn, fs[k]), names)
  {
    assert fs[..k + 1][..k] == fs[..k];
  }

  /** The lines of one class. */
  method AppendClass(lines: seq<string>, cn: int, initdict: ByIndex, readerdict: ByIndex, names: Names)
    returns (r: seq<string>)
    ensures r == lines + ClassBlock(cn, Get(initdict, cn, []), readerdict, names)
  {
    var head := lines + ["\n", Dashes(80), names.className(cn), Dashes(80)];
    r := AppendFields(head, cn, Get(initdict, cn, []), readerdict, names);
  }

  /** The loop over the classes of `to_string`. */
  method Report(initdict: ByIndex, readerdict: ByIndex, names: Names) returns (lines: seq<string>)
    ensures lines == ReportLines(initdict, readerdict, names)
  {
    var cs := SortedKeys(initdict);
    lines := [];
    for k := 0 to |cs|
      invariant lines == ClassBlocks(cs[..k], initdict, readerdict, names)
    {
      ClassBlocksSnoc(cs, k, initdict, readerdict, names);
      lines := AppendClass(lines, cs[k], initdict, readerdict, names);
    }
    assert cs[..|cs|] == cs;
  }

  /** `to_string`. */
  method ToString(initializers: seq<MethodAccesses>, readers: seq<MethodAccesses>, names: Names) returns (s: string)
    ensures s == Join("\n", ReportLines(Collected(Flatten(initializers)), Collected(Flatten(readers)), names))
  {
    var initdict := CollectByIndex(initializers);
    var readerdict := CollectByIndex(readers);
    var lines := Report(initdict, readerdict, names);
    return Join("\n", lines);
  }
}
