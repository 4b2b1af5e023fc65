/** The call-graph dictionary (chj/index/CallgraphDictionary.py): the four
    kinds of call targets built from target records, the classes each may
    dispatch to and which of those belong to the application, and the one
    indexed table of targets loaded from XML. */
module CallgraphDictionaries {
  import opened Wrappers
  import opened Strings
  import opened Records
  import opened IndexedTables

  /** A call target with the record it was built from. A non-virtual target
      also keeps the class index read from args[0] and the target type read
      from tags[1] when it is built. */
  datatype CallgraphTarget =
    | NonVirtualTarget(rec: Record, cnix: int, targettype: string)
    | ConstrainedVirtualTargets(rec: Record)
    | VirtualTargets(rec: Record)
    | EmptyTarget(rec: Record)
  {
    /** `cnixs`: the classes the call may dispatch to. */
    function Cnixs(): seq<int>
    {
      match this
      case NonVirtualTarget(_, c, _) => [c]
      case ConstrainedVirtualTargets(r) => r.args
      case VirtualTargets(r) => r.args
      case EmptyTarget(_) => []
    }

    /** `is_non_virtual_target`. */
    predicate IsNonVirtualTarget() { NonVirtualTarget? }

    /** `is_virtual_target`: both kinds of virtual targets answer true. */
    predicate IsVirtualTarget() { ConstrainedVirtualTargets? || VirtualTargets? }

    /** `has_application_targets`, given the indices of the application
        classes. Virtual targets do not override the base answer False. */
    predicate HasApplicationTargets(app: set<int>)
    {
      match this
      case NonVirtualTarget(_, c, _) => c in app
      case ConstrainedVirtualTargets(r) => exists k :: 0 <= k < |r.args| && r.args[k] in app
      case VirtualTargets(_) => false
      case EmptyTarget(_) => false
    }

    /** `get_application_targets`: the application classes among `cnixs`,
        in the order of `cnixs`; the empty target inherits []. */
    function ApplicationTargets(app: set<int>): (r: seq<int>)
      ensures forall x :: x in r <==> x in Cnixs() && x in app
      ensures r == AppFilter(Cnixs(), app)
    {
      match this
      case NonVirtualTarget(_, c, _) => if c in app then [c] else []
      case ConstrainedVirtualTargets(r) => AppFilter(r.args, app)
      case VirtualTargets(r) => AppFilter(r.args, app)
      case EmptyTarget(_) => []
    }

    /** `get_length` of the virtual targets: the number of classes. */
    function GetLength(): (n: nat)
      requires ConstrainedVirtualTargets? || VirtualTargets?
      ensures n == |Cnixs()|
    {
      |rec.args|
    }

    /** `is_interface` of an empty target: whether args[0] is 1; raises
        IndexError without args. */
    function IsInterface(): (r: Result<bool>)
      requires EmptyTarget?
      ensures r.Ok? <==> |rec.args| > 0
      ensures r.Ok? ==> (r.value <==> rec.args[0] == 1)
      ensures r.Err? ==> r.error.IndexError?
    {
      if |rec.args| == 0 then Err(IndexError("list index out of range")) else Ok(rec.args[0] == 1)
    }

    /** `get_cnix` of an empty target: args[1]. */
    function GetCnix(): (r: Result<int>)
      requires EmptyTarget?
      ensures r.Ok? <==> |rec.args| > 1
      ensures r.Ok? ==> r.value == rec.args[1]
      ensures r.Err? ==> r.error.IndexError?
    {
      if |rec.args| <= 1 then Err(IndexError("list index out of range")) else Ok(rec.args[1])
    }

    /** `get_msix` of an empty target: args[2]. */
    function GetMsix(): (r: Result<int>)
      requires EmptyTarget?
      ensures r.Ok? <==> |rec.args| > 2
      ensures r.Ok? ==> r.value == rec.args[2]
      ensures r.Err? ==> r.error.IndexError?
    {
      if |rec.args| <= 2 then Err(IndexError("list index out of range")) else Ok(rec.args[2])
    }

    /** `get_class_names` as the virtual targets write it: the call
        `self.cnixs()` applies a list, which raises TypeError. */
    function ClassNamesAsWritten(className: int -> string): (r: Result<seq<string>>)
      ensures VirtualTargets? ==> r.Err?
      ensures !VirtualTargets? ==> r == ClassNames(className)
    {
      if VirtualTargets? then Err(Failure("'list' object is not callable"))
      else ClassNames(className)
    }

    /** `get_class_names`, with the virtual targets naming their `cnixs`
        like the constrained ones: one name per class, in order; an empty
        target names the class at args[1]. */
    function ClassNames(className: int -> string): (r: Result<seq<string>>)
      ensures !EmptyTarget? ==> (r.Ok? && |r.value| == |Cnixs()| &&
        forall k :: 0 <= k < |Cnixs()| ==> r.value[k] == className(Cnixs()[k]))
      ensures EmptyTarget? ==> r.Ok? == GetCnix().Ok?
      ensures EmptyTarget? && r.Ok? ==> r.value == [className(GetCnix().value)]
    {
      if EmptyTarget? then
        match GetCnix()
        case Err(e) => Err(e)
        case Ok(c) => Ok([className(c)])
      else Ok(Names(Cnixs(), className))
    }

    /** `__str__`: the kind's prefix followed by the class names; a
        constrained target adds its tags[1] in parentheses, an empty target
        the printed method signature at args[2]. */
    function ToString(className: int -> string, signature: int -> string): (r: Result<string>)
      ensures NonVirtualTarget? ==> r == Ok("nv:" + className(cnix))
      ensures ConstrainedVirtualTargets? ==> (r.Ok? <==> |rec.tags| > 1)
      ensures ConstrainedVirtualTargets? && r.Ok? ==>
        r.value == "cv:" + Join("; ", Names(rec.args, className)) + " (" + rec.tags[1] + ")"
      ensures VirtualTargets? ==> r == Ok("v:" + Join(";", Names(rec.args, className)))
      ensures EmptyTarget? ==> (r.Ok? <==> |rec.args| > 2)
      ensures EmptyTarget? && r.Ok? ==> r.value == "empty:" + className(rec.args[1]) + signature(rec.args[2])
    {
      match this
      case NonVirtualTarget(_, c, _) => Ok("nv:" + className(c))
      case ConstrainedVirtualTargets(r) =>
        if |r.tags| <= 1 then Err(IndexError("list index out of range"))
        else Ok("cv:" + Join("; ", Names(r.args, className)) + " (" + r.tags[1] + ")")
      case VirtualTargets(r) => Ok("v:" + Join(";", Names(r.args, className)))
      case EmptyTarget(r) =>
        if |r.args| <= 2 then Err(IndexError("list index out of range"))
        else Ok("empty:" + className(r.args[1]) + signature(r.args[2]))
    }
  }

  /** The names of a list of classes, in order. */
  function Names(cnixs: seq<int>, className: int -> string): (r: seq<string>)
    ensures |r| == |cnixs|
    ensures forall k :: 0 <= k < |cnixs| ==> r[k] == className(cnixs[k])
  {
    if cnixs == [] then [] else [className(cnixs[0])] + Names(cnixs[1..], className)
  }

  /** `[cnix for cnix in cnixs if is_application_class(cnix)]`. */
  function AppFilter(cnixs: seq<int>, app: set<int>): (r: seq<int>)
    ensures forall x :: x in r <==> x in cnixs && x in app
    ensures |r| <= |cnixs|
  {
    if cnixs == [] then []
    else
      assert forall x :: x in cnixs <==> x == cnixs[0] || x in cnixs[1..];
      (if cnixs[0] in app then [cnixs[0]] else []) + AppFilter(cnixs[1..], app)
  }

  /** The filter distributes over concatenation, so it keeps the order of
      the classes it lets through. */
  lemma {:induction false} AppFilterConcat(xs: seq<int>, ys: seq<int>, app: set<int>)
    ensures AppFilter(xs + ys, app) == AppFilter(xs, app) + AppFilter(ys, app)
  {
    if xs != [] {
      AppFilterConcat(xs[1..], ys, app);
      assert (xs + ys)[0] == xs[0] && (xs + ys)[1..] == xs[1..] + ys;
      var h := if xs[0] in app then [xs[0]] else [];
      assert AppFilter(xs + ys, app) == h + AppFilter((xs + ys)[1..], app);
      assert AppFilter(xs + ys, app) == h + (AppFilter(xs[1..], app) + AppFilter(ys, app));
      assert AppFilter(xs, app) == h + AppFilter(xs[1..], app);
    } else {
      assert xs + ys == ys;
    }
  }

  /** The filter keeps a list unchanged exactly when every class in it is
      an application class. */
  lemma AppFilterAll(xs: seq<int>, app: set<int>)
    ensures AppFilter(xs, app) == xs <==> forall k :: 0 <= k < |xs| ==> xs[k] in app
  {
    if AppFilter(xs, app) == xs {
      AppFilterKeepsOnlyApp(xs, app);
    }
    if forall k :: 0 <= k < |xs| ==> xs[k] in app {
      AppFilterKeepsApp(xs, app);
    }
  }

  /** A list of application classes passes the filter unchanged. */
  lemma {:induction false} AppFilterKeepsApp(xs: seq<int>, app: set<int>)
    requires forall k :: 0 <= k < |xs| ==> xs[k] in app
    ensures AppFilter(xs, app) == xs
  {
    if xs != [] {
      var t := xs[1..];
      assert forall k :: 0 <= k < |t| ==> t[k] == xs[k + 1];
      AppFilterKeepsApp(t, app);
      assert xs == [xs[0]] + t;
    }
  }

  /** A list the filter leaves unchanged holds only application classes. */
  lemma {:induction false} AppFilterKeepsOnlyApp(xs: seq<int>, app: set<int>)
    requires AppFilter(xs, app) == xs
    ensures forall k :: 0 <= k < |xs| ==> xs[k] in app
  {
    if xs != [] {
      var t := xs[1..];
      assert xs[0] in AppFilter(xs, app);
      assert AppFilter(xs, app) == [xs[0]] + AppFilter(t, app);
      assert AppFilter(t, app) == AppFilter(xs, app)[1..] == t;
      AppFilterKeepsOnlyApp(t, app);
      assert forall k :: 1 <= k < |xs| ==> xs[k] == t[k - 1];
    }
  }

  /** For every target except the virtual ones, `has_application_targets`
      holds exactly when `get_application_targets` is not empty. */
  lemma HasApplicationTargetsIff(t: CallgraphTarget, app: set<int>)
    requires !t.VirtualTargets?
    ensures t.HasApplicationTargets(app) <==> t.ApplicationTargets(app) != []
  {
    if t.ConstrainedVirtualTargets? {
      if t.HasApplicationTargets(app) {
        var k :| 0 <= k < |t.rec.args| && t.rec.args[k] in app;
        assert t.rec.args[k] in t.ApplicationTargets(app);
      }
      if t.ApplicationTargets(app) != [] {
        var x := t.ApplicationTargets(app)[0];
        assert x in t.rec.args && x in app;
        var k :| 0 <= k < |t.rec.args| && t.rec.args[k] == x;
      }
    }
  }

  /** Virtual targets answer False to `has_application_targets` even when
      `get_application_targets` lists classes. */
  lemma VirtualTargetsHideApplicationTargets(rec: Record, app: set<int>)
    requires exists k :: 0 <= k < |rec.args| && rec.args[k] in app
    ensures !VirtualTargets(rec).HasApplicationTargets(app)
    ensures VirtualTargets(rec).ApplicationTargets(app) != []
  {
    var k :| 0 <= k < |rec.args| && rec.args[k] in app;
    assert rec.args[k] in VirtualTargets(rec).ApplicationTargets(app);
  }

  /** The tag `method_target_constructors` files each kind under. */
  function KindTag(t: CallgraphTarget): string
  {
    match t
    case NonVirtualTarget(_, _, _) => "nv"
    case ConstrainedVirtualTargets(_) => "cv"
    case VirtualTargets(_) => "v"
    case EmptyTarget(_) => "empty"
  }

  /** The constructor chosen by tags[0] applied to the record: raises
      IndexError without tags, KeyError for a tag other than nv, cv, v and
      empty, and IndexError for a non-virtual record without args[0] or
      tags[1]. */
  function ConstructTarget(rec: Record): (r: Result<CallgraphTarget>)
    ensures |rec.tags| == 0 ==> r.Err? && r.error.IndexError?
    ensures |rec.tags| > 0 && rec.tags[0] != "nv" && rec.tags[0] != "cv" && rec.tags[0] != "v" && rec.tags[0] != "empty" ==>
      r.Err? && r.error.KeyError?
    ensures |rec.tags| > 0 && (rec.tags[0] == "cv" || rec.tags[0] == "v" || rec.tags[0] == "empty") ==> r.Ok?
    ensures |rec.tags| > 0 && rec.tags[0] == "nv" ==> (r.Ok? <==> |rec.args| > 0 && |rec.tags| > 1)
    ensures r.Ok? ==> r.value.rec == rec && KindTag(r.value) == rec.tags[0]
    ensures r.Ok? && r.value.NonVirtualTarget? ==> r.value.cnix == rec.args[0] && r.value.targettype == rec.tags[1]
  {
    if |rec.tags| == 0 then Err(IndexError("list index out of range"))
    else
      var base := RecordInit(rec).value;
      match rec.tags[0]
      case "nv" =>
        if |base.args| == 0 || |base.tags| <= 1 then Err(IndexError("list index out of range"))
        else Ok(NonVirtualTarget(base, base.args[0], base.tags[1]))
      case "cv" => Ok(ConstrainedVirtualTargets(base))
      case "v" => Ok(VirtualTargets(base))
      case "empty" => Ok(EmptyTarget(base))
      case _ => Err(KeyError(rec.tags[0]))
  }

  /** The constructor as written: the base passes the record up without
      the dictionary, so once the tag has chosen a constructor the
      construction raises TypeError, before a non-virtual target reads its
      class index or target type. */
  function ConstructTargetAsWritten(rec: Record): (r: Result<CallgraphTarget>)
    ensures r.Err?
    ensures |rec.tags| == 0 ==> r.error.IndexError?
    ensures |rec.tags| > 0 && rec.tags[0] in {"nv", "cv", "v", "empty"} ==> r.error.Failure?
    ensures |rec.tags| > 0 && rec.tags[0] !in {"nv", "cv", "v", "empty"} ==> r.error.KeyError?
  {
    if |rec.tags| == 0 then Err(IndexError("list index out of range"))
    else if rec.tags[0] !in {"nv", "cv", "v", "empty"} then Err(KeyError(rec.tags[0]))
    else Err(RecordInitAsWritten(rec).error)
  }

  /** The `get_value` of the target table: `get_rep`, then the constructor. */
  function DecodeTarget(node: Attributes): (r: Result<CallgraphTarget>)
    ensures GetRep(node).Err? ==> r == Err(GetRep(node).error)
    ensures r.Ok? ==> GetRep(node) == Ok(r.value.rec) && ConstructTarget(r.value.rec) == r
  {
    match GetRep(node)
    case Err(e) => Err(e)
    case Ok(rec) => ConstructTarget(rec)
  }

  /** A target is stored under the key and index of its record. */
  function TargetKey(t: CallgraphTarget): Key { KeyOf(t.rec) }

  function TargetIndex(t: CallgraphTarget): int { t.rec.index }

  const TargetTableName := "target-table"

  /** A table that holds exactly what a load of `ts` into an empty table
      leaves, with nothing reserved and no checkpoint. */
  ghost predicate LoadedWith(t: IndexedTable<CallgraphTarget>, ts: seq<CallgraphTarget>)
    reads t
  {
    t.Valid() && t.reserved == [] && t.checkpoint == None &&
    t.indextable == LoadedObjects(ts, TargetIndex) &&
    t.keytable == LoadedKeys(ts, TargetKey, TargetIndex)
  }

  class CallgraphDictionary {
    const targetTable: IndexedTable<CallgraphTarget>

    /** The empty dictionary; the library's constructor then calls `initialize`. */
    constructor ()
      ensures targetTable.name == TargetTableName && targetTable.IsEmpty() && targetTable.Valid()
    {
      var t := NewTable<CallgraphTarget>(TargetTableName);
      t.EmptyIsValid();
      targetTable := t;
    }

    /** `initialize`: nothing for a missing document; otherwise the target
        table is reset and read from its element. A missing element raises
        IndexedTableError after the reset; a record that does not decode
        raises its own error. */
    method Initialize(xnode: Option<XmlTables>) returns (r: Result<()>)
      requires targetTable.name == TargetTableName
      modifies targetTable
      ensures xnode.None? ==> r.Ok? && unchanged(targetTable)
      ensures xnode.Some? ==> targetTable.Valid()
      ensures xnode.Some? && TargetTableName !in xnode.value ==>
        r == Err(IndexedTableError(TargetTableName)) && targetTable.IsEmpty()
      ensures xnode.Some? && TargetTableName in xnode.value ==>
        (r.Ok? <==> DecodeAll(xnode.value[TargetTableName], DecodeTarget).Ok?)
      ensures xnode.Some? && TargetTableName in xnode.value && r.Err? ==>
        r.error == DecodeAll(xnode.value[TargetTableName], DecodeTarget).error
      ensures xnode.Some? && r.Ok? ==>
        LoadedWith(targetTable, DecodeAll(xnode.value[TargetTableName], DecodeTarget).value)
    {
      r := Ok(());
      if xnode.None? {
        return;
      }
      targetTable.Reset();
      if TargetTableName !in xnode.value {
        r := targetTable.ReadXml(None, TargetKey, TargetIndex);
        return;
      }
      var decoded := DecodeAll(xnode.value[TargetTableName], DecodeTarget);
      if decoded.Err? {
        return Err(decoded.error);
      }
      var _ := targetTable.ReadXml(Some(decoded.value), TargetKey, TargetIndex);
      EmptyUnion(LoadedObjects(decoded.value, TargetIndex));
      EmptyUnion(LoadedKeys(decoded.value, TargetKey, TargetIndex));
    }

    /** Every stored target sits under its own index and was built from a
        record by the constructor its tag selects. */
    lemma LoadedTargetsAreConstructed(nodes: seq<Attributes>)
      requires DecodeAll(nodes, DecodeTarget).Ok?
      requires LoadedWith(targetTable, DecodeAll(nodes, DecodeTarget).value)
      ensures forall i :: i in targetTable.indextable ==>
        targetTable.indextable[i].rec.index == i &&
        ConstructTarget(targetTable.indextable[i].rec) == Ok(targetTable.indextable[i])
    {
      var ts := DecodeAll(nodes, DecodeTarget).value;
      LoadedObjectsFacts(ts, TargetIndex);
      forall i | i in targetTable.indextable
        ensures ConstructTarget(targetTable.indextable[i].rec) == Ok(targetTable.indextable[i])
      {
        var k :| 0 <= k < |ts| && ts[k] == targetTable.indextable[i];
        assert DecodeTarget(nodes[k]) == Ok(ts[k]);
      }
    }

    /** `get_target`: `retrieve` on the target table. */
    method GetTarget(ix: int) returns (r: Result<CallgraphTarget>)
      ensures r.Ok? <==> ix in targetTable.indextable
      ensures r.Ok? ==> r.value == targetTable.indextable[ix]
      ensures r.Err? ==> r.error.IndexedTableError?
    {
      r := targetTable.Retrieve(ix);
    }

    /** `read_xml_target`: the target whose index is the `itgt` attribute;
        a missing attribute fails (int of None) and so does one that is not
        a number. */
    method ReadXmlTarget(node: Attributes) returns (r: Result<CallgraphTarget>)
      ensures "itgt" !in node ==> r.Err?
      ensures "itgt" in node && ParseInt(node["itgt"]).None? ==> r.Err? && r.error.ValueError?
      ensures "itgt" in node && ParseInt(node["itgt"]).Some? ==>
        (r.Ok? <==> ParseInt(node["itgt"]).value in targetTable.indextable)
      ensures r.Ok? ==> ("itgt" in node && ParseInt(node["itgt"]).Some? &&
        r.value == targetTable.indextable[ParseInt(node["itgt"]).value])
    {
      if "itgt" !in node {
        return Err(Failure("int() argument must be a string, not 'NoneType'"));
      }
      var ix := ParseInt(node["itgt"]);
      if ix.None? {
        return Err(ValueError("invalid literal for int()"));
      }
      r := GetTarget(ix.value);
    }
  }
}
