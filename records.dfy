/** Dictionary records: a record is an index with a list of tag strings and a
    list of integer arguments. The four record kinds of the library (type,
    term, call-graph and bytecode records) share this encoding: the key is the
    comma-joined tags and the comma-joined decimal arguments, and an XML node
    carries them in its `t`, `a` and `ix` attributes. An XML node is modelled
    by its attribute map. */
module Records {
  import opened Wrappers
  import opened Strings

  datatype Record = Record(index: int, tags: seq<string>, args: seq<int>)

  type Key = (string, string)

  type Attributes = map<string, string>

  /** An XML document reduced to what a dictionary's `initialize` reads: the
      `n` children of each table element, by element name. A missing name is
      a missing element. */
  type XmlTables = map<string, seq<Attributes>>

  /** Tags that survive the comma encoding: none contains ',' and the list is
      not the single empty tag (which prints like the empty list). */
  predicate EncodableTags(tags: seq<string>)
  {
    (forall i :: 0 <= i < |tags| ==> ',' !in tags[i]) && tags != [""]
  }

  /** The interning key of a record. */
  function GetKey(tags: seq<string>, args: seq<int>): (k: Key)
    ensures k.0 == "" <==> (tags == [] || tags == [""])
    ensures k.1 == "" <==> args == []
  {
    JoinEmpty(tags, ",");
    JoinEmpty(IntStrings(args), ",");
    (Join(",", tags), Join(",", IntStrings(args)))
  }

  lemma JoinEmpty(xs: seq<string>, sep: string)
    requires |sep| > 0
    ensures Join(sep, xs) == "" <==> (xs == [] || xs == [""])
  {
    if |xs| > 1 {
      assert |Join(sep, xs)| >= |sep|;
    }
  }

  /** The tag string of a record is empty exactly when it has no tags (or only
      the empty tag); its argument string is empty exactly when it has no args. */
  function KeyOf(r: Record): (k: Key)
    ensures k == GetKey(r.tags, r.args)
  {
    GetKey(r.tags, r.args)
  }

  /** A positional argument of a call to the base record initialiser, after
      `self`: the type dictionary, or the index, tags or args. */
  datatype InitArg = Dictionary | IndexArg(index: int) | TagsArg(tags: seq<string>) | ArgsArg(args: seq<int>)

  /** `JDictionaryRecord.__init__(self, tpd, index, tags, args)`: the
      arguments bind to `tpd`, `index`, `tags` and `args` in that order, and
      a call with any other number of them raises TypeError. The model keeps
      only a record whose last three arguments are of their kind. */
  function InitRecord(params: seq<InitArg>): (r: Result<Record>)
    ensures |params| != 4 ==> r.Err? && r.error.Failure?
    ensures |params| == 4 && params[1].IndexArg? && params[2].TagsArg? && params[3].ArgsArg? ==>
      r == Ok(Record(params[1].index, params[2].tags, params[3].args))
  {
    if |params| != 4 then Err(Failure("TypeError: __init__() missing 1 required positional argument: 'args'"))
    else match (params[1], params[2], params[3])
      case (IndexArg(index), TagsArg(tags), ArgsArg(args)) => Ok(Record(index, tags, args))
      case _ => Err(Failure("TypeError: arguments out of order"))
  }

  /** How the term, bytecode, call-graph target and type record bases pass
      their record up: index, tags and args, without the type dictionary. */
  function RecordInitAsWritten(rec: Record): (r: Result<Record>)
    ensures r.Err? && r.error.Failure?
  {
    InitRecord([IndexArg(rec.index), TagsArg(rec.tags), ArgsArg(rec.args)])
  }

  /** The call as evidently intended, with the type dictionary first: it
      keeps exactly the record it is given. */
  function RecordInit(rec: Record): (r: Result<Record>)
    ensures r == Ok(rec)
  {
    InitRecord([Dictionary, IndexArg(rec.index), TagsArg(rec.tags), ArgsArg(rec.args)])
  }

  /** `write_xml`: sets `t` only for a non-empty tag string, `a` only for a
      non-empty argument string, and always `ix`; other attributes of the
      node are kept. */
  function WriteXml(r: Record, node: Attributes): (n: Attributes)
    ensures "ix" in n && n["ix"] == IntToString(r.index)
    ensures "t" in n <==> ("t" in node || KeyOf(r).0 != "")
    ensures KeyOf(r).0 != "" ==> n["t"] == KeyOf(r).0
    ensures "a" in n <==> ("a" in node || r.args != [])
    ensures r.args != [] ==> n["a"] == KeyOf(r).1
    ensures forall k :: k in node && k != "t" && k != "a" && k != "ix" ==> k in n && n[k] == node[k]
    ensures n.Keys <= node.Keys + {"t", "a", "ix"}
  {
    var (tagstr, argstr) := GetKey(r.tags, r.args);
    var n1 := if |tagstr| > 0 then node["t" := tagstr] else node;
    var n2 := if |argstr| > 0 then n1["a" := argstr] else n1;
    n2["ix" := IntToString(r.index)]
  }

  /** `get_rep`: reads index, tags and args back from a node. A missing `t`
      gives no tags, a missing or empty `a` gives no args, a missing `ix`
      raises CHJError, and a piece that is not a number raises ValueError. */
  function GetRep(node: Attributes): (r: Result<Record>)
    ensures "ix" !in node ==> r.Err?
    ensures r.Ok? ==> Some(r.value.index) == ParseInt(node["ix"])
    ensures r.Ok? && "t" !in node ==> r.value.tags == []
    ensures r.Ok? && ("a" !in node || node["a"] == "") ==> r.value.args == []
  {
    var tags := if "t" in node then Split(node["t"], ',') else [];
    var args := if "a" !in node || node["a"] == "" then Some([]) else ParseInts(Split(node["a"], ','));
    if args.None? then Err(ValueError("invalid literal for int()"))
    else if "ix" !in node then Err(CHJError("ix missing from xml in IndexedTable construction"))
    else match ParseInt(node["ix"])
      case None => Err(ValueError("invalid literal for int()"))
      case Some(ix) => Ok(Record(ix, tags, args.value))
  }

  /** Writing a record to a fresh node and reading it back gives the same
      index, tags and args, provided the tags survive the comma encoding. */
  lemma RepRoundTrip(r: Record)
    requires EncodableTags(r.tags)
    ensures GetRep(WriteXml(r, map[])) == Ok(r)
  {
    var n := WriteXml(r, map[]);
    JoinEmpty(r.tags, ",");
    if r.tags != [] {
      SplitJoin(r.tags, ',');
    }
    if r.args != [] {
      IntStringsHaveNoComma(r.args);
      SplitJoin(IntStrings(r.args), ',');
      ParseIntStrings(r.args);
    }
    ParseIntToString(r.index);
  }

  /** Distinct encodable records have distinct keys: the key is an injective
      encoding of (tags, args). */
  lemma KeyInjective(t1: seq<string>, a1: seq<int>, t2: seq<string>, a2: seq<int>)
    requires EncodableTags(t1) && EncodableTags(t2)
    ensures GetKey(t1, a1) == GetKey(t2, a2) <==> t1 == t2 && a1 == a2
  {
    if GetKey(t1, a1) == GetKey(t2, a2) {
      var r1 := Record(0, t1, a1);
      var r2 := Record(0, t2, a2);
      RepRoundTrip(r1);
      RepRoundTrip(r2);
      assert WriteXml(r1, map[]) == WriteXml(r2, map[]);
    }
  }

  /** The `n` children of a table element decoded in order by a `get_value`;
      the first child that does not decode makes the result. */
  function DecodeAll<T>(nodes: seq<Attributes>, decode: Attributes -> Result<T>): (r: Result<seq<T>>)
    ensures r.Ok? ==> |r.value| == |nodes| && forall k :: 0 <= k < |nodes| ==> decode(nodes[k]) == Ok(r.value[k])
  {
    if nodes == [] then Ok([])
    else
      assert forall k :: 1 <= k < |nodes| ==> nodes[k] == nodes[1..][k - 1];
      match decode(nodes[0])
      case Err(e) => Err(e)
      case Ok(b) =>
        match DecodeAll(nodes[1..], decode)
        case Err(e) => Err(e)
        case Ok(bs) => Ok([b] + bs)
  }

  /** A failed decoding reports the error of the first child that fails, and
      every child before it decodes. */
  lemma {:induction false} DecodeAllFirstFailure<T>(nodes: seq<Attributes>, decode: Attributes -> Result<T>)
    requires DecodeAll(nodes, decode).Err?
    ensures exists k :: (0 <= k < |nodes| && decode(nodes[k]) == Err(DecodeAll(nodes, decode).error) &&
      forall l :: 0 <= l < k ==> decode(nodes[l]).Ok?)
  {
    if decode(nodes[0]).Err? {
      assert decode(nodes[0]) == Err(DecodeAll(nodes, decode).error);
    } else {
      DecodeAllFirstFailure(nodes[1..], decode);
      var k :| 0 <= k < |nodes| - 1 && decode(nodes[1..][k]) == Err(DecodeAll(nodes[1..], decode).error) &&
        forall l :: 0 <= l < k ==> decode(nodes[1..][l]).Ok?;
      assert nodes[k + 1] == nodes[1..][k];
      assert forall l :: 1 <= l < k + 1 ==> nodes[l] == nodes[1..][l - 1];
    }
  }

  /** A record class: its name and its direct superclass. */
  datatype RecordClass = RecordClass(name: string, base: string)

  /** A record built by the registry: the class chosen and the record data. */
  datatype Instance = Instance(cls: RecordClass, record: Record)

  /** The registry of the type, term and call-graph records, keyed by
      (direct superclass, tag). */
  class KeyedRegistry {
    var types: map<(string, string), RecordClass>

    constructor ()
      ensures types == map[]
    {
      types := map[];
    }

    /** The class decorator: registers the class under its direct
        superclass and the tag, and returns the class unchanged. */
    method Register(tag: string, cls: RecordClass) returns (r: RecordClass)
      modifies this
      ensures r == cls
      ensures types == old(types)[(cls.base, tag) := cls]
    {
      types := types[(cls.base, tag) := cls];
      r := cls;
    }

    /** Builds the registered class for (superclass, tags[0]) with the same
        index, tags and args; an unregistered pair raises "unknown type". */
    function Construct(index: int, tags: seq<string>, args: seq<int>, superclass: string): (r: Result<Instance>)
      reads this
      ensures r.Ok? <==> |tags| > 0 && (superclass, tags[0]) in types
      ensures r.Ok? ==> r.value.record == Record(index, tags, args)
      ensures r.Ok? ==> r.value.cls == types[(superclass, tags[0])]
      ensures |tags| > 0 && r.Err? ==> r.error == Failure("unknown type: " + tags[0])
    {
      if |tags| == 0 then Err(IndexError("list index out of range"))
      else if (superclass, tags[0]) !in types then Err(Failure("unknown type: " + tags[0]))
      else Ok(Instance(types[(superclass, tags[0])], Record(index, tags, args)))
    }
  }

  /** The bytecode registry, keyed by the tag alone. */
  class TagRegistry {
    var types: map<string, RecordClass>

    constructor ()
      ensures types == map[]
    {
      types := map[];
    }

    method Register(tag: string, cls: RecordClass) returns (r: RecordClass)
      modifies this
      ensures r == cls
      ensures types == old(types)[tag := cls]
    {
      types := types[tag := cls];
      r := cls;
    }

    function Construct(index: int, tags: seq<string>, args: seq<int>): (r: Result<Instance>)
      reads this
      ensures r.Ok? <==> |tags| > 0 && tags[0] in types
      ensures r.Ok? ==> r.value == Instance(types[tags[0]], Record(index, tags, args))
      ensures |tags| > 0 && r.Err? ==> r.error == Failure("unknown type: " + tags[0])
    {
      if |tags| == 0 then Err(IndexError("list index out of range"))
      else if tags[0] !in types then Err(Failure("unknown type: " + tags[0]))
      else Ok(Instance(types[tags[0]], Record(index, tags, args)))
    }

    /** `is_bytecode`: whether tags[0] is registered. */
    function IsBytecode(tags: seq<string>): (r: Result<bool>)
      reads this
      ensures r.Ok? <==> |tags| > 0
      ensures r.Ok? ==> (r.value <==> tags[0] in types)
    {
      if |tags| == 0 then Err(IndexError("list index out of range")) else Ok(tags[0] in types)
    }

    /** A record is a bytecode exactly when the registry can construct it. */
    lemma IsBytecodeIffConstructs(index: int, tags: seq<string>, args: seq<int>)
      ensures IsBytecode(tags) == Ok(true) <==> Construct(index, tags, args).Ok?
    {
    }
  }
}
