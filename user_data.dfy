/** User annotations of a class (chj/userdata/UserDataClass.py): per method,
    restrictions on the targets of calls and bounds on loops, read from and
    written to the class's user-data XML. */
module UserData {
  import opened Wrappers
  import opened Strings
  import opened Dicts
  import opened XmlUtil

  /** A loop bound: a number (`it`) or a symbolic expression (`itc`). */
  datatype Bound = It(n: int) | Itc(s: string)

  /** The state of one method's user data: callee restrictions by pc, and
      numeric and symbolic loop bounds by the pc of the loop. */
  datatype MethodData = MethodData(
    name: string, sig: string,
    restrictions: Dict<int, string>, numeric: Dict<int, int>, symbolic: Dict<int, string>)

  predicate WellFormed(d: MethodData)
  {
    KeysDistinct(d.restrictions) && KeysDistinct(d.numeric) && KeysDistinct(d.symbolic)
  }

  /** A method with no annotations yet. */
  function NoData(name: string, sig: string): (d: MethodData)
    ensures WellFormed(d)
  {
    MethodData(name, sig, [], [], [])
  }

  /** `add_bound` on values: a numeric bound goes to the numeric bounds, a
      symbolic one to the symbolic bounds. */
  function WithBound(d: MethodData, pc: int, b: Bound): (r: MethodData)
  {
    match b
    case It(n) => d.(numeric := Put(d.numeric, pc, n))
    case Itc(x) => d.(symbolic := Put(d.symbolic, pc, x))
  }

  // ---------------------------------------------------------------------
  // The XML written by write_xml

  function CalleeElement(pc: int, tgt: string): (e: Element)
  {
    Element("callee", [("pc", IntToString(pc)), ("kind", "restrict"), ("class", tgt)], None, [])
  }

  function NumericElement(pc: int, n: int): (e: Element)
  {
    Element("loop", [("pc", IntToString(pc)), ("it", IntToString(n))], None, [])
  }

  function SymbolicElement(pc: int, x: string): (e: Element)
  {
    Element("loop", [("pc", IntToString(pc)), ("itc", x)], None, [])
  }

  /** One `callee` element per restriction, in the dictionary's order. */
  function CalleeElements(rs: Dict<int, string>): (es: seq<Element>)
    ensures |es| == |rs|
  {
    if rs == [] then [] else [CalleeElement(rs[0].0, rs[0].1)] + CalleeElements(rs[1..])
  }

  function NumericElements(bs: Dict<int, int>): (es: seq<Element>)
    ensures |es| == |bs|
  {
    if bs == [] then [] else [NumericElement(bs[0].0, bs[0].1)] + NumericElements(bs[1..])
  }

  function SymbolicElements(bs: Dict<int, string>): (es: seq<Element>)
    ensures |es| == |bs|
  {
    if bs == [] then [] else [SymbolicElement(bs[0].0, bs[0].1)] + SymbolicElements(bs[1..])
  }

  /** `UserDataMethod.write_xml` on a method element: the name and
      signature set, then a `callees` and a `bounds` child appended; the
      numeric bounds come before the symbolic ones. */
  function WrittenMethod(mnode: Element, d: MethodData): (e: Element)
  {
    MethodElement(mnode, d.name, d.sig, CalleeElements(d.restrictions),
                  NumericElements(d.numeric) + SymbolicElements(d.symbolic))
  }

  function MethodElement(mnode: Element, name: string, sig: string, callees: seq<Element>, loops: seq<Element>): (e: Element)
  {
    Element(mnode.tag, Put(Put(mnode.attrib, "name", name), "sig", sig), mnode.text,
      mnode.children + [Element("callees", [], None, callees), Element("bounds", [], None, loops)])
  }

  /** One `method` element per method, in the dictionary's order. */
  function MethodElements(ms: Dict<int, MethodData>): (es: seq<Element>)
    ensures |es| == |ms|
  {
    if ms == [] then [] else [WrittenMethod(NewElement("method"), ms[0].1)] + MethodElements(ms[1..])
  }

  lemma {:induction false} CalleeElementsAppend(a: Dict<int, string>, b: Dict<int, string>)
    ensures CalleeElements(a + b) == CalleeElements(a) + CalleeElements(b)
  {
    if a != [] {
      assert (a + b)[1..] == a[1..] + b;
      CalleeElementsAppend(a[1..], b);
    } else {
      assert a + b == b;
    }
  }

  lemma {:induction false} NumericElementsAppend(a: Dict<int, int>, b: Dict<int, int>)
    ensures NumericElements(a + b) == NumericElements(a) + NumericElements(b)
  {
    if a != [] {
      assert (a + b)[1..] == a[1..] + b;
      NumericElementsAppend(a[1..], b);
    } else {
      assert a + b == b;
    }
  }

  lemma {:induction false} SymbolicElementsAppend(a: Dict<int, string>, b: Dict<int, string>)
    ensures SymbolicElements(a + b) == SymbolicElements(a) + SymbolicElements(b)
  {
    if a != [] {
      assert (a + b)[1..] == a[1..] + b;
      SymbolicElementsAppend(a[1..], b);
    } else {
      assert a + b == b;
    }
  }

  lemma {:induction false} MethodElementsAppend(a: Dict<int, MethodData>, b: Dict<int, MethodData>)
    ensures MethodElements(a + b) == MethodElements(a) + MethodElements(b)
  {
    if a != [] {
      assert (a + b)[1..] == a[1..] + b;
      MethodElementsAppend(a[1..], b);
    } else {
      assert a + b == b;
    }
  }

  lemma ElementsSnoc(ms: Dict<int, MethodData>, i: int)
    requires 0 <= i < |ms|
    ensures MethodElements(ms[..i + 1]) == MethodElements(ms[..i]) + [WrittenMethod(NewElement("method"), ms[i].1)]
  {
    assert ms[..i + 1] == ms[..i] + [ms[i]];
    MethodElementsAppend(ms[..i], [ms[i]]);
  }

  /** All written callee elements are found as `callee` children. */
  lemma {:induction false} CalleesTagged(rs: Dict<int, string>)
    ensures AllTagged(CalleeElements(rs), "callee") == CalleeElements(rs)
  {
    if rs != [] {
      CalleesTagged(rs[1..]);
    }
  }

  /** All written bound elements are found as `loop` children. */
  lemma {:induction false} NumericTagged(bs: Dict<int, int>)
    ensures AllTagged(NumericElements(bs), "loop") == NumericElements(bs)
  {
    if bs != [] {
      NumericTagged(bs[1..]);
    }
  }

  lemma {:induction false} SymbolicTagged(bs: Dict<int, string>)
    ensures AllTagged(SymbolicElements(bs), "loop") == SymbolicElements(bs)
  {
    if bs != [] {
      SymbolicTagged(bs[1..]);
    }
  }

  lemma {:induction false} MethodsTagged(ms: Dict<int, MethodData>)
    ensures AllTagged(MethodElements(ms), "method") == MethodElements(ms)
  {
    if ms != [] {
      MethodsTagged(ms[1..]);
    }
  }

  /** `UserDataClass.write_xml` on a class element: name and package set,
      then a `methods` child holding the methods. */
  function WrittenClass(cnode: Element, name: string, package: string, ms: Dict<int, MethodData>): (e: Element)
  {
    ClassElement(cnode, name, package, MethodElements(ms))
  }

  function ClassElement(cnode: Element, name: string, package: string, methods: seq<Element>): (e: Element)
  {
    Element(cnode.tag, Put(Put(cnode.attrib, "name", name), "package", package), cnode.text,
      cnode.children + [Element("methods", [], None, methods)])
  }

  // ---------------------------------------------------------------------
  // Reading, as _initialize and _initialize_method do

  /** `int(node.get('pc'))`: fails when the attribute is missing or is not
      a number. */
  function ReadPc(node: Element): (r: Result<int>)
  {
    match Lookup(node.attrib, "pc")
    case None => Err(Failure("int() argument must be a string, not 'NoneType'"))
    case Some(t) =>
      match ParseInt(t)
      case None => Err(ValueError("invalid literal for int(): " + t))
      case Some(pc) => Ok(pc)
  }

  /** One `callee` element: a restriction of kind 'restrict' is entered;
      an element of another kind is skipped. */
  function CalleeStep(c: Element, d: MethodData): (r: Result<MethodData>)
  {
    if Lookup(c.attrib, "kind") != Some("restrict") then Ok(d)
    else match ReadPc(c)
      case Err(e) => Err(e)
      case Ok(pc) =>
        match Lookup(c.attrib, "class")
        case None => Err(KeyError("class"))
        case Some(tgt) => Ok(d.(restrictions := Put(d.restrictions, pc, tgt)))
  }

  /** The `callee` elements in turn. */
  function ReadCallees(cs: seq<Element>, d: MethodData): (r: Result<MethodData>)
  {
    if cs == [] then Ok(d)
    else match CalleeStep(cs[0], d)
      case Err(e) => Err(e)
      case Ok(d') => ReadCallees(cs[1..], d')
  }

  /** The bound a `loop` element carries: `it` (an integer) is looked at
      before `itc`; with neither the program stops. */
  function ReadBound(node: Element): (r: Result<Bound>)
  {
    match Lookup(node.attrib, "it")
    case Some(t) =>
      (match ParseInt(t)
       case None => Err(ValueError("invalid literal for int(): " + t))
       case Some(n) => Ok(It(n)))
    case None =>
      match Lookup(node.attrib, "itc")
      case Some(x) => Ok(Itc(x))
      case None => Err(Failure("Error in reading bounds: no boundtype found"))
  }

  /** One `loop` element: its pc is read before its bound. */
  function BoundStep(l: Element, d: MethodData): (r: Result<MethodData>)
  {
    match ReadPc(l)
    case Err(e) => Err(e)
    case Ok(pc) =>
      match ReadBound(l)
      case Err(e) => Err(e)
      case Ok(b) => Ok(WithBound(d, pc, b))
  }

  /** The `loop` elements in turn. */
  function ReadBounds(ls: seq<Element>, d: MethodData): (r: Result<MethodData>)
  {
    if ls == [] then Ok(d)
    else match BoundStep(ls[0], d)
      case Err(e) => Err(e)
      case Ok(d') => ReadBounds(ls[1..], d')
  }

  /** `_initialize_method`: the callees, then the bounds, of a method
      element, entered into d. */
  function ReadMethod(mnode: Element, d: MethodData): (r: Result<MethodData>)
  {
    var afterCallees :=
      match Find(mnode, "callees")
      case None => Ok(d)
      case Some(cc) => ReadCallees(FindAll(cc, "callee"), d);
    match afterCallees
    case Err(e) => Err(e)
    case Ok(d1) =>
      match Find(mnode, "bounds")
      case None => Ok(d1)
      case Some(bb) => ReadBounds(FindAll(bb, "loop"), d1)
  }

  /** The name and signature of a method element. */
  function MethodHeader(mnode: Element): (r: Result<(string, string)>)
  {
    match (Lookup(mnode.attrib, "name"), Lookup(mnode.attrib, "sig"))
    case (Some(n), Some(g)) => Ok((n, g))
    case _ => Err(KeyError("method without name or sig"))
  }

  /** One method element, read into a fresh method stored under the index
      `getMsix` gives its name and signature. */
  function MethodStep(mnode: Element, getMsix: (string, string) -> int, acc: Dict<int, MethodData>): (r: Result<Dict<int, MethodData>>)
  {
    match MethodHeader(mnode)
    case Err(e) => Err(e)
    case Ok((n, g)) =>
      match ReadMethod(mnode, NoData(n, g))
      case Err(e) => Err(e)
      case Ok(md) => Ok(Put(acc, getMsix(n, g), md))
  }

  /** The method elements in turn. */
  function ReadMethods(ns: seq<Element>, getMsix: (string, string) -> int, acc: Dict<int, MethodData>): (r: Result<Dict<int, MethodData>>)
  {
    if ns == [] then Ok(acc)
    else match MethodStep(ns[0], getMsix, acc)
      case Err(e) => Err(e)
      case Ok(acc') => ReadMethods(ns[1..], getMsix, acc')
  }

  /** `_initialize`: the methods under the `methods` child. */
  function ReadClass(xnode: Element, getMsix: (string, string) -> int): (r: Result<Dict<int, MethodData>>)
  {
    match Find(xnode, "methods")
    case None => Err(Failure("'NoneType' object has no attribute 'findall'"))
    case Some(mm) => ReadMethods(FindAll(mm, "method"), getMsix, [])
  }

  // ---------------------------------------------------------------------
  // The round trip

  /** A written callee element is read back as its restriction; a new pc
      is entered at the end. */
  lemma CalleeStepWritten(pc: int, tgt: string, d: MethodData)
    requires Lookup(d.restrictions, pc).None?
    ensures CalleeStep(CalleeElement(pc, tgt), d) == Ok(d.(restrictions := d.restrictions + [(pc, tgt)]))
  {
    CalleeElementRead(pc, tgt);
    PutAbsent(d.restrictions, pc, tgt);
  }

  lemma CalleeElementRead(pc: int, tgt: string)
    ensures Lookup(CalleeElement(pc, tgt).attrib, "kind") == Some("restrict")
    ensures Lookup(CalleeElement(pc, tgt).attrib, "class") == Some(tgt)
    ensures ReadPc(CalleeElement(pc, tgt)) == Ok(pc)
  {
    var a := CalleeElement(pc, tgt).attrib;
    assert a[1..] == [("kind", "restrict"), ("class", tgt)];
    assert a[2..] == [("class", tgt)];
    ParseIntToString(pc);
  }

  lemma NumericStepWritten(pc: int, n: int, d: MethodData)
    requires Lookup(d.numeric, pc).None?
    ensures BoundStep(NumericElement(pc, n), d) == Ok(d.(numeric := d.numeric + [(pc, n)]))
  {
    NumericElementRead(pc, n);
    PutAbsent(d.numeric, pc, n);
  }

  lemma NumericElementRead(pc: int, n: int)
    ensures ReadPc(NumericElement(pc, n)) == Ok(pc)
    ensures ReadBound(NumericElement(pc, n)) == Ok(It(n))
  {
    var a := NumericElement(pc, n).attrib;
    assert a[0].0 != "it" && a[1].0 == "it";
    assert a[1..] == [("it", IntToString(n))];
    ParseIntToString(pc);
    ParseIntToString(n);
  }

  lemma SymbolicStepWritten(pc: int, x: string, d: MethodData)
    requires Lookup(d.symbolic, pc).None?
    ensures BoundStep(SymbolicElement(pc, x), d) == Ok(d.(symbolic := d.symbolic + [(pc, x)]))
  {
    SymbolicElementRead(pc, x);
    PutAbsent(d.symbolic, pc, x);
  }

  lemma SymbolicElementRead(pc: int, x: string)
    ensures ReadPc(SymbolicElement(pc, x)) == Ok(pc)
    ensures ReadBound(SymbolicElement(pc, x)) == Ok(Itc(x))
  {
    var a := SymbolicElement(pc, x).attrib;
    assert a[0].0 != "it" && a[1].0 != "it";
    assert a[0].0 != "itc" && a[1].0 == "itc";
    assert a[1..] == [("itc", x)] && a[1..][1..] == [];
    ParseIntToString(pc);
  }

  /** `(a + [b[0]]) + b[1..]` is `a + b`, keys and all. */
  lemma ShiftFirst<V>(a: Dict<int, V>, b: Dict<int, V>)
    requires b != []
    ensures (a + [b[0]]) + b[1..] == a + b
  {
  }

  /** Reading the callee elements written for some restrictions enters
      them after those already present. */
  lemma {:induction false} ReadCalleesWritten(rs: Dict<int, string>, d: MethodData)
    requires KeysDistinct(d.restrictions + rs)
    ensures ReadCallees(CalleeElements(rs), d) == Ok(d.(restrictions := d.restrictions + rs))
  {
    if rs != [] {
      DistinctNextAbsent(d.restrictions, rs);
      CalleeStepWritten(rs[0].0, rs[0].1, d);
      ShiftFirst(d.restrictions, rs);
      ReadCalleesWritten(rs[1..], d.(restrictions := d.restrictions + [rs[0]]));
    } else {
      assert d.restrictions + rs == d.restrictions;
    }
  }

  /** Reading loop elements: the first one, then the rest. */
  lemma ReadBoundsCons(l: Element, rest: seq<Element>, d: MethodData, d': MethodData)
    requires BoundStep(l, d) == Ok(d')
    ensures ReadBounds([l] + rest, d) == ReadBounds(rest, d')
  {
    assert ([l] + rest)[0] == l;
    assert ([l] + rest)[1..] == rest;
  }

  /** Reading the loop elements written for numeric bounds enters them,
      then goes on with what follows. */
  lemma {:induction false} ReadNumericWritten(bs: Dict<int, int>, rest: seq<Element>, d: MethodData)
    requires KeysDistinct(d.numeric + bs)
    ensures ReadBounds(NumericElements(bs) + rest, d) == ReadBounds(rest, d.(numeric := d.numeric + bs))
  {
    if bs != [] {
      var tail := NumericElements(bs[1..]) + rest;
      assert NumericElements(bs) + rest == [NumericElement(bs[0].0, bs[0].1)] + tail;
      DistinctNextAbsent(d.numeric, bs);
      NumericStepWritten(bs[0].0, bs[0].1, d);
      var d' := d.(numeric := d.numeric + [bs[0]]);
      ReadBoundsCons(NumericElement(bs[0].0, bs[0].1), tail, d, d');
      ShiftFirst(d.numeric, bs);
      ReadNumericWritten(bs[1..], rest, d');
    } else {
      assert d.numeric + bs == d.numeric;
      assert NumericElements(bs) + rest == rest;
    }
  }

  lemma {:induction false} ReadSymbolicWritten(bs: Dict<int, string>, d: MethodData)
    requires KeysDistinct(d.symbolic + bs)
    ensures ReadBounds(SymbolicElements(bs), d) == Ok(d.(symbolic := d.symbolic + bs))
  {
    if bs != [] {
      DistinctNextAbsent(d.symbolic, bs);
      SymbolicStepWritten(bs[0].0, bs[0].1, d);
      ShiftFirst(d.symbolic, bs);
      ReadSymbolicWritten(bs[1..], d.(symbolic := d.symbolic + [bs[0]]));
    } else {
      assert d.symbolic + bs == d.symbolic;
    }
  }

  /** The `callees` and `bounds` children of a written method element. */
  lemma WrittenMethodChildren(d: MethodData, cc: Element, bb: Element)
    requires cc == Element("callees", [], None, CalleeElements(d.restrictions))
    requires bb == Element("bounds", [], None, NumericElements(d.numeric) + SymbolicElements(d.symbolic))
    ensures Find(WrittenMethod(NewElement("method"), d), "callees") == Some(cc)
    ensures Find(WrittenMethod(NewElement("method"), d), "bounds") == Some(bb)
  {
    FindPair(WrittenMethod(NewElement("method"), d), cc, bb);
  }

  /** Reading a method element with a `callees` and a `bounds` child. */
  lemma ReadMethodOf(mnode: Element, cc: Element, bb: Element, d: MethodData)
    requires Find(mnode, "callees") == Some(cc) && Find(mnode, "bounds") == Some(bb)
    ensures ReadMethod(mnode, d) ==
      match ReadCallees(FindAll(cc, "callee"), d)
      case Err(e) => Err(e)
      case Ok(d1) => ReadBounds(FindAll(bb, "loop"), d1)
  {
  }

  /** The written callee elements restore the restrictions. */
  lemma CalleesRestored(d: MethodData, cc: Element)
    requires KeysDistinct(d.restrictions)
    requires cc == Element("callees", [], None, CalleeElements(d.restrictions))
    ensures ReadCallees(FindAll(cc, "callee"), NoData(d.name, d.sig)) == Ok(NoData(d.name, d.sig).(restrictions := d.restrictions))
  {
    CalleesTagged(d.restrictions);
    var d0 := NoData(d.name, d.sig);
    assert d0.restrictions + d.restrictions == d.restrictions;
    ReadCalleesWritten(d.restrictions, d0);
  }

  /** All written bound elements are found as `loop` children. */
  lemma LoopsFound(d: MethodData, bb: Element)
    requires bb == Element("bounds", [], None, NumericElements(d.numeric) + SymbolicElements(d.symbolic))
    ensures FindAll(bb, "loop") == NumericElements(d.numeric) + SymbolicElements(d.symbolic)
  {
    NumericTagged(d.numeric);
    SymbolicTagged(d.symbolic);
    AllTaggedAppend(NumericElements(d.numeric), SymbolicElements(d.symbolic), "loop");
  }

  /** The written loop elements restore the numeric, then the symbolic,
      bounds. */
  lemma BoundsRestored(d: MethodData, bb: Element, d1: MethodData)
    requires WellFormed(d) && d1.numeric == [] && d1.symbolic == []
    requires bb == Element("bounds", [], None, NumericElements(d.numeric) + SymbolicElements(d.symbolic))
    ensures ReadBounds(FindAll(bb, "loop"), d1) == Ok(d1.(numeric := d.numeric, symbolic := d.symbolic))
  {
    LoopsFound(d, bb);
    assert d1.numeric + d.numeric == d.numeric;
    ReadNumericWritten(d.numeric, SymbolicElements(d.symbolic), d1);
    var d2 := d1.(numeric := d.numeric);
    assert d2.symbolic + d.symbolic == d.symbolic;
    ReadSymbolicWritten(d.symbolic, d2);
  }

  /** Writing a method into a fresh `method` element and reading it back
      restores its restrictions, its integer `it` bounds and its string
      `itc` bounds, each in its order. */
  lemma ReadWrittenMethod(d: MethodData)
    requires WellFormed(d)
    ensures ReadMethod(WrittenMethod(NewElement("method"), d), NoData(d.name, d.sig)) == Ok(d)
  {
    var cc := Element("callees", [], None, CalleeElements(d.restrictions));
    var bb := Element("bounds", [], None, NumericElements(d.numeric) + SymbolicElements(d.symbolic));
    WrittenMethodChildren(d, cc, bb);
    ReadMethodOf(WrittenMethod(NewElement("method"), d), cc, bb, NoData(d.name, d.sig));
    CalleesRestored(d, cc);
    var d1 := NoData(d.name, d.sig).(restrictions := d.restrictions);
    BoundsRestored(d, bb, d1);
    assert d1.(numeric := d.numeric, symbolic := d.symbolic) == d;
  }

  /** A method element written from its data names the method and its
      signature. */
  lemma WrittenMethodHeader(d: MethodData)
    ensures MethodHeader(WrittenMethod(NewElement("method"), d)) == Ok((d.name, d.sig))
  {
    LookupPut(Put([], "name", d.name), "sig", d.sig, "name");
    LookupPut(Put([], "name", d.name), "sig", d.sig, "sig");
    LookupPut([], "name", d.name, "name");
  }

  /** The methods of a class are indexed by what `getMsix` gives their
      name and signature. */
  predicate IndexedBy(ms: Dict<int, MethodData>, getMsix: (string, string) -> int)
  {
    forall i :: 0 <= i < |ms| ==> WellFormed(ms[i].1) && getMsix(ms[i].1.name, ms[i].1.sig) == ms[i].0
  }

  /** A written method element is read back as its method, entered at the
      end under its index. */
  lemma MethodStepWritten(k: int, d: MethodData, getMsix: (string, string) -> int, acc: Dict<int, MethodData>)
    requires WellFormed(d) && getMsix(d.name, d.sig) == k && Lookup(acc, k).None?
    ensures MethodStep(WrittenMethod(NewElement("method"), d), getMsix, acc) == Ok(acc + [(k, d)])
  {
    WrittenMethodHeader(d);
    ReadWrittenMethod(d);
    PutAbsent(acc, k, d);
  }

  lemma {:induction false} ReadMethodsWritten(ms: Dict<int, MethodData>, getMsix: (string, string) -> int, acc: Dict<int, MethodData>)
    requires KeysDistinct(acc + ms) && IndexedBy(ms, getMsix)
    ensures ReadMethods(MethodElements(ms), getMsix, acc) == Ok(acc + ms)
  {
    if ms != [] {
      DistinctNextAbsent(acc, ms);
      MethodStepWritten(ms[0].0, ms[0].1, getMsix, acc);
      ShiftFirst(acc, ms);
      ReadMethodsWritten(ms[1..], getMsix, acc + [ms[0]]);
    } else {
      assert acc + ms == acc;
    }
  }

  /** Writing a class into a fresh `class` element and reading it back
      restores every method, in order, when the methods are indexed as
      `getMsix` indexes them; the name and package are there to read. */
  lemma ReadWrittenClass(name: string, package: string, ms: Dict<int, MethodData>, getMsix: (string, string) -> int)
    requires KeysDistinct(ms) && IndexedBy(ms, getMsix)
    ensures var c := WrittenClass(NewElement("class"), name, package, ms);
      ReadClass(c, getMsix) == Ok(ms) &&
      Lookup(c.attrib, "name") == Some(name) && Lookup(c.attrib, "package") == Some(package)
  {
    var mm := WrittenMethodsFound(name, package, ms);
    MethodsTagged(ms);
    assert [] + ms == ms;
    ReadMethodsWritten(ms, getMsix, []);
    ClassAttributesWritten(name, package);
  }

  /** The `methods` child of a written class holds the written methods. */
  lemma WrittenMethodsFound(name: string, package: string, ms: Dict<int, MethodData>) returns (mm: Element)
    ensures mm == Element("methods", [], None, MethodElements(ms))
    ensures Find(WrittenClass(NewElement("class"), name, package, ms), "methods") == Some(mm)
  {
    var c := WrittenClass(NewElement("class"), name, package, ms);
    mm := Element("methods", [], None, MethodElements(ms));
    assert c.children == [mm];
    assert FirstTagged(c.children, "methods") == Some(mm);
  }

  /** The name and package of a class written into a fresh element. */
  lemma ClassAttributesWritten(name: string, package: string)
    ensures var a := Put(Put([], "name", name), "package", package);
      Lookup(a, "name") == Some(name) && Lookup(a, "package") == Some(package)
  {
    LookupPut(Put([], "name", name), "package", package, "name");
    LookupPut(Put([], "name", name), "package", package, "package");
    LookupPut([], "name", name, "name");
  }

  /** A loop element with neither `it` nor `itc` stops the reading. */
  lemma ReadBoundsMissingType(l: Element, rest: seq<Element>, d: MethodData)
    requires ReadPc(l).Ok?
    requires Lookup(l.attrib, "it").None? && Lookup(l.attrib, "itc").None?
    ensures BoundStep(l, d).Err?
    ensures ReadBounds([l] + rest, d).Err?
  {
    assert ([l] + rest)[0] == l;
  }

  // ---------------------------------------------------------------------
  // The objects

  /** The loop writing the `callee` elements. */
  method CalleeElementsOf(rs: Dict<int, string>) returns (es: seq<Element>)
    ensures es == CalleeElements(rs)
  {
    es := [];
    for i := 0 to |rs|
      invariant es == CalleeElements(rs[..i])
    {
      es := es + [CalleeElement(rs[i].0, rs[i].1)];
      assert rs[..i + 1] == rs[..i] + [rs[i]];
      CalleeElementsAppend(rs[..i], [rs[i]]);
    }
    assert rs[..|rs|] == rs;
  }

  /** The loop writing the `loop` elements of the numeric bounds. */
  method NumericElementsOf(bs: Dict<int, int>) returns (es: seq<Element>)
    ensures es == NumericElements(bs)
  {
    es := [];
    for i := 0 to |bs|
      invariant es == NumericElements(bs[..i])
    {
      es := es + [NumericElement(bs[i].0, bs[i].1)];
      assert bs[..i + 1] == bs[..i] + [bs[i]];
      NumericElementsAppend(bs[..i], [bs[i]]);
    }
    assert bs[..|bs|] == bs;
  }

  /** The loop writing the `loop` elements of the symbolic bounds. */
  method SymbolicElementsOf(bs: Dict<int, string>) returns (es: seq<Element>)
    ensures es == SymbolicElements(bs)
  {
    es := [];
    for i := 0 to |bs|
      invariant es == SymbolicElements(bs[..i])
    {
      es := es + [SymbolicElement(bs[i].0, bs[i].1)];
      assert bs[..i + 1] == bs[..i] + [bs[i]];
      SymbolicElementsAppend(bs[..i], [bs[i]]);
    }
    assert bs[..|bs|] == bs;
  }

  /** `UserDataMethod`: the annotations of one method, updated in place. */
  class UserDataMethod {
    const name: string
    const sig: string
    var calleeRestrictions: Dict<int, string>
    var numericBounds: Dict<int, int>
    var symbolicBounds: Dict<int, string>

    function Data(): MethodData
      reads this
    {
      MethodData(name, sig, calleeRestrictions, numericBounds, symbolicBounds)
    }

    predicate Valid()
      reads this
    {
      WellFormed(Data())
    }

    constructor(name: string, sig: string)
      ensures Valid() && Data() == NoData(name, sig)
    {
      this.name := name;
      this.sig := sig;
      calleeRestrictions := [];
      numericBounds := [];
      symbolicBounds := [];
    }

    /** `add_callee_restriction`: sets or overwrites the target for pc. */
    method AddCalleeRestriction(pc: int, tgt: string)
      requires Valid()
      modifies this
      ensures Valid()
      ensures calleeRestrictions == Put(old(calleeRestrictions), pc, tgt)
      ensures Lookup(calleeRestrictions, pc) == Some(tgt)
      ensures forall q :: q != pc ==> Lookup(calleeRestrictions, q) == Lookup(old(calleeRestrictions), q)
      ensures numericBounds == old(numericBounds) && symbolicBounds == old(symbolicBounds)
    {
      calleeRestrictions := Put(calleeRestrictions, pc, tgt);
      forall q {
        LookupPut(old(calleeRestrictions), pc, tgt, q);
      }
    }

    /** `add_bound`: a numeric bound into the numeric bounds, any other
        into the symbolic bounds. */
    method AddBound(pc: int, b: Bound)
      requires Valid()
      modifies this
      ensures Valid() && Data() == WithBound(old(Data()), pc, b)
      ensures b.It? ==> Lookup(numericBounds, pc) == Some(b.n) && symbolicBounds == old(symbolicBounds)
      ensures b.Itc? ==> Lookup(symbolicBounds, pc) == Some(b.s) && numericBounds == old(numericBounds)
      ensures calleeRestrictions == old(calleeRestrictions)
    {
      if b.It? {
        numericBounds := Put(numericBounds, pc, b.n);
        LookupPut(old(numericBounds), pc, b.n, pc);
      } else {
        symbolicBounds := Put(symbolicBounds, pc, b.s);
        LookupPut(old(symbolicBounds), pc, b.s, pc);
      }
    }

    /** `write_xml`: the annotations appended to a method element. */
    method WriteXml(mnode: Element) returns (r: Element)
      ensures r == WrittenMethod(mnode, Data())
    {
      var callees := CalleeElementsOf(calleeRestrictions);
      var numeric := NumericElementsOf(numericBounds);
      var symbolic := SymbolicElementsOf(symbolicBounds);
      var loops := numeric + symbolic;
      r := MethodElement(mnode, name, sig, callees, loops);
    }
  }

  /** The data of the methods, in the dictionary's order. */
  function DataOf(ms: Dict<int, UserDataMethod>): (r: Dict<int, MethodData>)
    reads set i | 0 <= i < |ms| :: ms[i].1
    ensures |r| == |ms|
    ensures forall i :: 0 <= i < |ms| ==> r[i] == (ms[i].0, ms[i].1.Data())
  {
    if ms == [] then [] else [(ms[0].0, ms[0].1.Data())] + DataOf(ms[1..])
  }

  /** Entering a method object enters its data. */
  lemma {:induction false} DataOfPut(ms: Dict<int, UserDataMethod>, k: int, m: UserDataMethod)
    ensures DataOf(Put(ms, k, m)) == Put(DataOf(ms), k, m.Data())
  {
    if ms != [] && ms[0].0 != k {
      DataOfPut(ms[1..], k, m);
      assert DataOf(ms)[1..] == DataOf(ms[1..]);
    } else if ms != [] {
      assert DataOf(ms)[1..] == DataOf(ms[1..]);
    }
  }

  /** Entering a valid method object keeps every stored object valid and
      within the footprint grown by it. */
  lemma PutValid(ms: Dict<int, UserDataMethod>, repr: set<object>, k: int, m: UserDataMethod)
    requires m.Valid()
    requires forall i :: 0 <= i < |ms| ==> ms[i].1 in repr && ms[i].1.Valid()
    ensures forall i :: 0 <= i < |Put(ms, k, m)| ==> Put(ms, k, m)[i].1 in repr + {m} && Put(ms, k, m)[i].1.Valid()
  {
    var entered := Put(ms, k, m);
    PutEntries(ms, k, m);
    forall i | 0 <= i < |entered|
      ensures entered[i].1 in repr + {m} && entered[i].1.Valid()
    {
      assert entered[i] in entered;
      if entered[i] != (k, m) {
        assert entered[i] in ms;
      }
    }
  }

  /** `UserDataClass`: the user data of one class, its methods by index. */
  class UserDataClass {
    const package: string
    const name: string
    var methods: Dict<int, UserDataMethod>

    /** The method objects the class holds (and possibly some it held). */
    ghost var Repr: set<UserDataMethod>

    ghost predicate Valid()
      reads this, Repr
    {
      KeysDistinct(methods) &&
      forall i :: 0 <= i < |methods| ==> methods[i].1 in Repr && methods[i].1.Valid()
    }

    /** The methods' data, in order. */
    ghost function Contents(): Dict<int, MethodData>
      requires Valid()
      reads this, Repr
    {
      DataOf(methods)
    }

    constructor(package: string, name: string)
      ensures Valid() && methods == [] && this.package == package && this.name == name
    {
      this.package := package;
      this.name := name;
      methods := [];
      Repr := {};
    }

    /** `has_method`. */
    function HasMethod(msix: int): (r: bool)
      reads this
      ensures r <==> exists i :: 0 <= i < |methods| && methods[i].0 == msix
    {
      Lookup(methods, msix).Some?
    }

    /** `get_method`: the method under msix, None when there is none. */
    function GetMethod(msix: int): (r: Option<UserDataMethod>)
      reads this
      ensures r.Some? <==> HasMethod(msix)
      ensures r.Some? ==> (msix, r.value) in methods
    {
      Lookup(methods, msix)
    }

    /** `mk_method`: a fresh method without annotations, only when none is
        stored under msix; an existing one is left as it is. */
    method MkMethod(name: string, sig: string, msix: int)
      requires Valid()
      modifies this
      ensures Valid()
      ensures old(HasMethod(msix)) ==> methods == old(methods)
      ensures !old(HasMethod(msix)) ==>
        |methods| == |old(methods)| + 1 && methods[..|old(methods)|] == old(methods) &&
        methods[|old(methods)|].0 == msix && fresh(methods[|old(methods)|].1) &&
        methods[|old(methods)|].1.Data() == NoData(name, sig)
    {
      if Lookup(methods, msix).None? {
        var m := new UserDataMethod(name, sig);
        PutAbsent(methods, msix, m);
        methods := Put(methods, msix, m);
        Repr := Repr + {m};
        assert forall i :: 0 <= i < |methods| - 1 ==> methods[i] == old(methods)[i];
      }
    }

    /** `write_xml`: the class's name, package and methods written into a
        class element. */
    method WriteXml(cnode: Element) returns (r: Element)
      requires Valid()
      ensures r == WrittenClass(cnode, name, package, Contents())
    {
      ghost var contents := Contents();
      var elements: seq<Element> := [];
      for i := 0 to |methods|
        invariant elements == MethodElements(contents[..i])
      {
        assert contents[i] == (methods[i].0, methods[i].1.Data());
        var e := methods[i].1.WriteXml(NewElement("method"));
        assert e == WrittenMethod(NewElement("method"), contents[i].1);
        ElementsSnoc(contents, i);
        elements := elements + [e];
      }
      assert contents[..|methods|] == contents;
      r := ClassElement(cnode, name, package, elements);
    }

    /** `_initialize_method`: the callees and bounds of a method element
        entered into m. */
    static method InitializeMethod(m: UserDataMethod, mnode: Element) returns (r: Result<()>)
      requires m.Valid()
      modifies m
      ensures r.Ok? <==> ReadMethod(mnode, old(m.Data())).Ok?
      ensures r.Ok? ==> m.Valid() && ReadMethod(mnode, old(m.Data())) == Ok(m.Data())
    {
      ghost var d0 := m.Data();
      var cc := Find(mnode, "callees");
      if cc.Some? {
        var cs := FindAll(cc.value, "callee");
        for k := 0 to |cs|
          invariant m.Valid()
          invariant ReadCallees(cs, d0) == ReadCallees(cs[k..], m.Data())
        {
          var c := cs[k];
          if Lookup(c.attrib, "kind") == Some("restrict") {
            var pc := ReadPc(c);
            if pc.Err? {
              return Err(pc.error);
            }
            var tgt := Lookup(c.attrib, "class");
            if tgt.None? {
              return Err(KeyError("class"));
            }
            m.AddCalleeRestriction(pc.value, tgt.value);
          }
          assert cs[k..][1..] == cs[k + 1..];
        }
      }
      ghost var d1 := m.Data();
      assert ReadMethod(mnode, d0) == match Find(mnode, "bounds")
        case None => Ok(d1)
        case Some(bb) => ReadBounds(FindAll(bb, "loop"), d1);
      var bb := Find(mnode, "bounds");
      if bb.Some? {
        var ls := FindAll(bb.value, "loop");
        for k := 0 to |ls|
          invariant m.Valid()
          invariant ReadBounds(ls, d1) == ReadBounds(ls[k..], m.Data())
        {
          var l := ls[k];
          var pc := ReadPc(l);
          if pc.Err? {
            return Err(pc.error);
          }
          var b := ReadBound(l);
          if b.Err? {
            return Err(b.error);
          }
          m.AddBound(pc.value, b.value);
          assert ls[k..][1..] == ls[k + 1..];
        }
      }
      r := Ok(());
    }

    /** One step of `_initialize`: a fresh method for a method element,
        its annotations read, stored under the index `getMsix` gives it. The
        method is stored once its annotations are read; the order only
        matters when reading fails, which ends the program. */
    method EnterMethod(mnode: Element, getMsix: (string, string) -> int) returns (r: Result<()>)
      requires Valid()
      modifies this
      ensures r.Ok? <==> MethodStep(mnode, getMsix, old(Contents())).Ok?
      ensures r.Ok? ==> Valid() && MethodStep(mnode, getMsix, old(Contents())) == Ok(Contents())
    {
      var header := MethodHeader(mnode);
      if header.Err? {
        return Err(header.error);
      }
      var (n, g) := header.value;
      ghost var contents := Contents();
      assert contents == old(Contents());
      var m := new UserDataMethod(n, g);
      var res := InitializeMethod(m, mnode);
      if res.Err? {
        return Err(res.error);
      }
      assert Contents() == contents;
      var msix := getMsix(n, g);
      assert MethodStep(mnode, getMsix, contents) == Ok(Put(contents, msix, m.Data()));
      Store(msix, m);
      r := Ok(());
    }

    /** Stores a method under msix, replacing the one stored there. */
    method Store(msix: int, m: UserDataMethod)
      requires Valid() && m.Valid()
      modifies this
      ensures Valid() && Contents() == Put(old(Contents()), msix, m.Data())
    {
      DataOfPut(methods, msix, m);
      var entered := Put(methods, msix, m);
      PutValid(methods, Repr, msix, m);
      methods, Repr := entered, Repr + {m};
    }

    /** `_initialize`: a method per method element, in document order. */
    method Initialize(xnode: Element, getMsix: (string, string) -> int) returns (r: Result<()>)
      requires Valid() && methods == []
      modifies this
      ensures r.Ok? <==> ReadClass(xnode, getMsix).Ok?
      ensures r.Ok? ==> Valid() && ReadClass(xnode, getMsix) == Ok(Contents())
    {
      var mm := Find(xnode, "methods");
      if mm.None? {
        return Err(Failure("'NoneType' object has no attribute 'findall'"));
      }
      var ns := FindAll(mm.value, "method");
      for i := 0 to |ns|
        invariant Valid()
        invariant ReadClass(xnode, getMsix) == ReadMethods(ns[i..], getMsix, Contents())
      {
        var res := EnterMethod(ns[i], getMsix);
        if res.Err? {
          return Err(res.error);
        }
        assert ns[i..][1..] == ns[i + 1..];
      }
      r := Ok(());
    }

    /** `__init__`: the package and name of a class element, then its
        methods. */
    static method Load(xnode: Element, getMsix: (string, string) -> int) returns (r: Result<UserDataClass>)
      ensures r.Ok? <==>
        Lookup(xnode.attrib, "package").Some? && Lookup(xnode.attrib, "name").Some? &&
        ReadClass(xnode, getMsix).Ok?
      ensures r.Ok? ==>
        fresh(r.value) && r.value.Valid() &&
        r.value.package == Lookup(xnode.attrib, "package").value &&
        r.value.name == Lookup(xnode.attrib, "name").value &&
        ReadClass(xnode, getMsix) == Ok(r.value.Contents())
    {
      var package := Lookup(xnode.attrib, "package");
      var name := Lookup(xnode.attrib, "name");
      if package.None? || name.None? {
        return Err(KeyError("class without package or name"));
      }
      var c := new UserDataClass(package.value, name.value);
      var res := c.Initialize(xnode, getMsix);
      if res.Err? {
        return Err(res.error);
      }
      return Ok(c);
    }
  }
}
