/** Value types of the library summaries (chj/libsum/SummaryValueType.py).
    A value-type element of a summary file has one child that says what
    the type is: an `object` or `new-object` element whose text is the
    class name, an `array` element that is itself a value-type element for
    the component type, or an element named after a basic type. Its text
    is the type's descriptor in the form of section 4.3.2 of the Java
    Virtual Machine Specification. */
module SummaryValueTypes {
  import opened Wrappers
  import opened Strings

  /** An element of a parsed summary file: its tag, its text (None when it
      has none) and its child elements in document order. */
  datatype XNode = XNode(tag: string, text: Option<string>, children: seq<XNode>)

  /** The table of basic-type symbols, with the symbol used for `long` as a
      parameter: the library writes L, the Java Virtual Machine
      Specification uses J. */
  function BasicTypeSymbols(longSymbol: char): (r: map<string, char>)
    ensures r.Keys == {"boolean", "byte", "char", "double", "float", "int", "long", "short", "void"}
    ensures r["long"] == longSymbol
  {
    map["boolean" := 'Z', "byte" := 'B', "char" := 'C', "double" := 'D', "float" := 'F',
        "int" := 'I', "long" := longSymbol, "short" := 'S', "void" := 'V']
  }

  /** `basic_type_symbols` as written. */
  function BasicTypeSymbolsAsWritten(): map<string, char>
  {
    BasicTypeSymbols('L')
  }

  /** The base-type symbols of the Java Virtual Machine Specification. */
  function JvmBaseTypeSymbols(): map<string, char>
  {
    BasicTypeSymbols('J')
  }

  /** The basic type a JVM base-type symbol stands for. */
  function SymbolName(c: char): Option<string>
  {
    match c
    case 'Z' => Some("boolean")
    case 'B' => Some("byte")
    case 'C' => Some("char")
    case 'D' => Some("double")
    case 'F' => Some("float")
    case 'I' => Some("int")
    case 'J' => Some("long")
    case 'S' => Some("short")
    case 'V' => Some("void")
    case _ => None
  }

  /** Reading a JVM symbol back gives exactly the basic type that has it;
      no symbol is the start of an object or array descriptor or the end of
      an argument list. */
  lemma SymbolNameInverse(n: string, c: char)
    ensures SymbolName(c) == Some(n) <==> n in JvmBaseTypeSymbols() && JvmBaseTypeSymbols()[n] == c
    ensures SymbolName(c).Some? ==> c != 'L' && c != '[' && c != ')'
  {
  }

  /** `is_object`: the first child is an object or a new object; an
      IndexError when there is no child. */
  function IsObject(x: XNode): (r: Result<bool>)
    ensures r.Ok? <==> |x.children| > 0
    ensures r.Ok? ==> (r.value <==> x.children[0].tag == "object" || x.children[0].tag == "new-object")
  {
    if |x.children| == 0 then Err(IndexError("child index out of range"))
    else Ok(x.children[0].tag == "object" || x.children[0].tag == "new-object")
  }

  /** `is_array`: the first child is an array. */
  function IsArray(x: XNode): (r: Result<bool>)
    ensures r.Ok? <==> |x.children| > 0
    ensures r.Ok? ==> (r.value <==> x.children[0].tag == "array")
  {
    if |x.children| == 0 then Err(IndexError("child index out of range"))
    else Ok(x.children[0].tag == "array")
  }

  /** `is_basic_type`: neither an object nor an array. */
  function IsBasicType(x: XNode): (r: Result<bool>)
  {
    var o := IsObject(x);
    if o.Err? then o
    else if o.value then Ok(false)
    else
      var a := IsArray(x);
      if a.Err? then a else Ok(!a.value)
  }

  /** `__str__` with a given table of basic-type symbols. The element type
      of an array is the `array` child found by `get_array_element_type`,
      which is the first child. A text-less object element fails the way a
      call on None does, and a tag missing from the table is a KeyError. */
  function ToStringWith(x: XNode, symbols: map<string, char>): Result<string>
    decreases x
  {
    if |x.children| == 0 then Err(IndexError("child index out of range"))
    else
      var t := x.children[0];
      if t.tag == "object" || t.tag == "new-object" then
        if t.text.None? then Err(Failure("'NoneType' object has no attribute 'replace'"))
        else Ok("L" + Replace(t.text.value, ".", "/") + ";")
      else if t.tag == "array" then
        var e := ToStringWith(t, symbols);
        if e.Err? then e else Ok("[" + e.value)
      else if t.tag in symbols then Ok([symbols[t.tag]])
      else Err(KeyError(t.tag))
  }

  /** `__str__` as written, with long written L. */
  function ToStringAsWritten(x: XNode): Result<string>
  {
    ToStringWith(x, BasicTypeSymbolsAsWritten())
  }

  /** `__str__` with the JVM symbol J for long. */
  function ToString(x: XNode): Result<string>
  {
    ToStringWith(x, JvmBaseTypeSymbols())
  }

  /** A field type of section 4.3.2 of the Java Virtual Machine
      Specification: a basic type by its name, a class by its internal
      name (slashes between the package parts), or an array. */
  datatype FieldType = BaseType(name: string) | ObjectType(className: string) | ArrayType(component: FieldType)

  /** Every basic type is one the JVM has a symbol for. */
  predicate Known(t: FieldType)
  {
    match t
    case BaseType(n) => n in JvmBaseTypeSymbols()
    case ObjectType(_) => true
    case ArrayType(e) => Known(e)
  }

  /** Known, and no class name holds the ';' that ends it in a
      descriptor. */
  predicate Parseable(t: FieldType)
  {
    match t
    case BaseType(n) => n in JvmBaseTypeSymbols()
    case ObjectType(n) => ';' !in n
    case ArrayType(e) => Parseable(e)
  }

  /** The field descriptor of a type. */
  function Encode(t: FieldType): (r: string)
    requires Known(t)
    ensures |r| > 0 && r[0] != ')'
  {
    match t
    case BaseType(n) => [JvmBaseTypeSymbols()[n]]
    case ObjectType(n) => "L" + n + ";"
    case ArrayType(e) => "[" + Encode(e)
  }

  /** The type a value-type element denotes, with the same errors as
      `__str__`. */
  function TypeOf(x: XNode): (r: Result<FieldType>)
    ensures r.Ok? ==> Known(r.value)
    decreases x
  {
    if |x.children| == 0 then Err(IndexError("child index out of range"))
    else
      var t := x.children[0];
      if t.tag == "object" || t.tag == "new-object" then
        if t.text.None? then Err(Failure("'NoneType' object has no attribute 'replace'"))
        else Ok(ObjectType(Replace(t.text.value, ".", "/")))
      else if t.tag == "array" then
        var e := TypeOf(t);
        if e.Err? then e else Ok(ArrayType(e.value))
      else if t.tag in JvmBaseTypeSymbols() then Ok(BaseType(t.tag))
      else Err(KeyError(t.tag))
  }

  /** The predicates `is_object`, `is_array` and `is_basic_type` say which
      kind of type the element denotes. */
  lemma KindsOfType(x: XNode)
    requires TypeOf(x).Ok?
    ensures IsObject(x) == Ok(TypeOf(x).value.ObjectType?)
    ensures IsArray(x) == Ok(TypeOf(x).value.ArrayType?)
    ensures IsBasicType(x) == Ok(TypeOf(x).value.BaseType?)
  {
  }

  /** With the JVM symbols, the text of an element is the descriptor of
      the type it denotes, and it fails exactly when reading the type
      does, with the same error. */
  lemma {:induction false} ToStringEncodes(x: XNode)
    ensures ToString(x).Ok? <==> TypeOf(x).Ok?
    ensures TypeOf(x).Ok? ==> ToString(x).value == Encode(TypeOf(x).value)
    ensures TypeOf(x).Err? ==> ToString(x).error == TypeOf(x).error
    decreases x
  {
    if |x.children| > 0 && x.children[0].tag == "array" {
      ToStringEncodes(x.children[0]);
    }
  }

  /** Reads one field descriptor at the start of s and returns the type and
      the text after it. */
  function ParseFieldType(s: string): (r: Option<(FieldType, string)>)
    ensures r.Some? ==> |r.value.1| < |s|
    decreases |s|
  {
    if s == [] then None
    else if s[0] == 'L' then
      var k := IndexOf(s[1..], ';');
      if k == |s| - 1 then None else Some((ObjectType(s[1..k + 1]), s[k + 2..]))
    else if s[0] == '[' then
      var e := ParseFieldType(s[1..]);
      if e.None? then None else Some((ArrayType(e.value.0), e.value.1))
    else
      var n := SymbolName(s[0]);
      if n.None? then None else Some((BaseType(n.value), s[1..]))
  }

  /** A descriptor reads back as its own type, whatever text follows it. */
  lemma {:induction false} ParseEncode(t: FieldType, rest: string)
    requires Parseable(t)
    ensures Known(t) && ParseFieldType(Encode(t) + rest) == Some((t, rest))
  {
    match t
    case BaseType(n) =>
      var c := JvmBaseTypeSymbols()[n];
      SymbolNameInverse(n, c);
      assert (Encode(t) + rest)[1..] == rest;
    case ObjectType(n) =>
      ParseObject(n, rest);
    case ArrayType(e) =>
      ParseEncode(e, rest);
      assert (Encode(t) + rest)[1..] == Encode(e) + rest;
  }

  /** An object descriptor reads back up to its first ';'. */
  lemma ParseObject(n: string, rest: string)
    requires ';' !in n
    ensures ParseFieldType("L" + n + ";" + rest) == Some((ObjectType(n), rest))
  {
    var s := "L" + n + ";" + rest;
    assert s[1..] == n + (";" + rest);
    IndexOfPrefix(n, ";" + rest, ';');
    assert s[1..|n| + 1] == n;
    assert s[|n| + 2..] == rest;
  }

  /** A name without dots is unchanged by `replace('.', '/')`. */
  lemma {:induction false} ReplaceDotsAbsent(s: string)
    requires '.' !in s
    ensures Replace(s, ".", "/") == s
  {
    ReplaceCharIsReplace(s, '.', "/");
    ReplaceCharAbsent(s, '.', "/");
  }

  lemma {:induction false} ReplaceCharAbsent(s: string, c: char, rep: string)
    requires c !in s
    ensures ReplaceChar(s, c, rep) == s
  {
    if s != [] {
      ReplaceCharAbsent(s[1..], c, rep);
      assert [s[0]] + s[1..] == s;
    }
  }

  /** Two parseable types with the same descriptor are the same type. */
  lemma EncodeInjective(t: FieldType, u: FieldType)
    requires Parseable(t) && Parseable(u)
    requires Known(t) && Known(u) && Encode(t) == Encode(u)
    ensures t == u
  {
    ParseEncode(t, "");
    ParseEncode(u, "");
  }

  /** As written, the text of a long is the letter that opens an object
      descriptor: a long followed by the class X reads as the class LX. */
  lemma LongAsWrittenIsAmbiguous()
    ensures ToStringAsWritten(XNode("return", None, [XNode("long", None, [])])) == Ok("L")
    ensures ToString(XNode("return", None, [XNode("long", None, [])])) == Ok("J")
    ensures ParseFieldType("L" + "LX;") == Some((ObjectType("LX"), ""))
  {
    var s := "L" + "LX;";
    assert s[1..] == "LX;";
    assert IndexOf("LX;", ';') == 2;
    assert s[1..3] == "LX";
  }
}
