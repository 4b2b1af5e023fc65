/** The signature of a method in the library summaries
    (chj/libsum/MethodSummarySignature.py): the `arg` children of the
    signature element, in document order, are the argument types and its
    first `return` child, when there is one, is the return type. Its text
    is a method descriptor of section 4.3.3 of the Java Virtual Machine
    Specification. The summary the signature belongs to is not part of
    this model. */
module MethodSummarySignatures {
  import opened Wrappers
  import opened Strings
  import opened SummaryValueTypes

  /** `findall('arg')`: the children tagged `arg`, in document order. */
  function ArgElements(x: XNode): (r: seq<XNode>)
  {
    Tagged(x.children, "arg")
  }

  /** The elements of cs tagged `tag`, in their order. */
  function Tagged(cs: seq<XNode>, tag: string): (r: seq<XNode>)
    ensures forall e :: e in r <==> e in cs && e.tag == tag
    ensures |r| <= |cs|
  {
    if cs == [] then []
    else if cs[0].tag == tag then [cs[0]] + Tagged(cs[1..], tag)
    else Tagged(cs[1..], tag)
  }

  /** Taking the tagged elements of two runs of children one after the
      other keeps the order of the runs. */
  lemma {:induction false} TaggedConcat(a: seq<XNode>, b: seq<XNode>, tag: string)
    ensures Tagged(a + b, tag) == Tagged(a, tag) + Tagged(b, tag)
  {
    if a != [] {
      assert (a + b)[1..] == a[1..] + b;
      TaggedConcat(a[1..], b, tag);
    } else {
      assert a + b == b;
    }
  }

  /** `find('return')`: the first child tagged `return`. */
  function ReturnElement(x: XNode): Option<XNode>
  {
    var k := FirstTagged(x.children, "return");
    if k < |x.children| then Some(x.children[k]) else None
  }

  /** The position of the first element of cs tagged `tag`, or |cs|. */
  function FirstTagged(cs: seq<XNode>, tag: string): (k: nat)
    ensures k <= |cs|
    ensures forall j :: 0 <= j < k ==> cs[j].tag != tag
    ensures k < |cs| ==> cs[k].tag == tag
  {
    if cs == [] then 0 else if cs[0].tag == tag then 0 else 1 + FirstTagged(cs[1..], tag)
  }

  /** The texts of a run of value-type elements, or the first error. */
  function Texts(xs: seq<XNode>, symbols: map<string, char>): (r: Result<seq<string>>)
    ensures r.Ok? <==> forall k :: 0 <= k < |xs| ==> SummaryValueTypes.ToStringWith(xs[k], symbols).Ok?
    ensures r.Ok? ==> |r.value| == |xs| && forall k :: 0 <= k < |xs| ==> r.value[k] == SummaryValueTypes.ToStringWith(xs[k], symbols).value
  {
    if xs == [] then Ok([])
    else
      var h := SummaryValueTypes.ToStringWith(xs[0], symbols);
      if h.Err? then Err(h.error)
      else
        var t := Texts(xs[1..], symbols);
        if t.Err? then t else Ok([h.value] + t.value)
  }

  /** `__str__` with a given table of basic-type symbols: the return type
      is read first, V when there is none, then the arguments, and the
      text is the argument texts in parentheses followed by the return
      text. */
  function ToStringWith(x: XNode, symbols: map<string, char>): Result<string>
  {
    var ret := ReturnElement(x);
    var sreturn := if ret.None? then Ok("V") else SummaryValueTypes.ToStringWith(ret.value, symbols);
    if sreturn.Err? then sreturn
    else
      var args := Texts(ArgElements(x), symbols);
      if args.Err? then Err(args.error)
      else Ok("(" + Join("", args.value) + ")" + sreturn.value)
  }

  /** `__str__` as written, with long written L. */
  function ToStringAsWritten(x: XNode): Result<string>
  {
    ToStringWith(x, BasicTypeSymbolsAsWritten())
  }

  /** `__str__` with the JVM symbol J for long. */
  function ToString(x: XNode): Result<string>
  {
    ToStringWith(x, JvmBaseTypeSymbols())
  }

  /** A method descriptor: its argument types and its return type (void
      when the signature has no return element). */
  datatype MethodType = MethodType(args: seq<FieldType>, ret: FieldType)

  /** The types of a run of value-type elements, or the first error. */
  function TypesOf(xs: seq<XNode>): (r: Result<seq<FieldType>>)
    ensures r.Ok? ==> |r.value| == |xs| && forall k :: 0 <= k < |xs| ==> TypeOf(xs[k]) == Ok(r.value[k])
  {
    if xs == [] then Ok([])
    else
      var h := TypeOf(xs[0]);
      if h.Err? then Err(h.error)
      else
        var t := TypesOf(xs[1..]);
        if t.Err? then t else Ok([h.value] + t.value)
  }

  /** The method type a signature element denotes, with the errors of
      `__str__` in the same order. */
  function MethodTypeOf(x: XNode): Result<MethodType>
  {
    var ret := ReturnElement(x);
    var rtype := if ret.None? then Ok(BaseType("void")) else TypeOf(ret.value);
    if rtype.Err? then Err(rtype.error)
    else
      var args := TypesOf(ArgElements(x));
      if args.Err? then Err(args.error)
      else Ok(MethodType(args.value, rtype.value))
  }

  predicate AllKnown(ts: seq<FieldType>)
  {
    forall k :: 0 <= k < |ts| ==> Known(ts[k])
  }

  /** The argument descriptors one after the other. */
  function EncodeArgs(ts: seq<FieldType>): (r: string)
    requires AllKnown(ts)
  {
    if ts == [] then "" else Encode(ts[0]) + EncodeArgs(ts[1..])
  }

  /** The method descriptor of a method type. */
  function EncodeMethod(m: MethodType): string
    requires AllKnown(m.args) && Known(m.ret)
  {
    "(" + EncodeArgs(m.args) + ")" + Encode(m.ret)
  }

  /** Joining the texts of a run of elements gives the descriptors of their
      types one after the other. */
  lemma {:induction false} TextsEncode(xs: seq<XNode>)
    requires TypesOf(xs).Ok?
    ensures Texts(xs, JvmBaseTypeSymbols()).Ok?
    ensures AllKnown(TypesOf(xs).value)
    ensures Join("", Texts(xs, JvmBaseTypeSymbols()).value) == EncodeArgs(TypesOf(xs).value)
  {
    if xs != [] {
      SummaryValueTypes.ToStringEncodes(xs[0]);
      TextsEncode(xs[1..]);
      var ts := Texts(xs[1..], JvmBaseTypeSymbols()).value;
      if ts == [] {
        assert Join("", [SummaryValueTypes.ToString(xs[0]).value]) == SummaryValueTypes.ToString(xs[0]).value;
        assert Encode(TypeOf(xs[0]).value) + "" == Encode(TypeOf(xs[0]).value);
      }
    }
  }

  /** With the JVM symbols, the text of a signature is the method
      descriptor of the method type it denotes. */
  lemma ToStringEncodes(x: XNode)
    requires MethodTypeOf(x).Ok?
    ensures AllKnown(MethodTypeOf(x).value.args) && Known(MethodTypeOf(x).value.ret)
    ensures ToString(x) == Ok(EncodeMethod(MethodTypeOf(x).value))
  {
    var ret := ReturnElement(x);
    if ret.Some? {
      SummaryValueTypes.ToStringEncodes(ret.value);
    }
    TextsEncode(ArgElements(x));
  }

  /** Reads argument descriptors up to the closing parenthesis and returns
      them with the text after it. */
  function ParseArgs(s: string): (r: Option<(seq<FieldType>, string)>)
    decreases |s|
  {
    if s == [] then None
    else if s[0] == ')' then Some(([], s[1..]))
    else
      var h := ParseFieldType(s);
      if h.None? then None
      else
        var t := ParseArgs(h.value.1);
        if t.None? then None else Some(([h.value.0] + t.value.0, t.value.1))
  }

  /** Reads a whole method descriptor. */
  function ParseMethod(s: string): Option<MethodType>
  {
    if s == [] || s[0] != '(' then None
    else
      var args := ParseArgs(s[1..]);
      if args.None? then None
      else
        var ret := ParseFieldType(args.value.1);
        if ret.None? || ret.value.1 != "" then None else Some(MethodType(args.value.0, ret.value.0))
  }

  predicate AllParseable(ts: seq<FieldType>)
  {
    forall k :: 0 <= k < |ts| ==> Parseable(ts[k])
  }

  lemma {:induction false} ParseEncodeArgs(ts: seq<FieldType>, rest: string)
    requires AllParseable(ts) && AllKnown(ts)
    ensures ParseArgs(EncodeArgs(ts) + ")" + rest) == Some((ts, rest))
  {
    if ts == [] {
      assert EncodeArgs(ts) + ")" + rest == ")" + rest;
    } else {
      var tail := EncodeArgs(ts[1..]) + ")" + rest;
      assert EncodeArgs(ts) + ")" + rest == Encode(ts[0]) + tail;
      ParseEncode(ts[0], tail);
      ParseEncodeArgs(ts[1..], rest);
      assert [ts[0]] + ts[1..] == ts;
    }
  }

  /** A method descriptor reads back as its own method type. */
  lemma ParseEncodeMethod(m: MethodType)
    requires AllParseable(m.args) && AllKnown(m.args) && Parseable(m.ret) && Known(m.ret)
    ensures ParseMethod(EncodeMethod(m)) == Some(m)
  {
    var s := EncodeMethod(m);
    assert s[1..] == EncodeArgs(m.args) + ")" + Encode(m.ret);
    ParseEncodeArgs(m.args, Encode(m.ret));
    ParseEncode(m.ret, "");
    assert Encode(m.ret) + "" == Encode(m.ret);
  }

  /** With the JVM symbols, two signatures whose class names hold no ';'
      and that have the same text denote the same method type. */
  lemma SignatureTextInjective(x: XNode, y: XNode)
    requires MethodTypeOf(x).Ok? && MethodTypeOf(y).Ok?
    requires AllParseable(MethodTypeOf(x).value.args) && Parseable(MethodTypeOf(x).value.ret)
    requires AllParseable(MethodTypeOf(y).value.args) && Parseable(MethodTypeOf(y).value.ret)
    requires ToString(x) == ToString(y)
    ensures MethodTypeOf(x) == MethodTypeOf(y)
  {
    ToStringEncodes(x);
    ToStringEncodes(y);
    ParseEncodeMethod(MethodTypeOf(x).value);
    ParseEncodeMethod(MethodTypeOf(y).value);
  }

  /** An `arg` element holding one type element. */
  function Arg(t: XNode): XNode { XNode("arg", None, [t]) }

  /** The text of a signature whose children are all arguments, when every
      argument has a text: no return element means the return text V. */
  lemma NoReturnText(x: XNode, symbols: map<string, char>)
    requires forall k :: 0 <= k < |x.children| ==> x.children[k].tag == "arg"
    requires Texts(x.children, symbols).Ok?
    ensures ToStringWith(x, symbols) == Ok("(" + Join("", Texts(x.children, symbols).value) + ")" + "V")
  {
    ArgsOnly(x.children);
  }

  lemma {:induction false} ArgsOnly(cs: seq<XNode>)
    requires forall k :: 0 <= k < |cs| ==> cs[k].tag == "arg"
    ensures Tagged(cs, "arg") == cs
  {
    if cs != [] {
      ArgsOnly(cs[1..]);
      assert [cs[0]] + cs[1..] == cs;
    }
  }

  /** The text of a signature with one argument and no return element. */
  lemma OneArgText(t: XNode, symbols: map<string, char>, s: string)
    requires SummaryValueTypes.ToStringWith(Arg(t), symbols) == Ok(s)
    ensures ToStringWith(XNode("signature", None, [Arg(t)]), symbols) == Ok("(" + s + ")" + "V")
  {
    var x := XNode("signature", None, [Arg(t)]);
    assert Texts(x.children, symbols).value == [s];
    NoReturnText(x, symbols);
  }

  /** The text of a signature with two arguments and no return element. */
  lemma TwoArgText(t: XNode, u: XNode, symbols: map<string, char>, s: string, v: string)
    requires SummaryValueTypes.ToStringWith(Arg(t), symbols) == Ok(s)
    requires SummaryValueTypes.ToStringWith(Arg(u), symbols) == Ok(v)
    ensures ToStringWith(XNode("signature", None, [Arg(t), Arg(u)]), symbols) == Ok("(" + Join("", [s, v]) + ")" + "V")
  {
    var x := XNode("signature", None, [Arg(t), Arg(u)]);
    assert x.children[1..] == [Arg(u)];
    assert Texts(x.children[1..], symbols).value == [v];
    assert Texts(x.children, symbols).value == [s, v];
    NoReturnText(x, symbols);
  }

  /** The texts of an argument holding a long and of arguments holding the
      classes X and LX. */
  lemma ArgTexts(sy: map<string, char>)
    ensures SummaryValueTypes.ToStringWith(Arg(XNode("long", None, [])), BasicTypeSymbolsAsWritten()) == Ok("L")
    ensures SummaryValueTypes.ToStringWith(Arg(XNode("long", None, [])), JvmBaseTypeSymbols()) == Ok("J")
    ensures SummaryValueTypes.ToStringWith(Arg(XNode("object", Some("X"), [])), sy) == Ok("LX;")
    ensures SummaryValueTypes.ToStringWith(Arg(XNode("object", Some("LX"), [])), sy) == Ok("LLX;")
  {
    assert '.' !in "X" && '.' !in "LX";
    ReplaceDotsAbsent("X");
    ReplaceDotsAbsent("LX");
    assert "L" + "X" + ";" == "LX;";
    assert "L" + "LX" + ";" == "LLX;";
  }

  /** Joining two texts with nothing between them. */
  lemma JoinTwo(a: string, b: string)
    ensures Join("", [a, b]) == a + b
  {
    assert [a, b][1..] == [b];
    assert a + "" + b == a + b;
  }

  /** As written, a method taking a long and an X and a method taking an LX
      get the same text (LLX;)V; with J for long the first is (JLX;)V. */
  lemma SignatureAsWrittenCollides(l: XNode, x: XNode, lx: XNode)
    requires l == XNode("long", None, []) && x == XNode("object", Some("X"), []) && lx == XNode("object", Some("LX"), [])
    ensures ToStringAsWritten(XNode("signature", None, [Arg(l), Arg(x)])) == Ok("(LLX;)V")
    ensures ToStringAsWritten(XNode("signature", None, [Arg(lx)])) == Ok("(LLX;)V")
    ensures ToString(XNode("signature", None, [Arg(l), Arg(x)])) == Ok("(JLX;)V")
    ensures ToString(XNode("signature", None, [Arg(lx)])) == Ok("(LLX;)V")
  {
    var w, j := BasicTypeSymbolsAsWritten(), JvmBaseTypeSymbols();
    ArgTexts(w);
    ArgTexts(j);
    TwoArgText(l, x, w, "L", "LX;");
    TwoArgText(l, x, j, "J", "LX;");
    OneArgText(lx, w, "LLX;");
    OneArgText(lx, j, "LLX;");
    JoinTwo("L", "LX;");
    JoinTwo("J", "LX;");
    LiteralTexts();
  }

  /** The two signatures of the collision denote different method types:
      one takes two arguments, the other one. */
  lemma CollidingTypesDiffer(l: XNode, x: XNode, lx: XNode)
    requires l == XNode("long", None, []) && x == XNode("object", Some("X"), []) && lx == XNode("object", Some("LX"), [])
    ensures MethodTypeOf(XNode("signature", None, [Arg(l), Arg(x)])).Ok?
    ensures MethodTypeOf(XNode("signature", None, [Arg(lx)])).Ok?
    ensures MethodTypeOf(XNode("signature", None, [Arg(l), Arg(x)])) != MethodTypeOf(XNode("signature", None, [Arg(lx)]))
  {
    var a, b := XNode("signature", None, [Arg(l), Arg(x)]), XNode("signature", None, [Arg(lx)]);
    ArgsOnly(a.children);
    ArgsOnly(b.children);
    assert "long" in JvmBaseTypeSymbols();
    assert TypeOf(Arg(l)).Ok? && TypeOf(Arg(x)).Ok?;
    assert a.children[1..] == [Arg(x)];
    assert [Arg(x)][1..] == [];
    assert TypesOf([Arg(x)]).Ok?;
    assert TypesOf(a.children).Ok?;
    assert TypesOf(b.children).Ok?;
  }

  lemma LiteralTexts()
    ensures "(" + ("L" + "LX;") + ")" + "V" == "(LLX;)V"
    ensures "(" + ("J" + "LX;") + ")" + "V" == "(JLX;)V"
    ensures "(" + "LLX;" + ")" + "V" == "(LLX;)V"
  {
  }
}
