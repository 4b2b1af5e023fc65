/** XML helpers (chj/util/xmlutil.py): escaping attribute text with the
    predefined entities of section 4.6 of XML 1.0, reading index lists, and
    pretty-printing an element tree. */
module XmlUtil {
  import opened Wrappers
  import opened Strings
  import opened Dicts
  import opened Sorting

  /** An ElementTree element: its tag, its attributes in insertion order,
      its text (None when absent) and its children. */
  datatype Element = Element(tag: string, attrib: Dict<string, string>, text: Option<string>, children: seq<Element>)

  /** A fresh `ET.Element(tag)`: no attributes, no text, no children. */
  function NewElement(tag: string): (e: Element)
    ensures e.tag == tag && e.attrib == [] && e.text.None? && e.children == []
  {
    Element(tag, [], None, [])
  }

  /** `e.find(tag)`: the first child with the tag. */
  function Find(e: Element, tag: string): (r: Option<Element>)
    ensures r.Some? <==> exists i :: 0 <= i < |e.children| && e.children[i].tag == tag
    ensures r.Some? ==> r.value in e.children && r.value.tag == tag
  {
    FirstTagged(e.children, tag)
  }

  function FirstTagged(cs: seq<Element>, tag: string): (r: Option<Element>)
    ensures r.Some? <==> exists i :: 0 <= i < |cs| && cs[i].tag == tag
    ensures r.Some? ==> r.value in cs && r.value.tag == tag
  {
    if cs == [] then None
    else if cs[0].tag == tag then Some(cs[0])
    else
      var r := FirstTagged(cs[1..], tag);
      assert forall i :: 1 <= i < |cs| ==> cs[i] == cs[1..][i - 1];
      r
  }

  /** With two children of different tags, each is found by its tag. */
  lemma FindPair(e: Element, a: Element, b: Element)
    requires e.children == [a, b] && a.tag != b.tag
    ensures Find(e, a.tag) == Some(a) && Find(e, b.tag) == Some(b)
  {
    var cs := e.children;
    assert cs[0] == a && cs[1..] == [b];
    assert FirstTagged(cs, a.tag) == Some(a);
    assert FirstTagged([b], b.tag) == Some(b);
    assert FirstTagged(cs, b.tag) == FirstTagged(cs[1..], b.tag);
  }

  /** `e.findall(tag)`: the children with the tag, in document order. */
  function FindAll(e: Element, tag: string): (r: seq<Element>)
    ensures forall c :: c in r ==> c in e.children && c.tag == tag
    ensures forall c :: c in e.children && c.tag == tag ==> c in r
  {
    AllTagged(e.children, tag)
  }

  function AllTagged(cs: seq<Element>, tag: string): (r: seq<Element>)
    ensures forall c :: c in r ==> c in cs && c.tag == tag
    ensures forall c :: c in cs && c.tag == tag ==> c in r
  {
    if cs == [] then []
    else (if cs[0].tag == tag then [cs[0]] else []) + AllTagged(cs[1..], tag)
  }

  /** Children that all carry the tag are found all, in order. */
  lemma {:induction false} AllTaggedAll(cs: seq<Element>, tag: string)
    requires forall i :: 0 <= i < |cs| ==> cs[i].tag == tag
    ensures AllTagged(cs, tag) == cs
  {
    if cs != [] {
      AllTaggedAll(cs[1..], tag);
    }
  }

  /** Of two lists of children, the tagged ones of each in turn. */
  lemma {:induction false} AllTaggedAppend(a: seq<Element>, b: seq<Element>, tag: string)
    ensures AllTagged(a + b, tag) == AllTagged(a, tag) + AllTagged(b, tag)
  {
    if a != [] {
      assert (a + b)[1..] == a[1..] + b;
      AllTaggedAppend(a[1..], b, tag);
    }
    else {
      assert a + b == b;
    }
  }

  // ---------------------------------------------------------------------
  // sanitizestring

  /** The replacements in the order `sanitizestring` applies them:
      the ampersand first, so that the entities inserted later are not
      escaped again. */
  const Replacements: seq<(char, string)> :=
    [('&', "&amp;"), ('<', "&lt;"), ('>', "&gt;"), ('"', "&quot;"), ('\'', "&apos;")]

  /** The text after the first k replacements. */
  function Replaced(s: string, k: nat): (r: string)
    requires k <= |Replacements|
  {
    if k == 0 then s
    else Replace(Replaced(s, k - 1), [Replacements[k - 1].0], Replacements[k - 1].1)
  }

  /** Reference definition: each character on its own, a markup character
      as its entity. */
  function EscapeChar(c: char): (r: string)
  {
    if c == '&' then "&amp;"
    else if c == '<' then "&lt;"
    else if c == '>' then "&gt;"
    else if c == '"' then "&quot;"
    else if c == '\'' then "&apos;"
    else [c]
  }

  function Escaped(s: string): (r: string)
  {
    if s == [] then "" else EscapeChar(s[0]) + Escaped(s[1..])
  }

  /** `sanitizestring`: the five replacements applied one after another. */
  method Sanitize(s: string) returns (r: string)
    ensures r == Escaped(s)
  {
    r := s;
    for k := 0 to |Replacements|
      invariant r == Replaced(s, k)
    {
      r := Replace(r, [Replacements[k].0], Replacements[k].1);
    }
    ReplacedIsEscaped(s);
  }

  /** The five successive replacements, one character at a time. */
  function Chain(s: string): (r: string)
  {
    ReplaceChar(ReplaceChar(ReplaceChar(ReplaceChar(ReplaceChar(s, '&', "&amp;"), '<', "&lt;"), '>', "&gt;"), '"', "&quot;"), '\'', "&apos;")
  }

  lemma {:induction false} ReplaceCharAbsent(s: string, c: char, rep: string)
    requires c !in s
    ensures ReplaceChar(s, c, rep) == s
  {
    if s != [] {
      ReplaceCharAbsent(s[1..], c, rep);
      assert s == [s[0]] + s[1..];
    }
  }

  lemma {:induction false} ReplaceCharSingle(c: char, d: char, rep: string)
    ensures ReplaceChar([c], d, rep) == if c == d then rep else [c]
  {
    assert [c][1..] == [];
  }

  /** A text without any of the five characters passes the chain. */
  lemma ChainAbsent(s: string)
    requires '&' !in s && '<' !in s && '>' !in s && '"' !in s && '\'' !in s
    ensures Chain(s) == s
  {
    ReplaceCharAbsent(s, '&', "&amp;");
    ReplaceCharAbsent(s, '<', "&lt;");
    ReplaceCharAbsent(s, '>', "&gt;");
    ReplaceCharAbsent(s, '"', "&quot;");
    ReplaceCharAbsent(s, '\'', "&apos;");
  }

  /** The replacements after the first leave a text without their
      characters unchanged. */
  lemma ChainTail(s: string)
    requires '<' !in s && '>' !in s && '"' !in s && '\'' !in s
    ensures ReplaceChar(ReplaceChar(ReplaceChar(ReplaceChar(s, '<', "&lt;"), '>', "&gt;"), '"', "&quot;"), '\'', "&apos;") == s
  {
    ReplaceCharAbsent(s, '<', "&lt;");
    ChainTail3(s);
  }

  lemma ChainTail3(s: string)
    requires '>' !in s && '"' !in s && '\'' !in s
    ensures ReplaceChar(ReplaceChar(ReplaceChar(s, '>', "&gt;"), '"', "&quot;"), '\'', "&apos;") == s
  {
    ReplaceCharAbsent(s, '>', "&gt;");
    ChainTail2(s);
  }

  lemma ChainTail2(s: string)
    requires '"' !in s && '\'' !in s
    ensures ReplaceChar(ReplaceChar(s, '"', "&quot;"), '\'', "&apos;") == s
  {
    ReplaceCharAbsent(s, '"', "&quot;");
    ReplaceCharAbsent(s, '\'', "&apos;");
  }

  lemma ChainAmpersand(c: char)
    requires c == '&'
    ensures Chain([c]) == EscapeChar(c)
  {
    ReplaceCharSingle(c, '&', "&amp;");
    var s := ReplaceChar([c], '&', "&amp;");
    assert s == ['&', 'a', 'm', 'p', ';'];
    ChainTail(s);
  }

  lemma ChainLess(c: char)
    requires c == '<'
    ensures Chain([c]) == EscapeChar(c)
  {
    ReplaceCharSingle(c, '&', "&amp;");
    ReplaceCharSingle(c, '<', "&lt;");
    var s := ReplaceChar(ReplaceChar([c], '&', "&amp;"), '<', "&lt;");
    assert s == ['&', 'l', 't', ';'];
    ChainTail3(s);
  }

  lemma ChainGreater(c: char)
    requires c == '>'
    ensures Chain([c]) == EscapeChar(c)
  {
    ReplaceCharSingle(c, '&', "&amp;");
    ReplaceCharSingle(c, '<', "&lt;");
    ReplaceCharSingle(c, '>', "&gt;");
    var s := ReplaceChar(ReplaceChar(ReplaceChar([c], '&', "&amp;"), '<', "&lt;"), '>', "&gt;");
    assert s == ['&', 'g', 't', ';'];
    ChainTail2(s);
  }

  lemma ChainQuote(c: char)
    requires c == '"'
    ensures Chain([c]) == EscapeChar(c)
  {
    ReplaceCharSingle(c, '&', "&amp;");
    ReplaceCharSingle(c, '<', "&lt;");
    ReplaceCharSingle(c, '>', "&gt;");
    ReplaceCharSingle(c, '"', "&quot;");
    ReplaceCharAbsent("&quot;", '\'', "&apos;");
  }

  lemma ChainApostrophe(c: char)
    requires c == '\''
    ensures Chain([c]) == EscapeChar(c)
  {
    ReplaceCharSingle(c, '&', "&amp;");
    ReplaceCharSingle(c, '<', "&lt;");
    ReplaceCharSingle(c, '>', "&gt;");
    ReplaceCharSingle(c, '"', "&quot;");
    ReplaceCharSingle(c, '\'', "&apos;");
  }

  lemma ChainChar(c: char)
    ensures Chain([c]) == EscapeChar(c)
  {
    if c == '&' {
      ChainAmpersand(c);
    } else if c == '<' {
      ChainLess(c);
    } else if c == '>' {
      ChainGreater(c);
    } else if c == '"' {
      ChainQuote(c);
    } else if c == '\'' {
      ChainApostrophe(c);
    } else {
      ChainAbsent([c]);
    }
  }

  lemma ChainConcat(a: string, b: string)
    ensures Chain(a + b) == Chain(a) + Chain(b)
  {
    ReplaceCharConcat(a, b, '&', "&amp;");
    var a1, b1 := ReplaceChar(a, '&', "&amp;"), ReplaceChar(b, '&', "&amp;");
    ReplaceCharConcat(a1, b1, '<', "&lt;");
    var a2, b2 := ReplaceChar(a1, '<', "&lt;"), ReplaceChar(b1, '<', "&lt;");
    ReplaceCharConcat(a2, b2, '>', "&gt;");
    var a3, b3 := ReplaceChar(a2, '>', "&gt;"), ReplaceChar(b2, '>', "&gt;");
    ReplaceCharConcat(a3, b3, '"', "&quot;");
    var a4, b4 := ReplaceChar(a3, '"', "&quot;"), ReplaceChar(b3, '"', "&quot;");
    ReplaceCharConcat(a4, b4, '\'', "&apos;");
  }

  lemma {:induction false} ChainIsEscaped(s: string)
    ensures Chain(s) == Escaped(s)
  {
    if s != [] {
      assert s == [s[0]] + s[1..];
      ChainConcat([s[0]], s[1..]);
      ChainChar(s[0]);
      ChainIsEscaped(s[1..]);
    } else {
      assert Chain(s) == "";
    }
  }

  /** Replacing the markup characters in the order of `sanitizestring`
      escapes every character on its own: no entity is escaped twice. */
  lemma ReplacedIsEscaped(s: string)
    ensures Replaced(s, |Replacements|) == Escaped(s)
  {
    var s1 := Replace(s, "&", "&amp;");
    ReplaceCharIsReplace(s, '&', "&amp;");
    var s2 := Replace(s1, "<", "&lt;");
    ReplaceCharIsReplace(s1, '<', "&lt;");
    var s3 := Replace(s2, ">", "&gt;");
    ReplaceCharIsReplace(s2, '>', "&gt;");
    var s4 := Replace(s3, "\"", "&quot;");
    ReplaceCharIsReplace(s3, '"', "&quot;");
    ReplaceCharIsReplace(s4, '\'', "&apos;");
    assert Replaced(s, 1) == s1;
    assert Replaced(s, 2) == s2;
    assert Replaced(s, 3) == s3;
    assert Replaced(s, 4) == s4;
    ChainIsEscaped(s);
  }

  /** The characters that may not appear raw in an attribute value. */
  predicate Markup(c: char)
  {
    c == '<' || c == '>' || c == '"' || c == '\''
  }

  /** Escaped text has no raw markup character. */
  lemma {:induction false} EscapedHasNoMarkup(s: string)
    ensures forall i :: 0 <= i < |Escaped(s)| ==> !Markup(Escaped(s)[i])
  {
    if s != [] {
      EscapedHasNoMarkup(s[1..]);
      var h := EscapeChar(s[0]);
      assert forall i :: 0 <= i < |h| ==> !Markup(h[i]);
      assert Escaped(s) == h + Escaped(s[1..]);
    }
  }

  /** Reading entities back: the inverse of `Escaped`. */
  function Unescape(s: string): (r: string)
    decreases |s|
  {
    if s == [] then ""
    else if StartsWith(s, "&amp;") then "&" + Unescape(s[5..])
    else if StartsWith(s, "&lt;") then "<" + Unescape(s[4..])
    else if StartsWith(s, "&gt;") then ">" + Unescape(s[4..])
    else if StartsWith(s, "&quot;") then "\"" + Unescape(s[6..])
    else if StartsWith(s, "&apos;") then "'" + Unescape(s[6..])
    else [s[0]] + Unescape(s[1..])
  }

  lemma UnescapeStep(c: char, rest: string)
    ensures Unescape(EscapeChar(c) + rest) == [c] + Unescape(rest)
  {
    if c == '&' {
      UnescapeAmp(rest);
    } else if c == '<' {
      UnescapeLt(rest);
    } else if c == '>' {
      UnescapeGt(rest);
    } else if c == '"' {
      UnescapeQuot(rest);
    } else if c == '\'' {
      UnescapeApos(rest);
    } else {
      UnescapePlain(c, rest);
    }
  }

  lemma UnescapeAmp(rest: string)
    ensures Unescape("&amp;" + rest) == "&" + Unescape(rest)
  {
    var s := "&amp;" + rest;
    assert s[..5] == "&amp;" && s[5..] == rest;
  }

  lemma UnescapeLt(rest: string)
    ensures Unescape("&lt;" + rest) == "<" + Unescape(rest)
  {
    var s := "&lt;" + rest;
    assert s[1] == 'l';
    assert !StartsWith(s, "&amp;");
    assert s[..4] == "&lt;" && s[4..] == rest;
  }

  lemma UnescapeGt(rest: string)
    ensures Unescape("&gt;" + rest) == ">" + Unescape(rest)
  {
    var s := "&gt;" + rest;
    assert s[1] == 'g';
    assert !StartsWith(s, "&amp;") && !StartsWith(s, "&lt;");
    assert s[..4] == "&gt;" && s[4..] == rest;
  }

  lemma UnescapeQuot(rest: string)
    ensures Unescape("&quot;" + rest) == "\"" + Unescape(rest)
  {
    var s := "&quot;" + rest;
    assert s[1] == 'q';
    assert !StartsWith(s, "&amp;") && !StartsWith(s, "&lt;") && !StartsWith(s, "&gt;");
    assert s[..6] == "&quot;" && s[6..] == rest;
  }

  lemma UnescapeApos(rest: string)
    ensures Unescape("&apos;" + rest) == "'" + Unescape(rest)
  {
    var s := "&apos;" + rest;
    assert s[1] == 'a' && s[2] == 'p';
    assert !StartsWith(s, "&amp;") && !StartsWith(s, "&lt;") && !StartsWith(s, "&gt;");
    assert !StartsWith(s, "&quot;");
    assert s[..6] == "&apos;" && s[6..] == rest;
  }

  lemma UnescapePlain(c: char, rest: string)
    requires c != '&'
    ensures Unescape([c] + rest) == [c] + Unescape(rest)
  {
    var s := [c] + rest;
    assert s[0] == c;
    assert !StartsWith(s, "&amp;") && !StartsWith(s, "&lt;") && !StartsWith(s, "&gt;");
    assert !StartsWith(s, "&quot;") && !StartsWith(s, "&apos;");
    assert s[1..] == rest;
  }

  /** Escaping loses nothing: reading the entities back gives the text. */
  lemma {:induction false} UnescapeEscaped(s: string)
    ensures Unescape(Escaped(s)) == s
  {
    if s != [] {
      UnescapeStep(s[0], Escaped(s[1..]));
      UnescapeEscaped(s[1..]);
      assert s == [s[0]] + s[1..];
    }
  }

  // ---------------------------------------------------------------------
  // getixs

  /** `getixs`: the comma-separated integers of the `ixs` attribute when
      there is one, else those of every `ix-list` child in turn. A piece that
      is not a number fails, and so does an `ix-list` child without `ixs`. */
  function GetIxs(x: Element): (r: Result<seq<int>>)
  {
    match Lookup(x.attrib, "ixs")
    case Some(ixs) =>
      (match ParseIntList(ixs)
       case Some(xs) => Ok(xs)
       case None => Err(ValueError("invalid literal for int(): " + ixs)))
    case None => IxLists(AllTagged(x.children, "ix-list"))
  }

  function IxLists(ls: seq<Element>): (r: Result<seq<int>>)
  {
    if ls == [] then Ok([])
    else match Lookup(ls[0].attrib, "ixs")
      case None => Err(Failure("ix-list without ixs"))
      case Some(ixs) =>
        match ParseIntList(ixs)
        case None => Err(ValueError("invalid literal for int(): " + ixs))
        case Some(xs) =>
          match IxLists(ls[1..])
          case Err(e) => Err(e)
          case Ok(ys) => Ok(xs + ys)
  }

  /** The `ixs` text of a non-empty list. */
  function IxsText(xs: seq<int>): (s: string)
  {
    Join(",", IntStrings(xs))
  }

  /** An `ixs` attribute holding a list is read back as that list. */
  lemma GetIxsAttribute(x: Element, xs: seq<int>)
    requires xs != [] && Lookup(x.attrib, "ixs") == Some(IxsText(xs))
    ensures GetIxs(x) == Ok(xs)
  {
    ParseIntListJoin(xs);
  }

  /** All the lists, one after another. */
  function Concat(ls: seq<seq<int>>): (r: seq<int>)
  {
    if ls == [] then [] else ls[0] + Concat(ls[1..])
  }

  /** Without an `ixs` attribute, `ix-list` children holding lists are read
      back as their concatenation; other children are skipped. */
  lemma {:induction false} IxListsRead(ls: seq<Element>, xss: seq<seq<int>>)
    requires |ls| == |xss|
    requires forall i :: 0 <= i < |ls| ==> xss[i] != [] && Lookup(ls[i].attrib, "ixs") == Some(IxsText(xss[i]))
    ensures IxLists(ls) == Ok(Concat(xss))
  {
    if ls != [] {
      ParseIntListJoin(xss[0]);
      IxListsRead(ls[1..], xss[1..]);
    }
  }

  // ---------------------------------------------------------------------
  // attributes_to_pretty, element_to_pretty, doc_to_pretty

  function KeysOf(attr: Dict<string, string>): (ks: seq<string>)
    ensures |ks| == |attr| && forall i :: 0 <= i < |attr| ==> ks[i] == attr[i].0
  {
    if attr == [] then [] else [attr[0].0] + KeysOf(attr[1..])
  }

  /** `sorted(attr)`: the attribute names in string order. */
  function SortedNames(attr: Dict<string, string>): (ks: seq<string>)
  {
    SortWith(KeysOf(attr), StringLess)
  }

  lemma StringLessStrict()
    ensures StrictOrder(StringLess)
  {
    forall a ensures !StringLess(a, a) {
      StringLessIrreflexive(a);
    }
    forall a, b, c | StringLess(a, b) && StringLess(b, c) ensures StringLess(a, c) {
      StringLessTransitive(a, b, c);
    }
  }

  /** The names come sorted, each name of the element exactly as often as
      it occurs. */
  lemma SortedNamesOrder(attr: Dict<string, string>)
    ensures SortedWith(SortedNames(attr), StringLess)
    ensures multiset(SortedNames(attr)) == multiset(KeysOf(attr))
  {
    StringLessStrict();
    SortWithSorted(KeysOf(attr), StringLess);
  }

  /** One `key="value"` with the value escaped. */
  function AttrText(attr: Dict<string, string>, key: string): (r: string)
  {
    key + "=\"" + Escaped(Get(attr, key, "")) + "\""
  }

  function AttrTexts(attr: Dict<string, string>, keys: seq<string>, prefix: string): (r: seq<string>)
    ensures |r| == |keys|
    ensures forall i :: 0 <= i < |keys| ==> r[i] == prefix + AttrText(attr, keys[i])
  {
    if keys == [] then [] else [prefix + AttrText(attr, keys[0])] + AttrTexts(attr, keys[1..], prefix)
  }

  /** `attributes_to_pretty`: nothing for no attributes; up to four on the
      tag's line, separated by blanks; more than four on lines of their own
      indented by indent + 2. In both layouts the names come sorted. */
  function AttributesToPretty(attr: Dict<string, string>, indent: nat): (r: string)
    ensures r == "" <==> attr == []
    ensures 0 < |attr| <= 4 ==> r[0] == ' '
    ensures |attr| > 4 ==> r[0] == '\n'
  {
    if |attr| == 0 then ""
    else if |attr| > 4 then "\n" + Join("\n", AttrTexts(attr, SortedNames(attr), Spaces(indent + 2)))
    else " " + Join(" ", AttrTexts(attr, SortedNames(attr), ""))
  }

  /** Python's `t.strip()` is empty: only whitespace. */
  predicate Blank(t: string)
  {
    forall i :: 0 <= i < |t| ==> t[i] in {' ', '\t', '\n', '\r', '\U{B}', '\U{C}'}
  }

  /** Python's `''.join(lines)`. */
  function Concatenate(lines: seq<string>): (r: string)
  {
    if lines == [] then "" else lines[0] + Concatenate(lines[1..])
  }

  /** Every line opens with `indent` blanks. */
  predicate Indented(lines: seq<string>, indent: nat)
  {
    forall i :: 0 <= i < |lines| ==> |lines[i]| >= indent && lines[i][..indent] == Spaces(indent)
  }

  /** `element_to_pretty`: an element with neither text nor children is one
      self-closing line; one with children is its opening line, the children
      at indent + 2 and its closing line; one with text is a single line
      (its children are then not printed). Every line starts with the
      indentation. */
  function ElementToPretty(e: Element, indent: nat): (lines: seq<string>)
    ensures |lines| >= 1 && Indented(lines, indent)
    decreases e, 1
  {
    var attrs := AttributesToPretty(e.attrib, indent);
    var ind := Spaces(indent);
    if e.text.None? || Blank(e.text.value) then
      if e.children == [] then
        IndentedLine("<" + e.tag + (attrs + "/>\n"), indent);
        [ind + ("<" + e.tag + (attrs + "/>\n"))]
      else
        var inner := ChildrenToPretty(e.children, indent + 2);
        var open, close := ind + ("<" + e.tag + (attrs + ">\n")), ind + ("</" + e.tag + ">\n");
        IndentedWider(inner, indent);
        IndentedLine("<" + e.tag + (attrs + ">\n"), indent);
        IndentedLine("</" + e.tag + ">\n", indent);
        IndentedJoin([open], inner, indent);
        IndentedJoin([open] + inner, [close], indent);
        [open] + inner + [close]
    else
      IndentedLine("<" + e.tag + (attrs + ">" + e.text.value + "</" + e.tag + ">\n"), indent);
      [ind + ("<" + e.tag + (attrs + ">" + e.text.value + "</" + e.tag + ">\n"))]
  }

  /** The layout of one element: the first line opens the tag; a single
      line exactly when there is text or there are no children; without
      text and children the line closes itself; with children the last line
      closes the tag. */
  lemma ElementToPrettyShape(e: Element, indent: nat)
    ensures var lines := ElementToPretty(e, indent);
      StartsWith(lines[0], Spaces(indent) + "<" + e.tag) &&
      (|lines| == 1 <==> (e.text.Some? && !Blank(e.text.value)) || e.children == []) &&
      ((e.text.None? || Blank(e.text.value)) && e.children == [] ==>
        lines == [Spaces(indent) + ("<" + e.tag + (AttributesToPretty(e.attrib, indent) + "/>\n"))]) &&
      ((e.text.None? || Blank(e.text.value)) && e.children != [] ==>
        lines[|lines| - 1] == Spaces(indent) + ("</" + e.tag + ">\n"))
  {
    ElementOpensTag(e, indent);
    ElementSingleLine(e, indent);
    if (e.text.None? || Blank(e.text.value)) && e.children == [] {
      ElementSelfClosing(e, indent);
    }
    if (e.text.None? || Blank(e.text.value)) && e.children != [] {
      ElementClosesTag(e, indent);
    }
  }

  lemma ElementOpensTag(e: Element, indent: nat)
    ensures StartsWith(ElementToPretty(e, indent)[0], Spaces(indent) + "<" + e.tag)
  {
    var attrs := AttributesToPretty(e.attrib, indent);
    var tail :=
      if e.text.Some? && !Blank(e.text.value) then attrs + ">" + e.text.value + "</" + e.tag + ">\n"
      else if e.children == [] then attrs + "/>\n"
      else attrs + ">\n";
    OpensTag(Spaces(indent), e.tag, tail);
  }

  lemma ElementSingleLine(e: Element, indent: nat)
    ensures |ElementToPretty(e, indent)| == 1 <==> (e.text.Some? && !Blank(e.text.value)) || e.children == []
  {
    if (e.text.None? || Blank(e.text.value)) && e.children != [] {
      assert |ChildrenToPretty(e.children, indent + 2)| >= 1;
    }
  }

  lemma ElementSelfClosing(e: Element, indent: nat)
    requires (e.text.None? || Blank(e.text.value)) && e.children == []
    ensures ElementToPretty(e, indent) == [Spaces(indent) + ("<" + e.tag + (AttributesToPretty(e.attrib, indent) + "/>\n"))]
  {
  }

  lemma ElementClosesTag(e: Element, indent: nat)
    requires (e.text.None? || Blank(e.text.value)) && e.children != []
    ensures var lines := ElementToPretty(e, indent);
      lines[|lines| - 1] == Spaces(indent) + ("</" + e.tag + ">\n")
  {
  }

  lemma OpensTag(ind: string, tag: string, tail: string)
    ensures StartsWith(ind + ("<" + tag + tail), ind + "<" + tag)
  {
    var x := ind + "<" + tag;
    assert ind + ("<" + tag + tail) == x + tail;
    assert (x + tail)[..|x|] == x;
  }

  /** The lines of the children, one child after another. */
  function ChildrenToPretty(cs: seq<Element>, indent: nat): (lines: seq<string>)
    ensures Indented(lines, indent)
    ensures |lines| >= |cs|
    decreases cs, 0
  {
    if cs == [] then []
    else
      var first := ElementToPretty(cs[0], indent);
      var rest := ChildrenToPretty(cs[1..], indent);
      first + rest
  }

  lemma IndentedLine(rest: string, indent: nat)
    ensures Indented([Spaces(indent) + rest], indent)
  {
    assert (Spaces(indent) + rest)[..indent] == Spaces(indent);
  }

  lemma IndentedJoin(a: seq<string>, b: seq<string>, indent: nat)
    requires Indented(a, indent) && Indented(b, indent)
    ensures Indented(a + b, indent)
  {
    forall i | 0 <= i < |a + b|
      ensures |(a + b)[i]| >= indent && (a + b)[i][..indent] == Spaces(indent)
    {
      if i >= |a| {
        assert (a + b)[i] == b[i - |a|];
      }
    }
  }

  /** Lines indented by indent + 2 are indented by indent. */
  lemma IndentedWider(lines: seq<string>, indent: nat)
    requires Indented(lines, indent + 2)
    ensures Indented(lines, indent)
  {
    forall i | 0 <= i < |lines|
      ensures lines[i][..indent] == Spaces(indent)
    {
      assert lines[i][..indent] == lines[i][..indent + 2][..indent];
    }
  }

  const Declaration: string := "<?xml version=\"1.0\" encoding=\"UTF-8\"?>\n"

  /** `doc_to_pretty`: the XML declaration, then the root element. */
  function DocToPretty(root: Element): (r: string)
    ensures StartsWith(r, Declaration)
    ensures r[|Declaration|..] == Concatenate(ElementToPretty(root, 0))
  {
    var lines := [Declaration] + ElementToPretty(root, 0);
    assert lines[1..] == ElementToPretty(root, 0);
    Concatenate(lines)
  }

  // ---------------------------------------------------------------------
  // dict_to_xmlpretty

  /** The element for one dictionary entry: its key and its value as
      attributes, set in that order. */
  function EntryElement(etag: string, kname: string, vname: string, k: string, v: string): (e: Element)
  {
    Element(etag, Put(Put([], kname, k), vname, v), None, [])
  }

  function EntryElements(d: Dict<string, string>, etag: string, kname: string, vname: string): (es: seq<Element>)
    ensures |es| == |d|
    ensures forall i :: 0 <= i < |d| ==> es[i] == EntryElement(etag, kname, vname, d[i].0, d[i].1)
  {
    if d == [] then [] else [EntryElement(etag, kname, vname, d[0].0, d[0].1)] + EntryElements(d[1..], etag, kname, vname)
  }

  /** The tree `dict_to_xmlpretty` builds: the analyzer root holding one
      `dtag` element with an `etag` element per entry. */
  function DictTree(d: Dict<string, string>, dtag: string, etag: string, kname: string, vname: string): (root: Element)
  {
    Element("codehawk-java-analyzer", [], None, [Element(dtag, [], None, EntryElements(d, etag, kname, vname))])
  }

  /** `dict_to_xmlpretty`; the values are given already turned into text. */
  function DictToXmlPretty(d: Dict<string, string>, dtag: string, etag: string, kname: string, vname: string): (r: string)
    ensures StartsWith(r, Declaration)
  {
    DocToPretty(DictTree(d, dtag, etag, kname, vname))
  }

  /** One element per entry, in the dictionary's order, carrying the key
      under `kname` and the value under `vname` (with distinct names). */
  lemma DictTreeEntries(d: Dict<string, string>, dtag: string, etag: string, kname: string, vname: string)
    requires kname != vname
    ensures var es := DictTree(d, dtag, etag, kname, vname).children[0].children;
      |es| == |d| &&
      forall i :: 0 <= i < |d| ==>
        es[i].tag == etag &&
        Lookup(es[i].attrib, kname) == Some(d[i].0) && Lookup(es[i].attrib, vname) == Some(d[i].1)
  {
    var es := DictTree(d, dtag, etag, kname, vname).children[0].children;
    forall i | 0 <= i < |d|
      ensures Lookup(es[i].attrib, kname) == Some(d[i].0) && Lookup(es[i].attrib, vname) == Some(d[i].1)
    {
      LookupPut(Put([], kname, d[i].0), vname, d[i].1, kname);
      LookupPut(Put([], kname, d[i].0), vname, d[i].1, vname);
      LookupPut([], kname, d[i].0, kname);
    }
  }
}
