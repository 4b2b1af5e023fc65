/** Class names (chj/index/Classname.py): a class-name record lists the
    string-table indices of the package components followed by the index
    of the simple name, and the names are built by joining and slicing
    those strings. The type dictionary's string table is the parameter
    `getString`. */
module Classnames {
  import opened Wrappers
  import opened Strings

  /** A class-name record's args. */
  datatype Classname = Classname(args: seq<int>)

  /** The strings of the package components, args[:-1]; none when args is
      empty. */
  function PackageParts(c: Classname, getString: int -> string): (r: seq<string>)
    ensures |r| == if |c.args| == 0 then 0 else |c.args| - 1
    ensures forall k :: 0 <= k < |r| ==> r[k] == getString(c.args[k])
  {
    var n := if |c.args| == 0 then 0 else |c.args| - 1;
    seq(n, k requires 0 <= k < n => getString(c.args[k]))
  }

  /** `get_package_name`. */
  function PackageName(c: Classname, getString: int -> string): string
  {
    Join(".", PackageParts(c, getString))
  }

  /** The package name is the package components joined by dots: when no
      component holds a dot, splitting it at the dots gives them back. */
  lemma PackageNameParts(c: Classname, getString: int -> string)
    requires |c.args| > 1
    requires forall k :: 0 <= k < |c.args| - 1 ==> '.' !in getString(c.args[k])
    ensures Split(PackageName(c, getString), '.') == PackageParts(c, getString)
  {
    SplitJoin(PackageParts(c, getString), '.');
  }

  /** The first character of each string, or an IndexError for an empty
      one. */
  function Initials(parts: seq<string>): (r: Result<string>)
    ensures r.Ok? <==> forall k :: 0 <= k < |parts| ==> |parts[k]| > 0
    ensures r.Ok? ==> |r.value| == |parts| && forall k :: 0 <= k < |parts| ==> r.value[k] == parts[k][0]
    ensures r.Err? ==> r.error.IndexError?
  {
    if parts == [] then Ok("")
    else if |parts[0]| == 0 then Err(IndexError("string index out of range"))
    else
      var rest := Initials(parts[1..]);
      if rest.Err? then rest else Ok([parts[0][0]] + rest.value)
  }

  /** `get_abbreviated_package_name`: the first character of each package
      component. */
  function AbbreviatedPackageName(c: Classname, getString: int -> string): (r: Result<string>)
    ensures r.Ok? <==> forall k :: 0 <= k < |PackageParts(c, getString)| ==> |PackageParts(c, getString)[k]| > 0
    ensures r.Ok? ==> |r.value| == |PackageParts(c, getString)|
    ensures r.Ok? ==> forall k :: 0 <= k < |r.value| ==> r.value[k] == PackageParts(c, getString)[k][0]
    ensures r.Err? ==> r.error.IndexError?
  {
    Initials(PackageParts(c, getString))
  }

  /** `get_simple_name`: the string at the last arg; an IndexError when
      there is none. */
  function SimpleName(c: Classname, getString: int -> string): (r: Result<string>)
    ensures r.Ok? <==> |c.args| > 0
    ensures r.Ok? ==> r.value == getString(c.args[|c.args| - 1])
    ensures r.Err? ==> r.error.IndexError?
  {
    if |c.args| == 0 then Err(IndexError("list index out of range"))
    else Ok(getString(c.args[|c.args| - 1]))
  }

  /** `get_qname`: package, a dot, and the simple name. */
  function QName(c: Classname, getString: int -> string): (r: Result<string>)
    ensures r.Ok? <==> |c.args| > 0
    ensures r.Ok? ==> r.value == PackageName(c, getString) + "." + getString(c.args[|c.args| - 1])
  {
    var simple := SimpleName(c, getString);
    if simple.Err? then Err(simple.error) else Ok(PackageName(c, getString) + "." + simple.value)
  }

  /** `get_name`: package, a dot and the simple name when there are args,
      the simple name (which then fails) otherwise. */
  function Name(c: Classname, getString: int -> string): (r: Result<string>)
    ensures r.Ok? <==> |c.args| > 0
    ensures r.Err? ==> r.error.IndexError?
  {
    if |c.args| > 0 then
      var simple := SimpleName(c, getString);
      Ok(PackageName(c, getString) + "." + simple.value)
    else SimpleName(c, getString)
  }

  /** `get_name` and `get_qname` agree on every record, and `__str__` is
      `get_name`; a class of the default package prints with a leading
      dot. */
  lemma NameIsQName(c: Classname, getString: int -> string)
    ensures Name(c, getString) == QName(c, getString)
    ensures |c.args| == 1 ==> Name(c, getString) == Ok("." + getString(c.args[0]))
  {
    if |c.args| == 1 {
      assert PackageParts(c, getString) == [];
      assert "" + "." + getString(c.args[0]) == "." + getString(c.args[0]);
    }
  }

  /** `get_aqname` as written: the simple name alone whenever there are
      args; otherwise the abbreviation of no package components, which is
      empty, and then the simple name, which fails. */
  function AqNameAsWritten(c: Classname, getString: int -> string): Result<string>
  {
    if |c.args| > 0 then SimpleName(c, getString)
    else
      var abbrev := AbbreviatedPackageName(c, getString);
      if abbrev.Err? then abbrev else SimpleName(c, getString)
  }

  /** As written, `get_aqname` is `get_simple_name` on every record. */
  lemma AqNameAsWrittenIsSimpleName(c: Classname, getString: int -> string)
    ensures AqNameAsWritten(c, getString) == SimpleName(c, getString)
  {
  }

  /** As written, a class in a package gets no package abbreviation: the
      name java.lang.String (args [p1, p2, s]) comes out as String. */
  lemma AqNameAsWrittenDropsPackage(p1: int, p2: int, s: int, getString: int -> string)
    requires getString(p1) == "java" && getString(p2) == "lang" && getString(s) == "String"
    ensures AqNameAsWritten(Classname([p1, p2, s]), getString) == Ok("String")
    ensures AqName(Classname([p1, p2, s]), getString) == Ok("jl.String")
  {
    var parts := PackageParts(Classname([p1, p2, s]), getString);
    assert parts == ["java", "lang"];
    var a := Initials(parts);
    assert a.Ok? && |a.value| == 2;
    assert a.value[0] == 'j' && a.value[1] == 'l';
    assert a.value == "jl";
    assert AbbreviatedPackageName(Classname([p1, p2, s]), getString) == Ok("jl");
    assert "jl" + "." + "String" == "jl.String";
  }

  /** `get_aqname` with its branches the way round the name-building
      methods use them: the abbreviated package, a dot and the simple
      name. */
  function AqName(c: Classname, getString: int -> string): (r: Result<string>)
    ensures r.Ok? <==> |c.args| > 0 && forall k :: 0 <= k < |c.args| - 1 ==> |getString(c.args[k])| > 0
    ensures r.Ok? ==> |r.value| == |c.args| + |getString(c.args[|c.args| - 1])|
    ensures r.Ok? ==> forall k :: 0 <= k < |c.args| - 1 ==> r.value[k] == getString(c.args[k])[0]
    ensures r.Ok? ==> r.value[|c.args| - 1..] == "." + getString(c.args[|c.args| - 1])
  {
    if |c.args| > 0 then
      var abbrev := AbbreviatedPackageName(c, getString);
      var simple := SimpleName(c, getString);
      if abbrev.Err? then abbrev else Ok(abbrev.value + "." + simple.value)
    else SimpleName(c, getString)
  }
}
