/** File naming (chj/util/fileutil.py): where the analysis results of an
    application live, as paths built with Python's `os.path.join`, plus the
    guarded attribute and child lookups and the engagement lookup. The
    filesystem itself (directory listings, the engagements data file) is
    given as parameters. */
module FileUtil {
  import opened Wrappers
  import opened Strings
  import opened Dicts
  import opened XmlUtil

  // ---------------------------------------------------------------------
  // os.path.join

  /** `os.path.join(a, b)` on POSIX: an absolute b replaces a; otherwise a
      separator is put between them unless a is empty or already ends
      with one. */
  function PathJoin(a: string, b: string): (r: string)
  {
    if StartsWith(b, "/") then b
    else if a == "" || a[|a| - 1] == '/' then a + b
    else a + "/" + b
  }

  /** Joining a relative component to a directory that does not end with a
      separator puts exactly one separator between them. */
  lemma PathJoinRelative(a: string, b: string)
    requires a != "" && a[|a| - 1] != '/'
    requires b == "" || b[0] != '/'
    ensures PathJoin(a, b) == a + "/" + b
    ensures |PathJoin(a, b)| == |a| + 1 + |b|
  {
    if |b| >= 1 {
      assert b[..1][0] == b[0];
    }
  }

  // ---------------------------------------------------------------------
  // Splitting paths into components

  /** The first separator of a + b lies in a when a has one. */
  lemma {:induction false} IndexOfExtend(a: string, b: string, c: char)
    requires c in a
    ensures IndexOf(a + b, c) == IndexOf(a, c)
  {
    if a[0] != c {
      assert (a + b)[1..] == a[1..] + b;
      assert c in a[1..] by {
        var i :| 0 <= i < |a| && a[i] == c;
        assert a[1..][i - 1] == c;
      }
      IndexOfExtend(a[1..], b, c);
    }
  }

  /** A text without the separator is one component. */
  lemma SplitNone(s: string, c: char)
    requires c !in s
    ensures Split(s, c) == [s]
  {
    assert forall i :: 0 <= i < |s| ==> s[i] != c;
  }

  /** Splitting x, a separator, then y gives the components of x followed by
      those of y. */
  lemma {:induction false} SplitConcat(x: string, y: string, c: char)
    ensures Split(x + [c] + y, c) == Split(x, c) + Split(y, c)
    decreases |x|
  {
    if c in x {
      var k := IndexOf(x, c);
      SplitFirstIn(x, y, c);
      var rest := x[k + 1..];
      SplitConcat(rest, y, c);
      ConsAppend(x[..k], Split(rest, c), Split(y, c), Split(x + [c] + y, c), Split(x, c));
    } else {
      SplitFirstOut(x, y, c);
    }
  }

  lemma ConsAppend<T>(h: T, a: seq<T>, b: seq<T>, whole: seq<T>, left: seq<T>)
    requires whole == [h] + (a + b) && left == [h] + a
    ensures whole == left + b
  {
  }

  /** When x has a separator, x + [c] + y is cut where x is. */
  lemma SplitFirstIn(x: string, y: string, c: char)
    requires c in x
    ensures IndexOf(x, c) < |x|
    ensures Split(x + [c] + y, c) == [x[..IndexOf(x, c)]] + Split(x[IndexOf(x, c) + 1..] + [c] + y, c)
    ensures Split(x, c) == [x[..IndexOf(x, c)]] + Split(x[IndexOf(x, c) + 1..], c)
  {
    var k := IndexOf(x, c);
    IndexOfExtend(x, [c] + y, c);
    SplitCutIn(x, [c] + y, c);
    SplitAt(x, c, k, x[..k], x[k + 1..]);
    assert x + [c] + y == x + ([c] + y);
    assert x[k + 1..] + [c] + y == x[k + 1..] + ([c] + y);
  }

  /** When x has a separator, x + t is cut where x is. */
  lemma SplitCutIn(x: string, t: string, c: char)
    requires IndexOf(x, c) < |x|
    requires IndexOf(x + t, c) == IndexOf(x, c)
    ensures Split(x + t, c) == [x[..IndexOf(x, c)]] + Split(x[IndexOf(x, c) + 1..] + t, c)
  {
    var k := IndexOf(x, c);
    SliceConcat(x, t, k);
    SplitAt(x + t, c, k, x[..k], x[k + 1..] + t);
  }

  /** Slicing x + z within x. */
  lemma SliceConcat<T>(x: seq<T>, z: seq<T>, k: nat)
    requires k < |x|
    ensures (x + z)[..k] == x[..k]
    ensures (x + z)[k + 1..] == x[k + 1..] + z
  {
  }

  /** A text with the separator is cut at its first occurrence. */
  lemma SplitAt(s: string, c: char, k: nat, before: string, after: string)
    requires k == IndexOf(s, c) < |s|
    requires before == s[..k] && after == s[k + 1..]
    ensures Split(s, c) == [before] + Split(after, c)
  {
  }

  /** When x has no separator, x is the first component. */
  lemma SplitFirstOut(x: string, y: string, c: char)
    requires c !in x
    ensures Split(x + [c] + y, c) == Split(x, c) + Split(y, c)
  {
    var s := x + [c] + y;
    IndexOfPrefix(x, [c] + y, c);
    assert s == x + ([c] + y);
    assert s[..|x|] == x && s[|x| + 1..] == y;
    assert Split(s, c) == [x] + Split(y, c);
    SplitNone(x, c);
  }

  /** Replacing one separator by another that does not occur keeps the
      components. */
  lemma {:induction false} SplitReplaceChar(s: string, a: char, b: char)
    requires b !in s
    ensures Split(ReplaceChar(s, a, [b]), b) == Split(s, a)
    decreases |s|
  {
    var k := IndexOf(s, a);
    if k == |s| {
      ReplaceCharAbsent(s, a, [b]);
      SplitNone(s, b);
    } else {
      var x, y := s[..k], s[k + 1..];
      assert s == x + [a] + y;
      ReplaceCharConcat(x + [a], y, a, [b]);
      ReplaceCharConcat(x, [a], a, [b]);
      ReplaceCharAbsent(x, a, [b]);
      ReplaceCharSingle(a, a, [b]);
      assert ReplaceChar(s, a, [b]) == x + [b] + ReplaceChar(y, a, [b]);
      assert b !in y by {
        forall i | 0 <= i < |y|
          ensures y[i] != b
        {
          assert y[i] == s[k + 1 + i];
        }
      }
      SplitConcat(x, ReplaceChar(y, a, [b]), b);
      SplitReplaceChar(y, a, b);
      SplitNone(x, b);
      assert Split(s, a) == [x] + Split(y, a);
    }
  }

  /** Replacements that bring no character c in keep c out. */
  lemma {:induction false} ReplaceKeepsOut(s: string, pat: string, rep: string, c: char)
    requires |pat| > 0 && c !in s && c !in rep
    ensures c !in Replace(s, pat, rep)
    decreases |s|
  {
    if |s| >= |pat| {
      if s[..|pat|] == pat {
        assert forall i :: 0 <= i < |s[|pat|..]| ==> s[|pat|..][i] == s[|pat| + i];
        ReplaceKeepsOut(s[|pat|..], pat, rep, c);
      } else {
        assert forall i :: 0 <= i < |s[1..]| ==> s[1..][i] == s[1 + i];
        ReplaceKeepsOut(s[1..], pat, rep, c);
      }
    }
  }

  // ---------------------------------------------------------------------
  // Method names

  /** `transform_methodname`: constructors and class initialisers get names
      a file system accepts, and '$' in lambda names becomes "__". */
  function TransformMethodName(mname: string): (r: string)
  {
    var m1 := Replace(mname, "<init>", "__init__");
    var m2 := Replace(m1, "<clinit>", "__clinit__");
    if StartsWith(m2, "lambda") then ReplaceChar(m2, '$', "__") else m2
  }

  /** A text without '<' contains neither "<init>" nor "<clinit>". */
  lemma {:induction false} NoAngleNoTag(s: string, tag: string)
    requires '<' !in s && |tag| > 0 && tag[0] == '<'
    ensures !Contains(s, tag)
    decreases |s|
  {
    if |tag| <= |s| {
      assert s[0] in s;
      assert s[..|tag|][0] == s[0];
    }
    if |s| > 0 {
      assert forall i :: 0 <= i < |s[1..]| ==> s[1..][i] == s[1 + i];
      NoAngleNoTag(s[1..], tag);
    }
  }

  /** A name without '<' that is not a lambda is kept as it is. */
  lemma TransformPlainName(mname: string)
    requires '<' !in mname && !StartsWith(mname, "lambda")
    ensures TransformMethodName(mname) == mname
  {
    NoAngleNoTag(mname, "<init>");
    ReplaceAbsent(mname, "<init>", "__init__");
    NoAngleNoTag(mname, "<clinit>");
    ReplaceAbsent(mname, "<clinit>", "__clinit__");
  }

  /** A lambda name without '<' keeps its characters, except that each '$'
      becomes "__"; no '$' is left. */
  lemma TransformLambdaName(mname: string)
    requires '<' !in mname && StartsWith(mname, "lambda")
    ensures TransformMethodName(mname) == ReplaceChar(mname, '$', "__")
    ensures '$' !in TransformMethodName(mname)
  {
    NoAngleNoTag(mname, "<init>");
    ReplaceAbsent(mname, "<init>", "__init__");
    NoAngleNoTag(mname, "<clinit>");
    ReplaceAbsent(mname, "<clinit>", "__clinit__");
  }

  /** The constructor gets the file name "__init__". */
  lemma TransformInit(init: string)
    requires init == "<init>"
    ensures TransformMethodName(init) == "__init__"
  {
    ReplaceWhole(init, "__init__");
    KeptName("__init__");
  }

  /** Replacing a whole text gives the replacement. */
  lemma ReplaceWhole(pat: string, rep: string)
    requires |pat| > 0
    ensures Replace(pat, pat, rep) == rep
  {
    assert pat[|pat|..] == [];
    assert Replace(pat, pat, rep) == rep + Replace([], pat, rep);
  }

  /** A name that results from a replacement and has no '<' and no leading
      'l' is kept by the second replacement and is not a lambda. */
  lemma KeptName(u: string)
    requires u == "__init__"
    ensures Replace(u, "<clinit>", "__clinit__") == u
    ensures !StartsWith(u, "lambda")
  {
    assert forall i :: 0 <= i < |u| ==> u[i] == '_' || ('a' <= u[i] <= 'z');
    assert '<' !in u;
    NoAngleNoTag(u, "<clinit>");
    ReplaceAbsent(u, "<clinit>", "__clinit__");
    assert u[0] != 'l';
  }

  /** The class initialiser gets the file name "__clinit__". */
  lemma TransformClinit(clinit: string)
    requires clinit == "<clinit>"
    ensures TransformMethodName(clinit) == "__clinit__"
  {
    var c1 := clinit[1..];
    assert clinit[..|"<init>"|][1] != "<init>"[1];
    assert '<' !in c1;
    NoAngleNoTag(c1, "<init>");
    ReplaceAbsent(c1, "<init>", "__init__");
    assert Replace(clinit, "<init>", "__init__") == [clinit[0]] + c1;
    assert [clinit[0]] + c1 == clinit;
    assert Replace(clinit, "<clinit>", "__clinit__") == "__clinit__" + Replace([], "<clinit>", "__clinit__");
    var v := "__clinit__";
    assert !StartsWith(v, "lambda") by { assert v[0] != 'l'; }
  }

  /** No '/' comes out of a name without one. */
  lemma TransformKeepsSlashOut(mname: string)
    requires '/' !in mname
    ensures '/' !in TransformMethodName(mname)
  {
    var m1 := Replace(mname, "<init>", "__init__");
    ReplaceKeepsOut(mname, "<init>", "__init__", '/');
    var m2 := Replace(m1, "<clinit>", "__clinit__");
    ReplaceKeepsOut(m1, "<clinit>", "__clinit__", '/');
    if StartsWith(m2, "lambda") {
      ReplaceCharIsReplace(m2, '$', "__");
      ReplaceKeepsOut(m2, "$", "__", '/');
    }
  }

  // ---------------------------------------------------------------------
  // Directories and file names

  /** `get_analysisdir`. */
  function AnalysisDir(path: string): (r: string)
  {
    PathJoin(path, "chanalysis")
  }

  /** `get_analysisdatadir`. */
  function AnalysisDataDir(path: string): (r: string)
  {
    PathJoin(AnalysisDir(path), "chdata")
  }

  /** `get_analysis_app_dir`. */
  function AppDir(path: string): (r: string)
  {
    PathJoin(AnalysisDir(path), "chapp")
  }

  /** The analysis directories are `chanalysis/chdata` and
      `chanalysis/chapp` under the application's path. */
  lemma AnalysisDirs(path: string)
    requires path != "" && path[|path| - 1] != '/'
    ensures AnalysisDir(path) == path + "/" + "chanalysis"
    ensures AnalysisDataDir(path) == AnalysisDir(path) + "/" + "chdata"
    ensures AppDir(path) == AnalysisDir(path) + "/" + "chapp"
  {
    PathJoinRelative(path, "chanalysis");
    PathJoinRelative(AnalysisDir(path), "chdata");
    PathJoinRelative(AnalysisDir(path), "chapp");
  }

  /** `get_app_packagedir`: the package's dots become separators. */
  function PackageDir(path: string, package: string): (r: string)
  {
    PathJoin(AppDir(path), ReplaceChar(package, '.', "/"))
  }

  /** The directory name of a class: '$' (of nested classes) is spelled out. */
  function ClassDirName(cname: string): (r: string)
    ensures '$' !in r
  {
    ReplaceChar(cname, '$', "__dollarsign__")
  }

  /** `get_app_classdir`. */
  function ClassDir(path: string, package: string, cname: string): (r: string)
  {
    PathJoin(PackageDir(path, package), ClassDirName(cname))
  }

  /** `get_app_methods_filename`, with its base name below. */
  function MethodsFilename(path: string, package: string, cname: string, mname: string, id: string, suffix: string): (r: string)
  {
    PathJoin(ClassDir(path, package, cname), MethodsBaseName(mname, id, suffix))
  }

  function MethodsBaseName(mname: string, id: string, suffix: string): (r: string)
  {
    TransformMethodName(mname) + "_" + id + "_" + suffix + ".xml"
  }

  /** The application directory does not end with a separator. */
  lemma AppDirEnd(path: string)
    ensures AppDir(path) != "" && AppDir(path)[|AppDir(path)| - 1] != '/'
  {
    var a := AnalysisDir(path);
    var c := "chapp";
    assert !StartsWith(c, "/") by { assert c[0] != '/'; }
    if a == "" || a[|a| - 1] == '/' {
      assert AppDir(path) == a + c;
    } else {
      assert AppDir(path) == a + "/" + c;
    }
  }

  /** A package name that is a dotted list of non-empty names. */
  predicate PackageName(package: string)
  {
    package != "" && package[0] != '.' && package[|package| - 1] != '.' && '/' !in package
  }

  /** The class directory, component by component: the application
      directory, one directory per package name, then the class's own
      directory, without '$'. */
  lemma ClassDirComponents(path: string, package: string, cname: string)
    requires PackageName(package)
    requires cname != "" && '/' !in cname
    ensures ClassDir(path, package, cname) == AppDir(path) + "/" + ReplaceChar(package, '.', "/") + "/" + ClassDirName(cname)
    ensures Split(ClassDir(path, package, cname), '/') == Split(AppDir(path), '/') + Split(package, '.') + [ClassDirName(cname)]
  {
    var app := AppDir(path);
    var pkg := ReplaceChar(package, '.', "/");
    var cd := ClassDirName(cname);
    AppDirEnd(path);
    ReplaceCharEnds(package, '.', '/');
    PathJoinRelative(app, pkg);
    assert PackageDir(path, package) == app + "/" + pkg;
    ReplaceCharKeepsOut(cname, '$', "__dollarsign__", '/');
    assert cd[0] != '/' by { assert cd[0] in cd; }
    PathJoinRelative(app + "/" + pkg, cd);
    SplitConcat(app, pkg, '/');
    SplitConcat(app + "/" + pkg, cd, '/');
    SplitReplaceChar(package, '.', '/');
    SplitNone(cd, '/');
  }

  /** With a package name, the first and last characters of its path are
      not separators. */
  lemma ReplaceCharEnds(package: string, a: char, b: char)
    requires package != "" && package[0] != a && package[|package| - 1] != a && b !in package
    ensures |ReplaceChar(package, a, [b])| == |package|
    ensures ReplaceChar(package, a, [b])[0] != b
    ensures ReplaceChar(package, a, [b])[|package| - 1] != b
  {
    var n := |package|;
    ReplaceCharConcat([package[0]], package[1..], a, [b]);
    ReplaceCharSingle(package[0], a, [b]);
    assert package == [package[0]] + package[1..];
    ReplaceCharLength(package[1..], a, b);
    ReplaceCharConcat(package[..n - 1], [package[n - 1]], a, [b]);
    ReplaceCharSingle(package[n - 1], a, [b]);
    assert package == package[..n - 1] + [package[n - 1]];
    ReplaceCharLength(package[..n - 1], a, b);
    assert package[0] in package && package[n - 1] in package;
  }

  lemma {:induction false} ReplaceCharLength(s: string, a: char, b: char)
    ensures |ReplaceChar(s, a, [b])| == |s|
  {
    if s != [] {
      ReplaceCharLength(s[1..], a, b);
    }
  }

  lemma {:induction false} ReplaceCharKeepsOut(s: string, a: char, rep: string, c: char)
    requires c !in s && c !in rep
    ensures c !in ReplaceChar(s, a, rep)
  {
    ReplaceCharIsReplace(s, a, rep);
    ReplaceKeepsOut(s, [a], rep, c);
  }

  /** The class directory ends with its own (non-empty) name. */
  lemma ClassDirEnd(path: string, package: string, cname: string)
    requires PackageName(package)
    requires cname != "" && '/' !in cname
    ensures ClassDir(path, package, cname) != ""
    ensures ClassDir(path, package, cname)[|ClassDir(path, package, cname)| - 1] != '/'
  {
    ClassDirComponents(path, package, cname);
    var cd := ClassDirName(cname);
    ReplaceCharKeepsOut(cname, '$', "__dollarsign__", '/');
    assert cd != "" by { assert cname[0] == '$' || cname[0] != '$'; ReplaceCharNonEmpty(cname, '$', "__dollarsign__"); }
    assert cd[|cd| - 1] in cd;
  }

  lemma ReplaceCharNonEmpty(s: string, c: char, rep: string)
    requires s != "" && rep != ""
    ensures ReplaceChar(s, c, rep) != ""
  {
  }

  /** The base name of a methods file has no separator. */
  lemma MethodsBaseNoSlash(mname: string, id: string, suffix: string)
    requires '/' !in mname && '/' !in id && '/' !in suffix
    ensures '/' !in MethodsBaseName(mname, id, suffix)
    ensures MethodsBaseName(mname, id, suffix) != ""
  {
    TransformKeepsSlashOut(mname);
    var t := TransformMethodName(mname);
    var ext := ".xml";
    assert '/' !in ext && '/' !in "_";
    assert MethodsBaseName(mname, id, suffix) == t + "_" + id + "_" + suffix + ext;
  }

  /** A methods file lies directly in its class's directory; its name is the
      transformed method name, the id and the suffix. */
  lemma MethodsFileComponents(path: string, package: string, cname: string, mname: string, id: string, suffix: string)
    requires PackageName(package)
    requires cname != "" && '/' !in cname
    requires '/' !in mname && '/' !in id && '/' !in suffix
    ensures Split(MethodsFilename(path, package, cname, mname, id, suffix), '/')
         == Split(AppDir(path), '/') + Split(package, '.') + [ClassDirName(cname), MethodsBaseName(mname, id, suffix)]
  {
    var dir := ClassDir(path, package, cname);
    var base := MethodsBaseName(mname, id, suffix);
    ClassDirComponents(path, package, cname);
    ClassDirEnd(path, package, cname);
    MethodsBaseNoSlash(mname, id, suffix);
    assert base[0] != '/' by { assert base[0] in base; }
    PathJoinRelative(dir, base);
    SplitConcat(dir, base, '/');
    SplitNone(base, '/');
  }

  // ---------------------------------------------------------------------
  // Taint trails

  /** The base name of the taint-trail file of a taint origin. */
  function TrailName(id: int): (r: string)
  {
    "tainttrails_" + IntToString(id) + ".xml"
  }

  /** `get_data_taint_trail_filename`. */
  function TrailFilename(path: string, id: int): (r: string)
  {
    PathJoin(AnalysisDataDir(path), TrailName(id))
  }

  /** The taint origin a trail file name is about, read back. */
  function TrailId(name: string): (r: Option<int>)
  {
    var prefix := "tainttrails_";
    var ext := ".xml";
    if |name| >= |prefix| + |ext| && name[..|prefix|] == prefix && name[|name| - |ext|..] == ext
    then ParseInt(name[|prefix|..|name| - |ext|])
    else None
  }

  /** The id of a taint-trail file name is read back from it. */
  lemma TrailIdOfName(id: int)
    ensures TrailId(TrailName(id)) == Some(id)
    ensures StartsWith(TrailName(id), "tainttrails_")
  {
    var prefix := "tainttrails_";
    var ext := ".xml";
    var n := IntToString(id);
    var name := prefix + n + ext;
    assert TrailName(id) == name;
    assert name[..|prefix|] == prefix;
    assert name[|name| - |ext|..] == ext;
    assert name[|prefix|..|name| - |ext|] == n;
    ParseIntToString(id);
  }

  /** `list_data_taint_trail_filenames` on the names a directory lists:
      those that start with the trail prefix, in the listing's order. */
  function TrailFilenames(filenames: seq<string>): (r: seq<string>)
    ensures forall f :: f in r <==> f in filenames && StartsWith(f, "tainttrails_")
    ensures |r| <= |filenames|
  {
    if filenames == [] then []
    else (if StartsWith(filenames[0], "tainttrails_") then [filenames[0]] else []) + TrailFilenames(filenames[1..])
  }

  /** The trail file of any taint origin is listed when it is present. */
  lemma TrailNameListed(id: int, filenames: seq<string>)
    ensures TrailName(id) in TrailFilenames(filenames) <==> TrailName(id) in filenames
  {
    TrailIdOfName(id);
  }

  // ---------------------------------------------------------------------
  // Guarded lookups

  /** `safe_get` with the conversion the caller names (`str`, `int`, ...):
      a missing attribute raises CHJError with the caller's message. */
  function SafeGet<T>(xnode: Element, name: string, message: string, convert: string -> Result<T>): (r: Result<T>)
    ensures Lookup(xnode.attrib, name).None? ==> r == Err(CHJError(message))
  {
    match Lookup(xnode.attrib, name)
    case None => Err(CHJError(message))
    case Some(v) => convert(v)
  }

  /** Python's `int` as a conversion. */
  function ToInt(s: string): (r: Result<int>)
    ensures r.Ok? <==> ParseInt(s).Some?
  {
    match ParseInt(s)
    case None => Err(ValueError("invalid literal for int(): " + s))
    case Some(n) => Ok(n)
  }

  /** An integer stored as an attribute is read back by `safe_get`. */
  lemma SafeGetStoredInt(xnode: Element, name: string, message: string, n: int)
    requires KeysDistinct(xnode.attrib)
    ensures SafeGet(xnode.(attrib := Put(xnode.attrib, name, IntToString(n))), name, message, ToInt) == Ok(n)
  {
    LookupPut(xnode.attrib, name, IntToString(n), name);
    ParseIntToString(n);
  }

  /** `safe_find`: the first child with the tag, else CHJError with the
      caller's message. */
  function SafeFind(xnode: Element, name: string, message: string): (r: Result<Element>)
    ensures r.Ok? <==> exists i :: 0 <= i < |xnode.children| && xnode.children[i].tag == name
    ensures r.Ok? ==> r.value in xnode.children && r.value.tag == name
    ensures r.Err? ==> r.error == CHJError(message)
  {
    match Find(xnode, name)
    case None => Err(CHJError(message))
    case Some(c) => Ok(c)
  }

  // ---------------------------------------------------------------------
  // Engagements

  /** The applications of each engagement, in the order the engagements
      data file lists the engagements. */
  type Engagements = Dict<string, seq<string>>

  /** The first engagement whose applications include the name. */
  function EngagementOf(engagements: Engagements, name: string): (r: Option<string>)
    ensures r.Some? <==> exists i :: 0 <= i < |engagements| && name in engagements[i].1
    ensures r.Some? ==> exists i :: 0 <= i < |engagements| && engagements[i].0 == r.value && name in engagements[i].1 &&
                                   (forall j :: 0 <= j < i ==> name !in engagements[j].1)
  {
    if engagements == [] then None
    else if name in engagements[0].1 then Some(engagements[0].0)
    else
      var r := EngagementOf(engagements[1..], name);
      assert forall i :: 1 <= i < |engagements| ==> engagements[i] == engagements[1..][i - 1];
      if r.Some? then
        var i :| 0 <= i < |engagements[1..]| && engagements[1..][i].0 == r.value && name in engagements[1..][i].1
                  && forall j :: 0 <= j < i ==> name !in engagements[1..][j].1;
        assert forall j :: 0 <= j < i + 1 ==> name !in engagements[j].1 by {
          forall j | 0 <= j < i + 1
            ensures name !in engagements[j].1
          {
            if j > 0 {
              assert engagements[j] == engagements[1..][j - 1];
            }
          }
        }
        r
      else r
  }

  /** `get_engagement_from_name`: the first engagement with the
      application; when there is none, the error lists every engagement's
      applications. */
  method GetEngagementFromName(engagements: Engagements, name: string) returns (r: Result<string>)
    requires KeysDistinct(engagements)
    ensures EngagementOf(engagements, name).Some? ==> r == Ok(EngagementOf(engagements, name).value)
    ensures EngagementOf(engagements, name).None? ==>
      r == Err(ApplicationNotFound("No engagement application found with name " + name, engagements))
  {
    for i := 0 to |engagements|
      invariant EngagementOf(engagements, name) == EngagementOf(engagements[i..], name)
    {
      assert engagements[i..][1..] == engagements[i + 1..];
      if name in engagements[i].1 {
        return Ok(engagements[i].0);
      }
    }
    var names := AppsByEngagement(engagements);
    r := Err(ApplicationNotFound("No engagement application found with name " + name, names));
  }

  /** The applications of every engagement, gathered one by one as
      `get_engagement_from_name` does for its error. */
  method AppsByEngagement(engagements: Engagements) returns (names: Engagements)
    requires KeysDistinct(engagements)
    ensures names == engagements
  {
    names := [];
    for i := 0 to |engagements|
      invariant names == engagements[..i]
    {
      var apps: seq<string> := [];
      for j := 0 to |engagements[i].1|
        invariant apps == engagements[i].1[..j]
      {
        apps := apps + [engagements[i].1[j]];
        assert engagements[i].1[..j + 1] == engagements[i].1[..j] + [engagements[i].1[j]];
      }
      assert apps == engagements[i].1;
      assert engagements == engagements[..i] + engagements[i..];
      DistinctNextAbsent(engagements[..i], engagements[i..]);
      PutAbsent(names, engagements[i].0, apps);
      names := Put(names, engagements[i].0, apps);
      assert engagements[..i + 1] == engagements[..i] + [engagements[i]];
    }
    assert engagements[..|engagements|] == engagements;
  }
}
