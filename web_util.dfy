/** The dashboard's table and link helpers (chj/pyserver/static/util.js):
    labels and links for methods, classes and taint origins, the integer
    comparator of table cells, and the bubble sort of a table's rows. The
    browser state they read (`GuiState.engagement`, `GuiState.project`) is
    passed in, and a table is the sequence of its rows, each the texts of
    its cells. */
module WebUtil {
  import opened Wrappers
  import opened Strings

  // ---------------------------------------------------------------------
  // Labels and links

  /** `build_method_name`: the name, then the method's index in parentheses. */
  function BuildMethodName(name: string, cmsix: int): (r: string)
  {
    name + " ( " + IntToString(cmsix) + " )"
  }

  /** The position of the last occurrence of c in s, or -1. */
  function LastIndexOf(s: string, c: char): (k: int)
    ensures -1 <= k < |s|
    ensures k >= 0 ==> s[k] == c
    ensures forall i :: k < i < |s| ==> s[i] != c
  {
    if s == [] then -1
    else if s[|s| - 1] == c then |s| - 1
    else LastIndexOf(s[..|s| - 1], c)
  }

  /** A label read back: the text before the last " ( ", and the number
      between it and the closing " )". */
  function ParseMethodName(t: string): (r: Option<(string, int)>)
  {
    var k := LastIndexOf(t, '(');
    if |t| >= 2 && t[|t| - 2..] == " )" && 1 <= k && k + 2 <= |t| - 2 && t[k - 1] == ' ' && t[k + 1] == ' ' then
      match ParseInt(t[k + 2..|t| - 2])
      case None => None
      case Some(i) => Some((t[..k - 1], i))
    else None
  }

  /** Decimal text has no parenthesis, no space and no separator. */
  lemma IntTextPlain(i: int)
    ensures '(' !in IntToString(i) && ' ' !in IntToString(i) && '/' !in IntToString(i)
  {
    var s := IntToString(i);
    if i < 0 {
      var d := NatToString(-i);
      assert s == "-" + d;
      assert forall k :: 1 <= k < |s| ==> s[k] == d[k - 1];
    }
    assert forall k :: 0 <= k < |s| ==> s[k] == '-' || IsDigit(s[k]);
  }

  /** The last '(' of a + b lies in a when b has none. */
  lemma {:induction false} LastIndexOfPrefix(a: string, b: string, c: char)
    requires c !in b
    ensures LastIndexOf(a + b, c) == LastIndexOf(a, c)
    decreases |b|
  {
    if b != [] {
      var s := a + b;
      assert s[|s| - 1] == b[|b| - 1];
      assert b[|b| - 1] in b;
      assert s[..|s| - 1] == a + b[..|b| - 1];
      var front := b[..|b| - 1];
      assert c !in front by {
        forall k | 0 <= k < |front|
          ensures front[k] != c
        {
          assert front[k] == b[k];
        }
      }
      LastIndexOfPrefix(a, b[..|b| - 1], c);
    } else {
      assert a + b == a;
    }
  }

  /** A method label is read back as the name and the index it shows. */
  lemma ParseBuildMethodName(name: string, cmsix: int)
    ensures ParseMethodName(BuildMethodName(name, cmsix)) == Some((name, cmsix))
  {
    var n := IntToString(cmsix);
    var t := BuildMethodName(name, cmsix);
    var a := name + " (";
    var b := " " + n + " )";
    assert t == a + b;
    IntTextPlain(cmsix);
    assert '(' !in b by {
      forall k | 0 <= k < |b|
        ensures b[k] != '('
      {
        if 1 <= k < 1 + |n| {
          assert b[k] == n[k - 1];
        }
      }
    }
    LastIndexOfPrefix(a, b, '(');
    assert LastIndexOf(a, '(') == |name| + 1;
    var k := |name| + 1;
    assert t[|t| - 2..] == " )";
    assert t[k - 1] == ' ' && t[k + 1] == ' ';
    assert t[k + 2..|t| - 2] == n;
    assert t[..k - 1] == name;
    ParseIntToString(cmsix);
  }

  /** The link of a page of the dashboard: its kind, the engagement and the
      project of the browser state, and the index of the thing shown. */
  function Link(kind: string, engagement: string, project: string, id: int): (r: string)
  {
    "/" + kind + "/" + engagement + "/" + project + "/" + IntToString(id)
  }

  /** `get_class_link`. */
  function ClassLink(engagement: string, project: string, cnix: int): (r: string)
    ensures r == Link("class", engagement, project, cnix)
  {
    "/class/" + engagement + "/" + project + "/" + IntToString(cnix)
  }

  /** `get_method_link`. */
  function MethodLink(engagement: string, project: string, cmsix: int): (r: string)
    ensures r == Link("method", engagement, project, cmsix)
  {
    "/method/" + engagement + "/" + project + "/" + IntToString(cmsix)
  }

  /** `get_taint_link`. */
  function TaintLink(engagement: string, project: string, taintorigin: int): (r: string)
    ensures r == Link("taint", engagement, project, taintorigin)
  {
    "/taint/" + engagement + "/" + project + "/" + IntToString(taintorigin)
  }

  /** The route a link names, as the server reads it: the path components
      after the leading separator, the last one a number. */
  function ParseLink(link: string): (r: Option<(string, string, string, int)>)
  {
    var parts := Split(link, '/');
    if |parts| == 5 && parts[0] == "" then
      match ParseInt(parts[4])
      case None => None
      case Some(id) => Some((parts[1], parts[2], parts[3], id))
    else None
  }

  /** Links are separator-joined components. */
  lemma LinkJoin(kind: string, engagement: string, project: string, id: int)
    ensures Link(kind, engagement, project, id) == Join("/", ["", kind, engagement, project, IntToString(id)])
  {
    var n := IntToString(id);
    var xs := ["", kind, engagement, project, n];
    assert xs[1..][1..][1..][1..] == [n];
    assert Join("/", xs[1..][1..][1..]) == project + "/" + n;
    assert Join("/", xs[1..][1..]) == engagement + "/" + (project + "/" + n);
    assert Join("/", xs[1..]) == kind + "/" + (engagement + "/" + (project + "/" + n));
    assert Join("/", xs) == "" + "/" + (kind + "/" + (engagement + "/" + (project + "/" + n)));
  }

  /** A link whose kind, engagement and project have no separator is read
      back as what it was built from. */
  lemma ParseLinkOf(kind: string, engagement: string, project: string, id: int)
    requires '/' !in kind && '/' !in engagement && '/' !in project
    ensures ParseLink(Link(kind, engagement, project, id)) == Some((kind, engagement, project, id))
  {
    var xs := ["", kind, engagement, project, IntToString(id)];
    LinkJoin(kind, engagement, project, id);
    IntTextPlain(id);
    assert forall i :: 0 <= i < |xs| ==> '/' !in xs[i];
    SplitJoin(xs, '/');
    ParseIntToString(id);
  }

  // ---------------------------------------------------------------------
  // JavaScript's parseInt

  /** The white space and line terminators parseInt skips. */
  predicate IsJsSpace(c: char)
  {
    c == ' ' || c == '\t' || c == '\n' || c == '\r' || c == '\U{B}' || c == '\U{C}'
    || c == '\U{A0}' || c == '\U{FEFF}' || c == '\U{1680}' || ('\U{2000}' <= c <= '\U{200A}')
    || c == '\U{2028}' || c == '\U{2029}' || c == '\U{202F}' || c == '\U{205F}' || c == '\U{3000}'
  }

  /** s without its leading white space. */
  function TrimStart(s: string): (r: string)
    ensures |r| <= |s|
    ensures r == [] || !IsJsSpace(r[0])
  {
    if s != [] && IsJsSpace(s[0]) then TrimStart(s[1..]) else s
  }

  /** The longest run of decimal digits s starts with. */
  function DigitRun(s: string): (p: string)
    ensures |p| <= |s| && AllDigits(p)
  {
    if s != [] && IsDigit(s[0]) then [s[0]] + DigitRun(s[1..]) else []
  }

  /** The run is where s starts, and it stops at the first character that
      is not a digit. */
  lemma {:induction false} DigitRunPrefix(s: string)
    ensures DigitRun(s) == s[..|DigitRun(s)|]
    ensures |DigitRun(s)| < |s| ==> !IsDigit(s[|DigitRun(s)|])
  {
    if s != [] && IsDigit(s[0]) {
      DigitRunPrefix(s[1..]);
      assert DigitRun(s) == [s[0]] + DigitRun(s[1..]);
      assert s[..|DigitRun(s)|] == [s[0]] + s[1..][..|DigitRun(s[1..])|];
    }
  }

  /** `parseInt(s)`: leading white space skipped, an optional sign, then the
      longest run of decimal digits; None stands for NaN, when there is no
      digit. */
  function JsParseInt(s: string): (r: Option<int>)
  {
    ParseSigned(TrimStart(s))
  }

  function ParseSigned(t: string): (r: Option<int>)
  {
    if t != [] && t[0] == '-' then
      match ParseDigits(t[1..])
      case None => None
      case Some(v) => Some(-v)
    else if t != [] && t[0] == '+' then ParseDigits(t[1..])
    else ParseDigits(t)
  }

  function ParseDigits(u: string): (r: Option<int>)
    ensures r.Some? ==> r.value >= 0
  {
    var p := DigitRun(u);
    if p == [] then None else Some(DigitsValue(p))
  }

  lemma {:induction false} DigitRunAll(s: string)
    requires AllDigits(s)
    ensures DigitRun(s) == s
  {
    if s != [] {
      DigitRunAll(s[1..]);
    }
  }

  /** parseInt reads back the decimal text of an integer. */
  lemma JsParseIntToString(n: int)
    ensures JsParseInt(IntToString(n)) == Some(n)
  {
    if n < 0 {
      assert IntToString(n) == "-" + NatToString(-n);
      JsParseMinus(NatToString(-n));
      DigitsValueOfNatToString(-n);
    } else {
      JsParsePlain(NatToString(n));
      DigitsValueOfNatToString(n);
    }
  }

  lemma TrimStartNoSpace(s: string)
    requires s != [] && !IsJsSpace(s[0])
    ensures TrimStart(s) == s
  {
  }

  /** parseInt of a run of digits. */
  lemma JsParsePlain(p: string)
    requires p != [] && AllDigits(p)
    ensures JsParseInt(p) == Some(DigitsValue(p))
  {
    assert IsDigit(p[0]);
    TrimStartNoSpace(p);
    DigitRunAll(p);
    assert ParseSigned(p) == ParseDigits(p);
  }

  /** parseInt of a minus sign and a run of digits. */
  lemma JsParseMinus(p: string)
    requires p != [] && AllDigits(p)
    ensures JsParseInt("-" + p) == Some(-(DigitsValue(p) as int))
  {
    var s := "-" + p;
    MinusFirst(s, p);
    JsParseSigned(s, p);
  }

  lemma JsParseSigned(s: string, p: string)
    requires p != [] && AllDigits(p)
    requires s != [] && s[0] == '-' && s[1..] == p && !IsJsSpace(s[0])
    ensures JsParseInt(s) == Some(-(DigitsValue(p) as int))
  {
    TrimStartNoSpace(s);
    ParseDigitsAll(p);
  }

  lemma MinusFirst(s: string, p: string)
    requires s == "-" + p
    ensures s != [] && s[0] == '-' && s[1..] == p && !IsJsSpace(s[0])
  {
  }

  lemma ParseDigitsAll(p: string)
    requires p != [] && AllDigits(p)
    ensures ParseDigits(p) == Some(DigitsValue(p))
  {
    DigitRunAll(p);
  }

  // ---------------------------------------------------------------------
  // Comparing cells

  /** The sign of an integer, as -1, 0 or 1. */
  function Sign(d: int): (r: int)
  {
    if d > 0 then 1 else if d < 0 then -1 else 0
  }

  /** `compareInt` on the texts of two cells: an empty x is checked first and
      is below anything, an empty y is below a non-empty x, equal texts are
      level, and otherwise the parsed integers are compared; a comparison
      with NaN is false, so a cell that is not a number is below. */
  function CompareInt(x: string, y: string): (r: int)
    ensures -1 <= r <= 1
  {
    if x == "" then -1
    else if y == "" then 1
    else if x == y then 0
    else
      match (JsParseInt(x), JsParseInt(y))
      case (Some(a1), Some(a2)) => if a1 == a2 then 0 else if a1 > a2 then 1 else -1
      case _ => -1
  }

  /** On the decimal texts of two integers, compareInt orders them as the
      integers are ordered. */
  lemma CompareIntNumerals(a: int, b: int)
    ensures CompareInt(IntToString(a), IntToString(b)) == Sign(a - b)
  {
    JsParseIntToString(a);
    JsParseIntToString(b);
    IntToStringInjective(a, b);
  }

  /** Where both cells hold numbers, swapping the cells negates the result. */
  lemma CompareIntAntisymmetricOnNumbers(x: string, y: string)
    requires x != "" && y != ""
    requires JsParseInt(x).Some? && JsParseInt(y).Some?
    ensures CompareInt(x, y) == -CompareInt(y, x)
  {
    var a1, a2 := JsParseInt(x).value, JsParseInt(y).value;
    if x != y {
      assert CompareInt(x, y) == Sign(a1 - a2);
      assert CompareInt(y, x) == Sign(a2 - a1);
    }
  }

  /** Two empty cells: each is below the other. */
  lemma CompareIntEmptyCells(x: string, y: string)
    requires x == "" && y == ""
    ensures CompareInt(x, y) == -1 && CompareInt(y, x) == -1
  {
  }

  /** Two different cells that are not numbers: each is below the other. */
  lemma CompareIntNonNumbers(x: string, y: string)
    requires x != y && x != "" && y != ""
    requires JsParseInt(x).None? && JsParseInt(y).None?
    ensures CompareInt(x, y) == -1 && CompareInt(y, x) == -1
  {
  }

  /** The comparator compareInt is evidently meant to be: equal texts are
      level whatever they hold, empty cells come first, then the cells that
      are not numbers in text order, then the numbers by value. */
  function CompareCells(x: string, y: string): (r: int)
    ensures -1 <= r <= 1
    ensures r == 0 <==> x == y || (JsParseInt(x).Some? && JsParseInt(x) == JsParseInt(y) && x != "" && y != "")
  {
    if x == y then 0
    else if x == "" then -1
    else if y == "" then 1
    else
      match (JsParseInt(x), JsParseInt(y))
      case (Some(a1), Some(a2)) => if a1 == a2 then 0 else if a1 > a2 then 1 else -1
      case (None, Some(_)) => -1
      case (Some(_), None) => 1
      case (None, None) => if StringLess(x, y) then -1 else 1
  }

  /** Swapping the cells negates the corrected comparison, for all cells. */
  lemma CompareCellsAntisymmetric(x: string, y: string)
    ensures CompareCells(x, y) == -CompareCells(y, x)
  {
    if x != y && x != "" && y != "" && JsParseInt(x).None? && JsParseInt(y).None? {
      StringLessTotal(x, y);
      if StringLess(x, y) && StringLess(y, x) {
        StringLessTransitive(x, y, x);
        StringLessIrreflexive(x);
      }
    }
  }

  /** The correction changes nothing where compareInt is consistent: two
      different cells of which one is empty or both are numbers. */
  lemma CompareCellsAgrees(x: string, y: string)
    requires x != y
    requires x == "" || y == "" || (JsParseInt(x).Some? && JsParseInt(y).Some?)
    ensures CompareCells(x, y) == CompareInt(x, y)
  {
  }

  // ---------------------------------------------------------------------
  // Sorting a table

  /** A row: the texts of its cells. Row 0 is the header. */
  type Row = seq<string>

  type Compare = (string, string) -> int

  /** The text of cell k of a row ("" past its end; the sort requires every
      data row to have the column). */
  function Cell(r: Row, k: nat): (c: string)
  {
    if k < |r| then r[k] else ""
  }

  /** `reverse` negates every comparison. */
  function Direction(reverse: bool): (rev: int)
  {
    if reverse then -1 else 1
  }

  /** The rows below the header. */
  function Data(rows: seq<Row>): (d: seq<Row>)
  {
    if rows == [] then [] else rows[1..]
  }

  /** Whether the sort puts r2 before r1: the column comparison, times the
      direction, is 1; or it is 0 and the comparison of column 0 is 1. */
  predicate Switch(r1: Row, r2: Row, col: nat, sortf0: Compare, sortf: Compare, rev: int)
  {
    var cmp1 := sortf(Cell(r1, col), Cell(r2, col)) * rev;
    if cmp1 == 0 then sortf0(Cell(r1, 0), Cell(r2, 0)) * rev == 1 else cmp1 == 1
  }

  /** Every data row has the sorted column. */
  predicate HasColumn(rows: seq<Row>, col: nat)
  {
    forall r :: r in Data(rows) ==> col < |r|
  }

  /** No two data rows switch both ways: the condition for the sort to end. */
  predicate Asymmetric(rows: seq<Row>, col: nat, sortf0: Compare, sortf: Compare, rev: int)
  {
    forall a, b :: a in Data(rows) && b in Data(rows) && Switch(a, b, col, sortf0, sortf, rev) ==> !Switch(b, a, col, sortf0, sortf, rev)
  }

  /** No data row switches with the next one: where the sort stops. */
  predicate Settled(rows: seq<Row>, col: nat, sortf0: Compare, sortf: Compare, rev: int)
  {
    forall i :: 1 <= i < |rows| - 1 ==> !Switch(rows[i], rows[i + 1], col, sortf0, sortf, rev)
  }

  /** The first data row, from i on, that switches with the next one. */
  function FirstSwitchFrom(rows: seq<Row>, i: nat, col: nat, sortf0: Compare, sortf: Compare, rev: int): (r: Option<nat>)
    requires 1 <= i
    ensures r.Some? ==> i <= r.value < |rows| - 1 && Switch(rows[r.value], rows[r.value + 1], col, sortf0, sortf, rev)
    ensures r.Some? ==> forall k :: i <= k < r.value ==> !Switch(rows[k], rows[k + 1], col, sortf0, sortf, rev)
    ensures r.None? ==> forall k :: i <= k < |rows| - 1 ==> !Switch(rows[k], rows[k + 1], col, sortf0, sortf, rev)
    decreases |rows| - i
  {
    if i >= |rows| - 1 then None
    else if Switch(rows[i], rows[i + 1], col, sortf0, sortf, rev) then Some(i)
    else FirstSwitchFrom(rows, i + 1, col, sortf0, sortf, rev)
  }

  /** One pass of the inner loop: the first data row that switches with
      the next one. */
  function FirstSwitch(rows: seq<Row>, col: nat, sortf0: Compare, sortf: Compare, rev: int): (r: Option<nat>)
    ensures r.None? <==> Settled(rows, col, sortf0, sortf, rev)
    ensures r.Some? ==> 1 <= r.value < |rows| - 1
  {
    FirstSwitchFrom(rows, 1, col, sortf0, sortf, rev)
  }

  /** Rows i and i + 1 exchanged, as `insertBefore(rows[i+1], rows[i])` does. */
  function SwapAt(rows: seq<Row>, i: nat): (r: seq<Row>)
    requires i + 1 < |rows|
    ensures |r| == |rows| && r[i] == rows[i + 1] && r[i + 1] == rows[i]
    ensures forall k :: 0 <= k < |rows| && k != i && k != i + 1 ==> r[k] == rows[k]
    ensures multiset(r) == multiset(rows)
  {
    var r := rows[..i] + [rows[i + 1], rows[i]] + rows[i + 2..];
    assert rows == rows[..i] + [rows[i], rows[i + 1]] + rows[i + 2..];
    r
  }

  /** The number of rows of s that x switches with. */
  function Count(x: Row, s: seq<Row>, col: nat, sortf0: Compare, sortf: Compare, rev: int): (n: nat)
    ensures n <= |s|
  {
    if s == [] then 0
    else (if Switch(x, s[0], col, sortf0, sortf, rev) then 1 else 0) + Count(x, s[1..], col, sortf0, sortf, rev)
  }

  /** The pairs of rows of s, in order, that would switch: the sort's
      measure of progress. */
  function Inversions(s: seq<Row>, col: nat, sortf0: Compare, sortf: Compare, rev: int): (n: nat)
  {
    if s == [] then 0
    else Count(s[0], s[1..], col, sortf0, sortf, rev) + Inversions(s[1..], col, sortf0, sortf, rev)
  }

  lemma {:induction false} CountAppend(x: Row, a: seq<Row>, b: seq<Row>, col: nat, sortf0: Compare, sortf: Compare, rev: int)
    ensures Count(x, a + b, col, sortf0, sortf, rev) == Count(x, a, col, sortf0, sortf, rev) + Count(x, b, col, sortf0, sortf, rev)
  {
    if a != [] {
      assert (a + b)[0] == a[0] && (a + b)[1..] == a[1..] + b;
      CountAppend(x, a[1..], b, col, sortf0, sortf, rev);
    } else {
      assert a + b == b;
    }
  }

  /** Exchanging two neighbours does not change how many rows x switches with. */
  lemma CountSwap(x: Row, a: seq<Row>, p: Row, q: Row, b: seq<Row>, col: nat, sortf0: Compare, sortf: Compare, rev: int)
    ensures Count(x, a + [p, q] + b, col, sortf0, sortf, rev) == Count(x, a + [q, p] + b, col, sortf0, sortf, rev)
  {
    CountAppend(x, a + [p, q], b, col, sortf0, sortf, rev);
    CountAppend(x, a, [p, q], col, sortf0, sortf, rev);
    CountAppend(x, a + [q, p], b, col, sortf0, sortf, rev);
    CountAppend(x, a, [q, p], col, sortf0, sortf, rev);
    assert [p, q][1..] == [q] && [q, p][1..] == [p];
    assert [q][1..] == [] && [p][1..] == [];
  }

  /** Exchanging two neighbours that switch one way only removes exactly
      one inversion. */
  lemma {:induction false} InversionsSwap(a: seq<Row>, p: Row, q: Row, b: seq<Row>, col: nat, sortf0: Compare, sortf: Compare, rev: int)
    requires Switch(p, q, col, sortf0, sortf, rev) && !Switch(q, p, col, sortf0, sortf, rev)
    ensures Inversions(a + [p, q] + b, col, sortf0, sortf, rev) == Inversions(a + [q, p] + b, col, sortf0, sortf, rev) + 1
    decreases |a|
  {
    if a == [] {
      assert [p, q] + b == [p] + ([q] + b);
      assert [q, p] + b == [q] + ([p] + b);
      assert ([p] + ([q] + b))[1..] == [q] + b && ([q] + b)[1..] == b;
      assert ([q] + ([p] + b))[1..] == [p] + b && ([p] + b)[1..] == b;
      assert a + [p, q] + b == [p, q] + b && a + [q, p] + b == [q, p] + b;
    } else {
      var s, t := a + [p, q] + b, a + [q, p] + b;
      assert s[0] == a[0] && s[1..] == a[1..] + [p, q] + b;
      assert t[0] == a[0] && t[1..] == a[1..] + [q, p] + b;
      CountSwap(a[0], a[1..], p, q, b, col, sortf0, sortf, rev);
      InversionsSwap(a[1..], p, q, b, col, sortf0, sortf, rev);
    }
  }

  /** One step of the sort: exchanging the first rows that switch removes one
      inversion among the data rows, and keeps the header. */
  lemma SwapProgress(rows: seq<Row>, i: nat, col: nat, sortf0: Compare, sortf: Compare, rev: int)
    requires 1 <= i && i + 1 < |rows|
    requires Switch(rows[i], rows[i + 1], col, sortf0, sortf, rev) && !Switch(rows[i + 1], rows[i], col, sortf0, sortf, rev)
    ensures Inversions(Data(SwapAt(rows, i)), col, sortf0, sortf, rev) + 1 == Inversions(Data(rows), col, sortf0, sortf, rev)
    ensures multiset(Data(SwapAt(rows, i))) == multiset(Data(rows))
  {
    var a, p, q, b := rows[1..i], rows[i], rows[i + 1], rows[i + 2..];
    assert Data(rows) == a + [p, q] + b;
    assert Data(SwapAt(rows, i)) == a + [q, p] + b;
    InversionsSwap(a, p, q, b, col, sortf0, sortf, rev);
  }

  /** The rows the inner loop finds switch one way only, so exchanging them
      makes progress. */
  lemma SortStep(rows: seq<Row>, rows0: seq<Row>, k: nat, col: nat, sortf0: Compare, sortf: Compare, rev: int)
    requires multiset(Data(rows)) == multiset(Data(rows0))
    requires Asymmetric(rows0, col, sortf0, sortf, rev)
    requires FirstSwitch(rows, col, sortf0, sortf, rev) == Some(k)
    ensures 1 <= k && k + 1 < |rows|
    ensures Inversions(Data(SwapAt(rows, k)), col, sortf0, sortf, rev) + 1 == Inversions(Data(rows), col, sortf0, sortf, rev)
    ensures multiset(Data(SwapAt(rows, k))) == multiset(Data(rows0))
  {
    assert Data(rows)[k - 1] == rows[k] && Data(rows)[k] == rows[k + 1];
    assert rows[k] in multiset(Data(rows)) && rows[k + 1] in multiset(Data(rows));
    assert rows[k] in Data(rows0) && rows[k + 1] in Data(rows0);
    SwapProgress(rows, k, col, sortf0, sortf, rev);
  }

  /** The inner loop of `sortTable`: the first row from 1 on that should
      switch with the next one, if any. */
  method FindSwitch(rows: array<Row>, col: nat, sortf0: Compare, sortf: Compare, rev: int) returns (r: Option<nat>)
    ensures r == FirstSwitch(rows[..], col, sortf0, sortf, rev)
  {
    var i := 1;
    while i < rows.Length - 1
      invariant 1 <= i
      invariant FirstSwitch(rows[..], col, sortf0, sortf, rev) == FirstSwitchFrom(rows[..], i, col, sortf0, sortf, rev)
    {
      if Switch(rows[i], rows[i + 1], col, sortf0, sortf, rev) {
        return Some(i);
      }
      i := i + 1;
    }
    r := None;
  }

  /** `sortTable`: a table of more than 500 rows is left as it is;
      otherwise the first pair of neighbouring data rows that should switch
      is exchanged, pass after pass, until no pair should. The header stays
      in place and the rows are only rearranged. The comparators must not
      let two rows switch both ways, or the passes never end. */
  method SortTable(rows: array<Row>, col: nat, sortf0: Compare, sortf: Compare, reverse: bool)
    requires HasColumn(rows[..], col)
    requires Asymmetric(rows[..], col, sortf0, sortf, Direction(reverse))
    modifies rows
    ensures rows.Length > 500 ==> rows[..] == old(rows[..])
    ensures multiset(rows[..]) == multiset(old(rows[..]))
    ensures rows.Length > 0 ==> rows[0] == old(rows[0])
    ensures rows.Length <= 500 ==> Settled(rows[..], col, sortf0, sortf, Direction(reverse))
  {
    var rev := 1;
    if reverse {
      rev := -1;
    }
    if rows.Length > 500 {
      return;
    }
    var switching := true;
    while switching
      invariant multiset(rows[..]) == multiset(old(rows[..]))
      invariant rows.Length > 0 ==> rows[0] == old(rows[0])
      invariant multiset(Data(rows[..])) == multiset(Data(old(rows[..])))
      invariant !switching ==> Settled(rows[..], col, sortf0, sortf, rev)
      decreases Inversions(Data(rows[..]), col, sortf0, sortf, rev), switching
    {
      switching := false;
      var i := FindSwitch(rows, col, sortf0, sortf, rev);
      if i.Some? {
        ghost var before := rows[..];
        var k := i.value;
        SortStep(before, old(rows[..]), k, col, sortf0, sortf, rev);
        Exchange(rows, k);
        switching := true;
      }
    }
  }

  /** `insertBefore(rows[i+1], rows[i])`: rows i and i + 1 exchanged in place. */
  method Exchange(rows: array<Row>, i: nat)
    requires i + 1 < rows.Length
    modifies rows
    ensures rows[..] == SwapAt(old(rows[..]), i)
  {
    rows[i], rows[i + 1] := rows[i + 1], rows[i];
    ghost var swapped := SwapAt(old(rows[..]), i);
    assert forall j :: 0 <= j < rows.Length ==> rows[j] == swapped[j];
  }

  /** With comparators that negate when their cells are swapped, no two rows
      switch both ways, whatever the direction. */
  lemma AntisymmetricAsymmetric(rows: seq<Row>, col: nat, sortf0: Compare, sortf: Compare, reverse: bool)
    requires forall x, y :: sortf(x, y) == -sortf(y, x)
    requires forall x, y :: sortf0(x, y) == -sortf0(y, x)
    ensures Asymmetric(rows, col, sortf0, sortf, Direction(reverse))
  {
  }

  /** With the corrected comparator the sort always ends. */
  lemma CompareCellsSorts(rows: seq<Row>, col: nat, reverse: bool)
    ensures Asymmetric(rows, col, CompareCells, CompareCells, Direction(reverse))
  {
    forall x, y
      ensures CompareCells(x, y) == -CompareCells(y, x)
    {
      CompareCellsAntisymmetric(x, y);
    }
    AntisymmetricAsymmetric(rows, col, CompareCells, CompareCells, reverse);
  }

  /** With compareInt in reverse, two data rows with empty cells in the
      column switch both ways: each pass exchanges them back, so
      `sortTable` never returns. */
  lemma CompareIntSortCycles(rows: seq<Row>, col: nat, sortf0: Compare)
    requires |rows| == 3 && col < |rows[1]| && col < |rows[2]|
    requires rows[1][col] == "" && rows[2][col] == ""
    ensures FirstSwitch(rows, col, sortf0, CompareInt, Direction(true)) == Some(1)
    ensures FirstSwitch(SwapAt(rows, 1), col, sortf0, CompareInt, Direction(true)) == Some(1)
    ensures SwapAt(SwapAt(rows, 1), 1) == rows
    ensures !Asymmetric(rows, col, sortf0, CompareInt, Direction(true))
  {
    var s := SwapAt(rows, 1);
    EmptyCellsSwitch(rows, col, sortf0);
    EmptyCellsSwitch(s, col, sortf0);
    assert Data(rows)[0] == rows[1] && Data(rows)[1] == rows[2];
    assert SwapAt(s, 1) == rows;
  }

  /** Two data rows with empty cells in the column switch at once. */
  lemma EmptyCellsSwitch(rows: seq<Row>, col: nat, sortf0: Compare)
    requires |rows| == 3 && col < |rows[1]| && col < |rows[2]|
    requires rows[1][col] == "" && rows[2][col] == ""
    ensures Switch(rows[1], rows[2], col, sortf0, CompareInt, Direction(true))
    ensures FirstSwitch(rows, col, sortf0, CompareInt, Direction(true)) == Some(1)
  {
    assert Cell(rows[1], col) == "" && Cell(rows[2], col) == "";
    assert Switch(rows[1], rows[2], col, sortf0, CompareInt, -1);
  }

  /** When "not switching" chains (a total preorder), a settled table is
      sorted: no data row switches with any later one. */
  lemma {:induction false} SettledSorted(rows: seq<Row>, col: nat, sortf0: Compare, sortf: Compare, rev: int, i: nat, j: nat)
    requires Settled(rows, col, sortf0, sortf, rev)
    requires forall a, b, c :: (a in Data(rows) && b in Data(rows) && c in Data(rows) &&
               !Switch(a, b, col, sortf0, sortf, rev) && !Switch(b, c, col, sortf0, sortf, rev)) ==> !Switch(a, c, col, sortf0, sortf, rev)
    requires 1 <= i < j < |rows|
    ensures !Switch(rows[i], rows[j], col, sortf0, sortf, rev)
    decreases j - i
  {
    if j > i + 1 {
      SettledSorted(rows, col, sortf0, sortf, rev, i + 1, j);
      assert Data(rows)[i - 1] == rows[i] && Data(rows)[i] == rows[i + 1] && Data(rows)[j - 1] == rows[j];
    }
  }
}
