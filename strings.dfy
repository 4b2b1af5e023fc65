/** The string operations of Python and JavaScript that the library relies
    on: decimal printing and parsing of integers, join and split on a
    separator, replacement, padding and substring tests. */
module Strings {
  import opened Wrappers

  predicate IsDigit(c: char) { '0' <= c <= '9' }

  predicate AllDigits(s: string)
  {
    forall i :: 0 <= i < |s| ==> IsDigit(s[i])
  }

  function DigitChar(d: nat): (c: char)
    requires d < 10
    ensures IsDigit(c)
    ensures c as int - '0' as int == d
  {
    "0123456789"[d]
  }

  function DigitValue(c: char): (d: nat)
    requires IsDigit(c)
    ensures d < 10 && DigitChar(d) == c
  {
    c as int - '0' as int
  }

  /** The decimal digits of n, most significant first, as Python's str prints them. */
  function NatToString(n: nat): (s: string)
    ensures |s| > 0 && AllDigits(s)
    decreases n
  {
    if n < 10 then [DigitChar(n)] else NatToString(n / 10) + [DigitChar(n % 10)]
  }

  /** The value of a string of decimal digits. */
  function DigitsValue(s: string): (v: nat)
    requires AllDigits(s)
    decreases |s|
  {
    if s == [] then 0 else DigitsValue(s[..|s| - 1]) * 10 + DigitValue(s[|s| - 1])
  }

  lemma {:induction false} DigitsValueOfNatToString(n: nat)
    ensures DigitsValue(NatToString(n)) == n
    decreases n
  {
    if n >= 10 {
      var s := NatToString(n / 10) + [DigitChar(n % 10)];
      assert s[..|s| - 1] == NatToString(n / 10);
      DigitsValueOfNatToString(n / 10);
    }
  }

  /** Python's str on an int: a '-' sign for negative values, then the digits. */
  function IntToString(i: int): (s: string)
    ensures |s| > 0
    ensures (s[0] == '-') <==> i < 0
  {
    if i < 0 then "-" + NatToString(-i) else NatToString(i)
  }

  /** Python's int on ASCII decimal text: an optional sign followed by at
      least one digit. Surrounding whitespace, '_' between digits and
      non-ASCII digits, which Python's int also accepts, are rejected. */
  function ParseInt(s: string): (r: Option<int>)
    ensures r.Some? ==> |s| > 0
  {
    if |s| == 0 then None
    else if s[0] == '-' || s[0] == '+' then
      if |s| > 1 && AllDigits(s[1..]) then
        var v: int := DigitsValue(s[1..]);
        Some(if s[0] == '-' then -v else v)
      else None
    else if AllDigits(s) then Some(DigitsValue(s))
    else None
  }

  /** A run of decimal digits, possibly after one '+' or '-'. */
  predicate SignedDecimal(s: string)
  {
    (|s| > 0 && AllDigits(s)) || (|s| > 1 && (s[0] == '-' || s[0] == '+') && AllDigits(s[1..]))
  }

  /** The decimal text of an integer is digits, after a '-' when it is
      negative. */
  lemma IntToStringDigits(i: int)
    ensures i >= 0 ==> AllDigits(IntToString(i))
    ensures i < 0 ==> |IntToString(i)| > 1 && AllDigits(IntToString(i)[1..])
  {
    if i < 0 {
      assert IntToString(i)[1..] == NatToString(-i);
    }
  }

  /** The texts int() accepts are exactly the signed runs of digits, and
      only a leading '-' gives a negative value. */
  lemma ParseIntAccepts(s: string)
    ensures ParseInt(s).Some? <==> SignedDecimal(s)
    ensures ParseInt(s).Some? && s[0] == '-' ==> ParseInt(s).value <= 0
    ensures ParseInt(s).Some? && s[0] != '-' ==> ParseInt(s).value >= 0
  {
  }

  /** Printing an integer and parsing it back gives the integer. */
  lemma {:induction false} ParseIntToString(i: int)
    ensures ParseInt(IntToString(i)) == Some(i)
  {
    var n: nat := if i < 0 then -i else i;
    var d := NatToString(n);
    DigitsValueOfNatToString(n);
    if i < 0 {
      ParseIntMinus(d, "-" + d);
    } else {
      ParseIntDigits(d);
    }
  }

  /** int() of a run of digits. */
  lemma ParseIntDigits(d: string)
    requires d != [] && AllDigits(d)
    ensures ParseInt(d) == Some(DigitsValue(d))
  {
    assert IsDigit(d[0]);
  }

  /** int() of a minus sign and a run of digits. */
  lemma ParseIntMinus(d: string, s: string)
    requires d != [] && AllDigits(d) && s == "-" + d
    ensures ParseInt(s) == Some(-(DigitsValue(d) as int))
  {
    assert s[0] == '-' && s[1..] == d && |s| > 1;
  }

  /** Different integers print differently, so their decimal text is a key. */
  lemma IntToStringInjective(i: int, j: int)
    ensures IntToString(i) == IntToString(j) <==> i == j
  {
    ParseIntToString(i);
    ParseIntToString(j);
  }

  /** Python's sep.join(xs). */
  function Join(sep: string, xs: seq<string>): (r: string)
    ensures xs == [] ==> r == ""
    ensures |xs| == 1 ==> r == xs[0]
    ensures |xs| > 1 ==> r == xs[0] + sep + Join(sep, xs[1..])
  {
    if xs == [] then "" else if |xs| == 1 then xs[0] else xs[0] + sep + Join(sep, xs[1..])
  }

  /** The position of the first occurrence of c in s, or |s|. */
  function IndexOf(s: string, c: char): (k: nat)
    ensures k <= |s|
    ensures c !in s[..k]
    ensures k < |s| ==> s[k] == c
  {
    if s == [] then 0 else if s[0] == c then 0 else 1 + IndexOf(s[1..], c)
  }

  /** Python's s.split(c) for a one-character separator: never empty, and no
      piece contains the separator. */
  function Split(s: string, c: char): (r: seq<string>)
    ensures |r| >= 1
    ensures forall i :: 0 <= i < |r| ==> c !in r[i]
    decreases |s|
  {
    var k := IndexOf(s, c);
    if k == |s| then [s] else [s[..k]] + Split(s[k + 1..], c)
  }

  /** Concatenation is associative. */
  lemma Assoc3<T>(a: seq<T>, b: seq<T>, c: seq<T>)
    ensures a + (b + c) == (a + b) + c
  {
  }

  /** Splitting undoes joining the pieces back together. */
  lemma {:induction false} JoinSplit(s: string, c: char)
    ensures Join([c], Split(s, c)) == s
    decreases |s|
  {
    var k := IndexOf(s, c);
    if k < |s| {
      var rest := Split(s[k + 1..], c);
      JoinSplit(s[k + 1..], c);
      var xs := [s[..k]] + rest;
      assert Split(s, c) == xs;
      assert xs[0] == s[..k] && xs[1..] == rest;
      assert Join([c], xs) == s[..k] + [c] + Join([c], rest);
      assert s == s[..k] + [c] + s[k + 1..];
    }
  }

  /** Joining pieces without the separator and splitting again gives the
      pieces back, as long as there is at least one piece. */
  lemma {:induction false} SplitJoin(xs: seq<string>, c: char)
    requires |xs| > 0
    requires forall i :: 0 <= i < |xs| ==> c !in xs[i]
    ensures Split(Join([c], xs), c) == xs
  {
    if |xs| > 1 {
      var s := Join([c], xs);
      assert s == xs[0] + ([c] + Join([c], xs[1..]));
      IndexOfPrefix(xs[0], [c] + Join([c], xs[1..]), c);
      assert s[..|xs[0]|] == xs[0];
      assert s[|xs[0]| + 1..] == Join([c], xs[1..]);
      SplitJoin(xs[1..], c);
      assert IndexOf(s, c) == |xs[0]| < |s|;
      assert Split(s, c) == [xs[0]] + Split(Join([c], xs[1..]), c);
      assert [xs[0]] + xs[1..] == xs;
    } else {
      IndexOfPrefix(xs[0], [], c);
      assert xs[0] + [] == xs[0];
    }
  }

  lemma {:induction false} IndexOfPrefix(a: string, b: string, c: char)
    requires c !in a
    requires b == [] || b[0] == c
    ensures IndexOf(a + b, c) == |a|
  {
    if a != [] {
      assert (a + b)[1..] == a[1..] + b;
      IndexOfPrefix(a[1..], b, c);
    }
  }

  /** The decimal texts of a list of integers. */
  function IntStrings(xs: seq<int>): (r: seq<string>)
    ensures |r| == |xs|
    ensures forall i :: 0 <= i < |xs| ==> r[i] == IntToString(xs[i])
  {
    if xs == [] then [] else [IntToString(xs[0])] + IntStrings(xs[1..])
  }

  /** Python's [int(x) for x in xs]: fails on the first piece that is not a number. */
  function ParseInts(xs: seq<string>): (r: Option<seq<int>>)
    ensures r.Some? ==> |r.value| == |xs|
  {
    if xs == [] then Some([])
    else match ParseInt(xs[0])
      case None => None
      case Some(v) =>
        match ParseInts(xs[1..])
        case None => None
        case Some(vs) => Some([v] + vs)
  }

  lemma {:induction false} ParseIntStrings(xs: seq<int>)
    ensures ParseInts(IntStrings(xs)) == Some(xs)
  {
    if xs != [] {
      ParseIntToString(xs[0]);
      assert IntStrings(xs)[1..] == IntStrings(xs[1..]);
      ParseIntStrings(xs[1..]);
      assert [xs[0]] + xs[1..] == xs;
    }
  }

  lemma DigitsHaveNoComma(s: string)
    requires AllDigits(s)
    ensures ',' !in s
  {
  }

  lemma IntStringsHaveNoComma(xs: seq<int>)
    ensures forall i :: 0 <= i < |xs| ==> ',' !in IntStrings(xs)[i]
  {
    forall i | 0 <= i < |xs| ensures ',' !in IntStrings(xs)[i] {
      var x := xs[i];
      if x < 0 {
        DigitsHaveNoComma(NatToString(-x));
      } else {
        DigitsHaveNoComma(NatToString(x));
      }
    }
  }

  /** `[int(x) for x in s.split(',')]`: None when a piece is not a number,
      the empty text included. */
  function ParseIntList(s: string): (r: Option<seq<int>>)
    ensures r.Some? ==> |r.value| == |Split(s, ',')| >= 1
  {
    ParseInts(Split(s, ','))
  }

  /** Reading back a non-empty comma-joined list of integers gives the list. */
  lemma ParseIntListJoin(xs: seq<int>)
    requires xs != []
    ensures ParseIntList(Join(",", IntStrings(xs))) == Some(xs)
  {
    IntStringsHaveNoComma(xs);
    SplitJoin(IntStrings(xs), ',');
    ParseIntStrings(xs);
  }

  predicate StartsWith(s: string, p: string)
  {
    |p| <= |s| && s[..|p|] == p
  }

  /** Python's `sub in s`. */
  predicate Contains(s: string, sub: string)
    decreases |s|
  {
    StartsWith(s, sub) || (|s| > 0 && Contains(s[1..], sub))
  }

  /** Python's s.replace(pat, rep) for a non-empty pattern: occurrences are
      replaced left to right without overlapping. */
  function Replace(s: string, pat: string, rep: string): (r: string)
    requires |pat| > 0
    decreases |s|
  {
    if |s| < |pat| then s
    else if s[..|pat|] == pat then rep + Replace(s[|pat|..], pat, rep)
    else [s[0]] + Replace(s[1..], pat, rep)
  }

  /** Replacing a pattern that does not occur changes nothing. */
  lemma {:induction false} ReplaceAbsent(s: string, pat: string, rep: string)
    requires |pat| > 0
    requires !Contains(s, pat)
    ensures Replace(s, pat, rep) == s
    decreases |s|
  {
    if |s| >= |pat| {
      ReplaceAbsent(s[1..], pat, rep);
      assert [s[0]] + s[1..] == s;
    }
  }

  /** Replacing one character, character by character. */
  function ReplaceChar(s: string, c: char, rep: string): (r: string)
    ensures c !in rep ==> c !in r
  {
    if s == [] then [] else (if s[0] == c then rep else [s[0]]) + ReplaceChar(s[1..], c, rep)
  }

  lemma {:induction false} ReplaceCharIsReplace(s: string, c: char, rep: string)
    ensures Replace(s, [c], rep) == ReplaceChar(s, c, rep)
  {
    if s != [] {
      ReplaceCharIsReplace(s[1..], c, rep);
    }
  }

  lemma {:induction false} ReplaceCharConcat(a: string, b: string, c: char, rep: string)
    ensures ReplaceChar(a + b, c, rep) == ReplaceChar(a, c, rep) + ReplaceChar(b, c, rep)
  {
    if a != [] {
      var h := if a[0] == c then rep else [a[0]];
      assert (a + b)[0] == a[0];
      assert (a + b)[1..] == a[1..] + b;
      ReplaceCharConcat(a[1..], b, c, rep);
      calc {
        ReplaceChar(a + b, c, rep);
        h + ReplaceChar(a[1..] + b, c, rep);
        h + (ReplaceChar(a[1..], c, rep) + ReplaceChar(b, c, rep));
        (h + ReplaceChar(a[1..], c, rep)) + ReplaceChar(b, c, rep);
      }
    } else {
      assert a + b == b;
    }
  }

  function Spaces(n: nat): (r: string)
    ensures |r| == n && forall i :: 0 <= i < n ==> r[i] == ' '
  {
    if n == 0 then "" else " " + Spaces(n - 1)
  }

  /** Python's s.ljust(w): pads with spaces on the right up to width w. */
  function LJust(s: string, w: int): (r: string)
    ensures |r| == if |s| < w then w else |s|
    ensures r[..|s|] == s && r[|s|..] == Spaces(|r| - |s|)
  {
    if |s| < w then s + Spaces(w - |s|) else s
  }

  /** Python's s.rjust(w): pads with spaces on the left up to width w. */
  function RJust(s: string, w: int): (r: string)
    ensures |r| == if |s| < w then w else |s|
    ensures r[|r| - |s|..] == s && r[..|r| - |s|] == Spaces(|r| - |s|)
  {
    if |s| < w then Spaces(w - |s|) + s else s
  }

  /** Python's '-' * n. */
  function Dashes(n: nat): (r: string)
    ensures |r| == n && forall i :: 0 <= i < n ==> r[i] == '-'
  {
    seq(n, _ => '-')
  }

  /** Python's `<` on strings: lexicographic on the characters, a proper
      prefix first. */
  predicate StringLess(a: string, b: string)
  {
    if a == [] then b != []
    else b != [] && (a[0] < b[0] || (a[0] == b[0] && StringLess(a[1..], b[1..])))
  }

  lemma {:induction false} StringLessIrreflexive(a: string)
    ensures !StringLess(a, a)
  {
    if a != [] {
      StringLessIrreflexive(a[1..]);
    }
  }

  lemma {:induction false} StringLessTransitive(a: string, b: string, c: string)
    requires StringLess(a, b) && StringLess(b, c)
    ensures StringLess(a, c)
  {
    if a != [] && a[0] == b[0] && b[0] == c[0] {
      StringLessTransitive(a[1..], b[1..], c[1..]);
    }
  }

  /** Of two different strings, one is below the other. */
  lemma {:induction false} StringLessTotal(a: string, b: string)
    requires a != b
    ensures StringLess(a, b) || StringLess(b, a)
  {
    if a != [] && b != [] && a[0] == b[0] {
      assert a == [a[0]] + a[1..] && b == [b[0]] + b[1..];
      StringLessTotal(a[1..], b[1..]);
    }
  }
}
