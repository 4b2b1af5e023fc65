/** The term dictionary (chj/index/JTermDictionary.py): nine interning
    tables of term records, the functions that hash-cons numbers, constants
    and arithmetic expressions into them, and loading from XML. */
module JTermDictionaries {
  import opened Wrappers
  import opened Strings
  import opened Records
  import opened IndexedTables
  import opened JTerms

  type Table = IndexedTable<Record>

  const TableNames: seq<string> := [
    "symbolic-jterm-constant-table", "string-table", "numerical-table",
    "float-table", "jterm-table", "relational-expr-table", "jterm-list-table",
    "relational-expr-list-table", "jterm-range-table"]

  lemma TableNamesDistinct()
    ensures forall j, l :: 0 <= j < l < 9 ==> TableNames[j] != TableNames[l]
  {
  }

  /** Position of the term table in the list of tables. */
  const JTermTablePosition := 4

  /** The tags of `jterm_constructors`. */
  const JTermTags: set<string> :=
    {"xv", "lv", "lc", "c", "sf", "of", "bc", "fc", "sc", "al", "sl", "si", "ar", "symc"}

  // ------------------------------------------------------------------- keys

  function NumericalKey(v: int): Key { GetKey([IntToString(v)], []) }

  function ConstantKey(numIndex: int): Key { GetKey(["c"], [numIndex]) }

  function ArithmeticKey(op: string, ix1: int, ix2: int): Key { GetKey(["ar", op], [ix1, ix2]) }

  lemma IntToStringHasNoComma(v: int)
    ensures ',' !in IntToString(v)
  {
    IntStringsHaveNoComma([v]);
    assert IntStrings([v])[0] == IntToString(v);
  }

  /** Distinct integers have distinct numerical keys. */
  lemma NumericalKeyInjective(v1: int, v2: int)
    ensures NumericalKey(v1) == NumericalKey(v2) <==> v1 == v2
  {
    IntToStringHasNoComma(v1);
    IntToStringHasNoComma(v2);
    IntToStringInjective(v1, v2);
    KeyInjective([IntToString(v1)], [], [IntToString(v2)], []);
  }

  /** `get_value` of a numerical record: the integer in its first tag. */
  function NumericalValue(r: Record): (v: Option<int>)
    ensures v.Some? ==> |r.tags| > 0 && v == ParseInt(r.tags[0])
  {
    if |r.tags| == 0 then None else ParseInt(r.tags[0])
  }

  /** A table is consistent when every record sits under its own index with
      tags that survive the comma encoding, and every key leads to a record
      with that key. Interning keeps this; loading XML whose entries disagree
      with their keys can break it. */
  ghost predicate Consistent(t: Table)
    reads t
  {
    ConsistentMaps(t.keytable, t.indextable)
  }

  ghost predicate ConsistentMaps(kt: map<Key, int>, it: map<int, Record>)
  {
    (forall i :: i in it ==> it[i].index == i && EncodableTags(it[i].tags)) &&
    (forall k :: k in kt ==> kt[k] in it && KeyOf(it[kt[k]]) == k)
  }

  /** The record found under an interned key has exactly the tags and args
      of that key. */
  lemma ConsistentLookup(t: Table, tags: seq<string>, args: seq<int>)
    requires Consistent(t) && EncodableTags(tags)
    requires GetKey(tags, args) in t.keytable
    ensures var r := t.indextable[t.keytable[GetKey(tags, args)]];
      r.tags == tags && r.args == args && r.index == t.keytable[GetKey(tags, args)]
  {
    var i := t.keytable[GetKey(tags, args)];
    assert i in t.indextable && KeyOf(t.indextable[i]) == GetKey(tags, args);
    var r := t.indextable[i];
    assert EncodableTags(r.tags) && r.index == i;
    KeyInjective(r.tags, r.args, tags, args);
  }

  /** A valid, consistent table interns: distinct keys have distinct
      indices and no key points at a reservation. */
  lemma ConsistentInterns(t: Table)
    requires t.Valid() && Consistent(t)
    ensures t.Interning()
  {
    forall k1, k2 | k1 in t.keytable && k2 in t.keytable && t.keytable[k1] == t.keytable[k2]
      ensures k1 == k2
    {
      assert KeyOf(t.indextable[t.keytable[k1]]) == k1;
    }
    forall k | k in t.keytable
      ensures t.keytable[k] !in t.reserved
    {
      assert t.keytable[k] in t.indextable;
    }
  }

  ghost predicate Extends<V>(m2: map<int, V>, m1: map<int, V>)
  {
    forall i :: i in m1 ==> i in m2 && m2[i] == m1[i]
  }

  /** A term is represented by the term and numerical tables when its record
      stores its kind and its operands' indices, a constant's numerical entry
      holds its value, and the operands are represented in turn. */
  ghost predicate Represents(t: JTerm, jterms: map<int, Record>, nums: map<int, Record>)
  {
    t.index in jterms &&
    var r := jterms[t.index];
    match t
    case Constant(_, v) =>
      r.tags == ["c"] && |r.args| == 1 && r.args[0] in nums && NumericalValue(nums[r.args[0]]) == Some(v)
    case ArithmeticExpr(_, op, e1, e2) =>
      r.tags == ["ar", op] && r.args == [e1.index, e2.index] &&
      Represents(e1, jterms, nums) && Represents(e2, jterms, nums)
    case LengthOf(_, _, e) =>
      |r.tags| > 0 && r.tags[0] == Tag(t) && |r.args| > 0 && r.args[0] == e.index && Represents(e, jterms, nums)
    case _ =>
      |r.tags| > 0 && r.tags[0] == Tag(t)
  }

  /** Tables that only gain entries keep representing what they represented. */
  lemma {:induction false} RepresentsGrows(t: JTerm, j1: map<int, Record>, n1: map<int, Record>, j2: map<int, Record>, n2: map<int, Record>)
    requires Represents(t, j1, n1) && Extends(j2, j1) && Extends(n2, n1)
    ensures Represents(t, j2, n2)
  {
    match t
    case Constant(ix, v) =>
      var r := j1[ix];
      assert r.tags == ["c"] && |r.args| == 1 && r.args[0] in n1 && NumericalValue(n1[r.args[0]]) == Some(v);
      assert j2[ix] == r;
      var a := r.args[0];
      assert a in n2 && n2[a] == n1[a];
    case ArithmeticExpr(_, _, e1, e2) =>
      RepresentsGrows(e1, j1, n1, j2, n2);
      RepresentsGrows(e2, j1, n1, j2, n2);
    case LengthOf(_, _, e) =>
      RepresentsGrows(e, j1, n1, j2, n2);
    case _ =>
  }

  /** An interned arithmetic record over represented operands represents
      the expression. */
  lemma RepresentsArithmetic(ix: int, op: string, t1: JTerm, t2: JTerm, j0: map<int, Record>, j: map<int, Record>, n: map<int, Record>)
    requires Represents(t1, j0, n) && Represents(t2, j0, n) && Extends(j, j0)
    requires ix in j && j[ix].tags == ["ar", op] && j[ix].args == [t1.index, t2.index]
    ensures Represents(ArithmeticExpr(ix, op, t1, t2), j, n)
  {
    RepresentsGrows(t1, j0, n, j, n);
    RepresentsGrows(t2, j0, n, j, n);
  }

  // ---------------------------------------------------------------- loading

  /** The `get_value` of each table's reader: `get_rep`, and for the term
      table the constructor chosen by the first tag, which fails on a record
      without tags or with an unknown tag. */
  function DecodeNode(node: Attributes, isJTermTable: bool): (r: Result<Record>)
    ensures r.Ok? ==> GetRep(node) == Ok(r.value)
    ensures r.Ok? && isJTermTable ==> |r.value.tags| > 0 && r.value.tags[0] in JTermTags
    ensures !isJTermTable ==> r == GetRep(node)
  {
    match GetRep(node)
    case Err(e) => Err(e)
    case Ok(rec) =>
      if !isJTermTable then RecordInit(rec)
      else if rec.tags == [] then Err(IndexError("list index out of range"))
      else if rec.tags[0] !in JTermTags then Err(KeyError(rec.tags[0]))
      else RecordInit(rec)
  }

  /** The `get_value` of each table's reader as written: every term class
      passes its record up without the type dictionary, so no node decodes,
      and one whose record `get_rep` reads (and, in the term table, whose
      first tag is a known one) fails with TypeError. */
  function DecodeNodeAsWritten(node: Attributes, isJTermTable: bool): (r: Result<Record>)
    ensures r.Err?
    ensures GetRep(node).Err? ==> r == Err(GetRep(node).error)
    ensures GetRep(node).Ok? && (!isJTermTable || (|GetRep(node).value.tags| > 0 && GetRep(node).value.tags[0] in JTermTags)) ==>
      r.error.Failure?
  {
    match GetRep(node)
    case Err(e) => Err(e)
    case Ok(rec) =>
      if !isJTermTable then RecordInitAsWritten(rec)
      else if rec.tags == [] then Err(IndexError("list index out of range"))
      else if rec.tags[0] !in JTermTags then Err(KeyError(rec.tags[0]))
      else RecordInitAsWritten(rec)
  }

  /** Decodes the nodes in order; the first failure is the result. */
  function DecodeNodes(nodes: seq<Attributes>, isJTermTable: bool): (r: Result<seq<Record>>)
    ensures r.Ok? ==> |r.value| == |nodes|
  {
    if nodes == [] then Ok([])
    else match DecodeNode(nodes[0], isJTermTable)
      case Err(e) => Err(e)
      case Ok(rec) =>
        match DecodeNodes(nodes[1..], isJTermTable)
        case Err(e) => Err(e)
        case Ok(recs) => Ok([rec] + recs)
  }

  /** DecodeNodes is the generic decoding loop with DecodeNode. */
  lemma {:induction false} DecodeNodesIsDecodeAll(nodes: seq<Attributes>, isJTermTable: bool, decode: Attributes -> Result<Record>)
    requires forall node :: decode(node) == DecodeNode(node, isJTermTable)
    ensures DecodeNodes(nodes, isJTermTable) == DecodeAll(nodes, decode)
  {
    if nodes != [] {
      DecodeNodesIsDecodeAll(nodes[1..], isJTermTable, decode);
    }
  }

  /** A successful decoding decodes every node; a failed one reports the
      error of the first node that does not decode. */
  lemma DecodeNodesFirstFailure(nodes: seq<Attributes>, isJTermTable: bool)
    ensures var r := DecodeNodes(nodes, isJTermTable);
      r.Ok? ==> forall k :: 0 <= k < |nodes| ==> DecodeNode(nodes[k], isJTermTable) == Ok(r.value[k])
    ensures var r := DecodeNodes(nodes, isJTermTable);
      r.Err? ==> exists k :: (0 <= k < |nodes| && DecodeNode(nodes[k], isJTermTable) == Err(r.error) &&
        forall l :: 0 <= l < k ==> DecodeNode(nodes[l], isJTermTable).Ok?)
  {
    var decode := (node: Attributes) => DecodeNode(node, isJTermTable);
    DecodeNodesIsDecodeAll(nodes, isJTermTable, decode);
    var r := DecodeNodes(nodes, isJTermTable);
    if r.Err? {
      DecodeAllFirstFailure(nodes, decode);
      var k :| 0 <= k < |nodes| && decode(nodes[k]) == Err(r.error) && forall l :: 0 <= l < k ==> decode(nodes[l]).Ok?;
      assert DecodeNode(nodes[k], isJTermTable) == Err(r.error);
    }
  }

  function WrittenNodes(recs: seq<Record>): (nodes: seq<Attributes>)
    ensures |nodes| == |recs|
    ensures forall k :: 0 <= k < |recs| ==> nodes[k] == Records.WriteXml(recs[k], map[])
  {
    if recs == [] then [] else [Records.WriteXml(recs[0], map[])] + WrittenNodes(recs[1..])
  }

  /** Reading back what a table wrote gives the same records. */
  lemma DecodeWrittenNodes(recs: seq<Record>, isJTermTable: bool)
    requires forall k :: 0 <= k < |recs| ==> EncodableTags(recs[k].tags)
    requires isJTermTable ==> forall k :: 0 <= k < |recs| ==> |recs[k].tags| > 0 && recs[k].tags[0] in JTermTags
    ensures DecodeNodes(WrittenNodes(recs), isJTermTable) == Ok(recs)
  {
    var nodes := WrittenNodes(recs);
    forall k | 0 <= k < |recs|
      ensures DecodeNode(nodes[k], isJTermTable) == Ok(recs[k])
    {
      RepRoundTrip(recs[k]);
    }
    DecodeAllOk(nodes, recs, isJTermTable);
  }

  lemma {:induction false} DecodeAllOk(nodes: seq<Attributes>, recs: seq<Record>, isJTermTable: bool)
    requires |nodes| == |recs|
    requires forall k :: 0 <= k < |nodes| ==> DecodeNode(nodes[k], isJTermTable) == Ok(recs[k])
    ensures DecodeNodes(nodes, isJTermTable) == Ok(recs)
  {
    if nodes != [] {
      DecodeAllOk(nodes[1..], recs[1..], isJTermTable);
      assert [recs[0]] + recs[1..] == recs;
    }
  }

  /** What the reader of a table obtains from the document: the decoded
      records of the element of that name, IndexedTableError when the
      element is missing, or the first decoding error. */
  function Decoded(name: string, x: XmlTables, isJTermTable: bool): Result<seq<Record>>
  {
    if name !in x then Err(IndexedTableError(name)) else DecodeNodes(x[name], isJTermTable)
  }

  /** After loading, a table is valid and holds exactly the given records:
      nothing pending, no checkpoint, each record under its index and each
      key pointing at the index of its last record, and nothing else. */
  ghost predicate LoadedWith(t: Table, recs: seq<Record>)
    reads t
  {
    t.Valid() && t.reserved == [] && t.checkpoint == None &&
    t.indextable == LoadedObjects(recs, RecordIndex) &&
    t.keytable == LoadedKeys(recs, KeyOf, RecordIndex)
  }

  /** The nine tables, in the order `initialize` resets and reads them. */
  datatype TableId =
    | SymbolicJTermConstants | Strings | Numericals | Floats | JTermsTable
    | RelationalExprs | JTermLists | RelationalExprLists | JTermRanges
  {
    function Position(): (p: nat)
      ensures p < 9
    {
      match this
      case SymbolicJTermConstants => 0
      case Strings => 1
      case Numericals => 2
      case Floats => 3
      case JTermsTable => 4
      case RelationalExprs => 5
      case JTermLists => 6
      case RelationalExprLists => 7
      case JTermRanges => 8
    }
  }

  /** `add` on a table of records: the key of tags and args is interned,
      and a fresh key stores the record of those tags and args under its
      new index. */
  method Intern(t: Table, tags: seq<string>, args: seq<int>) returns (ix: int)
    requires t.Valid()
    modifies t
    ensures t.Valid()
    ensures GetKey(tags, args) in t.keytable && t.keytable[GetKey(tags, args)] == ix && ix in t.indextable
    ensures GetKey(tags, args) in old(t.keytable) ==> ix == old(t.keytable[GetKey(tags, args)]) && unchanged(t)
    ensures GetKey(tags, args) !in old(t.keytable) ==>
      ix == old(t.next) && ix !in old(t.indextable) && t.indextable == old(t.indextable)[ix := Record(ix, tags, args)]
    ensures Extends(t.indextable, old(t.indextable))
    ensures old(t.Interning()) ==> t.Interning()
    ensures old(Consistent(t)) && EncodableTags(tags) ==> Consistent(t)
  {
    ghost var kt, it := t.keytable, t.indextable;
    ix := t.Add(GetKey(tags, args), (index: int, key: Key) => Record(index, tags, args));
    if GetKey(tags, args) !in kt && EncodableTags(tags) && ConsistentMaps(kt, it) {
      assert ix !in it;
      ConsistentInsert(t, kt, it, Record(ix, tags, args));
    }
  }

  /** Storing a fresh record under a fresh key keeps a table consistent. */
  lemma ConsistentInsert(t: Table, kt: map<Key, int>, it: map<int, Record>, rec: Record)
    requires ConsistentMaps(kt, it) && EncodableTags(rec.tags) && rec.index !in it
    requires t.keytable == kt[KeyOf(rec) := rec.index] && t.indextable == it[rec.index := rec]
    ensures Consistent(t)
  {
  }

  /** Nine fresh empty tables carrying the table names in order. */
  method NewTables() returns (ts: seq<Table>)
    ensures |ts| == 9
    ensures forall j :: 0 <= j < 9 ==> fresh(ts[j]) && ts[j].name == TableNames[j] && ts[j].IsEmpty()
  {
    ts := [];
    while |ts| < 9
      invariant |ts| <= 9
      invariant forall j :: 0 <= j < |ts| ==> fresh(ts[j]) && ts[j].name == TableNames[j] && ts[j].IsEmpty()
    {
      var t := NewTable(TableNames[|ts|]);
      ts := ts + [t];
    }
  }

  /** The tags of an arithmetic expression can be encoded when its
      operator has no comma. */
  lemma ArithmeticTagsEncodable(op: string)
    requires ',' !in op
    ensures EncodableTags(["ar", op])
  {
    var tags := ["ar", op];
    assert tags[0] == ['a', 'r'];
    assert tags[1] == op;
  }

  class JTermDictionary {
    const symbolicJTermConstantTable: Table
    const stringTable: Table
    const numericalTable: Table
    const floatTable: Table
    const jtermTable: Table
    const relationalExprTable: Table
    const jtermListTable: Table
    const relationalExprListTable: Table
    const jtermRangeTable: Table

    function Tables(): seq<Table>
    {
      [symbolicJTermConstantTable, stringTable, numericalTable, floatTable, jtermTable,
       relationalExprTable, jtermListTable, relationalExprListTable, jtermRangeTable]
    }

    /** Each table carries its own name, so the nine tables are nine
        different objects. This depends only on constant fields. */
    ghost predicate Distinct()
    {
      forall j :: 0 <= j < 9 ==> Tables()[j].name == TableNames[j]
    }

    lemma TermTablesDiffer()
      requires Distinct()
      ensures numericalTable != jtermTable
    {
      assert numericalTable.name == TableNames[2] && jtermTable.name == TableNames[4];
    }

    ghost predicate Valid()
      reads Tables()
    {
      Distinct() && forall j :: 0 <= j < 9 ==> Tables()[j].Valid()
    }

    /** What the interning functions need: the numerical and term tables are
        valid and are two different tables. */
    ghost predicate TermTablesValid()
      reads numericalTable, jtermTable
    {
      Distinct() && numericalTable.Valid() && jtermTable.Valid()
    }

    /** Both tables that terms are built from are consistent. */
    ghost predicate TermTablesConsistent()
      reads numericalTable, jtermTable
    {
      Consistent(numericalTable) && Consistent(jtermTable)
    }

    ghost predicate RepresentsTerm(t: JTerm)
      reads numericalTable, jtermTable
    {
      Represents(t, jtermTable.indextable, numericalTable.indextable)
    }

    /** The empty dictionary; the library's constructor then calls `initialize`. */
    constructor ()
      ensures Valid() && TermTablesValid() && TermTablesConsistent()
      ensures forall j :: 0 <= j < 9 ==> Tables()[j].IsEmpty()
    {
      var ts := NewTables();
      symbolicJTermConstantTable, stringTable, numericalTable := ts[0], ts[1], ts[2];
      floatTable, jtermTable, relationalExprTable := ts[3], ts[4], ts[5];
      jtermListTable, relationalExprListTable, jtermRangeTable := ts[6], ts[7], ts[8];
      new;
      assert Tables() == ts;
      forall j | 0 <= j < 9
        ensures Tables()[j].Valid()
      {
        Tables()[j].EmptyIsValid();
      }
    }

    /** The nine getters: `retrieve` on the named table. */
    method Get(table: TableId, ix: int) returns (r: Result<Record>)
      ensures r.Ok? <==> ix in Tables()[table.Position()].indextable
      ensures r.Ok? ==> r.value == Tables()[table.Position()].indextable[ix]
      ensures r.Err? ==> r.error.IndexedTableError?
    {
      r := Tables()[table.Position()].Retrieve(ix);
    }

    /** `index_numerical`: interns the decimal text of v. */
    method IndexNumerical(v: int) returns (ix: int)
      requires Distinct() && numericalTable.Valid()
      modifies numericalTable
      ensures numericalTable.Valid()
      ensures NumericalKey(v) in numericalTable.keytable && numericalTable.keytable[NumericalKey(v)] == ix
      ensures ix in numericalTable.indextable
      ensures NumericalKey(v) in old(numericalTable.keytable) ==>
        ix == old(numericalTable.keytable[NumericalKey(v)]) && unchanged(numericalTable)
      ensures NumericalKey(v) !in old(numericalTable.keytable) ==>
        ix == old(numericalTable.next) && ix !in old(numericalTable.indextable) &&
        numericalTable.indextable == old(numericalTable.indextable)[ix := Record(ix, [IntToString(v)], [])]
      ensures Extends(numericalTable.indextable, old(numericalTable.indextable))
      ensures old(Consistent(numericalTable)) ==> Consistent(numericalTable)
    {
      ix := Intern(numericalTable, [IntToString(v)], []);
      IntToStringHasNoComma(v);
    }

    /** In a consistent table, distinct integers were given distinct indices. */
    lemma NumericalIndicesDistinct(v1: int, v2: int)
      requires numericalTable.Valid() && Consistent(numericalTable)
      requires NumericalKey(v1) in numericalTable.keytable && NumericalKey(v2) in numericalTable.keytable
      ensures numericalTable.keytable[NumericalKey(v1)] == numericalTable.keytable[NumericalKey(v2)] <==> v1 == v2
    {
      ConsistentInterns(numericalTable);
      NumericalKeyInjective(v1, v2);
    }

    /** `mk_numerical`: the numerical record of v, whose value is v. */
    method MkNumerical(v: int) returns (rec: Record)
      requires Distinct() && numericalTable.Valid()
      modifies numericalTable
      ensures numericalTable.Valid()
      ensures NumericalKey(v) in numericalTable.keytable
      ensures rec == numericalTable.indextable[numericalTable.keytable[NumericalKey(v)]]
      ensures old(Consistent(numericalTable)) ==>
        Consistent(numericalTable) && rec.tags == [IntToString(v)] && rec.args == [] && NumericalValue(rec) == Some(v)
    {
      var ix := IndexNumerical(v);
      var r := numericalTable.Retrieve(ix);
      rec := r.value;
      if Consistent(numericalTable) {
        IntToStringHasNoComma(v);
        ConsistentLookup(numericalTable, [IntToString(v)], []);
        ParseIntToString(v);
      }
    }

    /** `index_constant_jterm`: interns the term 'c' whose argument is the
        numerical index of v. */
    method IndexConstantJTerm(v: int) returns (ix: int)
      requires TermTablesValid()
      modifies numericalTable, jtermTable
      ensures TermTablesValid()
      ensures NumericalKey(v) in numericalTable.keytable
      ensures var n := numericalTable.keytable[NumericalKey(v)];
        ConstantKey(n) in jtermTable.keytable && jtermTable.keytable[ConstantKey(n)] == ix
      ensures ix in jtermTable.indextable
      ensures NumericalKey(v) in old(numericalTable.keytable) &&
              ConstantKey(old(numericalTable.keytable[NumericalKey(v)])) in old(jtermTable.keytable) ==>
        ix == old(jtermTable.keytable[ConstantKey(numericalTable.keytable[NumericalKey(v)])]) &&
        unchanged(numericalTable, jtermTable)
      ensures Extends(numericalTable.indextable, old(numericalTable.indextable))
      ensures Extends(jtermTable.indextable, old(jtermTable.indextable))
      ensures old(TermTablesConsistent()) ==> TermTablesConsistent()
    {
      TermTablesDiffer();
      var n := IndexNumerical(v);
      ix := Intern(jtermTable, ["c"], [n]);
    }

    /** `mk_constant_jterm`: the constant term of v, interned. */
    method MkConstantJTerm(v: int) returns (t: JTerm)
      requires TermTablesValid()
      modifies numericalTable, jtermTable
      ensures TermTablesValid()
      ensures t == Constant(t.index, v)
      ensures NumericalKey(v) in numericalTable.keytable
      ensures var n := numericalTable.keytable[NumericalKey(v)];
        ConstantKey(n) in jtermTable.keytable && jtermTable.keytable[ConstantKey(n)] == t.index
      ensures Extends(numericalTable.indextable, old(numericalTable.indextable))
      ensures Extends(jtermTable.indextable, old(jtermTable.indextable))
      ensures old(TermTablesConsistent()) ==> TermTablesConsistent() && RepresentsTerm(t)
    {
      var ix := IndexConstantJTerm(v);
      t := Constant(ix, v);
      if TermTablesConsistent() {
        var n := numericalTable.keytable[NumericalKey(v)];
        IntToStringHasNoComma(v);
        ConsistentLookup(numericalTable, [IntToString(v)], []);
        ConsistentLookup(jtermTable, ["c"], [n]);
        ParseIntToString(v);
      }
    }

    /** `index_arithmetic_jterm`: interns ('ar', op) over the operands' indices. */
    method IndexArithmeticJTerm(t1: JTerm, t2: JTerm, op: string) returns (ix: int)
      requires Distinct() && jtermTable.Valid()
      modifies jtermTable
      ensures jtermTable.Valid()
      ensures ArithmeticKey(op, t1.index, t2.index) in jtermTable.keytable
      ensures jtermTable.keytable[ArithmeticKey(op, t1.index, t2.index)] == ix && ix in jtermTable.indextable
      ensures ArithmeticKey(op, t1.index, t2.index) in old(jtermTable.keytable) ==>
        ix == old(jtermTable.keytable[ArithmeticKey(op, t1.index, t2.index)]) && unchanged(jtermTable)
      ensures Extends(jtermTable.indextable, old(jtermTable.indextable))
      ensures old(Consistent(jtermTable)) && ',' !in op ==> Consistent(jtermTable)
    {
      ix := Intern(jtermTable, ["ar", op], [t1.index, t2.index]);
    }

    /** `mk_arithmetic_jterm`: the interned expression over t1 and t2. */
    method MkArithmeticJTerm(t1: JTerm, t2: JTerm, op: string) returns (t: JTerm)
      requires Distinct() && jtermTable.Valid()
      modifies jtermTable
      ensures jtermTable.Valid()
      ensures t == ArithmeticExpr(t.index, op, t1, t2)
      ensures ArithmeticKey(op, t1.index, t2.index) in jtermTable.keytable
      ensures jtermTable.keytable[ArithmeticKey(op, t1.index, t2.index)] == t.index
      ensures ArithmeticKey(op, t1.index, t2.index) in old(jtermTable.keytable) ==>
        t.index == old(jtermTable.keytable[ArithmeticKey(op, t1.index, t2.index)]) && unchanged(jtermTable)
      ensures Extends(jtermTable.indextable, old(jtermTable.indextable))
      ensures old(TermTablesConsistent()) && ',' !in op ==> TermTablesConsistent()
      ensures old(TermTablesConsistent()) && ',' !in op && old(RepresentsTerm(t1)) && old(RepresentsTerm(t2)) ==>
        RepresentsTerm(t)
    {
      TermTablesDiffer();
      ghost var j0 := jtermTable.indextable;
      ghost var n0 := numericalTable.indextable;
      var ix := IndexArithmeticJTerm(t1, t2, op);
      t := ArithmeticExpr(ix, op, t1, t2);
      assert numericalTable.indextable == n0;
      if TermTablesConsistent() && ',' !in op && Represents(t1, j0, n0) && Represents(t2, j0, n0) {
        ArithmeticTagsEncodable(op);
        ConsistentLookup(jtermTable, ["ar", op], [t1.index, t2.index]);
        RepresentsArithmetic(ix, op, t1, t2, j0, jtermTable.indextable, n0);
      }
    }

    /** `add` on two terms of this dictionary: the receiver's class decides
        (see AddOutcome); a folded or composed result is interned. */
    method AddTerms(a: JTerm, b: JTerm) returns (r: Option<JTerm>)
      requires TermTablesValid()
      modifies numericalTable, jtermTable
      ensures TermTablesValid()
      ensures r.None? <==> AddOutcome(a, b).FloatArithmetic?
      ensures AddOutcome(a, b).Same? ==> r == Some(a) && unchanged(numericalTable, jtermTable)
      ensures AddOutcome(a, b).Fold? ==> r.Some? && r.value == Constant(r.value.index, AddOutcome(a, b).v)
      ensures AddOutcome(a, b).Compose? ==>
        r.Some? && r.value == ArithmeticExpr(r.value.index, "add", AddOutcome(a, b).e1, AddOutcome(a, b).e2)
      ensures old(TermTablesConsistent()) ==> TermTablesConsistent()
      ensures old(TermTablesConsistent()) && old(RepresentsTerm(a)) && old(RepresentsTerm(b)) && r.Some? ==>
        RepresentsTerm(r.value)
    {
      var o := AddOutcome(a, b);
      match o
      case Same(t) =>
        r := Some(t);
      case Fold(v) =>
        var t := MkConstantJTerm(v);
        r := Some(t);
      case Compose(x, y) =>
        var t := MkArithmeticJTerm(x, y, "add");
        r := Some(t);
      case FloatArithmetic =>
        r := None;
    }

    /** `div` on two terms of this dictionary (see DivOutcome). */
    method DivTerms(a: JTerm, b: JTerm) returns (r: Option<JTerm>)
      requires Distinct() && jtermTable.Valid()
      modifies jtermTable
      ensures jtermTable.Valid()
      ensures r.None? <==> DivOutcome(a, b).FloatArithmetic?
      ensures DivOutcome(a, b).Same? ==> r == Some(a) && unchanged(jtermTable)
      ensures DivOutcome(a, b).Compose? ==>
        r.Some? && r.value == ArithmeticExpr(r.value.index, "div", a, b)
      ensures old(TermTablesConsistent()) ==> TermTablesConsistent()
      ensures old(TermTablesConsistent()) && old(RepresentsTerm(a)) && old(RepresentsTerm(b)) && r.Some? ==>
        RepresentsTerm(r.value)
    {
      match DivOutcome(a, b)
      case Same(t) =>
        r := Some(t);
      case Compose(x, y) =>
        var t := MkArithmeticJTerm(x, y, "div");
        r := Some(t);
      case FloatArithmetic =>
        r := None;
    }

    /** `read_xml_jterm`: the term whose index is in the given attribute. */
    method ReadXmlJTerm(node: Attributes, tag: string) returns (r: Result<Record>)
      ensures tag !in node ==> r.Err?
      ensures r.Ok? ==> (ParseInt(node[tag]).Some? && ParseInt(node[tag]).value in jtermTable.indextable &&
                         r.value == jtermTable.indextable[ParseInt(node[tag]).value])
    {
      if tag !in node {
        r := Err(Failure("int() argument must be a string, not 'NoneType'"));
        return;
      }
      match ParseInt(node[tag])
      case None =>
        r := Err(ValueError("invalid literal for int()"));
      case Some(ix) =>
        r := jtermTable.Retrieve(ix);
    }

    /** `initialize`: nothing for a missing document; otherwise each table in
        turn is reset and then filled from its element, stopping at the first
        table whose element is missing or does not decode. */
    method Initialize(xnode: Option<XmlTables>) returns (r: Result<()>)
      requires Valid()
      modifies Tables()
      ensures r.Ok? ==> Valid()
      ensures xnode.None? ==> r.Ok? && forall j :: 0 <= j < 9 ==> unchanged(Tables()[j])
      ensures r.Ok? && xnode.Some? ==> forall j :: 0 <= j < 9 ==>
        Decoded(TableNames[j], xnode.value, j == JTermTablePosition).Ok? &&
        LoadedWith(Tables()[j], Decoded(TableNames[j], xnode.value, j == JTermTablePosition).value)
      ensures r.Err? ==> xnode.Some? && exists j :: (0 <= j < 9 &&
        Decoded(TableNames[j], xnode.value, j == JTermTablePosition) == Err(r.error) &&
        forall l :: 0 <= l < j ==> Decoded(TableNames[l], xnode.value, l == JTermTablePosition).Ok?)
    {
      r := Ok(());
      if xnode.None? {
        return;
      }
      r := LoadTables(Tables(), xnode.value);
    }

    /** The table at position j is none of the other eight. */
    lemma OthersDiffer(j: int)
      requires Distinct() && 0 <= j < 9
      ensures forall l :: 0 <= l < 9 && l != j ==> Tables()[l] != Tables()[j]
    {
      TableNamesDistinct();
    }
  }

  /** Tables that carry the nine table names in order are nine different objects. */
  lemma NamedTablesDiffer(ts: seq<Table>, j: int)
    requires |ts| == 9 && 0 <= j < 9
    requires forall l :: 0 <= l < 9 ==> ts[l].name == TableNames[l]
    ensures forall l :: 0 <= l < 9 && l != j ==> ts[l] != ts[j]
  {
    TableNamesDistinct();
  }

  /** The loop of `initialize`: reset and read each of the nine tables in
      turn, stopping at the first table whose element is missing or
      malformed. */
  method LoadTables(tables: seq<Table>, x: XmlTables) returns (r: Result<()>)
    requires |tables| == 9
    requires forall l :: 0 <= l < 9 ==> tables[l].name == TableNames[l]
    modifies set l | 0 <= l < 9 :: tables[l]
    ensures r.Ok? ==> forall l :: 0 <= l < 9 ==>
      Decoded(TableNames[l], x, l == JTermTablePosition).Ok? &&
      LoadedWith(tables[l], Decoded(TableNames[l], x, l == JTermTablePosition).value)
    ensures r.Err? ==> exists j :: (0 <= j < 9 &&
      Decoded(TableNames[j], x, j == JTermTablePosition) == Err(r.error) &&
      forall l :: 0 <= l < j ==> Decoded(TableNames[l], x, l == JTermTablePosition).Ok?)
  {
    r := Ok(());
    var j := 0;
    while j < 9
      invariant 0 <= j <= 9
      invariant forall l :: 0 <= l < j ==> Decoded(TableNames[l], x, l == JTermTablePosition).Ok?
      invariant forall l :: 0 <= l < j ==> LoadedWith(tables[l], Decoded(TableNames[l], x, l == JTermTablePosition).value)
      invariant r.Ok?
    {
      NamedTablesDiffer(tables, j);
      r := ResetAndRead(tables[j], x, j == JTermTablePosition);
      if r.Err? {
        return;
      }
      j := j + 1;
    }
  }

  /** One step of `initialize`: reset the table, then read its element. A
      missing element raises IndexedTableError after the reset. */
  method ResetAndRead(t: Table, x: XmlTables, isJTermTable: bool) returns (r: Result<()>)
    modifies t
    ensures t.Valid()
    ensures r.Ok? <==> Decoded(t.name, x, isJTermTable).Ok?
    ensures r.Err? ==> r.error == Decoded(t.name, x, isJTermTable).error
    ensures r.Ok? ==> LoadedWith(t, Decoded(t.name, x, isJTermTable).value)
  {
    t.Reset();
    if t.name !in x {
      var _ := t.ReadXml(None, KeyOf, RecordIndex);
      return Err(IndexedTableError(t.name));
    }
    var decoded := DecodeNodes(x[t.name], isJTermTable);
    if decoded.Err? {
      return Err(decoded.error);
    }
    LoadRecords(t, decoded.value);
    r := Ok(());
  }

  function RecordIndex(r: Record): int { r.index }

  /** `read_xml` on a reset table with a present element. */
  method LoadRecords(t: Table, recs: seq<Record>)
    requires t.Valid() && t.IsEmpty()
    modifies t
    ensures LoadedWith(t, recs)
  {
    var r := t.ReadXml(Some(recs), KeyOf, RecordIndex);
    EmptyUnion(LoadedObjects(recs, RecordIndex));
    EmptyUnion(LoadedKeys(recs, KeyOf, RecordIndex));
  }

  /** What a loaded table holds: an index is stored exactly when some
      record has it, the object stored there is a record with that index,
      and every record's key points at the index of some record. */
  lemma LoadedContents(t: Table, recs: seq<Record>)
    requires LoadedWith(t, recs)
    ensures forall i :: i in t.indextable <==> exists o :: o in recs && o.index == i
    ensures forall i :: i in t.indextable ==> t.indextable[i] in recs && t.indextable[i].index == i
    ensures forall o :: o in recs ==> KeyOf(o) in t.keytable
    ensures forall k :: k in t.keytable ==> exists o :: o in recs && o.index == t.keytable[k]
  {
    LoadedObjectsFacts(recs, RecordIndex);
    LoadedKeysFacts(recs, KeyOf, RecordIndex);
  }
}
