/** The bytecode dictionary of a class (chj/app/BcDictionary.py): four
    interning tables of pc lists, slots, slot lists and opcodes, the map
    from opcode tags to opcode classes with its fallback, loading from XML
    and the getters. */
module BcDictionaries {
  import opened Wrappers
  import opened Records
  import opened IndexedTables
  import opened Bytecodes

  /** An entry of one of the four tables. */
  datatype BcRecord =
    | PcListEntry(rec: Record)
    | SlotEntry(rec: Record)
    | SlotListEntry(rec: Record)
    | OpcodeEntry(op: Opcode)
  {
    /** The index, tags and args the entry was built from. */
    function Rep(): Record
    {
      if OpcodeEntry? then op.rec else rec
    }
  }

  /** `get_key` and `index` of an entry, as `read_xml` uses them. */
  function EntryKey(b: BcRecord): Key { KeyOf(b.Rep()) }

  function EntryIndex(b: BcRecord): int { b.Rep().index }

  type Table = IndexedTable<BcRecord>

  // ------------------------------------------------- opcode constructors

  /** `opcode_constructors`: the record class registered for an opcode
      tag, None for a tag the dictionary does not list. */
  function OpcodeConstructor(tag: string): Option<OpcodeClass>
  {
    match tag
    case "ld" => Some(Load)
    case "st" => Some(Store)
    case "inc" => Some(IInc)
    case "icst" => Some(IntConst)
    case "lcst" => Some(LongConst)
    case "fcst" => Some(FloatConst)
    case "dcst" => Some(DoubleConst)
    case "bcst" => Some(ByteConst)
    case "shcst" => Some(ShortConst)
    case "scst" => Some(StringConst)
    case "ccst" => Some(ClassConst)
    case "add" => Some(Add)
    case "sub" => Some(Sub)
    case "mult" => Some(Mult)
    case "div" => Some(Div)
    case "rem" => Some(Rem)
    case "neg" => Some(Neg)
    case "ifeq" => Some(IfEq)
    case "ifne" => Some(IfNe)
    case "iflt" => Some(IfLt)
    case "ifge" => Some(IfGe)
    case "ifgt" => Some(IfGt)
    case "ifle" => Some(IfLe)
    case "ifnull" => Some(IfNull)
    case "ifnonnull" => Some(IfNonNull)
    case "ifcmpeq" => Some(IfCmpEq)
    case "ifcmpne" => Some(IfCmpNe)
    case "ifcmplt" => Some(IfCmpLt)
    case "ifcmpge" => Some(IfCmpGe)
    case "ifcmpgt" => Some(IfCmpGt)
    case "ifcmple" => Some(IfCmpLe)
    case "ifcmpaeq" => Some(IfCmpAEq)
    case "ifcmpane" => Some(IfCmpANe)
    case "goto" => Some(Goto)
    case "jsr" => Some(Jsr)
    case "jret" => Some(Ret)
    case "table" => Some(TableSwitch)
    case "lookup" => Some(LookupSwitch)
    case "new" => Some(New)
    case "newa" => Some(NewArray)
    case "mnewa" => Some(AMultiNewArray)
    case "ccast" => Some(CheckCast)
    case "iof" => Some(InstanceOf)
    case "gets" => Some(GetStatic)
    case "puts" => Some(PutStatic)
    case "getf" => Some(GetField)
    case "putf" => Some(PutField)
    case "ald" => Some(ArrayLoad)
    case "ast" => Some(ArrayStore)
    case "invv" => Some(InvokeVirtual)
    case "invsp" => Some(InvokeSpecial)
    case "invst" => Some(InvokeStatic)
    case "invi" => Some(InvokeInterface)
    case "invd" => Some(InvokeDynamic)
    case "ret" => Some(Return)
    case _ => None
  }

  /** The tag under which each class is listed; the fallback class has none. */
  function TagOf(c: OpcodeClass): Option<string>
  {
    match c
    case Instruction => None
    case Load => Some("ld")
    case Store => Some("st")
    case IInc => Some("inc")
    case IntConst => Some("icst")
    case LongConst => Some("lcst")
    case FloatConst => Some("fcst")
    case DoubleConst => Some("dcst")
    case ByteConst => Some("bcst")
    case ShortConst => Some("shcst")
    case StringConst => Some("scst")
    case ClassConst => Some("ccst")
    case Add => Some("add")
    case Sub => Some("sub")
    case Mult => Some("mult")
    case Div => Some("div")
    case Rem => Some("rem")
    case Neg => Some("neg")
    case IfEq => Some("ifeq")
    case IfNe => Some("ifne")
    case IfLt => Some("iflt")
    case IfGe => Some("ifge")
    case IfGt => Some("ifgt")
    case IfLe => Some("ifle")
    case IfNull => Some("ifnull")
    case IfNonNull => Some("ifnonnull")
    case IfCmpEq => Some("ifcmpeq")
    case IfCmpNe => Some("ifcmpne")
    case IfCmpLt => Some("ifcmplt")
    case IfCmpGe => Some("ifcmpge")
    case IfCmpGt => Some("ifcmpgt")
    case IfCmpLe => Some("ifcmple")
    case IfCmpAEq => Some("ifcmpaeq")
    case IfCmpANe => Some("ifcmpane")
    case Goto => Some("goto")
    case Jsr => Some("jsr")
    case Ret => Some("jret")
    case TableSwitch => Some("table")
    case LookupSwitch => Some("lookup")
    case New => Some("new")
    case NewArray => Some("newa")
    case AMultiNewArray => Some("mnewa")
    case CheckCast => Some("ccast")
    case InstanceOf => Some("iof")
    case GetStatic => Some("gets")
    case PutStatic => Some("puts")
    case GetField => Some("getf")
    case PutField => Some("putf")
    case ArrayLoad => Some("ald")
    case ArrayStore => Some("ast")
    case InvokeVirtual => Some("invv")
    case InvokeSpecial => Some("invsp")
    case InvokeStatic => Some("invst")
    case InvokeInterface => Some("invi")
    case InvokeDynamic => Some("invd")
    case Return => Some("ret")
  }

  /** Each listed tag is the one tag of its class. */
  lemma ConstructorTagged(tag: string)
    ensures OpcodeConstructor(tag).Some? ==> TagOf(OpcodeConstructor(tag).value) == Some(tag)
  {
  }

  /** The fallback class is never listed: it is what an unlisted tag gets. */
  lemma FallbackNotListed(tag: string)
    ensures OpcodeConstructor(tag) != Some(Instruction)
  {
    ConstructorTagged(tag);
  }

  /** The map assigns each tag exactly one class and no two tags the same
      class. */
  lemma ConstructorsInjective(t1: string, t2: string)
    requires OpcodeConstructor(t1).Some? && OpcodeConstructor(t2).Some?
    ensures OpcodeConstructor(t1) == OpcodeConstructor(t2) <==> t1 == t2
  {
    ConstructorTagged(t1);
    ConstructorTagged(t2);
  }

  /** `get_value` of the opcode table: the class registered for tags[0],
      BcInstruction for any other tag; a record without tags fails. */
  function DecodeOpcode(rec: Record): (r: Result<Opcode>)
    ensures r.Ok? <==> |rec.tags| > 0
    ensures r.Err? ==> r.error.IndexError?
    ensures r.Ok? ==> r.value.rec == rec
    ensures r.Ok? && OpcodeConstructor(rec.tags[0]).Some? ==> r.value.cls == OpcodeConstructor(rec.tags[0]).value
    ensures r.Ok? ==> (r.value.cls == Instruction <==> OpcodeConstructor(rec.tags[0]).None?)
  {
    if |rec.tags| == 0 then Err(IndexError("list index out of range"))
    else
      FallbackNotListed(rec.tags[0]);
      Ok(Opcode(OpcodeConstructor(rec.tags[0]).GetOr(Instruction), rec))
  }

  /** A record with a tag decodes, and a listed class reads back the tag
      it was decoded from. */
  lemma DecodedTag(rec: Record)
    requires |rec.tags| > 0
    ensures DecodeOpcode(rec).Ok?
    ensures DecodeOpcode(rec).value.cls != Instruction ==> TagOf(DecodeOpcode(rec).value.cls) == Some(rec.tags[0])
  {
    ConstructorTagged(rec.tags[0]);
  }

  /** The calls and string loads among decoded opcodes, by tag: the five
      invoke tags are the calls and `scst` is the only string load. */
  lemma DecodedCalls(rec: Record)
    requires |rec.tags| > 0
    ensures DecodeOpcode(rec).Ok?
    ensures IsCall(DecodeOpcode(rec).value.cls) <==> rec.tags[0] in {"invv", "invsp", "invst", "invi", "invd"}
    ensures IsLoadString(DecodeOpcode(rec).value.cls) <==> rec.tags[0] == "scst"
  {
    DecodedTag(rec);
    if rec.tags[0] in {"invv", "invsp", "invst", "invi", "invd", "scst"} {
      ListedTags(rec.tags[0]);
    }
  }

  /** The field accesses among decoded opcodes, by tag. */
  lemma DecodedFieldAccesses(rec: Record)
    requires |rec.tags| > 0
    ensures DecodeOpcode(rec).Ok?
    ensures IsPutStatic(DecodeOpcode(rec).value.cls) <==> rec.tags[0] == "puts"
    ensures IsPutField(DecodeOpcode(rec).value.cls) <==> rec.tags[0] == "putf"
    ensures IsGetStatic(DecodeOpcode(rec).value.cls) <==> rec.tags[0] == "gets"
    ensures IsGetField(DecodeOpcode(rec).value.cls) <==> rec.tags[0] == "getf"
  {
    DecodedTag(rec);
    if rec.tags[0] in {"puts", "putf", "gets", "getf"} {
      ListedTags(rec.tags[0]);
    }
  }

  /** The creations among decoded opcodes, by tag: `new`, `newa` and
      `mnewa` create objects, the last two arrays, the last one a
      multi-array. */
  lemma DecodedCreations(rec: Record)
    requires |rec.tags| > 0
    ensures DecodeOpcode(rec).Ok?
    ensures IsObjectCreated(DecodeOpcode(rec).value.cls) <==> rec.tags[0] in {"new", "newa", "mnewa"}
    ensures IsArrayCreated(DecodeOpcode(rec).value.cls) <==> rec.tags[0] in {"newa", "mnewa"}
    ensures IsMultiArrayCreated(DecodeOpcode(rec).value.cls) <==> rec.tags[0] == "mnewa"
  {
    DecodedTag(rec);
    if rec.tags[0] in {"new", "newa", "mnewa"} {
      ListedTags(rec.tags[0]);
    }
  }

  /** An opcode decoded from a tag the map does not list answers no to all
      nine questions. */
  lemma DecodedUnlisted(rec: Record)
    requires |rec.tags| > 0 && OpcodeConstructor(rec.tags[0]).None?
    ensures DecodeOpcode(rec).Ok? && !AnsweredYes(DecodeOpcode(rec).value.cls)
  {
  }

  /** The tags the nine questions name are all listed. */
  lemma ListedTags(tag: string)
    requires tag in {"invv", "invsp", "invst", "invi", "invd", "scst", "puts", "putf", "gets", "getf", "new", "newa", "mnewa"}
    ensures OpcodeConstructor(tag).Some?
  {
  }

  // ---------------------------------------------------------------- tables

  /** The four tables in the order `initialize` reads them. */
  const TableNames: seq<string> := ["pc-list-table", "slot-table", "slot-list-table", "opcode-table"]

  const PcListPosition := 0
  const SlotPosition := 1
  const SlotListPosition := 2
  const OpcodePosition := 3

  lemma TableNamesDistinct()
    ensures forall j, l :: 0 <= j < l < 4 ==> TableNames[j] != TableNames[l]
  {
  }

  /** Whether an entry is of the kind the table at position j holds. */
  predicate OfKind(b: BcRecord, j: int)
  {
    (j == PcListPosition ==> b.PcListEntry?) &&
    (j == SlotPosition ==> b.SlotEntry?) &&
    (j == SlotListPosition ==> b.SlotListEntry?) &&
    (j == OpcodePosition ==> b.OpcodeEntry?)
  }

  /** The `get_value` of the table at position j: the record read by
      `get_rep`, made into an entry of that table's kind. */
  function DecodeEntry(node: Attributes, j: int): (r: Result<BcRecord>)
    requires 0 <= j < 4
    ensures r.Ok? ==> OfKind(r.value, j) && GetRep(node) == Ok(r.value.Rep())
    ensures GetRep(node).Err? ==> r == Err(GetRep(node).error)
    ensures j != OpcodePosition ==> r.Ok? == GetRep(node).Ok?
    ensures j == OpcodePosition && r.Ok? ==> DecodeOpcode(r.value.Rep()).Ok? && r.value.op == DecodeOpcode(r.value.Rep()).value
  {
    match GetRep(node)
    case Err(e) => Err(e)
    case Ok(rep) =>
      var rec := RecordInit(rep).value;
      if j == PcListPosition then Ok(PcListEntry(rec))
      else if j == SlotPosition then Ok(SlotEntry(rec))
      else if j == SlotListPosition then Ok(SlotListEntry(rec))
      else
        match DecodeOpcode(rec)
        case Err(e) => Err(e)
        case Ok(op) => Ok(OpcodeEntry(op))
  }

  /** The `get_value` of the table at position j as written: every record
      class passes its record up without the type dictionary, so no node
      decodes; a node that `get_rep` reads (and, in the opcode table, that
      has a tag) fails with TypeError. */
  function DecodeEntryAsWritten(node: Attributes, j: int): (r: Result<BcRecord>)
    requires 0 <= j < 4
    ensures r.Err?
    ensures GetRep(node).Err? ==> r == Err(GetRep(node).error)
    ensures GetRep(node).Ok? && (j != OpcodePosition || |GetRep(node).value.tags| > 0) ==> r.error.Failure?
  {
    match GetRep(node)
    case Err(e) => Err(e)
    case Ok(rep) =>
      if j == OpcodePosition && |rep.tags| == 0 then Err(IndexError("list index out of range"))
      else Err(RecordInitAsWritten(rep).error)
  }

  /** The entries of a table element, decoded in order; the first node that
      does not decode makes the result. */
  function DecodeEntries(nodes: seq<Attributes>, j: int): (r: Result<seq<BcRecord>>)
    requires 0 <= j < 4
    ensures r.Ok? ==> |r.value| == |nodes| && forall k :: 0 <= k < |nodes| ==> DecodeEntry(nodes[k], j) == Ok(r.value[k])
  {
    if nodes == [] then Ok([])
    else
      assert forall k :: 1 <= k < |nodes| ==> nodes[k] == nodes[1..][k - 1];
      match DecodeEntry(nodes[0], j)
      case Err(e) => Err(e)
      case Ok(b) =>
        match DecodeEntries(nodes[1..], j)
        case Err(e) => Err(e)
        case Ok(bs) => Ok([b] + bs)
  }

  /** DecodeEntries is the generic decoding loop with DecodeEntry. */
  lemma {:induction false} DecodeEntriesIsDecodeAll(nodes: seq<Attributes>, j: int, decode: Attributes -> Result<BcRecord>)
    requires 0 <= j < 4
    requires forall node :: decode(node) == DecodeEntry(node, j)
    ensures DecodeEntries(nodes, j) == DecodeAll(nodes, decode)
  {
    if nodes != [] {
      DecodeEntriesIsDecodeAll(nodes[1..], j, decode);
    }
  }

  /** A failed decoding reports the error of the first node that fails. */
  lemma DecodeEntriesFirstFailure(nodes: seq<Attributes>, j: int)
    requires 0 <= j < 4
    requires DecodeEntries(nodes, j).Err?
    ensures exists k :: (0 <= k < |nodes| && DecodeEntry(nodes[k], j) == Err(DecodeEntries(nodes, j).error) &&
      forall l :: 0 <= l < k ==> DecodeEntry(nodes[l], j).Ok?)
  {
    var decode := (node: Attributes) => DecodeEntry(node, j);
    DecodeEntriesIsDecodeAll(nodes, j, decode);
    DecodeAllFirstFailure(nodes, decode);
    var k :| 0 <= k < |nodes| && decode(nodes[k]) == Err(DecodeEntries(nodes, j).error) &&
      forall l :: 0 <= l < k ==> decode(nodes[l]).Ok?;
    assert DecodeEntry(nodes[k], j) == Err(DecodeEntries(nodes, j).error);
  }

  /** What the table at position j obtains from the document: the
      `safe_find` error for a missing element, or the decoded entries. */
  function Decoded(x: XmlTables, j: int): (r: Result<seq<BcRecord>>)
    requires 0 <= j < 4
    ensures TableNames[j] !in x ==> r == Err(CHJError(TableNames[j] + " missing from xml"))
    ensures TableNames[j] in x ==> r == DecodeEntries(x[TableNames[j]], j)
  {
    if TableNames[j] !in x then Err(CHJError(TableNames[j] + " missing from xml"))
    else DecodeEntries(x[TableNames[j]], j)
  }

  /** A table that holds exactly what a load of `bs` into an empty table
      leaves, with nothing reserved and no checkpoint. */
  ghost predicate LoadedWith(t: Table, bs: seq<BcRecord>)
    reads t
  {
    t.Valid() && t.reserved == [] && t.checkpoint == None &&
    t.indextable == LoadedObjects(bs, EntryIndex) &&
    t.keytable == LoadedKeys(bs, EntryKey, EntryIndex)
  }

  /** Only entries of the table's kind are stored in it. */
  ghost predicate HoldsKind(t: Table, j: int)
    reads t
  {
    forall i :: i in t.indextable ==> OfKind(t.indextable[i], j)
  }

  /** A table loaded with decoded entries holds only entries of its kind,
      each under its own index. */
  lemma LoadedHoldsKind(t: Table, nodes: seq<Attributes>, j: int)
    requires 0 <= j < 4
    requires DecodeEntries(nodes, j).Ok?
    requires LoadedWith(t, DecodeEntries(nodes, j).value)
    ensures HoldsKind(t, j)
    ensures forall i :: i in t.indextable ==> EntryIndex(t.indextable[i]) == i
  {
    var bs := DecodeEntries(nodes, j).value;
    LoadedObjectsFacts(bs, EntryIndex);
    forall i | i in t.indextable
      ensures OfKind(t.indextable[i], j)
    {
      var k :| 0 <= k < |bs| && bs[k] == t.indextable[i];
      assert DecodeEntry(nodes[k], j) == Ok(bs[k]);
    }
  }

  /** Four fresh empty tables carrying the table names in order. */
  method NewTables() returns (ts: seq<Table>)
    ensures |ts| == 4
    ensures forall j :: 0 <= j < 4 ==> fresh(ts[j]) && ts[j].name == TableNames[j] && ts[j].IsEmpty()
  {
    ts := [];
    while |ts| < 4
      invariant |ts| <= 4
      invariant forall j :: 0 <= j < |ts| ==> fresh(ts[j]) && ts[j].name == TableNames[j] && ts[j].IsEmpty()
    {
      var t := NewTable(TableNames[|ts|]);
      ts := ts + [t];
    }
  }

  /** Tables that carry the four table names in order are four different objects. */
  lemma NamedTablesDiffer(ts: seq<Table>, j: int)
    requires |ts| == 4 && 0 <= j < 4
    requires forall l :: 0 <= l < 4 ==> ts[l].name == TableNames[l]
    ensures forall l :: 0 <= l < 4 && l != j ==> ts[l] != ts[j]
  {
    TableNamesDistinct();
  }

  /** One step of `initialize`: reset the table, then look up its element;
      a missing element raises CHJError after the reset, and a present one
      is decoded and loaded. */
  method ResetAndRead(t: Table, x: XmlTables, j: int) returns (r: Result<()>)
    requires 0 <= j < 4 && t.name == TableNames[j]
    modifies t
    ensures t.Valid()
    ensures r.Ok? <==> Decoded(x, j).Ok?
    ensures r.Err? ==> r.error == Decoded(x, j).error
    ensures r.Err? && TableNames[j] !in x ==> t.IsEmpty()
    ensures r.Ok? ==> LoadedWith(t, Decoded(x, j).value) && HoldsKind(t, j)
  {
    t.Reset();
    if t.name !in x {
      return Err(CHJError(t.name + " missing from xml"));
    }
    var decoded := DecodeEntries(x[t.name], j);
    if decoded.Err? {
      return Err(decoded.error);
    }
    LoadEntries(t, decoded.value);
    LoadedHoldsKind(t, x[t.name], j);
    r := Ok(());
  }

  /** `read_xml` on a reset table with a present element. */
  method LoadEntries(t: Table, bs: seq<BcRecord>)
    requires t.Valid() && t.IsEmpty()
    modifies t
    ensures LoadedWith(t, bs)
  {
    var r := t.ReadXml(Some(bs), EntryKey, EntryIndex);
    EmptyUnion(LoadedObjects(bs, EntryIndex));
    EmptyUnion(LoadedKeys(bs, EntryKey, EntryIndex));
  }

  /** The pc lists of a pc-list table, as `get_pc_list(ix).get_pcs()`
      reads them: an index that is not a stored pc list fails like
      `retrieve`. */
  function PcListLookup(it: map<int, BcRecord>): (f: int -> Result<seq<int>>)
    ensures forall ix :: ix in it && it[ix].PcListEntry? ==> f(ix) == Ok(GetPcs(it[ix].rec))
    ensures forall ix :: ix !in it ==> f(ix).Err? && f(ix).error.IndexedTableError?
  {
    (ix: int) =>
      if ix in it && it[ix].PcListEntry? then Ok(GetPcs(it[ix].rec))
      else Err(IndexedTableError("pc-list-table"))
  }

  class BcDictionary {
    const pcListTable: Table
    const slotTable: Table
    const slotListTable: Table
    const opcodeTable: Table

    function Tables(): seq<Table>
    {
      [pcListTable, slotTable, slotListTable, opcodeTable]
    }

    /** Each table carries its own name, so the four tables are four
        different objects. */
    ghost predicate Distinct()
    {
      forall j :: 0 <= j < 4 ==> Tables()[j].name == TableNames[j]
    }

    ghost predicate Valid()
      reads Tables()
    {
      Distinct() && forall j :: 0 <= j < 4 ==> Tables()[j].Valid()
    }

    /** Every table holds only entries of its own kind. */
    ghost predicate Kinded()
      reads Tables()
    {
      forall j :: 0 <= j < 4 ==> HoldsKind(Tables()[j], j)
    }

    /** The empty dictionary; the library's constructor then calls `initialize`. */
    constructor ()
      ensures Valid() && Kinded()
      ensures forall j :: 0 <= j < 4 ==> Tables()[j].IsEmpty()
    {
      var ts := NewTables();
      pcListTable, slotTable, slotListTable, opcodeTable := ts[0], ts[1], ts[2], ts[3];
      new;
      assert Tables() == ts;
      forall j | 0 <= j < 4
        ensures Tables()[j].Valid()
      {
        Tables()[j].EmptyIsValid();
      }
    }

    /** `initialize`: nothing for a missing document; otherwise each table
        in turn is reset and filled from its element, stopping at the first
        table whose element is missing (CHJError) or does not decode. */
    method Initialize(xnode: Option<XmlTables>) returns (r: Result<()>)
      requires Valid()
      modifies Tables()
      ensures xnode.None? ==> r.Ok? && forall j :: 0 <= j < 4 ==> unchanged(Tables()[j])
      ensures r.Ok? && xnode.Some? ==> Valid() && Kinded() && forall j :: 0 <= j < 4 ==>
        Decoded(xnode.value, j).Ok? && LoadedWith(Tables()[j], Decoded(xnode.value, j).value)
      ensures r.Err? ==> xnode.Some? && exists j :: (0 <= j < 4 &&
        Decoded(xnode.value, j) == Err(r.error) &&
        forall l :: 0 <= l < j ==> Decoded(xnode.value, l).Ok?)
    {
      r := Ok(());
      if xnode.None? {
        return;
      }
      var x := xnode.value;
      var tables := Tables();
      assert forall l :: 0 <= l < 4 ==> tables[l].name == TableNames[l];
      var j := 0;
      while j < 4
        invariant 0 <= j <= 4
        invariant forall l :: 0 <= l < j ==> Decoded(x, l).Ok?
        invariant forall l :: 0 <= l < j ==> LoadedWith(tables[l], Decoded(x, l).value) && HoldsKind(tables[l], l)
        invariant r.Ok?
      {
        NamedTablesDiffer(tables, j);
        r := ResetAndRead(tables[j], x, j);
        if r.Err? {
          return;
        }
        j := j + 1;
      }
      LoadedIsValid(x);
    }

    /** Four loaded tables that each hold their own kind make a valid dictionary. */
    lemma LoadedIsValid(x: XmlTables)
      requires Distinct()
      requires forall l :: 0 <= l < 4 ==> Decoded(x, l).Ok? && LoadedWith(Tables()[l], Decoded(x, l).value) && HoldsKind(Tables()[l], l)
      ensures Valid() && Kinded()
    {
    }

    /** `get_opcode`: `retrieve` on the opcode table. */
    method GetOpcode(ix: int) returns (r: Result<Opcode>)
      requires Kinded()
      ensures r.Ok? <==> ix in opcodeTable.indextable
      ensures r.Ok? ==> opcodeTable.indextable[ix] == OpcodeEntry(r.value)
      ensures r.Err? ==> r.error.IndexedTableError?
    {
      assert HoldsKind(Tables()[OpcodePosition], OpcodePosition);
      var e := opcodeTable.Retrieve(ix);
      if e.Err? {
        return Err(e.error);
      }
      r := Ok(e.value.op);
    }

    /** `get_pc_list`: `retrieve` on the pc-list table. */
    method GetPcList(ix: int) returns (r: Result<Record>)
      requires Kinded()
      ensures r.Ok? <==> ix in pcListTable.indextable
      ensures r.Ok? ==> pcListTable.indextable[ix] == PcListEntry(r.value)
      ensures r.Err? ==> r.error.IndexedTableError?
    {
      assert HoldsKind(Tables()[PcListPosition], PcListPosition);
      var e := pcListTable.Retrieve(ix);
      if e.Err? {
        return Err(e.error);
      }
      r := Ok(e.value.rec);
    }

    /** `get_slot`: `retrieve` on the slot table. */
    method GetSlot(ix: int) returns (r: Result<Record>)
      requires Kinded()
      ensures r.Ok? <==> ix in slotTable.indextable
      ensures r.Ok? ==> slotTable.indextable[ix] == SlotEntry(r.value)
      ensures r.Err? ==> r.error.IndexedTableError?
    {
      assert HoldsKind(Tables()[SlotPosition], SlotPosition);
      var e := slotTable.Retrieve(ix);
      if e.Err? {
        return Err(e.error);
      }
      r := Ok(e.value.rec);
    }

    /** `get_slots`: `retrieve` on the slot-list table. */
    method GetSlots(ix: int) returns (r: Result<Record>)
      requires Kinded()
      ensures r.Ok? <==> ix in slotListTable.indextable
      ensures r.Ok? ==> slotListTable.indextable[ix] == SlotListEntry(r.value)
      ensures r.Err? ==> r.error.IndexedTableError?
    {
      assert HoldsKind(Tables()[SlotListPosition], SlotListPosition);
      var e := slotListTable.Retrieve(ix);
      if e.Err? {
        return Err(e.error);
      }
      r := Ok(e.value.rec);
    }

    /** The source pcs of a slot, with a multiple-source slot's pcs read
        from this dictionary's pc-list table. */
    function SlotSrcPcs(slot: Record): (r: Result<Option<seq<int>>>)
      reads pcListTable
      ensures (|slot.tags| > 0 && slot.tags[0] == "m" && |slot.args| > 0 && slot.args[0] in pcListTable.indextable &&
        pcListTable.indextable[slot.args[0]].PcListEntry?) ==>
        r == Ok(Some(GetPcs(pcListTable.indextable[slot.args[0]].rec)))
      ensures |slot.tags| > 0 && slot.tags[0] == "m" && |slot.args| > 0 && slot.args[0] !in pcListTable.indextable ==>
        r.Err? && r.error.IndexedTableError?
    {
      GetSrcPcs(slot, PcListLookup(pcListTable.indextable))
    }

    /** The destination pcs of a slot, read like the source pcs from the
        second tag and argument. */
    function SlotDstPcs(slot: Record): (r: Result<Option<seq<int>>>)
      reads pcListTable
      ensures (|slot.tags| > 1 && slot.tags[1] == "m" && |slot.args| > 1 && slot.args[1] in pcListTable.indextable &&
        pcListTable.indextable[slot.args[1]].PcListEntry?) ==>
        r == Ok(Some(GetPcs(pcListTable.indextable[slot.args[1]].rec)))
      ensures |slot.tags| > 1 && slot.tags[1] == "m" && |slot.args| > 1 && slot.args[1] !in pcListTable.indextable ==>
        r.Err? && r.error.IndexedTableError?
    {
      GetDstPcs(slot, PcListLookup(pcListTable.indextable))
    }
  }
}
