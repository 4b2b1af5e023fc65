/** The bytecode records of a class (chj/app/Bytecode.py): pc lists, slots,
    and one opcode class per JVM instruction family, each a record of tags
    and integer arguments. The opcode classes answer a fixed set of
    classification questions and print as a mnemonic padded to 20
    characters followed by their operands. */
module Bytecodes {
  import opened Wrappers
  import opened Strings
  import opened Records

  /** The opcode classes; `Instruction` is the generic class used for any
      tag without a class of its own. */
  datatype OpcodeClass =
    | Instruction | Load | Store | IInc
    | IntConst | LongConst | FloatConst | DoubleConst | ByteConst | ShortConst | StringConst | ClassConst
    | Add | Sub | Mult | Div | Rem | Neg
    | IfEq | IfNe | IfLt | IfGe | IfGt | IfLe | IfNull | IfNonNull
    | IfCmpEq | IfCmpNe | IfCmpLt | IfCmpGe | IfCmpGt | IfCmpLe | IfCmpAEq | IfCmpANe
    | Goto | Jsr | Ret | TableSwitch | LookupSwitch
    | New | NewArray | AMultiNewArray | CheckCast | InstanceOf
    | GetStatic | PutStatic | GetField | PutField | ArrayLoad | ArrayStore
    | InvokeVirtual | InvokeSpecial | InvokeStatic | InvokeInterface | InvokeDynamic | Return

  /** An opcode: its class and its record. */
  datatype Opcode = Opcode(cls: OpcodeClass, rec: Record)

  // ------------------------------------------------------ classification

  predicate IsInvoke(c: OpcodeClass)
  {
    c.InvokeVirtual? || c.InvokeSpecial? || c.InvokeStatic? || c.InvokeInterface? || c.InvokeDynamic?
  }

  predicate IsConditionalJump(c: OpcodeClass)
  {
    c.IfEq? || c.IfNe? || c.IfLt? || c.IfGe? || c.IfGt? || c.IfLe? || c.IfNull? || c.IfNonNull? ||
    c.IfCmpEq? || c.IfCmpNe? || c.IfCmpLt? || c.IfCmpGe? || c.IfCmpGt? || c.IfCmpLe? ||
    c.IfCmpAEq? || c.IfCmpANe?
  }

  predicate IsArithmetic(c: OpcodeClass)
  {
    c.Add? || c.Sub? || c.Mult? || c.Div? || c.Rem? || c.Neg?
  }

  predicate IsLoadConstant(c: OpcodeClass)
  {
    c.IntConst? || c.LongConst? || c.FloatConst? || c.DoubleConst? || c.ByteConst? ||
    c.ShortConst? || c.StringConst? || c.ClassConst?
  }

  /** The nine questions every opcode answers; the base answer is no, and
      each class below overrides only the ones it says yes to. */
  predicate IsCall(c: OpcodeClass) { IsInvoke(c) }

  predicate IsLoadString(c: OpcodeClass) { c.StringConst? }

  predicate IsPutStatic(c: OpcodeClass) { c.PutStatic? }

  predicate IsPutField(c: OpcodeClass) { c.PutField? }

  predicate IsGetStatic(c: OpcodeClass) { c.GetStatic? }

  predicate IsGetField(c: OpcodeClass) { c.GetField? }

  predicate IsObjectCreated(c: OpcodeClass) { c.New? || c.NewArray? || c.AMultiNewArray? }

  predicate IsArrayCreated(c: OpcodeClass) { c.NewArray? || c.AMultiNewArray? }

  predicate IsMultiArrayCreated(c: OpcodeClass) { c.AMultiNewArray? }

  /** Whether the class says yes to any of the nine questions. */
  predicate AnsweredYes(c: OpcodeClass)
  {
    IsCall(c) || IsLoadString(c) || IsPutStatic(c) || IsPutField(c) || IsGetStatic(c) ||
    IsGetField(c) || IsObjectCreated(c) || IsArrayCreated(c) || IsMultiArrayCreated(c)
  }

  /** Creation is nested: a multi-array is an array, an array an object,
      and `new` creates an object only. */
  lemma CreationNested(c: OpcodeClass)
    ensures IsMultiArrayCreated(c) ==> IsArrayCreated(c)
    ensures IsArrayCreated(c) ==> IsObjectCreated(c)
    ensures IsObjectCreated(c) && !IsArrayCreated(c) <==> c == New
  {
  }

  /** The four field accesses are pairwise exclusive. */
  lemma FieldAccessExclusive(c: OpcodeClass)
    ensures IsGetStatic(c) ==> !IsPutStatic(c) && !IsGetField(c) && !IsPutField(c)
    ensures IsPutStatic(c) ==> !IsGetField(c) && !IsPutField(c)
    ensures IsGetField(c) ==> !IsPutField(c)
  {
  }

  /** Jumps, arithmetic, loads, stores and increments answer no to all. */
  lemma PlainInstructions(c: OpcodeClass)
    requires IsConditionalJump(c) || IsArithmetic(c) || c.Load? || c.Store? || c.IInc? || c.Goto?
    ensures !AnsweredYes(c)
  {
  }

  // ------------------------------------------------------------- printing

  /** `opcstr`: the mnemonic left-justified to width 20. */
  function OpcStr(s: string): (r: string)
    ensures |r| == if |s| < 20 then 20 else |s|
    ensures r[..|s|] == s && forall k :: |s| <= k < |r| ==> r[k] == ' '
  {
    LJust(s, 20)
  }

  /** The names the printer looks up in the type and data dictionaries,
      which are not part of this model. */
  datatype LookupTable = ClassNames | ObjectTypes | ValueTypes | FieldSignatures | MethodSignatures | StringConstants

  /** How many tags and how many arguments the printer of a class reads. */
  function TagsRead(c: OpcodeClass): nat
  {
    if c.Instruction? || IsConditionalJump(c) then 1
    else if c.Load? || c.Store? || c.LongConst? || c.FloatConst? || c.DoubleConst? || IsArithmetic(c) ||
            c.ArrayLoad? || c.ArrayStore? || c.Return? then 2
    else 0
  }

  function ArgsRead(c: OpcodeClass): nat
  {
    if c.IInc? || c.AMultiNewArray? || c.GetStatic? || c.PutStatic? || c.GetField? || c.PutField? || IsInvoke(c) then 2
    else if c.Load? || c.Store? || c.IntConst? || c.ByteConst? || c.ShortConst? || c.StringConst? || c.ClassConst? ||
            IsConditionalJump(c) || c.Goto? || c.Jsr? || c.Ret? || c.New? || c.NewArray? ||
            c.CheckCast? || c.InstanceOf? then 1
    else 0
  }

  predicate Readable(o: Opcode)
  {
    |o.rec.tags| >= TagsRead(o.cls) && |o.rec.args| >= ArgsRead(o.cls)
  }

  /** The mnemonic of an opcode: the opcode tag for the generic
      instruction and the conditional jumps, the variable for loads and
      stores, a fixed word otherwise. */
  function Mnemonic(o: Opcode): (m: string)
    requires Readable(o)
  {
    var r := o.rec;
    match o.cls
    case Load => "load_" + IntToString(r.args[0])
    case Store => "store_" + IntToString(r.args[0])
    case IInc => "iinc"
    case IntConst => "iconst"
    case LongConst => "lconst"
    case FloatConst => "fconst"
    case DoubleConst => "dconst"
    case ByteConst => "bconst"
    case ShortConst => "sconst"
    case StringConst => "ldc"
    case ClassConst => "ldc"
    case Add => "add"
    case Sub => "sub"
    case Mult => "mult"
    case Div => "div"
    case Rem => "rem"
    case Neg => "neg"
    case Goto => "goto"
    case Jsr => "jsr"
    case Ret => "ret"
    case TableSwitch => "switch"
    case LookupSwitch => "lookup"
    case New => "new"
    case NewArray => "newarray"
    case AMultiNewArray => "multinewarray"
    case CheckCast => "checkcast"
    case InstanceOf => "instanceof"
    case GetStatic => "getstatic"
    case PutStatic => "putstatic"
    case GetField => "getfield"
    case PutField => "putfield"
    case ArrayLoad => "arrayload"
    case ArrayStore => "arraystore"
    case InvokeVirtual => "invokevirtual"
    case InvokeSpecial => "invokespecial"
    case InvokeStatic => "invokestatic"
    case InvokeInterface => "invokeinterface"
    case InvokeDynamic => "invokedynamic"
    case Return => "return"
    case _ => r.tags[0]
  }

  /** What follows the padded mnemonic. A long constant's text has been
      read as an integer (`long`). */
  function Operands(o: Opcode, long: int, resolve: (LookupTable, int) -> string): string
    requires Readable(o)
  {
    var r := o.rec;
    match o.cls
    case Instruction => ""
    case Load => r.tags[1]
    case Store => r.tags[1]
    case IInc => IntToString(r.args[1]) + ", " + IntToString(r.args[0])
    case IntConst => IntToString(r.args[0])
    case LongConst => IntToString(long)
    case FloatConst => r.tags[1]
    case DoubleConst => r.tags[1]
    case ByteConst => IntToString(r.args[0])
    case ShortConst => IntToString(r.args[0])
    case StringConst => resolve(StringConstants, r.args[0])
    case ClassConst => resolve(ObjectTypes, r.args[0])
    case Goto => IntToString(r.args[0])
    case Jsr => IntToString(r.args[0])
    case Ret => IntToString(r.args[0])
    case TableSwitch => ""
    case LookupSwitch => ""
    case New => resolve(ClassNames, r.args[0])
    case NewArray => resolve(ValueTypes, r.args[0])
    case AMultiNewArray => resolve(ObjectTypes, r.args[0]) + ", " + IntToString(r.args[1])
    case CheckCast => resolve(ObjectTypes, r.args[0])
    case InstanceOf => resolve(ObjectTypes, r.args[0])
    case GetStatic => resolve(ClassNames, r.args[0]) + "." + resolve(FieldSignatures, r.args[1])
    case PutStatic => resolve(ClassNames, r.args[0]) + "." + resolve(FieldSignatures, r.args[1])
    case GetField => resolve(ClassNames, r.args[0]) + "." + resolve(FieldSignatures, r.args[1])
    case PutField => resolve(ClassNames, r.args[0]) + "." + resolve(FieldSignatures, r.args[1])
    case InvokeVirtual => resolve(ObjectTypes, r.args[0]) + "." + resolve(MethodSignatures, r.args[1])
    case InvokeSpecial => resolve(ClassNames, r.args[0]) + "." + resolve(MethodSignatures, r.args[1])
    case InvokeStatic => resolve(ClassNames, r.args[0]) + "." + resolve(MethodSignatures, r.args[1])
    case InvokeInterface => resolve(ClassNames, r.args[0]) + "." + resolve(MethodSignatures, r.args[1])
    case InvokeDynamic => resolve(MethodSignatures, r.args[1])
    case _ =>
      if IsConditionalJump(o.cls) then IntToString(r.args[0]) else r.tags[1]
  }

  /** `__str__` of an opcode: IndexError when a tag or argument it prints is
      missing, ValueError when a long constant's text is not an integer,
      otherwise the padded mnemonic followed by the operands. `ret` prints
      its variable index (see RetToStringAsWritten). */
  function ToString(o: Opcode, resolve: (LookupTable, int) -> string): (r: Result<string>)
    ensures r.Ok? <==> Readable(o) && (o.cls.LongConst? ==> ParseInt(o.rec.tags[1]).Some?)
    ensures r.Err? && !Readable(o) ==> r.error.IndexError?
    ensures r.Err? && Readable(o) ==> r.error.ValueError?
    ensures r.Ok? ==> var m := Mnemonic(o);
      |r.value| >= 20 && |r.value| >= |m| && r.value[..|m|] == m &&
      (|m| < 20 ==> r.value[20..] == Operands(o, if o.cls.LongConst? then ParseInt(o.rec.tags[1]).value else 0, resolve))
  {
    if !Readable(o) then Err(IndexError("list index out of range"))
    else
      var long := if o.cls.LongConst? then ParseInt(o.rec.tags[1]) else Some(0);
      if long.None? then Err(ValueError("invalid literal for int()"))
      else
        var m := Mnemonic(o);
        var s := OpcStr(m) + Operands(o, long.value, resolve);
        assert s[..|m|] == OpcStr(m)[..|m|];
        Ok(s)
  }

  /** A long constant prints the integer its text denotes: printing the
      record of `lconst v` shows v in decimal. */
  lemma LongConstPrintsValue(index: int, v: int, resolve: (LookupTable, int) -> string)
    ensures ToString(Opcode(LongConst, Record(index, ["lcst", IntToString(v)], [])), resolve) ==
      Ok(OpcStr("lconst") + IntToString(v))
  {
    var o := Opcode(LongConst, Record(index, ["lcst", IntToString(v)], []));
    assert Readable(o) && Mnemonic(o) == "lconst";
    ParseIntToString(v);
    assert Operands(o, v, resolve) == IntToString(v);
  }

  /** `iinc` reads its increment from args[0] and its variable from
      args[1], and prints the variable first. */
  function GetIncrement(r: Record): (inc: Result<int>)
    ensures inc.Ok? <==> |r.args| >= 1
    ensures inc.Ok? ==> inc.value == r.args[0]
  {
    if |r.args| >= 1 then Ok(r.args[0]) else Err(IndexError("list index out of range"))
  }

  function GetIIncVarIndex(r: Record): (v: Result<int>)
    ensures v.Ok? <==> |r.args| >= 2
    ensures v.Ok? ==> v.value == r.args[1]
  {
    if |r.args| >= 2 then Ok(r.args[1]) else Err(IndexError("list index out of range"))
  }

  /** Two integers printed as "a, b" can be read back. */
  lemma PairReadsBack(a: int, b: int)
    ensures var t, v := IntToString(a) + ", " + IntToString(b), |IntToString(a)|;
      ParseInt(t[..v]) == Some(a) && t[v..v + 2] == ", " && ParseInt(t[v + 2..]) == Some(b)
  {
    var t := IntToString(a) + ", " + IntToString(b);
    assert t[..|IntToString(a)|] == IntToString(a);
    assert t[|IntToString(a)| + 2..] == IntToString(b);
    ParseIntToString(a);
    ParseIntToString(b);
  }

  /** The printed `iinc` reads back: from column 20 on it is the variable
      index, then ", ", then the increment. */
  lemma IIncReadsBack(r: Record, resolve: (LookupTable, int) -> string)
    requires |r.args| >= 2
    ensures ToString(Opcode(IInc, r), resolve).Ok?
    ensures var t, v := ToString(Opcode(IInc, r), resolve).value[20..], |IntToString(GetIIncVarIndex(r).value)|;
      ParseInt(t[..v]) == Some(GetIIncVarIndex(r).value) && t[v..v + 2] == ", " &&
      ParseInt(t[v + 2..]) == Some(GetIncrement(r).value)
  {
    var o := Opcode(IInc, r);
    assert Readable(o) && Mnemonic(o) == "iinc";
    assert Operands(o, 0, resolve) == IntToString(r.args[1]) + ", " + IntToString(r.args[0]);
    PairReadsBack(r.args[1], r.args[0]);
  }

  /** `BcRet.__str__` as written calls a `get_target_pc` that the class does
      not define, so printing a `ret` raises for every record. */
  function RetToStringAsWritten(r: Record): (s: Result<string>)
    ensures s.Err?
  {
    Err(Failure("'BcRet' object has no attribute 'get_target_pc'"))
  }

  /** The evidently intended `ret` line prints the variable index that
      `get_var_index` reads, and succeeds whenever that argument exists. */
  lemma RetToStringFixed(r: Record, resolve: (LookupTable, int) -> string)
    requires |r.args| >= 1
    ensures RetToStringAsWritten(r).Err?
    ensures ToString(Opcode(Ret, r), resolve) == Ok(OpcStr("ret") + IntToString(r.args[0]))
    ensures ParseInt(ToString(Opcode(Ret, r), resolve).value[20..]) == Some(r.args[0])
  {
    var o := Opcode(Ret, r);
    assert Readable(o) && Mnemonic(o) == "ret";
    assert Operands(o, 0, resolve) == IntToString(r.args[0]);
    var s := OpcStr("ret") + IntToString(r.args[0]);
    assert s[20..] == IntToString(r.args[0]);
    ParseIntToString(r.args[0]);
  }

  // ------------------------------------------------------------- pc lists

  /** `BcPcList.get_pcs`: the arguments are the pcs. */
  function GetPcs(r: Record): (pcs: seq<int>)
    ensures |pcs| == |r.args| && forall k :: 0 <= k < |pcs| ==> pcs[k] == r.args[k]
  {
    r.args
  }

  /** `BcPcList.__str__`: 'pcs:' and the comma-joined pcs. */
  function PcListToString(r: Record): (s: string)
    ensures |s| >= 4 && s[..4] == "pcs:"
  {
    "pcs:" + Join(",", IntStrings(GetPcs(r)))
  }

  /** The printed pc list reads back: splitting the text after 'pcs:' at the
      commas and parsing each piece gives the pcs. */
  lemma PcListReadsBack(r: Record)
    requires |r.args| > 0
    ensures ParseInts(Split(PcListToString(r)[4..], ',')) == Some(GetPcs(r))
  {
    var xs := IntStrings(r.args);
    assert PcListToString(r)[4..] == Join([','], xs);
    IntStringsHaveNoComma(r.args);
    SplitJoin(xs, ',');
    ParseIntStrings(r.args);
  }

  // ---------------------------------------------------------------- slots

  /** The pcs a slot's value comes from (position 0) or flows to (position
      1): tag 'n' gives none, 's' the single pc in the argument at that
      position, 'm' the pcs of the pc list whose index is that argument
      (`pcList` is the dictionary's pc-list lookup); any other tag gives
      None, as the source falls off the end of the function. */
  function SlotPcs(r: Record, position: nat, pcList: int -> Result<seq<int>>): (p: Result<Option<seq<int>>>)
    requires position < 2
    ensures |r.tags| <= position ==> p.Err? && p.error.IndexError?
    ensures |r.tags| > position && r.tags[position] == "n" ==> p == Ok(Some([]))
    ensures |r.tags| > position && r.tags[position] == "s" ==>
      if |r.args| > position then p == Ok(Some([r.args[position]])) else p.Err?
    ensures |r.tags| > position && r.tags[position] == "m" && |r.args| > position ==>
      match pcList(r.args[position])
      case Ok(pcs) => p == Ok(Some(pcs))
      case Err(e) => p == Err(e)
    ensures |r.tags| > position && r.tags[position] !in {"n", "s", "m"} ==> p == Ok(None)
  {
    if |r.tags| <= position then Err(IndexError("list index out of range"))
    else
      var tag := r.tags[position];
      if tag == "n" then Ok(Some([]))
      else if tag == "s" || tag == "m" then
        if |r.args| <= position then Err(IndexError("list index out of range"))
        else if tag == "s" then Ok(Some([r.args[position]]))
        else match pcList(r.args[position])
          case Ok(pcs) => Ok(Some(pcs))
          case Err(e) => Err(e)
      else Ok(None)
  }

  /** `get_src_pcs`. */
  function GetSrcPcs(r: Record, pcList: int -> Result<seq<int>>): Result<Option<seq<int>>>
  {
    SlotPcs(r, 0, pcList)
  }

  /** `get_dst_pcs`. */
  function GetDstPcs(r: Record, pcList: int -> Result<seq<int>>): Result<Option<seq<int>>>
  {
    SlotPcs(r, 1, pcList)
  }

  /** Source and destination decode alike, each from its own tag and
      argument: swapping both gives the other's answer. */
  lemma SrcDstSymmetric(index: int, t0: string, t1: string, a0: int, a1: int, pcList: int -> Result<seq<int>>)
    ensures GetDstPcs(Record(index, [t0, t1], [a0, a1]), pcList) ==
      GetSrcPcs(Record(index, [t1, t0], [a1, a0]), pcList)
  {
  }
}
