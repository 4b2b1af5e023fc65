/** The analysis results of one method (chj/app/JavaMethod.py): its
    instructions by pc, its loops by first pc, its variable table, control
    flow graph and tainted variables, and the lookups the reports make on
    them. */
module JavaMethods {
  import opened Wrappers
  import opened Strings
  import opened Dicts
  import opened Bytecodes
  import opened Loops
  import opened Cfgs
  import opened IndexedTables
  import Vartables
  import ExceptionTables

  /** An instruction (chj/app/Instruction.py is not part of this model
      beyond these fields): its pc, its opcode, the method indices of its
      call targets ([] without targets) and, for a string constant load,
      the text of the constant. */
  datatype Instruction = Instruction(pc: int, opc: Opcode, cmsixTargets: seq<int>, stringConstant: string)

  /** A variable taint node of the taint dictionary: the method it belongs
      to and the pc it is at. */
  datatype TaintNode = TaintNode(index: int, caller: int, pc: int)

  /** What the bytecode results file of a method holds; each part is None
      when its element is missing. */
  datatype BytecodeFile = BytecodeFile(
    instructions: Option<seq<Instruction>>,
    variableTable: Option<seq<Vartables.Slot>>,
    cfgBlocks: Option<seq<BBlock>>,
    handlers: Option<seq<ExceptionTables.Handler>>)

  /** The keys of a dictionary with integer keys. */
  function KeySet<V>(d: Dict<int, V>): (s: set<int>)
    ensures forall k :: k in s <==> exists i :: 0 <= i < |d| && d[i].0 == k
  {
    set i | 0 <= i < |d| :: d[i].0
  }

  /** The elements of a set of integers in ascending order. */
  function SortedElements(s: set<int>): (r: seq<int>)
    ensures forall x :: x in r <==> x in s
    ensures StrictlyIncreasing(r)
    decreases s
  {
    if s == {} then []
    else
      MinExists(s);
      var m :| m in s && forall y :: y in s ==> m <= y;
      var rest := SortedElements(s - {m});
      assert forall y :: y in rest ==> m < y;
      [m] + rest
  }

  /** The position of the first occurrence of x, |s| when there is none
      (`list.index`, which raises for a missing element). */
  function PositionOf(s: seq<int>, x: int): (k: nat)
    ensures k <= |s|
    ensures k < |s| ==> s[k] == x
    ensures forall j :: 0 <= j < k ==> s[j] != x
  {
    if s == [] then 0 else if s[0] == x then 0 else 1 + PositionOf(s[1..], x)
  }

  /** In an ascending sequence, the element after position k is the least
      element above s[k]. */
  lemma NextInIncreasing(s: seq<int>, k: int)
    requires StrictlyIncreasing(s) && 0 <= k < |s| - 1
    ensures s[k] < s[k + 1]
    ensures forall q :: q in s ==> !(s[k] < q < s[k + 1])
  {
    forall q | q in s
      ensures !(s[k] < q < s[k + 1])
    {
      var m :| 0 <= m < |s| && s[m] == q;
      if m <= k {
        assert q <= s[k];
      } else {
        assert s[k + 1] <= q;
      }
    }
  }

  /** The last element of an ascending sequence is its largest. */
  lemma LastInIncreasing(s: seq<int>)
    requires StrictlyIncreasing(s) && |s| > 0
    ensures forall q :: q in s ==> q <= s[|s| - 1]
  {
  }

  /** The instructions paired with their pcs, in file order. */
  function PcEntries(ins: seq<Instruction>): (r: Dict<int, Instruction>)
    ensures |r| == |ins|
    ensures forall i :: 0 <= i < |ins| ==> r[i] == (ins[i].pc, ins[i])
  {
    if ins == [] then [] else PcEntries(ins[..|ins| - 1]) + [(ins[|ins| - 1].pc, ins[|ins| - 1])]
  }

  /** The loops paired with their first pcs, in file order. */
  function LoopEntries(ls: seq<Loop>): (r: Dict<int, Loop>)
    ensures |r| == |ls|
    ensures forall i :: 0 <= i < |ls| ==> r[i] == (ls[i].firstPc, ls[i])
  {
    if ls == [] then [] else LoopEntries(ls[..|ls| - 1]) + [(ls[|ls| - 1].firstPc, ls[|ls| - 1])]
  }

  /** The blocks paired with their first pcs, in file order. */
  function BlockEntries(bs: seq<BBlock>): (r: Dict<int, BBlock>)
    ensures |r| == |bs|
    ensures forall i :: 0 <= i < |bs| ==> r[i] == (bs[i].firstpc, bs[i])
  {
    if bs == [] then [] else BlockEntries(bs[..|bs| - 1]) + [(bs[|bs| - 1].firstpc, bs[|bs| - 1])]
  }

  /** Builds a dictionary by assigning the entries in order. */
  method AssignAll<V(==)>(entries: seq<(int, V)>) returns (d: Dict<int, V>)
    ensures d == FromEntries(entries)
  {
    d := [];
    var i := 0;
    while i < |entries|
      invariant 0 <= i <= |entries|
      invariant d == FromEntries(entries[..i])
    {
      assert entries[..i + 1][..i] == entries[..i];
      d := Put(d, entries[i].0, entries[i].1);
      i := i + 1;
    }
    assert entries[..i] == entries;
  }

  /** Whether a loop's pc range holds pc. */
  predicate Covers(l: Loop, pc: int)
  {
    l.firstPc <= pc <= l.lastPc
  }

  /** The number of loops, in dictionary order, whose range holds pc. */
  function CoveringCount(ls: Dict<int, Loop>, pc: int): (n: nat)
    ensures n <= |ls|
  {
    if ls == [] then 0
    else CoveringCount(ls[..|ls| - 1], pc) + (if Covers(ls[|ls| - 1].1, pc) then 1 else 0)
  }

  /** No loop holds pc exactly when the count is 0, and every loop holds it
      exactly when the count is the number of loops. */
  lemma {:induction false} CoveringCountBounds(ls: Dict<int, Loop>, pc: int)
    ensures CoveringCount(ls, pc) == 0 <==> forall i :: 0 <= i < |ls| ==> !Covers(ls[i].1, pc)
    ensures CoveringCount(ls, pc) == |ls| <==> forall i :: 0 <= i < |ls| ==> Covers(ls[i].1, pc)
  {
    if ls != [] {
      var init := ls[..|ls| - 1];
      CoveringCountBounds(init, pc);
      assert forall i :: 0 <= i < |init| ==> init[i] == ls[i];
    }
  }

  /** The (pc, text) pairs of the string constant loads, in dictionary
      order, whose text contains the substring when one is given. */
  function LoadedStrings(ins: Dict<int, Instruction>, substring: Option<string>): (r: seq<(int, string)>)
    ensures |r| <= |ins|
  {
    if ins == [] then []
    else
      var pc, i := ins[|ins| - 1].0, ins[|ins| - 1].1;
      LoadedStrings(ins[..|ins| - 1], substring) +
        (if IsLoadString(i.opc.cls) && (substring.None? || Contains(i.stringConstant, substring.value))
         then [(pc, i.stringConstant)] else [])
  }

  /** The pairs whose text contains the substring. */
  function Containing(ps: seq<(int, string)>, sub: string): (r: seq<(int, string)>)
    ensures forall p :: p in r <==> p in ps && Contains(p.1, sub)
  {
    if ps == [] then []
    else
      var init := Containing(ps[..|ps| - 1], sub);
      var p := ps[|ps| - 1];
      assert forall q :: q in ps <==> q in ps[..|ps| - 1] || q == p;
      init + (if Contains(p.1, sub) then [p] else [])
  }

  /** Asking with a substring keeps exactly the strings of the plain
      listing that contain it, in the same order. */
  lemma {:induction false} LoadedStringsFiltered(ins: Dict<int, Instruction>, sub: string)
    ensures LoadedStrings(ins, Some(sub)) == Containing(LoadedStrings(ins, None), sub)
  {
    if ins != [] {
      var init := ins[..|ins| - 1];
      LoadedStringsFiltered(init, sub);
      var i := ins[|ins| - 1].1;
      var all := LoadedStrings(init, None);
      var p := (ins[|ins| - 1].0, i.stringConstant);
      var added := if IsLoadString(i.opc.cls) then [p] else [];
      assert LoadedStrings(ins, None) == all + added;
      if IsLoadString(i.opc.cls) {
        assert (all + [p])[..|all|] == all;
      } else {
        assert all + added == all;
      }
    }
  }

  /** Every listed string is loaded by a string-constant instruction. */
  lemma {:induction false} LoadedStringsAreLoads(ins: Dict<int, Instruction>, substring: Option<string>, p: (int, string))
    requires p in LoadedStrings(ins, substring)
    ensures exists k :: 0 <= k < |ins| && ins[k].0 == p.0 && IsLoadString(ins[k].1.opc.cls) && ins[k].1.stringConstant == p.1
  {
    var init := ins[..|ins| - 1];
    if p in LoadedStrings(init, substring) {
      LoadedStringsAreLoads(init, substring, p);
      var k :| 0 <= k < |init| && init[k].0 == p.0 && IsLoadString(init[k].1.opc.cls) && init[k].1.stringConstant == p.1;
      assert ins[k] == init[k];
    }
  }

  /** The call targets of the calls, in dictionary order. */
  function CalleeCmsixs(ins: Dict<int, Instruction>): (r: seq<int>)
  {
    if ins == [] then []
    else
      var i := ins[|ins| - 1].1;
      CalleeCmsixs(ins[..|ins| - 1]) + (if IsCall(i.opc.cls) then i.cmsixTargets else [])
  }

  /** Every callee comes from a call instruction. */
  lemma {:induction false} CalleesFromCalls(ins: Dict<int, Instruction>, c: int)
    requires c in CalleeCmsixs(ins)
    ensures exists k :: 0 <= k < |ins| && IsCall(ins[k].1.opc.cls) && c in ins[k].1.cmsixTargets
  {
    var init := ins[..|ins| - 1];
    if c in CalleeCmsixs(init) {
      CalleesFromCalls(init, c);
      var k :| 0 <= k < |init| && IsCall(init[k].1.opc.cls) && c in init[k].1.cmsixTargets;
      assert ins[k] == init[k];
    }
  }

  /** The branch conditions of the blocks, in dictionary order. */
  function BlockConditions(bs: Dict<int, BBlock>): (r: seq<string>)
    ensures |r| <= |bs|
  {
    if bs == [] then []
    else
      var b := bs[|bs| - 1].1;
      BlockConditions(bs[..|bs| - 1]) + (if HasConditions(b) then [GetTcond(b).value] else [])
  }

  /** The tainted variable nodes of a method, grouped by pc in taint
      dictionary order. */
  function TaintedByPc(ns: seq<TaintNode>, cmsix: int): (m: map<int, seq<TaintNode>>)
    ensures forall pc :: pc in m ==> |m[pc]| > 0
  {
    if ns == [] then map[]
    else
      var m := TaintedByPc(ns[..|ns| - 1], cmsix);
      var n := ns[|ns| - 1];
      if n.caller != cmsix then m
      else m[n.pc := (if n.pc in m then m[n.pc] else []) + [n]]
  }

  /** The nodes filed under a pc are exactly the method's nodes at that pc. */
  lemma {:induction false} TaintedByPcMembers(ns: seq<TaintNode>, cmsix: int, pc: int)
    ensures forall n :: n in ns && n.caller == cmsix && n.pc == pc <==>
      pc in TaintedByPc(ns, cmsix) && n in TaintedByPc(ns, cmsix)[pc]
  {
    if ns != [] {
      var init := ns[..|ns| - 1];
      TaintedByPcMembers(init, cmsix, pc);
      assert forall n :: n in ns <==> n in init || n == ns[|ns| - 1];
    }
  }

  /** The elements `_read_method_bytecode` reads from the bytecode file; an
      element that is absent keeps what was there before. */
  method ReadElements(file: BytecodeFile, vt0: Option<Vartables.Table>, cfg0: Option<Dict<int, BBlock>>,
                      handlers0: Option<seq<ExceptionTables.Handler>>)
    returns (ins: Dict<int, Instruction>, vt: Option<Vartables.Table>, blocks: Option<Dict<int, BBlock>>,
             handlers: Option<seq<ExceptionTables.Handler>>)
    ensures ins == FromEntries(PcEntries(file.instructions.GetOr([])))
    ensures vt == if file.variableTable.Some? then Some(FromEntries(Vartables.Keyed(file.variableTable.value))) else vt0
    ensures blocks == if file.cfgBlocks.Some? then Some(FromEntries(BlockEntries(file.cfgBlocks.value))) else cfg0
    ensures handlers == if file.handlers.Some? && |file.handlers.value| > 0 then file.handlers else handlers0
  {
    ins := AssignAll(PcEntries(file.instructions.GetOr([])));
    vt, blocks, handlers := vt0, cfg0, handlers0;
    if file.variableTable.Some? {
      var t := Vartables.BuildTable(file.variableTable.value);
      vt := Some(t);
    }
    if file.cfgBlocks.Some? {
      var bs := AssignAll(BlockEntries(file.cfgBlocks.value));
      blocks := Some(bs);
    }
    if file.handlers.Some? && |file.handlers.value| > 0 {
      handlers := file.handlers;
    }
  }

  class JavaMethod {
    const cmsix: int
    const isAbstract: bool
    var instructions: Dict<int, Instruction>
    var loops: Dict<int, Loop>
    var variableTable: Option<Vartables.Table>
    var cfg: Option<Dict<int, BBlock>>
    var exceptionTable: Option<seq<ExceptionTables.Handler>>
    var taintedVariables: map<int, seq<TaintNode>>

    /** `__init__`: the loops of the class file by first pc, the tainted
        variables of this method when there is a taint dictionary, and the
        bytecode results. */
    constructor (cmsix: int, isAbstract: bool, loopList: seq<Loop>, taintNodes: Option<seq<TaintNode>>, file: BytecodeFile)
      ensures this.cmsix == cmsix && this.isAbstract == isAbstract
      ensures loops == FromEntries(LoopEntries(loopList))
      ensures taintedVariables == if taintNodes.None? then map[] else TaintedByPc(taintNodes.value, cmsix)
      ensures isAbstract ==> instructions == [] && variableTable.None? && cfg.None? && exceptionTable.None?
      ensures !isAbstract ==> instructions == FromEntries(PcEntries(file.instructions.GetOr([])))
    {
      this.cmsix := cmsix;
      this.isAbstract := isAbstract;
      instructions := [];
      variableTable := None;
      cfg := None;
      exceptionTable := None;
      loops := [];
      taintedVariables := map[];
      new;
      ReadMethodBytecode(file);
      var ls := AssignAll(LoopEntries(loopList));
      loops := ls;
      if taintNodes.Some? {
        taintedVariables := TaintNodesOf(taintNodes.value, cmsix);
      }
    }

    /** `_read_method_bytecode`: nothing for an abstract method or when the
        instructions are already there; otherwise the instructions by pc,
        and the variable table, cfg and exception table of the elements
        that are present (an exception table only when it has handlers). */
    method ReadMethodBytecode(file: BytecodeFile)
      modifies this
      ensures isAbstract || |old(instructions)| > 0 ==> unchanged(this)
      ensures !isAbstract && |old(instructions)| == 0 ==>
        instructions == FromEntries(PcEntries(file.instructions.GetOr([])))
      ensures !isAbstract && |old(instructions)| == 0 ==>
        variableTable == if file.variableTable.Some? then Some(FromEntries(Vartables.Keyed(file.variableTable.value))) else old(variableTable)
      ensures !isAbstract && |old(instructions)| == 0 ==>
        cfg == if file.cfgBlocks.Some? then Some(FromEntries(BlockEntries(file.cfgBlocks.value))) else old(cfg)
      ensures !isAbstract && |old(instructions)| == 0 ==>
        exceptionTable == if file.handlers.Some? && |file.handlers.value| > 0 then file.handlers else old(exceptionTable)
      ensures loops == old(loops) && taintedVariables == old(taintedVariables)
    {
      if isAbstract || |instructions| > 0 {
        return;
      }
      var ins, vt, blocks, handlers := ReadElements(file, variableTable, cfg, exceptionTable);
      instructions, variableTable, cfg, exceptionTable := ins, vt, blocks, handlers;
    }

    /** The pcs of the instructions. */
    function PcSet(): set<int>
      reads this
    {
      KeySet(instructions)
    }

    /** `get_pcs`: the instruction pcs in ascending order. */
    function GetPcs(): (pcs: seq<int>)
      reads this
      ensures StrictlyIncreasing(pcs)
      ensures forall pc :: pc in pcs <==> exists i :: 0 <= i < |instructions| && instructions[i].0 == pc
    {
      SortedElements(PcSet())
    }

    /** `get_next_pc`: the next larger instruction pc, None after the last
        one; a pc that is not an instruction's raises ValueError. */
    function GetNextPc(pc: int): (r: Result<Option<int>>)
      reads this
      ensures r.Err? <==> pc !in PcSet()
      ensures r.Err? ==> r.error.ValueError?
      ensures r.Ok? && r.value.Some? ==>
        r.value.value in PcSet() && pc < r.value.value && forall q :: q in PcSet() ==> !(pc < q < r.value.value)
      ensures r.Ok? && r.value.None? ==> forall q :: q in PcSet() ==> q <= pc
    {
      var pcs := GetPcs();
      var k := PositionOf(pcs, pc);
      if k == |pcs| then Err(ValueError(IntToString(pc) + " is not in list"))
      else if k < |pcs| - 1 then
        NextInIncreasing(pcs, k);
        Ok(Some(pcs[k + 1]))
      else
        LastInIncreasing(pcs);
        Ok(None)
    }

    /** `get_loop_depth`: the number of loops whose pc range holds pc. */
    method GetLoopDepth(pc: int) returns (depth: nat)
      ensures depth == CoveringCount(loops, pc)
    {
      depth := 0;
      var i := 0;
      while i < |loops|
        invariant 0 <= i <= |loops|
        invariant depth == CoveringCount(loops[..i], pc)
      {
        assert loops[..i + 1][..i] == loops[..i];
        if loops[i].1.firstPc <= pc && pc <= loops[i].1.lastPc {
          depth := depth + 1;
        }
        i := i + 1;
      }
      assert loops[..i] == loops;
    }

    /** `is_loop_head`: whether pc is the first pc of a loop. */
    predicate IsLoopHead(pc: int)
      reads this
    {
      Lookup(loops, pc).Some?
    }

    /** `get_loop`: the loop that starts at pc, None if there is none. */
    function GetLoop(pc: int): (r: Option<Loop>)
      reads this
      ensures r.Some? <==> IsLoopHead(pc)
      ensures r.Some? ==> (pc, r.value) in loops
    {
      Lookup(loops, pc)
    }

    /** `get_variable_name`: for a name 'r' followed by a number, the name
        the variable table gives that variable index at pc; the name itself
        without a variable table, for any other name, and when the table
        has no name there. */
    function GetVariableName(name: string, pc: int): (r: string)
      reads this
      ensures variableTable.None? ==> r == name
      ensures !StartsWith(name, "r") ==> r == name
      ensures (variableTable.Some? && StartsWith(name, "r") && ParseInt(name[1..]).Some? &&
               Vartables.GetName(variableTable.value, ParseInt(name[1..]).value, pc).Some?) ==>
        r == Vartables.GetName(variableTable.value, ParseInt(name[1..]).value, pc).value
      ensures r != name ==>
        variableTable.Some? && StartsWith(name, "r") && ParseInt(name[1..]).Some? &&
        exists k :: (0 <= k < |variableTable.value| &&
          Vartables.Covers(variableTable.value[k], ParseInt(name[1..]).value, pc) && variableTable.value[k].1.name == r)
    {
      if variableTable.None? || !StartsWith(name, "r") then name
      else match ParseInt(name[1..])
        case None => name
        case Some(index) =>
          match Vartables.GetName(variableTable.value, index, pc)
          case None => name
          case Some(vname) => vname
    }

    /** `get_variable_name` as written: it tests an attribute `vartable`
        that no code assigns (the table is stored as `variabletable`), so
        every call raises AttributeError before any name is looked at. */
    function GetVariableNameAsWritten(name: string, pc: int): (r: Result<string>)
      ensures r.Err? && r.error.Failure?
    {
      Err(Failure("'JavaMethod' object has no attribute 'vartable'"))
    }

    /** `get_tainted_variables`: the taint nodes at pc, [] when there are none. */
    function GetTaintedVariables(pc: int): (r: seq<TaintNode>)
      reads this
      ensures pc !in taintedVariables ==> r == []
      ensures pc in taintedVariables ==> r == taintedVariables[pc]
    {
      if pc in taintedVariables then taintedVariables[pc] else []
    }

    /** `get_loaded_strings`: the string constant loads with their pcs,
        only those containing the substring when one is given. */
    method GetLoadedStrings(substring: Option<string>) returns (results: seq<(int, string)>)
      ensures results == LoadedStrings(instructions, substring)
    {
      results := [];
      var i := 0;
      while i < |instructions|
        invariant 0 <= i <= |instructions|
        invariant results == LoadedStrings(instructions[..i], substring)
      {
        assert instructions[..i + 1][..i] == instructions[..i];
        var ins := instructions[i].1;
        if IsLoadString(ins.opc.cls) {
          if substring.None? || Contains(ins.stringConstant, substring.value) {
            results := results + [(instructions[i].0, ins.stringConstant)];
          }
        }
        i := i + 1;
      }
      assert instructions[..i] == instructions;
    }

    /** `has_calls`: whether some instruction is a call. */
    predicate HasCalls()
      reads this
    {
      exists i :: 0 <= i < |instructions| && IsCall(instructions[i].1.opc.cls)
    }

    /** A method with callees has calls. */
    lemma CalleesNeedCalls()
      ensures CalleeCmsixs(instructions) != [] ==> HasCalls()
    {
      if CalleeCmsixs(instructions) != [] {
        CalleesFromCalls(instructions, CalleeCmsixs(instructions)[0]);
      }
    }

    /** `get_callee_cmsixs`: the targets of every call, in instruction order. */
    method GetCalleeCmsixs() returns (result: seq<int>)
      ensures result == CalleeCmsixs(instructions)
    {
      result := [];
      var i := 0;
      while i < |instructions|
        invariant 0 <= i <= |instructions|
        invariant result == CalleeCmsixs(instructions[..i])
      {
        assert instructions[..i + 1][..i] == instructions[..i];
        if IsCall(instructions[i].1.opc.cls) {
          result := result + instructions[i].1.cmsixTargets;
        }
        i := i + 1;
      }
      assert instructions[..i] == instructions;
    }

    /** `get_conditions`: no conditions for an abstract method; otherwise
        the true-branch condition of every block that has conditions,
        which fails when the method has no cfg. */
    function GetConditions(): (r: Result<seq<string>>)
      reads this
      ensures isAbstract ==> r == Ok([])
      ensures !isAbstract && cfg.None? ==> r.Err?
      ensures !isAbstract && cfg.Some? ==> r == Ok(BlockConditions(cfg.value))
    {
      if isAbstract then Ok([])
      else if cfg.None? then Err(Failure("'NoneType' object has no attribute 'iter_blocks'"))
      else Ok(BlockConditions(cfg.value))
    }
  }

  /** `_initialize_tainted_variables`: the method's nodes appended by pc. */
  method TaintNodesOf(ns: seq<TaintNode>, cmsix: int) returns (m: map<int, seq<TaintNode>>)
    ensures m == TaintedByPc(ns, cmsix)
  {
    m := map[];
    var i := 0;
    while i < |ns|
      invariant 0 <= i <= |ns|
      invariant m == TaintedByPc(ns[..i], cmsix)
    {
      assert ns[..i + 1][..i] == ns[..i];
      var n := ns[i];
      if n.caller == cmsix {
        if n.pc !in m {
          m := m[n.pc := []];
        }
        m := m[n.pc := m[n.pc] + [n]];
      }
      i := i + 1;
    }
    assert ns[..i] == ns;
  }

  /** A method has no calls exactly when no callee is listed for a call
      with targets. */
  lemma NoCallsNoCallees(ins: Dict<int, Instruction>)
    requires forall i :: 0 <= i < |ins| ==> !IsCall(ins[i].1.opc.cls)
    ensures CalleeCmsixs(ins) == []
  {
    if CalleeCmsixs(ins) != [] {
      CalleesFromCalls(ins, CalleeCmsixs(ins)[0]);
    }
  }
}
