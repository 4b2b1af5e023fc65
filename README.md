# CodeHawk-Java results library, modelled in Dafny

CodeHawk-Java is a static analyser for Java bytecode. Its analyser writes
the results of an analysis (bytecode, control-flow graphs, loop bounds,
costs, taint trails, call graphs) as XML files. A Python library reads
those files back into dictionaries of interned records. Reports, a
command-line tool and a web dashboard are built on top of that library.
This project models the core of that library in Dafny and proves what its
code promises. It also models the comparator and the table sort of the
dashboard's `util.js`.

The model covers these parts, one Dafny module per source file:

- **Interning tables** (`IndexedTables`). An indexed table hands out
  consecutive indices for keys. It supports reservations and one
  checkpoint to roll back to. It is a class whose methods update its
  maps in place.
- **Dictionary records** (`Records`). A record's key is its tags and its
  arguments, each joined by commas. A record is written as the XML
  attributes `t`, `a` and `ix`, and it is built from a registry of tags.
  The four record files of the source share this scheme.
- **Terms and costs.**
  - `JTerms` and `JTermDictionaries`: bound terms, interned by the term
    dictionary.
  - `CostMeasures`: the cost order.
  - `CostModels`: the partition of method costs into top, constant, range
    and symbolic.
  - `CostSummaries`: the cost summary report.
- **Graphs.**
  - `Cfgs`: control-flow graphs and their bounded path enumeration.
  - `SideChannelChecks`: side-channel paths.
  - `Callgraphs`, `CallgraphDictionaries` and `DataDictionaries`: call
    graphs, their targets and signatures, and their worklist traversals.
  - `Recursions`: recursion detection.
  - `TaintGraphs`: taint graphs.
- **Methods.** `JavaMethods`, `Loops`, `Vartables`, `ExceptionTables`,
  `ObjectSizes` and `LoopSummaries` answer queries about one method and
  its loops.
- **Decoders and encoders.**
  - `Bytecodes` and `BcDictionaries`: bytecode.
  - `Classnames`, `JMethodDescriptorTypes` and `JValueTypes`: names and
    descriptors.
  - `SummaryValueTypes` and `MethodSummarySignatures`: the type descriptors
    of sections 4.3.2 and 4.3.3 of the Java Virtual Machine Specification
    (Java SE 8).
  - `DotGraphs`: DOT output.
  - `XmlUtil`: XML escaping with the predefined entities of section 4.6 of
    XML 1.0, and pretty-printing.
  - `FileUtil`: file naming.
  - `UserData`: reading and writing user annotations.
- **Report groupings.** `BranchConditionReports` and `StaticFieldReports`.
- **Dashboard.** `WebUtil`: `compareInt`, `sortTable` and the link
  builders.

Helper modules:

- `Wrappers`: Option, Result and the exceptions of the source.
- `Strings`: decimal text, join, split, replace and justification.
- `Dicts`: association lists that keep insertion order, like Python
  dictionaries.
- `Sorting`: sorting by an integer key or by a strict order.

XML input is modelled as plain element values (`XNode`). Dictionary
lookups into parts of the system outside the model are passed in as
function parameters.

Where the code differs from the design documents, the model follows the
code. Two examples:

- `SummaryValueType` writes `long` as `L`, not `J`.
- Element text in `element_to_pretty` is written unescaped.

Where the code calls a method that does not exist, the model follows the
evident intent and lists the case under "## Left out". Where the written
behaviour is observable and evidently wrong, the model gives both
behaviours; see "## Findings".

## Model

| member | source | states |
|---|---|---|
| BcDictionaries.ConstructorTagged | chj/app/BcDictionary.py:46-105 | a tag the constructor map lists leads to the class registered under that same tag |
| BcDictionaries.FallbackNotListed | chj/app/BcDictionary.py:46-105 | no tag of the map leads to the fallback BcInstruction class |
| BcDictionaries.ConstructorsInjective | chj/app/BcDictionary.py:46-105 | two listed tags give the same class exactly when they are the same tag |
| BcDictionaries.DecodeOpcode | chj/app/BcDictionary.py:178-186 | a record with tags decodes to the class registered for its first tag, to BcInstruction exactly when that tag is unlisted, keeping the record; a record without tags fails with an index error |
| BcDictionaries.DecodeEntry | chj/app/BcDictionary.py:157-186 | the `get_value` of each of the four tables builds an entry of that table's kind from the record `get_rep` reads, passed through the base initialiser as intended (`Records.RecordInit`), and fails exactly when `get_rep` (or, for opcodes, the tag lookup) fails |
| BcDictionaries.DecodeEntries | chj/app/BcDictionary.py:157-186 | a successful decoding of a table element has one entry per node, each the node's own decoding |
| BcDictionaries.DecodeEntriesFirstFailure | chj/app/BcDictionary.py:157-186 | a failed decoding reports the error of the first node that fails, all earlier nodes decoding |
| BcDictionaries.Decoded | chj/app/BcDictionary.py:151-155 | a table's missing element gives the `safe_find` CHJError "<name> missing from xml"; a present one gives its decoded entries |
| BcDictionaries.LoadedHoldsKind | chj/app/BcDictionary.py:157-186 | a table loaded from decoded entries holds only entries of its own kind, each stored under its own index |
| BcDictionaries.ResetAndRead | chj/app/BcDictionary.py:151-155 | one step of `initialize`: the table is reset, stays empty when its element is missing and the error is returned, and otherwise holds exactly the decoded entries |
| BcDictionaries.PcListLookup | chj/app/BcDictionary.py:127-128 | a stored pc-list index yields the record's pcs; an index not stored fails with an indexed-table error |
| BcDictionaries.BcDictionary.constructor | chj/app/BcDictionary.py:109-123 | four empty, distinct tables named pc-list-table, slot-table, slot-list-table and opcode-table |
| BcDictionaries.BcDictionary.Initialize | chj/app/BcDictionary.py:151-155 | no document changes nothing; success leaves every table holding exactly its decoded element; failure reports the first table, in order, whose element is missing or does not decode |
| BcDictionaries.BcDictionary.LoadedIsValid | chj/app/BcDictionary.py:109-123 | four distinct tables each holding its own kind make a valid dictionary |
| BcDictionaries.BcDictionary.GetOpcode | chj/app/BcDictionary.py:125 | succeeds exactly for a stored index and returns the opcode stored there; otherwise an indexed-table error |
| BcDictionaries.BcDictionary.GetPcList | chj/app/BcDictionary.py:127-128 | succeeds exactly for a stored index and returns the pc list stored there; otherwise an indexed-table error |
| BcDictionaries.BcDictionary.GetSlot | chj/app/BcDictionary.py:130 | succeeds exactly for a stored index and returns the slot stored there; otherwise an indexed-table error |
| BcDictionaries.BcDictionary.GetSlots | chj/app/BcDictionary.py:132 | succeeds exactly for a stored index and returns the slot list stored there; otherwise an indexed-table error |
| BcDictionaries.BcDictionary.SlotSrcPcs | chj/app/Bytecode.py:64-68 | a slot whose source tag is "m" reads its pcs from the pc-list table under its first argument, failing when that index is not stored |
| BcDictionaries.BcDictionary.SlotDstPcs | chj/app/Bytecode.py:70-74 | a slot whose destination tag is "m" reads its pcs from the pc-list table under its second argument, failing when that index is not stored |
| BcDictionaries.DecodeEntryAsWritten | chj/app/BcDictionary.py:157-186 | as written no node decodes: `get_rep`'s error is passed on, an opcode record without tags is an index error, and every other node raises TypeError in the base initialiser |
| BcDictionaries.DecodedTag | chj/app/BcDictionary.py:178-186 | a record with a tag decodes, and a class other than the fallback is listed under exactly the tag it was decoded from |
| BcDictionaries.DecodedCalls | chj/app/BcDictionary.py:99-103 | a decoded opcode is a call exactly when its tag is one of "invv", "invsp", "invst", "invi", "invd", and a string load exactly when its tag is "scst" |
| BcDictionaries.DecodedFieldAccesses | chj/app/BcDictionary.py:93-96 | a decoded opcode puts or gets a static or instance field exactly when its tag is "puts", "putf", "gets" or "getf" respectively |
| BcDictionaries.DecodedCreations | chj/app/BcDictionary.py:88-90 | a decoded opcode creates an object exactly for "new", "newa" and "mnewa", an array exactly for the last two, a multi-array exactly for "mnewa" |
| BcDictionaries.DecodedUnlisted | chj/app/Bytecode.py:102-118 | an opcode decoded from an unlisted tag is the generic instruction and answers no to all nine questions |
| BranchConditionReports.Grouped | chj/reporting/BranchConditions.py:47-52 | the table has one entry per condition (no key twice) |
| BranchConditionReports.GetTable | chj/reporting/BranchConditions.py:41-68 | `get_table` (and `as_dictionary`) builds exactly the grouped table of the occurrences |
| BranchConditionReports.GroupedMeaning | chj/reporting/BranchConditions.py:47-52 | a condition is in the table exactly when some method holds it, and then it lists exactly the methods holding it, in order |
| BranchConditionReports.GroupedTotal | chj/reporting/BranchConditions.py:47-52 | the table lists every (method, condition) occurrence once: its lists together are as long as the occurrences |
| BranchConditionReports.Tally | chj/reporting/BranchConditions.py:76-83 | the counting table has one entry per condition and no more entries than occurrences |
| BranchConditionReports.TallyMeaning | chj/reporting/BranchConditions.py:76-83 | a condition is absent exactly when it never occurs; occurring once it maps to its method's name, more often to its number of occurrences |
| BranchConditionReports.Record | chj/reporting/BranchConditions.py:77-83 | one occurrence: a new condition maps to the method name, a second occurrence to 2, later ones add one |
| BranchConditionReports.CountOccurrences | chj/reporting/BranchConditions.py:71-83 | the loop of `tostring` builds exactly the counting table of the occurrences |
| BranchConditionReports.Containing | chj/reporting/BranchConditions.py:105 | the occurrences kept are exactly those whose condition contains s |
| BranchConditionReports.CountMatching | chj/reporting/BranchConditions.py:100-113 | the loop of `toincludestring` builds the counting table of the occurrences whose condition contains s |
| BranchConditionReports.MatchingKeys | chj/reporting/BranchConditions.py:104-128 | every condition of the filtered table contains s, and the table is empty exactly when no condition contains s |
| BranchConditionReports.MaxKeyLen | chj/reporting/BranchConditions.py:84-88 | the maximum is at least every condition's length and is the length of some condition |
| BranchConditionReports.Width | chj/reporting/BranchConditions.py:84-88 | the column is 80 wide exactly when some condition plus two exceeds 60, 50 wide exactly when none does; with no conditions the width is unbound and the report fails |
| BranchConditionReports.ItemLines | chj/reporting/BranchConditions.py:93-94 | one line per table item, in order |
| BranchConditionReports.ReportLines | chj/reporting/BranchConditions.py:89-94 | the header line, a rule of 80 dashes, then one line per item |
| BranchConditionReports.ToString | chj/reporting/BranchConditions.py:70-95 | fails exactly when there are no conditions; otherwise joins the header, the rule and the items sorted by condition, padded to the width plus two spaces |
| BranchConditionReports.IncludeString | chj/reporting/BranchConditions.py:99-129 | the message "No matching conditions were found" when no condition contains s; otherwise the matching items sorted by condition, padded to the longest plus two |
| BranchConditionReports.ReportOrder | chj/reporting/BranchConditions.py:93-94 | the items are printed in ascending condition order and are a permutation of the table |
| BranchConditionReports.CountText | chj/reporting/BranchConditions.py:96 | the second column is the method name, or the occurrence count's decimal text, which reads back as the count |
| Bytecodes.CreationNested | chj/app/Bytecode.py:438-478 | a multi-array creation is an array creation, an array creation is an object creation, and `new` is the only object creation that is not an array |
| Bytecodes.FieldAccessExclusive | chj/app/Bytecode.py:498-549 | an opcode answers yes to at most one of the four field-access questions |
| Bytecodes.PlainInstructions | chj/app/Bytecode.py:102-118 | loads, stores, increments, arithmetic, conditional jumps and goto keep every base answer (no) |
| Bytecodes.OpcStr | chj/app/Bytecode.py:100 | `opcstr` keeps the mnemonic and pads it with spaces to 20 characters, leaving longer text unchanged |
| Bytecodes.ToString | chj/app/Bytecode.py:120-638 | an opcode prints as its padded mnemonic followed by its operands; it fails with an index error exactly when a tag or argument it reads is missing, and with a value error when a long constant's tag is not a number |
| Bytecodes.LongConstPrintsValue | chj/app/Bytecode.py:186-193 | a long constant prints as "lconst" padded to 20 followed by the value of its second tag |
| Bytecodes.GetIncrement | chj/app/Bytecode.py:161 | the increment is the first argument, missing without arguments |
| Bytecodes.GetIIncVarIndex | chj/app/Bytecode.py:163 | the variable index is the second argument, missing without two arguments |
| Bytecodes.IIncReadsBack | chj/app/Bytecode.py:156-167 | the operands printed for an increment read back as the variable index and the increment, separated by ", " |
| Bytecodes.RetToStringAsWritten | chj/app/Bytecode.py:415-422 | `BcRet.__str__` as written calls a method the class does not have and always fails |
| Bytecodes.RetToStringFixed | chj/app/Bytecode.py:415-422 | the corrected `ret` prints its variable index, which reads back from the text after the padded mnemonic |
| Bytecodes.GetPcs | chj/app/Bytecode.py:46 | the pcs of a pc list are its arguments, in order |
| Bytecodes.PcListToString | chj/app/Bytecode.py:48 | a pc list prints with the prefix "pcs:" |
| Bytecodes.PcListReadsBack | chj/app/Bytecode.py:46-48 | splitting the printed pc list at commas after the prefix reads back its pcs |
| Bytecodes.SlotPcs | chj/app/Bytecode.py:64-74 | tag "n" gives no pcs, "s" the one argument at the tag's position, "m" the pc list stored under that argument (or its lookup error); any other tag gives None; a missing tag or argument is an index error |
| Bytecodes.SrcDstSymmetric | chj/app/Bytecode.py:64-74 | the destination pcs read the second tag and argument exactly as the source pcs read the first |
| Callgraphs.EdgeTableFinds | chj/index/Callgraph.py:103-109 | the edge table has an entry for (caller, pc) exactly when some edge has that caller and pc, and the entry is the target of the last such edge |
| Callgraphs.MethodEdges | chj/index/Callgraph.py:111-122 | the pcs of one caller's kept edges, each once |
| Callgraphs.MethodEdgesFrom | chj/index/Callgraph.py:111-122 | every entry comes from an edge of the caller with a non-virtual or virtual target, and every such edge's pc has an entry |
| Callgraphs.CalleeName | chj/index/Callgraph.py:58-60 | an application callee is named by its method's qualified name, any other by its class name, ".", and the method signature's name |
| Callgraphs.RevMethodEdges | chj/index/Callgraph.py:124-135 | the pcs of the edges reaching the method, each once |
| Callgraphs.RevMethodEdgesFrom | chj/index/Callgraph.py:124-135 | every entry comes from an edge one of whose target classes resolves to the method, and every such edge's pc has an entry |
| Callgraphs.DrawTarget | chj/index/Callgraph.py:57-64 | one call target: the edge from the caller to the callee's name is drawn, nothing drawn before is lost, and an application callee not yet done is pushed |
| Callgraphs.DrawTargets | chj/index/Callgraph.py:55-64 | every target class of one call gets its edge drawn, and exactly the application callees not done are pushed, after the stack's earlier contents |
| Callgraphs.DrawCalls | chj/index/Callgraph.py:53-64 | every call of a method gets its edges drawn, and exactly its application callees not done are pushed |
| Callgraphs.DrawCaller | chj/index/Callgraph.py:79-83 | one caller: its node and the edge to the method are drawn, and it is pushed unless done |
| Callgraphs.DrawCallers | chj/index/Callgraph.py:79-83 | every caller of the method is drawn with its edge, and exactly the callers not done are pushed |
| Callgraphs.DotFinish | chj/index/Callgraph.py:47-65 | when the stack is empty the visited methods contain the start, are closed under the call relation, and each has its node and all its call edges drawn |
| Callgraphs.RevFinish | chj/index/Callgraph.py:73-85 | when the stack is empty the visited methods contain the start, are closed under the called-by relation, and each has its node and all its caller edges drawn |
| Callgraphs.Callgraph.constructor | chj/index/Callgraph.py:32-38 | the fields `__init__` sets before its edge load: the given dictionary and edge elements, with an empty edge table and no callback edges |
| Callgraphs.Callgraph.New | chj/index/Callgraph.py:32-39 | building a graph fails with an indexed-table error exactly when some edge's target is missing from the dictionary; a graph that is built holds the edge table of all edges and no callback edges |
| Callgraphs.Callgraph.LoadEdges | chj/index/Callgraph.py:103-109 | loaded edges are kept; otherwise the edge table is built from all edges, or loading stops with an indexed-table error at the first edge whose target is not in the dictionary |
| Callgraphs.Callgraph.HasTarget | chj/index/Callgraph.py:93-95 | true exactly when some edge has that caller and pc (after loading the edges, whose failure is reported) |
| Callgraphs.Callgraph.GetTarget | chj/index/Callgraph.py:97-101 | the target of the last edge with that caller and pc, None when there is none |
| Callgraphs.Callgraph.GetMethodEdges | chj/index/Callgraph.py:111-122 | `_get_method_edges`: the caller's kept edges, or an indexed-table error when one of its targets is unknown |
| Callgraphs.Callgraph.GetRevMethodEdges | chj/index/Callgraph.py:124-135 | `_get_rev_method_edges`: the edges reaching the method, or an indexed-table error when a target is unknown |
| Callgraphs.Callgraph.DotVisit | chj/index/Callgraph.py:47-64 | one pass of the `as_dot` loop keeps the traversal invariant and decreases the pair (methods not yet visited, stack length) |
| Callgraphs.Callgraph.AsDot | chj/index/Callgraph.py:41-65 | the graph "cg_<cmsix>" holds every method reachable from the start through application calls, each with its node and all its call edges; a failure is an unknown target |
| Callgraphs.Callgraph.RevVisit | chj/index/Callgraph.py:73-83 | one pass of the `as_rev_dot` loop keeps the traversal invariant and decreases the same pair |
| Callgraphs.Callgraph.AsRevDot | chj/index/Callgraph.py:67-87 | the graph "revcg_<cmsix>" holds every method from which the start is reachable, each with its node and all its caller edges; fails exactly when a target is unknown |
| Callgraphs.Callgraph.IsCallbackAsWritten | chj/index/Callgraph.py:89-91 | `is_callback` as written calls `_get_callback_edges`, which the class does not define, and always fails |
| Callgraphs.Callgraph.LoadCallbackEdges | chj/index/Callgraph.py:137-140 | `_getcallbackedges`: loaded callback edges are kept; otherwise the callback edge indices are read |
| Callgraphs.Callgraph.IsCallback | chj/index/Callgraph.py:89-91 | the corrected `is_callback`: true exactly when the method has a callback edge |
| CallgraphDictionaries.CallgraphTarget.ApplicationTargets | chj/index/CallgraphDictionary.py:64-115 | `get_application_targets`: exactly the target classes that belong to the application, in the order of `cnixs` |
| CallgraphDictionaries.CallgraphTarget.GetLength | chj/index/CallgraphDictionary.py:87-112 | the length of a virtual target is its number of target classes |
| CallgraphDictionaries.CallgraphTarget.IsInterface | chj/index/CallgraphDictionary.py:128 | an empty target is an interface exactly when its first argument is 1; without arguments it fails with an index error |
| CallgraphDictionaries.CallgraphTarget.GetCnix | chj/index/CallgraphDictionary.py:130 | the class index of an empty target is its second argument, an index error when missing |
| CallgraphDictionaries.CallgraphTarget.GetMsix | chj/index/CallgraphDictionary.py:132 | the method-signature index of an empty target is its third argument, an index error when missing |
| CallgraphDictionaries.CallgraphTarget.ClassNamesAsWritten | chj/index/CallgraphDictionary.py:109-110 | `VirtualTargets.get_class_names` as written calls the list `cnixs` and always fails; the other kinds answer as intended |
| CallgraphDictionaries.CallgraphTarget.ClassNames | chj/index/CallgraphDictionary.py:62-137 | the corrected class names: one name per target class, in order; an empty target names the class of its second argument |
| CallgraphDictionaries.CallgraphTarget.ToString | chj/index/CallgraphDictionary.py:73-143 | "nv:" and the class name; "cv:" and the names joined by "; " and the tag in parentheses (failing without a second tag); "v:" and the names joined by ";"; "empty:" and the class name and signature (failing without three arguments) |
| CallgraphDictionaries.AppFilter | chj/index/CallgraphDictionary.py:92-96 | the filter keeps exactly the application classes and never lengthens the list |
| CallgraphDictionaries.AppFilterConcat | chj/index/CallgraphDictionary.py:92-96 | filtering distributes over concatenation |
| CallgraphDictionaries.AppFilterAll | chj/index/CallgraphDictionary.py:92-96 | the filter returns its input exactly when every class belongs to the application |
| CallgraphDictionaries.HasApplicationTargetsIff | chj/index/CallgraphDictionary.py:64-96 | for non-virtual, constrained-virtual and empty targets, having application targets agrees with a non-empty list of them |
| CallgraphDictionaries.VirtualTargetsHideApplicationTargets | chj/index/CallgraphDictionary.py:39-117 | a virtual target with an application class still answers False to `has_application_targets` (it keeps the base answer) although its list of application targets is not empty |
| CallgraphDictionaries.ConstructTarget | chj/index/CallgraphDictionary.py:146-151 | the first tag selects the kind ("nv", "cv", "v", "empty"); an unknown tag is a KeyError, no tag an IndexError; a non-virtual target reads args[0] and tags[1] and fails without them; the record is passed through the base initialiser as intended (`Records.RecordInit`) |
| CallgraphDictionaries.DecodeTarget | chj/index/CallgraphDictionary.py:190-196 | `get_value`: the target constructed from the record `get_rep` reads, or `get_rep`'s error |
| CallgraphDictionaries.CallgraphDictionary.constructor | chj/index/CallgraphDictionary.py:155-161 | one empty, valid table named target-table |
| CallgraphDictionaries.CallgraphDictionary.Initialize | chj/index/CallgraphDictionary.py:184-188 | no document changes nothing; a missing target-table element leaves the reset table empty and fails; otherwise the table holds exactly the decoded targets, or the first decoding error is returned |
| CallgraphDictionaries.CallgraphDictionary.LoadedTargetsAreConstructed | chj/index/CallgraphDictionary.py:190-196 | every loaded target is stored under its own index and is what its record constructs |
| CallgraphDictionaries.CallgraphDictionary.GetTarget | chj/index/CallgraphDictionary.py:163 | succeeds exactly for a stored index, returning the target stored there; otherwise an indexed-table error |
| CallgraphDictionaries.CallgraphDictionary.ReadXmlTarget | chj/index/CallgraphDictionary.py:165-166 | reads the "itgt" attribute as an integer (a value error when it is not one) and returns the target stored under it |
| CallgraphDictionaries.ConstructTargetAsWritten | chj/index/CallgraphDictionary.py:32-37 | as written no target is built: no tag is an index error, an unknown tag a KeyError, and each of the four kinds raises TypeError in the base initialiser |
| Cfgs.GetLoopLevels | chj/app/Cfg.py:45-48 | a block without a `loop-levels` element has no loop levels |
| Cfgs.GetLoopLevelCount | chj/app/Cfg.py:43 | the count is zero exactly when the block has no loop levels |
| Cfgs.GetTcond | chj/app/Cfg.py:58-59 | a true condition exists exactly when the block has conditions |
| Cfgs.GetFcond | chj/app/Cfg.py:61-62 | the false condition is the `fcond` attribute of a block with conditions, and is present whenever that attribute is |
| Cfgs.BlocksOf | chj/app/Cfg.py:150-152 | the block map has an entry for exactly the first pcs of the blocks read, each holding a block with that first pc |
| Cfgs.TargetsOf | chj/app/Cfg.py:154-159 | the targets recorded for a source are exactly the targets of its edges |
| Cfgs.EdgesOfTargets | chj/app/Cfg.py:154-159 | a source has a successor list exactly when some edge leaves it, and its successors are its edges' targets in file order |
| Cfgs.Multiplicity | chj/app/Cfg.py:112-116 | the nested `multiplicity` returns the number of occurrences of e in l |
| Cfgs.CountBound | chj/app/Cfg.py:119-140 | a sequence over a finite set of nodes in which no node occurs more than twice has at most twice as many elements as nodes, which bounds the prefixes `enumpaths` builds |
| Cfgs.WalkSnoc | chj/app/Cfg.py:135-140 | extending a walk by a successor of its last node gives a walk |
| Cfgs.EnumPaths | chj/app/Cfg.py:119-140 | `enumpaths` only appends paths: each added path extends the prefix, leads from the start to endpc along edges and holds no node more than twice; a missing block is an error |
| Cfgs.UniquePaths | chj/app/Cfg.py:144-149 | the kept paths come from the result, no two share node set and length, and every path of the result has a kept path with its node set and length |
| Cfgs.LoadBlocks | chj/app/Cfg.py:150-152 | `_initialize_blocks` builds exactly the block map of the blocks read (the last block with a first pc wins) |
| Cfgs.LoadEdges | chj/app/Cfg.py:154-159 | `_initialize_edges` builds exactly the successor lists of the edges read |
| Cfgs.Cfg.constructor | chj/app/Cfg.py:70-76 | the graph holds the block map and successor lists of the blocks and edges read |
| Cfgs.Cfg.GetBlock | chj/app/Cfg.py:79-83 | the block with that first pc, None (after the message) when there is none |
| Cfgs.Cfg.GetSuccessors | chj/app/Cfg.py:92-96 | the successor list of the pc, empty when it has none |
| Cfgs.Cfg.GetLoopLevelCounts | chj/app/Cfg.py:85-90 | one entry per block, holding the block's number of loop levels |
| Cfgs.Cfg.EnumeratePaths | chj/app/Cfg.py:111-149 | every returned path leads from startpc to endpc along edges, holds no node more than twice, and no two returned paths share node set and length |
| Classnames.PackageParts | chj/index/Classname.py:35-36 | the package consists of the strings of every argument but the last, in order |
| Classnames.PackageNameParts | chj/index/Classname.py:35-36 | when no package part contains a dot, splitting `get_package_name` at dots gives back the parts |
| Classnames.Initials | chj/index/Classname.py:38-39 | `get_abbreviated_package_name`: the first character of each part, in order; an empty part raises an index error |
| Classnames.SimpleName | chj/index/Classname.py:50 | the string of the last argument; a name without arguments raises an index error |
| Classnames.QName | chj/index/Classname.py:41-42 | the package name, ".", and the simple name; fails exactly when there are no arguments |
| Classnames.NameIsQName | chj/index/Classname.py:52-56 | `get_name` agrees with `get_qname` (both fail without arguments); a class without a package is printed with a leading "." |
| Classnames.AqNameAsWrittenIsSimpleName | chj/index/Classname.py:44-48 | `get_aqname` as written tests `len(self.args) > 0` and so always answers the simple name (or fails) |
| Classnames.AqNameAsWrittenDropsPackage | chj/index/Classname.py:44-48 | for java.lang.String the code as written answers "String" where the abbreviated name is "jl.String" |
| Classnames.AqName | chj/index/Classname.py:38-48 | the corrected abbreviated name: the first character of each package part followed by "." and the simple name; fails exactly when there are no arguments or a package part is empty |
| Classnames.AbbreviatedPackageName | chj/index/Classname.py:38-39 | the first character of each package component, in order; IndexError exactly when some component is empty |
| Classnames.Name | chj/index/Classname.py:52-56 | `get_name` fails, with IndexError, exactly when the class name has no arguments |
| CostMeasures.GetValue | chj/cost/CostMeasure.py:39-40 | a value exists exactly when the cost is a single value |
| CostMeasures.GetLowerbound | chj/cost/CostMeasure.py:42-44 | the constant lower bound when there is one, 0 otherwise |
| CostMeasures.GetUpperbound | chj/cost/CostMeasure.py:46-47 | an upper bound exists exactly when the upper bounds are a constant |
| CostMeasures.GetUbSymbolicDependencies | chj/cost/CostMeasure.py:49-50 | the dependencies are symbolic constants |
| CostMeasures.GetRange | chj/cost/CostMeasure.py:52-54 | a range exists exactly when the cost is a constant range, and is the pair of the lower and upper bound |
| CostMeasures.GetSymbolicBound | chj/cost/CostMeasure.py:68-72 | a symbolic bound exists exactly when `has_symbolic_bound` holds, and is one of the upper-bound terms |
| CostMeasures.Classification | chj/cost/CostMeasure.py:57-75 | a cost is never both a value and a proper range; value or range means a constant range; top has no lower bound and is none of the others; unknown (open above) has a lower bound and is neither value nor range; a value is its own lower bound |
| CostMeasures.Lt | chj/cost/CostMeasure.py:77-102 | `__lt__`: nothing is below None or below top is false, anything not top is below top, and the remaining cases compare values, upper bounds and lower bounds as the code does, raising where it raises |
| CostMeasures.Eq | chj/cost/CostMeasure.py:104-113 | `__eq__`: false against None; top equals only top; equal costs agree on kind and bounds; it raises exactly for a cost that is neither top, value nor range |
| CostMeasures.Ne | chj/cost/CostMeasure.py:115 | the negation of `__eq__`, failing where it fails |
| CostMeasures.Le | chj/cost/CostMeasure.py:119 | true when below; otherwise `__eq__`; an exception of `__lt__` propagates |
| CostMeasures.GeGtSwapped | chj/cost/CostMeasure.py:117-121 | with the bodies of `__ge__` and `__gt__` as written, a value cost is not >= itself but is > itself |
| CostMeasures.Ge | chj/cost/CostMeasure.py:117 | the corrected `__ge__`: true when the other cost is below or equal |
| CostMeasures.Gt | chj/cost/CostMeasure.py:121 | the corrected `__gt__`: never true for equal costs |
| CostMeasures.LtIrreflexive | chj/cost/CostMeasure.py:77-102 | no cost is below itself |
| CostMeasures.LtAsymmetric | chj/cost/CostMeasure.py:77-102 | for costs whose lower bound does not exceed the upper, a below b excludes b below a |
| CostMeasures.EqSymmetric | chj/cost/CostMeasure.py:104-113 | where both directions answer, equality is symmetric |
| CostMeasures.EqNotLt | chj/cost/CostMeasure.py:77-113 | equal costs are not below each other |
| CostMeasures.ValuesCompare | chj/cost/CostMeasure.py:77-121 | on single values all comparisons are the integer comparisons of the values |
| CostMeasures.RangesCompare | chj/cost/CostMeasure.py:86-90 | ranges compare by upper bound, then by lower bound, and any two ranges are ordered one way or are equal |
| CostModels.TopIdsMembers | chj/cost/CostModel.py:54-59 | a method is reported as top exactly when it has a cost whose range is top |
| CostModels.ConstantPairsMembers | chj/cost/CostModel.py:61-67 | (method, v) is reported exactly when the method's cost is the single value v |
| CostModels.RangePairsMembers | chj/cost/CostModel.py:69-76 | (method, (lb, ub)) is reported exactly when the method's cost is the proper range lb..ub |
| CostModels.SymbolicPairsMembers | chj/cost/CostModel.py:78-86 | a (method, cost) pair is reported exactly when the cost is neither top, value nor range |
| CostModels.Partition | chj/cost/CostModel.py:54-86 | every method lands in exactly one of the four reports |
| CostModels.UnknownAreSymbolic | chj/cost/CostModel.py:97-99 | the methods with unknown cost are no more than the symbolic ones |
| CostModels.CostModel.constructor | chj/cost/CostModel.py:37-43 | the method costs read (a later cost for a cmsix replaces the earlier), and no constants |
| CostModels.CostModel.GetMethodCost | chj/cost/CostModel.py:51-52 | the cost stored for the id, None when there is none |
| CostModels.CostModel.GetTopMethodCosts | chj/cost/CostModel.py:54-59 | the top methods, in dictionary order |
| CostModels.CostModel.GetConstantMethodCosts | chj/cost/CostModel.py:61-67 | the (method, value) pairs sorted stably by value: sorted, and a permutation of the pairs found |
| CostModels.CostModel.GetRangeMethodCosts | chj/cost/CostModel.py:69-76 | the (method, range) pairs sorted stably by upper bound: sorted, and a permutation of the pairs found |
| CostModels.CostModel.GetSymbolicMethodCosts | chj/cost/CostModel.py:78-86 | the remaining (method, cost) pairs, in dictionary order |
| CostModels.CostModel.GetUnknownMethodCosts | chj/cost/CostModel.py:97-99 | the corrected count: exactly the number of methods whose cost measure is open above (`methodcost.is_unknown()`), at most the number of symbolic costs |
| CostModels.CostModel.GetConstantValue | chj/cost/CostModel.py:92-93 | the value of a named constant, None for an unknown name |
| CostModels.CostModel.SetConstantValue | chj/cost/CostModel.py:95 | the name now has the value; every other constant is unchanged |
| CostModels.CostModel.RestoreOriginalConstants | chj/cost/CostModel.py:107-109 | every original constant is restored; other constants keep their values |
| CostModels.CostModel.StoreOriginalConstants | chj/cost/CostModel.py:111-119 | the originals become the old ones updated by the file's entries: every name of the file is an original constant holding the value of its last entry; other originals are unchanged |
| CostModels.CostModel.GetUnknownMethodCostsAsWritten | chj/cost/CostModel.py:97-99 | as written: 0 without methods, AttributeError as soon as there is one method cost |
| CostModels.UnknownCountIsCount | chj/cost/CostModel.py:125 | the unknown count is the number of positions whose cost is open above |
| CostModels.StoredConstantsKeys | chj/cost/CostModel.py:111-117 | the names stored from a constants file are exactly its entries' names |
| CostModels.StoredConstantsLast | chj/cost/CostModel.py:114-117 | each name stored from a constants file holds the value of its last entry |
| CostSummaries.AbbreviateAbsent | chj/reporting/CostSummary.py:48-51 | a string holding none of the package prefixes comes back unchanged |
| CostSummaries.AbbreviatePackages | chj/reporting/CostSummary.py:48-51 | `abbreviatepackages` applies the sixteen replacements in list order, and leaves a string holding none of the prefixes unchanged |
| CostSummaries.ReplaceAll | chj/reporting/CostSummary.py:49-50 | the loop applies each (prefix, abbreviation) pair in list order |
| CostSummaries.AbbreviateStep | chj/reporting/CostSummary.py:49-50 | abbreviating with a list is replacing its first prefix everywhere, then abbreviating with the rest |
| CostSummaries.ReplacePrefix | chj/reporting/CostSummary.py:50 | replacing a prefix in a string that starts with it (and has too short a tail to hold it again) replaces just that prefix |
| CostSummaries.CcseHasNoLaterPattern | chj/reporting/CostSummary.py:28-45 | "ccse" contains none of the later prefixes, so no later replacement touches it |
| CostSummaries.SpecificPrefixFirst | chj/reporting/CostSummary.py:28-32 | the longer easydecision prefix comes before the generic one, so the easydecision package abbreviates to "ccse" |
| CostSummaries.GenericPrefixFirst | chj/reporting/CostSummary.py:28-32 | had the generic prefix been applied first, the easydecision package would become "ccs.easydecision": the list order matters |
| CostSummaries.Mark | chj/reporting/CostSummary.py:117-126 | " (*)  " exactly for a method without calls; " (**) " exactly for a method with calls whose targets are all leaves already; blank otherwise |
| CostSummaries.MarkEntriesKeepsClosed | chj/reporting/CostSummary.py:115-127 | the list of leaves only ever holds methods without calls or with all their targets among the leaves |
| CostSummaries.MarkEntriesGrows | chj/reporting/CostSummary.py:146-158 | marking only appends to the list of leaves, and only methods that pass the name filter and are among the constant costs |
| CostSummaries.MarkEntriesLines | chj/reporting/CostSummary.py:146-160 | one line per constant-cost entry whose name passes the filter, in order: the k-th line carries the k-th passing cmsix and starts with its cost right-justified in ten columns |
| CostSummaries.Label | chj/reporting/CostSummary.py:110 | a method's label starts with its signature name (its index follows in parentheses) |
| CostSummaries.LabelMapKeys | chj/reporting/CostSummary.py:113-127 | the constant-cost dictionary has exactly the marked methods as keys |
| CostSummaries.LabelMapValue | chj/reporting/CostSummary.py:115-127 | a method's entry holds its label and the cost text of its last marking |
| CostSummaries.TopLinesFiltered | chj/reporting/CostSummary.py:137-142 | there is a top line exactly for each top method whose name passes the filter: two spaces and its label |
| CostSummaries.Abbreviated | chj/reporting/CostSummary.py:197 | every report line is abbreviated, one for one |
| CostSummaries.CostSummary.constructor | chj/reporting/CostSummary.py:55-59 | a summary over the cost model with no leaves yet |
| CostSummaries.CostSummary.MarkConstantCosts | chj/reporting/CostSummary.py:146-158 | the marking loop yields exactly the marked lines and the new leaf list of MarkEntries, starting from the leaves already found |
| CostSummaries.CostSummary.AsDictionary | chj/reporting/CostSummary.py:104-131 | the top methods map to their label and "Top"; the constant-cost methods, in order of cost, map to their label and marked cost text, and the leaves grow accordingly |
| CostSummaries.CostSummary.ToString | chj/reporting/CostSummary.py:134-198 | the top and constant sections of `to_string`: the two headings with their counts, then the filtered top lines and marked constant lines, each abbreviated |
| CostSummaries.TopLinesOf | chj/reporting/CostSummary.py:139-142 | the loop over the top methods yields exactly the filtered top lines |
| CostSummaries.TopCostsMap | chj/reporting/CostSummary.py:107-111 | every top method, and no other, maps to its label and "Top" |
| CostSummaries.LabelMapOf | chj/reporting/CostSummary.py:115-127 | the loop filling the constant-cost dictionary yields exactly the label map of the marked methods |
| CostSummaries.AbbreviateLines | chj/reporting/CostSummary.py:197 | the loop abbreviating the lines yields exactly the abbreviated lines |
| CostSummaries.Passing | chj/reporting/CostSummary.py:147-149 | the entries kept are exactly those whose method name passes the filter |
| DataDictionaries.AppClassName | chj/index/DataDictionary.py:181-184 | an application class is filed under its name, prefixed by its package and a dot exactly when the package is present and non-empty |
| DataDictionaries.AppClassesLoaded | chj/index/DataDictionary.py:180-185 | every class read is filed under its name; every name filed comes from the map before or from a class read; the last class read under a name gives its index |
| DataDictionaries.ApplicationClassesFromEntries | chj/index/DataDictionary.py:124 | a class index counts as an application class only if some class read carries it, and every class read last under its name does count |
| DataDictionaries.ConcatIxs | chj/index/DataDictionary.py:202-205 | the `ixs` lists of the children, concatenated, succeed exactly when every present `ixs` attribute is a comma-separated list of integers, and fail with a ValueError otherwise |
| DataDictionaries.ConcatIxsAbsent | chj/index/DataDictionary.py:201-205 | children without `ixs` contribute nothing |
| DataDictionaries.ConcatIxsAppend | chj/index/DataDictionary.py:203-205 | the concatenation of two runs of children is the concatenation of their lists |
| DataDictionaries.ConcatIxsSingle | chj/index/DataDictionary.py:205 | a single child whose `ixs` is written from a non-empty list of integers reads back as that list |
| DataDictionaries.SignatureTargets | chj/index/DataDictionary.py:200-217 | a signature's stub, application and native lists are read exactly when all three read, and are the three concatenations |
| DataDictionaries.IndicesFromEntries | chj/index/DataDictionary.py:218 | every (name, signature) filed maps to the index of a signature read under that name and signature |
| DataDictionaries.SignaturesFromEntries | chj/index/DataDictionary.py:219 | every index filed maps to the name and signature of a signature read with that index |
| DataDictionaries.IndicesInverse | chj/index/DataDictionary.py:218-219 | with distinct indices, looking up the index of a (name, signature) and then its signature gives back the (name, signature) |
| DataDictionaries.SignaturesInverse | chj/index/DataDictionary.py:218-219 | with distinct (name, signature) pairs, looking up the signature of an index and then its index gives back the index |
| DataDictionaries.EdgesLoaded | chj/index/DataDictionary.py:170-175 | an edge is filed for (caller, pc) exactly when some edge read has them, and the last such edge gives the callee signature and its target |
| DataDictionaries.DataDictionary.constructor | chj/index/DataDictionary.py:44-48 | all five tables start empty |
| DataDictionaries.DataDictionary.InitializeAppClasses | chj/index/DataDictionary.py:177-185 | without the class-name file nothing changes; otherwise every class read is filed in order |
| DataDictionaries.DataDictionary.InitializeMethodSignatures | chj/index/DataDictionary.py:193-220 | without the signatures file nothing changes; otherwise it succeeds exactly when every signature's targets read, filing all three tables, and fails with the error of the first bad signature after filing those before it |
| DataDictionaries.DataDictionary.InitializeCallgraph | chj/index/DataDictionary.py:166-175 | without the call-graph file nothing changes; otherwise it succeeds exactly when every edge's target is in the target table, filing every edge, and fails with an index-table error at the first unknown target after filing the edges before it |
| DataDictionaries.DataDictionary.GetMsix | chj/index/DataDictionary.py:62-64 | the index of a (name, signature) exactly when it is filed, None otherwise |
| DataDictionaries.DataDictionary.GetCnix | chj/index/DataDictionary.py:66-68 | the index of an application class name exactly when it is filed, None otherwise |
| DataDictionaries.DataDictionary.AppClasses | chj/index/DataDictionary.py:79 | the set of application class indices, holding exactly the classes `is_application_class` accepts |
| DataDictionaries.DataDictionary.GetMethodSignatures | chj/index/DataDictionary.py:104-109 | the signatures of exactly the method indices filed under the given name |
| DataDictionaries.DataDictionary.GetImplementingClasses | chj/index/DataDictionary.py:111-116 | the stubs, then the application classes, then the natives of a filed signature; empty for one not filed |
| DataDictionaries.DataDictionary.GetCallTarget | chj/index/DataDictionary.py:128-129 | the callee signature and target of an edge exactly when `has_call_target` holds for it, None otherwise |
| DotGraphs.SanitizeUnchanged | chj/util/DotGraph.py:31-37 | text holding neither a double quote nor "<init>" passes `sanitize` unchanged |
| DotGraphs.QuoteStepEscapes | chj/util/DotGraph.py:30-31 | after the first replacement of `sanitize` every double quote is preceded by a backslash, as DOT requires |
| DotGraphs.ShadeText | chj/util/DotGraph.py:66-73 | shaded wins over color, color over fillcolor, each with its own style text; the text is empty exactly when none is set |
| DotGraphs.NodeToString | chj/util/DotGraph.py:59-78 | a node prints as its quoted name, with an attribute list exactly when it has a label or a style |
| DotGraphs.EdgeToString | chj/util/DotGraph.py:94-100 | an edge prints as quoted source, arrow, quoted target, followed by a label attribute exactly when it has a label |
| DotGraphs.NodeLines | chj/util/DotGraph.py:142 | one line per node, in insertion order |
| DotGraphs.EdgeLines | chj/util/DotGraph.py:143 | one line per edge, in insertion order |
| DotGraphs.DotGraph.constructor | chj/util/DotGraph.py:105-110 | a graph with the given name, no nodes or edges, top-to-bottom and gray96 |
| DotGraphs.DotGraph.AddNode | chj/util/DotGraph.py:112-120 | a name already present leaves the nodes unchanged (first writer wins); a new name is appended with its sanitized label and its style; the edges and settings are untouched |
| DotGraphs.DotGraph.AddEdge | chj/util/DotGraph.py:122-130 | both endpoints become nodes (the existing ones unchanged) and the edge is present afterwards; an existing edge keeps its label, a new one is appended with its sanitized label |
| DotGraphs.DotGraph.StoreEdge | chj/util/DotGraph.py:128-130 | with both endpoints stored, the edge is appended once with its sanitized label, and an existing edge is kept |
| DotGraphs.DotGraph.LinesLayout | chj/util/DotGraph.py:134-145 | the text opens with the graph's name and the four settings lines, then lists every node and then every edge in insertion order, and closes the graph |
| ExceptionTables.ExceptionHandlers | chj/app/ExceptionTable.py:74-76 | exactly the handlers that carry a class index |
| ExceptionTables.FinallyHandlers | chj/app/ExceptionTable.py:74-78 | exactly the handlers without a class index |
| ExceptionTables.HandlersPartition | chj/app/ExceptionTable.py:74-78 | every handler goes into exactly one of the two lists: together they hold the handlers read, each as often as listed |
| ExceptionTables.Pc | chj/app/ExceptionTable.py:60 | a pc is printed right-justified in at least five characters |
| ExceptionTables.HandlerLineEnds | chj/app/ExceptionTable.py:63-68 | a handler line ends with the caught class name or "finally" |
| ExceptionTables.FinallyLines | chj/app/ExceptionTable.py:65-68 | one line per finally handler |
| ExceptionTables.FinallyLinesAt | chj/app/ExceptionTable.py:66-68 | the k-th finally line prints the k-th finally handler's three pcs and "finally" |
| ExceptionTables.FinallyLinesEnd | chj/app/ExceptionTable.py:67-68 | every finally line ends with "finally" |
| ExceptionTables.ExceptionLinesCount | chj/app/ExceptionTable.py:61-64 | one line per exception handler |
| ExceptionTables.ExceptionTable.constructor | chj/app/ExceptionTable.py:52-56 | a table holding exactly the exception handlers and the finally handlers read, each in file order |
| ExceptionTables.ExceptionTable.Initialize | chj/app/ExceptionTable.py:71-78 | each handler with a class index is appended to the exception handlers and every other one to the finally handlers, in file order |
| ExceptionTables.ExceptionTable.ToString | chj/app/ExceptionTable.py:58-69 | the exception lines, then the finally lines, joined by newlines |
| ExceptionTables.ExceptionLinesOf | chj/app/ExceptionTable.py:62-64 | the loop over the exception handlers yields exactly their lines |
| ExceptionTables.FinallyLinesOf | chj/app/ExceptionTable.py:66-68 | the loop over the finally handlers yields exactly their lines |
| FileUtil.PathJoinRelative | chj/util/fileutil.py:432-433 | joining a relative component onto a directory without a trailing slash inserts exactly one slash |
| FileUtil.TransformPlainName | chj/util/fileutil.py:423-427 | a method name without angle brackets that does not start with "lambda" is kept as it is |
| FileUtil.TransformLambdaName | chj/util/fileutil.py:423-427 | in a lambda's name every '$' becomes "__", and no '$' is left |
| FileUtil.TransformInit | chj/util/fileutil.py:424 | "<init>" becomes "__init__" |
| FileUtil.TransformClinit | chj/util/fileutil.py:423-427 | "<clinit>" becomes "__clinit__" |
| FileUtil.TransformKeepsSlashOut | chj/util/fileutil.py:423-427 | the transformed name holds no '/' when the method name held none, so it stays one path component |
| FileUtil.AnalysisDirs | chj/util/fileutil.py:432-439 | the analysis directory is the path plus "chanalysis", with "chdata" and "chapp" below it |
| FileUtil.ClassDirName | chj/util/fileutil.py:564 | a class's directory name holds no '$' (each one becomes "__dollarsign__") |
| FileUtil.ClassDirComponents | chj/util/fileutil.py:560-566 | a class's directory is the application directory, then one directory per package component, then the class's directory name |
| FileUtil.MethodsFileComponents | chj/util/fileutil.py:568-577 | a methods file lies in its class's directory: its path components are those of the application directory, the package components, the class directory name and one base name |
| FileUtil.TrailIdOfName | chj/util/fileutil.py:514-515 | the taint origin's id is read back from its trail file name, which starts with "tainttrails_" |
| FileUtil.TrailFilenames | chj/util/fileutil.py:517-520 | exactly the listed names that start with "tainttrails_", never more than were listed |
| FileUtil.TrailNameListed | chj/util/fileutil.py:517-520 | the trail file of any taint origin is among the trail names exactly when the directory lists it |
| FileUtil.SafeGet | chj/util/fileutil.py:409-414 | a missing attribute raises CHJError with the caller's message |
| FileUtil.ToInt | chj/util/fileutil.py:414 | the `int` conversion succeeds exactly when the text is ASCII decimal digits after an optional sign, and fails with ValueError otherwise |
| FileUtil.SafeGetStoredInt | chj/util/fileutil.py:409-414 | an integer stored in an attribute is read back by `safe_get` with `int` |
| FileUtil.SafeFind | chj/util/fileutil.py:416-421 | succeeds exactly when some child has the tag, giving such a child; otherwise raises CHJError with the caller's message |
| FileUtil.EngagementOf | chj/util/fileutil.py:773-775 | there is an engagement exactly when some engagement lists the application, and it is the first such engagement |
| FileUtil.GetEngagementFromName | chj/util/fileutil.py:771-782 | the first engagement listing the application; when none does, the not-found error with the message and every engagement's applications |
| FileUtil.AppsByEngagement | chj/util/fileutil.py:777-781 | the gathered applications of each engagement are exactly the engagements data |
| IndexedTables.RemoveFirst | chj/util/IndexedTable.py:160 | `list.remove` drops one occurrence of a present index and leaves a list without it unchanged, adding nothing |
| IndexedTables.RemoveFirstIncreasing | chj/util/IndexedTable.py:160 | removing a commitment keeps the reservations increasing and drops exactly that index |
| IndexedTables.IndexedTable.constructor | chj/util/IndexedTable.py:75-81 | an empty table with `next` at 1, no reservations and no checkpoint, valid and interning |
| IndexedTables.IndexedTable.Reset | chj/util/IndexedTable.py:83-88 | the table is empty again, whatever it held |
| IndexedTables.IndexedTable.SetCheckpoint | chj/util/IndexedTable.py:90-95 | without a checkpoint, sets it at `next` and returns it; with one, raises IndexedTableError and keeps it |
| IndexedTables.IndexedTable.RemoveCheckpoint | chj/util/IndexedTable.py:117 | the checkpoint is gone and the entries stay |
| IndexedTables.IndexedTable.ResetToCheckpoint | chj/util/IndexedTable.py:100-115 | without a checkpoint, CHJError and nothing changes; otherwise every non-reserved index from the checkpoint on and every key mapped at or above it is dropped, everything below is kept, and `next` returns to the checkpoint; it cannot fail when every index since the checkpoint was stored or reserved, and a missing one raises KeyError |
| IndexedTables.IndexedTable.DropIndicesFrom | chj/util/IndexedTable.py:105-108 | pops exactly the non-reserved indices from the checkpoint to `next`, stopping with the first one that is absent |
| IndexedTables.IndexedTable.DropKeysFrom | chj/util/IndexedTable.py:109-111 | keeps exactly the keys mapped below the checkpoint, with their indices (the evident intent of the loop) |
| IndexedTables.IndexedTable.Add | chj/util/IndexedTable.py:119-128 | a known key returns its index and changes nothing; a new key gets `next`, its object `f(next, key)`, and `next` goes up by one; interning is kept |
| IndexedTables.IndexedTable.HasKey | chj/util/IndexedTable.py:130 | true exactly for a key in the key table |
| IndexedTables.IndexedTable.GetIndex | chj/util/IndexedTable.py:132-136 | the index of a known key; CHJError for any other |
| IndexedTables.IndexedTable.Reserve | chj/util/IndexedTable.py:138-142 | returns `next`, appends it to the reservations and moves `next` on; the index holds no object yet |
| IndexedTables.IndexedTable.CommitReserved | chj/util/IndexedTable.py:156-162 | a reserved index gets its key and object and stops being reserved; any other index raises IndexedTableError and nothing changes |
| IndexedTables.IndexedTable.Size | chj/util/IndexedTable.py:164 | the size is one less than `next`, never negative |
| IndexedTables.IndexedTable.Retrieve | chj/util/IndexedTable.py:166-172 | the object at a stored index; IndexedTableError for any other |
| IndexedTables.IndexedTable.Items | chj/util/IndexedTable.py:150-154 | the entries, one per stored index, in increasing index order |
| IndexedTables.IndexedTable.Values | chj/util/IndexedTable.py:144-148 | the objects, one per stored index, in increasing index order |
| IndexedTables.IndexedTable.WriteXml | chj/util/IndexedTable.py:181-188 | one written node per stored object, in increasing index order |
| IndexedTables.IndexedTable.RetrieveByKey | chj/util/IndexedTable.py:174-179 | every key that passes the filter appears exactly once, with its object, and nothing else does |
| IndexedTables.IndexedTable.ReadXml | chj/util/IndexedTable.py:190-206 | a missing node raises IndexedTableError with the table's name and changes nothing; otherwise every object read is stored under its index and its key, later ones winning, and `next` moves above every index read |
| IndexedTables.IndexedTable.ValidAfterLoad | chj/util/IndexedTable.py:199-206 | loading objects that avoid the reserved indices keeps the table's invariant |
| IndexedTables.LoadFacts | chj/util/IndexedTable.py:199-206 | after loading, every object read is stored and keyed below `next`, untouched indices keep their objects, and every stored index is an old one or one read |
| IndexedTables.LoadKeepsBounds | chj/util/IndexedTable.py:199-206 | loading keeps every index below `next` and every key on a stored index, and leaves the reserved indices free when no object uses them |
| IndexedTables.LoadedObjectsFacts | chj/util/IndexedTable.py:202-204 | the loaded indices are exactly the indices of the objects read, each holding an object read with that index |
| IndexedTables.LoadedKeysFacts | chj/util/IndexedTable.py:201-203 | every object read has its key loaded, and every loaded key points at the index of some object read |
| IndexedTables.LoadedNextFacts | chj/util/IndexedTable.py:205-206 | `next` never goes down and ends above every index read |
| IndexedTables.DropKeysAsWrittenFails | chj/util/IndexedTable.py:109-111 | as written, the loop raises RuntimeError exactly when some key is mapped at or above the checkpoint, and keeps every key otherwise: no reset can remove a key added since the checkpoint |
| JavaMethods.SortedElements | chj/app/JavaMethod.py:86-88 | `sorted` on the pcs: exactly the elements, strictly increasing |
| JavaMethods.PositionOf | chj/app/JavaMethod.py:138 | `list.index`: the first position holding the value, or the length when it is absent |
| JavaMethods.NextInIncreasing | chj/app/JavaMethod.py:139-140 | in the sorted pcs the next entry is the next larger pc: nothing lies between |
| JavaMethods.LastInIncreasing | chj/app/JavaMethod.py:139-141 | the last sorted pc is the largest |
| JavaMethods.PcEntries | chj/app/JavaMethod.py:326-337 | one entry per instruction read, under its pc, in file order |
| JavaMethods.LoopEntries | chj/app/JavaMethod.py:295-297 | one entry per loop read, under its first pc, in file order |
| JavaMethods.BlockEntries | chj/app/JavaMethod.py:343-345 | one entry per cfg block read, under its first pc, in file order |
| JavaMethods.AssignAll | chj/app/JavaMethod.py:326-337 | the assignment loop yields the dictionary of the entries, a later entry for a pc replacing an earlier one |
| JavaMethods.CoveringCountBounds | chj/app/JavaMethod.py:93-98 | the loop depth is 0 exactly when no loop covers the pc, and the number of loops exactly when every loop does |
| JavaMethods.LoadedStrings | chj/app/JavaMethod.py:205-213 | never more loaded strings than instructions |
| JavaMethods.Containing | chj/app/JavaMethod.py:210 | exactly the entries whose string contains the substring |
| JavaMethods.LoadedStringsFiltered | chj/app/JavaMethod.py:205-213 | the loaded strings with a substring are the loaded strings without one, filtered on containing it |
| JavaMethods.LoadedStringsAreLoads | chj/app/JavaMethod.py:207-211 | every result is the pc and the constant of a string-constant load |
| JavaMethods.CalleesFromCalls | chj/app/JavaMethod.py:176-181 | every callee comes from the targets of a call instruction |
| JavaMethods.NoCallsNoCallees | chj/app/JavaMethod.py:176-181 | a method without call instructions has no callees |
| JavaMethods.BlockConditions | chj/app/JavaMethod.py:117-121 | at most one condition per block |
| JavaMethods.TaintedByPc | chj/app/JavaMethod.py:310-314 | a pc is present only with at least one taint node |
| JavaMethods.TaintedByPcMembers | chj/app/JavaMethod.py:310-314 | a node is listed under a pc exactly when it belongs to the method and is at that pc |
| JavaMethods.ReadElements | chj/app/JavaMethod.py:324-349 | the instructions by pc; the variable table and cfg when their elements are present; the exception table only when it has handlers; otherwise the parts are kept |
| JavaMethods.TaintNodesOf | chj/app/JavaMethod.py:307-315 | the loop over the taint nodes yields exactly the method's nodes grouped by pc |
| JavaMethods.JavaMethod.constructor | chj/app/JavaMethod.py:53-69 | the loops are keyed by first pc and the taint nodes grouped by pc (none without a taint dictionary); an abstract method reads no bytecode, any other one reads its instructions |
| JavaMethods.JavaMethod.ReadMethodBytecode | chj/app/JavaMethod.py:317-349 | nothing changes for an abstract method or once instructions are loaded; otherwise instructions, variable table, cfg and exception table are read as ReadElements says, leaving loops and taint alone |
| JavaMethods.JavaMethod.GetPcs | chj/app/JavaMethod.py:86-88 | exactly the pcs of the instructions, strictly increasing |
| JavaMethods.JavaMethod.GetNextPc | chj/app/JavaMethod.py:136-140 | ValueError exactly for a pc that is not an instruction's; otherwise the next larger pc, with none in between, or None at the last pc |
| JavaMethods.JavaMethod.GetLoopDepth | chj/app/JavaMethod.py:93-98 | the number of loops whose pc range covers the pc |
| JavaMethods.JavaMethod.GetLoop | chj/app/JavaMethod.py:160-162 | the loop heading at the pc exactly when the pc is a loop head |
| JavaMethods.JavaMethod.GetVariableName | chj/app/JavaMethod.py:146-158 | with the table stored as intended: the name itself without a table, for a name not starting with 'r', or without a table entry; otherwise the name of the table entry covering that slot at that pc |
| JavaMethods.JavaMethod.GetVariableNameAsWritten | chj/app/JavaMethod.py:146-148 | as written, every call fails before any lookup |
| JavaMethods.JavaMethod.GetTaintedVariables | chj/app/JavaMethod.py:193-197 | the taint nodes at the pc, none when there are none |
| JavaMethods.JavaMethod.GetLoadedStrings | chj/app/JavaMethod.py:205-213 | the loop yields exactly the loaded strings |
| JavaMethods.JavaMethod.GetCalleeCmsixs | chj/app/JavaMethod.py:176-181 | the loop yields exactly the call targets of the call instructions, in order |
| JavaMethods.JavaMethod.GetConditions | chj/app/JavaMethod.py:114-122 | none for an abstract method; a failure without a cfg; otherwise the block conditions |
| JavaMethods.JavaMethod.CalleesNeedCalls | chj/app/JavaMethod.py:173-183 | a method with a callee has a call instruction, so `has_calls` holds |
| JTermDictionaries.TableNamesDistinct | chj/index/JTermDictionary.py:75-83 | the nine tables have nine different names |
| JTermDictionaries.NumericalKeyInjective | chj/index/JTermDictionary.py:122-126 | two integers share a numerical key exactly when they are equal, so each integer is interned once |
| JTermDictionaries.NumericalValue | chj/index/JTerm.py:117 | a numerical record's value is the integer its first tag spells |
| JTermDictionaries.ConsistentLookup | chj/util/IndexedTable.py:119-128 | in a table whose records sit under their own index and key, the record found for a key has exactly those tags and args |
| JTermDictionaries.ConsistentInterns | chj/util/IndexedTable.py:119-128 | such a table interns: distinct keys have distinct indices |
| JTermDictionaries.RepresentsGrows | chj/index/JTermDictionary.py:147-163 | tables that only gain entries keep representing the terms they represented |
| JTermDictionaries.RepresentsArithmetic | chj/index/JTermDictionary.py:156-160 | an "ar" record with the operator and the operands' indices represents the arithmetic term of represented operands |
| JTermDictionaries.DecodeNode | chj/index/JTermDictionary.py:221-227 | a decoded record is `get_rep` of the node; in the term table it succeeds only with a first tag among the constructors' tags (IndexError without tags, KeyError for an unknown one); other tables take `get_rep` as it is; the record is passed through the base initialiser as intended (`Records.RecordInit`) |
| JTermDictionaries.DecodeNodes | chj/util/IndexedTable.py:199-200 | one record per node on success |
| JTermDictionaries.DecodeNodesIsDecodeAll | chj/util/IndexedTable.py:199-200 | decoding the nodes is the generic decoding loop with the table's `get_value` |
| JTermDictionaries.DecodeNodesFirstFailure | chj/util/IndexedTable.py:199-200 | on success every node decodes to its record; a failure is the error of the first node that fails, all before it decoding |
| JTermDictionaries.WrittenNodes | chj/index/JTermDictionary.py:171-176 | one written node per record, each `write_xml` of that record |
| JTermDictionaries.DecodeWrittenNodes | chj/index/JTermDictionary.py:171-227 | the nodes written for records with encodable tags (and term tags in the term table) read back as the same records |
| JTermDictionaries.DecodeAllOk | chj/util/IndexedTable.py:199-200 | when every node decodes to its record, the decoded list is the records |
| JTermDictionaries.Intern | chj/util/IndexedTable.py:119-128 | a known key returns its index and changes nothing; a new key gets `next` and the record of those tags and args; the table keeps its invariant, interning and its records in place |
| JTermDictionaries.NewTables | chj/index/JTermDictionary.py:75-83 | nine fresh empty tables with the nine names, in order |
| JTermDictionaries.ArithmeticTagsEncodable | chj/index/JTermDictionary.py:157 | the tags of an arithmetic record can be written and read back when the operator holds no comma |
| JTermDictionaries.ResetAndRead | chj/index/JTermDictionary.py:189-191 | a reset table read from the document stores exactly the decoded records by index and their keys, and fails with the reader's error otherwise |
| JTermDictionaries.LoadRecords | chj/util/IndexedTable.py:199-206 | loading records into an empty table leaves it storing each record under its index, a later one replacing an earlier, and each key at the index of its last record, with nothing else |
| JTermDictionaries.LoadedContents | chj/util/IndexedTable.py:199-206 | a loaded table stores an index exactly when some record has it, each under a record with that index, and every record's key pointing at the index of a record |
| JTermDictionaries.NamedTablesDiffer | chj/index/JTermDictionary.py:75-83 | tables with different names are different objects |
| JTermDictionaries.JTermDictionary.constructor | chj/index/JTermDictionary.py:73-94 | nine empty, valid tables, the term tables consistent |
| JTermDictionaries.JTermDictionary.TermTablesDiffer | chj/index/JTermDictionary.py:77-79 | the numerical and the term table are different objects |
| JTermDictionaries.JTermDictionary.OthersDiffer | chj/index/JTermDictionary.py:75-83 | every table differs from the eight others |
| JTermDictionaries.JTermDictionary.Get | chj/index/JTermDictionary.py:96-120 | the record at a stored index of the named table; IndexedTableError otherwise |
| JTermDictionaries.JTermDictionary.IndexNumerical | chj/index/JTermDictionary.py:122-126 | the index of the integer's numerical record: unchanged when known, otherwise a new record of its decimal text under `next` |
| JTermDictionaries.JTermDictionary.NumericalIndicesDistinct | chj/index/JTermDictionary.py:122-126 | two integers share a numerical index exactly when they are equal |
| JTermDictionaries.JTermDictionary.MkNumerical | chj/index/JTermDictionary.py:128-129 | the numerical record of the integer, whose value is that integer |
| JTermDictionaries.JTermDictionary.IndexConstantJTerm | chj/index/JTermDictionary.py:147-151 | the index of the constant term over the integer's numerical index; nothing changes when both are known |
| JTermDictionaries.JTermDictionary.MkConstantJTerm | chj/index/JTermDictionary.py:153-154 | the constant term of the integer, represented by the tables |
| JTermDictionaries.JTermDictionary.IndexArithmeticJTerm | chj/index/JTermDictionary.py:156-160 | the index of the arithmetic record of the operator over the two operand indices; nothing changes when it is known |
| JTermDictionaries.JTermDictionary.MkArithmeticJTerm | chj/index/JTermDictionary.py:162-163 | the arithmetic term of the operator over the two operands, represented by the tables when they are |
| JTermDictionaries.JTermDictionary.AddTerms | chj/index/JTerm.py:188-195 | `add` as AddOutcome decides: the same term when adding zero, a folded constant for two constants, an interned "add" term otherwise, and None only for float arithmetic |
| JTermDictionaries.JTermDictionary.DivTerms | chj/index/JTerm.py:197-201 | `div` as DivOutcome decides: the same term when dividing by one, an interned "div" term otherwise, and None only for float arithmetic |
| JTermDictionaries.JTermDictionary.ReadXmlJTerm | chj/index/JTermDictionary.py:165-166 | fails when the attribute is missing; a result is the term record stored at the index the attribute spells |
| JTermDictionaries.JTermDictionary.Initialize | chj/index/JTermDictionary.py:187-191 | without a document nothing changes; otherwise every table is reset and stores exactly its decoded records by index and their keys, or the error is that of the first table that fails |
| JTermDictionaries.DecodeNodeAsWritten | chj/index/JTerm.py:47-51 | as written no node decodes: `get_rep`'s error is passed on, the term table's tag errors come first, and every other node raises TypeError in the base initialiser |
| JTerms.SymbolicDependencies | chj/index/JTerm.py:414-416 | a term depends only on symbolic constants |
| JTerms.HasSymbolicDependencyIffListed | chj/index/JTerm.py:414-420 | `has_symbolic_dependency` holds exactly when one of the listed dependencies has the index of the constant: the two queries agree |
| JTerms.OpString | chj/index/JTerm.py:30-45 | the four arithmetic operators print as one symbol between spaces; any other operator prints as itself |
| JTerms.ToString | chj/index/JTerm.py:456-458 | an arithmetic expression prints in parentheses |
| JTerms.ConstantToStringParses | chj/index/JTerm.py:207 | the text of an integer constant reads back as its value |
| JTerms.AddOutcome | chj/index/JTerm.py:75-79 | `add` either keeps the receiver or composes the two operands, in either order (a constant first) |
| JTerms.DivOutcome | chj/index/JTerm.py:81-83 | `div` never folds: it keeps the dividend or composes dividend and divisor in order |
| JTerms.AddZero | chj/index/JTerm.py:76 | adding zero to a symbolic term gives the term itself; a constant plus zero folds to its own value |
| JTerms.AddConstants | chj/index/JTerm.py:188-191 | two integer constants fold to their sum, in either order |
| JTerms.AddPutsConstantFirst | chj/index/JTerm.py:75-79 | adding a constant and a non-constant composes them with the constant first, whichever is the receiver |
| JTerms.DivByOne | chj/index/JTerm.py:81-82 | dividing a term by the constant one gives the term itself |
| JTerms.ListArgs | chj/index/JTerm.py:499-500 | a list's arguments are the indices of its terms, in order |
| JTerms.ListGetConstant | chj/index/JTerm.py:508-512 | a constant exactly for a list holding one integer constant, and it is that constant's value |
| JTerms.ListTopNotConstant | chj/index/JTerm.py:506-509 | a list is top exactly when it is empty, and then it is not constant |
| JTerms.TermsDependencies | chj/index/JTerm.py:517-518 | the terms' dependencies are symbolic constants |
| JTerms.ListDependencies | chj/index/JTerm.py:517-518 | a list's dependencies are symbolic constants |
| JTerms.TermsDependenciesMembers | chj/index/JTerm.py:517-518 | a constant is a dependency of the list exactly when it is one of some term of the list |
| JTerms.FirstSymbolic | chj/index/JTerm.py:520-522 | a term exactly when some term of the list is symbolic, and it is one of them |
| JTerms.ListSymbolicExpr | chj/index/JTerm.py:514-522 | a symbolic term of the list exactly when the list is symbolic |
| JTerms.TermStrings | chj/index/JTerm.py:524 | one text per term, in order |
| JTerms.ListToString | chj/index/JTerm.py:524 | an empty list prints as nothing; a constant list prints as its value |
| JTerms.LbOpenAsWrittenMissesRange | chj/index/JTerm.py:574-575 | a range without lower bound and with upper bound 7 is lower-open, yet the predicate as written rejects it |
| JTerms.RangeGetValue | chj/index/JTerm.py:544-546 | a value exactly for a value range: the lower bounds' constant, with a constant upper bound too |
| JTerms.RangeGetRange | chj/index/JTerm.py:577-580 | a pair exactly for a constant range: the lower and the upper constant |
| JTerms.RangeShapes | chj/index/JTerm.py:541-575 | a value is a range; a top range is no range and not open on either side; a range is not open; no range is open on both sides |
| JTerms.RangeUbDependencies | chj/index/JTerm.py:538-539 | the upper bounds' dependencies are symbolic constants |
| JTerms.RangeToString | chj/index/JTerm.py:594-611 | "T" for top, the value for a value range, "[lb; ub]" for any other constant range |
| JTerms.RangeToStringDistinguishes | chj/index/JTerm.py:594-599 | a value range's text reads back as its value, any other constant range's text starts with '[', and "T" reads as no number |
| JValueTypes.GetScalarSize | chj/index/JValueTypes.py:107-111 | a value takes 8 bytes exactly when it is a long or a double, 4 otherwise |
| JValueTypes.ObjectTypeToString | chj/index/JObjectTypes.py:81-99 | a class object type prints as its class name |
| JValueTypes.ValueTypeToString | chj/index/JValueTypes.py:95-123 | a basic type prints as its type letter |
| JValueTypes.Classification | chj/index/JValueTypes.py:47-121 | the base kind answers no to every query with size 4; object value type, object type and object coincide; an array type is an object; only basic types are scalar and only they can be 8 wide, as "L" or "D" |
| Loops.GetMaxIterations | chj/app/Loop.py:43-50 | no bounds when the max-iterations element is absent; otherwise only bounds the element lists |
| Loops.ConstantTerms | chj/app/Loop.py:53 | exactly the constant terms of the list |
| Loops.GetConstantBounds | chj/app/Loop.py:52-53 | exactly the constant bounds among the loop's bounds |
| Loops.BoundedIffConstantBound | chj/app/Loop.py:67-69 | a loop is bounded exactly when one of its bounds is a constant |
| Loops.MaxValue | chj/app/Loop.py:57 | the largest value among nonempty constant terms: one of them, and no smaller than any |
| Loops.GetMaxBound | chj/app/Loop.py:55-57 | a bound exactly when the loop is bounded, and it is the largest constant bound |
| Loops.GetBoundCases | chj/app/Loop.py:59-65 | "?" exactly when unbounded, "MAX" exactly when the largest bound is at least 2147483645, and otherwise decimal text that reads back as the largest bound |
| LoopSummaries.ReadSources | chj/reporting/LoopSummary.py:39-46 | no sources means the empty list; given sources are converted to integers, an error exactly when one of them is not a number |
| LoopSummaries.ReadSourcesRoundTrip | chj/reporting/LoopSummary.py:46 | the decimal texts of any integers read back as those integers |
| LoopSummaries.Matching | chj/reporting/LoopSummary.py:140-142 | the origins kept are exactly those among the sources, no more of them than there are origins |
| LoopSummaries.GetTargetSources | chj/reporting/LoopSummary.py:139-145 | the loop builds the text of the matching origins, "-" when there are none |
| LoopSummaries.TargetSourcesMeaning | chj/reporting/LoopSummary.py:139-145 | "-" exactly when no origin is a source; otherwise the text reads back as the matching origins, in order |
| LoopSummaries.Marks | chj/reporting/LoopSummary.py:149-154 | one mark per loop, in order |
| LoopSummaries.GetLoopTaints | chj/reporting/LoopSummary.py:147-155 | the loop builds the loops' marks joined by commas |
| LoopSummaries.LoopTaintsMeaning | chj/reporting/LoopSummary.py:134-155 | for a method with loops, the text splits into one mark per loop: '+' exactly when the loop counter has a taint node from an included origin (all origins when no sources are given), '_' otherwise |
| LoopSummaries.Bounds | chj/reporting/LoopSummary.py:53 | one bound text per loop, in order |
| LoopSummaries.LoopDictionary | chj/reporting/LoopSummary.py:48-62 | the keys are the indices of the methods that have loops |
| LoopSummaries.AsDictionary | chj/reporting/LoopSummary.py:48-62 | the loop over the methods builds the loop dictionary |
| LoopSummaries.LoopDictionaryKeys | chj/reporting/LoopSummary.py:50-51 | an index is a key exactly when some method with that index has a positive loop count |
| LoopSummaries.LoopDictionaryLastWins | chj/reporting/LoopSummary.py:55-61 | the entry of an index is the record of the last method with loops under that index: count, depth, bounds, taint marks and name |
| LoopSummaries.RowsMembers | chj/reporting/LoopSummary.py:69-79 | a report row is there exactly when it is the row of some method with loops |
| LoopSummaries.RowsPrefixMembers | chj/reporting/LoopSummary.py:69-79 | after the first n methods, a row is collected exactly when it belongs to one of them |
| LoopSummaries.RowsLast | chj/reporting/LoopSummary.py:69-79 | each further method adds its own row, if it has loops, and nothing else |
| LoopSummaries.RowLines | chj/reporting/LoopSummary.py:82-87 | one line per row, in order |
| LoopSummaries.CollectRows | chj/reporting/LoopSummary.py:69-79 | the loop over the methods collects the report rows |
| LoopSummaries.ToString | chj/reporting/LoopSummary.py:64-88 | header, a line of 80 dashes, then one line per row in order of decreasing depth |
| LoopSummaries.RowLinesSnoc | chj/reporting/LoopSummary.py:82-87 | each further row adds its own line at the end |
| LoopSummaries.ReportOrder | chj/reporting/LoopSummary.py:82 | the report rows are a permutation of the collected rows, by decreasing maximum depth, and each is the row of some method with loops |
| LoopSummaries.IncludedMatching | chj/reporting/LoopSummary.py:134-145 | once sources are requested, an origin counts for the loop taints exactly when `_get_target_sources` keeps it |
| JMethodDescriptorTypes.HasReturnValue | chj/index/JMethodDescriptorTypes.py:59 | an index error exactly for an empty record; otherwise true exactly when the first argument is 1 |
| JMethodDescriptorTypes.ReturnType | chj/index/JMethodDescriptorTypes.py:61-65 | a return type exactly when the flag is 1, and it is the second argument; an index error when the record is too short for it |
| JMethodDescriptorTypes.ArgumentTypes | chj/index/JMethodDescriptorTypes.py:67-71 | the arguments after the return type when the flag is 1, after the flag otherwise; an index error only for an empty record |
| JMethodDescriptorTypes.Texts | chj/index/JMethodDescriptorTypes.py:75 | the text of each argument type, in order |
| JMethodDescriptorTypes.EncodeRoundTrip | chj/index/JMethodDescriptorTypes.py:59-76 | a descriptor written from a return type and argument types reads back as them, and prints its arguments comma-joined in parentheses followed by the return type |
| JMethodDescriptorTypes.DecodeEncode | chj/index/JMethodDescriptorTypes.py:59-71 | a readable descriptor with flag 0 or 1 is written back as itself |
| JMethodDescriptorTypes.ValueType | chj/index/JMethodDescriptorTypes.py:88 | the first argument; an index error exactly for an empty record |
| JMethodDescriptorTypes.ValueDescriptorToString | chj/index/JMethodDescriptorTypes.py:90 | "descr:" followed by the text of the value type |
| MethodSummarySignatures.Tagged | chj/libsum/MethodSummarySignature.py:44 | `findall`: exactly the children with the tag, in document order |
| MethodSummarySignatures.FirstTagged | chj/libsum/MethodSummarySignature.py:46-48 | `find`: the position of the first child with the tag, past the end when there is none |
| MethodSummarySignatures.Texts | chj/libsum/MethodSummarySignature.py:53 | the texts of all argument types, in order, and an error exactly when one of them has no text |
| MethodSummarySignatures.TypesOf | chj/libsum/MethodSummarySignature.py:44 | the field type of each argument element, in order |
| MethodSummarySignatures.TextsEncode | chj/libsum/MethodSummarySignature.py:53 | with the Java Virtual Machine base-type letters, the joined argument texts are the descriptor encoding of the argument types |
| MethodSummarySignatures.ToStringEncodes | chj/libsum/MethodSummarySignature.py:51-53 | a signature prints as the method descriptor of its argument and return types |
| MethodSummarySignatures.ParseEncodeArgs | chj/libsum/MethodSummarySignature.py:53 | the encoded argument types, followed by ')', parse back to the same types and the rest of the text |
| MethodSummarySignatures.ParseEncodeMethod | chj/libsum/MethodSummarySignature.py:51-53 | a method descriptor parses back to the method type it encodes |
| MethodSummarySignatures.SignatureTextInjective | chj/libsum/MethodSummarySignature.py:51-53 | two signatures with the same text have the same argument and return types |
| MethodSummarySignatures.NoReturnText | chj/libsum/MethodSummarySignature.py:52 | a signature without a return element ends in "V" |
| MethodSummarySignatures.ArgTexts | chj/libsum/SummaryValueType.py:29-63 | `long` prints as "L" with the table as written and "J" with the Java Virtual Machine table; an object type prints as "L", its class name and ';' |
| MethodSummarySignatures.SignatureAsWrittenCollides | chj/libsum/MethodSummarySignature.py:51-53 | with the table as written, the signatures (long, X) and (LX) both print as "(LLX;)V"; with the Java Virtual Machine table they print differently |
| MethodSummarySignatures.CollidingTypesDiffer | chj/libsum/MethodSummarySignature.py:44-48 | those two signatures have different argument types |
| ObjectSizes.ObjectSize.constructor | chj/app/ObjectSize.py:30-35 | a new size has no scalar bytes, no objects and no arrays |
| ObjectSizes.ObjectSize.AddScalar | chj/app/ObjectSize.py:37-38 | the scalar count grows by the amount; objects and arrays are unchanged |
| ObjectSizes.ObjectSize.AddObject | chj/app/ObjectSize.py:40-41 | the object type is appended; nothing else changes |
| ObjectSizes.ObjectSize.AddArray | chj/app/ObjectSize.py:43-44 | the array field is appended; nothing else changes |
| ObjectSizes.ObjectSize.AddField | chj/app/ObjectSize.py:46-49 | the field's scalar size is added, its object type appended when it is an object, the field appended to the arrays when it is an array |
| ObjectSizes.ObjectSize.AddObjectSize | chj/app/ObjectSize.py:51-54 | the other size's scalar count is added and its objects and arrays appended, in order |
| ObjectSizes.FieldsScalar | chj/app/ObjectSize.py:47 | fields added one by one take at least 4 bytes each |
| ObjectSizes.FieldsObjects | chj/app/ObjectSize.py:48 | at most one object type per field |
| ObjectSizes.SizeOfFields | chj/app/ObjectSize.py:46-49 | adding fields in order to a fresh size gives their total scalar size and their object types in order |
| ObjectSizes.FieldsObjectsMembers | chj/app/ObjectSize.py:48 | an object type is collected exactly when some field of the list is an object of that type |
| Records.GetKey | chj/util/IndexedTable.py:61-62 | the tag part is empty exactly when there are no tags or one empty tag; the argument part is empty exactly when there are no arguments |
| Records.JoinEmpty | chj/index/JDictionaryRecord.py:51 | a joined list is empty exactly when the list is empty or holds one empty string |
| Records.KeyOf | chj/index/JDictionaryRecord.py:51 | a record's key is the key of its tags and arguments |
| Records.WriteXml | chj/index/JDictionaryRecord.py:53-57 | `ix` is set to the decimal index; `t` and `a` are set only when their key part is non-empty, to that part; every other attribute is kept and no other is added |
| Records.GetRep | chj/util/IndexedTable.py:41-59 | an error when `ix` is missing; otherwise the index reads back from `ix`, no `t` gives no tags and a missing or empty `a` gives no arguments |
| Records.RepRoundTrip | chj/util/IndexedTable.py:41-62 | a record whose tags are comma-free and not a single empty tag, written to a fresh node, reads back as itself |
| Records.KeyInjective | chj/util/IndexedTable.py:61-62 | for such tags, two records have the same key exactly when they have the same tags and arguments |
| Records.DecodeAll | chj/util/IndexedTable.py:199-200 | on success one decoded value per child, each the child's own decoding |
| Records.DecodeAllFirstFailure | chj/util/IndexedTable.py:199-200 | a failure is the error of the first child that fails, every earlier child decoding |
| Records.KeyedRegistry.constructor | chj/index/JDictionaryRecord.py:59 | the registry starts empty |
| Records.KeyedRegistry.Register | chj/index/JDictionaryRecord.py:62-66 | the class is registered under its direct superclass and the tag, and returned unchanged |
| Records.KeyedRegistry.Construct | chj/index/JDictionaryRecord.py:68-78 | a record of the registered class for (superclass, first tag) with the given index, tags and arguments; "unknown type: " and the tag when none is registered, an index error when there are no tags |
| Records.TagRegistry.constructor | chj/app/BcDictionaryRecord.py:58 | the registry starts empty |
| Records.TagRegistry.Register | chj/app/BcDictionaryRecord.py:61-65 | the class is registered under the tag alone and returned unchanged |
| Records.TagRegistry.Construct | chj/app/BcDictionaryRecord.py:67-76 | a record of the class registered for the first tag; "unknown type: " and the tag when none is registered, an index error when there are no tags |
| Records.TagRegistry.IsBytecode | chj/app/BcDictionaryRecord.py:78-86 | true exactly when a class is registered for the first tag |
| Records.TagRegistry.IsBytecodeIffConstructs | chj/app/BcDictionaryRecord.py:67-86 | a record is a bytecode exactly when the registry can construct it |
| Records.InitRecord | chj/index/JDictionaryRecord.py:41-49 | a call with other than four arguments after `self` raises TypeError; four arguments with the index, tags and args in the last three places give the record of those three |
| Records.RecordInitAsWritten | chj/app/Bytecode.py:30-34 | the base initialiser called without the type dictionary, as the term, bytecode, call-graph target and type record bases call it, raises TypeError for every record |
| Records.RecordInit | chj/index/JDictionaryRecord.py:41-49 | the base initialiser called with the type dictionary first keeps exactly the given index, tags and args |
| Recursions.ElemsSnoc | chj/reporting/Recursion.py:44-45 | adding one more target adds exactly its method to the set |
| Recursions.CmsTargets | chj/reporting/Recursion.py:43 | one method per application target class, in order, each `get_cmsix` of the class and the callee |
| Recursions.EdgeCalleesSpec | chj/reporting/Recursion.py:43-45 | an edge leads to y exactly when y is the method of the callee in one of the edge's target classes that is in the application |
| Recursions.AppEdges | chj/reporting/Recursion.py:36-48 | each caller has at most one entry |
| Recursions.HasAppEdgeSnoc | chj/reporting/Recursion.py:41-42 | one more edge gives its caller an entry exactly when it has application targets |
| Recursions.CallsThroughSnoc | chj/reporting/Recursion.py:41-45 | one more edge adds exactly its own application callees to its caller |
| Recursions.AppEdgesKeys | chj/reporting/Recursion.py:41-42 | a caller has an entry exactly when one of its edges has application targets |
| Recursions.AppEdgesCalls | chj/reporting/Recursion.py:36-48 | a caller's entry holds exactly the application callees of all its edges |
| Recursions.AddAll | chj/reporting/Recursion.py:44-45 | the loop adds every target's method to the callees |
| Recursions.AddCallees | chj/reporting/Recursion.py:41-45 | the caller's entry, created empty when missing, grows by the edge's callees |
| Recursions.GetAppEdges | chj/reporting/Recursion.py:36-48 | the loop over the edges builds the application edges |
| Recursions.SelfRecursiveSpec | chj/reporting/Recursion.py:50-57 | a method is listed exactly when it calls itself, and each is listed once |
| Recursions.CallerSeen | chj/reporting/Recursion.py:62-65 | every caller of a call is a key of the dictionary |
| Recursions.NamedCalls | chj/reporting/Recursion.py:91 | each self-recursive method paired with its signature text, in order |
| Recursions.NamedPairs | chj/reporting/Recursion.py:92-93 | each mutual pair with both signature texts, in order |
| Recursions.NamedCycles | chj/reporting/Recursion.py:94-96 | each cycle with its three signature texts, in order |
| Recursions.NoDuplicatesSnoc | chj/reporting/Recursion.py:60-68 | appending an element not yet present keeps a list free of duplicates |
| Recursions.Enumerate | chj/reporting/Recursion.py:92-93 | iterating over a set visits each of its elements exactly once |
| Recursions.ReportLines | chj/reporting/Recursion.py:100-122 | the "Direct recursion" heading and one line per method, the "Mutual recursion" heading and one "==>" line per pair, the "Cycle of 2" heading and one "==> ... ====>" line per cycle |
| Recursions.SubcalleeCycles | chj/reporting/Recursion.py:80-83 | for one caller and callee, the cycles added are exactly those closing through a subcallee, none twice |
| Recursions.Recursion.constructor | chj/reporting/Recursion.py:32-34 | the application edges are those `get_appedges` builds from the call-graph edges |
| Recursions.Recursion.SelfRecursiveCalls | chj/reporting/Recursion.py:50-57 | the methods that call themselves, in the order of their entries |
| Recursions.Recursion.MutualRecursiveCalls | chj/reporting/Recursion.py:59-70 | exactly the pairs of different methods that call each other, the smaller first |
| Recursions.Recursion.Recursive2Cycles | chj/reporting/Recursion.py:72-85 | exactly the triples where a method calls a different one, which calls a third, which calls the first back; none twice |
| Recursions.Recursion.AsDictionary | chj/reporting/Recursion.py:87-98 | the three lists with signature texts, the pairs and cycles being exactly the mutual pairs and the 2-cycles, none twice |
| Recursions.Recursion.ToString | chj/reporting/Recursion.py:100-122 | the report lines of the self-recursive methods, the mutual pairs and the 2-cycles, joined by newlines |
| SideChannelChecks.IntAttribute | chj/cost/SideChannelCheck.py:50-63 | a missing attribute raises "<name> missing from xml"; otherwise its integer value, an error exactly when the text is not a number |
| SideChannelChecks.DecisionPc | chj/cost/SideChannelCheck.py:50-55 | "decision-pc missing from xml" when the attribute is absent; otherwise the pc it holds |
| SideChannelChecks.ObservationPc | chj/cost/SideChannelCheck.py:58-63 | "observation-pc missing from xml" when the attribute is absent; otherwise the pc it holds |
| SideChannelChecks.GetFullPaths | chj/cost/SideChannelCheck.py:70-72 | the error of the decision pc first, then that of the observation pc; otherwise every path returned leads from the decision pc to the observation pc along cfg edges and holds no node more than twice |
| SideChannelChecks.PathsThroughPc | chj/cost/SideChannelCheck.py:74-76 | the paths whose next-to-last node is the pc; an index error exactly when some path has fewer than two nodes |
| SideChannelChecks.EnumeratedPathsThroughPc | chj/cost/SideChannelCheck.py:74-76 | on enumerated paths the selection never fails |
| SideChannelChecks.MaximalSets | chj/cost/SideChannelCheck.py:83-86 | exactly the node sets that no set of the collection strictly contains |
| SideChannelChecks.WithNodeSetIn | chj/cost/SideChannelCheck.py:87-90 | the paths, in order, whose node set is one of the given sets |
| SideChannelChecks.MaximalPathsMembers | chj/cost/SideChannelCheck.py:78-91 | a path is kept exactly when no path of the list strictly contains its node set |
| SideChannelChecks.MaximalPathsNonEmpty | chj/cost/SideChannelCheck.py:78-91 | a nonempty list of paths keeps at least one |
| SideChannelChecks.LongestFullPathsThroughPc | chj/cost/SideChannelCheck.py:78-91 | the loops keep the maximal paths among those through the pc, failing exactly when the selection fails |
| SideChannelChecks.LongestAreThroughPc | chj/cost/SideChannelCheck.py:78-91 | every path kept passes through the pc just before its end, and some path is kept when some path passes through the pc |
| SideChannelChecks.StepCondition | chj/cost/SideChannelCheck.py:98-107 | a missing block is an error; a branch before the last node gives its pc with the loop condition and bound when it heads a loop that the path re-enters, else its false condition when the path goes on to the next pc and its true condition otherwise |
| SideChannelChecks.ConditionsFrom | chj/cost/SideChannelCheck.py:98-108 | fewer conditions than nodes left in the path |
| SideChannelChecks.ConditionsFromOrigin | chj/cost/SideChannelCheck.py:98-108 | every condition collected is the condition of some node of the path before its last |
| SideChannelChecks.ConditionsFromCons | chj/cost/SideChannelCheck.py:98-108 | the conditions of a path are those of its first node followed by those of the rest, in order |
| SideChannelChecks.GetConditionsInPath | chj/cost/SideChannelCheck.py:93-108 | none for an empty path; an error when the method has no control-flow graph; fewer conditions than nodes |
| SideChannelChecks.ConditionsFromBranches | chj/cost/SideChannelCheck.py:98-107 | each condition is labelled with the pc of a node of the path, not the last, whose block has conditions |
| SideChannelChecks.NoConditionsWithoutBranches | chj/cost/SideChannelCheck.py:98-100 | a path through blocks without conditions has no conditions |
| StaticFieldReports.EntriesOf | chj/reporting/StaticFields.py:47 | one entry per access of a method, in order, carrying the method index, the pc, the class and the field |
| StaticFieldReports.FlattenNext | chj/reporting/StaticFields.py:45-47 | the accesses of one more method follow those of the methods before it |
| StaticFieldReports.GroupedSnoc | chj/reporting/StaticFields.py:50-52 | one more access is recorded on top of the dictionary built from the earlier ones |
| StaticFieldReports.AtRecord | chj/reporting/StaticFields.py:50-52 | recording an access sets the entry for its class name, field name and method to its pc and method name, and leaves every other entry alone |
| StaticFieldReports.GroupedAbsent | chj/reporting/StaticFields.py:45-52 | an entry is missing exactly when no access matches its class name, field name and method |
| StaticFieldReports.GroupedLastWins | chj/reporting/StaticFields.py:52 | an entry holds the pc of the last matching access |
| StaticFieldReports.Enter | chj/reporting/StaticFields.py:50-52 | the class and field levels are created when missing, then the access is recorded |
| StaticFieldReports.GroupByName | chj/reporting/StaticFields.py:45-52 | the loops over methods and accesses build the dictionary of all accesses in order |
| StaticFieldReports.AsDictionary | chj/reporting/StaticFields.py:41-65 | exactly the keys "initdict" and "readerdict", holding the grouped initializers and readers |
| StaticFieldReports.CollectedSnoc | chj/reporting/StaticFields.py:76-78 | one more access is appended to the list of its class and field |
| StaticFieldReports.CollectedMeaning | chj/reporting/StaticFields.py:72-78 | the list of a class and field holds its accesses in order, and is missing when there are none; a class is a key exactly when some access is to it |
| StaticFieldReports.AppendEntry | chj/reporting/StaticFields.py:76-78 | the class and field levels are created when missing, then the access appended |
| StaticFieldReports.CollectByIndex | chj/reporting/StaticFields.py:70-86 | the loops over methods and accesses collect all accesses in order |
| StaticFieldReports.KeysOf | chj/reporting/StaticFields.py:88 | the keys of a dictionary in order |
| StaticFieldReports.SortedKeysOrder | chj/reporting/StaticFields.py:88-93 | the sorted keys are ascending and a permutation of the keys |
| StaticFieldReports.OccLines | chj/reporting/StaticFields.py:96-98 | one line per occurrence |
| StaticFieldReports.FieldBlockReaders | chj/reporting/StaticFields.py:94-103 | a field block is its heading, its initializer lines, the "readers:" line and the reader lines, if any |
| StaticFieldReports.ClassBlocksSnoc | chj/reporting/StaticFields.py:88-103 | each further class adds its own block at the end |
| StaticFieldReports.FieldBlocksSnoc | chj/reporting/StaticFields.py:93-103 | each further field adds its own block at the end |
| StaticFieldReports.AppendOccurrences | chj/reporting/StaticFields.py:96-98 | the loop appends the occurrence lines |
| StaticFieldReports.AppendField | chj/reporting/StaticFields.py:94-103 | the field's block is appended, with readers only when the reader dictionary has the class and field |
| StaticFieldReports.AppendFields | chj/reporting/StaticFields.py:93-103 | the blocks of the class's fields are appended in ascending order |
| StaticFieldReports.AppendClass | chj/reporting/StaticFields.py:89-103 | the class's separator lines, name and field blocks are appended |
| StaticFieldReports.Report | chj/reporting/StaticFields.py:88-103 | the report lines of the classes in ascending order |
| StaticFieldReports.ToString | chj/reporting/StaticFields.py:67-104 | the report of the collected initializers and readers, joined by newlines |
| Strings.ParseIntToString | chj/util/xmlutil.py:48 | `int(x)` reads back every integer written as decimal text |
| Strings.IntToStringInjective | chj/util/xmlutil.py:48 | two integers have the same decimal text exactly when they are equal |
| Strings.JoinSplit | chj/util/xmlutil.py:48 | joining the pieces of `split(',')` with the separator gives the text back |
| Strings.SplitJoin | chj/util/xmlutil.py:48 | splitting a join of pieces free of the separator gives the pieces back |
| Strings.ParseIntListJoin | chj/util/xmlutil.py:48 | a non-empty list of integers written as a comma-separated `ixs` value reads back as the list |
| Strings.ParseIntAccepts | chj/util/xmlutil.py:48 | `int(x)` on ASCII text succeeds exactly on a run of decimal digits after an optional sign, negative only after '-' |
| Strings.IntToStringDigits | chj/util/xmlutil.py:48 | `str` of an int is non-empty, starts with '-' exactly for a negative value, and is otherwise decimal digits |
| SummaryValueTypes.BasicTypeSymbols | chj/libsum/SummaryValueType.py:29-39 | the table covers exactly the nine basic type names, long mapped to the given letter |
| SummaryValueTypes.SymbolNameInverse | chj/libsum/SummaryValueType.py:29-39 | reading a letter back gives the one name the Java Virtual Machine table maps to it; no name maps to 'L', '[' or ')' |
| SummaryValueTypes.IsObject | chj/libsum/SummaryValueType.py:46-47 | an error exactly for an element without children; otherwise true exactly when the first child is `object` or `new-object` |
| SummaryValueTypes.IsArray | chj/libsum/SummaryValueType.py:49-50 | an error exactly for an element without children; otherwise true exactly when the first child is `array` |
| SummaryValueTypes.Encode | chj/libsum/SummaryValueType.py:57-63 | a descriptor is never empty and never starts with ')' |
| SummaryValueTypes.TypeOf | chj/libsum/SummaryValueType.py:57-63 | the type an element reads as has only basic types the Java Virtual Machine table knows |
| SummaryValueTypes.KindsOfType | chj/libsum/SummaryValueType.py:46-55 | for an element that reads as a type, `is_object`, `is_array` and `is_basic_type` tell its kind |
| SummaryValueTypes.ToStringEncodes | chj/libsum/SummaryValueType.py:57-63 | with the Java Virtual Machine table, the text succeeds exactly when the element reads as a type, and is then that type's field descriptor; otherwise both fail alike |
| SummaryValueTypes.ParseFieldType | chj/libsum/SummaryValueType.py:57-63 | parsing a descriptor consumes at least one character |
| SummaryValueTypes.ParseEncode | chj/libsum/SummaryValueType.py:57-63 | a field descriptor followed by any text parses back to its type and that text |
| SummaryValueTypes.ParseObject | chj/libsum/SummaryValueType.py:58-60 | "L", a class name without ';' and ';' parse as that object type |
| SummaryValueTypes.EncodeInjective | chj/libsum/SummaryValueType.py:57-63 | two types with the same descriptor are the same type |
| SummaryValueTypes.LongAsWrittenIsAmbiguous | chj/libsum/SummaryValueType.py:36 | long prints as "L" as written and "J" with the Java Virtual Machine table, and "L" followed by "LX;" reads as the one object type LX |
| TaintGraphs.Sources | chj/index/TaintGraph.py:67-68 | the source of each edge element, in order |
| TaintGraphs.RootNodeMeaning | chj/index/TaintGraph.py:65-71 | no root exactly when every node is the source of some edge; otherwise the first node that is no edge's source |
| TaintGraphs.GetRootNode | chj/index/TaintGraph.py:65-71 | the loops compute the root node |
| TaintGraphs.PairsOf | chj/index/TaintGraph.py:98-99 | one (source, target) pair per target, in order |
| TaintGraphs.PairsMembers | chj/index/TaintGraph.py:96-99 | a pair is there exactly when some edge element has that source and lists that target |
| TaintGraphs.SourcesTo | chj/index/TaintGraph.py:99-101 | exactly the sources of the pairs into the target |
| TaintGraphs.AdjacencyMeaning | chj/index/TaintGraph.py:95-101 | a target's list holds the sources of its pairs in order, and it has no entry when there are none |
| TaintGraphs.AdjacencyMembers | chj/index/TaintGraph.py:95-101 | s is in t's adjacency list exactly when an edge element from s lists t |
| TaintGraphs.PairsNext | chj/index/TaintGraph.py:96-99 | one more edge element adds its own pairs at the end |
| TaintGraphs.AdjacencySnoc | chj/index/TaintGraph.py:100-101 | one more pair appends its source to its target's list, created empty when missing |
| TaintGraphs.AddSource | chj/index/TaintGraph.py:100-101 | `setdefault` then `append` |
| TaintGraphs.AddTargets | chj/index/TaintGraph.py:99-101 | the loop over one element's targets adds its pairs |
| TaintGraphs.BuildAdjacency | chj/index/TaintGraph.py:95-101 | the loops over the edge elements build the adjacency lists |
| TaintGraphs.SinkMatches | chj/index/TaintGraph.py:82-85 | exactly the nodes whose type text contains the sink text |
| TaintGraphs.LoopCounters | chj/index/TaintGraph.py:90-93 | exactly the nodes that are the variable `lc` |
| TaintGraphs.NodesOn | chj/index/TaintGraph.py:113-114 | exactly the nodes on some of the paths |
| TaintGraphs.PathNodesFromPaths | chj/index/TaintGraph.py:109-114 | every path node is on a path from the root to one of the sinks |
| TaintGraphs.CollectPathNodes | chj/index/TaintGraph.py:109-114 | the loops over sinks and paths collect the path nodes, skipping a sink already collected |
| TaintGraphs.KeptTargets | chj/index/TaintGraph.py:124-127 | exactly the pairs from the source to its targets that are nodes |
| TaintGraphs.TrailEdgesMeaning | chj/index/TaintGraph.py:120-127 | an edge is kept exactly when both endpoints are nodes and some edge element joins them |
| TaintGraphs.CollectEdges | chj/index/TaintGraph.py:120-127 | the loops collect the trail's edges |
| TaintGraphs.NodeEntriesOnly | chj/index/TaintGraph.py:136-137 | the DOT graph has only nodes that are path nodes, named by their decimal index |
| TaintGraphs.NodeEntriesHas | chj/index/TaintGraph.py:136-149 | every path node is drawn, with its label, shading and colour |
| TaintGraphs.EdgeEntriesMeaning | chj/index/TaintGraph.py:150-152 | an edge is drawn, from target to source, exactly when some trail edge joins two path nodes |
| TaintGraphs.JoinsSnoc | chj/index/TaintGraph.py:150-152 | one more trail edge adds only its own drawn edge |
| TaintGraphs.TaintGraph.constructor | chj/index/TaintGraph.py:36-47 | the trail's nodes, sink and loops flag are kept; no path nodes and no edges yet |
| TaintGraphs.TaintGraph.BuildGraph | chj/index/TaintGraph.py:73-131 | with a sink that matches no node, nothing changes; a missing root is an error; otherwise the path nodes are the chosen ones, or all nodes when none are chosen, and the edges are the trail edges |
| TaintGraphs.TaintGraph.AsDot | chj/index/TaintGraph.py:133-153 | a fresh DOT graph named "trail_" and the taint source, with the path nodes and the edges between them |
| TaintGraphs.SelectionMeaning | chj/index/TaintGraph.py:78-114 | without a sink and loops nothing is chosen; with them each chosen node is on a path from the root to a sink |
| TaintGraphs.Restrict | chj/index/TaintGraph.py:78-114 | the loops compute the selection |
| TaintGraphs.MatchingNodes | chj/index/TaintGraph.py:82-85 | the loop collects the nodes matching the sink |
| TaintGraphs.LoopCounterNodes | chj/index/TaintGraph.py:90-93 | the loop collects the loop-counter nodes |
| UserData.NoData | chj/userdata/UserDataClass.py:122-128 | a new method's data has no restrictions and no bounds, each keyed once |
| UserData.CalleeElements | chj/userdata/UserDataClass.py:144-149 | one `callee` element per restriction |
| UserData.NumericElements | chj/userdata/UserDataClass.py:152-156 | one `loop` element per numeric bound |
| UserData.SymbolicElements | chj/userdata/UserDataClass.py:157-161 | one `loop` element per symbolic bound |
| UserData.MethodElements | chj/userdata/UserDataClass.py:61-64 | one `method` element per method |
| UserData.CalleeElementsAppend | chj/userdata/UserDataClass.py:144-149 | the elements of two runs of restrictions are those of each, in order |
| UserData.NumericElementsAppend | chj/userdata/UserDataClass.py:152-156 | the elements of two runs of numeric bounds are those of each, in order |
| UserData.SymbolicElementsAppend | chj/userdata/UserDataClass.py:157-161 | the elements of two runs of symbolic bounds are those of each, in order |
| UserData.MethodElementsAppend | chj/userdata/UserDataClass.py:61-64 | the elements of two runs of methods are those of each, in order |
| UserData.ElementsSnoc | chj/userdata/UserDataClass.py:61-64 | one more method adds its own written element at the end |
| UserData.CalleesTagged | chj/userdata/UserDataClass.py:94 | every written restriction is found again by `findall('callee')` |
| UserData.NumericTagged | chj/userdata/UserDataClass.py:101 | every written numeric bound is found again by `findall('loop')` |
| UserData.SymbolicTagged | chj/userdata/UserDataClass.py:101 | every written symbolic bound is found again by `findall('loop')` |
| UserData.MethodsTagged | chj/userdata/UserDataClass.py:82 | every written method is found again by `findall('method')` |
| UserData.CalleeStepWritten | chj/userdata/UserDataClass.py:94-99 | a written callee element is read back as its restriction |
| UserData.CalleeElementRead | chj/userdata/UserDataClass.py:145-148 | a written callee element has kind "restrict", the target class and a pc that reads back |
| UserData.NumericStepWritten | chj/userdata/UserDataClass.py:101-105 | a written numeric loop element is read back as its bound |
| UserData.SymbolicStepWritten | chj/userdata/UserDataClass.py:101-108 | a written symbolic loop element is read back as its bound |
| UserData.ReadCalleesWritten | chj/userdata/UserDataClass.py:93-99 | the written restrictions are read back in order |
| UserData.ReadBoundsCons | chj/userdata/UserDataClass.py:101-114 | the loop elements are read in turn |
| UserData.ReadNumericWritten | chj/userdata/UserDataClass.py:100-114 | the written numeric bounds are read back in order, before what follows |
| UserData.ReadSymbolicWritten | chj/userdata/UserDataClass.py:100-114 | the written symbolic bounds are read back in order |
| UserData.WrittenMethodChildren | chj/userdata/UserDataClass.py:139-161 | a written method element has the `callees` and `bounds` children `_initialize_method` looks for |
| UserData.ReadMethodOf | chj/userdata/UserDataClass.py:90-114 | reading a method element reads its callees, then its bounds |
| UserData.CalleesRestored | chj/userdata/UserDataClass.py:90-99 | the written callees of a method are read back into a fresh method |
| UserData.LoopsFound | chj/userdata/UserDataClass.py:101 | the loop elements found are the numeric ones followed by the symbolic ones |
| UserData.BoundsRestored | chj/userdata/UserDataClass.py:100-114 | the written bounds of a method are read back into a method without bounds |
| UserData.ReadWrittenMethod | chj/userdata/UserDataClass.py:90-161 | a method written by `write_xml` and read back into a fresh method of its name and signature has the same restrictions and bounds |
| UserData.WrittenMethodHeader | chj/userdata/UserDataClass.py:140-141 | a written method element carries its name and signature |
| UserData.MethodStepWritten | chj/userdata/UserDataClass.py:83-88 | a written method element is read and stored under its index |
| UserData.ReadMethodsWritten | chj/userdata/UserDataClass.py:82-88 | written methods are read back in order under their indices |
| UserData.ReadWrittenClass | chj/userdata/UserDataClass.py:56-88 | a class written by `write_xml` reads back as the same methods, with its name and package |
| UserData.WrittenMethodsFound | chj/userdata/UserDataClass.py:59-60 | a written class element has the `methods` child `_initialize` looks for |
| UserData.ClassAttributesWritten | chj/userdata/UserDataClass.py:57-58 | the class element carries the name and package written |
| UserData.ReadBoundsMissingType | chj/userdata/UserDataClass.py:103-113 | a loop element with neither `it` nor `itc` stops the reading |
| UserData.CalleeElementsOf | chj/userdata/UserDataClass.py:144-149 | the loop writes the callee elements |
| UserData.NumericElementsOf | chj/userdata/UserDataClass.py:152-156 | the loop writes the numeric loop elements |
| UserData.SymbolicElementsOf | chj/userdata/UserDataClass.py:157-161 | the loop writes the symbolic loop elements |
| UserData.UserDataMethod.constructor | chj/userdata/UserDataClass.py:122-128 | a new method has its name and signature and no restrictions or bounds |
| UserData.UserDataMethod.AddCalleeRestriction | chj/userdata/UserDataClass.py:130-131 | the restriction at the pc is set to the target; every other pc and both bound maps are unchanged |
| UserData.UserDataMethod.AddBound | chj/userdata/UserDataClass.py:133-137 | a numeric bound goes to the numeric bounds, a symbolic one to the symbolic bounds; the rest is unchanged |
| UserData.UserDataMethod.WriteXml | chj/userdata/UserDataClass.py:139-161 | the method element written holds the name, signature, restrictions and bounds |
| UserData.DataOf | chj/userdata/UserDataClass.py:40 | the data of each stored method, under the same index and in the same order |
| UserData.DataOfPut | chj/userdata/UserDataClass.py:54 | storing a method stores its data |
| UserData.UserDataClass.constructor | chj/userdata/UserDataClass.py:35-40 | a new class has its package and name and no methods |
| UserData.UserDataClass.HasMethod | chj/userdata/UserDataClass.py:43-44 | true exactly when a method is stored under the index |
| UserData.UserDataClass.GetMethod | chj/userdata/UserDataClass.py:46-48 | a method exactly when one is stored under the index, and it is that one |
| UserData.UserDataClass.MkMethod | chj/userdata/UserDataClass.py:50-54 | an existing method is kept; otherwise a fresh method without annotations is added at the end |
| UserData.UserDataClass.WriteXml | chj/userdata/UserDataClass.py:56-64 | the class element written holds the name, package and methods |
| UserData.UserDataClass.InitializeMethod | chj/userdata/UserDataClass.py:90-114 | the method's new data is what reading the element gives, and the call fails exactly when the reading does |
| UserData.UserDataClass.EnterMethod | chj/userdata/UserDataClass.py:83-88 | the class's methods become what reading one more element gives |
| UserData.UserDataClass.Store | chj/userdata/UserDataClass.py:87 | the method is stored under its index |
| UserData.UserDataClass.Initialize | chj/userdata/UserDataClass.py:80-88 | the class's methods are what reading its `methods` element gives, failing exactly when that does |
| UserData.UserDataClass.Load | chj/userdata/UserDataClass.py:35-41 | a fresh class with the element's package and name whose methods are read from the element |
| Vartables.Keyed | chj/app/Vartable.py:85 | each slot under its (variable index, start pc) key, in order |
| Vartables.BuildTable | chj/app/Vartable.py:83-86 | the loop over the slot elements builds the table |
| Vartables.LaterSlotOverwrites | chj/app/Vartable.py:85-86 | a slot is the table's entry for its key unless a later slot has the same key |
| Vartables.GetName | chj/app/Vartable.py:78-81 | none exactly when no slot of the index covers the pc; otherwise the name of the first slot, in table order, that does |
| Vartables.GetParameters | chj/app/Vartable.py:60-65 | the loop keeps the slots with start pc 0, under their variable index |
| Vartables.ParametersLookup | chj/app/Vartable.py:60-65 | a variable is a parameter exactly when the table has a slot for it starting at pc 0, and it is that slot |
| Vartables.SlotColumns | chj/app/Vartable.py:42-44 | a slot's line is its index, its name padded to the name width, and the start and end pcs right-justified in five columns, separated by single spaces |
| Vartables.MaxNameLen | chj/app/Vartable.py:72 | the name width is the length of the longest name |
| Vartables.SlotLines | chj/app/Vartable.py:73-74 | one line per slot |
| Vartables.SlotLinesAt | chj/app/Vartable.py:73-74 | each line is the text of its slot at the name width |
| Vartables.RowLines | chj/app/Vartable.py:73-74 | the loop writes the slot lines |
| Vartables.ToString | chj/app/Vartable.py:67-76 | "Variable table", 64 dashes, the slot lines in key order and 64 dashes, joined by newlines |
| Vartables.ToStringOrder | chj/app/Vartable.py:73 | the slots are listed in ascending key order and each exactly once |
| WebUtil.LastIndexOf | chj/pyserver/static/util.js:7 | the position of the last occurrence of the character, -1 when there is none |
| WebUtil.IntTextPlain | chj/pyserver/static/util.js:7 | the text of a method index holds no parenthesis, space or slash |
| WebUtil.LastIndexOfPrefix | chj/pyserver/static/util.js:7 | text without the character appended after it does not move its last occurrence |
| WebUtil.ParseBuildMethodName | chj/pyserver/static/util.js:6-9 | the name and the index can be read back from any method label |
| WebUtil.ClassLink | chj/pyserver/static/util.js:110-112 | "/class/", engagement, project and class index, separated by slashes |
| WebUtil.MethodLink | chj/pyserver/static/util.js:114-116 | "/method/", engagement, project and method index, separated by slashes |
| WebUtil.TaintLink | chj/pyserver/static/util.js:118-120 | "/taint/", engagement, project and taint origin, separated by slashes |
| WebUtil.LinkJoin | chj/pyserver/static/util.js:110-120 | a link is the empty string, kind, engagement, project and id joined by slashes |
| WebUtil.ParseLinkOf | chj/pyserver/static/util.js:110-120 | for slash-free kind, engagement and project, a link reads back as all four parts |
| WebUtil.TrimStart | chj/pyserver/static/util.js:168-169 | `parseInt` skips leading white space: what is left does not start with it |
| WebUtil.DigitRun | chj/pyserver/static/util.js:168-169 | the digits `parseInt` reads are digits only, no more than the text |
| WebUtil.DigitRunPrefix | chj/pyserver/static/util.js:168-169 | they are the longest run of digits at the start of the text |
| WebUtil.ParseDigits | chj/pyserver/static/util.js:168-169 | a run of digits reads as a number no smaller than 0 |
| WebUtil.DigitRunAll | chj/pyserver/static/util.js:168-169 | a text of digits only is read whole |
| WebUtil.JsParseIntToString | chj/pyserver/static/util.js:168-169 | `parseInt` reads the decimal text of any integer back as that integer |
| WebUtil.TrimStartNoSpace | chj/pyserver/static/util.js:168-169 | a text that does not start with white space is not trimmed |
| WebUtil.JsParsePlain | chj/pyserver/static/util.js:168-169 | a nonempty run of digits reads as its value |
| WebUtil.JsParseMinus | chj/pyserver/static/util.js:168-169 | a minus sign and digits read as the negated value |
| WebUtil.ParseDigitsAll | chj/pyserver/static/util.js:168-169 | a nonempty run of digits reads as its value |
| WebUtil.CompareInt | chj/pyserver/static/util.js:162-173 | the comparator answers -1, 0 or 1 |
| WebUtil.CompareIntNumerals | chj/pyserver/static/util.js:162-173 | on decimal texts of integers it answers the sign of their difference |
| WebUtil.CompareIntAntisymmetricOnNumbers | chj/pyserver/static/util.js:162-173 | on nonempty numeric cells, swapping the cells negates the answer |
| WebUtil.CompareIntEmptyCells | chj/pyserver/static/util.js:165 | two empty cells each compare below the other |
| WebUtil.CompareIntNonNumbers | chj/pyserver/static/util.js:168-172 | two different nonempty cells that are not numbers each compare below the other |
| WebUtil.CompareCells | chj/pyserver/static/util.js:162-173 | the corrected comparator answers -1, 0 or 1, and 0 exactly for equal cells or nonempty cells with the same number |
| WebUtil.CompareCellsAntisymmetric | chj/pyserver/static/util.js:162-173 | swapping the cells negates the corrected comparator's answer |
| WebUtil.CompareCellsAgrees | chj/pyserver/static/util.js:162-173 | on different cells where one is empty or both are numbers, the corrected comparator answers as `compareInt` does |
| WebUtil.FirstSwitchFrom | chj/pyserver/static/util.js:136-153 | the first pair from row i on that should switch, no earlier pair switching; none when no pair from there on should |
| WebUtil.FirstSwitch | chj/pyserver/static/util.js:136-153 | no pair exactly when the data rows are settled; a pair is never the header |
| WebUtil.SwapAt | chj/pyserver/static/util.js:155 | the two rows exchanged, every other row kept, the rows a permutation of the old ones |
| WebUtil.Count | chj/pyserver/static/util.js:136-153 | a row switches with no more rows than there are |
| WebUtil.CountAppend | chj/pyserver/static/util.js:136-153 | the rows a row switches with in two runs are those of each |
| WebUtil.CountSwap | chj/pyserver/static/util.js:155 | exchanging two neighbours does not change how many rows another row switches with |
| WebUtil.InversionsSwap | chj/pyserver/static/util.js:155 | exchanging a pair that switches one way only removes exactly one inversion |
| WebUtil.SwapProgress | chj/pyserver/static/util.js:154-157 | each exchange of a data pair that switches one way only removes one inversion and keeps the rows |
| WebUtil.SortStep | chj/pyserver/static/util.js:133-158 | for asymmetric comparators each pass that finds a pair exchanges data rows, removes one inversion and keeps the rows |
| WebUtil.FindSwitch | chj/pyserver/static/util.js:136-153 | the scan finds the first pair that should switch |
| WebUtil.SortTable | chj/pyserver/static/util.js:122-160 | more than 500 rows are left as they are; otherwise the rows end settled, the header row in place, as a permutation of the old rows |
| WebUtil.Exchange | chj/pyserver/static/util.js:155 | the two rows are exchanged in place |
| WebUtil.AntisymmetricAsymmetric | chj/pyserver/static/util.js:140-152 | antisymmetric comparators never let two rows switch both ways |
| WebUtil.CompareCellsSorts | chj/pyserver/static/util.js:140-152 | with the corrected comparator the sort terminates on any table |
| WebUtil.CompareIntSortCycles | chj/pyserver/static/util.js:133-165 | with `compareInt` in reverse order, a table with two empty cells in the sort column switches them on every pass and comes back to where it started |
| WebUtil.SettledSorted | chj/pyserver/static/util.js:133-158 | settled rows are in order for any two data rows when not switching is transitive |
| XmlUtil.NewElement | chj/util/xmlutil.py:107 | `ET.Element(tag)`: the tag, no attributes, no text, no children |
| XmlUtil.Find | chj/util/xmlutil.py:51 | `find`: a child exactly when one has the tag, and it is such a child |
| XmlUtil.FindPair | chj/util/xmlutil.py:51 | of two children with different tags, each is found by its own tag |
| XmlUtil.FindAll | chj/util/xmlutil.py:51 | `findall`: exactly the children with the tag |
| XmlUtil.AllTaggedAll | chj/util/xmlutil.py:51 | when every child has the tag, all of them in order |
| XmlUtil.AllTaggedAppend | chj/util/xmlutil.py:51 | the tagged children of two runs are those of each, in order |
| XmlUtil.Sanitize | chj/util/xmlutil.py:37-40 | the loop applies the five replacements in turn and gives the escaped text |
| XmlUtil.ChainIsEscaped | chj/util/xmlutil.py:33-40 | replacing '&' first and then the other four characters escapes each character on its own |
| XmlUtil.ReplacedIsEscaped | chj/util/xmlutil.py:33-40 | the replacements applied in their listed order escape each character on its own |
| XmlUtil.EscapedHasNoMarkup | chj/util/xmlutil.py:37-40 | sanitized text holds no '<', '>', '"' or apostrophe |
| XmlUtil.UnescapeEscaped | chj/util/xmlutil.py:37-40 | sanitizing loses nothing: unescaping gives the text back |
| XmlUtil.GetIxsAttribute | chj/util/xmlutil.py:45-48 | an `ixs` attribute holding a list of integers reads back as that list |
| XmlUtil.IxListsRead | chj/util/xmlutil.py:50-54 | the `ix-list` children read back as their lists, concatenated in order |
| XmlUtil.KeysOf | chj/util/xmlutil.py:63 | the attribute names, in order |
| XmlUtil.StringLessStrict | chj/util/xmlutil.py:63 | the order of names is a strict order |
| XmlUtil.SortedNamesOrder | chj/util/xmlutil.py:63 | the names are listed in ascending order, each exactly once |
| XmlUtil.AttrTexts | chj/util/xmlutil.py:64-68 | one `key="value"` text per name, in order, after the prefix |
| XmlUtil.AttributesToPretty | chj/util/xmlutil.py:58-69 | empty for no attributes; a leading space for up to four, a leading newline for more |
| XmlUtil.ElementToPretty | chj/util/xmlutil.py:71-88 | at least one line, every line indented at least as deep as the element |
| XmlUtil.ElementToPrettyShape | chj/util/xmlutil.py:71-88 | the first line opens the tag; one line exactly for text or no children; `<tag/>` for an element with neither; a closing `</tag>` line after the children |
| XmlUtil.ChildrenToPretty | chj/util/xmlutil.py:82-83 | at least one line per child, all indented |
| XmlUtil.IndentedJoin | chj/util/xmlutil.py:82-83 | the lines of several children keep their indentation |
| XmlUtil.IndentedWider | chj/util/xmlutil.py:83 | lines indented two deeper are indented at the parent's depth too |
| XmlUtil.DocToPretty | chj/util/xmlutil.py:90-93 | the XML declaration followed by the lines of the root element |
| XmlUtil.EntryElements | chj/util/xmlutil.py:109-113 | one entry element per dictionary item, in order |
| XmlUtil.DictToXmlPretty | chj/util/xmlutil.py:104-114 | the text starts with the XML declaration |
| XmlUtil.DictTreeEntries | chj/util/xmlutil.py:104-114 | the dictionary element holds one entry per item, in order, with the key and value under their attribute names |

## Left out

- BcDictionary `write_xml` and `__str__` (chj/app/BcDictionary.py:134-149): XML writing and the textual dump of the four tables are output formatting only; the tables themselves are modelled.
- Bytecode names: the class names, field signatures, string constants and types an opcode prints come from the type and data dictionaries, which are not part of this model; they are the parameter `resolve` of Bytecodes.ToString.
- Bytecode floating-point constants (chj/app/Bytecode.py:196-212): printed from the raw tag text; Python's float normalisation of the text is not modelled.
- BcSlot `get_level`, `get_types`, `get_slot_value`, `__str__` and BcSlotList `get_slots`, `__str__` (chj/app/Bytecode.py:56-93): they read the type and term dictionaries, which are not part of this model; only the slot pcs are modelled.
- Cfg `as_dot`, `cfg_hash`, `iter_blocks`, `get_successor_blocks` and `get_successor_loop_level_counts` (chj/app/Cfg.py:50-56, 98-109, 161-212): drawing, hashing (MD5) and iteration with a callback; the block and successor maps they read are modelled.
- Cfgs.Cfg.EnumeratePaths: does not state that every bounded path is found, only that each one returned is a path from start to end holding no node more than twice and that the returned paths are distinct by node set and length; `enumpaths` lets a node repeat on a path only when its block is inside a loop (chj/app/Cfg.py:123-127), and the model does not state which bounded paths that depth rule admits.
- Cfgs.EnumPaths: the same holds for the recursive search itself: it states only that it appends, and that each path appended leads from the start to endpc along edges with no node more than twice, not which of those paths it appends.
- SideChannelChecks.GetFullPaths: returns what `Cfgs.Cfg.EnumeratePaths` returns, so it states that every path is a bounded path from the decision pc to the observation pc, not that every such path is returned.
- Cfgs.Cfg.GetBlock: the message printed for a missing pc is left out.
- CostModel `_initialize`, `reinitialize`, `save_constants_file`, `get_constant_names`, `get_constant_values` and `__str__` (chj/cost/CostModel.py:49, 88-90, 101-105, 121-147): reading and writing cost files and printing; the model's constructor takes the (cmsix, cost) entries those files hold.
- CostModel `iter` (chj/cost/CostModel.py:45-47) is not modelled: it sorts the cmsixs with the MethodCost objects themselves as keys, and MethodCost defines no ordering, so with two or more method costs it raises TypeError before calling f; no intended order is evident from the code.
- CostModel `store_original_constants` reads the constants file itself; the model takes its (name, value) entries, and the "No constants file found" message is left out.
- MethodCost: the per-method block, loop and side-channel costs (chj/cost/MethodCost.py) are not part of this model; a method cost is its cost measure.
- CostSummary range and symbolic sections (`get_range_cost_string`, `get_ranked_range_cost_string`, `get_ranked_range_cost_dict`, the symbolic part of `to_string`, `to_verbose_string`, `to_loop_bounds_string`, `to_side_channels_string`; chj/reporting/CostSummary.py:63-98, 159-246): they rank by a floating-point ratio and print method costs from the method-cost objects, which are not part of this model. CostSummaries.CostSummary.ToString covers the top and constant sections and returns their lines before the join.
- DataDictionary `_initialize_missing_classes`, `targets_to_string`, `get_stub` and the `iter_*` methods (chj/index/DataDictionary.py:73-102, 131-139, 187-191): they hand entries to callbacks, print, or render through the type dictionary, which is not part of this model.
- DataDictionary `get_cn`, `get_fs`, `get_cfs`, `get_ms`, `get_cms`, `get_cmsix` and the type, term and taint dictionary loading (chj/index/DataDictionary.py:52-71, 141-164): they delegate to the type dictionary, the taint dictionary and the file loader, which are not part of this model.
- DataDictionaries.DataDictionary.InitializeAppClasses and InitializeCallgraph take the `ix`, `pc` and `ms-ix` attributes as integers already; the model does not parse them, so it does not raise ValueError for a malformed one.
- DotNode and DotEdge setters and DotGraph `set_top_bottom` (chj/util/DotGraph.py:54-57, 92, 132): no operation of the model calls them, and nodes and edges are values; `addquotes` is always true in the source and is fixed so in the model. The final join of the lines into one string is DotGraphs.DotGraph.ToString, without a contract of its own.
- ExceptionHandler `get_class_name` (chj/app/ExceptionTable.py:47): class names come from the data dictionary and are a parameter of ExceptionTables.ExceptionTable.ToString; handler attributes are taken as integers already.
- fileutil's error classes and their `__str__` texts, `get_xnode`, the `check_*` functions, the method index, the cost and user-data directories, the engagement reports directory, the engagements repository, the platform, JDK-summary and library-summary lookups, and the canonical applications (chj/util/fileutil.py:42-405, 441-512, 522-534, 542-558, 579-770, 784-940): they read and write the filesystem, JSON files and the configuration; the model keeps the path scheme they all rely on (FileUtil.AnalysisDirs, FileUtil.ClassDirComponents, FileUtil.MethodsFileComponents).
- FileUtil.GetEngagementFromName takes the engagements data as a parameter, already projected to each engagement's 'apps' list, and FileUtil.TrailFilenames takes the directory listing as a parameter.
- FileUtil.PathJoin models POSIX `os.path.join` only.
- FileUtil.SafeGet takes the conversion as a function returning Result; the float conversion is not modelled.
- IndexedTable `iter` and `__str__` (chj/util/IndexedTable.py:97-98, 208-217): a callback loop and a printout; `values`, `items` and `write_xml` cover the same traversal. The messages printed by `read_xml` and `get_rep` are not modelled.
- JavaMethods.JavaMethod.GetConditions: gives the true-branch condition of each block, not the pair with the successors' loop-level counts the source appends.
- JavaMethod name and signature getters, `get_loop_count`, `get_max_depth`, the invariants, `get_slot_src_value`, `count_recursive_calls`, `get_variable_taint`, the instruction filters (`get_loaded_string_instructions`, field reads and writes, static initializers and readers, objects created, named and class method calls), `as_list` and `__str__` (chj/app/JavaMethod.py:71-80, 100-108, 142-144, 164-171, 199-203, 215-292, 351-360): they depend on the signature data, the invariants and the instruction classes, which are not part of this model. The file lookup of `_read_method_bytecode` is a parameter (the parsed bytecode file).
- JTermDictionary float tables and float constants (`index_float`, `index_float_constant`, `mk_float_constant`; chj/index/JTermDictionary.py:131-145): floating point is not modelled, so JTermDictionaries.JTermDictionary.AddTerms and DivTerms return None where the source builds a float constant.
- JTermDictionary `read_xml_relational_expr_list`, `write_xml` and `__str__` (chj/index/JTermDictionary.py:168-183): the relational expressions are not part of this model, and printing is left out; writing is covered record by record (JTermDictionaries.DecodeWrittenNodes).
- JTerm `simplify`, `to_float`, the float range queries and the relational expressions (chj/index/JTerm.py:85, 185-186, 205, 426-454, 461-488, 548-561): they compute in floating point or print relational operators the model does not use. Terms carry their operands and printed texts directly instead of indices into the dictionary's tables.
- JTerms.ToString: `JTBoolConstant`, `JTStaticFieldValue`, `JTObjectFieldValue` and `JTermStringConstant` print text looked up in other dictionaries; the model carries that text in the term. The text of a `Resolved` term is the one evidently meant, which hides three defects of the code: `JTStaticFieldValue.get_class_name` has no `return` (chj/index/JTerm.py:217-218), so a static field prints as "sf:None.<field>"; `get_field_name` reads `args[0]`, the class index, as the field name (chj/index/JTerm.py:220); and `JTermStringConstant.get_string` reads an attribute `jd` that the term does not have (chj/index/JTerm.py:304), so printing a string constant raises AttributeError.
- Loop construction and `get_pc_jump_conditions` (chj/app/Loop.py:31-41, 71-75): reading the XML node is left out; the loop's fields, its jump-condition map included, are given directly. `int(str(x))` on a constant is taken as its value.
- LoopSummary `list_to_string`, `taint_list_to_string`, `looptaintstostring` and `_getlooptaintsources` (chj/reporting/LoopSummary.py:90-132, 157-183): they print or look up taint origin sets in the taint dictionary, which is not part of this model. The loops of a method are given as their first pc, bound text and loop-counter taint node.
- ObjectSizes.ObjectSize.AddField: as written, `add_field` asks the field signature for `is_array` and `get_array` (chj/app/ObjectSize.py:49), and neither the field signature's value type nor the field signature has those; the model takes the evident intent: the field is appended to the arrays when its value type is an array type.
- ObjectSize `to_string` and the owning class (chj/app/ObjectSize.py:30-32, 56-64): printing looks class names up in the data dictionary, which is not part of this model; the size is not tied to a class.
- Records: the record base classes of chj/index/JTermDictionaryRecord.py, chj/index/CallgraphDictionaryRecord.py and chj/app/BcDictionaryRecord.py repeat the `get_key`/`write_xml` scheme of chj/index/JDictionaryRecord.py line for line, so the Records module models it once; a registry is a map from keys to record-class names, since Python classes as values are not modelled, and the dictionary a record belongs to is not stored in it.
- Recursions.Recursion.MutualRecursiveCalls: the result is a set, so the order in which `as_dictionary` and `to_string` list the pairs (Python's set iteration order) is not modelled; the reports hold each pair once, in some order.
- Recursion: the call-graph edge iterator and `get_cmsix`/`get_cms` of the data dictionary are parameters (the edges as a list, `cmsixOf`, `cmsName`).
- SideChannelCheck `__str__` and `get_paths` (chj/cost/SideChannelCheck.py:67-68, 110-151): the report adds block costs with `simplify`, which works in floating point, and the per-predecessor costs come from the method cost, which is not part of this model.
- StaticFields: the application's initializer and reader lists and the data dictionary's class, field and method texts are parameters (`names`); the report's dictionaries are association lists in insertion order.
- TaintGraph `_get_edges` (chj/index/TaintGraph.py:51-63): locating and reading the trail file is I/O; the trail's nodes and edge elements are given. When the trail cannot be read the source prints the error and carries on with no nodes; that path is not modelled.
- TaintGraph: the taint-node types (`get_taint_node_type`) and the graph utilities' path search (`find_paths`) are not part of this model and are the parameters `nodeType` and `findPaths`; the unused source and sink names computed at chj/index/TaintGraph.py:105-107 are left out.
- UserData.UserDataClass.Load: a class element without `package` or `name`, a method element without `name` or `sig`, and a restriction without `class` are errors in the model; the source carries None on (chj/userdata/UserDataClass.py:38-39, 83-84, 98). Without a `methods` child the source fails on None, which the model reports as an error too; `_initialize` on no element at all (line 81) is not modelled.
- UserData.UserDataClass.MkMethod: the two progress lines it prints are left out. A missing bound type prints a banner and exits the program (chj/userdata/UserDataClass.py:109-113); the model reports an error instead.
- UserDataClass `save_xml` and both `__str__` methods (chj/userdata/UserDataClass.py:66-78, 163-179): file output and console text; `get_msix` of the data dictionary is the parameter `getMsix`.
- Vartable: a slot's name, read from the type dictionary's string table, and its value type are given with the slot; `VartableSlot.__str__` (chj/app/Vartable.py:46-47) is left out.
- util.js DOM helpers `append_text_to_node`, `add_table_borderless`, `add_table_data_with_link`, `replace_node_text_with_link`, `add_table_header`, `add_span_table_header`, `add_table_header_with_sort` and `get_child_with_tag` (chj/pyserver/static/util.js:11-108): they only build or search browser DOM nodes.
- WebUtil.SortTable: the alert shown for more than 500 rows is left out; a table is the list of its rows' cell texts, so the `td` lookups are cell indexing, and the method asks for the sort column to exist and for comparators that never let two rows switch both ways, without which the source's loop does not end.
- WebUtil.JsParseInt: only decimal text is modelled; the "0x" prefix and the loss of precision beyond 2^53 of JavaScript numbers are not. `GuiState.engagement` and `GuiState.project` are parameters.
- xmlutil `get_xml_header`, `create_user_class_xnode`, `get_flask_html_header` and `html_to_pretty` (chj/util/xmlutil.py:95-102, 117-153): they stamp the current time or build fixed HTML headers; only the element functions they call are modelled.
- XmlUtil.ElementToPretty: Python's `strip()` is modelled as removing the ASCII white-space characters only; element text is written as it is, unescaped, as the source does.
- XmlUtil.DictToXmlPretty: the dictionary's values are taken as text; `str(v)` of other values is not modelled.
- XmlUtil.GetIxsAttribute: the `assert ixs is not None` checks (chj/util/xmlutil.py:47, 53) are modelled as errors.
- CostMeasures.GetLowerbound, CostMeasures.GetUpperbound, CostMeasures.GetSymbolicBound, CostMeasures.Lt, CostMeasures.Eq: where the code calls term-list methods that do not exist (`is_value` and `[0]` on a term list, `haslowerbound`, `istop`, `is_symbolic_bound`; chj/cost/CostMeasure.py:43-75), the model uses the ones evidently meant (`is_constant`, `get_constant`, `has_lowerbound`, `is_top`, `is_symbolic_expr`).
- CostMeasures.GetRange: floating-point ranges are not modelled, so `is_float_range` is always false.
- Bytecodes.SlotPcs: for the tag 'm' the source reads `self.bcdict`, but `BcBase` stores its dictionary as `bcd` (chj/app/Bytecode.py:34); the model looks the pc list up in the bytecode dictionary, as evidently meant. 
- IndexedTables.IndexedTable.RetrieveByKey: the key table is a map, so the order of the pairs (the insertion order of the keys of a Python dict) is not stated; the result holds each key that passes the filter once, with its object, and nothing else.
- Strings.ParseInt: models Python's `int` on ASCII decimal text only; the surrounding whitespace it strips, '_' between digits and non-ASCII decimal digits that it also accepts are rejected by the model.
- FileUtil.ToInt: built on Strings.ParseInt, so it rejects the whitespace, underscores and non-ASCII digits that Python's `int` accepts.
- Callgraphs.Callgraph.constructor: sets only the fields; the edge load that ends `__init__` is `Callgraphs.Callgraph.New`. A graph made by the constructor alone and then given a failing `LoadEdges` keeps the edges read before the failure and answers later calls from them, a state the library never reaches, since its `__init__` raises instead.
- BcDictionaries.DecodeEntry: builds each record through the base initialiser as intended; as written every bytecode record class raises TypeError (see "## Findings" and `BcDictionaries.DecodeEntryAsWritten`).
- BcDictionaries.DecodeEntries: decodes each node as `BcDictionaries.DecodeEntry` does; as written the first node that `get_rep` reads raises TypeError.
- BcDictionaries.ResetAndRead: loads the entries built as intended; as written reading a non-empty table raises TypeError.
- BcDictionaries.BcDictionary.Initialize: loads every table with records built as intended; as written `initialize` raises TypeError at the first non-empty table.
- CallgraphDictionaries.ConstructTarget: builds the target through the base initialiser as intended; as written each of the four kinds raises TypeError (see `CallgraphDictionaries.ConstructTargetAsWritten`).
- CallgraphDictionaries.DecodeTarget: gives the target built as intended; as written `get_value` raises TypeError for a node with a known tag.
- CallgraphDictionaries.CallgraphDictionary.Initialize: loads the targets built as intended; as written a non-empty target table raises TypeError.
- JTermDictionaries.DecodeNode: builds each term record through the base initialiser as intended; as written every term class raises TypeError (see `JTermDictionaries.DecodeNodeAsWritten`).
- JTermDictionaries.ResetAndRead: loads the records built as intended; as written reading a non-empty table raises TypeError.
- JTermDictionaries.JTermDictionary.Initialize: loads every table with records built as intended; as written `initialize` raises TypeError at the first non-empty table.
- JTermDictionaries.JTermDictionary.IndexNumerical: adds a new integer's record as intended; as written building `JTNumerical` raises TypeError, so only an integer already in the table gets an index.
- JTermDictionaries.JTermDictionary.MkNumerical: as `IndexNumerical`, raises TypeError in the library for an integer not yet in the table.
- JTermDictionaries.JTermDictionary.IndexConstantJTerm: adds a new constant term as intended; as written building `JTConstant` (or its numerical argument) raises TypeError when either is new.
- JTermDictionaries.JTermDictionary.MkConstantJTerm: as `IndexConstantJTerm`, raises TypeError in the library for a new constant.
- JTermDictionaries.JTermDictionary.IndexArithmeticJTerm: adds a new arithmetic term as intended; as written building `JTArithmeticExpr` raises TypeError when the term is new.
- JTermDictionaries.JTermDictionary.MkArithmeticJTerm: as `IndexArithmeticJTerm`, raises TypeError in the library for a new term.
- JTermDictionaries.JTermDictionary.AddTerms: interns the folded constant or the "add" term as intended; as written interning a new one raises TypeError.
- JTermDictionaries.JTermDictionary.DivTerms: interns the "div" term as intended; as written interning a new one raises TypeError.

## Findings

| source | as written | input that shows it | evidently intended | confidence | as-written member | corrected member |
|---|---|---|---|---|---|---|
| chj/app/Bytecode.py:415-422 | `BcRet.__str__` calls `get_target_pc`, which `BcRet` does not define | any `ret` instruction | print the mnemonic and the variable index | not executed | Bytecodes.RetToStringAsWritten | Bytecodes.RetToStringFixed |
| chj/index/JTerm.py:574-575 | `is_lb_open_range` stores its test in a local and returns None | a range with no lower bound and the upper bound 7 | return the test: no lower bound and a constant upper bound | not executed | JTerms.LbOpenAsWrittenMissesRange | JTerms.RangeShapes |
| chj/cost/CostMeasure.py:117-121 | `__ge__` is "other < self" and `__gt__` is "other <= self", so the two are swapped | a single-value cost compared with itself: `>=` is false; `>` goes through `__le__` to `__eq__`, which as written raises AttributeError at `self.istop()` (line 106), and comes out true once that call is read as `is_top` | `>=` is "other <= self" and `>` is "other < self" | not executed | CostMeasures.GeGtSwapped | CostMeasures.Gt |
| chj/app/JavaMethod.py:146-148 | `get_variable_name` reads `self.vartable`, an attribute no code assigns (the table is `variabletable`) | any call | look the name up in the variable table | not executed | JavaMethods.JavaMethod.GetVariableNameAsWritten | JavaMethods.JavaMethod.GetVariableName |
| chj/index/CallgraphDictionary.py:109-110 | `get_class_names` of virtual targets calls the list `self.cnixs` as a function | any virtual target | map each class index to its class name | not executed | CallgraphDictionaries.CallgraphTarget.ClassNamesAsWritten | CallgraphDictionaries.CallgraphTarget.ClassNames |
| chj/index/Callgraph.py:89-91 | `is_callback` calls `_get_callback_edges`; the loader is named `_getcallbackedges` | any method index | load the callback edges, then test membership | not executed | Callgraphs.Callgraph.IsCallbackAsWritten | Callgraphs.Callgraph.IsCallback |
| chj/index/Classname.py:44-48 | `get_aqname` tests `len(self.args) > 0`, which holds for every class name, so it gives only the simple name | java.lang.String gives "String" | the abbreviated package, then '.', then the simple name, for a class in a package | not executed | Classnames.AqNameAsWrittenDropsPackage | Classnames.AqName |
| chj/libsum/SummaryValueType.py:36 | `long` is written `L`, the letter that starts an object type | the signatures (long, X) and (LX) both print as "(LLX;)V" | `J`, as in section 4.3.2 of the Java Virtual Machine Specification | not executed | MethodSummarySignatures.SignatureAsWrittenCollides | MethodSummarySignatures.SignatureTextInjective |
| chj/pyserver/static/util.js:162-173 | `compareInt` answers -1 whichever way two empty cells (or two different non-numbers) are passed, so `sortTable` swaps such rows back and forth | a table with two data rows whose cells in the sort column are both empty, sorted in reverse | an antisymmetric comparator that answers 0 for equal cells | not executed | WebUtil.CompareIntSortCycles | WebUtil.CompareCellsSorts |
| chj/util/IndexedTable.py:109-111 | `reset_to_checkpoint` pops from the key table while iterating over its keys, which raises RuntimeError in Python 3 | a checkpoint with a key added after it | drop every key mapped at or above the checkpoint | not executed | IndexedTables.DropKeysAsWrittenFails | IndexedTables.IndexedTable.DropKeysFrom |
| chj/cost/CostModel.py:97-99 | `get_unknown_methodcosts` calls `get_method_cost()` on each MethodCost, a method MethodCost does not have | a cost model with one method cost: AttributeError instead of a count | count the method costs whose `methodcost.is_unknown()` holds, as `__str__` does at line 125 | not executed | CostModels.CostModel.GetUnknownMethodCostsAsWritten | CostModels.CostModel.GetUnknownMethodCosts |
| chj/index/JDictionaryRecord.py:41-49 | the base record initialiser takes `tpd, index, tags, args`, but `BcBase` (chj/app/Bytecode.py:33), `JTermBase` (chj/index/JTerm.py:50), `CallgraphTargetBase` (chj/index/CallgraphDictionary.py:35) and `JavaTypesBase` (chj/index/JType.py:33) pass only `index, tags, args` | any record: reading a non-empty bytecode, term or target table, or interning a new term, raises TypeError (missing 'args') | pass the type dictionary first, so that the record keeps its index, tags and args | not executed | Records.RecordInitAsWritten | Records.RecordInit |
