/** The exception table of a method (chj/app/ExceptionTable.py): its handlers
    split into exception handlers, which name the class they catch, and
    finally handlers, which catch everything. */
module ExceptionTables {
  import opened Wrappers
  import opened Strings

  /** A handler covers pcs start..end and continues at `handlerpc`; `cnix`
      is the index of the caught class, absent for a finally handler. */
  datatype Handler = Handler(startpc: int, endpc: int, handlerpc: int, cnix: Option<int>)

  predicate IsExceptionHandler(h: Handler) { h.cnix.Some? }

  /** The handlers of the list that catch a class, in list order. */
  function ExceptionHandlers(hs: seq<Handler>): (r: seq<Handler>)
    ensures forall h :: h in r <==> h in hs && IsExceptionHandler(h)
  {
    if hs == [] then []
    else
      var init := ExceptionHandlers(hs[..|hs| - 1]);
      assert forall h :: h in hs <==> h in hs[..|hs| - 1] || h == hs[|hs| - 1];
      if IsExceptionHandler(hs[|hs| - 1]) then init + [hs[|hs| - 1]] else init
  }

  /** The handlers of the list that catch everything, in list order. */
  function FinallyHandlers(hs: seq<Handler>): (r: seq<Handler>)
    ensures forall h :: h in r <==> h in hs && !IsExceptionHandler(h)
  {
    if hs == [] then []
    else
      var init := FinallyHandlers(hs[..|hs| - 1]);
      assert forall h :: h in hs <==> h in hs[..|hs| - 1] || h == hs[|hs| - 1];
      if IsExceptionHandler(hs[|hs| - 1]) then init else init + [hs[|hs| - 1]]
  }

  /** Every handler goes into exactly one of the two lists: together they
      hold the handlers, each as often as it was listed. */
  lemma {:induction false} HandlersPartition(hs: seq<Handler>)
    ensures multiset(ExceptionHandlers(hs)) + multiset(FinallyHandlers(hs)) == multiset(hs)
  {
    if hs != [] {
      HandlersPartition(hs[..|hs| - 1]);
      assert hs == hs[..|hs| - 1] + [hs[|hs| - 1]];
    }
  }

  function Pc(pc: int): (s: string)
    ensures |s| >= 5
  {
    RJust(IntToString(pc), 5)
  }

  function HandlerLine(h: Handler, last: string): string
  {
    Pc(h.startpc) + "  " + Pc(h.endpc) + "  " + Pc(h.handlerpc) + "  " + last
  }

  function ExceptionLines(hs: seq<Handler>, className: int -> string): (r: seq<string>)
    requires forall k :: 0 <= k < |hs| ==> IsExceptionHandler(hs[k])
  {
    if hs == [] then []
    else
      var h := hs[|hs| - 1];
      assert IsExceptionHandler(hs[|hs| - 1]);
      ExceptionLines(hs[..|hs| - 1], className) + [HandlerLine(h, className(h.cnix.value))]
  }

  function FinallyLines(hs: seq<Handler>): (r: seq<string>)
    ensures |r| == |hs|
  {
    if hs == [] then [] else FinallyLines(hs[..|hs| - 1]) + [HandlerLine(hs[|hs| - 1], "finally")]
  }

  /** A handler line ends with its last column. */
  lemma HandlerLineEnds(h: Handler, last: string)
    ensures var l := HandlerLine(h, last); |l| >= |last| && l[|l| - |last|..] == last
  {
  }

  /** One line per handler: line k is the line of handler k. */
  lemma {:induction false} FinallyLinesAt(hs: seq<Handler>, k: int)
    requires 0 <= k < |hs|
    ensures FinallyLines(hs)[k] == HandlerLine(hs[k], "finally")
  {
    var init := hs[..|hs| - 1];
    assert FinallyLines(hs) == FinallyLines(init) + [HandlerLine(hs[|hs| - 1], "finally")];
    if k < |hs| - 1 {
      FinallyLinesAt(init, k);
      assert init[k] == hs[k];
    }
  }

  /** Every finally line ends in 'finally'. */
  lemma FinallyLinesEnd(hs: seq<Handler>, k: int)
    requires 0 <= k < |hs|
    ensures k < |FinallyLines(hs)|
    ensures var l := FinallyLines(hs)[k]; |l| >= 7 && l[|l| - 7..] == "finally"
  {
    FinallyLinesAt(hs, k);
    HandlerLineEnds(hs[k], "finally");
  }

  lemma {:induction false} ExceptionLinesCount(hs: seq<Handler>, className: int -> string)
    requires forall k :: 0 <= k < |hs| ==> IsExceptionHandler(hs[k])
    ensures |ExceptionLines(hs, className)| == |hs|
  {
    if hs != [] {
      ExceptionLinesCount(hs[..|hs| - 1], className);
    }
  }

  class ExceptionTable {
    var exceptionhandlers: seq<Handler>
    var finallyhandlers: seq<Handler>

    ghost predicate Valid()
      reads this
    {
      (forall k :: 0 <= k < |exceptionhandlers| ==> IsExceptionHandler(exceptionhandlers[k])) &&
      (forall k :: 0 <= k < |finallyhandlers| ==> !IsExceptionHandler(finallyhandlers[k]))
    }

    /** The table of the loaded handlers, in file order. */
    constructor(handlers: seq<Handler>)
      ensures Valid()
      ensures exceptionhandlers == ExceptionHandlers(handlers)
      ensures finallyhandlers == FinallyHandlers(handlers)
    {
      exceptionhandlers := [];
      finallyhandlers := [];
      new;
      Initialize(handlers);
    }

    /** `_initialize`: each handler with a class index is appended to the
        exception handlers, every other one to the finally handlers. */
    method Initialize(handlers: seq<Handler>)
      requires Valid()
      modifies this
      ensures Valid()
      ensures exceptionhandlers == old(exceptionhandlers) + ExceptionHandlers(handlers)
      ensures finallyhandlers == old(finallyhandlers) + FinallyHandlers(handlers)
    {
      var i := 0;
      while i < |handlers|
        invariant 0 <= i <= |handlers|
        invariant Valid()
        invariant exceptionhandlers == old(exceptionhandlers) + ExceptionHandlers(handlers[..i])
        invariant finallyhandlers == old(finallyhandlers) + FinallyHandlers(handlers[..i])
      {
        assert handlers[..i + 1][..i] == handlers[..i];
        if handlers[i].cnix.Some? {
          exceptionhandlers := exceptionhandlers + [handlers[i]];
        } else {
          finallyhandlers := finallyhandlers + [handlers[i]];
        }
        i := i + 1;
      }
      assert handlers[..i] == handlers;
    }

    /** `tostring`: the exception lines, then the finally lines. */
    method ToString(className: int -> string) returns (s: string)
      requires Valid()
      ensures s == Join("\n", ExceptionLines(exceptionhandlers, className) + FinallyLines(finallyhandlers))
    {
      var elines := ExceptionLinesOf(exceptionhandlers, className);
      var flines := FinallyLinesOf(finallyhandlers);
      s := Join("\n", elines + flines);
    }
  }

  method ExceptionLinesOf(hs: seq<Handler>, className: int -> string) returns (lines: seq<string>)
    requires forall k :: 0 <= k < |hs| ==> IsExceptionHandler(hs[k])
    ensures lines == ExceptionLines(hs, className)
  {
    lines := [];
    var i := 0;
    while i < |hs|
      invariant 0 <= i <= |hs|
      invariant lines == ExceptionLines(hs[..i], className)
    {
      assert hs[..i + 1][..i] == hs[..i];
      lines := lines + [HandlerLine(hs[i], className(hs[i].cnix.value))];
      i := i + 1;
    }
    assert hs[..i] == hs;
  }

  method FinallyLinesOf(hs: seq<Handler>) returns (lines: seq<string>)
    ensures lines == FinallyLines(hs)
  {
    lines := [];
    var i := 0;
    while i < |hs|
      invariant 0 <= i <= |hs|
      invariant lines == FinallyLines(hs[..i])
    {
      FinallyLinesSnoc(hs, i);
      lines := lines + [HandlerLine(hs[i], "finally")];
      i := i + 1;
    }
    assert hs[..i] == hs;
  }

  lemma FinallyLinesSnoc(hs: seq<Handler>, i: nat)
    requires i < |hs|
    ensures FinallyLines(hs[..i + 1]) == FinallyLines(hs[..i]) + [HandlerLine(hs[i], "finally")]
  {
    assert hs[..i + 1][..i] == hs[..i];
  }
}
