/** Method and value descriptors of the type dictionary
    (chj/index/JMethodDescriptorTypes.py). A method descriptor record's
    args hold a return flag, then the value-type index of the return type
    when the flag is 1, then the value-type indices of the arguments. The
    text of a value type is the parameter `typeText`. */
module JMethodDescriptorTypes {
  import opened Wrappers
  import opened Strings

  /** A method descriptor record's args. */
  datatype MethodDescriptor = MethodDescriptor(args: seq<int>)

  /** A value descriptor record's args: the value-type index first. */
  datatype ValueDescriptor = ValueDescriptor(args: seq<int>)

  /** `has_return_value`: the flag is 1; an IndexError without args. */
  function HasReturnValue(m: MethodDescriptor): (r: Result<bool>)
    ensures r.Ok? <==> |m.args| > 0
    ensures r.Ok? ==> (r.value <==> m.args[0] == 1)
  {
    if |m.args| == 0 then Err(IndexError("list index out of range")) else Ok(m.args[0] == 1)
  }

  /** `get_return_type`: the index at args[1] with a return value, None
      without. */
  function ReturnType(m: MethodDescriptor): (r: Result<Option<int>>)
    ensures r.Ok? <==> |m.args| > 0 && (m.args[0] == 1 ==> |m.args| > 1)
    ensures r.Ok? ==> (r.value.Some? <==> m.args[0] == 1)
    ensures r.Ok? && r.value.Some? ==> r.value.value == m.args[1]
  {
    var has := HasReturnValue(m);
    if has.Err? then Err(has.error)
    else if has.value then
      if |m.args| < 2 then Err(IndexError("list index out of range")) else Ok(Some(m.args[1]))
    else Ok(None)
  }

  /** Python's xs[k:]: empty when k is past the end. */
  function Drop(xs: seq<int>, k: nat): seq<int>
  {
    if k <= |xs| then xs[k..] else []
  }

  /** `get_argument_types`: args[2:] with a return value, args[1:]
      without. */
  function ArgumentTypes(m: MethodDescriptor): (r: Result<seq<int>>)
    ensures r.Ok? <==> |m.args| > 0
    ensures r.Ok? && m.args[0] == 1 ==> r.value == Drop(m.args, 2)
    ensures r.Ok? && m.args[0] != 1 ==> r.value == m.args[1..]
  {
    var has := HasReturnValue(m);
    if has.Err? then Err(has.error)
    else if has.value then Ok(Drop(m.args, 2))
    else Ok(m.args[1..])
  }

  function Texts(xs: seq<int>, typeText: int -> string): (r: seq<string>)
    ensures |r| == |xs| && forall k :: 0 <= k < |xs| ==> r[k] == typeText(xs[k])
  {
    seq(|xs|, k requires 0 <= k < |xs| => typeText(xs[k]))
  }

  /** `__str__`: the argument types comma-joined in parentheses, followed
      by the return type, or nothing when there is none. */
  function ToString(m: MethodDescriptor, typeText: int -> string): Result<string>
  {
    var ret := ReturnType(m);
    var argTypes := ArgumentTypes(m);
    if ret.Err? then Err(ret.error)
    else if argTypes.Err? then Err(argTypes.error)
    else
      var sreturn := if ret.value.None? then "" else typeText(ret.value.value);
      Ok("(" + Join(",", Texts(argTypes.value, typeText)) + ")" + sreturn)
  }

  /** The record of a descriptor with the given return type and argument
      types, as the analyzer writes it. */
  function Encode(ret: Option<int>, argTypes: seq<int>): MethodDescriptor
  {
    if ret.Some? then MethodDescriptor([1, ret.value] + argTypes) else MethodDescriptor([0] + argTypes)
  }

  /** Reading a written descriptor gives back its return and argument
      types, and its text lists the arguments in order before the return
      type. */
  lemma EncodeRoundTrip(ret: Option<int>, argTypes: seq<int>, typeText: int -> string)
    ensures HasReturnValue(Encode(ret, argTypes)) == Ok(ret.Some?)
    ensures ReturnType(Encode(ret, argTypes)) == Ok(ret)
    ensures ArgumentTypes(Encode(ret, argTypes)) == Ok(argTypes)
    ensures ToString(Encode(ret, argTypes), typeText) ==
      Ok("(" + Join(",", Texts(argTypes, typeText)) + ")" + (if ret.Some? then typeText(ret.value) else ""))
  {
    var m := Encode(ret, argTypes);
    if ret.Some? {
      assert Drop(m.args, 2) == argTypes;
    } else {
      assert m.args[1..] == argTypes;
    }
  }

  /** Every readable descriptor is the record of its own return and
      argument types. */
  lemma DecodeEncode(m: MethodDescriptor)
    requires ReturnType(m).Ok? && (m.args[0] == 0 || m.args[0] == 1)
    ensures Encode(ReturnType(m).value, ArgumentTypes(m).value) == m
  {
    if m.args[0] == 1 {
      assert m.args == [1, m.args[1]] + m.args[2..];
    } else {
      assert m.args == [0] + m.args[1..];
    }
  }

  /** `get_value_type` of a value descriptor: the index at args[0]. */
  function ValueType(v: ValueDescriptor): (r: Result<int>)
    ensures r.Ok? <==> |v.args| > 0
    ensures r.Ok? ==> r.value == v.args[0]
  {
    if |v.args| == 0 then Err(IndexError("list index out of range")) else Ok(v.args[0])
  }

  /** `__str__` of a value descriptor: 'descr:' and the value type. */
  function ValueDescriptorToString(v: ValueDescriptor, typeText: int -> string): (r: Result<string>)
    ensures r.Ok? <==> |v.args| > 0
    ensures r.Ok? ==> |r.value| >= 6 && r.value[..6] == "descr:" && r.value[6..] == typeText(v.args[0])
  {
    var t := ValueType(v);
    if t.Err? then Err(t.error) else Ok("descr:" + typeText(t.value))
  }
}
