/** Value types of fields and variables (chj/index/JValueTypes.py): object
    types, basic types named by their descriptor letter, and the base kind
    for any other tag. */
module JValueTypes {

  /** The object types a value type may refer to (chj/index/JObjectTypes.py
      is not part of this model beyond these two kinds): a class, with the
      name the data dictionary gives it, or an array of a value type. */
  datatype JObjectType =
    | ClassObjectType(cnix: int, className: string)
    | ArrayObjectType(elem: JValueType)

  datatype JValueType =
    | ObjectValueType(objectType: JObjectType)   // 'o'
    | BasicValueType(basicType: string)          // 'b', with tags[1] as the type letter
    | ValueTypeBase(tag: string)                 // any other tag

  predicate IsObjectValueType(v: JValueType) { v.ObjectValueType? }

  predicate IsObjectType(v: JValueType) { v.ObjectValueType? }

  predicate IsObject(v: JValueType) { v.ObjectValueType? }

  /** An object value type is an array type when its object type is. */
  predicate IsArrayType(v: JValueType) { v.ObjectValueType? && v.objectType.ArrayObjectType? }

  predicate IsBasicType(v: JValueType) { v.BasicValueType? }

  /** No kind overrides the base answer. */
  predicate IsScalar(v: JValueType) { false }

  predicate IsScalara(v: JValueType) { v.BasicValueType? }

  predicate IsLong(v: JValueType) { v.BasicValueType? && v.basicType == "L" }

  predicate IsDouble(v: JValueType) { v.BasicValueType? && v.basicType == "D" }

  /** The size of a value in bytes: 8 for long and double, 4 for
      everything else, objects included. */
  function GetScalarSize(v: JValueType): (n: int)
    ensures n == 4 || n == 8
    ensures n == 8 <==> IsLong(v) || IsDouble(v)
  {
    if v.BasicValueType? && (IsLong(v) || IsDouble(v)) then 8 else 4
  }

  function ObjectTypeToString(o: JObjectType): (s: string)
    ensures o.ClassObjectType? ==> s == o.className
  {
    match o
    case ClassObjectType(_, name) => name
    case ArrayObjectType(elem) => ValueTypeToString(elem)
  }

  /** `__str__`: an object value type prints as its object type, a basic
      type as its letter. */
  function ValueTypeToString(v: JValueType): (s: string)
    ensures v.BasicValueType? ==> s == v.basicType
  {
    match v
    case ObjectValueType(o) => ObjectTypeToString(o)
    case BasicValueType(b) => b
    case ValueTypeBase(_) => "jvaluetypebase"
  }

  /** The kinds and their answers: the base kind answers no to everything
      with size 4; an object value type is an object, an object type and an
      object value type and never basic; a basic type is the only scalar
      kind and the only one that can be 8 wide. */
  lemma Classification(v: JValueType)
    ensures v.ValueTypeBase? ==>
      !IsObjectValueType(v) && !IsObjectType(v) && !IsObject(v) && !IsArrayType(v) && !IsBasicType(v) &&
      !IsScalar(v) && !IsScalara(v) && !IsLong(v) && !IsDouble(v) && GetScalarSize(v) == 4
    ensures IsObjectValueType(v) <==> IsObject(v) && IsObjectType(v)
    ensures IsObject(v) ==> !IsBasicType(v) && GetScalarSize(v) == 4
    ensures IsArrayType(v) ==> IsObject(v)
    ensures IsScalara(v) <==> IsBasicType(v)
    ensures GetScalarSize(v) == 8 ==> IsBasicType(v) && (v.basicType == "L" || v.basicType == "D")
  {
  }
}
