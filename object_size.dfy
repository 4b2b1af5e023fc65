/** The size of the objects of a class (chj/app/ObjectSize.py): a count of
    scalar bytes plus the object types and array fields it holds, built up
    field by field and from the sizes of its superclasses. */
module ObjectSizes {
  import opened JValueTypes

  /** A field signature: its name and value type. */
  datatype FieldSignature = FieldSignature(name: string, vtype: JValueType)

  class ObjectSize {
    var scalar: int
    var objects: seq<JObjectType>
    var arrays: seq<FieldSignature>

    /** A new size is empty. */
    constructor()
      ensures scalar == 0 && objects == [] && arrays == []
    {
      scalar := 0;
      objects := [];
      arrays := [];
    }

    method AddScalar(s: int)
      modifies this
      ensures scalar == old(scalar) + s
      ensures objects == old(objects) && arrays == old(arrays)
    {
      scalar := scalar + s;
    }

    method AddObject(o: JObjectType)
      modifies this
      ensures objects == old(objects) + [o]
      ensures scalar == old(scalar) && arrays == old(arrays)
    {
      objects := objects + [o];
    }

    method AddArray(f: FieldSignature)
      modifies this
      ensures arrays == old(arrays) + [f]
      ensures scalar == old(scalar) && objects == old(objects)
    {
      arrays := arrays + [f];
    }

    /** `add_field`: the field's scalar size, its object type for an object
        field, and the field itself for an array field. */
    method AddField(f: FieldSignature)
      modifies this
      ensures scalar == old(scalar) + GetScalarSize(f.vtype)
      ensures objects == old(objects) + (if IsObject(f.vtype) then [f.vtype.objectType] else [])
      ensures arrays == old(arrays) + (if IsArrayType(f.vtype) then [f] else [])
    {
      AddScalar(GetScalarSize(f.vtype));
      if IsObject(f.vtype) {
        AddObject(f.vtype.objectType);
      }
      if IsArrayType(f.vtype) {
        AddArray(f);
      }
    }

    /** `add_object_size`: adds the other size's scalars and appends its
        objects and arrays; the other size is not changed. */
    method AddObjectSize(other: ObjectSize)
      requires other != this
      modifies this
      ensures scalar == old(scalar) + other.scalar
      ensures objects == old(objects) + other.objects
      ensures arrays == old(arrays) + other.arrays
    {
      scalar := scalar + other.scalar;
      objects := objects + other.objects;
      arrays := arrays + other.arrays;
    }
  }

  /** The size of a list of fields added one by one to an empty size. */
  function FieldsScalar(fs: seq<FieldSignature>): (n: int)
    ensures n >= 4 * |fs|
  {
    if fs == [] then 0 else FieldsScalar(fs[..|fs| - 1]) + GetScalarSize(fs[|fs| - 1].vtype)
  }

  function FieldsObjects(fs: seq<FieldSignature>): (r: seq<JObjectType>)
    ensures |r| <= |fs|
  {
    if fs == [] then []
    else
      var f := fs[|fs| - 1];
      FieldsObjects(fs[..|fs| - 1]) + (if IsObject(f.vtype) then [f.vtype.objectType] else [])
  }

  /** Adding the fields of a class in order gives their total scalar size
      and their object types in order. */
  method SizeOfFields(fs: seq<FieldSignature>) returns (size: ObjectSize)
    ensures fresh(size)
    ensures size.scalar == FieldsScalar(fs) && size.objects == FieldsObjects(fs)
  {
    size := new ObjectSize();
    var i := 0;
    while i < |fs|
      invariant 0 <= i <= |fs|
      invariant size.scalar == FieldsScalar(fs[..i]) && size.objects == FieldsObjects(fs[..i])
    {
      assert fs[..i + 1][..i] == fs[..i];
      size.AddField(fs[i]);
      i := i + 1;
    }
    assert fs[..i] == fs;
  }

  /** Every object field contributes its object type: the object types are
      exactly those of the object fields. */
  lemma {:induction false} FieldsObjectsMembers(fs: seq<FieldSignature>, o: JObjectType)
    ensures o in FieldsObjects(fs) <==> exists k :: 0 <= k < |fs| && IsObject(fs[k].vtype) && fs[k].vtype.objectType == o
  {
    if fs != [] {
      var init := fs[..|fs| - 1];
      FieldsObjectsMembers(init, o);
      if exists k :: 0 <= k < |init| && IsObject(init[k].vtype) && init[k].vtype.objectType == o {
        var k :| 0 <= k < |init| && IsObject(init[k].vtype) && init[k].vtype.objectType == o;
        assert fs[k] == init[k];
      }
      if exists k :: 0 <= k < |fs| && IsObject(fs[k].vtype) && fs[k].vtype.objectType == o {
        var k :| 0 <= k < |fs| && IsObject(fs[k].vtype) && fs[k].vtype.objectType == o;
        if k < |init| {
          assert init[k] == fs[k];
        }
      }
    }
  }
}
