/** The interning table behind every dictionary of the library: keys are
    mapped to consecutive indices starting at 1, an index can be reserved
    before its object exists, and the table can be rolled back to a
    checkpoint. */
module IndexedTables {
  import opened Wrappers
  import opened Strings
  import Records

  type Key = Records.Key

  predicate StrictlyIncreasing(s: seq<int>)
  {
    forall j, l :: 0 <= j < l < |s| ==> s[j] < s[l]
  }

  /** Python's list.remove(x) for a value known to be present: drops the first occurrence. */
  function RemoveFirst(s: seq<int>, x: int): (r: seq<int>)
    ensures x in s ==> |r| == |s| - 1
    ensures x !in s ==> r == s
    ensures forall y :: y in r ==> y in s
  {
    if s == [] then [] else if s[0] == x then s[1..] else [s[0]] + RemoveFirst(s[1..], x)
  }

  lemma {:induction false} RemoveFirstIncreasing(s: seq<int>, x: int)
    requires StrictlyIncreasing(s)
    ensures StrictlyIncreasing(RemoveFirst(s, x))
    ensures forall y :: y in RemoveFirst(s, x) <==> y in s && y != x
  {
    if s != [] {
      var t := s[1..];
      HeadBelowTail(s);
      if s[0] != x {
        RemoveFirstIncreasing(t, x);
        var r := RemoveFirst(t, x);
        var r' := [s[0]] + r;
        assert RemoveFirst(s, x) == r';
        forall j, l | 0 <= j < l < |r'|
          ensures r'[j] < r'[l]
        {
          assert r'[l] == r[l - 1] && r[l - 1] in r;
          if j > 0 {
            assert r'[j] == r[j - 1];
          }
        }
      }
    }
  }

  /** The head of a strictly increasing sequence is below every later element. */
  lemma HeadBelowTail(s: seq<int>)
    requires s != [] && StrictlyIncreasing(s)
    ensures StrictlyIncreasing(s[1..])
    ensures forall y :: y in s[1..] ==> s[0] < y
  {
    var t := s[1..];
    forall y | y in t
      ensures s[0] < y
    {
      var i :| 0 <= i < |t| && t[i] == y;
      assert s[i + 1] == y;
    }
  }

  lemma MinExists(s: set<int>)
    requires s != {}
    ensures exists m :: m in s && forall y :: y in s ==> m <= y
  {
    if forall y :: y !in s {
      assert false;
    }
    var x :| x in s;
    var rest := s - {x};
    if rest == {} {
      assert s == {x};
    } else {
      MinExists(rest);
      var m :| m in rest && forall y :: y in rest ==> m <= y;
      var least := if x < m then x else m;
      forall y | y in s
        ensures least <= y
      {
        if y != x {
          assert y in rest;
        }
      }
      assert least in s;
    }
  }

  /** A new empty table, with a contract light enough to create many. */
  method NewTable<V>(name: string) returns (t: IndexedTable<V>)
    ensures fresh(t) && t.name == name && t.IsEmpty()
  {
    t := new IndexedTable<V>(name);
  }

  class IndexedTable<V> {
    const name: string
    var keytable: map<Key, int>
    var indextable: map<int, V>
    var next: int
    var reserved: seq<int>
    var checkpoint: Option<int>

    /** Every stored index and every reservation lies below `next`, keys point
        at stored objects, reservations are pending (not yet stored) and
        increasing, and a checkpoint never lies above `next`. */
    ghost predicate Valid()
      reads this
    {
      next >= 1 &&
      (forall i :: i in indextable ==> i < next) &&
      (forall k :: k in keytable ==> keytable[k] in indextable) &&
      (forall j :: 0 <= j < |reserved| ==> reserved[j] < next && reserved[j] !in indextable) &&
      StrictlyIncreasing(reserved) &&
      (checkpoint.Some? ==> 1 <= checkpoint.value <= next)
    }

    /** Interning: distinct keys have distinct indices, and no key points at
        a pending reservation. `add`, `reserve`, `commit_reserved` and the
        resets keep this; only loading arbitrary XML can break it. */
    ghost predicate Interning()
      reads this
    {
      (forall k1, k2 :: k1 in keytable && k2 in keytable && keytable[k1] == keytable[k2] ==> k1 == k2) &&
      (forall k :: k in keytable ==> keytable[k] !in reserved)
    }

    /** Since the checkpoint, every index has been stored or reserved. */
    ghost predicate Covered()
      reads this
    {
      checkpoint.Some? ==> forall i :: checkpoint.value <= i < next ==> i in indextable || i in reserved
    }

    constructor (name: string)
      ensures Valid() && Interning() && Covered()
      ensures this.name == name
      ensures keytable == map[] && indextable == map[] && next == 1 && reserved == [] && checkpoint == None
    {
      this.name := name;
      keytable := map[];
      indextable := map[];
      next := 1;
      reserved := [];
      checkpoint := None;
    }

    /** The state of a new or reset table. */
    ghost predicate IsEmpty()
      reads this
    {
      keytable == map[] && indextable == map[] && next == 1 && reserved == [] && checkpoint == None
    }

    lemma EmptyIsValid()
      requires IsEmpty()
      ensures Valid() && Interning() && Covered()
    {
    }

    method Reset()
      modifies this
      ensures Valid() && Interning() && Covered()
      ensures keytable == map[] && indextable == map[] && next == 1 && reserved == [] && checkpoint == None
    {
      keytable := map[];
      indextable := map[];
      next := 1;
      reserved := [];
      checkpoint := None;
    }

    /** Records and returns `next` when no checkpoint exists; raises otherwise. */
    method SetCheckpoint() returns (r: Result<int>)
      requires Valid()
      modifies this`checkpoint
      ensures Valid()
      ensures old(checkpoint).None? ==> r == Ok(next) && checkpoint == Some(next)
      ensures old(checkpoint).Some? ==> r.Err? && r.error.IndexedTableError? && checkpoint == old(checkpoint)
      ensures old(Interning()) ==> Interning()
      ensures old(Covered()) ==> Covered()
    {
      if checkpoint.None? {
        checkpoint := Some(next);
        r := Ok(next);
      } else {
        r := Err(IndexedTableError("Checkpoint has already been set at " + IntToString(checkpoint.value)));
      }
    }

    method RemoveCheckpoint()
      requires Valid()
      modifies this`checkpoint
      ensures Valid() && checkpoint == None
      ensures old(Interning()) ==> Interning()
    {
      checkpoint := None;
    }

    /** Removes every entry added since the checkpoint: the non-reserved
        indices in [cp, next) and the keys mapped to an index at or above cp.
        Entries below cp are untouched. */
    method ResetToCheckpoint() returns (r: Result<int>)
      requires Valid()
      modifies this`keytable, this`indextable, this`next, this`reserved, this`checkpoint
      ensures old(checkpoint).None? ==> r.Err? && r.error.CHJError? && unchanged(this)
      ensures r.Ok? ==> old(checkpoint).Some? && r.value == old(checkpoint).value
      ensures r.Ok? ==>
        var cp := r.value;
        (forall k :: k in keytable <==> k in old(keytable) && old(keytable)[k] < cp) &&
        (forall k :: k in keytable ==> keytable[k] == old(keytable)[k]) &&
        (forall i :: i in indextable <==> i in old(indextable) && (i < cp || i in old(reserved))) &&
        (forall i :: i in indextable ==> indextable[i] == old(indextable)[i]) &&
        next == cp && reserved == [] && checkpoint == None
      ensures r.Ok? ==> Valid() && Covered()
      ensures r.Ok? && old(Interning()) ==> Interning()
      ensures old(checkpoint).Some? && old(Covered()) ==> r.Ok?
      ensures r.Err? && old(checkpoint).Some? ==>
        r.error.KeyError? && keytable == old(keytable) && next == old(next) &&
        reserved == old(reserved) && checkpoint == old(checkpoint) &&
        (forall i :: i in indextable ==> i in old(indextable) && indextable[i] == old(indextable)[i]) &&
        (forall i :: i in old(indextable) && !(old(checkpoint).value <= i < next && i !in reserved) ==> i in indextable)
    {
      if checkpoint.None? {
        r := Err(CHJError("Cannot reset non-existent checkpoint"));
        return;
      }
      var cp := checkpoint.value;
      var gap := DropIndicesFrom(cp);
      if gap.Some? {
        r := Err(KeyError(IntToString(gap.value)));
        return;
      }
      DropKeysFrom(cp);
      checkpoint := None;
      reserved := [];
      next := cp;
      r := Ok(cp);
    }

    /** The first loop of `reset_to_checkpoint`: pops every non-reserved
        index in [cp, next); stops at the first such index that has no entry
        (where Python's pop raises KeyError). */
    method DropIndicesFrom(cp: int) returns (gap: Option<int>)
      requires Valid() && checkpoint == Some(cp)
      modifies this`indextable
      ensures forall i :: i in indextable ==> i in old(indextable) && indextable[i] == old(indextable)[i]
      ensures gap.None? ==> forall i :: i in indextable <==> i in old(indextable) && !(cp <= i < next && i !in reserved)
      ensures gap.Some? ==> forall i :: i in old(indextable) && !(cp <= i < next && i !in reserved) ==> i in indextable
      ensures gap.Some? ==> cp <= gap.value < next && gap.value !in reserved && gap.value !in old(indextable)
    {
      ghost var it0 := indextable;
      var i := cp;
      while i < next
        invariant cp <= i <= next
        invariant forall j :: j in indextable <==> j in it0 && !(cp <= j < i && j !in reserved)
        invariant forall j :: j in indextable ==> indextable[j] == it0[j]
      {
        if i !in reserved {
          if i !in indextable {
            gap := Some(i);
            return;
          }
          indextable := indextable - {i};
        }
        i := i + 1;
      }
      gap := None;
    }

    /** The second loop of `reset_to_checkpoint`: drops every key mapped to
        an index at or above cp. */
    method DropKeysFrom(cp: int)
      modifies this`keytable
      ensures forall k :: k in keytable <==> k in old(keytable) && old(keytable)[k] < cp
      ensures forall k :: k in keytable ==> keytable[k] == old(keytable)[k]
    {
      ghost var kt0 := keytable;
      var ks := keytable.Keys;
      while ks != {}
        invariant ks <= kt0.Keys
        invariant forall k :: k in keytable <==> k in kt0 && (kt0[k] < cp || k in ks)
        invariant forall k :: k in keytable ==> keytable[k] == kt0[k]
        decreases |ks|
      {
        var k :| k in ks;
        if keytable[k] >= cp {
          keytable := keytable - {k};
        }
        ks := ks - {k};
      }
    }

    /** Returns the stored index of a present key, changing nothing; a fresh
        key gets index `next`, the object f(next, key), and `next` goes up by one. */
    method Add(key: Key, f: (int, Key) -> V) returns (index: int)
      requires Valid()
      modifies this`keytable, this`indextable, this`next
      ensures Valid()
      ensures key in old(keytable) ==>
        index == old(keytable)[key] && keytable == old(keytable) &&
        indextable == old(indextable) && next == old(next)
      ensures key !in old(keytable) ==>
        index == old(next) && next == old(next) + 1 &&
        keytable == old(keytable)[key := index] &&
        indextable == old(indextable)[index := f(index, key)]
      ensures index in indextable && key in keytable && keytable[key] == index
      ensures old(Interning()) ==> Interning()
      ensures old(Covered()) ==> Covered()
    {
      if key in keytable {
        index := keytable[key];
      } else {
        index := next;
        var obj := f(index, key);
        keytable := keytable[key := index];
        indextable := indextable[index := obj];
        next := next + 1;
      }
    }

    method HasKey(key: Key) returns (b: bool)
      ensures b <==> key in keytable
    {
      b := key in keytable;
    }

    /** The index of a present key; CHJError for a missing one. */
    method GetIndex(key: Key) returns (r: Result<int>)
      ensures r.Ok? <==> key in keytable
      ensures r.Ok? ==> r.value == keytable[key]
      ensures r.Err? ==> r.error.CHJError?
    {
      if key in keytable {
        r := Ok(keytable[key]);
      } else {
        r := Err(CHJError("key missing from IndexedTable : " + name));
      }
    }

    /** Hands out `next` as a reservation without storing an object. */
    method Reserve() returns (index: int)
      requires Valid()
      modifies this`reserved, this`next
      ensures Valid()
      ensures index == old(next) && next == old(next) + 1
      ensures reserved == old(reserved) + [index]
      ensures index !in indextable
      ensures old(Interning()) ==> Interning()
      ensures old(Covered()) ==> Covered()
    {
      index := next;
      reserved := reserved + [index];
      next := next + 1;
    }

    /** Stores key and object at a reserved index and drops the reservation;
        raises for an index that is not reserved. */
    method CommitReserved(index: int, key: Key, obj: V) returns (r: Result<()>)
      requires Valid()
      modifies this`keytable, this`indextable, this`reserved
      ensures Valid()
      ensures r.Ok? <==> index in old(reserved)
      ensures r.Ok? ==>
        keytable == old(keytable)[key := index] &&
        indextable == old(indextable)[index := obj] &&
        reserved == RemoveFirst(old(reserved), index) && index !in reserved
      ensures r.Err? ==>
        r.error.IndexedTableError? && keytable == old(keytable) &&
        indextable == old(indextable) && reserved == old(reserved)
      ensures old(Interning()) ==> Interning()
      ensures old(Covered()) ==> Covered()
    {
      if index in reserved {
        RemoveFirstIncreasing(reserved, index);
        keytable := keytable[key := index];
        indextable := indextable[index := obj];
        ghost var res0 := reserved;
        reserved := RemoveFirst(reserved, index);
        assert forall j :: 0 <= j < |reserved| ==> reserved[j] in res0 && reserved[j] != index;
        r := Ok(());
      } else {
        r := Err(IndexedTableError("Trying to commit nonexisting index: " + IntToString(index)));
      }
    }

    function Size(): (n: int)
      reads this
      requires Valid()
      ensures n >= 0 && n + 1 == next
    {
      next - 1
    }

    /** The object stored at a present index; IndexedTableError for any other. */
    method Retrieve(index: int) returns (r: Result<V>)
      ensures r.Ok? <==> index in indextable
      ensures r.Ok? ==> r.value == indextable[index]
      ensures r.Err? ==> r.error.IndexedTableError?
    {
      if index in indextable {
        r := Ok(indextable[index]);
      } else {
        r := Err(IndexedTableError("Unable to retrieve item " + IntToString(index) + " from table " + name));
      }
    }

    /** Entries listed once each, in strictly ascending index order. */
    ghost predicate SortedEntries(es: seq<(int, V)>)
      reads this
    {
      (forall j :: 0 <= j < |es| ==> es[j].0 in indextable && es[j].1 == indextable[es[j].0]) &&
      (forall j, l :: 0 <= j < l < |es| ==> es[j].0 < es[l].0) &&
      (forall i :: i in indextable ==> exists j :: 0 <= j < |es| && es[j].0 == i)
    }

    /** `items`: every stored (index, object) pair, in ascending index order. */
    method Items() returns (es: seq<(int, V)>)
      ensures SortedEntries(es)
      ensures |es| == |indextable.Keys|
    {
      es := [];
      ghost var idx: seq<int> := [];
      var remaining := indextable.Keys;
      while remaining != {}
        invariant remaining <= indextable.Keys
        invariant forall j :: 0 <= j < |es| ==> es[j].0 in indextable && es[j].0 !in remaining && es[j].1 == indextable[es[j].0]
        invariant forall j, l :: 0 <= j < l < |es| ==> es[j].0 < es[l].0
        invariant forall j, y :: 0 <= j < |es| && y in remaining ==> es[j].0 < y
        invariant |idx| == |es| && forall j :: 0 <= j < |es| ==> idx[j] == es[j].0
        invariant forall i :: i in indextable ==> i in remaining || i in idx
        invariant |es| + |remaining| == |indextable.Keys|
        decreases |remaining|
      {
        MinExists(remaining);
        var m :| m in remaining && forall y :: y in remaining ==> m <= y;
        es := es + [(m, indextable[m])];
        idx := idx + [m];
        remaining := remaining - {m};
      }
    }

    /** `values`: the stored objects in ascending index order. */
    method Values() returns (vs: seq<V>, ghost es: seq<(int, V)>)
      ensures SortedEntries(es)
      ensures |vs| == |es| == |indextable.Keys|
      ensures forall j :: 0 <= j < |vs| ==> vs[j] == es[j].1
    {
      vs := [];
      es := [];
      ghost var idx: seq<int> := [];
      var remaining := indextable.Keys;
      while remaining != {}
        invariant remaining <= indextable.Keys
        invariant |vs| == |es|
        invariant forall j :: 0 <= j < |vs| ==> vs[j] == es[j].1
        invariant forall j :: 0 <= j < |es| ==> es[j].0 in indextable && es[j].0 !in remaining && es[j].1 == indextable[es[j].0]
        invariant forall j, l :: 0 <= j < l < |es| ==> es[j].0 < es[l].0
        invariant forall j, y :: 0 <= j < |es| && y in remaining ==> es[j].0 < y
        invariant |idx| == |es| && forall j :: 0 <= j < |es| ==> idx[j] == es[j].0
        invariant forall i :: i in indextable ==> i in remaining || i in idx
        invariant |es| + |remaining| == |indextable.Keys|
        decreases |remaining|
      {
        MinExists(remaining);
        var m :| m in remaining && forall y :: y in remaining ==> m <= y;
        vs := vs + [indextable[m]];
        es := es + [(m, indextable[m])];
        idx := idx + [m];
        remaining := remaining - {m};
      }
    }

    /** `write_xml`: one node per stored object, written by f, in ascending
        index order. */
    method WriteXml(f: V -> Records.Attributes) returns (nodes: seq<Records.Attributes>, ghost es: seq<(int, V)>)
      ensures SortedEntries(es)
      ensures |nodes| == |es| == |indextable.Keys|
      ensures forall j :: 0 <= j < |nodes| ==> nodes[j] == f(es[j].1)
    {
      var vs;
      vs, es := Values();
      nodes := [];
      var j := 0;
      while j < |vs|
        invariant 0 <= j <= |vs|
        invariant |nodes| == j
        invariant forall l :: 0 <= l < j ==> nodes[l] == f(vs[l])
      {
        nodes := nodes + [f(vs[j])];
        j := j + 1;
      }
    }

    /** `retrieve_by_key`: the (key, object) pairs of the keys that satisfy f. */
    method RetrieveByKey(f: Key -> bool) returns (r: seq<(Key, V)>)
      requires Valid()
      ensures forall j :: 0 <= j < |r| ==>
        r[j].0 in keytable && f(r[j].0) && r[j].1 == indextable[keytable[r[j].0]]
      ensures forall k :: k in keytable && f(k) ==> exists j :: 0 <= j < |r| && r[j].0 == k
      ensures forall j, l :: 0 <= j < l < |r| ==> r[j].0 != r[l].0
    {
      r := [];
      ghost var keys: seq<Key> := [];
      var ks := keytable.Keys;
      while ks != {}
        invariant ks <= keytable.Keys
        invariant forall j :: 0 <= j < |r| ==>
          r[j].0 in keytable && r[j].0 !in ks && f(r[j].0) && r[j].1 == indextable[keytable[r[j].0]]
        invariant |keys| == |r| && forall j :: 0 <= j < |r| ==> keys[j] == r[j].0
        invariant forall k :: k in keytable && f(k) ==> k in ks || k in keys
        invariant forall j, l :: 0 <= j < l < |r| ==> r[j].0 != r[l].0
        decreases |ks|
      {
        var k :| k in ks;
        if f(k) {
          r := r + [(k, indextable[keytable[k]])];
          keys := keys + [k];
        }
        ks := ks - {k};
      }
    }

    /** `read_xml`: raises when the node is missing; otherwise stores every
        loaded object under its key and index, later objects replacing
        earlier ones, and raises `next` above every loaded index. */
    method ReadXml(node: Option<seq<V>>, getKey: V -> Key, getIndex: V -> int) returns (r: Result<()>)
      requires Valid()
      modifies this`keytable, this`indextable, this`next
      ensures node.None? <==> r.Err?
      ensures r.Err? ==> r.error == IndexedTableError(name) && unchanged(this)
      ensures r.Ok? ==> indextable == old(indextable) + LoadedObjects(node.value, getIndex)
      ensures r.Ok? ==> keytable == old(keytable) + LoadedKeys(node.value, getKey, getIndex)
      ensures r.Ok? ==> next == LoadedNext(old(next), node.value, getIndex)
      ensures r.Ok? ==> forall o :: o in node.value ==> getIndex(o) < next && getIndex(o) in indextable && getKey(o) in keytable
      ensures r.Ok? ==> forall i :: i in indextable <==> i in old(indextable) || exists o :: o in node.value && getIndex(o) == i
      ensures r.Ok? ==> forall i :: i in indextable ==>
        (i in old(indextable) && indextable[i] == old(indextable)[i]) || indextable[i] in node.value
      ensures (node.None? || forall o :: o in node.value ==> getIndex(o) !in reserved) ==> Valid()
      ensures reserved == old(reserved) && checkpoint == old(checkpoint)
    {
      if node.None? {
        r := Err(IndexedTableError(name));
        return;
      }
      var objs := node.value;
      ghost var it0, kt0, n0 := indextable, keytable, next;
      LoadObjects(objs, getKey, getIndex);
      LoadFacts(kt0, it0, n0, objs, getKey, getIndex);
      if forall o :: o in objs ==> getIndex(o) !in reserved {
        ValidAfterLoad(kt0, it0, n0, objs, getKey, getIndex);
      }
      r := Ok(());
    }

    /** The loop of `read_xml`: each object in turn stored under its key
        and index. */
    method LoadObjects(objs: seq<V>, getKey: V -> Key, getIndex: V -> int)
      modifies this`keytable, this`indextable, this`next
      ensures indextable == old(indextable) + LoadedObjects(objs, getIndex)
      ensures keytable == old(keytable) + LoadedKeys(objs, getKey, getIndex)
      ensures next == LoadedNext(old(next), objs, getIndex)
    {
      ghost var it0, kt0, n0 := indextable, keytable, next;
      var j := 0;
      while j < |objs|
        invariant 0 <= j <= |objs|
        invariant indextable == it0 + LoadedObjects(objs[..j], getIndex)
        invariant keytable == kt0 + LoadedKeys(objs[..j], getKey, getIndex)
        invariant next == LoadedNext(n0, objs[..j], getIndex)
      {
        LoadStep(objs, j);
        var obj := objs[j];
        UnionUpdate(kt0, LoadedKeys(objs[..j], getKey, getIndex), getKey(obj), getIndex(obj));
        UnionUpdate(it0, LoadedObjects(objs[..j], getIndex), getIndex(obj), obj);
        keytable := keytable[getKey(obj) := getIndex(obj)];
        indextable := indextable[getIndex(obj) := obj];
        if getIndex(obj) >= next {
          next := getIndex(obj) + 1;
        }
        j := j + 1;
      }
      assert objs[..j] == objs;
    }

    /** Loading objects none of whose indices is reserved into a valid
        table leaves it valid. */
    lemma ValidAfterLoad(kt0: map<Key, int>, it0: map<int, V>, n0: int, objs: seq<V>, getKey: V -> Key, getIndex: V -> int)
      requires n0 >= 1 && (forall i :: i in it0 ==> i < n0) && (forall k :: k in kt0 ==> kt0[k] in it0)
      requires forall j :: 0 <= j < |reserved| ==> reserved[j] < n0 && reserved[j] !in it0
      requires StrictlyIncreasing(reserved) && (checkpoint.Some? ==> 1 <= checkpoint.value <= n0)
      requires indextable == it0 + LoadedObjects(objs, getIndex)
      requires keytable == kt0 + LoadedKeys(objs, getKey, getIndex)
      requires next == LoadedNext(n0, objs, getIndex)
      requires forall o :: o in objs ==> getIndex(o) !in reserved
      ensures Valid()
    {
      LoadedNextFacts(n0, objs, getIndex);
      LoadKeepsBounds(kt0, it0, n0, reserved, objs, getKey, getIndex);
    }
  }

  /** The objects a load stores, by index; a later object with the same
      index replaces an earlier one. */
  function LoadedObjects<V>(objs: seq<V>, getIndex: V -> int): map<int, V>
  {
    if objs == [] then map[]
    else
      var o := objs[|objs| - 1];
      LoadedObjects(objs[..|objs| - 1], getIndex)[getIndex(o) := o]
  }

  /** The keys a load stores, each with the index of its last object. */
  function LoadedKeys<V>(objs: seq<V>, getKey: V -> Key, getIndex: V -> int): map<Key, int>
  {
    if objs == [] then map[]
    else
      var o := objs[|objs| - 1];
      LoadedKeys(objs[..|objs| - 1], getKey, getIndex)[getKey(o) := getIndex(o)]
  }

  /** Loading into an empty table stores exactly what the load brings. */
  lemma EmptyUnion<K, W>(m: map<K, W>)
    ensures map[] + m == m
  {
  }

  lemma UnionUpdate<K, W>(a: map<K, W>, b: map<K, W>, k: K, w: W)
    ensures (a + b)[k := w] == a + b[k := w]
  {
  }

  /** Loading one more object updates the three results by that object. */
  lemma LoadStep<V>(objs: seq<V>, j: int)
    requires 0 <= j < |objs|
    ensures objs[..j + 1][..j] == objs[..j] && objs[..j + 1][j] == objs[j]
  {
  }

  /** What a load over tables kt0 and it0 with counter n0 leaves: every
      loaded object stored under its index below the new counter and its
      key; earlier entries kept unless a loaded index replaces them; no
      index other than the earlier and the loaded ones, and no object other
      than the earlier and the loaded ones. */
  lemma LoadFacts<V>(kt0: map<Key, int>, it0: map<int, V>, n0: int, objs: seq<V>, getKey: V -> Key, getIndex: V -> int)
    ensures var it, kt, n := it0 + LoadedObjects(objs, getIndex), kt0 + LoadedKeys(objs, getKey, getIndex), LoadedNext(n0, objs, getIndex);
      n >= n0 &&
      (forall o :: o in objs ==> getIndex(o) < n && getIndex(o) in it && getKey(o) in kt) &&
      (forall i :: i in it0 && (forall o :: o in objs ==> getIndex(o) != i) ==> i in it && it[i] == it0[i]) &&
      (forall i :: i in it <==> i in it0 || exists o :: o in objs && getIndex(o) == i) &&
      (forall i :: i in it ==> (i in it0 && it[i] == it0[i]) || it[i] in objs)
  {
    LoadedObjectsFacts(objs, getIndex);
    LoadedKeysFacts(objs, getKey, getIndex);
    LoadedNextFacts(n0, objs, getIndex);
  }

  /** A load keeps every index below the counter, every key pointing at a
      stored object, and the reservations pending when no loaded index is
      one of them. */
  lemma LoadKeepsBounds<V>(kt0: map<Key, int>, it0: map<int, V>, n0: int, res: seq<int>, objs: seq<V>, getKey: V -> Key, getIndex: V -> int)
    requires forall i :: i in it0 ==> i < n0
    requires forall k :: k in kt0 ==> kt0[k] in it0
    requires forall j :: 0 <= j < |res| ==> res[j] !in it0
    ensures var it, kt, n := it0 + LoadedObjects(objs, getIndex), kt0 + LoadedKeys(objs, getKey, getIndex), LoadedNext(n0, objs, getIndex);
      (forall i :: i in it ==> i < n) && (forall k :: k in kt ==> kt[k] in it) &&
      ((forall o :: o in objs ==> getIndex(o) !in res) ==> forall j :: 0 <= j < |res| ==> res[j] !in it)
  {
    LoadedObjectsFacts(objs, getIndex);
    LoadedKeysFacts(objs, getKey, getIndex);
    LoadedNextFacts(n0, objs, getIndex);
  }

  /** `next` after a load: one above the largest index seen, if above n. */
  function LoadedNext<V>(n: int, objs: seq<V>, getIndex: V -> int): int
  {
    if objs == [] then n
    else
      var m := LoadedNext(n, objs[..|objs| - 1], getIndex);
      var i := getIndex(objs[|objs| - 1]);
      if i >= m then i + 1 else m
  }

  /** A load stores exactly the loaded indices, each holding a loaded
      object with that index. */
  lemma {:induction false} LoadedObjectsFacts<V>(objs: seq<V>, getIndex: V -> int)
    ensures forall i :: i in LoadedObjects(objs, getIndex) <==> exists o :: o in objs && getIndex(o) == i
    ensures forall i :: i in LoadedObjects(objs, getIndex) ==>
      LoadedObjects(objs, getIndex)[i] in objs && getIndex(LoadedObjects(objs, getIndex)[i]) == i
  {
    if objs != [] {
      var init := objs[..|objs| - 1];
      LoadedObjectsFacts(init, getIndex);
      assert forall o :: o in objs <==> o in init || o == objs[|objs| - 1];
    }
  }

  /** Every loaded object's key is stored, pointing at some loaded index. */
  lemma {:induction false} LoadedKeysFacts<V>(objs: seq<V>, getKey: V -> Key, getIndex: V -> int)
    ensures forall o :: o in objs ==> getKey(o) in LoadedKeys(objs, getKey, getIndex)
    ensures forall k :: k in LoadedKeys(objs, getKey, getIndex) ==>
      exists o :: o in objs && getIndex(o) == LoadedKeys(objs, getKey, getIndex)[k]
  {
    if objs != [] {
      var init := objs[..|objs| - 1];
      LoadedKeysFacts(init, getKey, getIndex);
      assert forall o :: o in objs <==> o in init || o == objs[|objs| - 1];
    }
  }

  /** `next` ends at or above n and above every loaded index. */
  lemma {:induction false} LoadedNextFacts<V>(n: int, objs: seq<V>, getIndex: V -> int)
    ensures LoadedNext(n, objs, getIndex) >= n
    ensures forall o :: o in objs ==> getIndex(o) < LoadedNext(n, objs, getIndex)
  {
    if objs != [] {
      var init := objs[..|objs| - 1];
      LoadedNextFacts(n, init, getIndex);
      assert forall o :: o in objs <==> o in init || o == objs[|objs| - 1];
    }
  }

  /** The key loop of `reset_to_checkpoint` as written: it pops from the
      key table while iterating over its keys (here in insertion order), and
      Python 3 raises RuntimeError at the iteration step after the first
      pop. */
  function DropKeysAsWritten(keys: seq<(Key, int)>, cp: int): (r: Result<seq<(Key, int)>>)
  {
    if keys == [] then Ok([])
    else if keys[0].1 >= cp then Err(RuntimeError("dictionary changed size during iteration"))
    else
      match DropKeysAsWritten(keys[1..], cp)
      case Ok(rest) => Ok([keys[0]] + rest)
      case Err(e) => Err(e)
  }

  /** As written, the key loop fails exactly when there is a key to drop,
      so no reset can remove a key added since the checkpoint; when it
      succeeds it keeps every key. */
  lemma {:induction false} DropKeysAsWrittenFails(keys: seq<(Key, int)>, cp: int)
    ensures DropKeysAsWritten(keys, cp).Err? <==> exists j :: 0 <= j < |keys| && keys[j].1 >= cp
    ensures DropKeysAsWritten(keys, cp).Ok? ==> DropKeysAsWritten(keys, cp).value == keys
  {
    if keys != [] {
      DropKeysAsWrittenFails(keys[1..], cp);
      assert forall j :: 1 <= j < |keys| ==> keys[j] == keys[1..][j - 1];
      if DropKeysAsWritten(keys[1..], cp).Err? {
        var j :| 0 <= j < |keys[1..]| && keys[1..][j].1 >= cp;
        assert keys[j + 1].1 >= cp;
      }
      if DropKeysAsWritten(keys, cp).Ok? {
        assert keys == [keys[0]] + keys[1..];
      }
    }
  }
}
