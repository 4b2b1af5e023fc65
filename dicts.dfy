/** Python dictionaries as sequences of (key, value) pairs in insertion
    order: assigning to a present key keeps its place, a new key goes to the
    end, and iteration follows the sequence. */
module Dicts {
  import opened Wrappers

  type Dict<K, V> = seq<(K, V)>

  predicate KeysDistinct<K(==), V(==)>(d: Dict<K, V>)
  {
    forall i, j :: 0 <= i < j < |d| ==> d[i].0 != d[j].0
  }

  /** `d[k] = v`. */
  function Put<K(==), V(==)>(d: Dict<K, V>, k: K, v: V): (r: Dict<K, V>)
    ensures KeysDistinct(d) ==> KeysDistinct(r)
    ensures (k, v) in r
    ensures forall p :: p in r && p.0 != k ==> p in d
    ensures forall p :: p in d && p.0 != k ==> p in r
  {
    if d == [] then [(k, v)]
    else if d[0].0 == k then [(k, v)] + d[1..]
    else [d[0]] + Put(d[1..], k, v)
  }

  /** The dictionary built by assigning the entries in order. */
  function FromEntries<K(==), V(==)>(entries: seq<(K, V)>): (r: Dict<K, V>)
    ensures KeysDistinct(r)
  {
    if entries == [] then []
    else
      var last := entries[|entries| - 1];
      Put(FromEntries(entries[..|entries| - 1]), last.0, last.1)
  }

  /** `d.get(k)`. */
  function Lookup<K(==), V(==)>(d: Dict<K, V>, k: K): (r: Option<V>)
    ensures r.Some? ==> (k, r.value) in d
    ensures r.None? ==> forall p :: p in d ==> p.0 != k
  {
    if d == [] then None
    else if d[0].0 == k then Some(d[0].1)
    else Lookup(d[1..], k)
  }

  /** `d.get(k, default)`: the value of k, the default when k is absent. */
  function Get<K(==), V(==)>(d: Dict<K, V>, k: K, default: V): (r: V)
    ensures Lookup(d, k).Some? ==> r == Lookup(d, k).value
    ensures Lookup(d, k).None? ==> r == default
  {
    var v := Lookup(d, k);
    if v.Some? then v.value else default
  }

  /** In a dictionary a key has a single value, and Lookup finds it. */
  lemma {:induction false} LookupFinds<K, V>(d: Dict<K, V>, k: K, v: V)
    requires KeysDistinct(d) && (k, v) in d
    ensures Lookup(d, k) == Some(v)
  {
    if d[0].0 != k {
      assert (k, v) in d[1..];
      LookupFinds(d[1..], k, v);
    }
  }

  /** The last entry assigned to a key is the one kept. */
  lemma FromEntriesKeepsLast<K, V>(entries: seq<(K, V)>, k: K, v: V)
    requires |entries| > 0 && entries[|entries| - 1] == (k, v)
    ensures Lookup(FromEntries(entries), k) == Some(v)
  {
    LookupFinds(FromEntries(entries), k, v);
  }

  /** Every key of the entries is a key of the dictionary, and no other. */
  lemma {:induction false} FromEntriesKeys<K, V>(entries: seq<(K, V)>, k: K)
    ensures Lookup(FromEntries(entries), k).Some? <==> exists i :: 0 <= i < |entries| && entries[i].0 == k
  {
    if entries != [] {
      var init := entries[..|entries| - 1];
      var last := entries[|entries| - 1];
      FromEntriesKeys(init, k);
      if last.0 == k {
        LookupFinds(FromEntries(entries), k, last.1);
      } else if Lookup(FromEntries(init), k).Some? {
        var v := Lookup(FromEntries(init), k).value;
        LookupFinds(FromEntries(entries), k, v);
        var i :| 0 <= i < |init| && init[i].0 == k;
        assert entries[i].0 == k;
      } else {
        if exists i :: 0 <= i < |entries| && entries[i].0 == k {
          var i :| 0 <= i < |entries| && entries[i].0 == k;
          assert init[i].0 == k;
        }
      }
    }
  }

  /** After `d[k] = v`, k maps to v and every other key keeps its value. */
  lemma {:induction false} LookupPut<K, V>(d: Dict<K, V>, k: K, v: V, k': K)
    ensures Lookup(Put(d, k, v), k') == if k' == k then Some(v) else Lookup(d, k')
  {
    if d != [] && d[0].0 != k {
      LookupPut(d[1..], k, v, k');
    }
  }

  /** Looking up in a sequence with an entry appended finds an earlier
      entry first. */
  lemma {:induction false} LookupSnoc<K, V>(d: Dict<K, V>, k: K, v: V, k': K)
    ensures Lookup(d + [(k, v)], k') ==
      if Lookup(d, k').Some? then Lookup(d, k') else if k' == k then Some(v) else None
  {
    if d != [] {
      assert (d + [(k, v)])[1..] == d[1..] + [(k, v)];
      LookupSnoc(d[1..], k, v, k');
    }
  }

  /** An entry that no later entry reassigns is the value of its key. */
  lemma {:induction false} FromEntriesLastWins<K, V>(entries: seq<(K, V)>, i: int)
    requires 0 <= i < |entries|
    requires forall j :: i < j < |entries| ==> entries[j].0 != entries[i].0
    ensures Lookup(FromEntries(entries), entries[i].0) == Some(entries[i].1)
  {
    var init := entries[..|entries| - 1];
    var last := entries[|entries| - 1];
    LookupPut(FromEntries(init), last.0, last.1, entries[i].0);
    if i < |entries| - 1 {
      FromEntriesLastWins(init, i);
    }
  }

  /** `d'` holds the entries of `d` first, in the same order. */
  predicate Extends<K(==), V(==)>(d: Dict<K, V>, d': Dict<K, V>)
  {
    |d| <= |d'| && d'[..|d|] == d
  }

  /** Growing a dictionary at its end keeps the value of every key it
      had. */
  lemma {:induction false} LookupExtends<K, V>(d: Dict<K, V>, d': Dict<K, V>, k: K)
    requires Extends(d, d') && Lookup(d, k).Some?
    ensures Lookup(d', k) == Lookup(d, k)
  {
    assert d'[0] == d[0];
    if d[0].0 != k {
      assert d'[1..][..|d| - 1] == d[1..];
      LookupExtends(d[1..], d'[1..], k);
    }
  }

  lemma LookupsExtend<K, V>(d: Dict<K, V>, d': Dict<K, V>)
    requires Extends(d, d')
    ensures forall k :: Lookup(d, k).Some? ==> Lookup(d', k) == Lookup(d, k)
  {
    forall k | Lookup(d, k).Some?
      ensures Lookup(d', k) == Lookup(d, k)
    {
      LookupExtends(d, d', k);
    }
  }

  lemma ExtendsTransitive<K, V>(d: Dict<K, V>, d': Dict<K, V>, d'': Dict<K, V>)
    requires Extends(d, d') && Extends(d', d'')
    ensures Extends(d, d'')
  {
    assert d''[..|d|] == d''[..|d'|][..|d|];
  }

  /** Assigning a key the value it was just given changes nothing. */
  lemma {:induction false} PutAgain<K, V>(d: Dict<K, V>, k: K, v: V)
    ensures Put(Put(d, k, v), k, v) == Put(d, k, v)
  {
    if d != [] && d[0].0 != k {
      PutAgain(d[1..], k, v);
      assert Put(d, k, v)[1..] == Put(d[1..], k, v);
    }
  }

  /** Assigning a key twice keeps only the second value, in the place of the
      first. */
  lemma {:induction false} PutTwice<K, V>(d: Dict<K, V>, k: K, v: V, w: V)
    ensures Put(Put(d, k, v), k, w) == Put(d, k, w)
  {
    if d != [] && d[0].0 != k {
      PutTwice(d[1..], k, v, w);
      assert Put(d, k, v)[1..] == Put(d[1..], k, v);
    }
  }

  /** Assigning a key the value it already has changes nothing. */
  lemma {:induction false} PutPresent<K, V>(d: Dict<K, V>, k: K)
    requires Lookup(d, k).Some?
    ensures Put(d, k, Lookup(d, k).value) == d
  {
    var v := Lookup(d, k).value;
    assert d == [d[0]] + d[1..];
    if d[0].0 != k {
      assert Lookup(d[1..], k) == Lookup(d, k);
      PutPresent(d[1..], k);
      assert Put(d, k, v) == [d[0]] + Put(d[1..], k, v);
    } else {
      assert Put(d, k, v) == [(k, v)] + d[1..];
    }
  }

  /** Assigning a new key appends its entry. */
  lemma {:induction false} PutAbsent<K, V>(d: Dict<K, V>, k: K, v: V)
    requires Lookup(d, k).None?
    ensures Put(d, k, v) == d + [(k, v)]
  {
    if d != [] {
      PutAbsent(d[1..], k, v);
      assert d == [d[0]] + d[1..];
    }
  }

  /** In a dictionary grown at its end, a new key was not in the old part. */
  lemma DistinctNextAbsent<K, V>(a: Dict<K, V>, b: Dict<K, V>)
    requires KeysDistinct(a + b) && b != []
    ensures Lookup(a, b[0].0).None?
  {
    forall j | 0 <= j < |a|
      ensures a[j].0 != b[0].0
    {
      assert (a + b)[j] == a[j] && (a + b)[|a|] == b[0];
    }
  }

  /** After `d[k] = v` every entry is the new one or an old one. */
  lemma {:induction false} PutEntries<K, V>(d: Dict<K, V>, k: K, v: V)
    ensures forall p :: p in Put(d, k, v) ==> p == (k, v) || p in d
  {
    if d != [] && d[0].0 != k {
      PutEntries(d[1..], k, v);
    }
  }
}
