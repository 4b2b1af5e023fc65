/** The cost model of an application (chj/cost/CostModel.py): the cost of
    every analysed method, keyed by cmsix in the order the methods were
    loaded, and a map of named constants that the user may change and
    restore. The per-method block, loop and side-channel data of a method
    cost is not modelled: a method cost is its cost measure. */
module CostModels {
  import opened Wrappers
  import opened JTerms
  import opened CostMeasures
  import opened Sorting
  import opened Dicts

  /** A dictionary from cmsix to cost, in insertion order. */
  type Costs = Dict<int, CostMeasure>

  /** The four reports, as functions of the dictionary. */

  function TopIds(mcs: Costs): (r: seq<int>)
    ensures |r| <= |mcs|
  {
    if mcs == [] then []
    else
      var p := mcs[|mcs| - 1];
      TopIds(mcs[..|mcs| - 1]) + (if RangeIsTop(p.1.cost) then [p.0] else [])
  }

  function ConstantPairs(mcs: Costs): (r: seq<(int, int)>)
    ensures |r| <= |mcs|
  {
    if mcs == [] then []
    else
      var p := mcs[|mcs| - 1];
      ConstantPairs(mcs[..|mcs| - 1]) +
        (if IsValue(p.1) then [(p.0, GetValue(p.1).value)] else [])
  }

  function RangePairs(mcs: Costs): (r: seq<(int, (int, int))>)
    ensures |r| <= |mcs|
  {
    if mcs == [] then []
    else
      var p := mcs[|mcs| - 1];
      RangePairs(mcs[..|mcs| - 1]) +
        (if IsRange(p.1) && !IsValue(p.1) then [(p.0, GetRange(p.1).value)] else [])
  }

  function SymbolicPairs(mcs: Costs): (r: Costs)
    ensures |r| <= |mcs|
  {
    if mcs == [] then []
    else
      var p := mcs[|mcs| - 1];
      SymbolicPairs(mcs[..|mcs| - 1]) +
        (if !IsTop(p.1) && !IsValue(p.1) && !IsRange(p.1) then [p] else [])
  }

  function UnknownCount(mcs: Costs): (n: nat)
    ensures n <= |mcs|
  {
    if mcs == [] then 0
    else UnknownCount(mcs[..|mcs| - 1]) + (if IsUnknown(mcs[|mcs| - 1].1) then 1 else 0)
  }

  /** Sort keys: the value of a constant cost, the upper bound of a range. */
  function ValueKey(p: (int, int)): int { p.1 }

  function UpperKey(p: (int, (int, int))): int { p.1.1 }

  /** The top list holds exactly the methods whose cost range is top. */
  lemma {:induction false} TopIdsMembers(mcs: Costs, id: int)
    ensures id in TopIds(mcs) <==> exists c :: (id, c) in mcs && RangeIsTop(c.cost)
  {
    if mcs != [] {
      var init := mcs[..|mcs| - 1];
      assert mcs == init + [mcs[|mcs| - 1]];
      TopIdsMembers(init, id);
    }
  }

  /** The constant list pairs exactly the value costs with their values. */
  lemma {:induction false} ConstantPairsMembers(mcs: Costs, id: int, v: int)
    ensures (id, v) in ConstantPairs(mcs) <==>
      exists c :: (id, c) in mcs && IsValue(c) && GetValue(c) == Some(v)
  {
    if mcs != [] {
      var init := mcs[..|mcs| - 1];
      assert mcs == init + [mcs[|mcs| - 1]];
      ConstantPairsMembers(init, id, v);
    }
  }

  /** The range list pairs exactly the range costs with their bounds. */
  lemma {:induction false} RangePairsMembers(mcs: Costs, id: int, lb: int, ub: int)
    ensures (id, (lb, ub)) in RangePairs(mcs) <==>
      exists c :: (id, c) in mcs && IsRange(c) && GetRange(c) == Some((lb, ub))
  {
    if mcs != [] {
      var init := mcs[..|mcs| - 1];
      assert mcs == init + [mcs[|mcs| - 1]];
      RangePairsMembers(init, id, lb, ub);
    }
  }

  /** The symbolic list keeps exactly the costs that are neither top, a
      value nor a range. */
  lemma {:induction false} SymbolicPairsMembers(mcs: Costs, p: (int, CostMeasure))
    ensures p in SymbolicPairs(mcs) <==>
      p in mcs && !IsTop(p.1) && !IsValue(p.1) && !IsRange(p.1)
  {
    if mcs != [] {
      var init := mcs[..|mcs| - 1];
      assert mcs == init + [mcs[|mcs| - 1]];
      SymbolicPairsMembers(init, p);
    }
  }

  /** Every method cost lands in exactly one of the four lists, so their
      lengths add up to the number of methods. */
  lemma {:induction false} Partition(mcs: Costs)
    ensures |TopIds(mcs)| + |ConstantPairs(mcs)| + |RangePairs(mcs)| + |SymbolicPairs(mcs)| == |mcs|
  {
    if mcs != [] {
      Partition(mcs[..|mcs| - 1]);
      Classification(mcs[|mcs| - 1].1);
    }
  }

  /** A cost open above is in the symbolic list, so there are no more
      unknown costs than symbolic ones. */
  lemma {:induction false} UnknownAreSymbolic(mcs: Costs)
    ensures UnknownCount(mcs) <= |SymbolicPairs(mcs)|
  {
    if mcs != [] {
      UnknownAreSymbolic(mcs[..|mcs| - 1]);
      Classification(mcs[|mcs| - 1].1);
    }
  }

  /** The unknown count counts the positions whose cost is open above. */
  lemma {:induction false} UnknownCountIsCount(mcs: Costs)
    ensures UnknownCount(mcs) == |set i | 0 <= i < |mcs| && IsUnknown(mcs[i].1)|
  {
    if mcs != [] {
      var init := mcs[..|mcs| - 1];
      UnknownCountIsCount(init);
      var s0 := set i | 0 <= i < |init| && IsUnknown(init[i].1);
      var s := set i | 0 <= i < |mcs| && IsUnknown(mcs[i].1);
      var last := if IsUnknown(mcs[|mcs| - 1].1) then {|mcs| - 1} else {};
      assert forall i :: 0 <= i < |init| ==> mcs[i] == init[i];
      assert s == s0 + last;
      assert s0 !! last;
    }
  }

  /** Entry j is the last entry for its name among the first n. */
  predicate LastFor(entries: seq<(string, int)>, j: int, n: int)
    requires 0 <= j < n <= |entries|
  {
    forall k :: j < k < n ==> entries[k].0 != entries[j].0
  }

  /** The constants a file of (name, value) entries stores, a later entry
      for a name replacing an earlier one. */
  function StoredConstants(entries: seq<(string, int)>): map<string, int>
  {
    if entries == [] then map[]
    else
      var e := entries[|entries| - 1];
      StoredConstants(entries[..|entries| - 1])[e.0 := e.1]
  }

  /** The stored names are the entries' names. */
  lemma {:induction false} StoredConstantsKeys(entries: seq<(string, int)>)
    ensures StoredConstants(entries).Keys == set e | e in entries :: e.0
  {
    if entries != [] {
      var init := entries[..|entries| - 1];
      StoredConstantsKeys(init);
      assert forall e :: e in entries <==> e in init || e == entries[|entries| - 1];
    }
  }

  /** Each stored name holds the value of its last entry. */
  lemma {:induction false} StoredConstantsLast(entries: seq<(string, int)>, j: int)
    requires 0 <= j < |entries| && LastFor(entries, j, |entries|)
    ensures entries[j].0 in StoredConstants(entries)
    ensures StoredConstants(entries)[entries[j].0] == entries[j].1
  {
    var n := |entries|;
    if j < n - 1 {
      var init := entries[..n - 1];
      assert init[j] == entries[j];
      assert LastFor(init, j, n - 1) by {
        forall k | j < k < n - 1 ensures init[k].0 != init[j].0 {
          assert init[k] == entries[k];
        }
      }
      StoredConstantsLast(init, j);
      assert entries[n - 1].0 != entries[j].0;
    }
  }

  class CostModel {
    var methodcosts: Costs
    var constants: map<string, int>
    var originalconstants: map<string, int>

    ghost predicate Valid()
      reads this
    {
      KeysDistinct(methodcosts)
    }

    /** The model over the method costs read from the cost files. */
    constructor (entries: Costs)
      ensures Valid()
      ensures methodcosts == FromEntries(entries)
      ensures constants == map[] && originalconstants == map[]
    {
      methodcosts := FromEntries(entries);
      constants := map[];
      originalconstants := map[];
    }

    function GetMethodCost(id: int): (r: Option<CostMeasure>)
      reads this
      requires Valid()
      ensures r.Some? <==> exists c :: (id, c) in methodcosts
      ensures forall c :: (id, c) in methodcosts ==> r == Some(c)
    {
      var r := Lookup(methodcosts, id);
      assert forall c :: (id, c) in methodcosts ==> r == Some(c) by {
        forall c | (id, c) in methodcosts
          ensures r == Some(c)
        {
          LookupFinds(methodcosts, id, c);
        }
      }
      r
    }

    method GetTopMethodCosts() returns (result: seq<int>)
      ensures result == TopIds(methodcosts)
    {
      result := [];
      var i := 0;
      while i < |methodcosts|
        invariant 0 <= i <= |methodcosts|
        invariant result == TopIds(methodcosts[..i])
      {
        assert methodcosts[..i + 1][..i] == methodcosts[..i];
        if RangeIsTop(methodcosts[i].1.cost) {
          result := result + [methodcosts[i].0];
        }
        i := i + 1;
      }
      assert methodcosts[..i] == methodcosts;
    }

    /** The value costs with their values, sorted ascending by value. */
    method GetConstantMethodCosts() returns (result: seq<(int, int)>)
      ensures result == SortBy(ConstantPairs(methodcosts), ValueKey)
      ensures SortedBy(result, ValueKey)
      ensures multiset(result) == multiset(ConstantPairs(methodcosts))
    {
      result := [];
      var i := 0;
      while i < |methodcosts|
        invariant 0 <= i <= |methodcosts|
        invariant result == ConstantPairs(methodcosts[..i])
      {
        assert methodcosts[..i + 1][..i] == methodcosts[..i];
        var c := methodcosts[i].1;
        if IsValue(c) {
          result := result + [(methodcosts[i].0, GetValue(c).value)];
        }
        i := i + 1;
      }
      assert methodcosts[..i] == methodcosts;
      SortBySorted(result, ValueKey);
      result := SortBy(result, ValueKey);
    }

    /** The range costs with their bounds, sorted ascending by upper bound. */
    method GetRangeMethodCosts() returns (result: seq<(int, (int, int))>)
      ensures result == SortBy(RangePairs(methodcosts), UpperKey)
      ensures SortedBy(result, UpperKey)
      ensures multiset(result) == multiset(RangePairs(methodcosts))
    {
      result := [];
      var i := 0;
      while i < |methodcosts|
        invariant 0 <= i <= |methodcosts|
        invariant result == RangePairs(methodcosts[..i])
      {
        assert methodcosts[..i + 1][..i] == methodcosts[..i];
        var c := methodcosts[i].1;
        if IsRange(c) && !IsValue(c) {
          result := result + [(methodcosts[i].0, GetRange(c).value)];
        }
        i := i + 1;
      }
      assert methodcosts[..i] == methodcosts;
      SortBySorted(result, UpperKey);
      result := SortBy(result, UpperKey);
    }

    method GetSymbolicMethodCosts() returns (result: Costs)
      ensures result == SymbolicPairs(methodcosts)
    {
      result := [];
      var i := 0;
      while i < |methodcosts|
        invariant 0 <= i <= |methodcosts|
        invariant result == SymbolicPairs(methodcosts[..i])
      {
        assert methodcosts[..i + 1][..i] == methodcosts[..i];
        var c := methodcosts[i].1;
        if !IsTop(c) && !IsValue(c) && !IsRange(c) {
          result := result + [methodcosts[i]];
        }
        i := i + 1;
      }
      assert methodcosts[..i] == methodcosts;
    }

    /** `get_unknown_methodcosts` as written: the generator asks each
        method cost for `get_method_cost()`, which a method cost does not
        have, so the count is 0 without methods and AttributeError with
        any. */
    function GetUnknownMethodCostsAsWritten(): (r: Result<nat>)
      reads this
      ensures r.Ok? <==> methodcosts == []
      ensures r.Ok? ==> r.value == 0
      ensures r.Err? ==> r.error.Failure?
    {
      if methodcosts == [] then Ok(0)
      else Err(Failure("'MethodCost' object has no attribute 'get_method_cost'"))
    }

    /** The number of methods whose cost is open above, asked of each
        cost's measure as `__str__` does. */
    function GetUnknownMethodCosts(): (n: nat)
      reads this
      ensures n == |set i | 0 <= i < |methodcosts| && IsUnknown(methodcosts[i].1)|
      ensures n <= |SymbolicPairs(methodcosts)|
    {
      UnknownAreSymbolic(methodcosts);
      UnknownCountIsCount(methodcosts);
      UnknownCount(methodcosts)
    }

    function GetConstantValue(name: string): (r: Option<int>)
      reads this
      ensures r.Some? <==> name in constants
      ensures r.Some? ==> r.value == constants[name]
    {
      if name in constants then Some(constants[name]) else None
    }

    method SetConstantValue(name: string, v: int)
      modifies this`constants
      ensures GetConstantValue(name) == Some(v)
      ensures forall n :: n != name ==> GetConstantValue(n) == old(GetConstantValue(n))
      ensures constants.Keys == old(constants).Keys + {name}
    {
      constants := constants[name := v];
    }

    /** Overwrites the constants that have an original value with it and
        leaves every other constant as it was. */
    method RestoreOriginalConstants()
      modifies this`constants
      ensures constants.Keys == old(constants).Keys + originalconstants.Keys
      ensures forall n :: n in originalconstants ==> constants[n] == originalconstants[n]
      ensures forall n :: n in old(constants) && n !in originalconstants ==>
        constants[n] == old(constants)[n]
    {
      var todo := originalconstants.Keys;
      while todo != {}
        invariant todo <= originalconstants.Keys
        invariant constants.Keys == old(constants).Keys + (originalconstants.Keys - todo)
        invariant forall n :: n in originalconstants.Keys - todo ==> constants[n] == originalconstants[n]
        invariant forall n :: n in old(constants) && n !in originalconstants.Keys - todo ==>
          constants[n] == old(constants)[n]
        decreases todo
      {
        var n :| n in todo;
        constants := constants[n := originalconstants[n]];
        todo := todo - {n};
      }
    }

    /** Records the (name, value) entries of the constants file as the
        original constants; a later entry for a name wins. */
    method StoreOriginalConstants(entries: seq<(string, int)>)
      modifies this`originalconstants
      ensures originalconstants == old(originalconstants) + StoredConstants(entries)
      ensures originalconstants.Keys == old(originalconstants).Keys + (set e | e in entries :: e.0)
      ensures forall n :: n in old(originalconstants) && (forall e :: e in entries ==> e.0 != n) ==>
        originalconstants[n] == old(originalconstants)[n]
      ensures forall j :: 0 <= j < |entries| && LastFor(entries, j, |entries|) ==>
        originalconstants[entries[j].0] == entries[j].1
    {
      ghost var oc0 := originalconstants;
      var i := 0;
      while i < |entries|
        invariant 0 <= i <= |entries|
        invariant originalconstants == oc0 + StoredConstants(entries[..i])
      {
        assert entries[..i + 1][..i] == entries[..i];
        originalconstants := originalconstants[entries[i].0 := entries[i].1];
        i := i + 1;
      }
      assert entries[..i] == entries;
      StoredConstantsKeys(entries);
      forall j | 0 <= j < |entries| && LastFor(entries, j, |entries|)
        ensures originalconstants[entries[j].0] == entries[j].1
      {
        StoredConstantsLast(entries, j);
      }
    }
  }
}
