/** The local variable table of a method (chj/app/Vartable.py), present only
    for classes compiled with debug information: which name a variable
    index has over which range of pcs. */
module Vartables {
  import opened Wrappers
  import opened Strings
  import opened Dicts
  import opened Sorting

  /** A slot of the table; its value type is not modelled. */
  datatype Slot = Slot(name: string, vix: int, startpc: int, endpc: int)

  /** The table, keyed by (variable index, start pc) in load order. */
  type Table = Dict<(int, int), Slot>

  function SlotKey(s: Slot): (int, int) { (s.vix, s.startpc) }

  function Keyed(slots: seq<Slot>): (r: seq<((int, int), Slot)>)
    ensures |r| == |slots|
    ensures forall i :: 0 <= i < |slots| ==> r[i] == (SlotKey(slots[i]), slots[i])
  {
    if slots == [] then [] else Keyed(slots[..|slots| - 1]) + [(SlotKey(slots[|slots| - 1]), slots[|slots| - 1])]
  }

  /** `_initializetable`: each slot is stored under its key, in order. */
  method BuildTable(slots: seq<Slot>) returns (t: Table)
    ensures t == FromEntries(Keyed(slots))
  {
    t := [];
    var i := 0;
    while i < |slots|
      invariant 0 <= i <= |slots|
      invariant t == FromEntries(Keyed(slots[..i]))
    {
      assert Keyed(slots[..i + 1]) == Keyed(slots[..i]) + [(SlotKey(slots[i]), slots[i])];
      t := Put(t, SlotKey(slots[i]), slots[i]);
      i := i + 1;
    }
    assert slots[..i] == slots;
  }

  /** A slot that no later slot with the same index and start pc replaces
      is in the table. */
  lemma LaterSlotOverwrites(slots: seq<Slot>, i: int)
    requires 0 <= i < |slots|
    requires forall j :: i < j < |slots| ==> SlotKey(slots[j]) != SlotKey(slots[i])
    ensures Lookup(FromEntries(Keyed(slots)), SlotKey(slots[i])) == Some(slots[i])
  {
    FromEntriesLastWins(Keyed(slots), i);
  }

  /** Whether a slot covers variable `index` at `pc`. */
  predicate Covers(e: ((int, int), Slot), index: int, pc: int)
  {
    e.0.0 == index && e.0.1 <= pc <= e.1.endpc
  }

  /** `get_name`: the name of the first slot, in table order, for `index`
      whose pc range holds `pc`; None if there is none. */
  function GetName(t: Table, index: int, pc: int): (r: Option<string>)
    ensures r.None? <==> forall k :: 0 <= k < |t| ==> !Covers(t[k], index, pc)
    ensures r.Some? ==> exists k :: (0 <= k < |t| && Covers(t[k], index, pc) && t[k].1.name == r.value &&
      forall j :: 0 <= j < k ==> !Covers(t[j], index, pc))
  {
    if t == [] then None
    else if Covers(t[0], index, pc) then Some(t[0].1.name)
    else
      var r := GetName(t[1..], index, pc);
      assert forall k :: 0 < k < |t| ==> t[k] == t[1..][k - 1];
      if r.Some? then
        var k :| 0 <= k < |t| - 1 && Covers(t[1..][k], index, pc) && t[1..][k].1.name == r.value &&
          (forall j :: 0 <= j < k ==> !Covers(t[1..][j], index, pc));
        assert Covers(t[k + 1], index, pc) && forall j :: 0 <= j < k + 1 ==> !Covers(t[j], index, pc);
        r
      else r
  }

  /** The parameters: the slots that start at pc 0, by variable index. */
  function Parameters(t: Table): (r: Dict<int, Slot>)
  {
    if t == [] then []
    else
      var last := t[|t| - 1];
      var init := Parameters(t[..|t| - 1]);
      if last.0.1 == 0 then Put(init, last.0.0, last.1) else init
  }

  /** `getparameters`. */
  method GetParameters(t: Table) returns (r: Dict<int, Slot>)
    ensures r == Parameters(t)
  {
    r := [];
    var i := 0;
    while i < |t|
      invariant 0 <= i <= |t|
      invariant r == Parameters(t[..i])
    {
      assert t[..i + 1][..i] == t[..i];
      if t[i].0.1 == 0 {
        r := Put(r, t[i].0.0, t[i].1);
      }
      i := i + 1;
    }
    assert t[..i] == t;
  }

  /** A variable index is a parameter with slot s exactly when the table
      has s under (index, 0). */
  lemma {:induction false} ParametersLookup(t: Table, ix: int)
    requires KeysDistinct(t)
    ensures Lookup(Parameters(t), ix) == Lookup(t, (ix, 0))
  {
    if t != [] {
      var init := t[..|t| - 1];
      var last := t[|t| - 1];
      assert t == init + [last];
      ParametersLookup(init, ix);
      LookupSnoc(init, last.0, last.1, (ix, 0));
      if last.0.1 == 0 {
        LookupPut(Parameters(init), last.0.0, last.1, ix);
      }
    }
  }

  /** A slot's line: the index, the name padded to `namelen`, then the
      start and end pcs right-justified to width 5. */
  function SlotToString(s: Slot, namelen: int): (r: string)
  {
    IntToString(s.vix) + " " + LJust(s.name, namelen) + " " +
      RJust(IntToString(s.startpc), 5) + " " + RJust(IntToString(s.endpc), 5)
  }

  /** Where the four fields of a space-separated line sit. */
  lemma FourFields(v: string, n: string, a: string, b: string)
    ensures var r := v + " " + n + " " + a + " " + b;
      |r| == |v| + |n| + |a| + |b| + 3 &&
      r[..|v|] == v && r[|v| + 1..|v| + 1 + |n|] == n &&
      r[|v| + |n| + 2..|v| + |n| + 2 + |a|] == a && r[|v| + |n| + |a| + 3..] == b
  {
    var r := v + " " + n + " " + a + " " + b;
    assert r == v + (" " + n + " " + a + " " + b);
    assert r == (v + " ") + n + (" " + a + " " + b);
    assert r == (v + " " + n + " ") + a + (" " + b);
    assert r == (v + " " + n + " " + a + " ") + b;
  }

  /** With the name no longer than `namelen` and pcs of at most five
      characters, the columns sit at fixed offsets after the index, so the
      lines of a table align. */
  lemma SlotColumns(s: Slot, namelen: int)
    requires |s.name| <= namelen
    requires |IntToString(s.startpc)| <= 5 && |IntToString(s.endpc)| <= 5
    ensures var r, v := SlotToString(s, namelen), |IntToString(s.vix)|;
      |r| == v + namelen + 13 &&
      r[..v] == IntToString(s.vix) &&
      r[v + 1..v + 1 + |s.name|] == s.name &&
      r[v + namelen + 2..v + namelen + 7] == RJust(IntToString(s.startpc), 5) &&
      r[v + namelen + 8..] == RJust(IntToString(s.endpc), 5)
  {
    var v := IntToString(s.vix);
    var n := LJust(s.name, namelen);
    FourFields(v, n, RJust(IntToString(s.startpc), 5), RJust(IntToString(s.endpc), 5));
    var r := SlotToString(s, namelen);
    assert r[|v| + 1..|v| + 1 + |s.name|] == r[|v| + 1..|v| + 1 + namelen][..|s.name|];
  }

  /** The longest name, 0 for an empty table. */
  function MaxNameLen(t: Table): (m: nat)
    ensures forall k :: 0 <= k < |t| ==> |t[k].1.name| <= m
    ensures |t| > 0 ==> exists k :: 0 <= k < |t| && |t[k].1.name| == m
  {
    if t == [] then 0
    else
      var rest := MaxNameLen(t[1..]);
      assert forall k :: 0 < k < |t| ==> t[k] == t[1..][k - 1];
      if |t[0].1.name| >= rest then |t[0].1.name| else rest
  }

  /** Python's `<` on the (index, start pc) keys. */
  predicate KeyLess(a: ((int, int), Slot), b: ((int, int), Slot))
  {
    a.0.0 < b.0.0 || (a.0.0 == b.0.0 && a.0.1 < b.0.1)
  }

  function SlotLines(rows: seq<((int, int), Slot)>, namelen: int): (r: seq<string>)
    ensures |r| == |rows|
  {
    if rows == [] then [] else SlotLines(rows[..|rows| - 1], namelen) + [SlotToString(rows[|rows| - 1].1, namelen)]
  }

  /** Line k is the line of row k. */
  lemma {:induction false} SlotLinesAt(rows: seq<((int, int), Slot)>, namelen: int, k: int)
    requires 0 <= k < |rows|
    ensures SlotLines(rows, namelen)[k] == SlotToString(rows[k].1, namelen)
  {
    var init := rows[..|rows| - 1];
    var last := SlotToString(rows[|rows| - 1].1, namelen);
    assert SlotLines(rows, namelen) == SlotLines(init, namelen) + [last];
    if k < |rows| - 1 {
      SlotLinesAt(init, namelen, k);
      assert init[k] == rows[k];
    }
  }

  /** The line of each row, in order. */
  method RowLines(rows: seq<((int, int), Slot)>, namelen: int) returns (lines: seq<string>)
    ensures lines == SlotLines(rows, namelen)
  {
    lines := [];
    var i := 0;
    while i < |rows|
      invariant 0 <= i <= |rows|
      invariant lines == SlotLines(rows[..i], namelen)
    {
      assert rows[..i + 1][..i] == rows[..i];
      lines := lines + [SlotToString(rows[i].1, namelen)];
      i := i + 1;
    }
    assert rows[..i] == rows;
  }

  /** `__str__`: a title, a rule, one line per slot in key order with the
      names padded to the longest name, and a closing rule. */
  method ToString(t: Table) returns (s: string)
    ensures s == Join("\n", ["Variable table", Dashes(64)] + SlotLines(SortWith(t, KeyLess), MaxNameLen(t)) + [Dashes(64)])
  {
    var rows := RowLines(SortWith(t, KeyLess), MaxNameLen(t));
    s := Join("\n", ["Variable table", Dashes(64)] + rows + [Dashes(64)]);
  }

  /** The slot lines come in ascending key order and hold every slot once. */
  lemma ToStringOrder(t: Table)
    ensures SortedWith(SortWith(t, KeyLess), KeyLess)
    ensures multiset(SortWith(t, KeyLess)) == multiset(t)
  {
    SortWithSorted(t, KeyLess);
  }
}
