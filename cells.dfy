/** The table of reactive cells and the plain data a reader sees through their
    getters. */
module Cells {
  import opened Values

  /** The slots of one converted object: every slot has a cell, every cell was
      created after `lo`, and sibling keys have distinct cells, created in key
      order (each `definReactive` makes a fresh `Dep`). */
  ghost predicate SlotsOk(slots: seq<Slot>, lo: int, values: map<CellId, Val>) {
    && (forall i :: 0 <= i < |slots| ==> slots[i].cell in values && lo < slots[i].cell)
    && (forall i, j :: 0 <= i < j < |slots| ==> slots[i].cell < slots[j].cell)
  }

  /** An object held by cell `c` only refers to cells created after `c`:
      `definReactive` allocates its `Dep` before it walks the value, and a setter
      walks a new value into fresh cells. */
  ghost predicate CellOk(values: map<CellId, Val>, c: CellId) {
    c in values && values[c].Object? ==> SlotsOk(values[c].slots, c, values)
  }

  /** `CellOk` for every cell below `n`, stated recursively so that it is unfolded
      only as far as a proof asks. */
  ghost predicate OkBelow(values: map<CellId, Val>, n: nat)
    decreases n
  {
    n == 0 || (CellOk(values, n - 1) && OkBelow(values, n - 1))
  }

  /** Every cell id is below `next` and every cell is `CellOk`, so the cells form
      a forest: there is no cycle. */
  ghost predicate Tree(values: map<CellId, Val>, next: nat) {
    (forall c :: c in values ==> c < next) && OkBelow(values, next)
  }

  lemma {:induction false} OkBelowAt(values: map<CellId, Val>, n: nat, c: CellId)
    requires OkBelow(values, n) && c < n
    ensures CellOk(values, c)
    decreases n
  {
    if c < n - 1 {
      OkBelowAt(values, n - 1, c);
    }
  }

  lemma {:induction false} OkBelowIntro(values: map<CellId, Val>, n: nat)
    requires forall c: nat :: c < n ==> CellOk(values, c)
    ensures OkBelow(values, n)
    decreases n
  {
    if n > 0 {
      OkBelowIntro(values, n - 1);
    }
  }

  lemma TreeAt(values: map<CellId, Val>, next: nat, c: CellId)
    requires Tree(values, next) && c in values
    ensures values[c].Object? ==> SlotsOk(values[c].slots, c, values)
  {
    OkBelowAt(values, next, c);
  }

  /** `values2` keeps every cell of `values1` as it was. */
  ghost predicate Extends(values1: map<CellId, Val>, values2: map<CellId, Val>) {
    forall c :: c in values1 ==> c in values2 && values2[c] == values1[c]
  }

  /** The plain data read (deeply) through the getter of cell `c`. */
  ghost function ExpandCell(values: map<CellId, Val>, next: nat, c: CellId): Data
    requires Tree(values, next) && c in values
    decreases next - c, 2, 0
  {
    TreeAt(values, next, c);
    ExpandVal(values, next, values[c], c)
  }

  ghost function ExpandVal(values: map<CellId, Val>, next: nat, v: Val, lo: int): Data
    requires Tree(values, next)
    requires v.Object? ==> SlotsOk(v.slots, lo, values)
    decreases next - lo, 1, 0
  {
    match v
    case Atom(p) => Lit(p)
    case Object(slots) => Record(ExpandSlots(values, next, slots, lo))
  }

  /** The fields of a converted object, key by key, in its key order. */
  ghost function ExpandSlots(values: map<CellId, Val>, next: nat, slots: seq<Slot>, lo: int): (r: seq<Field>)
    requires Tree(values, next) && SlotsOk(slots, lo, values)
    ensures |r| == |slots|
    ensures forall i :: 0 <= i < |slots| ==> r[i] == Field(slots[i].key, ExpandCell(values, next, slots[i].cell))
    decreases next - lo, 0, |slots|
  {
    if slots == [] then []
    else
      var k := |slots| - 1;
      ExpandSlots(values, next, slots[..k], lo) + [Field(slots[k].key, ExpandCell(values, next, slots[k].cell))]
  }

  /** `values2` keeps every cell of `values1` created after `f` as it was. */
  ghost predicate AgreeAbove(values1: map<CellId, Val>, values2: map<CellId, Val>, f: int) {
    forall c :: c in values1 && f < c ==> c in values2 && values2[c] == values1[c]
  }

  /** What a cell reads as depends only on the cells created after it: adding
      cells, or changing older ones, does not change it. */
  lemma {:induction false} ExpandCellFrame(values1: map<CellId, Val>, next1: nat, values2: map<CellId, Val>, next2: nat,
                                           f: int, c: CellId)
    requires Tree(values1, next1) && Tree(values2, next2) && AgreeAbove(values1, values2, f)
    requires c in values1 && f < c
    ensures c in values2 && ExpandCell(values2, next2, c) == ExpandCell(values1, next1, c)
    decreases next1 - c, 2
  {
    TreeAt(values1, next1, c);
    TreeAt(values2, next2, c);
    ExpandValFrame(values1, next1, values2, next2, f, values1[c], c, c);
  }

  lemma {:induction false} ExpandValFrame(values1: map<CellId, Val>, next1: nat, values2: map<CellId, Val>, next2: nat,
                                          f: int, v: Val, lo1: int, lo2: int)
    requires Tree(values1, next1) && Tree(values2, next2) && AgreeAbove(values1, values2, f)
    requires f <= lo1
    requires v.Object? ==> SlotsOk(v.slots, lo1, values1) && SlotsOk(v.slots, lo2, values2)
    ensures ExpandVal(values2, next2, v, lo2) == ExpandVal(values1, next1, v, lo1)
    decreases next1 - lo1, 1
  {
    if v.Object? {
      var s1 := ExpandSlots(values1, next1, v.slots, lo1);
      var s2 := ExpandSlots(values2, next2, v.slots, lo2);
      forall i | 0 <= i < |v.slots|
        ensures s2[i] == s1[i]
      {
        ExpandCellFrame(values1, next1, values2, next2, f, v.slots[i].cell);
      }
      assert s2 == s1;
    }
  }

  /** One step of converting an object key by key: the slots converted so far
      keep reading as the first `i` fields while a further key is walked into
      fresh cells, and the new slot reads as field `i`. */
  lemma ConvertStep(values0: map<CellId, Val>, next0: nat, values: map<CellId, Val>, next: nat,
                    slots: seq<Slot>, lo: int, s: Slot, fields: seq<Field>, i: nat)
    requires Tree(values0, next0) && Tree(values, next) && Extends(values0, values)
    requires -1 <= lo && SlotsOk(slots, lo, values0) && i < |fields| && ExpandSlots(values0, next0, slots, lo) == fields[..i]
    requires s.cell in values && next0 <= s.cell && lo < s.cell
    requires s.key == fields[i].key && ExpandCell(values, next, s.cell) == fields[i].value
    ensures SlotsOk(slots + [s], lo, values)
    ensures ExpandSlots(values, next, slots + [s], lo) == fields[..i + 1]
  {
    SlotsOkGrow(slots, lo, values0, lo, values);
    ExpandValFrame(values0, next0, values, next, -1, Object(slots), lo, lo);
    forall k | 0 <= k < |slots|
      ensures slots[k].cell < s.cell
    {
      assert slots[k].cell in values0;
    }
    assert (slots + [s])[..|slots|] == slots;
    assert fields[..i + 1] == fields[..i] + [fields[i]];
  }

  lemma SlotsOkGrow(slots: seq<Slot>, lo: int, values1: map<CellId, Val>, lo2: int, values2: map<CellId, Val>)
    requires SlotsOk(slots, lo, values1) && lo2 <= lo && values1.Keys <= values2.Keys
    ensures SlotsOk(slots, lo2, values2)
  {
  }

  /** Storing `v` in cell `c` keeps the forest shape when `v` only refers to
      cells created after `c`. */
  lemma TreePut(values: map<CellId, Val>, next: nat, c: CellId, v: Val, next2: nat)
    requires Tree(values, next) && next <= next2 && c < next2
    requires v.Object? ==> SlotsOk(v.slots, c, values)
    ensures Tree(values[c := v], next2)
  {
    var values2 := values[c := v];
    forall d: nat | d < next2
      ensures CellOk(values2, d)
    {
      if d == c {
        if v.Object? {
          SlotsOkGrow(v.slots, c, values, c, values2);
        }
      } else if d in values {
        TreeAt(values, next, d);
        if values[d].Object? {
          SlotsOkGrow(values[d].slots, d, values, d, values2);
        }
      }
    }
    OkBelowIntro(values2, next2);
  }

  /** Storing in cell `c` a value `v` converted into cells created after `lo`
      (itself not older than `c`) keeps the forest shape and the slots of the
      root, and `c` then reads as `v` did. */
  lemma TreeStore(values: map<CellId, Val>, next: nat, c: CellId, v: Val, lo: int, root: seq<Slot>)
    requires Tree(values, next) && c < next && c <= lo
    requires v.Object? ==> SlotsOk(v.slots, lo, values)
    requires SlotsOk(root, -1, values)
    ensures Tree(values[c := v], next) && SlotsOk(root, -1, values[c := v])
    ensures ExpandCell(values[c := v], next, c) == ExpandVal(values, next, v, lo)
  {
    if v.Object? {
      SlotsOkGrow(v.slots, lo, values, c, values);
    }
    TreePut(values, next, c, v, next);
    SlotsOkGrow(root, -1, values, -1, values[c := v]);
    if v.Object? {
      SlotsOkGrow(v.slots, lo, values, lo, values[c := v]);
    }
    ExpandValFrame(values, next, values[c := v], next, c, v, lo, c);
  }

  /** Raising the allocation bound keeps the forest shape. */
  lemma TreeBound(values: map<CellId, Val>, next: nat, next2: nat)
    requires Tree(values, next) && next <= next2
    ensures Tree(values, next2)
  {
    forall d: nat | d < next2
      ensures CellOk(values, d)
    {
      if d in values {
        TreeAt(values, next, d);
      }
    }
    OkBelowIntro(values, next2);
  }

  /** The cell table grew from `(values0, deps0, next0)` to `(values1, deps1, next1)`:
      old cells and their registries are untouched, and the new cells are fresh
      and have empty registries. */
  ghost predicate Grown(values0: map<CellId, Val>, deps0: map<CellId, seq<WatcherId>>, next0: nat,
                        values1: map<CellId, Val>, deps1: map<CellId, seq<WatcherId>>, next1: nat)
  {
    && next0 <= next1
    && Extends(values0, values1)
    && (forall c :: c in deps0 ==> c in deps1 && deps1[c] == deps0[c])
    && (forall c :: c in values1 && c !in values0 ==> next0 <= c && c in deps1 && deps1[c] == [])
  }

  /** A cell that existed before the growth still holds what it held. */
  lemma GrownKeeps(values0: map<CellId, Val>, deps0: map<CellId, seq<WatcherId>>, next0: nat,
                   values1: map<CellId, Val>, deps1: map<CellId, seq<WatcherId>>, next1: nat, c: CellId)
    requires Grown(values0, deps0, next0, values1, deps1, next1) && c in values0
    ensures c in values1 && values1[c] == values0[c]
  {
  }

  /** Overwriting an old cell on both sides keeps the growth relation. */
  lemma GrownPut(values0: map<CellId, Val>, deps0: map<CellId, seq<WatcherId>>, next0: nat,
                 values1: map<CellId, Val>, deps1: map<CellId, seq<WatcherId>>, next1: nat, c: CellId, v: Val)
    requires Grown(values0, deps0, next0, values1, deps1, next1) && c in values0
    ensures Grown(values0[c := v], deps0, next0, values1[c := v], deps1, next1)
  {
  }

  /** Adding the fresh cell `c`, the oldest of the new ones, with an empty
      registry keeps the growth relation from before `c` was allocated. */
  lemma GrownFresh(values0: map<CellId, Val>, deps0: map<CellId, seq<WatcherId>>, c: nat,
                   values1: map<CellId, Val>, deps1: map<CellId, seq<WatcherId>>, next1: nat, v: Val)
    requires Grown(values0, deps0, c + 1, values1, deps1, next1)
    requires forall d :: d in values0 ==> d < c
    requires values0.Keys == deps0.Keys
    ensures Grown(values0, deps0, c, values1[c := v], deps1[c := []], next1)
  {
  }

  lemma GrownTrans(values0: map<CellId, Val>, deps0: map<CellId, seq<WatcherId>>, next0: nat,
                   values1: map<CellId, Val>, deps1: map<CellId, seq<WatcherId>>, next1: nat,
                   values2: map<CellId, Val>, deps2: map<CellId, seq<WatcherId>>, next2: nat)
    requires Grown(values0, deps0, next0, values1, deps1, next1)
    requires Grown(values1, deps1, next1, values2, deps2, next2)
    ensures Grown(values0, deps0, next0, values2, deps2, next2)
  {
  }

  /** Some slot of `slots` has cell `c`. */
  predicate HasCell(slots: seq<Slot>, c: CellId) {
    slots != [] && (slots[0].cell == c || HasCell(slots[1..], c))
  }

  /** Every slot has a cell in the table. */
  predicate SlotsIn(slots: seq<Slot>, values: map<CellId, Val>) {
    forall i :: 0 <= i < |slots| ==> slots[i].cell in values
  }

  /** The cell behind key `key` of a converted object, if it has that key. */
  function Lookup(slots: seq<Slot>, key: string): (r: Option<CellId>)
    ensures r.Some? <==> exists i :: 0 <= i < |slots| && slots[i].key == key
    ensures r.Some? ==> Slot(key, r.value) in slots
  {
    if slots == [] then None
    else if slots[0].key == key then Some(slots[0].cell)
    else
      var r := Lookup(slots[1..], key);
      assert forall i :: 1 <= i < |slots| ==> slots[i] == slots[1..][i - 1];
      r
  }

  /** A key found by `Lookup` names a cell of those slots. */
  lemma {:induction false} LookupCell(slots: seq<Slot>, key: string)
    ensures Lookup(slots, key).Some? ==> HasCell(slots, Lookup(slots, key).value)
  {
    if slots != [] && slots[0].key != key {
      LookupCell(slots[1..], key);
    }
  }

  /** `host[key]` for the host that `proxy` set up over the converted data object
      `root`: the value of `data[key]`, or `undefined` for a key `data` lacks. */
  function ReadKey(root: seq<Slot>, values: map<CellId, Val>, key: string): Val
    requires SlotsIn(root, values)
  {
    match Lookup(root, key)
    case Some(c) => values[c]
    case None => Atom(Undefined)
  }

  /** The forwarding accessors read the data they were set up over: the cell
      `Lookup` finds for `key` reads as the field `key` of what the converted
      object reads as, and a key the object lacks is a key its plain data
      lacks. */
  lemma {:induction false} LookupField(values: map<CellId, Val>, next: nat, slots: seq<Slot>, lo: int, key: string)
    requires Tree(values, next) && SlotsOk(slots, lo, values)
    ensures Lookup(slots, key).Some? ==> Lookup(slots, key).value in values
    ensures Lookup(slots, key).Some? ==>
              FieldOf(ExpandSlots(values, next, slots, lo), key) == Some(ExpandCell(values, next, Lookup(slots, key).value))
    ensures Lookup(slots, key).None? ==> FieldOf(ExpandSlots(values, next, slots, lo), key).None?
    decreases |slots|
  {
    if slots != [] {
      var e := ExpandSlots(values, next, slots, lo);
      var t := slots[1..];
      assert forall i :: 0 <= i < |t| ==> t[i] == slots[i + 1];
      assert SlotsOk(t, lo, values);
      assert ExpandSlots(values, next, t, lo) == e[1..];
      if slots[0].key != key {
        LookupField(values, next, t, lo, key);
      }
    }
  }

  /** `host[key]` for a key of the data object: the value `ReadKey` returns
      reads as the field `key` of the data, one level down. */
  lemma ReadKeyField(values: map<CellId, Val>, next: nat, root: seq<Slot>, key: string)
    requires Tree(values, next) && SlotsOk(root, -1, values)
    ensures SlotsIn(root, values)
    ensures Lookup(root, key).None? <==> FieldOf(ExpandSlots(values, next, root, -1), key).None?
    ensures Lookup(root, key).None? ==> ReadKey(root, values, key) == Atom(Undefined)
    ensures Lookup(root, key).Some? ==>
              var c := Lookup(root, key).value;
              && c in values && ReadKey(root, values, key) == values[c]
              && FieldOf(ExpandSlots(values, next, root, -1), key) == Some(ExpandCell(values, next, c))
  {
    LookupField(values, next, root, -1, key);
  }
}
