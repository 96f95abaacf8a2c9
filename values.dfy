/** The values that flow through the reactivity engine of myVue.js. */
module Values {

  datatype Option<+T> = None | Some(value: T)

  /** A JavaScript primitive. Numbers are modelled as integers. */
  datatype Prim = Undefined | Null | Bool(b: bool) | Num(n: int) | Str(s: string)

  /** Plain, not yet converted data: a primitive or an object literal whose keys
      are listed in `Object.keys` order. Objects form a finite tree. */
  datatype Data = Lit(p: Prim) | Record(fields: seq<Field>)

  datatype Field = Field(key: string, value: Data)

  /** `obj[key]` on the plain object with fields `fields`: the value of the
      first field named `key`, if there is one. */
  function FieldOf(fields: seq<Field>, key: string): (r: Option<Data>)
    ensures r.Some? <==> exists i :: 0 <= i < |fields| && fields[i].key == key
    ensures r.Some? ==> Field(key, r.value) in fields
  {
    if fields == [] then None
    else if fields[0].key == key then Some(fields[0].value)
    else
      var r := FieldOf(fields[1..], key);
      assert forall i :: 1 <= i < |fields| ==> fields[i] == fields[1..][i - 1];
      r
  }

  /** Identifies one reactive cell: the closure variable `value` and the `Dep`
      that one call of `definReactive` creates. */
  type CellId = nat

  /** Identifies one `Watcher` object. */
  type WatcherId = nat

  /** A converted object property: its key and the cell behind its accessor pair. */
  datatype Slot = Slot(key: string, cell: CellId)

  /** What a reactive cell holds: a primitive, or an object all of whose keys
      have been turned into accessor pairs (one cell per key). */
  datatype Val = Atom(p: Prim) | Object(slots: seq<Slot>)

  /** `newValue !== current` negated, for a value handed to a setter. Primitives
      compare by value; a plain object handed to a setter is a fresh reference,
      so it is never strictly equal to what the cell holds. */
  predicate StrictlyEqual(nv: Data, current: Val) {
    nv.Lit? && current.Atom? && nv.p == current.p
  }
}
