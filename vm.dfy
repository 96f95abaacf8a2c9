/** The dependency-tracking core of myVue.js: `Observer`, `Dep`, `Dep.target`,
    `Watcher` and `proxy`, as one object holding all of their mutable state. */
module MyVue {
  import opened Values
  import opened Registry
  import opened Cells
  import opened Watchers
  import opened Table

  class Vm {
    /** The closure variable `value` of every accessor pair `definReactive` installed. */
    var values: map<CellId, Val>
    /** `deps.watchers` of the `Dep` created beside each of those closures. */
    var deps: map<CellId, seq<WatcherId>>
    /** The id the next `new Dep()` gets. */
    var next: CellId
    /** `Dep.target`: the watcher whose tracked read is running, if any. */
    var target: Option<WatcherId>
    /** Every `Watcher` constructed so far. */
    var watchers: map<WatcherId, Watcher>
    var nextWatcher: WatcherId
    /** The keys of `$data`, each with its cell; `proxy` forwards exactly these keys. */
    var root: seq<Slot>

    /** The shape every operation keeps. */
    ghost predicate Wf()
      reads this
    {
      && Shape(values, deps, next, root, watchers.Keys)
      && (forall w :: w in watchers ==> w < nextWatcher)
    }

    /** The state between two operations: no tracked read is running, and only
        keys of `$data` have subscribers. */
    ghost predicate Valid()
      reads this
    {
      Wf() && target.None? && TopOnly(deps, root, next)
    }

    /** The registries after a getter of cell `c` ran from `before`. */
    ghost function AfterRead(before: map<CellId, seq<WatcherId>>, c: CellId): map<CellId, seq<WatcherId>>
      reads this
      requires c in before
    {
      if target.Some? && target.value in watchers then before[c := Added(before[c], target.value)] else before
    }

    /** The bootstrap of `myVue.__init`: `proxy(this, data)`, then `new Observer(data)`. */
    constructor (data: Data)
      ensures Valid()
      ensures watchers == map[] && forall c :: c in deps ==> deps[c] == []
      ensures data.Record? ==> ExpandVal(values, next, Object(root), -1) == data
      ensures data.Lit? ==> root == [] && values == map[]
    {
      values, deps, next := map[], map[], 0;
      target := None;
      watchers, nextWatcher := map[], 0;
      root := [];
      new;
      var v := Walk(data);
      if v.Object? {
        ShapeRoot(values, deps, next, watchers.Keys, v.slots);
        root := v.slots;
      }
      TopOnlyEmpty(deps, root, next);
    }

    /** `Dep.add`: only a present watcher that has an `update` is added. */
    method Add(c: CellId, w: Option<WatcherId>)
      requires Wf() && c in deps
      modifies this`deps
      ensures Wf()
      ensures deps == if w.Some? && w.value in watchers then old(deps)[c := Added(old(deps[c]), w.value)] else old(deps)
    {
      if w.Some? && w.value in watchers {
        ShapeAdd(values, deps, next, root, watchers.Keys, c, w.value);
        deps := deps[c := Added(deps[c], w.value)];
      }
    }

    /** The getter of cell `c`: register `Dep.target`, return the closure value. */
    method Get(c: CellId) returns (v: Val)
      requires Wf() && c in values
      modifies this`deps
      ensures Wf()
      ensures v == values[c]
      ensures deps == AfterRead(old(deps), c)
    {
      if target.Some? {
        Add(c, target);
      }
      v := values[c];
    }

    /** The getter `proxy` installs on the host for `key`. */
    method HostGet(key: string) returns (v: Val)
      requires Wf()
      modifies this`deps
      ensures Wf()
      ensures v == ReadKey(root, values, key)
      ensures Lookup(root, key).None? ==> deps == old(deps)
      ensures Lookup(root, key).Some? ==> deps == AfterRead(old(deps), Lookup(root, key).value)
    {
      match Lookup(root, key)
      case None =>
        v := Atom(Undefined);
      case Some(c) =>
        v := Get(c);
    }

    /** `Observer.walk`: converts `d` in place. A primitive is left as it is; for an
        object, every key gets a cell (recursively), and the object is afterwards
        read back, through its getters, as exactly `d`. */
    method Walk(d: Data) returns (v: Val)
      requires Wf()
      modifies this`values, this`deps, this`next
      ensures Wf()
      ensures Grown(old(values), old(deps), old(next), values, deps, next)
      ensures v.Object? ==> SlotsOk(v.slots, old(next) - 1, values)
      ensures ExpandVal(values, next, v, old(next) - 1) == d
      ensures d.Lit? ==> v == Atom(d.p) && values == old(values) && next == old(next)
      decreases d, 0
    {
      match d
      case Lit(p) =>
        v := Atom(p);
      case Record(fields) =>
        ghost var values00, deps00, lo := values, deps, next - 1;
        var slots: seq<Slot> := [];
        var i := 0;
        while i < |fields|
          invariant 0 <= i <= |fields| && |slots| == i
          invariant Wf()
          invariant Grown(values00, deps00, lo + 1, values, deps, next)
          invariant SlotsOk(slots, lo, values)
          invariant ExpandSlots(values, next, slots, lo) == fields[..i]
        {
          ghost var values0, deps0, next0 := values, deps, next;
          assert fields[i] in fields;
          var s := DefineReactive(fields[i].key, fields[i].value);
          GrownTrans(values00, deps00, lo + 1, values0, deps0, next0, values, deps, next);
          ConvertStep(values0, next0, values, next, slots, lo, s, fields, i);
          slots := slots + [s];
          i := i + 1;
        }
        assert fields[..i] == fields;
        v := Object(slots);
    }

    /** `Observer.definReactive` for one key holding `d`: a fresh `Dep`, the walk
        of `d`, then the accessor pair whose closure holds the converted value. */
    method DefineReactive(key: string, d: Data) returns (s: Slot)
      requires Wf()
      modifies this`values, this`deps, this`next
      ensures Wf()
      ensures Grown(old(values), old(deps), old(next), values, deps, next)
      ensures s.key == key && s.cell == old(next) && old(next) < next
      ensures s.cell in values && ExpandCell(values, next, s.cell) == d
      decreases d, 1
    {
      ghost var values0, deps0 := values, deps;
      var c := next;
      ShapeBound(values, deps, next, root, watchers.Keys);
      next := next + 1;
      var v := Walk(d);
      ShapeFresh(values, deps, next, root, watchers.Keys, c, v);
      GrownFresh(values0, deps0, c, values, deps, next, v);
      values := values[c := v];
      deps := deps[c := []];
      s := Slot(key, c);
    }

    /** What a write of `nv` to cell `c` did: nothing when `nv` is strictly equal
        to the old value; otherwise `c` now reads as `nv`, every other cell and
        every registry is as it was (the table only grew, by fresh cells with empty
        registries), and each watcher in `c`'s registry, and only those, was called
        back once. */
    twostate predicate Written(c: CellId, nv: Data)
      reads this
      requires old(Wf()) && c in old(values)
    {
      if StrictlyEqual(nv, old(values[c])) then
        values == old(values) && deps == old(deps) && next == old(next) && watchers == old(watchers)
      else
        && Wf()
        && c in values && ExpandCell(values, next, c) == nv
        && Grown(old(values)[c := values[c]], old(deps), old(next), values, deps, next)
        && watchers == Broadcast(old(deps[c]), old(watchers), root, values)
        && (forall w :: w in old(watchers) ==>
              watchers[w] == old(watchers[w]).(log := old(watchers[w].log)
                + (if w in old(deps[c]) then [ReadKey(root, values, old(watchers[w].key))] else [])))
    }

    /** The setter of cell `c`. Its comparison reads `data[key]`, which runs the
        getter; `Dep.target` is null here, so that read registers nobody. */
    method Set(c: CellId, nv: Data)
      requires Valid() && c in values
      modifies this`values, this`deps, this`next, this`watchers
      ensures Valid()
      ensures Written(c, nv)
    {
      ghost var deps0 := deps;
      var current := Get(c);
      assert deps == deps0;
      if !StrictlyEqual(nv, current) {
        Assign(c, nv);
        assert deps[c] == deps0[c];
        Notify(c);
      }
    }

    /** The rest of the setter once the value differs: `value = newValue`, then
        `that.walk(newValue)`. The walk converts the very object `value` now
        refers to, so converting first and storing the converted value ends in
        the same state. The cell now reads as `nv`; the new cells have no
        subscribers yet. */
    method Assign(c: CellId, nv: Data)
      requires Valid() && c in values
      modifies this`values, this`deps, this`next
      ensures Valid()
      ensures c in values && ExpandCell(values, next, c) == nv
      ensures Grown(old(values)[c := values[c]], old(deps), old(next), values, deps, next)
    {
      ghost var values0, deps0, next0 := values, deps, next;
      var v := Walk(nv);
      ghost var values1, deps1, next1 := values, deps, next;
      TopOnlyGrown(values0, deps0, next0, values1, deps1, next1, root, watchers.Keys);
      ShapeStore(values, deps, next, root, watchers.Keys, c, v, next0 - 1);
      GrownPut(values0, deps0, next0, values1, deps1, next1, c, v);
      values := values[c := v];
    }

    /** `Dep.notify` of cell `c`: `update` on each member, in insertion order. */
    method Notify(c: CellId)
      requires Valid() && c in deps
      modifies this`deps, this`watchers
      ensures Valid()
      ensures deps == old(deps)
      ensures watchers == Broadcast(deps[c], old(watchers), root, values)
      ensures forall w :: w in old(watchers) ==>
                watchers[w] == old(watchers[w]).(log := old(watchers[w].log)
                  + (if w in deps[c] then [ReadKey(root, values, old(watchers[w].key))] else []))
    {
      ghost var deps0, watchers0 := deps, watchers;
      var members := deps[c];
      ShapeRegistry(values, deps, next, root, watchers.Keys, c);
      var i := 0;
      while i < |members|
        invariant 0 <= i <= |members|
        invariant Valid() && deps == deps0
        invariant watchers == Broadcast(members[..i], watchers0, root, values)
      {
        assert members[..i + 1][..i] == members[..i];
        Update(members[i]);
        i := i + 1;
      }
      assert members[..i] == members;
      BroadcastLogs(members, watchers0, root, values);
    }

    /** `Watcher.update`: read `vm[key]` (untracked, since `Dep.target` is null)
        and hand the value to the callback. */
    method Update(w: WatcherId)
      requires Valid() && w in watchers
      modifies this`deps, this`watchers
      ensures Valid()
      ensures deps == old(deps)
      ensures watchers == Deliver(old(watchers), w, root, values)
    {
      var v := HostGet(watchers[w].key);
      ghost var live := watchers.Keys;
      watchers := watchers[w := watchers[w].(log := watchers[w].log + [v])];
      assert watchers.Keys == live;
    }

    /** The first lines of the `Watcher` constructor: a new watcher object for
        host key `key`, with no value read yet and an empty callback log. */
    method NewWatcher(key: string) returns (w: WatcherId)
      requires Wf()
      modifies this`watchers, this`nextWatcher
      ensures Wf()
      ensures w == old(nextWatcher) && w !in old(watchers)
      ensures watchers == old(watchers)[w := Watcher(key, Atom(Undefined), [])]
    {
      w := nextWatcher;
      nextWatcher := nextWatcher + 1;
      ghost var live := watchers.Keys;
      watchers := watchers[w := Watcher(key, Atom(Undefined), [])];
      ShapeWithin(values, deps, next, root, live, watchers.Keys);
    }

    /** The tracked read of the `Watcher` constructor: `Dep.target = this`, which
        drops whatever it held, then `vm[key]`, then `Dep.target = null`. */
    method TrackedRead(w: WatcherId, key: string) returns (v: Val)
      requires Wf() && TopOnly(deps, root, next) && w in watchers
      modifies this`deps, this`target
      ensures Valid()
      ensures v == ReadKey(root, values, key)
      ensures Lookup(root, key).None? ==> deps == old(deps)
      ensures Lookup(root, key).Some? ==>
                var c := Lookup(root, key).value; deps == old(deps)[c := Added(old(deps[c]), w)]
    {
      ghost var deps0 := deps;
      target := Some(w);
      v := HostGet(key);
      target := None;
      match Lookup(root, key)
      case None =>
      case Some(c) =>
        LookupCell(root, key);
        TopOnlyAdd(deps0, root, next, c, deps[c]);
    }

    /** The `Watcher` constructor for host key `key`. The new watcher ends up in
        the registry of the cell behind `key`, and in no other. */
    method Subscribe(key: string) returns (w: WatcherId)
      requires Wf() && TopOnly(deps, root, next)
      modifies this`deps, this`watchers, this`nextWatcher, this`target
      ensures Valid()
      ensures w == old(nextWatcher) && w !in old(watchers)
      ensures watchers == old(watchers)[w := Watcher(key, ReadKey(root, values, key), [])]
      ensures Lookup(root, key).None? ==> deps == old(deps)
      ensures Lookup(root, key).Some? ==>
                var c := Lookup(root, key).value; deps == old(deps)[c := Added(old(deps[c]), w)]
    {
      ghost var watchers0 := watchers;
      w := NewWatcher(key);
      var v := TrackedRead(w, key);
      Remember(w, v);
      Overwrite(watchers0, w, Watcher(key, Atom(Undefined), []), Watcher(key, v, []));
    }

    /** `this.__old = v` on watcher `w`. */
    method Remember(w: WatcherId, v: Val)
      requires Valid() && w in watchers
      modifies this`watchers
      ensures Valid()
      ensures watchers == old(watchers)[w := old(watchers[w]).(initial := v)]
    {
      ghost var live := watchers.Keys;
      watchers := watchers[w := watchers[w].(initial := v)];
      assert watchers.Keys == live;
    }

    /** The setter `proxy` installs on the host for `key`: forward to `data[key]`
        when the value differs. A key `data` lacks has no forwarding setter. */
    method HostSet(key: string, nv: Data)
      requires Valid()
      modifies this`values, this`deps, this`next, this`watchers
      ensures Valid()
      ensures Lookup(root, key).None? ==>
                values == old(values) && deps == old(deps) && next == old(next) && watchers == old(watchers)
      ensures Lookup(root, key).Some? ==> Lookup(root, key).value in old(values) && Written(Lookup(root, key).value, nv)
    {
      match Lookup(root, key)
      case None =>
      case Some(c) =>
        var current := Get(c);
        if !StrictlyEqual(nv, current) {
          Set(c, nv);
        }
    }
  }
}
