# myVue.js reactivity core in Dafny

This project models the dependency-tracking engine of `myVue.js` and proves what
each of its operations does. The engine makes a nested data object observable:

- `Observer.walk` / `definReactive` turn every key of the data tree into an
  accessor pair over a closure variable `value`, with a fresh `Dep` beside it;
- the getter registers `Dep.target` in that `Dep`;
- the setter ignores a strictly equal write, and otherwise stores the new
  value, walks it (so a new object is converted too) and calls `Dep.notify`;
- `Dep.add` puts a watcher in the `Dep`'s `Set`, and `notify` calls `update` on
  each member in insertion order;
- a `Watcher` sets `Dep.target` to itself, reads `vm[key]` once, clears the
  slot, and on `update` re-reads `vm[key]` and hands the value to its callback;
- `proxy` forwards the top-level keys of `$data` from the host object.

All of this mutable state lives in one class, `MyVue.Vm` (`vm.dfy`):

- `values` is the closure variable of every accessor pair, keyed by cell id;
- `deps` is the member sequence of the `Dep` of each cell, with no duplicates,
  in insertion order, like a JavaScript `Set`;
- `next` is the id of the next `new Dep()`;
- `target` is `Dep.target`;
- `watchers` holds the watcher records (key, `__old`, and the log of the values
  the callback received);
- `root` holds the keys of `$data` with their cells.

A converted object is a sequence of key/cell slots, and a cell created by
`definReactive` always has a smaller id than the cells of the value it holds. So
the cells form a forest, and what a cell reads as (`Cells.ExpandCell`) is a
well-founded function.

The invariant `Table.Shape` says four things:

- every cell has a `Dep`;
- the cells form a forest;
- the keys of `$data` name cells in key order;
- every `Dep` holds live watchers, each once.

`MyVue.Vm.Valid` adds two more: no tracked read is running, and only the `Dep`s
of keys of `$data` have members (`Table.TopOnly`). The last holds because a
watcher's `vm` is always the `myVue` instance (see "## Left out"), and a
watcher reads `vm[key]` without resolving paths. So a nested getter always runs
with `Dep.target` null.

The comment at myVue.js:36-37 promises deep watching: every key of a nested
object is watched. And the compiler (myVue.js:152-156) hands the text of a
`{{…}}` binding, such as `user.name`, to `new Watcher` as its key. But a watcher
on `user.name` is never called back when the nested key `name` changes. The
`Watcher` constructor reads `vm["user.name"]`, which `proxy` never defined. That
read finds no accessor and registers nothing. The model follows the code:
`Table.NestedUntracked` proves that a nested `Dep` never has members. The run in
`scenario.dfy` over `{count: 0, user: {name: "a"}}` ends with the log `[5]` for
the watcher on `count`, and an empty log for the watcher on `user.name`.

## Model

| member | source | states |
|---|---|---|
| Values.StrictlyEqual | myVue.js:28 | the negated `!==` test of both setters (also myVue.js:67): primitives compare by value, and a plain object is never `===` the current value; see "Object identity" and "Numbers are integers" under "## Left out" |
| Registry.Added | myVue.js:86-88 | `Set.add`: the members afterwards are the old ones plus `w`, the old order is kept as a prefix, adding a present watcher changes nothing, and no duplicate appears |
| Registry.MembersAdded | myVue.js:86-88 | adding a live watcher to a registry of live, distinct watchers keeps it one |
| Registry.MembersNoDup | myVue.js:82-84 | a registry holds each watcher at most once, and only live watchers |
| Cells.Lookup | myVue.js:19-21 | the host has an accessor for `key` exactly when some key of `$data` is `key`, and it forwards to that key's cell |
| Cells.LookupCell | myVue.js:19-21 | the cell `proxy` forwards a key to is a top-level cell of `$data` |
| Cells.ReadKey | myVue.js:24-26 | `host[key]`, which `update` also reads (myVue.js:112): definition only, without a contract; what it returns is stated by `Cells.ReadKeyField` |
| Cells.LookupField | myVue.js:19-26 | the cell a forwarding accessor reads for `key` reads as the field `key` of the plain data the converted object reads as; a key the converted object lacks is a key the plain data lacks |
| Cells.ReadKeyField | myVue.js:24-26 | `host[key]` returns the value of the cell that reads as the field `key` of `$data`; a key `$data` lacks reads as `undefined` in the model, since the host's other properties are left out |
| Cells.ExpandSlots | myVue.js:45-51 | a converted object reads as its keys, in order, each with what its cell reads as |
| Cells.ConvertStep | myVue.js:47-49 | converting one more key into fresh cells leaves the keys converted so far reading as before, and the new key reads as its data |
| Cells.ExpandCellFrame | myVue.js:53-57 | what a cell reads as depends only on younger cells: new cells, or changes to older ones, do not change it |
| Cells.ExpandValFrame | myVue.js:53-57 | the same for a converted value |
| Cells.TreeStore | myVue.js:68-70 | storing a value converted into fresh cells keeps the forest shape, and the cell then reads as that value |
| Table.ShapeBound | myVue.js:54 | `new Dep()` taking the next id keeps the invariant |
| Table.ShapeFresh | myVue.js:53-57 | installing a fresh cell with its converted value and an empty `Dep` keeps the invariant, and the cell reads as the value |
| Table.ShapeStore | myVue.js:68-70 | the setter's `value = newValue` keeps the invariant, and the cell reads as the new value |
| Table.ShapeAdd | myVue.js:86-88 | `Dep.add` of a live watcher keeps every registry a set of live watchers |
| Table.ShapeWithin | myVue.js:100-103 | a new watcher invalidates no registry |
| Table.ShapeRegistry | myVue.js:90-95 | the registry `notify` iterates has no duplicate and holds only live watchers |
| Table.ShapeRoot | myVue.js:11-13 | `proxy` over the converted `$data`, with every `Dep` still empty, satisfies the invariant |
| Table.TopOnlyAt | myVue.js:60-63 | a `Dep` with members belongs to a key of `$data` |
| Table.TopOnlyEmpty | myVue.js:82-84 | with every `Dep` empty, no nested `Dep` has members |
| Table.TopOnlyAdd | myVue.js:104-106 | the tracked read of a key of `$data` adds members only to a top-level `Dep` |
| Table.TopOnlyGrown | myVue.js:66-72 | a setter's conversion adds only cells with empty `Dep`s, so no nested `Dep` gains members |
| Table.NestedUntracked | myVue.js:60-63 | the `Dep` of a nested key has no members, so writing that key calls back nobody |
| Watchers.Deliver | myVue.js:110-114 | `update` on one watcher: its own contract states only that no watcher is created or removed; the effect is stated by `Watchers.DeliverAt` |
| Watchers.Broadcast | myVue.js:90-95 | `notify` as `update` on each member in insertion order: its own contract states only that no watcher is created or removed; the effect is stated by `Watchers.BroadcastAt` |
| Watchers.DeliverAt | myVue.js:110-114 | `update` on watcher `v` appends `vm[key]` to `v`'s log and changes no other watcher and no other field |
| Watchers.BroadcastAt | myVue.js:90-95 | after `notify`, a watcher's log has gained exactly one entry, the current `vm[key]`, if it is a member, and none otherwise; nothing else of it changes |
| Watchers.BroadcastLogs | myVue.js:90-95 | the same for every watcher at once |
| MyVue.Vm.constructor | myVue.js:6-16 | `proxy` then `new Observer`: the state is valid, no watcher exists, every `Dep` is empty, and `$data` read through the host is the given data |
| MyVue.Vm.Add | myVue.js:86-88 | a present watcher with `update` is added to the cell's `Dep` (idempotently); otherwise no registry changes |
| MyVue.Vm.Get | myVue.js:60-65 | the getter returns the closure value, changes no value, and adds `Dep.target` to this cell's `Dep` only when it is set; no other registry changes |
| MyVue.Vm.HostGet | myVue.js:24-26 | `host[key]` returns `data[key]` and runs that key's getter; a key `$data` lacks registers nothing, and reads as `undefined` in the model, since the host's other properties are left out |
| MyVue.Vm.Walk | myVue.js:45-51 | a primitive is left as it is and creates no cell; an object gets fresh cells for every key, recursively, and reads back as exactly the given data; old cells and registries are untouched |
| MyVue.Vm.DefineReactive | myVue.js:53-75 | a fresh `Dep`, allocated before the walk, and a cell that reads as the given data |
| MyVue.Vm.Set | myVue.js:66-73 | a strictly equal write changes nothing; otherwise the cell reads as the new value, old cells and registries are unchanged, and each member of this cell's `Dep`, and no other watcher, is called back once with its current `vm[key]` |
| MyVue.Vm.Assign | myVue.js:68-70 | `value = newValue` and `walk(newValue)`: the cell reads as the new value, and the new cells have empty `Dep`s |
| MyVue.Vm.Notify | myVue.js:90-95 | the loop calls `update` on each member once and on no other watcher, and leaves every registry unchanged |
| MyVue.Vm.Update | myVue.js:110-114 | `update` appends the current `vm[key]` to the log and leaves every registry unchanged |
| MyVue.Vm.NewWatcher | myVue.js:100-103 | a fresh watcher for `key` with an empty log |
| MyVue.Vm.TrackedRead | myVue.js:104-106 | `Dep.target` is set, whatever it held, and is null afterwards; the watcher is added to the `Dep` of the cell behind `key`, and to no other |
| MyVue.Vm.Remember | myVue.js:105 | `__old` records the value read |
| MyVue.Vm.Subscribe | myVue.js:100-107 | after `new Watcher`, `Dep.target` is null, the watcher exists with `__old` equal to `vm[key]`, and it is in the `Dep` of the cell behind `key` and in no other |
| MyVue.Vm.HostSet | myVue.js:27-31 | a write through the host reaches `data[key]` only when the value differs, with the effect of that key's setter; a key `$data` lacks changes nothing |
| Scenario.Build | myVue.js:6-16 | `new myVue` over `{count: 0, user: {name: "a"}}` makes two top-level cells and one nested cell, holding 0 and the object `{name}` |
| Scenario.SubscribeBoth | myVue.js:100-107 | a watcher on `count` joins `count`'s `Dep`; a watcher on `user.name` joins none: the registries afterwards are the old ones with `count`'s set to the first watcher alone |
| Scenario.WriteCount | myVue.js:27-31 | `vm.count = 5` calls back the watcher on `count` with 5 and leaves the log of the watcher on `user.name` as it was |
| Scenario.WriteName | myVue.js:24-26 | `vm.user.name = "b"`: the host read of `user`, untracked, then the write to its nested key `name`; no watcher changes |
| Scenario.WriteNested | myVue.js:66-73 | the write of `"b"` to the nested key `name` calls back nobody |
| Scenario.WriteCountAgain | myVue.js:27-31 | writing 5 again changes nothing: values, registries, the allocation bound and the watchers are as they were |
| Scenario.SubscribeThenWrite | myVue.js:66-73 | a watcher on a key of `$data`, followed by a write to that key: a strictly equal write never calls its callback; any other write calls it exactly once, with the value the key now holds, which reads as the written data |
| Scenario.WriteSubscribed | myVue.js:66-73 | the write half of `Scenario.SubscribeThenWrite`: with the watcher in the key's `Dep` and an empty log, a strictly equal write leaves its log empty and every value as it was; any other write leaves exactly the key's new value in its log |
| Scenario.Run | myVue.js:53-114 | at the end of the run, the watcher on `count` has received `[5]` and the watcher on `user.name` has received nothing |

## Left out

- `Compiler` (DOM traversal, `{{…}}` substitution, `v-model`, `v-on`) is not part of this model. It only creates watchers and calls the host getters and setters, which are modelled.
- The bootstrap: calling `options.data()` when `data` is a function, `$el` and `$methods`. The constructor takes the data value itself.
- Primitive `$data`. The constructor gives the host no keys for it. In the source, `Object.keys` throws on `null` or `undefined`. For a string it yields the indices (`"0"`, `"1"`, …), so `proxy` gives the host one key per character.
- The host's own other properties: `$el`, `$data`, `$methods`, `__init` and the members inherited from `Object.prototype`. In the model, a key that is not a key of `$data` reads as `undefined`. In the source, `vm["$data"]` reads the data object, for instance, and `new Watcher(vm, "$data", cb)` would pass it on.
- The setter's order. The source stores `value = newValue` first and then walks it. `MyVue.Vm.Assign` walks first and stores the converted value. Both end in the same state, because the walk converts the very object `value` refers to.
- `console.log` in `update` is I/O.
- Numbers are integers. There is no floating point, `NaN` or `-0`, so strict equality on numbers is equality on integers.
- `Object.defineProperty`, `enumerable` and `configurable` are not modelled as reflection. Each accessor pair is a cell id.
- Object identity. A value handed to a setter is plain data, so an object is never strictly equal to what a cell holds. Handing a setter an object that is already converted is not modelled.
- Callbacks are log appends. Re-entrant writes from a callback are not modelled, and neither is a `Watcher` constructed inside a tracked read. So `MyVue.Vm.Set`, `MyVue.Vm.Notify` and `MyVue.Vm.Update` require the state between operations (`Dep.target` null).
- `Watcher`'s `vm` is always the `myVue` instance. Both call sites pass `this.vm` (myVue.js:156, 188), and the class is not exported. So the model has no watcher over a nested object. Such a watcher, e.g. `new Watcher(vm.user, "name", cb)`, would register in a nested `Dep`. `Table.TopOnly` and `Table.NestedUntracked` rest on this.
- `Dep.target` is a static shared by every `myVue` instance (myVue.js:104, 106). The model makes it a field of each `MyVue.Vm`. This is equivalent here, because every tracked read is bracketed by setting and clearing it, and everything runs on one thread.
- Cyclic data. The data is a finite tree, on which `walk` terminates.
- Adding or deleting properties after conversion, arrays, and repeated keys in one object. For repeated keys, `Cells.Lookup` takes the first.
- Writing a key that `$data` lacks creates an ordinary own property on the JavaScript host. The model makes it a no-op, so the key keeps reading as `undefined`.
- `proxy`'s `forEach` over the keys is modelled as a lookup of the key in `root`, not as a loop that installs accessors one by one. The host has an accessor for exactly the keys of `$data`.
- The `watcher.update` test in `Dep.add` is modelled as the id naming an existing watcher. Every watcher has `update`.
- `proxy` runs before `new Observer` in `__init`, but its accessors only look `data[key]` up when they run. So the constructor records `root` after the walk.
- Watchers.Deliver: its own contract only states that the set of watchers is kept; the effect on each watcher is stated by `Watchers.DeliverAt`.
- Watchers.Broadcast: its own contract only states that the set of watchers is kept; the effect on each watcher is stated by `Watchers.BroadcastAt` and `Watchers.BroadcastLogs`.
