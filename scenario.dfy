/** The end-to-end run over `{count: 0, user: {name: "a"}}`: one watcher on
    `count`, one on the key `user.name`, then the writes `count = 5`,
    `user.name = "b"` and `count = 5` again. */
module Scenario {
  import opened Values
  import opened Cells
  import opened Watchers
  import opened Table
  import opened MyVue

  /** A cell that reads as a primitive holds that primitive. */
  lemma ReadsAsAtom(values: map<CellId, Val>, next: nat, c: CellId, p: Prim)
    requires Tree(values, next) && c in values && ExpandCell(values, next, c) == Lit(p)
    ensures values[c] == Atom(p)
  {
    TreeAt(values, next, c);
  }

  /** A cell that reads as an object with the single key `key` holds one slot
      for `key`, whose cell is younger than `c`. */
  lemma ReadsAsSingleton(values: map<CellId, Val>, next: nat, c: CellId, key: string, d: Data)
    requires Tree(values, next) && c in values && ExpandCell(values, next, c) == Record([Field(key, d)])
    ensures values[c].Object? && |values[c].slots| == 1 && values[c].slots[0].key == key
    ensures values[c].slots[0].cell in values && c < values[c].slots[0].cell
  {
    TreeAt(values, next, c);
    if values[c].Object? {
      assert ExpandSlots(values, next, values[c].slots, c)[0].key == key;
    }
  }

  /** `new myVue` over the data of the run, and what its cells then hold. */
  method Build() returns (vm: Vm, count: CellId, user: CellId, name: CellId)
    ensures fresh(vm) && vm.Valid() && vm.watchers == map[]
    ensures vm.root == [Slot("count", count), Slot("user", user)]
    ensures count < user < name && count in vm.values && user in vm.values && name in vm.values
    ensures vm.values[count] == Atom(Num(0)) && vm.values[user] == Object([Slot("name", name)])
    ensures count in vm.deps && vm.deps[count] == []
  {
    var data := Record([Field("count", Lit(Num(0))), Field("user", Record([Field("name", Lit(Str("a")))]))]);
    vm := new Vm(data);
    var root := vm.root;
    ghost var fields := ExpandSlots(vm.values, vm.next, root, -1);
    assert fields == data.fields;
    assert |root| == 2 && root[0].key == "count" && root[1].key == "user" by {
      assert fields[0].key == "count" && fields[1].key == "user";
    }
    count, user := root[0].cell, root[1].cell;
    assert ExpandCell(vm.values, vm.next, count) == Lit(Num(0)) by {
      assert fields[0].value == Lit(Num(0));
    }
    assert ExpandCell(vm.values, vm.next, user) == Record([Field("name", Lit(Str("a")))]) by {
      assert fields[1].value == Record([Field("name", Lit(Str("a")))]);
    }
    ReadsAsAtom(vm.values, vm.next, count, Num(0));
    ReadsAsSingleton(vm.values, vm.next, user, "name", Lit(Str("a")));
    name := vm.values[user].slots[0].cell;
    assert vm.values[user] == Object([Slot("name", name)]);
    assert root == [Slot("count", count), Slot("user", user)];
  }

  /** The facts about the run that hold between its steps. */
  ghost predicate Stage(vm: Vm, count: CellId, user: CellId, name: CellId, p: Prim)
    reads vm
  {
    && vm.Valid()
    && vm.root == [Slot("count", count), Slot("user", user)]
    && count < user < name && count in vm.values && user in vm.values && name in vm.values
    && vm.values[count] == Atom(p) && vm.values[user] == Object([Slot("name", name)])
  }

  /** `new Watcher(vm, "count", …)` and `new Watcher(vm, "user.name", …)`. The
      second reads the host key `user.name`, which `proxy` never defined. */
  method SubscribeBoth(vm: Vm, count: CellId, user: CellId, name: CellId) returns (u1: WatcherId, u2: WatcherId)
    requires Stage(vm, count, user, name, Num(0)) && vm.watchers == map[] && vm.deps[count] == []
    modifies vm
    ensures Stage(vm, count, user, name, Num(0))
    ensures u1 != u2 && u1 in vm.watchers && u2 in vm.watchers
    ensures vm.watchers[u1].log == [] && vm.watchers[u2].log == [] && vm.watchers[u1].key == "count"
    ensures vm.deps == old(vm.deps)[count := [u1]]
  {
    assert Lookup(vm.root, "count") == Some(count);
    u1 := vm.Subscribe("count");
    assert Lookup(vm.root, "user.name").None? by {
      assert vm.root[1..][0] == vm.root[1] && vm.root[1..][1..] == [];
    }
    u2 := vm.Subscribe("user.name");
  }

  /** `vm.count = 5`: the watcher on `count` is called back with 5. */
  method WriteCount(vm: Vm, count: CellId, user: CellId, name: CellId, u1: WatcherId, u2: WatcherId)
    requires Stage(vm, count, user, name, Num(0)) && vm.deps[count] == [u1]
    requires u1 != u2 && u1 in vm.watchers && u2 in vm.watchers && vm.watchers[u1].key == "count"
    modifies vm
    ensures Stage(vm, count, user, name, Num(5))
    ensures u1 in vm.watchers && u2 in vm.watchers
    ensures vm.watchers[u1].log == old(vm.watchers[u1].log) + [Atom(Num(5))]
    ensures vm.watchers[u2].log == old(vm.watchers[u2].log)
  {
    assert Lookup(vm.root, "count") == Some(count);
    ghost var values0, deps0, next0 := vm.values, vm.deps, vm.next;
    vm.HostSet("count", Lit(Num(5)));
    ReadsAsAtom(vm.values, vm.next, count, Num(5));
    GrownKeeps(values0[count := vm.values[count]], deps0, next0, vm.values, vm.deps, vm.next, user);
  }

  /** `vm.user.name = "b"`: the host read of `user`, then the write to its key
      `name`. */
  method WriteName(vm: Vm, count: CellId, user: CellId, name: CellId, p: Prim)
    requires Stage(vm, count, user, name, p)
    modifies vm
    ensures Stage(vm, count, user, name, p)
    ensures vm.watchers == old(vm.watchers)
  {
    assert Lookup(vm.root, "user") == Some(user) by {
      assert vm.root[1..][0] == vm.root[1];
    }
    var userValue := vm.HostGet("user");
    if userValue.Object? {
      match Lookup(userValue.slots, "name")
      case None =>
      case Some(c) =>
        WriteNested(vm, count, user, name, p, c);
    }
  }

  /** The setter of the nested key `name`: its `Dep` never gained a member, so
      the write calls back nobody. */
  method WriteNested(vm: Vm, count: CellId, user: CellId, name: CellId, p: Prim, c: CellId)
    requires Stage(vm, count, user, name, p) && c == name
    modifies vm
    ensures Stage(vm, count, user, name, p)
    ensures vm.watchers == old(vm.watchers)
  {
    assert !HasCell(vm.root, c) by {
      assert vm.root[1..][0] == vm.root[1] && vm.root[1..][1..] == [];
      assert !HasCell(vm.root[1..][1..], c);
    }
    NestedUntracked(vm.deps, vm.root, vm.next, c);
    ghost var values0, deps0, next0 := vm.values, vm.deps, vm.next;
    vm.Set(c, Lit(Str("b")));
    if !StrictlyEqual(Lit(Str("b")), values0[c]) {
      GrownKeeps(values0[c := vm.values[c]], deps0, next0, vm.values, vm.deps, vm.next, count);
      GrownKeeps(values0[c := vm.values[c]], deps0, next0, vm.values, vm.deps, vm.next, user);
    }
  }

  /** `vm.count = 5` again: strictly equal, so nothing happens. */
  method WriteCountAgain(vm: Vm, count: CellId, user: CellId, name: CellId)
    requires Stage(vm, count, user, name, Num(5))
    modifies vm
    ensures Stage(vm, count, user, name, Num(5))
    ensures vm.values == old(vm.values) && vm.deps == old(vm.deps) && vm.next == old(vm.next)
    ensures vm.watchers == old(vm.watchers)
  {
    assert Lookup(vm.root, "count") == Some(count);
    vm.HostSet("count", Lit(Num(5)));
  }

  /** `new Watcher(vm, key, cb)` and then `vm[key] = nv`, for any key of `$data`
      and any state between operations: a strictly equal write never calls `cb`;
      any other write calls it exactly once, with the value the key now holds,
      and that value reads as `nv`. */
  method SubscribeThenWrite(vm: Vm, key: string, nv: Data) returns (w: WatcherId)
    requires vm.Valid() && Lookup(vm.root, key).Some?
    modifies vm
    ensures vm.Valid() && vm.root == old(vm.root)
    ensures w in vm.watchers && vm.watchers[w].key == key
    ensures var c := Lookup(vm.root, key).value;
              && c in old(vm.values) && c in vm.values
              && (StrictlyEqual(nv, old(vm.values[c])) ==> vm.watchers[w].log == [])
              && (!StrictlyEqual(nv, old(vm.values[c])) ==>
                    vm.watchers[w].log == [vm.values[c]] && ExpandCell(vm.values, vm.next, c) == nv)
  {
    var c := Lookup(vm.root, key).value;
    w := vm.Subscribe(key);
    WriteSubscribed(vm, key, c, nv, w);
  }

  /** The write of `SubscribeThenWrite`, to the key `key` of cell `c`, once
      watcher `w` on `key` sits in the `Dep` of `c` with an empty log. */
  method WriteSubscribed(vm: Vm, key: string, c: CellId, nv: Data, w: WatcherId)
    requires vm.Valid() && Lookup(vm.root, key) == Some(c) && c in vm.values
    requires w in vm.watchers && vm.watchers[w].key == key && vm.watchers[w].log == [] && w in vm.deps[c]
    modifies vm
    ensures vm.Valid() && vm.root == old(vm.root)
    ensures c in vm.values && w in vm.watchers && vm.watchers[w].key == key
    ensures StrictlyEqual(nv, old(vm.values[c])) ==> vm.watchers[w].log == [] && vm.values == old(vm.values)
    ensures !StrictlyEqual(nv, old(vm.values[c])) ==>
              vm.watchers[w].log == [vm.values[c]] && ExpandCell(vm.values, vm.next, c) == nv
  {
    vm.HostSet(key, nv);
  }

  /** The logs of the two watchers at the end of the run: the one on `count` saw
      the single change to 5; the one on `user.name` saw nothing. */
  method Run() returns (countLog: seq<Val>, userLog: seq<Val>)
    ensures countLog == [Atom(Num(5))]
    ensures userLog == []
  {
    var vm, count, user, name := Build();
    var u1, u2 := SubscribeBoth(vm, count, user, name);
    WriteCount(vm, count, user, name, u1, u2);
    WriteName(vm, count, user, name, Num(5));
    WriteCountAgain(vm, count, user, name);
    countLog := vm.watchers[u1].log;
    userLog := vm.watchers[u2].log;
  }
}
