/** The table of reactive cells as a whole: the invariant every operation keeps
    and the steps that keep it. */
module Table {
  import opened Values
  import opened Registry
  import opened Cells

  /** Every cell has a `Dep`, the cells form a forest, the keys of `$data` name
      cells in key order, and every registry holds `live` watchers. */
  ghost predicate Shape(values: map<CellId, Val>, deps: map<CellId, seq<WatcherId>>, next: nat,
                        root: seq<Slot>, live: set<WatcherId>)
  {
    && values.Keys == deps.Keys
    && Tree(values, next)
    && SlotsOk(root, -1, values)
    && Tracked(deps, live, next)
  }

  /** `new Dep()` raises the allocation bound. */
  lemma ShapeBound(values: map<CellId, Val>, deps: map<CellId, seq<WatcherId>>, next: nat,
                   root: seq<Slot>, live: set<WatcherId>)
    requires Shape(values, deps, next, root, live)
    ensures Shape(values, deps, next + 1, root, live)
  {
    TreeBound(values, next, next + 1);
    TrackedBound(deps, live, next, next + 1);
  }

  /** The install step of `definReactive`: the fresh cell `c`, which is older
      than every cell of the converted value `v`, gets `v` and an empty `Dep`;
      it then reads as `v`. */
  lemma ShapeFresh(values: map<CellId, Val>, deps: map<CellId, seq<WatcherId>>, next: nat,
                   root: seq<Slot>, live: set<WatcherId>, c: CellId, v: Val)
    requires Shape(values, deps, next, root, live) && c < next && c !in values
    requires v.Object? ==> SlotsOk(v.slots, c, values)
    ensures Shape(values[c := v], deps[c := []], next, root, live)
    ensures ExpandCell(values[c := v], next, c) == ExpandVal(values, next, v, c)
  {
    TreeStore(values, next, c, v, c, root);
    TrackedPut(deps, live, next, c, [], next);
    assert values[c := v].Keys == deps[c := []].Keys;
  }

  /** The assignment `value = newValue` of a setter: cell `c` gets the value
      `v`, converted into cells created after `lo`, and then reads as `v`. */
  lemma ShapeStore(values: map<CellId, Val>, deps: map<CellId, seq<WatcherId>>, next: nat,
                   root: seq<Slot>, live: set<WatcherId>, c: CellId, v: Val, lo: int)
    requires Shape(values, deps, next, root, live) && c in values && c <= lo
    requires v.Object? ==> SlotsOk(v.slots, lo, values)
    ensures Shape(values[c := v], deps, next, root, live)
    ensures ExpandCell(values[c := v], next, c) == ExpandVal(values, next, v, lo)
  {
    TreeStore(values, next, c, v, lo, root);
    assert values[c := v].Keys == values.Keys;
  }

  /** `Dep.add` of the live watcher `w`. */
  lemma ShapeAdd(values: map<CellId, Val>, deps: map<CellId, seq<WatcherId>>, next: nat,
                 root: seq<Slot>, live: set<WatcherId>, c: CellId, w: WatcherId)
    requires Shape(values, deps, next, root, live) && c in deps && w in live
    ensures Shape(values, deps[c := Added(deps[c], w)], next, root, live)
  {
    TrackedAt(deps, live, next, c);
    MembersAdded(deps[c], live, w);
    TrackedPut(deps, live, next, c, Added(deps[c], w), next);
    assert deps[c := Added(deps[c], w)].Keys == deps.Keys;
  }

  /** A new watcher invalidates no registry. */
  lemma ShapeWithin(values: map<CellId, Val>, deps: map<CellId, seq<WatcherId>>, next: nat,
                    root: seq<Slot>, live: set<WatcherId>, live2: set<WatcherId>)
    requires Shape(values, deps, next, root, live) && live <= live2
    ensures Shape(values, deps, next, root, live2)
  {
    TrackedWithin(deps, live, live2, next);
  }

  /** The registry of any cell holds each live watcher at most once. */
  lemma ShapeRegistry(values: map<CellId, Val>, deps: map<CellId, seq<WatcherId>>, next: nat,
                      root: seq<Slot>, live: set<WatcherId>, c: CellId)
    requires Shape(values, deps, next, root, live) && c in deps
    ensures NoDup(deps[c]) && forall w :: w in deps[c] ==> w in live
  {
    TrackedAt(deps, live, next, c);
    MembersNoDup(deps[c], live);
  }

  /** `proxy` over the freshly converted `$data`, before any watcher subscribed. */
  lemma ShapeRoot(values: map<CellId, Val>, deps: map<CellId, seq<WatcherId>>, next: nat,
                  live: set<WatcherId>, root: seq<Slot>)
    requires Shape(values, deps, next, [], live) && SlotsOk(root, -1, values)
    requires forall c :: c in deps ==> deps[c] == []
    ensures Shape(values, deps, next, root, live)
  {
    TrackedEmpty(deps, live, next);
  }

  /** The `Dep` of a cell below `n` has members only if the cell is a key of
      `$data`. `Dep.target` is set only around the read `vm[key]`, which runs
      the getter of a top-level cell; a nested getter runs with `Dep.target`
      null. Stated recursively so that it is unfolded only as far as a proof
      asks. */
  ghost predicate TopOnly(deps: map<CellId, seq<WatcherId>>, root: seq<Slot>, n: nat)
    decreases n
  {
    n == 0 || ((n - 1 in deps && deps[n - 1] != [] ==> HasCell(root, n - 1)) && TopOnly(deps, root, n - 1))
  }

  lemma {:induction false} TopOnlyAt(deps: map<CellId, seq<WatcherId>>, root: seq<Slot>, n: nat, c: CellId)
    requires TopOnly(deps, root, n) && c < n && c in deps && deps[c] != []
    ensures HasCell(root, c)
    decreases n
  {
    if c < n - 1 {
      TopOnlyAt(deps, root, n - 1, c);
    }
  }

  lemma {:induction false} TopOnlyIntro(deps: map<CellId, seq<WatcherId>>, root: seq<Slot>, n: nat)
    requires forall c: nat :: c < n && c in deps && deps[c] != [] ==> HasCell(root, c)
    ensures TopOnly(deps, root, n)
    decreases n
  {
    if n > 0 {
      TopOnlyIntro(deps, root, n - 1);
    }
  }

  /** With no subscriber anywhere, the rule holds trivially. */
  lemma {:induction false} TopOnlyEmpty(deps: map<CellId, seq<WatcherId>>, root: seq<Slot>, n: nat)
    requires forall c :: c in deps ==> deps[c] == []
    ensures TopOnly(deps, root, n)
  {
    TopOnlyIntro(deps, root, n);
  }

  /** A tracked read of a key of `$data` keeps the rule. */
  lemma TopOnlyAdd(deps: map<CellId, seq<WatcherId>>, root: seq<Slot>, n: nat, c: CellId, s: seq<WatcherId>)
    requires TopOnly(deps, root, n) && HasCell(root, c)
    ensures TopOnly(deps[c := s], root, n)
  {
    var deps2 := deps[c := s];
    forall d: nat | d < n && d in deps2 && deps2[d] != []
      ensures HasCell(root, d)
    {
      if d != c {
        TopOnlyAt(deps, root, n, d);
      }
    }
    TopOnlyIntro(deps2, root, n);
  }

  /** Growing the table by fresh cells with empty registries keeps the rule. */
  lemma TopOnlyGrown(values0: map<CellId, Val>, deps0: map<CellId, seq<WatcherId>>, next0: nat,
                     values1: map<CellId, Val>, deps1: map<CellId, seq<WatcherId>>, next1: nat,
                     root: seq<Slot>, live: set<WatcherId>)
    requires Shape(values0, deps0, next0, root, live) && TopOnly(deps0, root, next0)
    requires Shape(values1, deps1, next1, root, live)
    requires Grown(values0, deps0, next0, values1, deps1, next1)
    ensures TopOnly(deps1, root, next1)
  {
    forall d: nat | d < next1 && d in deps1 && deps1[d] != []
      ensures HasCell(root, d)
    {
      if d in deps0 {
        TopOnlyAt(deps0, root, next0, d);
      }
    }
    TopOnlyIntro(deps1, root, next1);
  }

  /** Only the `Dep`s of keys of `$data` ever gain members: writing a nested key
      calls back nobody. */
  lemma {:induction false} NestedUntracked(deps: map<CellId, seq<WatcherId>>, root: seq<Slot>, n: nat, c: CellId)
    requires TopOnly(deps, root, n) && c < n && c in deps && !HasCell(root, c)
    ensures deps[c] == []
  {
    if deps[c] != [] {
      TopOnlyAt(deps, root, n, c);
    }
  }
}
