/** `Watcher` records and the effect of `Dep.notify` on their callbacks. */
module Watchers {
  import opened Values
  import opened Registry
  import opened Cells

  /** A `Watcher`: the host key it reads (`this.key`), the value its tracked read
      returned (`this.__old`) and the values its callback `cb` has received so far. */
  datatype Watcher = Watcher(key: string, initial: Val, log: seq<Val>)

  /** `Watcher.update` of watcher `w`: re-read `host[key]` and pass it to `cb`. */
  function Deliver(ws: map<WatcherId, Watcher>, w: WatcherId, root: seq<Slot>, values: map<CellId, Val>): (r: map<WatcherId, Watcher>)
    requires SlotsIn(root, values)
    ensures r.Keys == ws.Keys
  {
    if w in ws then ws[w := ws[w].(log := ws[w].log + [ReadKey(root, values, ws[w].key)])] else ws
  }

  /** `Dep.notify` over the member sequence `members`: `update` on each, in order. */
  function Broadcast(members: seq<WatcherId>, ws: map<WatcherId, Watcher>, root: seq<Slot>, values: map<CellId, Val>): (r: map<WatcherId, Watcher>)
    requires SlotsIn(root, values)
    ensures r.Keys == ws.Keys
  {
    if members == [] then ws
    else
      var k := |members| - 1;
      Deliver(Broadcast(members[..k], ws, root, values), members[k], root, values)
  }

  /** One `update` appends to the log of the watcher it is called on, and
      changes no other watcher and no other field. */
  lemma DeliverAt(ws: map<WatcherId, Watcher>, v: WatcherId, root: seq<Slot>, values: map<CellId, Val>, w: WatcherId)
    requires SlotsIn(root, values) && w in ws
    ensures Deliver(ws, v, root, values)[w]
            == ws[w].(log := ws[w].log + (if w == v then [ReadKey(root, values, ws[w].key)] else []))
  {
  }

  /** A notification calls back each member exactly once, with the value its key
      reads now, calls back no other watcher, and changes nothing else of any
      watcher. */
  lemma {:induction false} BroadcastAt(members: seq<WatcherId>, ws: map<WatcherId, Watcher>, root: seq<Slot>, values: map<CellId, Val>, w: WatcherId)
    requires SlotsIn(root, values) && NoDup(members) && w in ws
    ensures Broadcast(members, ws, root, values)[w]
            == ws[w].(log := ws[w].log + (if w in members then [ReadKey(root, values, ws[w].key)] else []))
  {
    if members != [] {
      var k := |members| - 1;
      var prefix := members[..k];
      var prev := Broadcast(prefix, ws, root, values);
      BroadcastAt(prefix, ws, root, values, w);
      DeliverAt(prev, members[k], root, values, w);
      assert w in members <==> w in prefix || w == members[k] by {
        assert members == prefix + [members[k]];
      }
      assert w == members[k] ==> w !in prefix;
    }
  }

  /** `BroadcastAt` for every watcher at once. */
  lemma BroadcastLogs(members: seq<WatcherId>, ws: map<WatcherId, Watcher>, root: seq<Slot>, values: map<CellId, Val>)
    requires SlotsIn(root, values) && NoDup(members)
    ensures forall w :: w in ws ==>
              Broadcast(members, ws, root, values)[w]
              == ws[w].(log := ws[w].log + (if w in members then [ReadKey(root, values, ws[w].key)] else []))
  {
    forall w | w in ws
      ensures Broadcast(members, ws, root, values)[w]
              == ws[w].(log := ws[w].log + (if w in members then [ReadKey(root, values, ws[w].key)] else []))
    {
      BroadcastAt(members, ws, root, values, w);
    }
  }
  /** Storing a record twice under one id keeps the second. */
  lemma Overwrite(ws: map<WatcherId, Watcher>, w: WatcherId, a: Watcher, b: Watcher)
    ensures ws[w := a][w := b] == ws[w := b]
  {
  }
}
