/** The member set of one `Dep`. A JavaScript `Set` keeps insertion order and
    holds each element once, so it is modelled as a sequence without duplicates. */
module Registry {
  import opened Values

  predicate NoDup(s: seq<WatcherId>) {
    forall i, j :: 0 <= i < j < |s| ==> s[i] != s[j]
  }

  /** A registry: each watcher at most once, and only watchers from `live`. */
  predicate Members(s: seq<WatcherId>, live: set<WatcherId>) {
    s == [] || (s[0] in live && s[0] !in s[1..] && Members(s[1..], live))
  }

  lemma {:induction false} MembersNoDup(s: seq<WatcherId>, live: set<WatcherId>)
    requires Members(s, live)
    ensures NoDup(s) && forall x :: x in s ==> x in live
  {
    if s != [] {
      MembersNoDup(s[1..], live);
      assert forall i :: 1 <= i < |s| ==> s[i] == s[1..][i - 1];
    }
  }

  lemma {:induction false} MembersWithin(s: seq<WatcherId>, live1: set<WatcherId>, live2: set<WatcherId>)
    requires Members(s, live1) && live1 <= live2
    ensures Members(s, live2)
  {
    if s != [] {
      MembersWithin(s[1..], live1, live2);
    }
  }

  /** `Set.prototype.add`: the watcher is appended unless it is already there. */
  function Added(s: seq<WatcherId>, w: WatcherId): (r: seq<WatcherId>)
    ensures forall x :: x in r <==> x in s || x == w
    ensures |s| <= |r| <= |s| + 1 && r[..|s|] == s
    ensures w in s ==> r == s
    ensures NoDup(s) ==> NoDup(r)
  {
    if w in s then s else s + [w]
  }

  /** Adding a live watcher keeps a registry a registry. */
  lemma {:induction false} MembersAdded(s: seq<WatcherId>, live: set<WatcherId>, w: WatcherId)
    requires Members(s, live) && w in live
    ensures Members(Added(s, w), live)
  {
    if w !in s {
      MembersSnoc(s, live, w);
    }
  }

  lemma {:induction false} MembersSnoc(s: seq<WatcherId>, live: set<WatcherId>, w: WatcherId)
    requires Members(s, live) && w in live && w !in s
    ensures Members(s + [w], live)
  {
    if s != [] {
      MembersSnoc(s[1..], live, w);
      assert (s + [w])[1..] == s[1..] + [w];
    }
  }

  /** The registry of cell `c` holds `live` watchers, each once. */
  ghost predicate RegistryOk(deps: map<CellId, seq<WatcherId>>, live: set<WatcherId>, c: CellId) {
    c in deps ==> Members(deps[c], live)
  }

  /** `RegistryOk` for every cell below `n`, stated recursively so that it is
      unfolded only as far as a proof asks. */
  ghost predicate Tracked(deps: map<CellId, seq<WatcherId>>, live: set<WatcherId>, n: nat)
    decreases n
  {
    n == 0 || (RegistryOk(deps, live, n - 1) && Tracked(deps, live, n - 1))
  }

  lemma {:induction false} TrackedAt(deps: map<CellId, seq<WatcherId>>, live: set<WatcherId>, n: nat, c: CellId)
    requires Tracked(deps, live, n) && c < n
    ensures RegistryOk(deps, live, c)
    decreases n
  {
    if c < n - 1 {
      TrackedAt(deps, live, n - 1, c);
    }
  }

  lemma {:induction false} TrackedIntro(deps: map<CellId, seq<WatcherId>>, live: set<WatcherId>, n: nat)
    requires forall c: nat :: c < n ==> RegistryOk(deps, live, c)
    ensures Tracked(deps, live, n)
    decreases n
  {
    if n > 0 {
      TrackedIntro(deps, live, n - 1);
    }
  }

  /** Storing a registry of `live` watchers for a cell below `n2` (at least
      `n`) keeps every registry tracked. */
  lemma TrackedPut(deps: map<CellId, seq<WatcherId>>, live: set<WatcherId>, n: nat,
                   c: CellId, s: seq<WatcherId>, n2: nat)
    requires Tracked(deps, live, n) && (forall d :: d in deps ==> d < n) && n <= n2 && c < n2
    requires Members(s, live)
    ensures Tracked(deps[c := s], live, n2)
  {
    var deps2 := deps[c := s];
    forall d: nat | d < n2
      ensures RegistryOk(deps2, live, d)
    {
      if d != c && d < n {
        TrackedAt(deps, live, n, d);
      }
    }
    TrackedIntro(deps2, live, n2);
  }

  /** Raising the allocation bound keeps every registry tracked. */
  lemma {:induction false} TrackedBound(deps: map<CellId, seq<WatcherId>>, live: set<WatcherId>, n: nat, n2: nat)
    requires Tracked(deps, live, n) && (forall d :: d in deps ==> d < n) && n <= n2
    ensures Tracked(deps, live, n2)
  {
    forall d: nat | d < n2
      ensures RegistryOk(deps, live, d)
    {
      if d < n {
        TrackedAt(deps, live, n, d);
      }
    }
    TrackedIntro(deps, live, n2);
  }

  /** New watchers do not invalidate any registry. */
  lemma TrackedWithin(deps: map<CellId, seq<WatcherId>>, live1: set<WatcherId>, live2: set<WatcherId>, n: nat)
    requires Tracked(deps, live1, n) && live1 <= live2
    ensures Tracked(deps, live2, n)
  {
    forall d: nat | d < n
      ensures RegistryOk(deps, live2, d)
    {
      TrackedAt(deps, live1, n, d);
      if d in deps {
        MembersWithin(deps[d], live1, live2);
      }
    }
    TrackedIntro(deps, live2, n);
  }

  /** Empty registries are tracked. */
  lemma {:induction false} TrackedEmpty(deps: map<CellId, seq<WatcherId>>, live: set<WatcherId>, n: nat)
    requires forall d :: d in deps ==> deps[d] == []
    ensures Tracked(deps, live, n)
  {
    TrackedIntro(deps, live, n);
  }
}
