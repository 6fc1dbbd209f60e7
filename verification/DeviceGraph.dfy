/** Devices and their attachments.  A device is known by the order in which it
    was created; a device is created only after the devices attached to it, so
    attachments always point to smaller numbers. */
module DeviceGraph {
  type Graph = seq<seq<nat>>

  ghost predicate CreatedInOrder(g: Graph) {
    forall d, i :: 0 <= d < |g| && 0 <= i < |g[d]| ==> g[d][i] < d
  }

  ghost predicate Known(g: Graph, ds: seq<nat>) {
    forall i :: 0 <= i < |ds| ==> ds[i] < |g|
  }

  /** The recursive generator `devIter(..., allwaiters=True)`: devices outside
      `members` are ignored together with everything below them; every other
      device is yielded after all devices its attachments yield. */
  function DevIter(g: Graph, members: set<nat>, ds: seq<nat>): (r: seq<nat>)
    requires CreatedInOrder(g) && Known(g, ds)
    decreases Bound(ds), |ds|
  {
    if ds == [] then []
    else DevIterOne(g, members, ds[0]) + DevIter(g, members, ds[1..])
  }

  function DevIterOne(g: Graph, members: set<nat>, d: nat): (r: seq<nat>)
    requires CreatedInOrder(g) && d < |g|
    decreases d + 1, 0
  {
    if d !in members then []
    else
      assert Bound(g[d]) <= d by { BoundBelow(g[d], d); }
      DevIter(g, members, g[d]) + [d]
  }

  ghost function Bound(ds: seq<nat>): nat
    ensures forall i :: 0 <= i < |ds| ==> ds[i] < Bound(ds)
  {
    if ds == [] then 0
    else if ds[0] < Bound(ds[1..]) then Bound(ds[1..]) else ds[0] + 1
  }

  lemma BoundBelow(ds: seq<nat>, n: nat)
    requires forall i :: 0 <= i < |ds| ==> ds[i] < n
    ensures Bound(ds) <= n
  {
  }

  /** `path` starts at a listed device, follows attachments, and stays inside `members`. */
  ghost predicate Path(g: Graph, members: set<nat>, ds: seq<nat>, path: seq<nat>) {
    && path != []
    && path[0] in ds
    && (forall i :: 0 <= i < |path| ==> path[i] in members && path[i] < |g|)
    && (forall i :: 0 <= i < |path| - 1 ==> path[i + 1] in g[path[i]])
  }

  ghost predicate Reachable(g: Graph, members: set<nat>, ds: seq<nat>, d: nat) {
    exists path :: Path(g, members, ds, path) && path[|path| - 1] == d
  }

  /** DevIter yields exactly the members reachable through members. */
  lemma {:induction false} DevIterIsReachability(g: Graph, members: set<nat>, ds: seq<nat>, d: nat)
    requires CreatedInOrder(g) && Known(g, ds)
    ensures d in DevIter(g, members, ds) <==> Reachable(g, members, ds, d)
  {
    if d in DevIter(g, members, ds) {
      var path := YieldedHasPath(g, members, ds, d);
    }
    if Reachable(g, members, ds, d) {
      var path :| Path(g, members, ds, path) && path[|path| - 1] == d;
      PathIsYielded(g, members, ds, path);
    }
  }

  lemma {:induction false} YieldedHasPath(g: Graph, members: set<nat>, ds: seq<nat>, d: nat)
    returns (path: seq<nat>)
    requires CreatedInOrder(g) && Known(g, ds)
    requires d in DevIter(g, members, ds)
    ensures Path(g, members, ds, path) && path[|path| - 1] == d
    decreases Bound(ds), |ds|
  {
    var head := ds[0];
    if d in DevIterOne(g, members, head) {
      if d == head {
        path := [d];
      } else {
        BoundBelow(g[head], head);
        var below := YieldedHasPath(g, members, g[head], d);
        path := [head] + below;
      }
    } else {
      path := YieldedHasPath(g, members, ds[1..], d);
    }
  }

  lemma {:induction false} PathIsYielded(g: Graph, members: set<nat>, ds: seq<nat>, path: seq<nat>)
    requires CreatedInOrder(g) && Known(g, ds) && Path(g, members, ds, path)
    ensures path[|path| - 1] in DevIter(g, members, ds)
    decreases |path|, |ds|
  {
    var head := ds[0];
    if path[0] != head {
      assert path[0] in ds[1..];
      PathIsYielded(g, members, ds[1..], path);
    } else if |path| > 1 {
      var rest := path[1..];
      forall i | 0 <= i < |rest| - 1 ensures rest[i + 1] in g[rest[i]] {
        assert rest[i] == path[i + 1] && rest[i + 1] == path[(i + 1) + 1];
      }
      assert Path(g, members, g[head], rest);
      PathIsYielded(g, members, g[head], rest);
    }
  }

  /** Every yielded device comes after each of its own member attachments. */
  lemma {:induction false} AttachmentsComeFirst(g: Graph, members: set<nat>, ds: seq<nat>, k: nat, w: nat)
    requires CreatedInOrder(g) && Known(g, ds)
    requires k < |DevIter(g, members, ds)|
    requires DevIter(g, members, ds)[k] < |g|
    requires w in g[DevIter(g, members, ds)[k]] && w in members
    ensures w in DevIter(g, members, ds)[..k]
    decreases Bound(ds), |ds|
  {
    var head, all := ds[0], DevIter(g, members, ds);
    var one, rest := DevIterOne(g, members, head), DevIter(g, members, ds[1..]);
    if k >= |one| {
      AttachmentsComeFirst(g, members, ds[1..], k - |one|, w);
      assert rest[..k - |one|] <= all[|one|..k];
      var j :| 0 <= j < k - |one| && rest[j] == w;
      assert all[..k][|one| + j] == w;
    } else {
      BoundBelow(g[head], head);
      var below := DevIter(g, members, g[head]);
      if k < |below| {
        AttachmentsComeFirst(g, members, g[head], k, w);
        assert all[..k] == below[..k];
      } else {
        assert all[..k] == below;
        ListedIsYielded(g, members, g[head], w);
      }
    }
  }

  lemma {:induction false} ListedIsYielded(g: Graph, members: set<nat>, ds: seq<nat>, d: nat)
    requires CreatedInOrder(g) && Known(g, ds)
    requires d in ds && d in members
    ensures d in DevIter(g, members, ds)
  {
    if ds[0] != d {
      assert d in ds[1..];
      ListedIsYielded(g, members, ds[1..], d);
    }
  }

  /** Only known members are yielded. */
  lemma {:induction false} YieldedAreMembers(g: Graph, members: set<nat>, ds: seq<nat>)
    requires CreatedInOrder(g) && Known(g, ds)
    ensures forall d :: d in DevIter(g, members, ds) ==> d in members && d < |g|
  {
    forall d | d in DevIter(g, members, ds) ensures d in members && d < |g| {
      var path := YieldedHasPath(g, members, ds, d);
    }
  }
}
