/** The local store of the cache client with its rewrites: `put`, `delete`,
    `clear`, `setRewrite`, `unsetRewrite` and `get`. */
module CacheStore {
  import opened Options
  import opened CacheKeys

  type Value = int  // values matter only up to equality

  // ---- The store as a value ----

  /** `rewrites` maps a device to the names that see its keys, `inv` such a name to the device. */
  datatype Store = Store(db: map<string, (Value, real)>, rewrites: map<string, set<string>>, inv: map<string, string>)

  const EMPTY := Store(map[], map[], map[])

  /** The two rewrite maps are inverses, and no set of names is empty. */
  ghost predicate Mirror(s: Store) {
    && (forall t :: t in s.rewrites ==> s.rewrites[t] != {})
    && (forall a, t :: a in s.inv && s.inv[a] == t ==> t in s.rewrites && a in s.rewrites[t])
    && (forall a, t :: t in s.rewrites && a in s.rewrites[t] ==> a in s.inv && s.inv[a] == t)
  }

  function NamesOf(s: Store, dev: string): set<string> {
    if Lower(dev) in s.rewrites then s.rewrites[Lower(dev)] else {}
  }

  /** The keys a put or delete touches. */
  function Touched(s: Store, dev: string, key: string): set<string> {
    {DbKey(dev, key)} + KeysFor(NamesOf(s, dev), key)
  }

  function KeysFor(names: set<string>, key: string): set<string> {
    set p | p in names :: DbKey(p, key)
  }

  lemma KeysForOneMore(names: set<string>, p: string, key: string)
    ensures KeysFor(names + {p}, key) == KeysFor(names, key) + {DbKey(p, key)}
  {
  }

  function AfterPut(s: Store, dev: string, key: string, value: Value, time: real): Store {
    s.(db := Fill(s.db, Touched(s, dev, key), (value, time)))
  }

  /** The map with one entry stored under all the given keys. */
  function Fill(db: map<string, (Value, real)>, keys: set<string>, entry: (Value, real)): map<string, (Value, real)> {
    map k | k in db.Keys + keys :: if k in keys then entry else db[k]
  }

  lemma FillOneMore(db: map<string, (Value, real)>, keys: set<string>, k: string, entry: (Value, real))
    ensures Fill(db, keys, entry)[k := entry] == Fill(db, keys + {k}, entry)
  {
  }

  lemma FillOneFirst(db: map<string, (Value, real)>, keys: set<string>, k: string, entry: (Value, real))
    ensures Fill(db[k := entry], keys, entry) == Fill(db, {k} + keys, entry)
  {
  }

  function AfterDelete(s: Store, dev: string, key: string): Store {
    s.(db := s.db - Touched(s, dev, key))
  }

  predicate ClearedKey(dev: string, exclude: set<string>, k: string) {
    Lower(dev + "/") <= k && LastPart(k) !in exclude
  }

  function AfterClear(s: Store, dev: string, exclude: set<string>): Store {
    s.(db := map k | k in s.db && !ClearedKey(dev, exclude, k) :: s.db[k])
  }

  function AfterClearRewrite(s: Store, to: string): Store
    requires Mirror(s)
  {
    if to !in s.inv then s
    else
      var from := s.inv[to];
      var rest := s.rewrites[from] - {to};
      s.(rewrites := if rest == {} then s.rewrites - {from} else s.rewrites[from := rest], inv := s.inv - {to})
  }

  function AfterSetRewrite(s: Store, to: string, from: string): Store
    requires Mirror(s)
  {
    var t, f, c := Lower(to), Lower(from), AfterClearRewrite(s, Lower(to));
    c.(inv := c.inv[t := f], rewrites := c.rewrites[f := (if f in c.rewrites then c.rewrites[f] else {}) + {t}])
  }

  function AfterUnsetRewrite(s: Store, to: string): Store
    requires Mirror(s)
  {
    AfterClearRewrite(s, Lower(to))
  }

  lemma ClearRewriteKeepsMirror(s: Store, to: string)
    requires Mirror(s)
    ensures Mirror(AfterClearRewrite(s, to))
    ensures AfterClearRewrite(s, to).inv == s.inv - {to} && AfterClearRewrite(s, to).db == s.db
  {
  }

  /** Rewriting and undoing it keep the two maps inverse to each other. */
  lemma SetRewriteKeepsMirror(s: Store, to: string, from: string)
    requires Mirror(s)
    ensures Mirror(AfterSetRewrite(s, to, from)) && Mirror(AfterUnsetRewrite(s, to))
    ensures AfterSetRewrite(s, to, from).inv == s.inv[Lower(to) := Lower(from)]
    ensures AfterSetRewrite(s, to, from).db == s.db
  {
    ClearRewriteKeepsMirror(s, Lower(to));
    var c, n := AfterClearRewrite(s, Lower(to)), AfterSetRewrite(s, to, from);
    assert n.inv == s.inv[Lower(to) := Lower(from)];
    forall a, t | a in n.inv && n.inv[a] == t ensures t in n.rewrites && a in n.rewrites[t] {
      if a != Lower(to) {
        assert a in c.inv && c.inv[a] == t;
      }
    }
    forall a, t | t in n.rewrites && a in n.rewrites[t] ensures a in n.inv && n.inv[a] == t {
      if t != Lower(from) {
        assert t in c.rewrites && a in c.rewrites[t];
      } else if a != Lower(to) {
        assert t in c.rewrites && a in c.rewrites[t];
      }
    }
  }

  // ---- Looking a value up ----

  /** The name reached from `d` after following `n` rewrites, as long as there are any. */
  ghost function Follow(inv: map<string, string>, d: string, n: nat): string
    decreases n
  {
    if n == 0 || d !in inv then d else Follow(inv, inv[d], n - 1)
  }

  /** Following the rewrites from `d` comes to an end. */
  ghost predicate Ends(inv: map<string, string>, d: string) {
    exists n: nat :: Follow(inv, d, n) !in inv
  }

  /** What following at most `n` rewrites finds. */
  ghost function Lookup(s: Store, dev: string, key: string, n: nat): Option<Value>
    decreases n
  {
    if DbKey(dev, key) in s.db then Some(s.db[DbKey(dev, key)].0)
    else if Lower(dev) in s.inv && n > 0 then Lookup(s, s.inv[Lower(dev)], key, n - 1)
    else None
  }

  /** What `get` finds: only a connected client follows rewrites. */
  ghost function Found(s: Store, connected: bool, dev: string, key: string, n: nat): Option<Value> {
    Lookup(s, dev, key, if connected then n else 0)
  }

  /** The `m`-th name on the way from `d` has the key. */
  ghost predicate HasAt(s: Store, d: string, key: string, m: nat) {
    DbKey(Follow(s.inv, d, m), key) in s.db
  }

  /** ... and is the first that has it. */
  ghost predicate FirstWith(s: Store, d: string, key: string, m: nat) {
    HasAt(s, d, key, m) && forall i: nat :: i < m ==> !HasAt(s, d, key, i)
  }

  ghost predicate LowerTargets(s: Store) {
    forall a :: a in s.inv ==> Lower(s.inv[a]) == s.inv[a]
  }

  lemma HasAtStep(s: Store, d: string, key: string, m: nat)
    ensures HasAt(s, d, key, 0) <==> DbKey(d, key) in s.db
    ensures d in s.inv ==> (HasAt(s, d, key, m + 1) <==> HasAt(s, s.inv[d], key, m))
    ensures d !in s.inv ==> (HasAt(s, d, key, m) <==> DbKey(d, key) in s.db)
  {
  }

  /** A look-up finds the value under the first name on the way that has the key. */
  lemma {:induction false} LookupFinds(s: Store, d: string, key: string, m: nat, n: nat)
    requires Lower(d) == d && LowerTargets(s) && m <= n && FirstWith(s, d, key, m)
    ensures HasAt(s, d, key, m) && Lookup(s, d, key, n) == Some(s.db[DbKey(Follow(s.inv, d, m), key)].0)
    decreases n
  {
    hide DbKey, Lower;
    assert Follow(s.inv, d, 0) == d;
    if m > 0 && d in s.inv {
      var next := s.inv[d];
      assert Follow(s.inv, d, m) == Follow(s.inv, next, m - 1);
      forall i: nat | i < m - 1 ensures !HasAt(s, next, key, i) {
        HasAtStep(s, d, key, i);
      }
      assert !HasAt(s, d, key, 0);
      LookupFinds(s, next, key, m - 1, n - 1);
    }
  }

  /** It finds nothing exactly if none of the names it comes to has the key. */
  lemma {:induction false} LookupFindsNothingIff(s: Store, d: string, key: string, n: nat)
    requires Lower(d) == d && LowerTargets(s)
    ensures Lookup(s, d, key, n).None? <==> forall m: nat :: m <= n ==> !HasAt(s, d, key, m)
    decreases n
  {
    hide DbKey, Lower, HasAt, Follow;
    HasAtStep(s, d, key, 0);
    if d in s.inv && n > 0 {
      var next := s.inv[d];
      LookupFindsNothingIff(s, next, key, n - 1);
      forall m: nat ensures HasAt(s, d, key, m + 1) <==> HasAt(s, next, key, m) {
        HasAtStep(s, d, key, m);
      }
      if m: nat :| m <= n - 1 && HasAt(s, next, key, m) {
        assert HasAt(s, d, key, m + 1);
      } else {
        forall m: nat | 0 < m <= n ensures !HasAt(s, d, key, m) {
          assert !HasAt(s, next, key, m - 1);
          HasAtStep(s, d, key, m - 1);
        }
      }
    } else {
      forall m: nat | m <= n ensures HasAt(s, d, key, m) <==> DbKey(d, key) in s.db {
        HasAtStep(s, d, key, m);
      }
      assert HasAt(s, d, key, 0) <==> DbKey(d, key) in s.db;
    }
  }

  // ---- The client ----

  datatype Msg =
    | Tell(time: real, ttl: Option<real>, key: string, flag: string, value: Value)
    | Erase(time: real, key: string)
    | Rewrite(to: string, from: string)
    | NoRewrite(to: string)

  function Erasures(keys: seq<string>, time: real): (r: seq<Msg>)
    ensures |r| == |keys|
  {
    seq(|keys|, i requires 0 <= i < |keys| => Erase(time, keys[i]))
  }

  class CacheClient {
    var db: map<string, (Value, real)>
    var rewrites: map<string, set<string>>
    var invRewrites: map<string, string>
    var queue: seq<Msg>
    var connected: bool

    constructor ()
      ensures State() == EMPTY && queue == [] && !connected
    {
      db, rewrites, invRewrites, queue, connected := map[], map[], map[], [], false;
    }

    function State(): Store
      reads this
    {
      Store(db, rewrites, invRewrites)
    }

    method Put(dev: string, key: string, value: Value, time: real, ttl: Option<real>, flag: string)
      modifies this`db, this`queue
      ensures ttl == Some(0.0) ==> State() == old(State()) && queue == old(queue)
      ensures ttl != Some(0.0) ==> State() == AfterPut(old(State()), dev, key, value, time)
      ensures ttl != Some(0.0) ==> queue == old(queue) + [Tell(time, ttl, DbKey(dev, key), flag, value)]
    {
      if ttl == Some(0.0) {
        return;
      }
      var names := NamesOf(State(), dev);
      db := db[DbKey(dev, key) := (value, time)];
      queue := queue + [Tell(time, ttl, DbKey(dev, key), flag, value)];
      FillOneFirst(old(db), KeysFor(names, key), DbKey(dev, key), (value, time));
      StoreFor(names, key, (value, time));
    }

    /** The loop over the other names of a device in `put`. */
    method StoreFor(names: set<string>, key: string, entry: (Value, real))
      modifies this`db
      ensures db == Fill(old(db), KeysFor(names, key), entry)
    {
      var todo := names;
      ghost var done: set<string> := {};
      assert KeysFor(done, key) == {};
      assert Fill(db, {}, entry) == db;
      hide Fill, KeysFor, DbKey;
      while todo != {}
        invariant todo !! done && todo + done == names
        invariant db == Fill(old(db), KeysFor(done, key), entry)
      {
        var p :| p in todo;
        KeysForOneMore(done, p, key);
        FillOneMore(old(db), KeysFor(done, key), DbKey(p, key), entry);
        db := db[DbKey(p, key) := entry];
        todo, done := todo - {p}, done + {p};
      }
      assert done == names;
    }

    method Delete(dev: string, key: string, time: real)
      modifies this`db, this`queue
      ensures State() == AfterDelete(old(State()), dev, key)
      ensures queue == old(queue) + [Erase(time, DbKey(dev, key))]
    {
      var names := NamesOf(State(), dev);
      db := db - {DbKey(dev, key)};
      queue := queue + [Erase(time, DbKey(dev, key))];
      EraseFor(names, key);
    }

    /** The loop over the other names of a device in `delete`. */
    method EraseFor(names: set<string>, key: string)
      modifies this`db
      ensures db == old(db) - KeysFor(names, key)
    {
      var todo := names;
      ghost var done: set<string> := {};
      while todo != {}
        invariant todo !! done && todo + done == names
        invariant db == old(db) - KeysFor(done, key)
      {
        var p :| p in todo;
        KeysForOneMore(done, p, key);
        db := db - {DbKey(p, key)};
        todo, done := todo - {p}, done + {p};
      }
      assert done == names;
    }

    /** Clears the subkeys of one device - but not those of its other names -
        and queues an erasure for each cleared key. */
    method Clear(dev: string, exclude: set<string>, time: real) returns (ghost erased: seq<string>)
      modifies this`db, this`queue
      ensures State() == AfterClear(old(State()), dev, exclude)
      ensures queue == old(queue) + Erasures(erased, time)
      ensures forall k :: k in erased <==> k in old(db) && ClearedKey(dev, exclude, k)
      ensures forall i, j :: 0 <= i < j < |erased| ==> erased[i] != erased[j]
    {
      var todo := db.Keys;
      ghost var done: set<string> := {};
      erased := [];
      while todo != {}
        invariant todo !! done && todo + done == old(db).Keys
        invariant db == map k | k in old(db) && !(k in done && ClearedKey(dev, exclude, k)) :: old(db)[k]
        invariant queue == old(queue) + Erasures(erased, time)
        invariant forall k :: k in erased <==> k in done && ClearedKey(dev, exclude, k)
        invariant forall i, j :: 0 <= i < j < |erased| ==> erased[i] != erased[j]
      {
        var k :| k in todo;
        if ClearedKey(dev, exclude, k) {
          db := db - {k};
          queue := queue + [Erase(time, k)];
          erased := erased + [k];
        }
        todo, done := todo - {k}, done + {k};
      }
    }

    method ClearRewrite(to: string) returns (existed: bool)
      requires Mirror(State())
      modifies this`rewrites, this`invRewrites
      ensures State() == AfterClearRewrite(old(State()), to)
      ensures existed <==> to in old(invRewrites)
    {
      existed := to in invRewrites;
      if existed {
        var from := invRewrites[to];
        rewrites := rewrites[from := rewrites[from] - {to}];
        if rewrites[from] == {} {
          assert rewrites - {from} == old(rewrites) - {from};
          rewrites := rewrites - {from};
        }
        invRewrites := invRewrites - {to};
      }
    }

    method SetRewrite(to0: string, from0: string)
      requires Mirror(State())
      modifies this`rewrites, this`invRewrites, this`queue
      ensures State() == AfterSetRewrite(old(State()), to0, from0) && Mirror(State())
      ensures queue == old(queue) + [Rewrite(Lower(to0), Lower(from0))]
    {
      SetRewriteKeepsMirror(State(), to0, from0);
      var from, to := Lower(from0), Lower(to0);
      queue := queue + [Rewrite(to, from)];
      var _ := ClearRewrite(to);
      invRewrites := invRewrites[to := from];
      var names := if from in rewrites then rewrites[from] else {};
      rewrites := rewrites[from := names + {to}];
    }

    method UnsetRewrite(to0: string)
      requires Mirror(State())
      modifies this`rewrites, this`invRewrites, this`queue
      ensures State() == AfterUnsetRewrite(old(State()), to0) && Mirror(State())
      ensures queue == old(queue) + if Lower(to0) in old(invRewrites) then [NoRewrite(Lower(to0))] else []
    {
      SetRewriteKeepsMirror(State(), to0, "");
      var to := Lower(to0);
      var existed := ClearRewrite(to);
      if existed {
        queue := queue + [NoRewrite(to)];
      }
    }

    /** `get` without a minimum time.  It returns whenever following the rewrites
        of the device ends; `n` witnesses that it does. */
    method Get(dev: string, key: string, ghost n: nat) returns (value: Option<Value>)
      requires Follow(invRewrites, Lower(dev), n) !in invRewrites
      requires forall a :: a in invRewrites ==> Lower(invRewrites[a]) == invRewrites[a]
      ensures value == Found(State(), connected, dev, key, n)
      decreases n
    {
      var dbkey := DbKey(dev, key);
      if dbkey !in db {
        if connected && Lower(dev) in invRewrites {
          value := Get(invRewrites[Lower(dev)], key, n - 1);
          return;
        }
        return None;
      }
      value := Some(db[dbkey].0);
    }
  }
}
