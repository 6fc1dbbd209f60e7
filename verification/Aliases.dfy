/** Device aliases: names that see the cached keys of another device. */
module Aliases {
  import opened Options
  import opened CacheKeys
  import opened CacheStore

  // The parameters an alias keeps for itself.
  const OWN_PARAMS := {"alias", "name", "devclass", "visibility"}

  predicate Own(key: string) {
    LastPart(Lower(key)) in OWN_PARAMS
  }

  // ---- Chains of rewrites ----

  lemma {:induction false} FollowAdds(inv: map<string, string>, d: string, m: nat, n: nat)
    ensures Follow(inv, d, m + n) == Follow(inv, Follow(inv, d, m), n)
    decreases m
  {
    if m > 0 && d in inv {
      FollowAdds(inv, inv[d], m - 1, n);
    } else if d !in inv {
      assert Follow(inv, d, n) == d;
    }
  }

  ghost predicate Reaches(inv: map<string, string>, d: string, e: string) {
    exists n: nat :: Follow(inv, d, n) == e
  }

  ghost predicate AllEnd(inv: map<string, string>) {
    forall d :: Ends(inv, d)
  }

  /** Pointing `a` to `t` keeps every chain of rewrites finite exactly if the
      chain from `t` does not lead back to `a`. */
  lemma StillEndsIff(inv: map<string, string>, a: string, t: string)
    requires AllEnd(inv)
    ensures AllEnd(inv[a := t]) <==> !Reaches(inv, t, a)
  {
    var inv' := inv[a := t];
    if !Reaches(inv, t, a) {
      forall d ensures Ends(inv', d) {
        assert Ends(inv, d);
        var n: nat :| Follow(inv, d, n) !in inv;
        StaysFinite(inv, a, t, d, n);
      }
    } else {
      var n: nat :| Follow(inv, t, n) == a;
      var p := LeadsBack(inv, a, t, n);
      if AllEnd(inv') {
        assert Ends(inv', a);
        var m: nat :| Follow(inv', a, m) !in inv';
        NeverEnds(inv', a, p, m);
      }
    }
  }

  lemma {:induction false} SameChain(inv: map<string, string>, a: string, t: string, d: string, n: nat)
    requires forall k: nat :: k <= n ==> Follow(inv, d, k) != a
    ensures Follow(inv[a := t], d, n) == Follow(inv, d, n)
    decreases n
  {
    assert Follow(inv, d, 0) == d;
    if n > 0 && d in inv {
      forall k: nat | k <= n - 1 ensures Follow(inv, inv[d], k) != a {
        assert Follow(inv, d, k + 1) == Follow(inv, inv[d], k);
      }
      SameChain(inv, a, t, inv[d], n - 1);
    }
  }

  lemma {:induction false} StaysFinite(inv: map<string, string>, a: string, t: string, d: string, n: nat)
    requires AllEnd(inv) && !Reaches(inv, t, a)
    requires Follow(inv, d, n) !in inv
    ensures Ends(inv[a := t], d)
    decreases n
  {
    var inv' := inv[a := t];
    if d == a {
      assert Ends(inv, t);
      var m: nat :| Follow(inv, t, m) !in inv;
      SameChain(inv, a, t, t, m);
      assert Follow(inv, t, m) != a;
      assert Follow(inv', a, m + 1) == Follow(inv', t, m);
    } else if d in inv && n > 0 {
      StaysFinite(inv, a, t, inv[d], n - 1);
      var m: nat :| Follow(inv', inv[d], m) !in inv';
      assert Follow(inv', d, m + 1) == Follow(inv', inv'[d], m);
    } else {
      assert Follow(inv', d, 0) == d;
    }
  }

  lemma {:induction false} LeadsBack(inv: map<string, string>, a: string, t: string, n: nat) returns (p: nat)
    requires Follow(inv, t, n) == a
    ensures Returns(inv[a := t], a, p)
    decreases n
  {
    if k: nat :| k < n && Follow(inv, t, k) == a {
      p := LeadsBack(inv, a, t, k);
    } else {
      var inv' := inv[a := t];
      assert Follow(inv', t, n) == a by {
        if n > 0 {
          SameChain(inv, a, t, t, n - 1);
          FollowAdds(inv, t, n - 1, 1);
          FollowAdds(inv', t, n - 1, 1);
        }
      }
      assert Follow(inv', a, n + 1) == Follow(inv', t, n);
      p := n + 1;
    }
  }

  ghost predicate Returns(inv: map<string, string>, a: string, p: nat) {
    p > 0 && Follow(inv, a, p) == a
  }

  lemma {:induction false} NeverEnds(inv: map<string, string>, a: string, p: nat, m: nat)
    requires a in inv && Returns(inv, a, p)
    ensures Follow(inv, a, m) in inv
    decreases m
  {
    if m >= p {
      FollowAdds(inv, a, p, m - p);
      NeverEnds(inv, a, p, m - p);
    } else {
      FollowAdds(inv, a, m, p - m);
    }
  }

  // ---- Runs ----

  /** What happens to the cache: real devices put and delete values, and are
      cleared; an alias is pointed to a device or to nothing, and is then cleared; the alias copies a
      parameter of its device that is in the cache. */
  datatype Op =
    | Put(dev: string, key: string, value: Value, time: real, ttl: Option<real>)
    | Delete(dev: string, key: string)
    | Clear(dev: string, exclude: set<string>)
    | Point(alias: string, target: string)
    | Unpoint(alias: string)
    | Copy(alias: string, key: string, time: real)

  ghost function Apply(s: Store, op: Op): Store
    requires Mirror(s)
  {
    match op
    case Put(dev, key, value, time, ttl) => if ttl == Some(0.0) then s else AfterPut(s, dev, key, value, time)
    case Delete(dev, key) => AfterDelete(s, dev, key)
    case Clear(dev, exclude) => AfterClear(s, dev, exclude)
    case Point(alias, target) => AfterClear(AfterSetRewrite(s, alias, target), alias, OWN_PARAMS)
    case Unpoint(alias) => AfterClear(AfterUnsetRewrite(s, alias), alias, OWN_PARAMS)
    case Copy(alias, key, time) =>
      if Lower(alias) in s.inv && DbKey(s.inv[Lower(alias)], key) in s.db
      then AfterPut(s, alias, key, s.db[DbKey(s.inv[Lower(alias)], key)].0, time) else s
  }

  /** No alias of the device holds a copy of a key that clearing the device removes. */
  ghost predicate NoCopies(s: Store, dev: string, exclude: set<string>) {
    forall a, k :: NoCopy(s, dev, exclude, a, k)
  }

  ghost predicate NoCopy(s: Store, dev: string, exclude: set<string>, a: string, k: string) {
    a in s.inv && s.inv[a] == Lower(dev) && !Own(k) && DbKey(a, k) in s.db ==> LastPart(Lower(k)) in exclude
  }

  /** `devs` holds the lower-case names of the real devices; every other name may
      be an alias.  A real device is cleared when no alias holds copies of its keys.
      Copies are made by aliases of real devices that no other
      alias points to. */
  ghost predicate Allowed(s: Store, devs: set<string>, op: Op) {
    match op
    case Put(dev, key, _, _, _) => NoSlash(dev) && Lower(dev) in devs
    case Delete(dev, key) => NoSlash(dev) && Lower(dev) in devs
    case Clear(dev, exclude) => NoSlash(dev) && Lower(dev) in devs && NoCopies(s, dev, exclude)
    case Point(alias, target) =>
      && NoSlash(alias) && NoSlash(target) && Lower(alias) !in devs
      && !Reaches(s.inv, Lower(target), Lower(alias))
    case Unpoint(alias) => NoSlash(alias) && Lower(alias) !in devs
    case Copy(alias, key, _) =>
      && NoSlash(alias) && Lower(alias) !in devs && !Own(key)
      && (Lower(alias) in s.inv ==> s.inv[Lower(alias)] in devs)
      && Lower(alias) !in s.rewrites
  }

  ghost predicate CleanName(s: string) {
    NoSlash(s) && Lower(s) == s
  }

  ghost predicate Names(s: Store, devs: set<string>) {
    && (forall a :: a in s.inv ==> CleanName(a) && a !in devs && CleanName(s.inv[a]))
    && (forall d :: d in devs ==> CleanName(d))
  }

  /** A stored key of an alias, other than its own parameters, is a copy of the
      same key of the real device it points to. */
  ghost predicate Fresh(s: Store, devs: set<string>, a: string, k: string) {
    a in s.inv && !Own(k) && DbKey(a, k) in s.db ==>
      && s.inv[a] in devs
      && DbKey(s.inv[a], k) in s.db
      && s.db[DbKey(s.inv[a], k)].0 == s.db[DbKey(a, k)].0
  }

  ghost predicate Inv(s: Store, devs: set<string>) {
    && Mirror(s) && Names(s, devs) && AllEnd(s.inv)
    && forall a, k :: Fresh(s, devs, a, k)
  }

  /** An alias finds what its target finds, except for its own parameters. */
  lemma Transparent(s: Store, devs: set<string>, alias: string, key: string, n: nat)
    requires Inv(s, devs)
    requires Lower(alias) in s.inv && !Own(key) && n > 0
    ensures Lookup(s, alias, key, n) == Lookup(s, s.inv[Lower(alias)], key, n - 1)
  {
    assert Fresh(s, devs, Lower(alias), key);
    DbKeyParts(alias, key);
    DbKeyParts(Lower(alias), key);
  }

  /** A client that is not connected looks under the given name only. */
  lemma LocallyTransparentIff(s: Store, devs: set<string>, alias: string, key: string)
    requires Inv(s, devs)
    requires Lower(alias) in s.inv && !Own(key)
    ensures
      var target := s.inv[Lower(alias)];
      Found(s, false, alias, key, 0) == Found(s, false, target, key, 0) <==>
      (DbKey(target, key) in s.db ==> DbKey(alias, key) in s.db)
  {
    assert Fresh(s, devs, Lower(alias), key);
    DbKeyParts(alias, key);
    DbKeyParts(Lower(alias), key);
    LowerTwice(alias);
  }

  lemma StepKeepsInv(s: Store, devs: set<string>, op: Op)
    requires Inv(s, devs) && Allowed(s, devs, op)
    ensures Inv(Apply(s, op), devs)
  {
    match op
    case Put(dev, key, value, time, ttl) =>
      if ttl != Some(0.0) {
        PutKeepsInv(s, devs, dev, key, value, time);
      }
    case Delete(dev, key) => DeleteKeepsInv(s, devs, dev, key);
    case Clear(dev, exclude) => ClearKeepsInvIff(s, devs, dev, exclude);
    case Point(alias, target) => PointKeepsInv(s, devs, alias, target);
    case Unpoint(alias) => UnpointKeepsInv(s, devs, alias);
    case Copy(alias, key, time) => CopyKeepsInv(s, devs, alias, key, time);
  }

  /** Which keys a put or delete of a real device touches. */
  lemma TouchedKeys(s: Store, devs: set<string>, dev: string, key: string, d: string, k: string)
    requires Mirror(s) && Names(s, devs)
    requires NoSlash(dev) && Lower(dev) in devs && CleanName(d)
    ensures DbKey(d, k) in Touched(s, dev, key) <==>
      Lower(k) == Lower(key) && (d == Lower(dev) || (d in s.inv && s.inv[d] == Lower(dev)))
  {
    DbKeyInjective(d, k, dev, key);
    if DbKey(d, k) in KeysFor(NamesOf(s, dev), key) {
      var p :| p in NamesOf(s, dev) && DbKey(p, key) == DbKey(d, k);
      assert p in s.inv && CleanName(p);
      DbKeyInjective(d, k, p, key);
    }
    if d in s.inv && s.inv[d] == Lower(dev) {
      assert d in NamesOf(s, dev);
      DbKeyInjective(d, k, d, key);
    }
  }

  ghost function EntryOf(s: Store, key: string): Option<(Value, real)> {
    if key in s.db then Some(s.db[key]) else None
  }

  /** The real device and the names that see its keys. */
  ghost predicate Sees(s: Store, dev: string, a: string) {
    a == Lower(dev) || (a in s.inv && s.inv[a] == Lower(dev))
  }

  /** A value that was put is found under the device and its aliases, and a deleted
      one is not found there; everything else stays. */
  lemma PutAndDeleteAreSeen(
    s: Store, devs: set<string>, dev: string, key: string, value: Value, time: real,
    connected: bool, a: string, k: string, n: nat)
    requires Inv(s, devs) && NoSlash(dev) && Lower(dev) in devs && CleanName(a)
    ensures
      var put, deleted := AfterPut(s, dev, key, value, time), AfterDelete(s, dev, key);
      if Sees(s, dev, a) && Lower(k) == Lower(key) then
        Found(put, connected, a, k, n) == Some(value) && Found(deleted, connected, a, k, n) == None
      else
        EntryOf(put, DbKey(a, k)) == EntryOf(s, DbKey(a, k)) == EntryOf(deleted, DbKey(a, k))
  {
    TouchedKeys(s, devs, dev, key, a, k);
    TouchedKeys(s, devs, dev, key, Lower(dev), k);
    LowerTwice(dev);
    assert CleanName(Lower(dev)) && Lower(dev) !in s.inv;
    var deleted := AfterDelete(s, dev, key);
    forall m: nat | Lower(k) == Lower(key) ensures Lookup(deleted, Lower(dev), k, m) == None {
      assert DbKey(Lower(dev), k) !in deleted.db;
    }
    if Sees(s, dev, a) && Lower(k) == Lower(key) && a != Lower(dev) && connected && n > 0 {
      assert DbKey(a, k) !in deleted.db && Lower(a) == a;
      assert Lookup(deleted, a, k, n) == Lookup(deleted, Lower(dev), k, n - 1);
    }
  }

  lemma PutKeepsInv(s: Store, devs: set<string>, dev: string, key: string, value: Value, time: real)
    requires Inv(s, devs) && NoSlash(dev) && Lower(dev) in devs
    ensures Inv(AfterPut(s, dev, key, value, time), devs)
  {
    var n := AfterPut(s, dev, key, value, time);
    forall a, k ensures Fresh(n, devs, a, k) {
      assert Fresh(s, devs, a, k);
      if a in s.inv {
        TouchedKeys(s, devs, dev, key, a, k);
        TouchedKeys(s, devs, dev, key, s.inv[a], k);
      }
    }
  }

  lemma DeleteKeepsInv(s: Store, devs: set<string>, dev: string, key: string)
    requires Inv(s, devs) && NoSlash(dev) && Lower(dev) in devs
    ensures Inv(AfterDelete(s, dev, key), devs)
  {
    var n := AfterDelete(s, dev, key);
    forall a, k ensures Fresh(n, devs, a, k) {
      assert Fresh(s, devs, a, k);
      if a in s.inv {
        TouchedKeys(s, devs, dev, key, a, k);
        TouchedKeys(s, devs, dev, key, s.inv[a], k);
      }
    }
  }

  /** Clearing an alias removes exactly its keys that are not its own parameters. */
  lemma ClearedKeys(alias: string, d: string, k: string)
    requires NoSlash(alias) && CleanName(d)
    ensures ClearedKey(alias, OWN_PARAMS, DbKey(d, k)) <==> d == Lower(alias) && !Own(k)
  {
    PrefixIsDevice(alias, d, k);
    LastPartOfDbKey(d, k);
  }

  lemma PointKeepsInv(s: Store, devs: set<string>, alias: string, target: string)
    requires Inv(s, devs) && Allowed(s, devs, Point(alias, target))
    ensures Inv(Apply(s, Point(alias, target)), devs)
  {
    SetRewriteKeepsMirror(s, alias, target);
    StillEndsIff(s.inv, Lower(alias), Lower(target));
    LowerTwice(alias);
    LowerTwice(target);
    var n := Apply(s, Point(alias, target));
    forall a, k ensures Fresh(n, devs, a, k) {
      assert Fresh(s, devs, a, k);
      if a in n.inv {
        ClearedKeys(alias, a, k);
        ClearedKeys(alias, n.inv[a], k);
      }
    }
  }

  lemma {:induction false} FewerEnd(inv: map<string, string>, a: string, d: string, n: nat)
    requires Follow(inv, d, n) !in inv
    ensures Ends(inv - {a}, d)
    decreases n
  {
    var inv' := inv - {a};
    if d in inv' && n > 0 {
      FewerEnd(inv, a, inv[d], n - 1);
      var m: nat :| Follow(inv', inv[d], m) !in inv';
      assert Follow(inv', d, m + 1) == Follow(inv', inv'[d], m);
    } else {
      assert Follow(inv', d, 0) == d;
    }
  }

  lemma UnpointKeepsInv(s: Store, devs: set<string>, alias: string)
    requires Inv(s, devs) && Allowed(s, devs, Unpoint(alias))
    ensures Inv(Apply(s, Unpoint(alias)), devs)
  {
    ClearRewriteKeepsMirror(s, Lower(alias));
    var n := Apply(s, Unpoint(alias));
    forall d ensures Ends(n.inv, d) {
      assert Ends(s.inv, d);
      var m: nat :| Follow(s.inv, d, m) !in s.inv;
      FewerEnd(s.inv, Lower(alias), d, m);
    }
    forall a, k ensures Fresh(n, devs, a, k) {
      assert Fresh(s, devs, a, k);
      if a in n.inv {
        ClearedKeys(alias, a, k);
        ClearedKeys(alias, n.inv[a], k);
      }
    }
  }

  lemma CopyKeepsInv(s: Store, devs: set<string>, alias: string, key: string, time: real)
    requires Inv(s, devs) && Allowed(s, devs, Copy(alias, key, time))
    ensures Inv(Apply(s, Copy(alias, key, time)), devs)
  {
    var low := Lower(alias);
    if low in s.inv && DbKey(s.inv[low], key) in s.db {
      CopyKeepsInvIff(s, devs, alias, key, s.db[DbKey(s.inv[low], key)].0, time);
    }
  }

  // ---- Whole runs ----

  ghost predicate Possible(s: Store, devs: set<string>, ops: seq<Op>)
    decreases ops
  {
    ops != [] ==> Mirror(s) && Allowed(s, devs, ops[0]) && Possible(Apply(s, ops[0]), devs, ops[1..])
  }

  ghost function Run(s: Store, devs: set<string>, ops: seq<Op>): Store
    requires Possible(s, devs, ops)
    decreases ops
  {
    if ops == [] then s else Run(Apply(s, ops[0]), devs, ops[1..])
  }

  lemma {:induction false} RunKeepsInv(s: Store, devs: set<string>, ops: seq<Op>)
    requires Inv(s, devs) && Possible(s, devs, ops)
    ensures Inv(Run(s, devs, ops), devs)
    decreases ops
  {
    if ops != [] {
      StepKeepsInv(s, devs, ops[0]);
      RunKeepsInv(Apply(s, ops[0]), devs, ops[1..]);
    }
  }

  /** After any run, an alias that points somewhere finds what its target finds:
      always while the client is connected, and without a connection exactly for
      the keys that are copied, or that the target does not have.  The rewrite maps
      are inverses, and every look-up comes to an end. */
  lemma AliasesAreTransparent(devs: set<string>, ops: seq<Op>, connected: bool, alias: string, key: string, n: nat)
    requires forall d :: d in devs ==> CleanName(d)
    requires Possible(EMPTY, devs, ops)
    requires !Own(key) && n > 0
    ensures
      var s := Run(EMPTY, devs, ops);
      && Mirror(s) && AllEnd(s.inv)
      && (Lower(alias) in s.inv ==>
            var target := s.inv[Lower(alias)];
            Found(s, connected, alias, key, n) == Found(s, connected, target, key, n - 1) <==>
            connected || (DbKey(target, key) in s.db ==> DbKey(alias, key) in s.db))
  {
    forall d ensures Ends(EMPTY.inv, d) {
      assert Follow(EMPTY.inv, d, 0) == d;
    }
    RunKeepsInv(EMPTY, devs, ops);
    var s := Run(EMPTY, devs, ops);
    if Lower(alias) in s.inv {
      Transparent(s, devs, alias, key, n);
      LocallyTransparentIff(s, devs, alias, key);
    }
  }

  // ---- DeviceAlias ----

  /** The value of the target that is copied: the cached one, or else the one the
      target object holds; None if the parameter cannot be read. */
  ghost function CopiedValue(
    s: Store, connected: bool, target: string, p: string, local: map<string, Value>, n: nat): Option<Value>
  {
    var cached := Found(s, connected, target, p, n);
    if cached.Some? then cached else if p in local then Some(local[p]) else None
  }

  /** Copying one parameter; one that cannot be read is skipped. */
  ghost function CopyParam(
    s: Store, connected: bool, alias: string, target: string, p: string,
    local: map<string, Value>, now: real, n: nat): Store
  {
    var v := CopiedValue(s, connected, target, p, local, n);
    if p in OWN_PARAMS || v.None? then s else AfterPut(s, alias, p, v.value, now)
  }

  ghost function CopyParams(
    s: Store, connected: bool, alias: string, target: string, params: seq<string>,
    local: map<string, Value>, now: real, n: nat): Store
    decreases params
  {
    if params == [] then s
    else
      var k := |params| - 1;
      var before := CopyParams(s, connected, alias, target, params[..k], local, now, n);
      CopyParam(before, connected, alias, target, params[k], local, now, n)
  }

  /** The message for one copied parameter. */
  function TellOf(alias: string, p: string, v: Option<Value>, now: real): seq<Msg> {
    if p in OWN_PARAMS || v.None? then [] else [Tell(now, None, DbKey(alias, p), "", v.value)]
  }

  /** The messages of copying, each with the value read at its turn. */
  ghost function CopyMsgs(
    s: Store, connected: bool, alias: string, target: string, params: seq<string>,
    local: map<string, Value>, now: real, n: nat): seq<Msg>
    decreases params
  {
    if params == [] then []
    else
      var k := |params| - 1;
      var before := CopyParams(s, connected, alias, target, params[..k], local, now, n);
      CopyMsgs(s, connected, alias, target, params[..k], local, now, n)
      + TellOf(alias, params[k], CopiedValue(before, connected, target, params[k], local, n), now)
  }

  /** The messages of copying, each with the value before anything was copied. */
  ghost function Tells(
    s: Store, connected: bool, alias: string, target: string, params: seq<string>,
    local: map<string, Value>, now: real, n: nat): seq<Msg>
    decreases params
  {
    if params == [] then []
    else
      var k := |params| - 1;
      Tells(s, connected, alias, target, params[..k], local, now, n)
      + TellOf(alias, params[k], CopiedValue(s, connected, target, params[k], local, n), now)
  }

  /** The messages of `_reinitParams`; `erased` are the keys cleared first. */
  ghost function ReinitMsgs(
    s: Store, connected: bool, alias: string, obj: Option<string>, master: bool, params: seq<string>,
    local: map<string, Value>, now: real, n: nat, erased: seq<string>): seq<Msg>
  {
    if !master then []
    else
      var c := AfterClear(s, alias, OWN_PARAMS);
      Erasures(erased, now)
      + if obj.None? then [] else CopyMsgs(c, connected, alias, obj.value, params, local, now, n)
  }

  /** The cache after `_reinitParams` of an alias that points to `obj`. */
  ghost function Reinit(
    s: Store, connected: bool, alias: string, obj: Option<string>, master: bool, params: seq<string>,
    local: map<string, Value>, now: real, n: nat): Store
  {
    if !master then s
    else
      var c := AfterClear(s, alias, OWN_PARAMS);
      if obj.None? then c else CopyParams(c, connected, alias, obj.value, params, local, now, n)
  }

  // ---- What is copied ----

  ghost predicate ErasedBy(s: Store, alias: string, master: bool, erased: seq<string>) {
    && (forall k :: k in erased <==> master && k in s.db && ClearedKey(alias, OWN_PARAMS, k))
    && (forall i, j :: 0 <= i < j < |erased| ==> erased[i] != erased[j])
  }

  /** The alias does not see itself through its target, and all names are clean. */
  ghost predicate CopyOk(s: Store, alias: string, obj: Option<string>, params: seq<string>) {
    && Mirror(s) && NoSlash(alias)
    && (forall a :: a in s.inv ==> CleanName(a) && CleanName(s.inv[a]))
    && (forall k :: 0 <= k < |params| ==> CleanName(params[k]))
    && (obj.Some? ==> NoSlash(obj.value) && !Reaches(s.inv, Lower(obj.value), Lower(alias)))
  }

  /** Neither the alias `a` nor a name that sees its keys. */
  ghost predicate Other(s: Store, a: string, d: string) {
    CleanName(d) && d != a && !(d in s.inv && s.inv[d] == a)
  }

  /** Other names keep all their keys, and the rewrites stay. */
  ghost predicate SameElsewhere(s: Store, t: Store, a: string) {
    && t.inv == s.inv && t.rewrites == s.rewrites
    && forall d, k :: Other(s, a, d) ==> EntryOf(t, DbKey(d, k)) == EntryOf(s, DbKey(d, k))
  }

  /** `after` differs from `s` by the parameters of the alias: its own ones stay,
      each listed one is what the target had, and all the rest is gone. */
  ghost predicate CopiedFrom(
    s: Store, after: Store, connected: bool, alias: string, obj: Option<string>, params: seq<string>,
    local: map<string, Value>, n: nat)
  {
    && SameElsewhere(s, after, Lower(alias))
    && (forall k :: Own(k) ==> Found(after, false, alias, k, 0) == Found(s, false, alias, k, 0))
    && forall p :: CleanName(p) && !Own(p) ==>
         Found(after, false, alias, p, 0) ==
           if obj.Some? && p in params then CopiedValue(s, connected, obj.value, p, local, n) else None
  }

  /** A look-up that does not come across `a` sees none of its keys. */
  lemma {:induction false} SameLookup(s: Store, t: Store, a: string, d: string, k: string, n: nat)
    requires Mirror(s) && SameElsewhere(s, t, a) && NoSlash(d) && !Reaches(s.inv, Lower(d), a)
    requires forall b :: b in s.inv ==> CleanName(b) && CleanName(s.inv[b])
    ensures Lookup(t, d, k, n) == Lookup(s, d, k, n)
    decreases n
  {
    var low := Lower(d);
    LowerTwice(d);
    DbKeyParts(d, k);
    DbKeyParts(low, k);
    assert Follow(s.inv, low, 0) == low;
    if low in s.inv {
      assert Follow(s.inv, low, 1) == Follow(s.inv, s.inv[low], 0) == s.inv[low];
    }
    assert Other(s, a, low);
    assert EntryOf(t, DbKey(low, k)) == EntryOf(s, DbKey(low, k));
    if low in s.inv && n > 0 {
      var next := s.inv[low];
      forall m: nat ensures Follow(s.inv, next, m) != a {
        assert Follow(s.inv, low, m + 1) == Follow(s.inv, next, m);
      }
      SameLookup(s, t, a, next, k, n - 1);
    }
  }

  lemma SameCopiedValue(
    s: Store, t: Store, connected: bool, alias: string, target: string, params: seq<string>, p: string,
    local: map<string, Value>, n: nat)
    requires CopyOk(s, alias, Some(target), params) && SameElsewhere(s, t, Lower(alias))
    ensures CopiedValue(t, connected, target, p, local, n) == CopiedValue(s, connected, target, p, local, n)
  {
    SameLookup(s, t, Lower(alias), target, p, if connected then n else 0);
  }

  /** What storing under an alias changes. */
  lemma PutUnderAlias(s: Store, alias: string, p: string, v: Value, now: real)
    requires Mirror(s) && NoSlash(alias) && forall a :: a in s.inv ==> CleanName(a) && CleanName(s.inv[a])
    ensures
      var t := AfterPut(s, alias, p, v, now);
      && SameElsewhere(s, t, Lower(alias))
      && forall k :: Found(t, false, alias, k, 0) ==
           if Lower(k) == Lower(p) then Some(v) else Found(s, false, alias, k, 0)
  {
    var t := AfterPut(s, alias, p, v, now);
    forall d, k | Other(s, Lower(alias), d) ensures EntryOf(t, DbKey(d, k)) == EntryOf(s, DbKey(d, k)) {
      NotTouched(s, alias, p, d, k);
    }
    forall k ensures DbKey(alias, k) in Touched(s, alias, p) <==> Lower(k) == Lower(p) {
      TouchedOfAlias(s, alias, p, k);
    }
  }

  lemma NotTouched(s: Store, alias: string, p: string, d: string, k: string)
    requires Mirror(s) && NoSlash(alias) && Other(s, Lower(alias), d)
    requires forall a :: a in s.inv ==> CleanName(a) && CleanName(s.inv[a])
    ensures DbKey(d, k) !in Touched(s, alias, p)
  {
    DbKeyInjective(d, k, alias, p);
    if DbKey(d, k) in KeysFor(NamesOf(s, alias), p) {
      var b :| b in NamesOf(s, alias) && DbKey(b, p) == DbKey(d, k);
      assert b in s.inv && s.inv[b] == Lower(alias) && CleanName(b);
      DbKeyInjective(d, k, b, p);
    }
  }

  lemma TouchedOfAlias(s: Store, alias: string, p: string, k: string)
    requires Mirror(s) && NoSlash(alias) && forall a :: a in s.inv ==> CleanName(a) && CleanName(s.inv[a])
    ensures DbKey(alias, k) in Touched(s, alias, p) <==> Lower(k) == Lower(p)
  {
    DbKeyInjective(alias, k, alias, p);
    if DbKey(alias, k) in KeysFor(NamesOf(s, alias), p) {
      var b :| b in NamesOf(s, alias) && DbKey(b, p) == DbKey(alias, k);
      assert b in s.inv && CleanName(b);
      DbKeyInjective(alias, k, b, p);
    }
  }

  lemma ClearUnderAlias(s: Store, alias: string)
    requires NoSlash(alias)
    ensures
      var c := AfterClear(s, alias, OWN_PARAMS);
      && SameElsewhere(s, c, Lower(alias))
      && forall k :: Found(c, false, alias, k, 0) == if Own(k) then Found(s, false, alias, k, 0) else None
  {
    var c := AfterClear(s, alias, OWN_PARAMS);
    forall d, k | Other(s, Lower(alias), d) ensures EntryOf(c, DbKey(d, k)) == EntryOf(s, DbKey(d, k)) {
      ClearedKeys(alias, d, k);
    }
    forall k ensures ClearedKey(alias, OWN_PARAMS, DbKey(alias, k)) <==> !Own(k) {
      LowerTwice(alias);
      DbKeyParts(alias, k);
      DbKeyParts(Lower(alias), k);
      ClearedKeys(alias, Lower(alias), k);
    }
  }

  lemma SameTwice(s: Store, t: Store, u: Store, a: string)
    requires SameElsewhere(s, t, a) && SameElsewhere(t, u, a)
    ensures SameElsewhere(s, u, a)
  {
    hide EntryOf;
    forall d, k | Other(s, a, d) ensures EntryOf(u, DbKey(d, k)) == EntryOf(s, DbKey(d, k)) {
      assert Other(t, a, d);
    }
  }

  /** After the parameters `done` were copied to `r`, what is stored as `k` of the alias. */
  ghost predicate CopiedAt(
    s: Store, r: Store, connected: bool, alias: string, target: string, done: seq<string>,
    local: map<string, Value>, n: nat, k: string)
  {
    var v := CopiedValue(s, connected, target, Lower(k), local, n);
    Found(r, false, alias, k, 0) ==
      if Lower(k) in done && Lower(k) !in OWN_PARAMS && v.Some? then v else Found(s, false, alias, k, 0)
  }

  lemma CopyOnce(
    s: Store, before: Store, connected: bool, alias: string, target: string, done: seq<string>, p: string,
    local: map<string, Value>, now: real, n: nat)
    requires CopyOk(s, alias, Some(target), done + [p]) && SameElsewhere(s, before, Lower(alias))
    requires forall k :: CopiedAt(s, before, connected, alias, target, done, local, n, k)
    ensures CopiedValue(before, connected, target, p, local, n) == CopiedValue(s, connected, target, p, local, n)
    ensures
      var r := CopyParam(before, connected, alias, target, p, local, now, n);
      && SameElsewhere(s, r, Lower(alias))
      && forall k :: CopiedAt(s, r, connected, alias, target, done + [p], local, n, k)
  {
    hide CopiedValue, Found, AfterPut, SameElsewhere;
    SameCopiedValue(s, before, connected, alias, target, done + [p], p, local, n);
    var v, r := CopiedValue(s, connected, target, p, local, n),
      CopyParam(before, connected, alias, target, p, local, now, n);
    assert CleanName((done + [p])[|done|]);
    if p !in OWN_PARAMS && v.Some? {
      SameRewrites(s, before, Lower(alias));
      PutUnderAlias(before, alias, p, v.value, now);
      SameTwice(s, before, r, Lower(alias));
    }
    forall k ensures CopiedAt(s, r, connected, alias, target, done + [p], local, n, k) {
      assert CopiedAt(s, before, connected, alias, target, done, local, n, k);
    }
  }

  lemma SameRewrites(s: Store, t: Store, a: string)
    requires Mirror(s) && SameElsewhere(s, t, a)
    ensures Mirror(t) && t.inv == s.inv
  {
  }

  /** Copying one parameter after another: every value is the one the target had
      before anything was copied. */
  lemma {:induction false} CopiesAre(
    s: Store, connected: bool, alias: string, target: string, params: seq<string>,
    local: map<string, Value>, now: real, n: nat)
    requires CopyOk(s, alias, Some(target), params)
    ensures
      var r := CopyParams(s, connected, alias, target, params, local, now, n);
      && SameElsewhere(s, r, Lower(alias))
      && forall k :: CopiedAt(s, r, connected, alias, target, params, local, n, k)
    ensures CopyMsgs(s, connected, alias, target, params, local, now, n) ==
            Tells(s, connected, alias, target, params, local, now, n)
    decreases params
  {
    hide CopiedValue, Found, CopyParam;
    if params != [] {
      hide CopiedAt, SameElsewhere;
      var k := |params| - 1;
      FewerOk(s, alias, target, params);
      CopiesAre(s, connected, alias, target, params[..k], local, now, n);
      var before := CopyParams(s, connected, alias, target, params[..k], local, now, n);
      assert params == params[..k] + [params[k]];
      CopyOnce(s, before, connected, alias, target, params[..k], params[k], local, now, n);
    }
  }

  lemma FewerOk(s: Store, alias: string, target: string, params: seq<string>)
    requires params != [] && CopyOk(s, alias, Some(target), params)
    ensures CopyOk(s, alias, Some(target), params[..|params| - 1])
  {
  }

  /** `_reinitParams` as master: the alias has the parameters of the target, and the
      messages are one erasure for each cleared key and one update for each copy. */
  lemma ReinitCopies(
    s: Store, connected: bool, alias: string, obj: Option<string>, params: seq<string>,
    local: map<string, Value>, now: real, n: nat)
    requires CopyOk(s, alias, obj, params)
    ensures
      var after := Reinit(s, connected, alias, obj, true, params, local, now, n);
      CopiedFrom(s, after, connected, alias, obj, params, local, n)
    ensures
      var msgs := if obj.None? then [] else Tells(s, connected, alias, obj.value, params, local, now, n);
      forall erased :: ReinitMsgs(s, connected, alias, obj, true, params, local, now, n, erased) ==
                       Erasures(erased, now) + msgs
  {
    hide CopyParams, CopyMsgs, Tells, AfterClear, SameElsewhere, Found, CopiedValue, CopyOk, Own;
    var c := AfterClear(s, alias, OWN_PARAMS);
    OkNames(s, c, alias, obj, params);
    ClearUnderAlias(s, alias);
    if obj.Some? {
      ClearedOk(s, alias, obj, params);
      CopiesAre(c, connected, alias, obj.value, params, local, now, n);
      SameTells(s, c, connected, alias, obj.value, params, local, now, n);
      var r := CopyParams(c, connected, alias, obj.value, params, local, now, n);
      SameTwice(s, c, r, Lower(alias));
      forall k
        ensures Own(k) ==> Found(r, false, alias, k, 0) == Found(s, false, alias, k, 0)
        ensures CleanName(k) && !Own(k) ==>
          Found(r, false, alias, k, 0) ==
            if k in params then CopiedValue(s, connected, obj.value, k, local, n) else None
      {
        assert CopiedAt(c, r, connected, alias, obj.value, params, local, n, k);
        SameCopiedValue(s, c, connected, alias, obj.value, params, Lower(k), local, n);
        OwnParams(k);
        assert Lower(k) in params ==> CleanName(Lower(k));
      }
    }
  }

  /** The own keys, for names without a slash. */
  lemma OwnParams(k: string)
    ensures NoSlash(Lower(k)) ==> (Own(k) <==> Lower(k) in OWN_PARAMS)
  {
  }

  lemma OkNames(s: Store, c: Store, alias: string, obj: Option<string>, params: seq<string>)
    requires CopyOk(s, alias, obj, params)
    ensures NoSlash(alias)
    ensures forall k :: k in params ==> CleanName(k)
  {
  }

  lemma ClearedOk(s: Store, alias: string, obj: Option<string>, params: seq<string>)
    requires CopyOk(s, alias, obj, params)
    ensures CopyOk(AfterClear(s, alias, OWN_PARAMS), alias, obj, params)
  {
  }

  /** What `_reinitParams` leaves, and the messages it queues. */
  ghost predicate Recopied(
    s: Store, after: Store, msgs: seq<Msg>, connected: bool, alias: string, obj: Option<string>, master: bool,
    params: seq<string>, local: map<string, Value>, now: real, n: nat, erased: seq<string>)
  {
    if !master then after == s && msgs == []
    else CopyOk(s, alias, obj, params) ==>
      && CopiedFrom(s, after, connected, alias, obj, params, local, n)
      && msgs == Erasures(erased, now)
           + if obj.None? then [] else Tells(s, connected, alias, obj.value, params, local, now, n)
  }

  lemma ReinitRecopies(
    s: Store, connected: bool, alias: string, obj: Option<string>, master: bool, params: seq<string>,
    local: map<string, Value>, now: real, n: nat)
    ensures forall erased :: Recopied(
      s, Reinit(s, connected, alias, obj, master, params, local, now, n),
      ReinitMsgs(s, connected, alias, obj, master, params, local, now, n, erased),
      connected, alias, obj, master, params, local, now, n, erased)
  {
    if master && CopyOk(s, alias, obj, params) {
      ReinitCopies(s, connected, alias, obj, params, local, now, n);
    }
    hide CopyOk, CopiedFrom, Tells, CopyParams, CopyMsgs, AfterClear;
  }

  lemma {:induction false} SameTells(
    s: Store, t: Store, connected: bool, alias: string, target: string, params: seq<string>,
    local: map<string, Value>, now: real, n: nat)
    requires CopyOk(s, alias, Some(target), params) && SameElsewhere(s, t, Lower(alias))
    ensures Tells(t, connected, alias, target, params, local, now, n) ==
            Tells(s, connected, alias, target, params, local, now, n)
    decreases params
  {
    if params != [] {
      var k := |params| - 1;
      SameTells(s, t, connected, alias, target, params[..k], local, now, n);
      SameCopiedValue(s, t, connected, alias, target, params, params[k], local, n);
    }
  }

  /** Pointing as a run allows it meets the conditions. */
  lemma PointingIsCopyOk(s: Store, devs: set<string>, alias: string, target: string, params: seq<string>)
    requires Inv(s, devs) && Allowed(s, devs, Point(alias, target))
    requires forall k :: 0 <= k < |params| ==> CleanName(params[k])
    ensures CopyOk(AfterSetRewrite(s, alias, target), alias, Some(target), params)
  {
    SetRewriteKeepsMirror(s, alias, target);
    LowerTwice(alias);
    LowerTwice(target);
    var pointed, a, t := AfterSetRewrite(s, alias, target), Lower(alias), Lower(target);
    forall n: nat ensures Follow(pointed.inv, t, n) != a {
      SameChain(s.inv, a, t, t, n);
    }
  }

  lemma NothingCopied(
    s: Store, connected: bool, alias: string, target: string, params: seq<string>,
    local: map<string, Value>, now: real, n: nat)
    ensures CopyParams(s, connected, alias, target, params[..0], local, now, n) == s
    ensures CopyMsgs(s, connected, alias, target, params[..0], local, now, n) == []
  {
  }

  lemma OneMoreCopy(
    s: Store, connected: bool, alias: string, target: string, params: seq<string>, k: nat,
    local: map<string, Value>, now: real, n: nat)
    requires k < |params|
    ensures
      var before := CopyParams(s, connected, alias, target, params[..k], local, now, n);
      && CopyParams(s, connected, alias, target, params[..k + 1], local, now, n) ==
         CopyParam(before, connected, alias, target, params[k], local, now, n)
      && CopyMsgs(s, connected, alias, target, params[..k + 1], local, now, n) ==
         CopyMsgs(s, connected, alias, target, params[..k], local, now, n)
         + TellOf(alias, params[k], CopiedValue(before, connected, target, params[k], local, n), now)
  {
    hide CopyParam, CopiedValue, TellOf;
    assert params[..k + 1][..k] == params[..k];
  }

  class DeviceAlias {
    const name: string
    const cache: CacheClient
    var obj: Option<string>  // None: the alias points to nothing

    constructor (name: string, cache: CacheClient)
      ensures this.name == name && this.cache == cache && obj == None
    {
      this.name, this.cache, obj := name, cache, None;
    }

    /** `params` are the parameters of the target, `local` the values it holds;
        `n` witnesses that looking up the target comes to an end. */
    method ReinitParams(master: bool, params: seq<string>, local: map<string, Value>, now: real, ghost n: nat)
      returns (ghost erased: seq<string>)
      requires obj.Some? ==> Follow(cache.invRewrites, Lower(obj.value), n) !in cache.invRewrites
      requires forall a :: a in cache.invRewrites ==> Lower(cache.invRewrites[a]) == cache.invRewrites[a]
      modifies cache`db, cache`queue
      ensures cache.State() == Reinit(old(cache.State()), cache.connected, name, obj, master, params, local, now, n)
      ensures cache.queue == old(cache.queue) +
        ReinitMsgs(old(cache.State()), cache.connected, name, obj, master, params, local, now, n, erased)
      ensures ErasedBy(old(cache.State()), name, master, erased)
      ensures Recopied(old(cache.State()), cache.State(),
                ReinitMsgs(old(cache.State()), cache.connected, name, obj, master, params, local, now, n, erased),
                cache.connected, name, obj, master, params, local, now, n, erased)
    {
      hide Recopied, CopyParams, CopyMsgs, AfterClear, ClearedKey;
      erased := [];
      ReinitRecopies(cache.State(), cache.connected, name, obj, master, params, local, now, n);
      if master {
        erased := cache.Clear(name, OWN_PARAMS, now);
        if obj.Some? {
          CopyAll(params, local, now, n);
        }
      }
    }

    /** The loop of `_reinitParams`. */
    method CopyAll(params: seq<string>, local: map<string, Value>, now: real, ghost n: nat)
      requires obj.Some? && Follow(cache.invRewrites, Lower(obj.value), n) !in cache.invRewrites
      requires forall a :: a in cache.invRewrites ==> Lower(cache.invRewrites[a]) == cache.invRewrites[a]
      modifies cache`db, cache`queue
      ensures cache.State() ==
        CopyParams(old(cache.State()), cache.connected, name, obj.value, params, local, now, n)
      ensures cache.queue == old(cache.queue) +
        CopyMsgs(old(cache.State()), cache.connected, name, obj.value, params, local, now, n)
    {
      hide CopyParam, CopyParams, CopyMsgs, CopiedValue, TellOf;
      ghost var cleared, queue := cache.State(), cache.queue;
      NothingCopied(cleared, cache.connected, name, obj.value, params, local, now, n);
      assert queue + [] == queue;
      for k := 0 to |params|
        invariant cache.State() == CopyParams(cleared, cache.connected, name, obj.value, params[..k], local, now, n)
        invariant cache.queue == queue +
          CopyMsgs(cleared, cache.connected, name, obj.value, params[..k], local, now, n)
        invariant cache.invRewrites == old(cache.invRewrites)
      {
        OneMoreCopy(cleared, cache.connected, name, obj.value, params, k, local, now, n);
        CopyOne(params[k], local, now, n);
      }
      assert params[..|params|] == params;
    }

    method CopyOne(p: string, local: map<string, Value>, now: real, ghost n: nat)
      requires obj.Some? && Follow(cache.invRewrites, Lower(obj.value), n) !in cache.invRewrites
      requires forall a :: a in cache.invRewrites ==> Lower(cache.invRewrites[a]) == cache.invRewrites[a]
      modifies cache`db, cache`queue
      ensures cache.State() == CopyParam(old(cache.State()), cache.connected, name, obj.value, p, local, now, n)
      ensures cache.queue == old(cache.queue) +
        TellOf(name, p, CopiedValue(old(cache.State()), cache.connected, obj.value, p, local, n), now)
    {
      hide AfterPut, DbKey, Found;
      if p in OWN_PARAMS {
        return;
      }
      var value := cache.Get(obj.value, p, n);
      if value.Some? {
        cache.Put(name, p, value.value, now, None, "");
      } else if p in local {
        cache.Put(name, p, local[p], now, None, "");
      }
    }

    /** `doUpdateAlias` after initialization; `found` tells that the session has
        a fitting device of that name.  Returns whether it raised. */
    method DoUpdateAlias(
      devname: string, found: bool, master: bool, params: seq<string>, local: map<string, Value>, now: real,
      ghost n: nat)
      returns (raised: bool, ghost erased: seq<string>)
      requires Mirror(cache.State())
      requires forall a :: a in cache.invRewrites ==> Lower(cache.invRewrites[a]) == cache.invRewrites[a]
      requires
        var inv := cache.invRewrites[Lower(name) := Lower(devname)];
        devname != "" && found && devname != name ==> Follow(inv, Lower(devname), n) !in inv
      modifies this`obj, cache`db, cache`queue, cache`rewrites, cache`invRewrites
      ensures raised <==> devname != "" && (!found || devname == name)
      ensures raised || (devname != "" && old(obj) == Some(devname)) ==>
        obj == old(obj) && cache.State() == old(cache.State()) && cache.queue == old(cache.queue)
      ensures !raised && devname == "" ==>
        && obj == None
        && var unset := AfterUnsetRewrite(old(cache.State()), name);
           && ErasedBy(unset, name, master, erased)
           && cache.State() == Reinit(unset, cache.connected, name, None, master, params, local, now, n)
           && cache.queue == old(cache.queue)
              + (if Lower(name) in old(cache.invRewrites) then [NoRewrite(Lower(name))] else [])
              + ReinitMsgs(unset, cache.connected, name, None, master, params, local, now, n, erased)
           && Recopied(unset, cache.State(),
                ReinitMsgs(unset, cache.connected, name, None, master, params, local, now, n, erased),
                cache.connected, name, None, master, params, local, now, n, erased)
      ensures !raised && devname != "" && old(obj) != Some(devname) ==>
        && obj == Some(devname)
        && var pointed := AfterSetRewrite(old(cache.State()), name, devname);
           && ErasedBy(pointed, name, master, erased)
           && cache.State() == Reinit(pointed, cache.connected, name, obj, master, params, local, now, n)
           && cache.queue == old(cache.queue) + [Rewrite(Lower(name), Lower(devname))]
              + ReinitMsgs(pointed, cache.connected, name, obj, master, params, local, now, n, erased)
           && Recopied(pointed, cache.State(),
                ReinitMsgs(pointed, cache.connected, name, obj, master, params, local, now, n, erased),
                cache.connected, name, obj, master, params, local, now, n, erased)
    {
      erased := [];
      if devname == "" {
        obj := None;
        ClearRewriteKeepsMirror(cache.State(), Lower(name));
        cache.UnsetRewrite(name);
        erased := ReinitParams(master, params, local, now, n);
        return false, erased;
      }
      if !found || devname == name {
        return true, erased;
      }
      if obj != Some(devname) {
        obj := Some(devname);
        LowerTwice(devname);
        SetRewriteKeepsMirror(cache.State(), name, devname);
        cache.SetRewrite(name, devname);
        erased := ReinitParams(master, params, local, now, n);
      }
      raised := false;
    }
  }

  /** Pointing an alias, copies included, keeps aliases transparent when the
      copied parameters of the device are in the cache. */
  lemma PointingKeepsInv(
    s: Store, devs: set<string>, connected: bool, alias: string, target: string, params: seq<string>,
    local: map<string, Value>, now: real, n: nat)
    requires Inv(s, devs) && Allowed(s, devs, Point(alias, target))
    requires Lower(target) in devs && Lower(alias) !in AfterSetRewrite(s, alias, target).rewrites
    requires forall k :: 0 <= k < |params| ==> CleanName(params[k])
    requires forall k :: 0 <= k < |params| && !Own(params[k]) ==>
      DbKey(target, params[k]) in AfterClear(AfterSetRewrite(s, alias, target), alias, OWN_PARAMS).db
    ensures
      Inv(Reinit(AfterSetRewrite(s, alias, target), connected, alias, Some(target), true, params, local, now, n), devs)
  {
    var c := Apply(s, Point(alias, target));
    StepKeepsInv(s, devs, Point(alias, target));
    SetRewriteKeepsMirror(s, alias, target);
    CopyingKeepsInv(c, devs, connected, alias, target, params, local, now, n);
  }

  lemma {:induction false} CopyingKeepsInv(
    c: Store, devs: set<string>, connected: bool, alias: string, target: string, params: seq<string>,
    local: map<string, Value>, now: real, n: nat)
    requires Inv(c, devs) && NoSlash(alias) && Lower(alias) !in devs && Lower(target) in devs && NoSlash(target)
    requires Lower(alias) in c.inv && c.inv[Lower(alias)] == Lower(target) && Lower(alias) !in c.rewrites
    requires forall k :: 0 <= k < |params| ==> CleanName(params[k])
    requires forall k :: 0 <= k < |params| && !Own(params[k]) ==> DbKey(target, params[k]) in c.db
    ensures
      var r := CopyParams(c, connected, alias, target, params, local, now, n);
      Inv(r, devs) && r.inv == c.inv && r.rewrites == c.rewrites && c.db.Keys <= r.db.Keys
    decreases params
  {
    if params != [] {
      var k := |params| - 1;
      CopyingKeepsInv(c, devs, connected, alias, target, params[..k], local, now, n);
      var r, p := CopyParams(c, connected, alias, target, params[..k], local, now, n), params[k];
      if !Own(p) {
        CopyKeepsInv(r, devs, alias, p, now);
        DbKeyInjective(target, p, Lower(target), p);
        LowerTwice(target);
      }
    }
  }

  // ---- Where the conditions are needed ----

  lemma ClearedKeysOf(dev: string, exclude: set<string>, d: string, k: string)
    requires NoSlash(dev) && CleanName(d)
    ensures ClearedKey(dev, exclude, DbKey(d, k)) <==> d == Lower(dev) && LastPart(Lower(k)) !in exclude
  {
    PrefixIsDevice(dev, d, k);
    LastPartOfDbKey(d, k);
  }

  lemma FreshAfterClear(s: Store, devs: set<string>, dev: string, exclude: set<string>, a: string, k: string)
    requires Names(s, devs) && Fresh(s, devs, a, k) && NoSlash(dev) && Lower(dev) in devs
    ensures Fresh(AfterClear(s, dev, exclude), devs, a, k) <==> NoCopy(s, dev, exclude, a, k)
  {
    if a in s.inv {
      ClearedKeysOf(dev, exclude, a, k);
      ClearedKeysOf(dev, exclude, s.inv[a], k);
    }
  }

  /** Clearing a real device keeps the invariant exactly if no alias of it holds
      a copy of a key that is removed. */
  lemma ClearKeepsInvIff(s: Store, devs: set<string>, dev: string, exclude: set<string>)
    requires Inv(s, devs) && NoSlash(dev) && Lower(dev) in devs
    ensures Inv(AfterClear(s, dev, exclude), devs) <==> NoCopies(s, dev, exclude)
  {
    var c := AfterClear(s, dev, exclude);
    assert c.inv == s.inv && c.rewrites == s.rewrites;
    assert Mirror(c) && Names(c, devs) && AllEnd(c.inv);
    forall a, k ensures Fresh(c, devs, a, k) <==> NoCopy(s, dev, exclude, a, k) {
      assert Fresh(s, devs, a, k);
      FreshAfterClear(s, devs, dev, exclude, a, k);
    }
    hide AfterClear, Fresh, Mirror, Names, AllEnd, NoCopy;
  }

  /** The aliases of a device find what the device finds after it was cleared. */
  ghost predicate AliasesAgree(s: Store, dev: string, n: nat)
    requires n > 0
  {
    forall a, k :: a in s.inv && s.inv[a] == Lower(dev) && !Own(k) ==>
      Lookup(s, a, k, n) == Lookup(s, Lower(dev), k, n - 1)
  }

  /** ... which is so exactly under the same condition: a copy stays visible under
      the alias although the device has lost the key. */
  lemma ClearingTheDeviceIsSeenIff(s: Store, devs: set<string>, dev: string, exclude: set<string>, n: nat)
    requires Inv(s, devs) && NoSlash(dev) && Lower(dev) in devs && n > 0
    ensures AliasesAgree(AfterClear(s, dev, exclude), dev, n) <==> NoCopies(s, dev, exclude)
  {
    var c, t := AfterClear(s, dev, exclude), Lower(dev);
    ClearKeepsInvIff(s, devs, dev, exclude);
    if NoCopies(s, dev, exclude) {
      forall a, k | a in c.inv && c.inv[a] == t && !Own(k) ensures Lookup(c, a, k, n) == Lookup(c, t, k, n - 1) {
        Transparent(c, devs, a, k, n);
      }
    }
    if AliasesAgree(c, dev, n) {
      forall a, k ensures NoCopy(s, dev, exclude, a, k) {
        if a in s.inv && s.inv[a] == t && !Own(k) && DbKey(a, k) in s.db {
          ClearedKeysOf(dev, exclude, a, k);
          ClearedKeysOf(dev, exclude, t, k);
          assert DbKey(a, k) in c.db;
          assert Lookup(c, a, k, n) == Lookup(c, t, k, n - 1);
        }
      }
    }
  }

  /** Storing a value under an alias keeps the invariant exactly if the device has
      that value in the cache.  A parameter copied from the object, not from the
      cache, stays visible under the alias although the device has no such key. */
  lemma CopyKeepsInvIff(
    s: Store, devs: set<string>, alias: string, key: string, v: Value, time: real)
    requires Inv(s, devs) && NoSlash(alias) && !Own(key)
    requires Lower(alias) in s.inv && s.inv[Lower(alias)] in devs && Lower(alias) !in s.rewrites
    ensures
      var t := DbKey(s.inv[Lower(alias)], key);
      Inv(AfterPut(s, alias, key, v, time), devs) <==> t in s.db && s.db[t].0 == v
  {
    var n, low := AfterPut(s, alias, key, v, time), Lower(alias);
    var t := s.inv[low];
    assert Touched(s, alias, key) == {DbKey(alias, key)};
    DbKeyInjective(t, key, alias, key);
    DbKeyInjective(low, key, alias, key);
    LowerTwice(alias);
    if DbKey(t, key) in s.db && s.db[DbKey(t, key)].0 == v {
      forall a, k ensures Fresh(n, devs, a, k) {
        assert Fresh(s, devs, a, k);
        if a in s.inv {
          DbKeyInjective(a, k, alias, key);
          DbKeyInjective(s.inv[a], k, alias, key);
          DbKeyInjective(s.inv[a], k, t, key);
        }
      }
    }
    if Inv(n, devs) {
      assert Fresh(n, devs, low, key);
    }
  }

  /** An alias of an alias that has copied a key sees a new value of it exactly if
      that is the value it has copied. */
  lemma CopyThroughAliasIsSeenIff(
    s: Store, devs: set<string>, a: string, b: string, dev: string, k: string, v: Value, time: real, n: nat)
    requires Mirror(s) && Names(s, devs) && dev in devs && n > 0
    requires a in s.inv && s.inv[a] == b && b in s.inv && s.inv[b] == dev
    ensures
      var after := AfterPut(s, dev, k, v, time);
      && Lookup(after, b, k, n - 1) == Some(v)
      && (Lookup(after, a, k, n) == Some(v) <==> (DbKey(a, k) in s.db ==> s.db[DbKey(a, k)].0 == v))
  {
    TouchedKeys(s, devs, dev, k, a, k);
    TouchedKeys(s, devs, dev, k, b, k);
  }
}
