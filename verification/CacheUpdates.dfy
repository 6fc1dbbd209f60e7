/** Updates from the cache server: `CacheClient._handle_msg`. */
module CacheUpdates {
  import opened Options

  type Value = int  // values matter only up to equality

  datatype Op = Tell | TellOld | OtherOp

  // The text after the operator: empty, a value, or text that cannot be loaded.
  datatype Payload = Empty | Loads(v: Value) | Unloadable

  // Times on the wire carry no sign.
  type Time = t: real | 0.0 <= t

  datatype Message = Message(time: Option<Time>, key: string, op: Op, payload: Payload)

  type Db = map<string, (Value, real)>

  datatype Handling = Ignored | Raised | Erased | Stored

  function TimeOf(db: Db, key: string): real {
    if key in db then db[key].1 else 0.0
  }

  /** What a message leads to, given the prefix of the client. */
  function Classify(db: Db, prefix: string, m: Message): Handling {
    if m.op.OtherOp? || !(prefix <= m.key) then Ignored
    else if m.time.None? then Raised  // comparing a time with None
    else if TimeOf(db, m.key[|prefix|..]) > m.time.value then Ignored
    else if m.payload.Empty? || m.op.TellOld? then Erased
    else if m.payload.Unloadable? then Raised
    else Stored
  }

  function Deliver(db: Db, prefix: string, m: Message): Db {
    match Classify(db, prefix, m)
    case Ignored => db
    case Raised => db
    case Erased => db - {m.key[|prefix|..]}
    case Stored => db[m.key[|prefix|..] := (m.payload.v, m.time.value)]
  }

  /** What one message does to one key: a TELL with a value stores it, an empty one
      and every TELLOLD erase it, unless the store has something newer; nothing else
      changes anything. */
  lemma DeliveryMeans(db: Db, prefix: string, m: Message, key: string)
    ensures
      var after := Deliver(db, prefix, m);
      var counts := m.key == prefix + key && !m.op.OtherOp? && m.time.Some?
                    && (key in db ==> db[key].1 <= m.time.value);
      if counts && (m.op.TellOld? || m.payload.Empty?) then key !in after
      else if counts && m.payload.Loads? then key in after && after[key] == (m.payload.v, m.time.value)
      else (key in after <==> key in db) && (key in db ==> after[key] == db[key])
  {
    assert prefix <= m.key ==> m.key == prefix + m.key[|prefix|..];
    assert (prefix + key)[|prefix|..] == key;
  }

  class Receiver {
    const prefix: string
    var db: Db

    constructor (prefix: string)
      ensures this.prefix == prefix && db == map[]
    {
      this.prefix, db := prefix, map[];
    }

    /** Returns whether it raised; the caller logs that and goes on. */
    method HandleMsg(m: Message) returns (raised: bool)
      modifies this
      ensures db == Deliver(old(db), prefix, m)
      ensures raised <==> Classify(old(db), prefix, m) == Raised
    {
      raised := false;
      if m.op != Tell && m.op != TellOld {
        return;
      }
      if !(prefix <= m.key) {
        return;
      }
      var key := m.key[|prefix|..];
      var dbTime := TimeOf(db, key);
      if m.time.None? {
        return true;
      }
      if dbTime > m.time.value {
        return;
      }
      if m.payload.Empty? || m.op.TellOld? {
        db := db - {key};
      } else if m.payload.Unloadable? {
        raised := true;
      } else {
        db := db[key := (m.payload.v, m.time.value)];
      }
    }
  }

  ghost function DeliverAll(db: Db, prefix: string, msgs: seq<Message>): Db {
    if msgs == [] then db
    else Deliver(DeliverAll(db, prefix, msgs[..|msgs| - 1]), prefix, msgs[|msgs| - 1])
  }

  // ---- Convergence ----

  /** A non-empty TELL for this client. */
  predicate IsUpdate(prefix: string, m: Message) {
    m.op == Tell && prefix <= m.key && m.time.Some? && m.payload.Loads?
  }

  ghost predicate AllUpdates(prefix: string, msgs: seq<Message>) {
    forall i :: 0 <= i < |msgs| ==> IsUpdate(prefix, msgs[i])
  }

  predicate ForKey(prefix: string, m: Message, key: string) {
    m.key == prefix + key
  }

  /** Message `k` is the last of those for its key with the greatest time. */
  ghost predicate Wins(prefix: string, msgs: seq<Message>, key: string, k: nat)
    requires AllUpdates(prefix, msgs)
  {
    && k < |msgs| && ForKey(prefix, msgs[k], key)
    && (forall i :: 0 <= i < |msgs| && ForKey(prefix, msgs[i], key) ==> msgs[i].time.value <= msgs[k].time.value)
    && (forall i :: k < i < |msgs| && ForKey(prefix, msgs[i], key) ==> msgs[i].time.value < msgs[k].time.value)
  }

  ghost predicate Mentioned(prefix: string, msgs: seq<Message>, key: string) {
    exists i :: 0 <= i < |msgs| && ForKey(prefix, msgs[i], key)
  }

  /** Starting from an empty store, each key holds the last message among those
      with the greatest time, and only keys with messages are there. */
  lemma HoldsTheLatest(prefix: string, msgs: seq<Message>, key: string) returns (k: nat)
    requires AllUpdates(prefix, msgs)
    ensures
      var db := DeliverAll(map[], prefix, msgs);
      && (key in db <==> Mentioned(prefix, msgs, key))
      && (key in db ==> Wins(prefix, msgs, key, k) && db[key] == (msgs[k].payload.v, msgs[k].time.value))
  {
    hide DeliverAll;
    NeverErased(prefix, msgs, key);
    k := HoldsTheLatestSinceErasure(prefix, msgs, key);
    hide Since;
    assert forall i :: 0 <= i < |msgs| ==> (UpdatesKey(prefix, msgs[i], key) <==> ForKey(prefix, msgs[i], key));
  }

  lemma {:induction false} NeverErased(prefix: string, msgs: seq<Message>, key: string)
    requires AllUpdates(prefix, msgs)
    ensures Since(prefix, msgs, key) == 0
  {
    if msgs != [] {
      hide DeliverAll;
      NeverErased(prefix, msgs[..|msgs| - 1], key);
    }
  }

  lemma KeyOf(prefix: string, m: Message, key: string)
    requires prefix <= m.key
    ensures ForKey(prefix, m, key) <==> m.key[|prefix|..] == key
  {
    assert m.key == prefix + m.key[|prefix|..];
  }

  /** A message with the greatest time of its key. */
  ghost predicate IsTop(msgs: seq<Message>, i: nat)
    requires i < |msgs|
  {
    forall j :: 0 <= j < |msgs| && msgs[j].key == msgs[i].key && msgs[j].time.Some? && msgs[i].time.Some?
      ==> msgs[j].time.value <= msgs[i].time.value
  }

  /** The messages with the greatest time of a key carry one value. */
  ghost predicate TopsAgree(msgs: seq<Message>) {
    forall i, j :: 0 <= i < |msgs| && 0 <= j < |msgs| && msgs[i].key == msgs[j].key && IsTop(msgs, i) && IsTop(msgs, j)
      ==> msgs[i].payload == msgs[j].payload
  }

  ghost predicate EveryOrderAgrees(prefix: string, msgs: seq<Message>) {
    forall order :: multiset(order) == multiset(msgs) ==>
      DeliverAll(map[], prefix, order) == DeliverAll(map[], prefix, msgs)
  }

  /** The order of delivery does not matter exactly if the messages with the
      greatest time of each key agree. */
  lemma DeliveryOrderIsIrrelevantIff(prefix: string, msgs: seq<Message>)
    requires AllUpdates(prefix, msgs)
    ensures EveryOrderAgrees(prefix, msgs) <==> TopsAgree(msgs)
  {
    hide DeliverAll;
    if TopsAgree(msgs) {
      forall order | multiset(order) == multiset(msgs)
        ensures DeliverAll(map[], prefix, order) == DeliverAll(map[], prefix, msgs)
      {
        AgreeingOrder(prefix, msgs, order);
      }
    }
    if EveryOrderAgrees(prefix, msgs) {
      forall i, j | 0 <= i < |msgs| && 0 <= j < |msgs| && msgs[i].key == msgs[j].key && IsTop(msgs, i) && IsTop(msgs, j)
        ensures msgs[i].payload == msgs[j].payload
      {
        TopDeliveredLast(prefix, msgs, i);
        TopDeliveredLast(prefix, msgs, j);
      }
    }
  }

  lemma AgreeingOrder(prefix: string, msgs: seq<Message>, order: seq<Message>)
    requires AllUpdates(prefix, msgs) && multiset(order) == multiset(msgs) && TopsAgree(msgs)
    ensures DeliverAll(map[], prefix, order) == DeliverAll(map[], prefix, msgs)
  {
    hide DeliverAll, TopsAgree;
    SameMembers(msgs, order);
    SameMembers(order, msgs);
    forall i | 0 <= i < |order| ensures IsUpdate(prefix, order[i]) {
      assert order[i] in msgs;
    }
    var db1, db2 := DeliverAll(map[], prefix, msgs), DeliverAll(map[], prefix, order);
    forall key ensures key in db1 <==> key in db2
      ensures key in db1 && key in db2 ==> db1[key] == db2[key]
    {
      SameEntry(prefix, msgs, order, key);
    }
    assert db1.Keys == db2.Keys;
  }

  lemma SameEntry(prefix: string, msgs: seq<Message>, order: seq<Message>, key: string)
    requires AllUpdates(prefix, msgs) && AllUpdates(prefix, order) && TopsAgree(msgs)
    requires (forall m :: m in msgs ==> m in order) && (forall m :: m in order ==> m in msgs)
    ensures
      var db1, db2 := DeliverAll(map[], prefix, msgs), DeliverAll(map[], prefix, order);
      (key in db1 <==> key in db2) && (key in db1 && key in db2 ==> db1[key] == db2[key])
  {
    hide DeliverAll;
    var db1, db2 := DeliverAll(map[], prefix, msgs), DeliverAll(map[], prefix, order);
    var k1 := HoldsTheLatest(prefix, msgs, key);
    var k2 := HoldsTheLatest(prefix, order, key);
    SameMentions(prefix, msgs, order, key);
    SameMentions(prefix, order, msgs, key);
    if key in db1 && key in db2 {
      assert order[k2] in msgs;
      var j :| 0 <= j < |msgs| && msgs[j] == order[k2];
      forall i | 0 <= i < |msgs| && msgs[i].key == msgs[j].key ensures msgs[i].time.value <= msgs[j].time.value {
        assert msgs[i] in order;
        var l :| 0 <= l < |order| && order[l] == msgs[i];
        assert ForKey(prefix, order[l], key);
      }
      assert IsTop(msgs, j);
      assert IsTop(msgs, k1) by {
        assert forall i :: 0 <= i < |msgs| && msgs[i].key == msgs[k1].key ==> ForKey(prefix, msgs[i], key);
      }
    }
  }

  /** A message with the greatest time of its key wins if it comes last. */
  lemma TopDeliveredLast(prefix: string, msgs: seq<Message>, i: nat)
    requires AllUpdates(prefix, msgs) && EveryOrderAgrees(prefix, msgs)
    requires i < |msgs| && IsTop(msgs, i)
    ensures
      var db, key := DeliverAll(map[], prefix, msgs), msgs[i].key[|prefix|..];
      key in db && Loads(db[key].0) == msgs[i].payload
  {
    var m, key := msgs[i], msgs[i].key[|prefix|..];
    var others := msgs[..i] + msgs[i + 1..];
    var order := others + [m];
    MovedToEnd(msgs, i);
    SameMembers(order, msgs);
    forall j | 0 <= j < |order| ensures IsUpdate(prefix, order[j]) {
      assert order[j] in msgs;
    }
    hide DeliverAll;
    KeyOf(prefix, m, key);
    var k := HoldsTheLatest(prefix, order, key);
    var n := |others|;
    assert order[n] == m && ForKey(prefix, order[n], key);
    assert Mentioned(prefix, order, key);
    assert order[k] in msgs;
    var j :| 0 <= j < |msgs| && msgs[j] == order[k];
    assert msgs[j].key == m.key && msgs[j].time.value <= m.time.value;
    assert k == n;
  }

  lemma MovedToEnd(msgs: seq<Message>, i: nat)
    requires i < |msgs|
    ensures multiset(msgs[..i] + msgs[i + 1..] + [msgs[i]]) == multiset(msgs)
  {
    assert msgs == msgs[..i] + [msgs[i]] + msgs[i + 1..];
  }

  lemma SameMembers(a: seq<Message>, b: seq<Message>)
    requires multiset(a) == multiset(b)
    ensures forall m :: m in a ==> m in b
  {
    forall m | m in a ensures m in b {
      assert m in multiset(a) && m in multiset(b);
    }
  }

  lemma SameMentions(prefix: string, a: seq<Message>, b: seq<Message>, key: string)
    requires forall m :: m in a ==> m in b
    ensures Mentioned(prefix, a, key) ==> Mentioned(prefix, b, key)
  {
    if Mentioned(prefix, a, key) {
      var i :| 0 <= i < |a| && ForKey(prefix, a[i], key);
      assert a[i] in b;
    }
  }

  // ---- Updates and erasures ----

  predicate UpdatesKey(prefix: string, m: Message, key: string) {
    IsUpdate(prefix, m) && ForKey(prefix, m, key)
  }

  predicate ErasesKey(prefix: string, m: Message, key: string) {
    && !m.op.OtherOp? && m.time.Some? && ForKey(prefix, m, key)
    && (m.payload.Empty? || m.op.TellOld?)
  }

  /** How many messages there were when the last erasure of the key was accepted. */
  ghost function Since(prefix: string, msgs: seq<Message>, key: string): (n: nat)
    ensures n <= |msgs|
  {
    if msgs == [] then 0
    else
      var init, m := msgs[..|msgs| - 1], msgs[|msgs| - 1];
      if ForKey(prefix, m, key) && Classify(DeliverAll(map[], prefix, init), prefix, m) == Erased then |msgs|
      else Since(prefix, init, key)
  }

  /** Message `k` is the last of the updates of the key from number `from` on with
      the greatest time. */
  ghost predicate WinsFrom(prefix: string, msgs: seq<Message>, key: string, from: nat, k: nat) {
    && from <= k < |msgs| && UpdatesKey(prefix, msgs[k], key)
    && (forall i :: from <= i < |msgs| && UpdatesKey(prefix, msgs[i], key) ==> msgs[i].time.value <= msgs[k].time.value)
    && (forall i :: k < i < |msgs| && UpdatesKey(prefix, msgs[i], key) ==> msgs[i].time.value < msgs[k].time.value)
  }

  ghost predicate UpdatedFrom(prefix: string, msgs: seq<Message>, key: string, from: nat) {
    exists i :: from <= i < |msgs| && UpdatesKey(prefix, msgs[i], key)
  }

  /** After any messages, a key holds the winner of the updates delivered since its
      last accepted erasure, and nothing if there are none. */
  lemma {:induction false} HoldsTheLatestSinceErasure(prefix: string, msgs: seq<Message>, key: string) returns (k: nat)
    ensures
      var db, from := DeliverAll(map[], prefix, msgs), Since(prefix, msgs, key);
      && (key in db <==> UpdatedFrom(prefix, msgs, key, from))
      && (key in db ==> WinsFrom(prefix, msgs, key, from, k) && db[key] == (msgs[k].payload.v, msgs[k].time.value))
  {
    k := 0;
    if msgs != [] {
      hide WinsFrom, UpdatedFrom;
      var n := |msgs| - 1;
      var init, m := msgs[..n], msgs[n];
      var j := HoldsTheLatestSinceErasure(prefix, init, key);
      var db := DeliverAll(map[], prefix, init);
      assert msgs == init + [m];
      StepOfKey(prefix, db, m, key);
      OneMore(prefix, init, m, key, Since(prefix, init, key), j);
      NothingYet(prefix, msgs, key);
      k := if Classify(db, prefix, m) == Stored && ForKey(prefix, m, key) then n else j;
    } else {
      assert !UpdatedFrom(prefix, msgs, key, 0);
    }
  }

  lemma NothingYet(prefix: string, msgs: seq<Message>, key: string)
    ensures !UpdatedFrom(prefix, msgs, key, |msgs|)
  {
  }

  /** What one message does to a key. */
  lemma StepOfKey(prefix: string, db: Db, m: Message, key: string)
    ensures
      var after := Deliver(db, prefix, m);
      && (ForKey(prefix, m, key) && Classify(db, prefix, m) == Erased ==> ErasesKey(prefix, m, key) && key !in after)
      && (ForKey(prefix, m, key) && Classify(db, prefix, m) == Stored ==>
            && UpdatesKey(prefix, m, key) && key in after && after[key] == (m.payload.v, m.time.value)
            && (key in db ==> db[key].1 <= m.time.value))
      && (!ForKey(prefix, m, key) || (Classify(db, prefix, m) != Erased && Classify(db, prefix, m) != Stored) ==>
            && (key in after <==> key in db) && (key in db ==> after[key] == db[key])
            && (UpdatesKey(prefix, m, key) || ErasesKey(prefix, m, key) ==> key in db && m.time.value < db[key].1))
  {
    if prefix <= m.key {
      KeyOf(prefix, m, key);
    } else {
      assert prefix <= prefix + key;
    }
  }

  lemma OneMore(prefix: string, init: seq<Message>, m: Message, key: string, from: nat, j: nat)
    requires from <= |init|
    ensures UpdatedFrom(prefix, init + [m], key, from) <==>
      UpdatedFrom(prefix, init, key, from) || UpdatesKey(prefix, m, key)
    ensures WinsFrom(prefix, init, key, from, j) ==> j < |init| && (init + [m])[j] == init[j]
    ensures
      WinsFrom(prefix, init, key, from, j) && (UpdatesKey(prefix, m, key) ==> m.time.value < init[j].time.value)
      ==> WinsFrom(prefix, init + [m], key, from, j)
    ensures
      UpdatesKey(prefix, m, key)
      && (UpdatedFrom(prefix, init, key, from) ==>
            WinsFrom(prefix, init, key, from, j) && init[j].time.value <= m.time.value)
      ==> WinsFrom(prefix, init + [m], key, from, |init|)
  {
    var msgs := init + [m];
    assert forall i :: 0 <= i < |init| ==> msgs[i] == init[i];
    assert msgs[|init|] == m;
    if i :| from <= i < |init| && UpdatesKey(prefix, init[i], key) {
      assert UpdatesKey(prefix, msgs[i], key);
    }
  }

  /** Message `g` is the last of the updates and erasures of the key with the
      greatest time. */
  ghost predicate Greatest(prefix: string, msgs: seq<Message>, key: string, g: nat) {
    && g < |msgs| && Concerns(prefix, msgs[g], key)
    && (forall i :: 0 <= i < |msgs| && Concerns(prefix, msgs[i], key) ==> msgs[i].time.value <= msgs[g].time.value)
    && (forall i :: g < i < |msgs| && Concerns(prefix, msgs[i], key) ==> msgs[i].time.value < msgs[g].time.value)
  }

  ghost predicate Concerns(prefix: string, m: Message, key: string) {
    UpdatesKey(prefix, m, key) || ErasesKey(prefix, m, key)
  }

  /** The message of the greatest time decides: its value is stored, or its erasure
      has left nothing. */
  ghost predicate Decides(prefix: string, msgs: seq<Message>, key: string, g: nat)
    requires Greatest(prefix, msgs, key, g)
  {
    var db := DeliverAll(map[], prefix, msgs);
    if UpdatesKey(prefix, msgs[g], key) then key in db && db[key] == (msgs[g].payload.v, msgs[g].time.value)
    else key !in db
  }

  /** It does exactly if it is an update, or no update came after the last accepted
      erasure. */
  lemma GreatestDecidesIff(prefix: string, msgs: seq<Message>, key: string, g: nat)
    requires Greatest(prefix, msgs, key, g)
    ensures Decides(prefix, msgs, key, g) <==>
      UpdatesKey(prefix, msgs[g], key) || !UpdatedFrom(prefix, msgs, key, Since(prefix, msgs, key))
  {
    hide UpdatedFrom, Since, DeliverAll;
    var k := HoldsTheLatestSinceErasure(prefix, msgs, key);
    if UpdatesKey(prefix, msgs[g], key) {
      GreatestUpdateStays(prefix, msgs, key, g);
    }
  }

  lemma {:induction false} GreatestUpdateStays(prefix: string, msgs: seq<Message>, key: string, g: nat)
    requires Greatest(prefix, msgs, key, g) && UpdatesKey(prefix, msgs[g], key)
    ensures
      var db := DeliverAll(map[], prefix, msgs);
      key in db && db[key] == (msgs[g].payload.v, msgs[g].time.value)
  {
    var n := |msgs| - 1;
    var init, m := msgs[..n], msgs[n];
    var db := DeliverAll(map[], prefix, init);
    StepOfKey(prefix, db, m, key);
    if g < n {
      GreatestUpdateStays(prefix, init, key, g);
    } else {
      StoredIsNotGreater(prefix, msgs, key, g);
    }
  }

  /** What is stored before the greatest message is not newer. */
  lemma StoredIsNotGreater(prefix: string, msgs: seq<Message>, key: string, g: nat)
    requires Greatest(prefix, msgs, key, g)
    ensures
      var db := DeliverAll(map[], prefix, msgs[..g]);
      key in db ==> db[key].1 <= msgs[g].time.value
  {
    hide DeliverAll, Since;
    var k := HoldsTheLatestSinceErasure(prefix, msgs[..g], key);
    if key in DeliverAll(map[], prefix, msgs[..g]) {
      assert msgs[..g][k] == msgs[k];
    }
  }

  /** In particular if no update comes after an erasure that is newer. */
  lemma NoLateUpdateDecides(prefix: string, msgs: seq<Message>, key: string, g: nat)
    requires Greatest(prefix, msgs, key, g)
    requires forall i, j ::
      0 <= j < i < |msgs| && ErasesKey(prefix, msgs[j], key) && UpdatesKey(prefix, msgs[i], key) ==>
        msgs[j].time.value <= msgs[i].time.value
    ensures Decides(prefix, msgs, key, g)
  {
    GreatestDecidesIff(prefix, msgs, key, g);
    if !UpdatesKey(prefix, msgs[g], key) {
      var before := DeliverAll(map[], prefix, msgs[..g]);
      StoredIsNotGreater(prefix, msgs, key, g);
      StepOfKey(prefix, before, msgs[g], key);
      assert msgs[..g + 1][..g] == msgs[..g];
      hide DeliverAll;
      assert Since(prefix, msgs[..g + 1], key) == g + 1;
      SinceGrows(prefix, msgs, key, g + 1);
      forall i | Since(prefix, msgs, key) <= i < |msgs| ensures !UpdatesKey(prefix, msgs[i], key) {
      }
    }
  }

  lemma {:induction false} SinceGrows(prefix: string, msgs: seq<Message>, key: string, n: nat)
    requires n <= |msgs|
    ensures Since(prefix, msgs[..n], key) <= Since(prefix, msgs, key)
    decreases |msgs|
  {
    if n < |msgs| {
      assert msgs[..|msgs| - 1][..n] == msgs[..n];
      SinceGrows(prefix, msgs[..|msgs| - 1], key, n);
    } else {
      assert msgs[..n] == msgs;
    }
  }

  lemma DeliverThree(prefix: string, a: Message, b: Message, c: Message)
    ensures DeliverAll(map[], prefix, [a, b, c]) == Deliver(Deliver(Deliver(map[], prefix, a), prefix, b), prefix, c)
  {
    assert [a, b, c][..2] == [a, b] && [a, b][..1] == [a] && [a][..0] == [];
    assert DeliverAll(map[], prefix, []) == map[];
    assert DeliverAll(map[], prefix, [a]) == Deliver(map[], prefix, a);
    assert DeliverAll(map[], prefix, [a, b]) == Deliver(DeliverAll(map[], prefix, [a]), prefix, b);
  }

  /** For example, an erased key forgets its time, so an older update that arrives
      later is stored again. */
  lemma ErasureForgetsTime(prefix: string, key: string, v1: Value, v2: Value)
    ensures
      var old1 := Message(Some(1.0), prefix + key, Tell, Loads(v1));
      var new2 := Message(Some(2.0), prefix + key, Tell, Loads(v2));
      var gone3 := Message(Some(3.0), prefix + key, Tell, Empty);
      && DeliverAll(map[], prefix, [old1, new2, gone3]) == map[]
      && DeliverAll(map[], prefix, [new2, gone3, old1]) == map[key := (v1, 1.0)]
  {
    var old1 := Message(Some(1.0), prefix + key, Tell, Loads(v1));
    var new2 := Message(Some(2.0), prefix + key, Tell, Loads(v2));
    var gone3 := Message(Some(3.0), prefix + key, Tell, Empty);
    KeyOf(prefix, old1, key);
    DeliverThree(prefix, old1, new2, gone3);
    DeliverThree(prefix, new2, gone3, old1);
    var e: Db := map[];
    assert Deliver(e, prefix, old1) == map[key := (v1, 1.0)];
    assert Deliver(map[key := (v1, 1.0)], prefix, new2) == map[key := (v2, 2.0)];
    assert Deliver(map[key := (v2, 2.0)], prefix, gone3) == e;
    assert Deliver(e, prefix, new2) == map[key := (v2, 2.0)];
  }
}
