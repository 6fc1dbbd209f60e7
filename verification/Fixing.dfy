/** Fixing and releasing of moveable devices: recursive over attachments, and
    guarded by the level of the user who fixed a device. */
module Fixing {

  import opened Options
  import opened DeviceGraph

  datatype User = User(name: string, level: int)

  /** Per device, by its number: the parameters `fixed` and `fixedby`, and the
      targets given to its hardware. */
  datatype State = State(fixed: seq<string>, fixedby: seq<Option<User>>, hw: seq<seq<real>>)

  ghost predicate Valid(g: Graph, s: State) {
    CreatedInOrder(g) && |s.fixed| == |s.fixedby| == |s.hw| == |g|
  }

  /** `checkUserLevel` for the user who fixed the device, if any. */
  predicate MayChange(holder: Option<User>, eu: User) {
    holder.None? || eu.level >= holder.value.level
  }

  ghost function Passing(s: State, eu: User): set<nat> {
    set e: nat | e < |s.fixedby| && MayChange(s.fixedby[e], eu)
  }

  ghost function SetOf(ds: seq<nat>): set<nat> {
    set d | d in ds
  }

  // ---- The texts ----

  function Suffix(eu: User): string {
    " (fixed by '" + eu.name + "')"
  }

  predicate EndsWith(text: string, end: string) {
    |text| >= |end| && text[|text| - |end|..] == end
  }

  function WithSuffix(reason: string, eu: User): string {
    if EndsWith(reason, Suffix(eu)) then reason else reason + Suffix(eu)
  }

  function Reason(reason: string, eu: User): (r: string)
    ensures r != ""
  {
    if reason != "" then WithSuffix(reason, eu) else "fixed by '" + eu.name + "'"
  }

  lemma SuffixOnce(reason: string, eu: User)
    ensures WithSuffix(WithSuffix(reason, eu), eu) == WithSuffix(reason, eu)
  {
    var long := reason + Suffix(eu);
    assert long[|long| - |Suffix(eu)|..] == Suffix(eu);
  }

  // ---- What the calls change ----

  ghost function Mark(s: State, who: set<nat>, text: string, holder: Option<User>): State {
    s.(fixed := seq(|s.fixed|, e requires 0 <= e < |s.fixed| => if e in who then text else s.fixed[e]),
       fixedby := seq(|s.fixedby|, e requires 0 <= e < |s.fixedby| => if e in who then holder else s.fixedby[e]))
  }

  /** The devices that a fix of the listed ones enters, in order: each before its
      attachments, and once for every way that leads to it. */
  ghost function Visits(g: Graph, members: set<nat>, ds: seq<nat>): seq<nat>
    requires CreatedInOrder(g) && Known(g, ds)
    decreases Bound(ds), |ds|
  {
    if ds == [] then [] else VisitsOne(g, members, ds[0]) + Visits(g, members, ds[1..])
  }

  ghost function VisitsOne(g: Graph, members: set<nat>, d: nat): seq<nat>
    requires CreatedInOrder(g) && d < |g|
    decreases d + 1, 0
  {
    if d !in members then []
    else
      assert Bound(g[d]) <= d by { BoundBelow(g[d], d); }
      [d] + Visits(g, members, g[d])
  }

  /** A fix asks every device it enters for its status.  `fails(k)` says whether the
      k-th of these calls raises.  Of `n` calls from number `c` on, so many succeed
      until one raises. */
  function Until(fails: nat -> bool, c: nat, n: nat): (k: nat)
    ensures k <= n
    ensures forall j :: c <= j < c + k ==> !fails(j)
    ensures k < n ==> fails(c + k)
    decreases n
  {
    if n == 0 || fails(c) then 0 else 1 + Until(fails, c + 1, n - 1)
  }

  /** The devices a fix enters before a status call raises, if one does. */
  ghost function Entered(g: Graph, s: State, d: nat, eu: User, fails: nat -> bool, c: nat): seq<nat>
    requires Valid(g, s) && d < |g|
  {
    var v := VisitsOne(g, Passing(s, eu), d);
    v[..Until(fails, c, |v|)]
  }

  ghost predicate Raises(g: Graph, s: State, d: nat, eu: User, fails: nat -> bool, c: nat)
    requires Valid(g, s) && d < |g|
  {
    |Entered(g, s, d, eu, fails, c)| < |VisitsOne(g, Passing(s, eu), d)|
  }

  /** A fix marks the devices it enters, the attachments with the suffixed text. */
  ghost function AfterFix(g: Graph, s: State, d: nat, reason: string, eu: User, fails: nat -> bool, c: nat): State
    requires Valid(g, s) && d < |g|
  {
    var entered, text := Entered(g, s, d, eu, fails, c), Reason(reason, eu);
    if entered == [] then s
    else Mark(Mark(s, SetOf(entered[1..]), WithSuffix(text, eu), Some(eu)), {d}, text, Some(eu))
  }

  ghost function AfterRelease(g: Graph, s: State, d: nat, eu: User): State
    requires Valid(g, s) && d < |g|
  {
    Mark(s, SetOf(DevIterOne(g, Passing(s, eu), d)), "", None)
  }

  lemma BelowIsKnown(g: Graph, d: nat)
    requires CreatedInOrder(g) && d < |g|
    ensures Known(g, g[d])
  {
  }

  class Devices {
    const g: Graph
    var fixed: seq<string>
    var fixedby: seq<Option<User>>
    var hw: seq<seq<real>>

    ghost function Now(): State
      reads this
    {
      State(fixed, fixedby, hw)
    }

    constructor (g: Graph)
      requires CreatedInOrder(g)
      ensures this.g == g && Valid(g, Now()) && Inv(Now())
    {
      this.g := g;
      fixed, fixedby, hw := seq(|g|, _ => ""), seq(|g|, _ => None), seq(|g|, _ => []);
    }

    /** Returns whether it raised, otherwise whether the user was allowed, and the
        number of the next status call. */
    method Fix(d: nat, reason: string, eu: User, fails: nat -> bool, c: nat) returns (raised: bool, ok: bool, next: nat)
      requires Valid(g, Now()) && d < |g|
      modifies this
      ensures Valid(g, Now())
      ensures Now() == AfterFix(g, old(Now()), d, reason, eu, fails, c)
      ensures raised <==> Raises(g, old(Now()), d, eu, fails, c)
      ensures !raised ==> (ok <==> MayChange(old(fixedby[d]), eu))
      ensures next == c + |Entered(g, old(Now()), d, eu, fails, c)| + if raised then 1 else 0
      decreases d, 1
    {
      hide Entered, Raises, AfterFix, Mark, Passing, Visits, VisitsOne, SetOf, Until, MayChange;
      ghost var s := Now();
      FixNotEntered(g, s, d, reason, eu, fails, c);
      if fixedby[d].Some? && !(eu.level >= fixedby[d].value.level) {
        return false, false, c;
      }
      if fails(c) {
        return true, false, c + 1;
      }
      var text := if reason != "" then WithSuffix(reason, eu) else "fixed by '" + eu.name + "'";
      FixFromBelow(g, s, d, reason, eu, fails, c);
      MarkOne(s, d, text, Some(eu));
      fixed, fixedby := fixed[d := text], fixedby[d := Some(eu)];
      assert Now() == Mark(s, {d}, text, Some(eu));
      raised, next := DoFix(d, text, eu, fails, c + 1);
      ok := true;
    }

    method DoFix(d: nat, reason: string, eu: User, fails: nat -> bool, c: nat) returns (raised: bool, next: nat)
      requires Valid(g, Now()) && d < |g| && reason != ""
      modifies this
      ensures Known(g, g[d]) && Valid(g, Now())
      ensures
        var v := Visits(g, Passing(old(Now()), eu), g[d]);
        var k := Until(fails, c, |v|);
        && Now() == Mark(old(Now()), SetOf(v[..k]), WithSuffix(reason, eu), Some(eu))
        && (raised <==> k < |v|)
        && next == c + k + if raised then 1 else 0
      decreases d, 0
    {
      hide Entered, Raises, AfterFix, Mark, Passing, Visits, VisitsOne, SetOf, Until, MayChange;
      ghost var s, p := Now(), Passing(Now(), eu);
      ghost var text := WithSuffix(reason, eu);
      BelowIsKnown(g, d);
      ghost var v := Visits(g, p, g[d]);
      ghost var done: seq<nat> := [];
      raised, next := false, c;
      NothingDone(g, s, g[d], text, eu, fails, c);
      for k := 0 to |g[d]|
        invariant Valid(g, Now()) && !raised
        invariant Progress(g, s, g[d], k, eu, fails, c, done)
        invariant next == c + |done|
        invariant Now() == Mark(s, SetOf(done), text, Some(eu))
      {
        ghost var entered := Entered(g, Now(), g[d][k], eu, fails, next);
        ChildStep(g, s, Now(), g[d], k, reason, eu, fails, c, done);
        var ok;
        raised, ok, next := Fix(g[d][k], reason, eu, fails, next);
        done := done + entered;
        if raised {
          break;
        }
      }
      if !raised {
        AllDone(g, s, g[d], eu, fails, c, done);
      }
    }

    method Release(d: nat, eu: User) returns (ok: bool)
      requires Valid(g, Now()) && d < |g|
      modifies this
      ensures ok <==> MayChange(old(fixedby[d]), eu)
      ensures Now() == AfterRelease(g, old(Now()), d, eu)
      decreases d, 1
    {
      ghost var s := Now();
      if fixedby[d].Some? && !(eu.level >= fixedby[d].value.level) {
        assert SetOf(DevIterOne(g, Passing(s, eu), d)) == {};
        return false;
      }
      DoRelease(d, eu);
      BelowIsKnown(g, d);
      ghost var below := DevIter(g, Passing(s, eu), g[d]);
      assert SetOf(below) + {d} == SetOf(DevIterOne(g, Passing(s, eu), d));
      MarkTwice(s, SetOf(below), {d}, "", None);
      fixed, fixedby := fixed[d := ""], fixedby[d := None];
      ok := true;
    }

    method DoRelease(d: nat, eu: User)
      requires Valid(g, Now()) && d < |g|
      modifies this
      ensures Known(g, g[d])
      ensures Now() == Mark(old(Now()), SetOf(DevIter(g, Passing(old(Now()), eu), g[d])), "", None)
      decreases d, 0
    {
      ghost var s, p := Now(), Passing(Now(), eu);
      BelowIsKnown(g, d);
      assert Now() == Mark(s, SetOf(DevIter(g, p, g[d][..0])), "", None);
      for k := 0 to |g[d]|
        invariant Valid(g, Now()) && Known(g, g[d][..k])
        invariant Now() == Mark(s, SetOf(DevIter(g, p, g[d][..k])), "", None)
      {
        ghost var done := DevIter(g, p, g[d][..k]);
        YieldedAreMembers(g, p, g[d][..k]);
        PassingKept(s, SetOf(done), "", None, eu);
        var child := g[d][k];
        var _ := Release(child, eu);
        assert g[d][..k + 1] == g[d][..k] + [child];
        DevIterSnoc(g, p, g[d][..k], child);
        assert SetOf(DevIter(g, p, g[d][..k + 1])) == SetOf(done) + SetOf(DevIterOne(g, p, child));
        MarkTwice(s, SetOf(done), SetOf(DevIterOne(g, p, child)), "", None);
      }
      assert g[d][..|g[d]|] == g[d];
    }

    /** `start`; `accepted` says whether the checks after the one for `fixed` pass. */
    method Start(d: nat, pos: real, accepted: bool)
      requires Valid(g, Now()) && d < |g|
      modifies this`hw
      ensures Now() == Apply(g, old(Now()), Op.Start(d, pos, accepted))
    {
      if fixed[d] != "" {
        return;
      }
      if accepted {
        hw := hw[d := hw[d] + [pos]];
      }
    }
  }

  // ---- Marks ----

  lemma PassingKept(s: State, who: set<nat>, text: string, holder: Option<User>, eu: User)
    requires who <= Passing(s, eu) && (holder.None? || holder == Some(eu))
    ensures Passing(Mark(s, who, text, holder), eu) == Passing(s, eu)
  {
  }

  lemma MarkTwice(s: State, a: set<nat>, b: set<nat>, text: string, holder: Option<User>)
    ensures Mark(Mark(s, a, text, holder), b, text, holder) == Mark(s, a + b, text, holder)
  {
  }

  lemma MarksCommute(s: State, a: set<nat>, b: set<nat>, text: string, other: string, holder: Option<User>)
    requires a !! b
    ensures Mark(Mark(s, a, text, holder), b, other, holder) == Mark(Mark(s, b, other, holder), a, text, holder)
  {
  }

  /** A fix with a reason gives every device it marks the same text. */
  lemma FixIsOneMark(g: Graph, s: State, d: nat, reason: string, eu: User, fails: nat -> bool, c: nat)
    requires Valid(g, s) && d < |g| && reason != ""
    ensures AfterFix(g, s, d, reason, eu, fails, c)
      == Mark(s, SetOf(Entered(g, s, d, eu, fails, c)), WithSuffix(reason, eu), Some(eu))
  {
    var entered, text := Entered(g, s, d, eu, fails, c), WithSuffix(reason, eu);
    SuffixOnce(reason, eu);
    if entered == [] {
      assert Mark(s, {}, text, Some(eu)) == s;
    } else {
      assert entered[0] == d && entered == [d] + entered[1..];
      assert SetOf(entered[1..]) + {d} == SetOf(entered);
      MarkTwice(s, SetOf(entered[1..]), {d}, text, Some(eu));
    }
  }

  lemma MarkOne(s: State, d: nat, text: string, holder: Option<User>)
    requires d < |s.fixed| == |s.fixedby|
    ensures Mark(s, {d}, text, holder) == s.(fixed := s.fixed[d := text], fixedby := s.fixedby[d := holder])
  {
  }

  /** A fix that is refused, or whose own status call raises. */
  lemma FixNotEntered(g: Graph, s: State, d: nat, reason: string, eu: User, fails: nat -> bool, c: nat)
    requires Valid(g, s) && d < |g|
    ensures
      !MayChange(s.fixedby[d], eu) || fails(c) ==>
        && Entered(g, s, d, eu, fails, c) == [] && AfterFix(g, s, d, reason, eu, fails, c) == s
        && (Raises(g, s, d, eu, fails, c) <==> MayChange(s.fixedby[d], eu))
    ensures !(s.fixedby[d].Some? && !(eu.level >= s.fixedby[d].value.level)) <==> MayChange(s.fixedby[d], eu)
  {
    if !MayChange(s.fixedby[d], eu) {
      assert VisitsOne(g, Passing(s, eu), d) == [];
    } else {
      assert VisitsOne(g, Passing(s, eu), d) != [];
    }
  }

  /** Any other fix: the device itself, then what fixing its attachments enters. */
  lemma FixFromBelow(g: Graph, s: State, d: nat, reason: string, eu: User, fails: nat -> bool, c: nat)
    requires Valid(g, s) && d < |g| && MayChange(s.fixedby[d], eu) && !fails(c)
    ensures Known(g, g[d])
    ensures
      var text, t := Reason(reason, eu), Mark(s, {d}, Reason(reason, eu), Some(eu));
      var below := Visits(g, Passing(t, eu), g[d]);
      var k := Until(fails, c + 1, |below|);
      && Valid(g, t)
      && |Entered(g, s, d, eu, fails, c)| == 1 + k
      && AfterFix(g, s, d, reason, eu, fails, c) == Mark(t, SetOf(below[..k]), WithSuffix(text, eu), Some(eu))
      && (Raises(g, s, d, eu, fails, c) <==> k < |below|)
  {
    BelowIsKnown(g, d);
    var text := Reason(reason, eu);
    var p := Passing(s, eu);
    PassingKept(s, {d}, text, Some(eu), eu);
    var below := Visits(g, p, g[d]);
    var k := Until(fails, c + 1, |below|);
    assert VisitsOne(g, p, d) == [d] + below;
    var entered := Entered(g, s, d, eu, fails, c);
    assert entered == [d] + below[..k];
    assert entered[1..] == below[..k];
    VisitsBelow(g, p, g[d], d);
    hide Visits, VisitsOne, Entered, Passing;
    assert forall e :: e in below[..k] ==> e in below;
    assert d !in SetOf(below[..k]);
    MarksCommute(s, SetOf(below[..k]), {d}, WithSuffix(text, eu), text, Some(eu));
  }

  // ---- The loop over the attachments ----

  /** The visits done when the first `k` devices are fixed and no call has raised. */
  ghost predicate Progress(
    g: Graph, s: State, ds: seq<nat>, k: nat, eu: User, fails: nat -> bool, c: nat, done: seq<nat>)
    requires Valid(g, s) && Known(g, ds) && k <= |ds|
  {
    && Known(g, ds[..k])
    && done == Visits(g, Passing(s, eu), ds[..k])
    && Until(fails, c, |done|) == |done|
  }

  lemma NothingDone(g: Graph, s: State, ds: seq<nat>, text: string, eu: User, fails: nat -> bool, c: nat)
    requires Valid(g, s) && Known(g, ds)
    ensures Progress(g, s, ds, 0, eu, fails, c, [])
    ensures Mark(s, SetOf([]), text, Some(eu)) == s
  {
  }

  lemma AllDone(g: Graph, s: State, ds: seq<nat>, eu: User, fails: nat -> bool, c: nat, done: seq<nat>)
    requires Valid(g, s) && Known(g, ds) && Progress(g, s, ds, |ds|, eu, fails, c, done)
    ensures
      var v := Visits(g, Passing(s, eu), ds);
      done == v && Until(fails, c, |v|) == |v| && v[..|v|] == v
  {
    assert ds[..|ds|] == ds;
  }

  /** Fixing the next device. */
  lemma ChildStep(
    g: Graph, s: State, before: State, ds: seq<nat>, k: nat, reason: string, eu: User, fails: nat -> bool,
    c: nat, done: seq<nat>)
    requires Valid(g, s) && Valid(g, before) && Known(g, ds) && k < |ds| && reason != ""
    requires Progress(g, s, ds, k, eu, fails, c, done)
    requires before == Mark(s, SetOf(done), WithSuffix(reason, eu), Some(eu))
    ensures
      var d, v := ds[k], Visits(g, Passing(s, eu), ds);
      var all := done + Entered(g, before, d, eu, fails, c + |done|);
      && AfterFix(g, before, d, reason, eu, fails, c + |done|) == Mark(s, SetOf(all), WithSuffix(reason, eu), Some(eu))
      && (if Raises(g, before, d, eu, fails, c + |done|)
          then |all| < |v| && Until(fails, c, |v|) == |all| && v[..|all|] == all
          else Progress(g, s, ds, k + 1, eu, fails, c, all))
  {
    hide AfterFix, Mark, SetOf, WithSuffix, Visits, VisitsOne, Passing, Raises, Until;
    ChildState(g, s, before, ds, k, reason, eu, fails, c, done);
    ChildCalls(g, s, before, ds, k, eu, fails, c, done);
  }

  lemma ChildPassing(g: Graph, s: State, before: State, ds: seq<nat>, k: nat, text: string, eu: User, done: seq<nat>)
    requires Valid(g, s) && Known(g, ds) && k < |ds| && Known(g, ds[..k])
    requires done == Visits(g, Passing(s, eu), ds[..k]) && before == Mark(s, SetOf(done), text, Some(eu))
    ensures Passing(before, eu) == Passing(s, eu)
  {
    hide Mark, SetOf, Passing, Visits;
    VisitsArePassing(g, Passing(s, eu), ds[..k]);
    PassingKept(s, SetOf(done), text, Some(eu), eu);
  }

  lemma ChildState(
    g: Graph, s: State, before: State, ds: seq<nat>, k: nat, reason: string, eu: User, fails: nat -> bool,
    c: nat, done: seq<nat>)
    requires Valid(g, s) && Valid(g, before) && Known(g, ds) && k < |ds| && reason != ""
    requires Progress(g, s, ds, k, eu, fails, c, done)
    requires before == Mark(s, SetOf(done), WithSuffix(reason, eu), Some(eu))
    ensures AfterFix(g, before, ds[k], reason, eu, fails, c + |done|)
      == Mark(s, SetOf(done + Entered(g, before, ds[k], eu, fails, c + |done|)), WithSuffix(reason, eu), Some(eu))
  {
    hide AfterFix, Mark, SetOf, WithSuffix, Entered, Visits, Passing;
    var entered := Entered(g, before, ds[k], eu, fails, c + |done|);
    FixIsOneMark(g, before, ds[k], reason, eu, fails, c + |done|);
    MarkTwice(s, SetOf(done), SetOf(entered), WithSuffix(reason, eu), Some(eu));
    SetOfSum(done, entered);
  }

  lemma ChildCalls(
    g: Graph, s: State, before: State, ds: seq<nat>, k: nat, eu: User, fails: nat -> bool, c: nat, done: seq<nat>)
    requires Valid(g, s) && Valid(g, before) && Known(g, ds) && k < |ds|
    requires Progress(g, s, ds, k, eu, fails, c, done)
    requires exists text :: before == Mark(s, SetOf(done), text, Some(eu))
    ensures
      var d, v := ds[k], Visits(g, Passing(s, eu), ds);
      var all := done + Entered(g, before, d, eu, fails, c + |done|);
      if Raises(g, before, d, eu, fails, c + |done|)
      then |all| < |v| && Until(fails, c, |v|) == |all| && v[..|all|] == all
      else Progress(g, s, ds, k + 1, eu, fails, c, all)
  {
    hide Mark, SetOf, Visits, VisitsOne, Passing, Until;
    var text :| before == Mark(s, SetOf(done), text, Some(eu));
    ChildPassing(g, s, before, ds, k, text, eu, done);
    var p := Passing(s, eu);
    VisitsSplit(g, p, ds, k);
    var v, one := Visits(g, p, ds), VisitsOne(g, p, ds[k]);
    var n := Until(fails, c + |done|, |one|);
    CallsAdd(fails, c, v, done, one);
    assert Entered(g, before, ds[k], eu, fails, c + |done|) == one[..n];
    assert Raises(g, before, ds[k], eu, fails, c + |done|) <==> n < |one|;
  }

  lemma SetOfSum(a: seq<nat>, b: seq<nat>)
    ensures SetOf(a) + SetOf(b) == SetOf(a + b)
  {
  }

  /** The calls for the visits `v`, which begin with `done` and `one`. */
  lemma CallsAdd(fails: nat -> bool, c: nat, v: seq<nat>, done: seq<nat>, one: seq<nat>)
    requires done + one <= v && Until(fails, c, |done|) == |done|
    ensures
      var n := Until(fails, c + |done|, |one|);
      var all := done + one[..n];
      && (n < |one| ==> |all| < |v| && Until(fails, c, |v|) == |all| && v[..|all|] == all)
      && (n == |one| ==> all == done + one && Until(fails, c, |all|) == |all|)
  {
    hide Until;
    var n := Until(fails, c + |done|, |one|);
    CallsCount(fails, c, |done|, |one|, |v|);
    PrefixPart(v, done, one, n);
    if n == |one| {
      assert one[..n] == one;
    }
  }

  lemma CallsCount(fails: nat -> bool, c: nat, m: nat, l: nat, all: nat)
    requires m + l <= all && Until(fails, c, m) == m
    ensures
      var n := Until(fails, c + m, l);
      (n < l ==> Until(fails, c, all) == m + n) && (n == l ==> Until(fails, c, m + l) == m + l)
  {
    UntilAdds(fails, c, m, l);
    UntilAdds(fails, c, m + l, all - (m + l));
    hide Until;
  }

  lemma PrefixPart(v: seq<nat>, a: seq<nat>, b: seq<nat>, n: nat)
    requires a + b <= v && n <= |b|
    ensures v[..|a| + n] == a + b[..n]
  {
    assert (a + b)[..|a| + n] == a + b[..n];
    assert v[..|a| + n] == (a + b)[..|a| + n];
  }

  lemma {:induction false} UntilAdds(fails: nat -> bool, c: nat, m: nat, n: nat)
    ensures Until(fails, c, m + n) ==
      if Until(fails, c, m) < m then Until(fails, c, m) else m + Until(fails, c + m, n)
    decreases m
  {
    if m > 0 && !fails(c) {
      UntilAdds(fails, c + 1, m - 1, n);
      assert c + 1 + (m - 1) == c + m && m - 1 + n == m + n - 1;
    }
  }

  lemma {:induction false} VisitsConcat(g: Graph, members: set<nat>, a: seq<nat>, b: seq<nat>)
    requires CreatedInOrder(g) && Known(g, a) && Known(g, b)
    ensures Known(g, a + b) && Visits(g, members, a + b) == Visits(g, members, a) + Visits(g, members, b)
    decreases |a|
  {
    if a == [] {
      assert a + b == b;
    } else {
      hide VisitsOne;
      assert (a + b)[1..] == a[1..] + b && (a + b)[0] == a[0];
      VisitsConcat(g, members, a[1..], b);
      assert VisitsOne(g, members, a[0]) + (Visits(g, members, a[1..]) + Visits(g, members, b))
          == VisitsOne(g, members, a[0]) + Visits(g, members, a[1..]) + Visits(g, members, b);
    }
  }

  /** The visits of the first `k` devices, of the next one, and of the rest. */
  lemma VisitsSplit(g: Graph, members: set<nat>, ds: seq<nat>, k: nat)
    requires CreatedInOrder(g) && Known(g, ds) && k < |ds|
    ensures Known(g, ds[..k]) && Known(g, ds[..k + 1])
    ensures Visits(g, members, ds[..k + 1]) == Visits(g, members, ds[..k]) + VisitsOne(g, members, ds[k])
    ensures Visits(g, members, ds[..k + 1]) <= Visits(g, members, ds)
  {
    var one := [ds[k]];
    assert ds[..k + 1] == ds[..k] + one && ds == ds[..k + 1] + ds[k + 1..];
    VisitsConcat(g, members, ds[..k], one);
    VisitsConcat(g, members, ds[..k + 1], ds[k + 1..]);
    assert one[1..] == [] && Visits(g, members, one) == VisitsOne(g, members, ds[k]) + [];
  }

  /** A fix enters the devices that `devIter` would yield. */
  lemma {:induction false} VisitsAreYielded(g: Graph, members: set<nat>, ds: seq<nat>, e: nat)
    requires CreatedInOrder(g) && Known(g, ds)
    ensures e in Visits(g, members, ds) <==> e in DevIter(g, members, ds)
    decreases Bound(ds), |ds|
  {
    if ds != [] {
      var d := ds[0];
      VisitsAreYielded(g, members, ds[1..], e);
      if d in members {
        BoundBelow(g[d], d);
        VisitsAreYielded(g, members, g[d], e);
      }
      assert e in DevIterOne(g, members, d) <==> e in VisitsOne(g, members, d);
      assert Visits(g, members, ds) == VisitsOne(g, members, d) + Visits(g, members, ds[1..]);
      assert DevIter(g, members, ds) == DevIterOne(g, members, d) + DevIter(g, members, ds[1..]);
    }
  }

  lemma VisitsArePassing(g: Graph, members: set<nat>, ds: seq<nat>)
    requires CreatedInOrder(g) && Known(g, ds)
    ensures SetOf(Visits(g, members, ds)) <= members
  {
    forall e | e in Visits(g, members, ds) ensures e in members {
      VisitsAreYielded(g, members, ds, e);
      YieldedAreMembers(g, members, ds);
    }
  }

  lemma VisitsBelow(g: Graph, members: set<nat>, ds: seq<nat>, d: nat)
    requires CreatedInOrder(g) && Known(g, ds)
    requires forall i :: 0 <= i < |ds| ==> ds[i] < d
    ensures forall e :: e in Visits(g, members, ds) ==> e < d
  {
    BelowIsBelow(g, members, ds, d);
    forall e | e in Visits(g, members, ds) ensures e < d {
      VisitsAreYielded(g, members, ds, e);
    }
  }

  lemma {:induction false} DevIterSnoc(g: Graph, members: set<nat>, ds: seq<nat>, d: nat)
    requires CreatedInOrder(g) && Known(g, ds) && d < |g|
    ensures Known(g, ds + [d])
    ensures DevIter(g, members, ds + [d]) == DevIter(g, members, ds) + DevIterOne(g, members, d)
    decreases |ds|
  {
    if ds == [] {
      assert [d][1..] == [];
    } else {
      assert (ds + [d])[1..] == ds[1..] + [d];
      DevIterSnoc(g, members, ds[1..], d);
    }
  }

  lemma {:induction false} BelowIsBelow(g: Graph, members: set<nat>, ds: seq<nat>, d: nat)
    requires CreatedInOrder(g) && Known(g, ds)
    requires forall i :: 0 <= i < |ds| ==> ds[i] < d
    ensures forall e :: e in DevIter(g, members, ds) ==> e < d
    decreases Bound(ds), |ds|
  {
    if ds != [] {
      BoundBelow(g[ds[0]], ds[0]);
      BelowIsBelow(g, members, g[ds[0]], ds[0]);
      BelowIsBelow(g, members, ds[1..], d);
      forall e | e in DevIter(g, members, ds) ensures e < d {
        assert e in DevIterOne(g, members, ds[0]) + DevIter(g, members, ds[1..]);
        if e in DevIterOne(g, members, ds[0]) {
          assert ds[0] in members && e in DevIter(g, members, g[ds[0]]) + [ds[0]];
        } else {
          assert e in DevIter(g, members, ds[1..]);
        }
      }
    }
  }

  // ---- Runs ----

  datatype Op =
    | Fix(d: nat, reason: string, eu: User, fails: nat -> bool)
    | Release(d: nat, eu: User)
    | Start(d: nat, pos: real, accepted: bool)

  ghost function Apply(g: Graph, s: State, op: Op): (r: State)
    requires Valid(g, s)
    ensures Valid(g, r)
  {
    if op.d >= |g| then s
    else
      match op
      case Fix(d, reason, eu, fails) => AfterFix(g, s, d, reason, eu, fails, 0)
      case Release(d, eu) => AfterRelease(g, s, d, eu)
      case Start(d, pos, accepted) =>
        if s.fixed[d] == "" && accepted then s.(hw := s.hw[d := s.hw[d] + [pos]]) else s
  }

  ghost function Run(g: Graph, s: State, ops: seq<Op>): (r: State)
    requires Valid(g, s)
    ensures Valid(g, r)
  {
    if ops == [] then s else Apply(g, Run(g, s, ops[..|ops| - 1]), ops[|ops| - 1])
  }

  /** A device has a text exactly if it was fixed by somebody. */
  ghost predicate Inv(s: State) {
    |s.fixed| == |s.fixedby| && forall e :: 0 <= e < |s.fixed| ==> (s.fixed[e] != "" <==> s.fixedby[e].Some?)
  }

  lemma {:induction false} RunKeepsInv(g: Graph, s: State, ops: seq<Op>)
    requires Valid(g, s) && Inv(s)
    ensures Inv(Run(g, s, ops))
  {
    if ops != [] {
      RunKeepsInv(g, s, ops[..|ops| - 1]);
    }
  }

  /** The devices a fix marks: those it enters before a status call raises. */
  ghost function Marked(g: Graph, s: State, d: nat, eu: User, fails: nat -> bool, c: nat): set<nat>
    requires Valid(g, s) && d < |g|
  {
    SetOf(Entered(g, s, d, eu, fails, c))
  }

  /** What a fix changes: the marked devices are now fixed by the user, nothing else. */
  lemma FixReaches(g: Graph, s: State, d: nat, reason: string, eu: User, fails: nat -> bool, c: nat, e: nat)
    requires Valid(g, s) && d < |g| && e < |g|
    ensures
      var t := AfterFix(g, s, d, reason, eu, fails, c);
      if e in Marked(g, s, d, eu, fails, c)
      then t.fixedby[e] == Some(eu) && t.fixed[e] != ""
      else t.fixedby[e] == s.fixedby[e] && t.fixed[e] == s.fixed[e]
    ensures e in Marked(g, s, d, eu, fails, c) ==> Reachable(g, Passing(s, eu), [d], e)
  {
    VisitedIffReachable(g, Passing(s, eu), d, e);
    var entered := Entered(g, s, d, eu, fails, c);
    if entered != [] {
      assert entered[0] == d && entered == [d] + entered[1..];
      assert e in entered <==> e == d || e in entered[1..];
    }
  }

  /** The texts: the device itself gets the given reason, ending in the note who fixed
      it, which is not added twice; its attachments get the same text. */
  lemma FixTexts(g: Graph, s: State, d: nat, reason: string, eu: User, fails: nat -> bool, c: nat, e: nat)
    requires Valid(g, s) && d < |g| && e < |g| && e in Marked(g, s, d, eu, fails, c)
    ensures
      var t, note := AfterFix(g, s, d, reason, eu, fails, c), " (fixed by '" + eu.name + "')";
      && (reason != "" ==>
            && t.fixed[e] == t.fixed[d] && reason <= t.fixed[d] && EndsWith(t.fixed[d], note)
            && (t.fixed[d] == reason <==> EndsWith(reason, note)))
      && (reason == "" && e == d ==> t.fixed[d] == "fixed by '" + eu.name + "'")
      && (e != d ==> EndsWith(t.fixed[e], note))
  {
    var entered, text := Entered(g, s, d, eu, fails, c), Reason(reason, eu);
    EndsInNote(text, eu);
    EndsInNote(reason, eu);
    assert entered[0] == d && entered == [d] + entered[1..];
    assert e in entered <==> e == d || e in entered[1..];
    SuffixOnce(reason, eu);
    hide Entered, WithSuffix, EndsWith, Passing;
  }

  lemma EndsInNote(text: string, eu: User)
    ensures text <= WithSuffix(text, eu) && EndsWith(WithSuffix(text, eu), Suffix(eu))
    ensures WithSuffix(text, eu) == text <==> EndsWith(text, Suffix(eu))
  {
    var long := text + Suffix(eu);
    assert long[|long| - |Suffix(eu)|..] == Suffix(eu);
  }

  /** A start gives its target to the hardware exactly if nobody has fixed the
      device and the other checks pass; it changes nothing else. */
  lemma FreeIsStarted(g: Graph, s: State, d: nat, pos: real, accepted: bool)
    requires Valid(g, s) && Inv(s) && d < |g|
    ensures
      var t := Apply(g, s, Op.Start(d, pos, accepted));
      && (t.hw[d] == s.hw[d] + [pos] <==> s.fixedby[d].None? && accepted)
      && (t.hw[d] == s.hw[d] <==> !(s.fixedby[d].None? && accepted))
      && t.fixed == s.fixed && t.fixedby == s.fixedby && forall e :: 0 <= e < |g| && e != d ==> t.hw[e] == s.hw[e]
  {
    assert |s.hw[d] + [pos]| == |s.hw[d]| + 1;
  }

  lemma VisitedIffReachable(g: Graph, members: set<nat>, d: nat, e: nat)
    requires CreatedInOrder(g) && d < |g|
    ensures e in VisitsOne(g, members, d) <==> Reachable(g, members, [d], e)
  {
    var one := [d];
    assert one[1..] == [] && Visits(g, members, one) == VisitsOne(g, members, d) + [];
    VisitsAreYielded(g, members, one, e);
    DevIterIsReachability(g, members, one, e);
  }

  /** The exact extent of a fix: it marks every device reachable through devices
      the user may change exactly if the devices it does not enter any more were
      all entered before. */
  lemma FixesAllIff(g: Graph, s: State, d: nat, eu: User, fails: nat -> bool, c: nat)
    requires Valid(g, s) && d < |g|
    ensures
      var v, k := VisitsOne(g, Passing(s, eu), d), |Entered(g, s, d, eu, fails, c)|;
      (forall e: nat :: Reachable(g, Passing(s, eu), [d], e) ==> e in Marked(g, s, d, eu, fails, c))
      <==> SetOf(v[k..]) <= Marked(g, s, d, eu, fails, c)
  {
    var v, entered := VisitsOne(g, Passing(s, eu), d), Entered(g, s, d, eu, fails, c);
    assert v == entered + v[|entered|..];
    forall e: nat ensures e in v <==> Reachable(g, Passing(s, eu), [d], e) {
      VisitedIffReachable(g, Passing(s, eu), d, e);
    }
    forall e: nat | e in v[|entered|..] ensures e in v {
    }
  }

  ghost predicate FailsFor(v: seq<nat>, fails: nat -> bool, c: nat, bad: set<nat>) {
    forall j :: 0 <= j < |v| ==> (fails(c + j) <==> v[j] in bad)
  }

  /** If the status calls fail for the devices `bad` and no others, a fix raises
      exactly if it can reach such a device, and then it does not mark all. */
  lemma BadStatusStopsFix(g: Graph, s: State, d: nat, eu: User, fails: nat -> bool, c: nat, bad: set<nat>)
    requires Valid(g, s) && d < |g|
    requires FailsFor(VisitsOne(g, Passing(s, eu), d), fails, c, bad)
    ensures
      var p := Passing(s, eu);
      && (Raises(g, s, d, eu, fails, c) <==> exists e: nat :: Reachable(g, p, [d], e) && e in bad)
      && ((forall e: nat :: Reachable(g, p, [d], e) ==> e in Marked(g, s, d, eu, fails, c))
          <==> forall e: nat :: Reachable(g, p, [d], e) ==> e !in bad)
  {
    var p := Passing(s, eu);
    var v, marked := VisitsOne(g, p, d), Marked(g, s, d, eu, fails, c);
    BadOnVisits(v, fails, c, bad);
    forall e: nat ensures e in v <==> Reachable(g, p, [d], e) {
      VisitedIffReachable(g, p, d, e);
    }
    assert marked == SetOf(v[..Until(fails, c, |v|)]);
    assert Raises(g, s, d, eu, fails, c) <==> Until(fails, c, |v|) < |v|;
    hide Passing, VisitsOne, Marked, Raises, Reachable, Until, SetOf, FailsFor;
  }

  lemma BadOnVisits(v: seq<nat>, fails: nat -> bool, c: nat, bad: set<nat>)
    requires FailsFor(v, fails, c, bad)
    ensures
      var k := Until(fails, c, |v|);
      && (k < |v| <==> exists e: nat :: e in v && e in bad)
      && ((forall e: nat :: e in v ==> e in SetOf(v[..k])) <==> forall e: nat :: e in v ==> e !in bad)
  {
    var k := Until(fails, c, |v|);
    forall j | 0 <= j < k ensures v[j] !in bad {
      assert !fails(c + j);
    }
    if k < |v| {
      assert fails(c + k);
      assert v[k] in bad && v[k] in v && v[k] !in v[..k];
    } else {
      assert v[..k] == v;
    }
  }

  lemma ReleaseReaches(g: Graph, s: State, d: nat, eu: User, e: nat)
    requires Valid(g, s) && d < |g| && e < |g|
    ensures
      var t := AfterRelease(g, s, d, eu);
      if Reachable(g, Passing(s, eu), [d], e)
      then t.fixedby[e] == None && t.fixed[e] == ""
      else t.fixedby[e] == s.fixedby[e] && t.fixed[e] == s.fixed[e]
  {
    DevIterIsReachability(g, Passing(s, eu), [d], e);
    OneIsSingleton(g, Passing(s, eu), d);
  }

  lemma OneIsSingleton(g: Graph, members: set<nat>, d: nat)
    requires CreatedInOrder(g) && d < |g|
    ensures DevIter(g, members, [d]) == DevIterOne(g, members, d)
  {
    assert [d][1..] == [];
  }

  ghost function All(g: Graph): set<nat> {
    set e: nat {:trigger g[e]} | e < |g|
  }

  /** A user who may change everything reachable fixes everything reachable, exactly
      if no status call for a reachable device fails. */
  lemma PrivilegedFixReachesAll(g: Graph, s: State, d: nat, eu: User, fails: nat -> bool, c: nat, bad: set<nat>)
    requires Valid(g, s) && d < |g|
    requires forall e: nat :: e < |g| && Reachable(g, All(g), [d], e) ==> MayChange(s.fixedby[e], eu)
    requires FailsFor(VisitsOne(g, Passing(s, eu), d), fails, c, bad)
    ensures
      (forall e: nat :: Reachable(g, All(g), [d], e) ==> e in Marked(g, s, d, eu, fails, c))
      <==> forall e: nat :: Reachable(g, All(g), [d], e) ==> e !in bad
  {
    BadStatusStopsFix(g, s, d, eu, fails, c, bad);
    forall e: nat ensures Reachable(g, All(g), [d], e) <==> Reachable(g, Passing(s, eu), [d], e) {
      if Reachable(g, All(g), [d], e) {
        var path :| Path(g, All(g), [d], path) && path[|path| - 1] == e;
        forall i | 0 <= i < |path| ensures path[i] in Passing(s, eu) {
          PrefixIsPath(g, All(g), [d], path, i);
        }
        assert Path(g, Passing(s, eu), [d], path);
      }
      if Reachable(g, Passing(s, eu), [d], e) {
        var path :| Path(g, Passing(s, eu), [d], path) && path[|path| - 1] == e;
        forall i | 0 <= i < |path| ensures path[i] in All(g) {
          assert g[path[i]] == g[path[i]];
        }
        assert Path(g, All(g), [d], path);
      }
    }
  }

  lemma PrefixIsPath(g: Graph, members: set<nat>, ds: seq<nat>, path: seq<nat>, i: nat)
    requires Path(g, members, ds, path) && i < |path|
    ensures Reachable(g, members, ds, path[i])
  {
    var prefix := path[..i + 1];
    assert Path(g, members, ds, prefix);
    assert prefix[|prefix| - 1] == path[i];
  }

  /** An operation of somebody below the level; starts are open to everybody. */
  predicate Below(op: Op, level: int) {
    op.Start? || op.eu.level < level
  }

  /** Device `e` is fixed at the given level. */
  ghost predicate FixedAt(s: State, e: nat, level: int) {
    e < |s.fixed| == |s.fixedby| && s.fixed[e] != "" && s.fixedby[e].Some? && s.fixedby[e].value.level >= level
  }

  lemma LowerUserChangesNothing(g: Graph, s: State, op: Op, e: nat, level: int)
    requires Valid(g, s) && FixedAt(s, e, level) && Below(op, level)
    ensures
      var t := Apply(g, s, op);
      t.fixed[e] == s.fixed[e] && t.fixedby[e] == s.fixedby[e] && t.hw[e] == s.hw[e]
  {
    if op.d < |g| && !op.Start? {
      assert e !in Passing(s, op.eu);
      assert !Reachable(g, Passing(s, op.eu), [op.d], e);
      if op.Fix? {
        FixReaches(g, s, op.d, op.reason, op.eu, op.fails, 0, e);
      } else {
        ReleaseReaches(g, s, op.d, op.eu, e);
      }
    }
  }

  /** A device fixed at some level keeps its fix, and its hardware gets no target,
      whatever users below that level do to any devices. */
  lemma {:induction false} FixedStaysFixed(g: Graph, s: State, ops: seq<Op>, e: nat, level: int)
    requires Valid(g, s) && FixedAt(s, e, level)
    requires forall k :: 0 <= k < |ops| ==> Below(ops[k], level)
    ensures
      var t := Run(g, s, ops);
      t.fixed[e] == s.fixed[e] && t.fixedby[e] == s.fixedby[e] && t.hw[e] == s.hw[e]
  {
    if ops != [] {
      var n := |ops| - 1;
      FixedStaysFixed(g, s, ops[..n], e, level);
      LowerUserChangesNothing(g, Run(g, s, ops[..n]), ops[n], e, level);
    }
  }

  /** The level is exact: a user at or above it can release the device. */
  lemma LevelIsExact(g: Graph, s: State, e: nat, eu: User)
    requires Valid(g, s) && e < |g| && s.fixed[e] != "" && s.fixedby[e].Some?
    ensures AfterRelease(g, s, e, eu).fixed[e] == "" <==> eu.level >= s.fixedby[e].value.level
  {
    var p := Passing(s, eu);
    if eu.level >= s.fixedby[e].value.level {
      assert Path(g, p, [e], [e]);
    }
    ReleaseReaches(g, s, e, eu, e);
  }

  /** Releasing right after fixing gives back the old state exactly if nothing
      in reach had been fixed before. */
  lemma ReleaseUndoesFix(g: Graph, s: State, d: nat, reason: string, eu: User, fails: nat -> bool, c: nat)
    requires Valid(g, s) && d < |g| && MayChange(s.fixedby[d], eu)
    ensures
      AfterRelease(g, AfterFix(g, s, d, reason, eu, fails, c), d, eu) == s <==>
      forall e: nat :: e < |g| && Reachable(g, Passing(s, eu), [d], e) ==> s.fixed[e] == "" && s.fixedby[e] == None
  {
    var t := AfterFix(g, s, d, reason, eu, fails, c);
    var u := AfterRelease(g, t, d, eu);
    FixKeepsPassing(g, s, d, reason, eu, fails, c);
    forall e: nat | e < |g|
      ensures
        if Reachable(g, Passing(s, eu), [d], e) then u.fixed[e] == "" && u.fixedby[e] == None
        else u.fixed[e] == s.fixed[e] && u.fixedby[e] == s.fixedby[e]
    {
      FixReaches(g, s, d, reason, eu, fails, c, e);
      ReleaseReaches(g, t, d, eu, e);
    }
    hide AfterFix, AfterRelease, Reachable;
  }

  lemma FixKeepsPassing(g: Graph, s: State, d: nat, reason: string, eu: User, fails: nat -> bool, c: nat)
    requires Valid(g, s) && d < |g|
    ensures Passing(AfterFix(g, s, d, reason, eu, fails, c), eu) == Passing(s, eu)
  {
    var t := AfterFix(g, s, d, reason, eu, fails, c);
    forall e: nat | e < |g| ensures MayChange(t.fixedby[e], eu) <==> MayChange(s.fixedby[e], eu) {
      FixReaches(g, s, d, reason, eu, fails, c, e);
      if e in Marked(g, s, d, eu, fails, c) {
        var path :| Path(g, Passing(s, eu), [d], path) && path[|path| - 1] == e;
      }
    }
    hide AfterFix;
  }
}
