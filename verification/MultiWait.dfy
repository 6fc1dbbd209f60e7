/** `multiWait`, the loop that waits for several devices at once, and
    `_multiMethod`, which calls one method on several devices. */
module MultiWait {
  import opened Options
  import opened Severity
  import opened DeviceGraph
  import opened Traces

  // What one call of `isCompleted()` leads to.  A completed device has
  // `finish()` called, and is read if it was given explicitly.
  datatype Reading = Value(v: int) | Unreadable(exc: Exc)
  datatype Answer =
    | Busy
    | Completed(finishFails: Option<Exc>, reading: Reading)
    | Broken(exc: Exc)

  // The k-th poll of device d is answered by `answers(d, k)`.
  type Oracle = (nat, nat) -> Answer

  datatype Poll = Poll(dev: nat, answer: Answer)

  datatype Outcome =
    | Returned(values: map<nat, int>)
    | Raised(exc: Exc)        // the merged exception at the end of the wait
    | ReadRaised(exc: Exc)    // `dev.read()` of a completed device raised
    | Interrupted             // `estimateTime()` or `session.delay()` raised between two passes

  // ---- What a log of polls says ----

  type Log = Trace<Poll>

  function PollCount(log: Log, d: nat): nat {
    match log
    case Start => 0
    case Then(before, p) => PollCount(before, d) + if p.dev == d then 1 else 0
  }

  /** Every logged answer is the one the device gives at that poll. */
  ghost predicate Conforms(log: Log, answers: Oracle) {
    log.Then? ==>
      && Conforms(log.before, answers)
      && log.last.answer == answers(log.last.dev, PollCount(log.before, log.last.dev))
  }

  predicate Finishes(a: Answer) {
    a.Completed? && a.finishFails.None?
  }

  function FailureOf(a: Answer): Option<Exc> {
    match a
    case Busy => None
    case Completed(f, _) => f
    case Broken(e) => Some(e)
  }

  predicate ReadFails(p: Poll, devices: seq<nat>) {
    Finishes(p.answer) && p.dev in devices && p.answer.reading.Unreadable?
  }

  function ValuesAfter(p: Poll, devices: seq<nat>, values: map<nat, int>): map<nat, int> {
    if Finishes(p.answer) && p.dev in devices && p.answer.reading.Value?
    then values[p.dev := p.answer.reading.v] else values
  }

  function ExcAfter(p: Poll, finalExc: Option<Exc>): Option<Exc> {
    var f := FailureOf(p.answer);
    if f.Some? then Some(FilterExceptions(f.value, finalExc)) else finalExc
  }

  /** How often each device left the waiting list. */
  ghost function Ended(log: Log): multiset<nat> {
    match log
    case Start => multiset{}
    case Then(before, p) => Ended(before) + if p.answer.Busy? then multiset{} else multiset{p.dev}
  }

  /** The exceptions met while waiting, in order. */
  ghost function Failures(log: Log): seq<Exc> {
    match log
    case Start => []
    case Then(before, p) =>
      var f := FailureOf(p.answer);
      if f.None? then Failures(before) else Failures(before) + [f.value]
  }

  /** The values read from explicitly given devices when they were finished. */
  ghost function Readings(log: Log, devices: seq<nat>): map<nat, int> {
    match log
    case Start => map[]
    case Then(before, p) => ValuesAfter(p, devices, Readings(before, devices))
  }

  /** `final_exc` after the polls of the log. */
  ghost function Merged(log: Log): Option<Exc> {
    match log
    case Start => None
    case Then(before, p) => ExcAfter(p, Merged(before))
  }

  lemma {:induction false} MergedIsSurvivor(log: Log)
    ensures Merged(log) == Survivor(Failures(log))
  {
    if log.Then? {
      MergedIsSurvivor(log.before);
      var f := FailureOf(log.last.answer);
      if f.Some? {
        MergeStep(Failures(log.before), f.value);
      }
    }
  }

  /** Every read of a finished explicit device gave a value. */
  ghost predicate AllRead(log: Log, devices: seq<nat>) {
    log.Then? ==> AllRead(log.before, devices) && !ReadFails(log.last, devices)
  }

  /** The last logged poll finished an explicit device whose read raised `e`. */
  ghost predicate EndsInReadFailure(log: Log, devices: seq<nat>, e: Exc) {
    && log.Then?
    && AllRead(log.before, devices)
    && ReadFails(log.last, devices)
    && log.last.answer.reading == Unreadable(e)
  }

  lemma {:induction false} MergeStep(failures: seq<Exc>, e: Exc)
    ensures Survivor(failures + [e]) == Some(FilterExceptions(e, Survivor(failures)))
  {
    assert (failures + [e])[..|failures|] == failures;
  }

  /** Every ended explicit device whose finishing worked has a value. */
  lemma {:induction false} ReadingsCoverEnded(log: Log, devices: seq<nat>)
    requires Failures(log) == [] && AllRead(log, devices)
    ensures Readings(log, devices).Keys == set d | d in Ended(log) && d in devices
  {
    if log.Then? {
      ReadingsCoverEnded(log.before, devices);
    }
  }

  // ---- Termination: busy answers still to come ----

  /** From poll number `quiet(d)` on, device d no longer answers Busy. */
  ghost predicate QuietFrom(answers: Oracle, quiet: nat -> nat) {
    forall d: nat, k: nat :: quiet(d) <= k ==> !answers(d, k).Busy?
  }

  ghost function Remaining(log: Log, quiet: nat -> nat, ds: seq<nat>): nat {
    if ds == [] then 0
    else
      var d := ds[0];
      (if PollCount(log, d) < quiet(d) then quiet(d) - PollCount(log, d) else 0) + Remaining(log, quiet, ds[1..])
  }

  /** A poll never adds to the busy answers still to come, and a busy answer uses one up. */
  lemma {:induction false} RemainingStep(log: Log, p: Poll, quiet: nat -> nat, ds: seq<nat>)
    ensures Remaining(Then(log, p), quiet, ds) <= Remaining(log, quiet, ds)
    ensures p.dev in ds && PollCount(log, p.dev) < quiet(p.dev) ==>
      Remaining(Then(log, p), quiet, ds) < Remaining(log, quiet, ds)
  {
    if ds != [] {
      RemainingStep(log, p, quiet, ds[1..]);
    }
  }

  /** Every poll uses up one unit: a busy answer still to come, or a place on the waiting list. */
  ghost function Work(log: Log, quiet: nat -> nat, all: seq<nat>, devlist: seq<nat>): nat {
    Remaining(log, quiet, all) + |devlist|
  }

  // ---- The loops ----

  /** `list.remove`: drops the first occurrence. */
  function RemoveFirst(ds: seq<nat>, d: nat): (r: seq<nat>)
    requires d in ds
    ensures multiset(r) == multiset(ds) - multiset{d}
    ensures |r| == |ds| - 1
  {
    if ds[0] == d then
      assert ds == [d] + ds[1..];
      ds[1..]
    else
      assert ds == [ds[0]] + ds[1..];
      [ds[0]] + RemoveFirst(ds[1..], d)
  }

  /** The waiting list after the polls of the log: each answer other than busy takes
      the device off, the others keep their order. */
  ghost function Left(all: seq<nat>, log: Log): seq<nat> {
    match log
    case Start => all
    case Then(before, p) => if p.dev in Left(all, before) then ListAfter(p, Left(all, before)) else Left(all, before)
  }

  ghost predicate WaitState(
    answers: Oracle, devices: seq<nat>, all: seq<nat>, log: Log,
    devlist: seq<nat>, values: map<nat, int>, finalExc: Option<Exc>)
  {
    && Conforms(log, answers)
    && devlist == Left(all, log)
    && multiset(devlist) + Ended(log) == multiset(all)
    && values == Readings(log, devices)
    && finalExc == Merged(log)
    && AllRead(log, devices)
  }

  function ListAfter(p: Poll, devlist: seq<nat>): seq<nat>
    requires p.dev in devlist
  {
    if p.answer.Busy? then devlist else RemoveFirst(devlist, p.dev)
  }

  lemma Balance(devlist: seq<nat>, d: nat, ended: multiset<nat>)
    requires d in devlist
    ensures multiset(RemoveFirst(devlist, d)) + (ended + multiset{d}) == multiset(devlist) + ended
  {
  }

  lemma WaitStep(
    answers: Oracle, devices: seq<nat>, all: seq<nat>, log: Log, p: Poll,
    devlist: seq<nat>, values: map<nat, int>, finalExc: Option<Exc>)
    requires WaitState(answers, devices, all, log, devlist, values, finalExc)
    requires p.dev in devlist && p.answer == answers(p.dev, PollCount(log, p.dev))
    ensures !ReadFails(p, devices) ==>
      WaitState(answers, devices, all, Then(log, p),
        ListAfter(p, devlist), ValuesAfter(p, devices, values), ExcAfter(p, finalExc))
  {
    if p.answer.Busy? {
      assert Ended(Then(log, p)) == Ended(log);
    } else {
      Balance(devlist, p.dev, Ended(log));
    }
  }

  lemma OnTheList(devlist: seq<nat>, ended: multiset<nat>, all: seq<nat>, d: nat)
    requires multiset(devlist) + ended == multiset(all) && d in devlist
    ensures d in all
  {
    assert d in multiset(devlist) && d in multiset(all);
  }

  /** Polls one device of the waiting list and handles its answer. */
  method PollDevice(
    answers: Oracle, devices: seq<nat>, log: Log, dev: nat,
    devlist0: seq<nat>, values0: map<nat, int>, finalExc0: Option<Exc>)
    returns (p: Poll, devlist: seq<nat>, values: map<nat, int>, finalExc: Option<Exc>, escaped: Option<Exc>)
    requires dev in devlist0
    ensures p == Poll(dev, answers(dev, PollCount(log, dev)))
    ensures escaped == if ReadFails(p, devices) then Some(p.answer.reading.exc) else None
    ensures escaped.None? ==> devlist == ListAfter(p, devlist0)
    ensures values == ValuesAfter(p, devices, values0)
    ensures finalExc == ExcAfter(p, finalExc0)
  {
    p := Poll(dev, answers(dev, PollCount(log, dev)));
    devlist, values, finalExc, escaped := devlist0, values0, finalExc0, None;
    match p.answer {
      case Busy =>
        return;
      case Broken(exc) =>
        finalExc := Some(FilterExceptions(exc, finalExc));
      case Completed(Some(exc), _) =>
        finalExc := Some(FilterExceptions(exc, finalExc));
      case Completed(None, reading) =>
        if dev in devices {
          match reading {
            case Unreadable(e) =>
              escaped := Some(e);
              return;
            case Value(v) =>
              values := values[dev := v];
          }
        }
    }
    devlist := RemoveFirst(devlist, dev);
  }

  lemma WorkStep(answers: Oracle, log: Log, p: Poll, quiet: nat -> nat, all: seq<nat>, devlist: seq<nat>)
    requires QuietFrom(answers, quiet)
    requires p.dev in devlist && p.dev in all && p.answer == answers(p.dev, PollCount(log, p.dev))
    ensures Work(Then(log, p), quiet, all, ListAfter(p, devlist)) < Work(log, quiet, all, devlist)
  {
    RemainingStep(log, p, quiet, all);
  }

  lemma PollStep(
    answers: Oracle, quiet: nat -> nat, devices: seq<nat>, all: seq<nat>, log: Log, p: Poll,
    devlist: seq<nat>, values: map<nat, int>, finalExc: Option<Exc>)
    requires QuietFrom(answers, quiet)
    requires WaitState(answers, devices, all, log, devlist, values, finalExc)
    requires p.dev in devlist && p.answer == answers(p.dev, PollCount(log, p.dev))
    ensures ReadFails(p, devices) ==>
      Conforms(Then(log, p), answers) && EndsInReadFailure(Then(log, p), devices, p.answer.reading.exc)
    ensures !ReadFails(p, devices) ==>
      WaitState(answers, devices, all, Then(log, p),
        ListAfter(p, devlist), ValuesAfter(p, devices, values), ExcAfter(p, finalExc))
    ensures Work(Then(log, p), quiet, all, ListAfter(p, devlist)) < Work(log, quiet, all, devlist)
  {
    OnTheList(devlist, Ended(log), all, p.dev);
    WaitStep(answers, devices, all, log, p, devlist, values, finalExc);
    WorkStep(answers, log, p, quiet, all, devlist);
  }

  ghost predicate StillListed(rest: seq<nat>, devlist: seq<nat>) {
    multiset(rest) <= multiset(devlist)
  }

  /** The devices still to be polled in a pass stay on the waiting list, also
      when an earlier occurrence of the same device is removed. */
  lemma StillListedStep(list: seq<nat>, i: nat, devlist: seq<nat>)
    requires i < |list| && StillListed(list[i..], devlist)
    ensures list[i] in devlist
    ensures StillListed(list[i + 1..], devlist)
    ensures StillListed(list[i + 1..], RemoveFirst(devlist, list[i]))
  {
    assert list[i..] == [list[i]] + list[i + 1..];
    assert list[i] in multiset(devlist);
  }

  /** Which devices a pass polled: an initial stretch of the list; a pass that
      is not full goes no further than the first busy device. */
  ghost predicate PolledStretch(list: seq<nat>, log0: Log, log: Log, n: nat, full: bool)
    decreases n
  {
    && n <= |list|
    && if n == 0 then log == log0
       else
         && log.Then?
         && log.last.dev == list[n - 1]
         && PolledStretch(list, log0, log.before, n - 1, full)
         && (full || n == 1 || !log.before.Then? || !log.before.last.answer.Busy?)
  }

  /** A pass over `list`: its devices are polled in order, up to the end or, unless it
      is full, the first busy one, or one whose read raises. */
  ghost predicate PassOf(list: seq<nat>, devices: seq<nat>, log0: Log, log: Log, full: bool) {
    exists n: nat :: PassOfLength(list, devices, log0, log, full, n)
  }

  ghost predicate PassOfLength(list: seq<nat>, devices: seq<nat>, log0: Log, log: Log, full: bool, n: nat) {
    && n > 0 && PolledStretch(list, log0, log, n, full)
    && (n == |list| || (!full && log.last.answer.Busy?) || ReadFails(log.last, devices))
  }

  /** One pass over a copy of the waiting list.  A pass that is not `full`
      stops at the first busy device. */
  method WaitPass(
    answers: Oracle, ghost quiet: nat -> nat, devices: seq<nat>, ghost all: seq<nat>, full: bool,
    log0: Log, devlist0: seq<nat>, values0: map<nat, int>, finalExc0: Option<Exc>)
    returns (log: Log, devlist: seq<nat>, values: map<nat, int>, finalExc: Option<Exc>, escaped: Option<Exc>,
      ghost n: nat)
    requires QuietFrom(answers, quiet)
    requires WaitState(answers, devices, all, log0, devlist0, values0, finalExc0)
    requires devlist0 != []
    ensures Conforms(log, answers)
    ensures escaped.None? ==> WaitState(answers, devices, all, log, devlist, values, finalExc)
    ensures escaped.Some? ==> EndsInReadFailure(log, devices, escaped.value)
    ensures PassOfLength(devlist0, devices, log0, log, full, n)
    ensures escaped.None? ==> Work(log, quiet, all, devlist) + n <= Work(log0, quiet, all, devlist0)
  {
    log, devlist, values, finalExc, escaped, n := log0, devlist0, values0, finalExc0, None, 0;
    assert devlist0[0..] == devlist0;
    assert StillListed(devlist0[0..], devlist);
    hide StillListed, WaitState, ListAfter, Work;
    for i := 0 to |devlist0|
      invariant n == i && escaped.None?
      invariant PolledStretch(devlist0, log0, log, i, full)
      invariant i > 0 ==> log.Then?
      invariant i > 0 && !full ==> log.Then? && !log.last.answer.Busy?
      invariant WaitState(answers, devices, all, log, devlist, values, finalExc)
      invariant StillListed(devlist0[i..], devlist)
      invariant Work(log, quiet, all, devlist) + i <= Work(log0, quiet, all, devlist0)
    {
      StillListedStep(devlist0, i, devlist);
      ghost var listBefore, valuesBefore, excBefore := devlist, values, finalExc;
      var p;
      p, devlist, values, finalExc, escaped :=
        PollDevice(answers, devices, log, devlist0[i], devlist, values, finalExc);
      PollStep(answers, quiet, devices, all, log, p, listBefore, valuesBefore, excBefore);
      log, n := Then(log, p), i + 1;
      if escaped.Some? || (p.answer.Busy? && !full) {
        break;
      }
    }
  }

  /** The second pass is full, and then every tenth. */
  predicate IsFull(k: nat) {
    (k as int - 2) % 10 == 0
  }

  /** `cuts` are the logs before the first pass and after each: every pass is one
      over the devices still waited for, in the order of the traversal. */
  ghost predicate Passes(all: seq<nat>, devices: seq<nat>, cuts: seq<Log>) {
    && cuts != [] && cuts[0] == Start
    && forall k :: 0 < k < |cuts| ==> PassBetween(all, devices, cuts[k - 1], cuts[k], k)
  }

  ghost predicate PassBetween(all: seq<nat>, devices: seq<nat>, before: Log, after: Log, k: nat) {
    PassOf(Left(all, before), devices, before, after, IsFull(k))
  }

  lemma OneMorePass(all: seq<nat>, devices: seq<nat>, cuts: seq<Log>, log: Log, n: nat)
    requires Passes(all, devices, cuts)
    requires PassOfLength(Left(all, cuts[|cuts| - 1]), devices, cuts[|cuts| - 1], log, IsFull(|cuts|), n)
    ensures Passes(all, devices, cuts + [log]) && n > 0
  {
    hide Left, IsFull;
    var more := cuts + [log];
    forall k | 0 < k < |more| ensures PassBetween(all, devices, more[k - 1], more[k], k) {
      if k < |cuts| {
        assert PassBetween(all, devices, cuts[k - 1], cuts[k], k);
      }
    }
  }

  /** Waits until every waitable device reachable from `devices` through waiters
      has finished or failed.  `stops(k)` says whether, after pass k, the estimate
      of the time left or the delay raises. */
  method MultiWait(
    g: Graph, waitable: set<nat>, devices: seq<nat>,
    answers: Oracle, ghost quiet: nat -> nat, stops: nat -> bool)
    returns (out: Outcome, log: Log, ghost cuts: seq<Log>)
    requires CreatedInOrder(g) && Known(g, devices)
    requires QuietFrom(answers, quiet)
    ensures Conforms(log, answers)
    // which devices were polled when
    ensures Passes(DevIter(g, waitable, devices), devices, cuts) && log == cuts[|cuts| - 1]
    // how it ended
    ensures out.ReadRaised? <==> !AllRead(log, devices)
    ensures out.ReadRaised? ==> EndsInReadFailure(log, devices, out.exc)
    ensures out.Interrupted? <==>
      AllRead(log, devices) && Left(DevIter(g, waitable, devices), log) != [] && |cuts| > 1 && stops(|cuts| - 1)
    ensures NoStopBefore(stops, |cuts| - 1)
    ensures out.Returned? || out.Raised? ==> Left(DevIter(g, waitable, devices), log) == []
    ensures out.Returned? || out.Raised? ==>
      Ended(log) == multiset(DevIter(g, waitable, devices))
    ensures out.Returned? ==> Failures(log) == []
    ensures out.Returned? ==> out.values == Readings(log, devices)
    ensures out.Returned? ==> out.values.Keys == set d | d in devices && d in waitable
    ensures out.Raised? ==> FirstMostSevere(Failures(log), out.exc)
  {
    var finalExc: Option<Exc> := None;
    var devlist := DevIter(g, waitable, devices);
    ghost var all := devlist;
    var values: map<nat, int> := map[];
    log := Start;
    cuts := [log];
    var loops := -2;
    hide *;
    WaitBegins(answers, devices, all);
    NoStopYet(stops, 0);
    NoStopYet(stops, |cuts|);
    while devlist != []
      invariant WaitState(answers, devices, all, log, devlist, values, finalExc)
      invariant devlist == Left(all, log)
      invariant cuts != [] && Passes(all, devices, cuts) && log == cuts[|cuts| - 1]
      invariant loops == |cuts| - 3
      invariant NoStopBefore(stops, if devlist == [] then |cuts| - 1 else |cuts|)
      decreases Work(log, quiet, all, devlist)
    {
      loops := loops + 1;
      var escaped;
      ghost var n, before := 0, log;
      assert (loops % 10 == 0) == IsFull(|cuts|) by {
        FullPass(loops, |cuts|);
      }
      log, devlist, values, finalExc, escaped, n :=
        WaitPass(answers, quiet, devices, all, loops % 10 == 0, log, devlist, values, finalExc);
      OneMorePass(all, devices, cuts, log, n);
      cuts := cuts + [log];
      if escaped.Some? {
        NotAllRead(log, devices, escaped.value);
        return ReadRaised(escaped.value), log, cuts;
      }
      WaitGoesOn(answers, devices, all, log, devlist, values, finalExc);
      if devlist != [] && stops(loops + 2) {
        return Interrupted, log, cuts;
      }
      NoStopYet(stops, |cuts|);
    }
    WaitOver(answers, devices, all, log, values, finalExc);
    if finalExc.Some? {
      return Raised(finalExc.value), log, cuts;
    }
    ValuesOfExplicitDevices(g, waitable, devices, log);
    out := Returned(values);
  }

  ghost predicate NoStopBefore(stops: nat -> bool, n: nat) {
    forall k :: 0 < k < n ==> !stops(k)
  }

  lemma NoStopYet(stops: nat -> bool, n: nat)
    ensures n <= 1 ==> NoStopBefore(stops, n)
    ensures n > 0 && NoStopBefore(stops, n - 1) && !stops(n - 1) ==> NoStopBefore(stops, n)
  {
  }

  lemma NotAllRead(log: Log, devices: seq<nat>, e: Exc)
    requires EndsInReadFailure(log, devices, e)
    ensures !AllRead(log, devices)
  {
  }

  lemma FullPass(loops: int, k: nat)
    requires loops == k - 2
    ensures loops % 10 == 0 <==> IsFull(k)
  {
  }

  lemma WaitBegins(answers: Oracle, devices: seq<nat>, all: seq<nat>)
    ensures WaitState(answers, devices, all, Start, all, map[], None)
    ensures Left(all, Start) == all && Passes(all, devices, [Start])
  {
  }

  lemma WaitGoesOn(
    answers: Oracle, devices: seq<nat>, all: seq<nat>, log: Log,
    devlist: seq<nat>, values: map<nat, int>, finalExc: Option<Exc>)
    requires WaitState(answers, devices, all, log, devlist, values, finalExc)
    ensures Conforms(log, answers) && AllRead(log, devices) && devlist == Left(all, log)
  {
  }

  lemma WaitOver(
    answers: Oracle, devices: seq<nat>, all: seq<nat>, log: Log, values: map<nat, int>, finalExc: Option<Exc>)
    requires WaitState(answers, devices, all, log, [], values, finalExc)
    ensures Conforms(log, answers) && AllRead(log, devices)
    ensures Ended(log) == multiset(all)
    ensures values == Readings(log, devices)
    ensures finalExc.None? ==> Failures(log) == []
    ensures finalExc.Some? ==> FirstMostSevere(Failures(log), finalExc.value)
  {
    MergedIsSurvivor(log);
    SurvivorIsFirstMostSevere(Failures(log));
  }

  lemma ValuesOfExplicitDevices(g: Graph, waitable: set<nat>, devices: seq<nat>, log: Log)
    requires CreatedInOrder(g) && Known(g, devices)
    requires Ended(log) == multiset(DevIter(g, waitable, devices))
    requires Failures(log) == [] && AllRead(log, devices)
    ensures Readings(log, devices).Keys == set d | d in devices && d in waitable
  {
    ReadingsCoverEnded(log, devices);
    YieldedAreMembers(g, waitable, devices);
    forall d | d in devices && d in waitable ensures d in Ended(log) {
      ListedIsYielded(g, waitable, devices, d);
    }
  }

  /** The devices MultiWait polls to the end are exactly the waitable ones
      reachable from the given devices through waitable waiters. */
  lemma WaitedIffReachable(g: Graph, waitable: set<nat>, devices: seq<nat>, log: Log, d: nat)
    requires CreatedInOrder(g) && Known(g, devices)
    requires Ended(log) == multiset(DevIter(g, waitable, devices))
    ensures d in Ended(log) <==> Reachable(g, waitable, devices, d)
  {
    DevIterIsReachability(g, waitable, devices, d);
  }

  /** The log of polling devices one after the other. */
  ghost function PolledInOrder(all: seq<nat>, answers: Oracle, n: nat): Log
    requires n <= |all|
  {
    if n == 0 then Start
    else
      var before, d := PolledInOrder(all, answers, n - 1), all[n - 1];
      Then(before, Poll(d, answers(d, PollCount(before, d))))
  }

  /** If no poll is answered by busy, one pass polls every device in the order of
      the traversal; so the failures, of which the first most severe is raised, come
      in that order. */
  lemma AnsweredAtOnce(all: seq<nat>, devices: seq<nat>, answers: Oracle, cuts: seq<Log>)
    requires Passes(all, devices, cuts) && |cuts| > 1
    requires Conforms(cuts[|cuts| - 1], answers) && AllRead(cuts[|cuts| - 1], devices)
    requires forall d: nat, k: nat :: !answers(d, k).Busy?
    ensures |cuts| == 2 && cuts[1] == PolledInOrder(all, answers, |all|)
  {
    EarlierCut(all, devices, answers, cuts, 1);
    assert PassBetween(all, devices, cuts[0], cuts[1], 1);
    var n: nat :| PassOfLength(all, devices, Start, cuts[1], IsFull(1), n);
    StretchIsInOrder(all, answers, cuts[1], n, IsFull(1));
    assert n == |all|;
    AllOff(all, answers, n);
    NoPassOverNothing(devices, cuts[1], IsFull(2));
    assert |cuts| > 2 ==> PassBetween(all, devices, cuts[1], cuts[2], 2);
  }

  lemma NoPassOverNothing(devices: seq<nat>, log: Log, full: bool)
    ensures forall after :: !PassOf([], devices, log, after, full)
  {
  }

  lemma {:induction false} EarlierCut(all: seq<nat>, devices: seq<nat>, answers: Oracle, cuts: seq<Log>, k: nat)
    requires Passes(all, devices, cuts) && k < |cuts|
    requires Conforms(cuts[|cuts| - 1], answers) && AllRead(cuts[|cuts| - 1], devices)
    ensures Conforms(cuts[k], answers) && AllRead(cuts[k], devices)
    decreases |cuts| - k
  {
    if k < |cuts| - 1 {
      EarlierCut(all, devices, answers, cuts, k + 1);
      assert PassBetween(all, devices, cuts[k], cuts[k + 1], k + 1);
      var n: nat :| PassOfLength(Left(all, cuts[k]), devices, cuts[k], cuts[k + 1], IsFull(k + 1), n);
      EarlierLog(Left(all, cuts[k]), devices, answers, cuts[k], cuts[k + 1], n, IsFull(k + 1));
    }
  }

  lemma {:induction false} EarlierLog(
    list: seq<nat>, devices: seq<nat>, answers: Oracle, log0: Log, log: Log, n: nat, full: bool)
    requires PolledStretch(list, log0, log, n, full) && Conforms(log, answers) && AllRead(log, devices)
    ensures Conforms(log0, answers) && AllRead(log0, devices)
    decreases n
  {
    if n > 0 {
      EarlierLog(list, devices, answers, log0, log.before, n - 1, full);
    }
  }

  lemma {:induction false} AllOff(all: seq<nat>, answers: Oracle, n: nat)
    requires n <= |all| && forall d: nat, k: nat :: !answers(d, k).Busy?
    ensures Left(all, PolledInOrder(all, answers, n)) == all[n..]
    decreases n
  {
    if n > 0 {
      AllOff(all, answers, n - 1);
      assert all[n - 1..][0] == all[n - 1] && all[n - 1..][1..] == all[n..];
    }
  }

  lemma {:induction false} StretchIsInOrder(all: seq<nat>, answers: Oracle, log: Log, n: nat, full: bool)
    requires PolledStretch(all, Start, log, n, full) && Conforms(log, answers)
    ensures log == PolledInOrder(all, answers, n)
    decreases n
  {
    if n > 0 {
      StretchIsInOrder(all, answers, log.before, n - 1, full);
    }
  }

  /** `_multiMethod`: every listed device of the class is called exactly once,
      in order, whatever the calls raise. */
  method MultiMethod(members: set<nat>, devices: seq<nat>, call: nat -> Option<Exc>)
    returns (called: seq<nat>, raised: Option<Exc>)
    ensures called == Members(members, devices)
    ensures raised.None? <==> CallFailures(call, called) == []
    ensures raised.Some? ==> FirstMostSevere(CallFailures(call, called), raised.value)
  {
    called, raised := [], None;
    for i := 0 to |devices|
      invariant called == Members(members, devices[..i])
      invariant raised == Survivor(CallFailures(call, called))
    {
      assert devices[..i + 1][..i] == devices[..i];
      if devices[i] in members {
        var failure := call(devices[i]);
        assert (called + [devices[i]])[..|called|] == called;
        called := called + [devices[i]];
        if failure.Some? {
          MergeStep(CallFailures(call, called[..|called| - 1]), failure.value);
        } else {
          assert CallFailures(call, called) == CallFailures(call, called[..|called| - 1]);
        }
        if failure.Some? {
          raised := Some(FilterExceptions(failure.value, raised));
        }
      }
    }
    assert devices[..|devices|] == devices;
    SurvivorIsFirstMostSevere(CallFailures(call, called));
  }

  ghost function Members(members: set<nat>, ds: seq<nat>): seq<nat> {
    if ds == [] then []
    else Members(members, ds[..|ds| - 1]) + if ds[|ds| - 1] in members then [ds[|ds| - 1]] else []
  }

  ghost function CallFailures(call: nat -> Option<Exc>, ds: seq<nat>): seq<Exc> {
    if ds == [] then []
    else
      var f := call(ds[|ds| - 1]);
      CallFailures(call, ds[..|ds| - 1]) + if f.Some? then [f.value] else []
  }
}
