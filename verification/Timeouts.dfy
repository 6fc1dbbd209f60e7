/** HasTimeout: the times at which a movement is due, and the status that is
    combined from the hardware status and these times. */
module Timeouts {

  import opened Options
  import opened Traces

  const OK := 200
  const WARN := 210
  const BUSY := 220
  const ERROR := 240

  type Phases = seq<(string, real)>  // name of the phase, time at which it should be over

  datatype Event = Restarted | Acted

  /** What differs between devices: `timeout_status`, and whether `_targetReached`
      is overridden not to clear the timeout, as in HasWindowTimeout. */
  datatype Config = Config(timeoutStatus: int, keepsTimeout: bool)

  /** `log` holds the calls of `resetTimeout` and `timeoutAction`. */
  datatype Timer = Timer(timeout: Option<real>, phases: Option<Phases>, called: bool, log: Trace<Event>)

  // ---- The times ----

  function EndOf(phases: Phases): real
    requires phases != []
  {
    phases[|phases| - 1].1
  }

  /** Adds a phase of the given duration, if there is one, after the last. */
  function Extend(phases: Phases, duration: Option<real>): (r: Phases)
    requires phases != []
    ensures r != [] && r[0] == phases[0]
  {
    if duration.Some? then phases + [("", EndOf(phases) + duration.value)] else phases
  }

  /** `_getTimeoutTimes` of HasTimeout, with what `doTime` says if there is one;
      HasWindowTimeout adds its window.  A timeout of zero adds nothing. */
  function TimeoutTimes(now: real, doTime: Option<real>, timeout: Option<real>, window: Option<real>): (r: Phases)
    ensures r != [] && r[0] == ("start", now)
  {
    var timeout := if timeout == Some(0.0) then None else timeout;
    Extend(Extend(Extend([("start", now)], doTime), timeout), window)
  }

  ghost predicate Ascending(phases: Phases) {
    forall i, j :: 0 <= i < j < |phases| ==> phases[i].1 <= phases[j].1
  }

  function OrZero(x: Option<real>): real {
    if x.Some? then x.value else 0.0
  }

  /** The times ascend exactly if no duration is negative, and the last is the
      sum of all durations after the start. */
  lemma TimesAscend(now: real, doTime: Option<real>, timeout: Option<real>, window: Option<real>)
    ensures
      var r := TimeoutTimes(now, doTime, timeout, window);
      && (Ascending(r) <==> OrZero(doTime) >= 0.0 && OrZero(timeout) >= 0.0 && OrZero(window) >= 0.0)
      && EndOf(r) == now + OrZero(doTime) + OrZero(timeout) + OrZero(window)
  {
    var r0: Phases := [("start", now)];
    var r1 := Extend(r0, doTime);
    var truthy := if timeout == Some(0.0) then None else timeout;
    ExtendAscends(r0, doTime);
    ExtendAscends(r1, truthy);
    ExtendAscends(Extend(r1, truthy), window);
    assert Ascending(r0) && EndOf(r0) == now;
    hide Ascending, Extend, EndOf;
  }

  lemma ExtendAscends(r: Phases, duration: Option<real>)
    requires r != []
    ensures Ascending(Extend(r, duration)) <==> Ascending(r) && OrZero(duration) >= 0.0
    ensures EndOf(Extend(r, duration)) == EndOf(r) + OrZero(duration)
  {
    var s := Extend(r, duration);
    if Ascending(s) && duration.Some? {
      forall i, j | 0 <= i < j < |r| ensures r[i].1 <= r[j].1 {
        assert s[i].1 <= s[j].1;
      }
      assert s[|r| - 1].1 <= s[|r|].1;
    }
  }

  function AbsR(x: real): real {
    if x < 0.0 then -x else x
  }

  /** `doTime` of HasWindowTimeout; the device may or may not have the parameters
      speed (units per second) and ramp (units per minute). */
  function DoTime(
    position: Option<real>, target: Option<real>, speed: Option<real>, ramp: Option<real>, window: real): real
  {
    if position.None? || target.None? || position == target then 0.0
    else if speed.Some? && speed.value != 0.0 then AbsR(target.value - position.value) / speed.value + window
    else if ramp.Some? && ramp.value != 0.0 then AbsR(target.value - position.value) / (ramp.value / 60.0) + window
    else window
  }

  lemma DoTimeIsNotNegative(
    position: Option<real>, target: Option<real>, speed: Option<real>, ramp: Option<real>, window: real)
    requires window >= 0.0 && OrZero(speed) >= 0.0 && OrZero(ramp) >= 0.0
    ensures DoTime(position, target, speed, ramp, window) >= 0.0
  {
    if position.Some? && target.Some? {
      var way := AbsR(target.value - position.value);
      if speed.Some? && speed.value != 0.0 {
        QuotientIsNotNegative(way, speed.value);
      } else if ramp.Some? && ramp.value != 0.0 {
        QuotientIsNotNegative(way, ramp.value / 60.0);
      }
    }
  }

  lemma QuotientIsNotNegative(x: real, y: real)
    requires x >= 0.0 && y > 0.0
    ensures x / y >= 0.0
  {
    assert (x / y) * y == x;
  }

  // ---- The combined status ----

  datatype Action = NoAction | Succeeds | Raises

  /** What one evaluation of the status meets: the hardware status (None: raised),
      whether the device is at its target (None: raised), the time, whether the
      session mode allows actions, and what `timeoutAction` does. */
  datatype Pass = Pass(hardware: Option<int>, atTarget: Option<bool>, now: real, mayAct: bool, action: Action)

  /** `_timeoutTime` */
  function TimeoutTime(t: Timer): Option<real> {
    if t.phases.Some? && t.phases.value != [] then Some(EndOf(t.phases.value)) else None
  }

  /** A movement is pending if the timeout time is set and not zero. */
  predicate Pending(t: Timer) {
    TimeoutTime(t).Some? && TimeoutTime(t).value != 0.0
  }

  /** `isTimedOut` */
  predicate IsTimedOut(t: Timer, now: real) {
    t.timeout.Some? && TimeoutTime(t).Some? && TimeoutTime(t).value < now
  }

  predicate Done(code: int) {
    code == OK || code == WARN
  }

  /** The code once "target not yet reached" is folded in. */
  function Folded(t: Timer, p: Pass): Option<int> {
    if p.hardware.Some? && Done(p.hardware.value) && Pending(t) then
      if p.atTarget.None? then None
      else if p.atTarget.value then p.hardware
      else Some(BUSY)
    else p.hardware
  }

  /** `_combinedStatus`: the answer (None: raised) and the timer left behind.  After
      a successful action it is evaluated again. */
  function Combined(c: Config, t: Timer, first: Pass, second: Pass): (Option<int>, Timer)
    decreases !t.called
  {
    match Folded(t, first)
    case None => (None, t)
    case Some(code) =>
      if Done(code) then
        (Some(code), if Pending(t) && !c.keepsTimeout then t.(phases := None) else t)
      else if code == BUSY && IsTimedOut(t, first.now) then
        if t.called || !first.mayAct then (Some(c.timeoutStatus), t)
        else
          match first.action
          case NoAction => (Some(c.timeoutStatus), t.(called := true))
          case Raises => (Some(c.timeoutStatus), t.(called := true, log := Then(t.log, Acted)))
          case Succeeds =>
            var (again, t') := Combined(c, t.(called := true, log := Then(t.log, Acted)), second, second);
            (if again.Some? then again else Some(c.timeoutStatus), t')
      else
        (Some(code), if code == ERROR then t.(called := true) else t)
  }

  class TimedDevice {
    const config: Config
    var timeout: Option<real>
    var phases: Option<Phases>
    var timeoutActionCalled: bool
    var log: Trace<Event>

    function State(): Timer
      reads this
    {
      Timer(timeout, phases, timeoutActionCalled, log)
    }

    constructor (config: Config, timeout: Option<real>, phases: Option<Phases>)
      ensures this.config == config && State() == Timer(timeout, phases, false, Start)
    {
      this.config, this.timeout, this.phases := config, timeout, phases;
      timeoutActionCalled, log := false, Start;
    }

    /** `resetTimeout`; `times` is None if reading the device or `doTime` raises. */
    method ResetTimeout(times: Option<Phases>) returns (raised: bool)
      modifies this
      ensures State() == Apply(config, old(State()), Restart(times))
      ensures raised <==> times.None?
      ensures !timeoutActionCalled && phases == (if raised then old(phases) else times)
    {
      log := Then(log, Restarted);
      timeoutActionCalled := false;
      raised := times.None?;
      if times.Some? {
        phases := times;
      }
    }

    method TargetReached()
      modifies this`phases
      ensures phases == if config.keepsTimeout then old(phases) else None
    {
      if !config.keepsTimeout {
        phases := None;
      }
    }

    method CombinedStatus(first: Pass, second: Pass) returns (r: Option<int>)
      modifies this
      ensures (r, State()) == Combined(config, old(State()), first, second)
      ensures AnswerIs(config, old(State()), first, second, r)
      ensures PhasesAre(config, old(State()), first, second, phases)
      decreases !timeoutActionCalled
    {
      AnswerAndPhases(config, State(), first, second);
      if first.hardware.None? {
        return None;
      }
      var code := first.hardware.value;
      if Done(code) && Pending(State()) {
        if first.atTarget.None? {
          return None;
        }
        if !first.atTarget.value {
          code := BUSY;
        } else {
          TargetReached();
        }
      }
      if code == BUSY {
        if IsTimedOut(State(), first.now) {
          code := config.timeoutStatus;
          if !timeoutActionCalled && first.mayAct {
            if first.action.NoAction? {
              timeoutActionCalled := true;
            } else {
              log := Then(log, Acted);
              timeoutActionCalled := true;
              if first.action.Succeeds? {
                var again := CombinedStatus(second, second);
                if again.Some? {
                  return again;
                }
              }
            }
          }
        }
      } else if code == ERROR {
        timeoutActionCalled := true;
      }
      return Some(code);
    }

    /** The part of `Device.reset` about timeouts. */
    method Reset()
      modifies this
      ensures State() == Apply(config, old(State()), Op.Reset)
      ensures phases == None && timeoutActionCalled
    {
      phases := None;
      timeoutActionCalled := true;
    }

    /** The part of `Moveable.stop` about timeouts. */
    method Stop()
      modifies this
      ensures State() == Apply(config, old(State()), Op.Stop)
      ensures phases == None && timeoutActionCalled == old(timeoutActionCalled)
    {
      phases := None;
    }
  }

  // ---- What an answer means ----

  /** The hardware reports OK or WARN, and the device is at its target if a
      movement is pending. */
  ghost predicate Arrived(t: Timer, p: Pass) {
    p.hardware.Some? && Done(p.hardware.value) && (Pending(t) ==> p.atTarget == Some(true))
  }

  /** The device is busy, or says it is done without being at the target, after
      the time is over. */
  ghost predicate Overdue(t: Timer, p: Pass) {
    && IsTimedOut(t, p.now)
    && p.hardware.Some?
    && (p.hardware.value == BUSY || StillUnderWay(t, p))
  }

  ghost predicate Acts(t: Timer, p: Pass) {
    Overdue(t, p) && !t.called && p.mayAct && p.action != NoAction
  }

  /** The evaluation needs the target, the hardware being done, and it is not reached. */
  ghost predicate StillUnderWay(t: Timer, p: Pass) {
    p.hardware.Some? && Done(p.hardware.value) && Pending(t) && p.atTarget == Some(false)
  }

  /** The hardware status cannot be read, or the check of the target that it needs raises. */
  ghost predicate CannotTell(t: Timer, p: Pass) {
    p.hardware.None? || (Done(p.hardware.value) && Pending(t) && p.atTarget.None?)
  }

  /** The answer when no time is over: the hardware status, except that a device
      that is done without being at its target is busy. */
  ghost predicate PlainAnswer(t: Timer, p: Pass, r: Option<int>) {
    && (r.None? <==> CannotTell(t, p))
    && (r.Some? ==> if StillUnderWay(t, p) then r == Some(BUSY) else r == p.hardware)
  }

  /** Every answer: the plain one, unless the time is over; then the timeout status,
      unless the action succeeded and the time is not over any more. */
  ghost predicate AnswerIs(c: Config, t: Timer, first: Pass, second: Pass, r: Option<int>) {
    if !Overdue(t, first) then PlainAnswer(t, first, r)
    else if Acts(t, first) && first.action.Succeeds? && !Overdue(t, second) && !CannotTell(t, second) then
      PlainAnswer(t, second, r)
    else r == Some(c.timeoutStatus)
  }

  /** The times left behind: gone exactly if there were none, or the device arrived
      from a pending movement and does not keep them. */
  ghost predicate PhasesAre(c: Config, t: Timer, first: Pass, second: Pass, phases: Option<Phases>) {
    var last := if Acts(t, first) && first.action.Succeeds? then second else first;
    && (phases.None? <==> t.phases.None? || (Pending(t) && Arrived(t, last) && !c.keepsTimeout))
    && (phases.Some? ==> phases == t.phases)
  }

  lemma AnswerAndPhases(c: Config, t: Timer, first: Pass, second: Pass)
    ensures
      var (r, t') := Combined(c, t, first, second);
      AnswerIs(c, t, first, second, r) && PhasesAre(c, t, first, second, t'.phases)
  {
    var t' := t.(called := true, log := Then(t.log, Acted));
    assert Pending(t') == Pending(t) && IsTimedOut(t', second.now) == IsTimedOut(t, second.now);
    assert Folded(t', second) == Folded(t, second);
  }

  /** The status says that the movement is over exactly if the device has arrived,
      at once or after the action. */
  lemma DoneMeansArrived(c: Config, t: Timer, first: Pass, second: Pass)
    requires !Done(c.timeoutStatus)
    ensures
      var r := Combined(c, t, first, second).0;
      (r.Some? && Done(r.value)) <==>
      Arrived(t, first) || (Acts(t, first) && first.action.Succeeds? && Arrived(t, second))
  {
    var t' := t.(called := true, log := Then(t.log, Acted));
    assert Pending(t') == Pending(t) && IsTimedOut(t', second.now) == IsTimedOut(t, second.now);
    assert Folded(t', second) == Folded(t, second);
  }

  /** The timeout status is given exactly if the device is overdue and the action,
      if it succeeded, did not help. */
  lemma TimedOutMeansOverdue(c: Config, t: Timer, first: Pass, second: Pass)
    requires !Done(c.timeoutStatus) && c.timeoutStatus != BUSY
    requires first.hardware != Some(c.timeoutStatus) && second.hardware != Some(c.timeoutStatus)
    ensures
      Combined(c, t, first, second).0 == Some(c.timeoutStatus) <==>
      (Overdue(t, first)
       && (Acts(t, first) && first.action.Succeeds? ==> Folded(t, second).None? || Overdue(t, second)))
  {
    var t' := t.(called := true, log := Then(t.log, Acted));
    assert Pending(t') == Pending(t) && IsTimedOut(t', second.now) == IsTimedOut(t, second.now);
    assert Folded(t', second) == Folded(t, second);
  }

  /** The action is called once if it is due, and never otherwise; once a timeout
      was met with actions allowed, or an error, it is off. */
  lemma ActionIsCalledWhenDue(c: Config, t: Timer, first: Pass, second: Pass)
    ensures
      var t' := Combined(c, t, first, second).1;
      && t'.log == (if Acts(t, first) then Then(t.log, Acted) else t.log)
      && (t'.called <==> t.called || (Overdue(t, first) && first.mayAct) || first.hardware == Some(ERROR))
      && t'.timeout == t.timeout
  {
    if Acts(t, first) && first.action.Succeeds? {
      var t' := t.(called := true, log := Then(t.log, Acted));
      assert !Acts(t', second);
      assert Combined(c, t', second, second).1.log == t'.log;
      assert Combined(c, t', second, second).1.called;
    }
  }

  // ---- Runs ----

  datatype Op =
    | Status(first: Pass, second: Pass)
    | Restart(times: Option<Phases>)
    | SetTimeout(timeout: Option<real>)
    | Reset
    | Stop

  ghost function Apply(c: Config, t: Timer, op: Op): Timer {
    match op
    case Status(first, second) => Combined(c, t, first, second).1
    case Restart(times) =>
      t.(log := Then(t.log, Restarted), called := false, phases := if times.Some? then times else t.phases)
    case SetTimeout(timeout) => t.(timeout := timeout)
    case Reset => t.(phases := None, called := true)
    case Stop => t.(phases := None)
  }

  ghost function Run(c: Config, t: Timer, ops: seq<Op>): Timer {
    if ops == [] then t else Apply(c, Run(c, t, ops[..|ops| - 1]), ops[|ops| - 1])
  }

  /** How often the action was called since the last `resetTimeout`. */
  ghost function SinceRestart(log: Trace<Event>): nat {
    match log
    case Start => 0
    case Then(before, Restarted) => 0
    case Then(before, Acted) => SinceRestart(before) + 1
  }

  /** Never twice without a `resetTimeout` in between. */
  ghost predicate AtMostOncePerRestart(log: Trace<Event>) {
    SinceRestart(log) <= 1 && (log.Then? ==> AtMostOncePerRestart(log.before))
  }

  ghost predicate Inv(t: Timer) {
    AtMostOncePerRestart(t.log) && (SinceRestart(t.log) > 0 ==> t.called)
  }

  /** In every run `timeoutAction` is called at most once per `resetTimeout`. */
  lemma {:induction false} RunActsAtMostOnce(c: Config, t: Timer, ops: seq<Op>)
    requires Inv(t)
    ensures Inv(Run(c, t, ops))
  {
    if ops != [] {
      var n := |ops| - 1;
      var before, op := Run(c, t, ops[..n]), ops[n];
      RunActsAtMostOnce(c, t, ops[..n]);
      if op.Status? {
        hide Combined;
        ActionIsCalledWhenDue(c, before, op.first, op.second);
      }
    }
  }

  /** After a reset, or once it is disarmed otherwise, it is not called before the next
      `resetTimeout`. */
  lemma {:induction false} DisarmedStaysQuiet(c: Config, t: Timer, ops: seq<Op>)
    requires t.called && forall k :: 0 <= k < |ops| ==> !ops[k].Restart?
    ensures Run(c, t, ops).called && Run(c, t, ops).log == t.log
  {
    if ops != [] {
      var n := |ops| - 1;
      var before, op := Run(c, t, ops[..n]), ops[n];
      DisarmedStaysQuiet(c, t, ops[..n]);
      if op.Status? {
        hide Combined;
        ActionIsCalledWhenDue(c, before, op.first, op.second);
      }
    }
  }

  /** ... and after a start it is called in the first status evaluation that is
      overdue, if actions are allowed then and no error, reset or new start came
      before. */
  lemma {:induction false} FirstOverdueActs(c: Config, t: Timer, times: Phases, ops: seq<Op>, first: Pass, second: Pass)
    requires Inv(t) && first.action != NoAction && first.mayAct
    requires forall k :: 0 <= k < |ops| ==>
      ops[k].Status? && ops[k].first.hardware != Some(ERROR)
      && !(Overdue(Run(c, Apply(c, t, Restart(Some(times))), ops[..k]), ops[k].first) && ops[k].first.mayAct)
    requires Overdue(Run(c, Apply(c, t, Restart(Some(times))), ops), first)
    ensures
      Run(c, Apply(c, t, Restart(Some(times))), ops + [Status(first, second)]).log
      == Then(Then(t.log, Restarted), Acted)
  {
    var s := Apply(c, t, Restart(Some(times)));
    StaysArmed(c, s, ops);
    assert (ops + [Status(first, second)])[..|ops|] == ops;
    ActionIsCalledWhenDue(c, Run(c, s, ops), first, second);
  }

  lemma {:induction false} StaysArmed(c: Config, s: Timer, ops: seq<Op>)
    requires !s.called
    requires forall k :: 0 <= k < |ops| ==>
      ops[k].Status? && ops[k].first.hardware != Some(ERROR)
      && !(Overdue(Run(c, s, ops[..k]), ops[k].first) && ops[k].first.mayAct)
    ensures !Run(c, s, ops).called && Run(c, s, ops).log == s.log
  {
    if ops != [] {
      var n := |ops| - 1;
      forall k | 0 <= k < n ensures ops[..n][..k] == ops[..k] {
      }
      StaysArmed(c, s, ops[..n]);
      ActionIsCalledWhenDue(c, Run(c, s, ops[..n]), ops[n].first, ops[n].second);
    }
  }
}
