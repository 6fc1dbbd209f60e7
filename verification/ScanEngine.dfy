/** The scan loop: `Scan.run`, `_inner_run`, `moveDevices` and `handleError`.

    Everything outside the scan - devices, detectors, the data manager, break
    points, hooks - may raise at every call; which call raises what is left open
    by nondeterministic choice.  A `Step` is the result of a Python statement. */
module ScanEngine {
  import opened Options
  import opened Severity
  import opened Traces
  import opened ScanLog

  datatype Throw =
    | SkipPoint
    | StopScan
    | Error(exc: Exc)
    | Stop            // a BaseException that is no Exception, such as ControlStop

  type Step = Option<Throw>

  datatype What = Prepare | Move | Wait | ReadOut | CountUp

  /** `handleError`: None means that it returns; otherwise what it raises. */
  function HandleError(what: What, err: Exc): (r: Step) {
    if Continues(err) then
      if what == Prepare then Some(SkipPoint) else None
    else if Skips(err) then
      if what == ReadOut || what == CountUp then None else Some(SkipPoint)
    else Some(Error(err))
  }

  /** An error of the highest rank is never let pass. */
  lemma HandleErrorMeans(what: What, err: Exc)
    ensures
      var r := HandleError(what, err);
      && (r == Some(Error(err)) <==> Rank(err) == 2)
      && (r == Some(SkipPoint) <==>
           (Rank(err) < 2 && what.Prepare?) || (Rank(err) == 1 && (what.Move? || what.Wait?)))
      && (r.None? || r == Some(SkipPoint) || r == Some(Error(err)))
  {
  }

  /** An `except NicosError as err: self.handleError(what, err)` clause. */
  function Except(what: What, t: Step): (r: Step) {
    if t.Some? && t.value.Error? && IsNicosError(t.value.exc) then HandleError(what, t.value.exc) else t
  }

  /** What leaves a `try` that raised `t` with a `finally` that raised `f`. */
  function Finally(t: Step, f: Step): Step {
    if f.Some? then f else t
  }

  /** Only these can come out of a device call. */
  predicate DeviceStep(t: Step) {
    t.None? || t.value.Error? || t.value.Stop?
  }

  ghost predicate DeviceSteps(starts: seq<Step>) {
    starts != [] ==> DeviceSteps(starts[..|starts| - 1]) && DeviceStep(starts[|starts| - 1])
  }

  // ---- Moving ----

  datatype MoveEvent =
    | Started(dev: nat, pos: real, result: Step)
    | Waited(devs: seq<nat>, result: Step)

  datatype Reading = Value(v: real) | NoValue

  datatype MoveResult =
    | Moved(results: map<nat, Reading>)
    | NotWaited
    | Threw(t: Throw)

  function Pairs(devices: seq<nat>, positions: seq<real>): (n: nat)
    ensures n <= |devices| && n <= |positions|
  {
    if |devices| < |positions| then |devices| else |positions|
  }

  ghost function AfterStarts(
    log: Trace<MoveEvent>, devices: seq<nat>, positions: seq<real>, starts: seq<Step>): Trace<MoveEvent>
    requires |starts| <= Pairs(devices, positions)
  {
    if starts == [] then log
    else
      var n := |starts| - 1;
      Then(AfterStarts(log, devices, positions, starts[..n]), Started(devices[n], positions[n], starts[n]))
  }

  /** The devices whose start() did not raise, in order. */
  ghost function Running(devices: seq<nat>, starts: seq<Step>): seq<nat>
    requires |starts| <= |devices|
  {
    if starts == [] then []
    else
      var n := |starts| - 1;
      Running(devices, starts[..n]) + if starts[n].None? then [devices[n]] else []
  }

  /** A failure to start that ends moveDevices at once. */
  ghost predicate FatalStart(t: Step) {
    Except(Move, t).Some? && Except(Move, t) != Some(SkipPoint)
  }

  ghost predicate NoFatalStart(starts: seq<Step>) {
    starts != [] ==> NoFatalStart(starts[..|starts| - 1]) && !FatalStart(starts[|starts| - 1])
  }

  ghost predicate SkippingStart(starts: seq<Step>) {
    starts != [] && (SkippingStart(starts[..|starts| - 1]) || Except(Move, starts[|starts| - 1]) == Some(SkipPoint))
  }

  /** The result of moving with waiting, after starts none of which was fatal:
      the failure of the wait decides first, then a start that asks to skip. */
  ghost predicate WaitedResult(out: MoveResult, starts: seq<Step>, waitResult: Step) {
    if Except(Wait, waitResult).Some? then out == Threw(Except(Wait, waitResult).value)
    else if SkippingStart(starts) then out == Threw(SkipPoint)
    else out != NotWaited && out != Threw(SkipPoint)
  }

  /** Every device was started towards its position or failed in a way the scan
      goes on from; with `wait`, the started ones were waited for and nothing
      asked to skip the point. */
  ghost predicate MovedVia(
    before: Trace<MoveEvent>, after: Trace<MoveEvent>, devs: seq<nat>, positions: seq<real>, wait: bool,
    starts: seq<Step>, waitResult: Step)
  {
    && |starts| == Pairs(devs, positions)
    && NoFatalStart(starts)
    && var started := AfterStarts(before, devs, positions, starts);
       if !wait then after == started
       else
         && !SkippingStart(starts)
         && Except(Wait, waitResult).None?
         && after == Then(started, Waited(Running(devs, starts), waitResult))
  }

  ghost predicate MovedTo(
    before: Trace<MoveEvent>, after: Trace<MoveEvent>, devs: seq<nat>, positions: seq<real>, wait: bool)
  {
    exists starts, waitResult :: MovedVia(before, after, devs, positions, wait, starts, waitResult)
  }

  /** Moved to the start position with waiting; then, if there is one, sent off
      to the end position without waiting. */
  ghost predicate MovedToPoint(
    before: Trace<MoveEvent>, after: Trace<MoveEvent>, devs: seq<nat>,
    startpos: seq<real>, hasEnd: bool, endpos: seq<real>)
  {
    if hasEnd
    then exists there :: MovedTo(before, there, devs, startpos, true) && MovedTo(there, after, devs, endpos, false)
    else MovedTo(before, after, devs, startpos, true)
  }

  /** moveDevices raised `t`: at once for a fatal start, otherwise as the wait and
      the starts that ask to skip decide. */
  ghost predicate ThrewVia(
    before: Trace<MoveEvent>, after: Trace<MoveEvent>, devs: seq<nat>, positions: seq<real>, wait: bool,
    starts: seq<Step>, waitResult: Step, t: Throw)
  {
    && |starts| <= Pairs(devs, positions)
    && var started := AfterStarts(before, devs, positions, starts);
       if NoFatalStart(starts) then
         && wait && |starts| == Pairs(devs, positions)
         && after == Then(started, Waited(Running(devs, starts), waitResult))
         && WaitedResult(Threw(t), starts, waitResult)
       else
         && NoFatalStart(starts[..|starts| - 1])
         && after == started
         && Some(t) == Except(Move, starts[|starts| - 1])
  }

  ghost predicate ThrewAt(
    before: Trace<MoveEvent>, after: Trace<MoveEvent>, devs: seq<nat>, positions: seq<real>, wait: bool, t: Step)
  {
    t.Some? && exists starts, waitResult ::
      ThrewVia(before, after, devs, positions, wait, starts, waitResult, t.value)
  }

  /** What was raised in the course of a point. */
  datatype Causes = Causes(
    move: Step,   // by preparePoint() or by moving
    count: Step,  // by beginPoint(), storing values, reading the environment or acquire()
    close: Step,  // by finishPoint() of the data manager
    last: Step)   // by the break point behind the point

  /** The `except` clauses around measuring: what handleError() makes of the
      failure, and no SkipPoint. */
  function Uncounted(failure: Step): Step {
    if Except(CountUp, failure) == Some(SkipPoint) then None else Except(CountUp, failure)
  }

  ghost predicate EndsBy(end: PointEnd, c: Causes) {
    match end
    case GivenUp => c.move.Some? && c.move != Some(SkipPoint)
    case SkippedOver => c.move.None?
    case Skip => c.move == Some(SkipPoint)
    case Measured => c.move.None?
    case _ => c.move.None? && c.count.Some? && c.close.None?
  }

  /** What the point raises: the break point prevails over a failure of
      measuring, but over a failure to move only if it raises no Exception. */
  ghost function PointRaises(end: PointEnd, c: Causes): Step {
    match end
    case GivenUp => if c.last == Some(Stop) then c.last else c.move
    case SkippedOver => None
    case Skip => c.last
    case _ => Finally(Uncounted(Finally(c.count, c.close)), c.last)
  }

  /** The point loop over `n` points raises `t`: what its last point raised. */
  ghost predicate LoopRaises(n: nat, ends: seq<PointEnd>, causes: seq<Causes>, t: Step) {
    && |causes| == |ends| <= n
    && (forall k :: 0 <= k < |ends| ==> EndsBy(ends[k], causes[k]))
    && (forall k :: 0 <= k < |ends| - 1 ==> PointRaises(ends[k], causes[k]).None?)
    && t == (if ends == [] then None else PointRaises(ends[|ends| - 1], causes[|ends| - 1]))
    && (t.None? ==> |ends| == n)
  }

  /** No point raised anything yet. */
  ghost predicate GoesOn(ends: seq<PointEnd>, causes: seq<Causes>) {
    && |causes| == |ends|
    && forall k :: 0 <= k < |ends| ==> EndsBy(ends[k], causes[k]) && PointRaises(ends[k], causes[k]).None?
  }

  lemma NoPoints(log: Log, positions: seq<seq<real>>, ends: seq<PointEnd>, causes: seq<Causes>)
    requires ends == [] && causes == []
    ensures GoesOn(ends, causes) && (positions == [] ==> LoopRaises(0, ends, causes, None))
    ensures AfterPoints(log, positions, ends) == log
  {
  }

  lemma PointAdded(
    log: Log, positions: seq<seq<real>>, ends: seq<PointEnd>, causes: seq<Causes>, end: PointEnd, c: Causes)
    requires GoesOn(ends, causes) && |ends| < |positions| && EndsBy(end, c)
    ensures
      var t := PointRaises(end, c);
      && (t.None? ==> GoesOn(ends + [end], causes + [c]))
      && (t.Some? || |ends| + 1 == |positions| ==> LoopRaises(|positions|, ends + [end], causes + [c], t))
    ensures AfterPoints(log, positions, ends + [end]) ==
      AfterPoint(AfterPoints(log, positions, ends), |ends|, positions[|ends|], end)
  {
    hide PointRaises, EndsBy, AfterPoint;
    assert (ends + [end])[..|ends|] == ends;
  }

  /** What was raised in the course of a run. */
  datatype RunCauses = RunCauses(
    prepare: Step,        // by prepareScan()
    prepared: Trace<MoveEvent>,  // the moves when preparing was over
    begin: Step,          // by beginScan()
    points: seq<Causes>,
    loop: Step,           // by the point loop
    end: Step)            // by endScan()

  /** A run over `n` points raises `t`. */
  ghost predicate RunRaises(n: nat, began: bool, completed: bool, ends: seq<PointEnd>, c: RunCauses, t: Step) {
    if began then
      && (c.prepare.None? || c.prepare == Some(SkipPoint)) && c.begin.None?
      && LoopRaises(n, ends, c.points, c.loop)
      && completed == c.loop.None?
      && t == Finally(if c.loop == Some(StopScan) then None else c.loop, c.end)
    else
      && !completed && ends == []
      && if c.prepare == Some(StopScan) then t.None?
         else if c.prepare.Some? && c.prepare != Some(SkipPoint) then t == c.prepare
         else c.begin.Some? && t == c.begin
  }

  /** `after` still holds all scopes of `before`, with `leaks` scopes left open on top. */
  ghost predicate Balanced(before: seq<string>, after: seq<string>, leaks: nat) {
    before <= after && |after| == |before| + leaks
  }

  /** The parts of the session a scan works with, its data manager included:
      `stack` holds the open data sets. */
  class Session {
    var actionStack: seq<string>
    var scanRunning: bool
    var stack: Stack
    ghost const stack0: Stack
    ghost var log: Log
    ghost var moves: Trace<MoveEvent>

    ghost predicate Valid()
      reads this
    {
      stack == StackOf(stack0, log)
    }

    constructor (stack: Stack)
      ensures actionStack == [] && !scanRunning && log == Start && moves == Start
      ensures this.stack == stack0 == stack && Valid()
    {
      actionStack, scanRunning := [], false;
      this.stack, stack0 := stack, stack;
      log, moves := Start, Start;
    }

    method BeginActionScope(what: string)
      modifies this`actionStack
      ensures actionStack == old(actionStack) + [what]
    {
      actionStack := actionStack + [what];
    }

    method EndActionScope()
      modifies this`actionStack
      ensures actionStack == if old(actionStack) == [] then [] else old(actionStack)[..|old(actionStack)| - 1]
    {
      if actionStack != [] {
        actionStack := actionStack[..|actionStack| - 1];
      }
    }

    method Breakpoint(level: nat) returns (t: Step)
      requires Valid()
      modifies this`log
      ensures Valid() && log == Then(old(log), Break(level))
    {
      log := Then(log, Break(level));
      t := *;
    }

    // ---- The data manager ----

    method Clean(upto: set<Kind>)
      modifies this`stack
      ensures stack == Cleaned(old(stack), upto)
    {
      while stack != [] && !TopIs(stack, upto)
        invariant Cleaned(stack, upto) == Cleaned(old(stack), upto)
        decreases |stack|
      {
        stack := stack[..|stack| - 1];  // failures to finish the data set are logged only
      }
    }

    method BeginScan() returns (t: Step)
      requires Valid()
      modifies this`stack, this`log
      ensures Valid()
      ensures t.None? ==> log == Begun(old(log))
      ensures t.Some? ==> NotBegunLog(old(log), log)
    {
      log := Then(log, ScanCalled);
      Clean({BLOCK});
      assert Valid();
      t := *;  // creating the handlers
      if t.Some? {
        return;
      }
      log := Then(log, ScanPushed);
      stack := stack + [DataSet(SCAN, 0)];
      assert Valid();
      t := *;  // dispatching to the handlers
      if t.None? {
        log := Then(log, Event.BeginScan);
      }
    }

    method BeginPoint(num: nat, pos: seq<real>) returns (t: Step, ghost end: PointEnd)
      requires Valid()
      modifies this`stack, this`log
      ensures Valid()
      ensures log == AfterMeasuring(old(log), num, pos, end)
      ensures if t.None? then end.LeftOpen? else end.NotBegun? || end.HalfBegun?
    {
      log := Then(log, Target(num, pos));
      Clean(NOT_POINTS);
      assert Valid();
      t := *;  // creating the handlers
      end := NotBegun;
      if t.Some? {
        return;
      }
      log := Then(log, Pushed(num));
      stack := stack + [DataSet(POINT, num)];
      assert Valid();
      t := *;  // dispatching to the handlers
      end := HalfBegun;
      if t.None? {
        log := Then(log, Opened(num));
        end := LeftOpen;
      }
    }

    method FinishPoint(num: nat) returns (t: Step)
      requires Valid()
      modifies this`stack, this`log
      ensures Valid() && log == Then(old(log), Closed(num))
    {
      log := Then(log, Closed(num));
      if stack == [] {
        return Some(Error(Exc(ForeignError, 0)));  // AttributeError
      }
      t := None;
      if TopIs(stack, {POINT}) {
        stack := stack[..|stack| - 1];
        t := *;  // finishing the data set
      }
    }

    method FinishScan() returns (t: Step)
      requires Valid()
      modifies this`stack, this`log
      ensures Valid() && log == Then(old(log), EndScan)
    {
      log := Then(log, EndScan);
      if stack == [] {
        return Some(Error(Exc(ForeignError, 0)));  // AttributeError
      }
      t := None;
      if TopIs(stack, {SCAN, SUBSCAN}) {
        stack := stack[..|stack| - 1];
        t := *;  // finishing the data set
      }
    }
  }

  class Scan {
    const session: Session
    const devices: seq<nat>
    const startpositions: seq<seq<real>>
    const endpositions: seq<seq<real>>
    const firstmoves: seq<(nat, real)>

    constructor (
      session: Session, devices: seq<nat>, startpositions: seq<seq<real>>,
      endpositions: seq<seq<real>>, firstmoves: seq<(nat, real)>)
      ensures this.session == session && this.devices == devices && this.firstmoves == firstmoves
      ensures this.startpositions == startpositions && this.endpositions == endpositions
    {
      this.session, this.devices, this.firstmoves := session, devices, firstmoves;
      this.startpositions, this.endpositions := startpositions, endpositions;
    }

    /** The start loop of moveDevices.  A fatal start ends it at once. */
    method StartAll(devs: seq<nat>, positions: seq<real>)
      returns (fatal: Step, skip: bool, waitdevs: seq<nat>, ghost starts: seq<Step>)
      modifies session`moves
      ensures |starts| <= Pairs(devs, positions) && DeviceSteps(starts)
      ensures session.moves == AfterStarts(old(session.moves), devs, positions, starts)
      ensures fatal.None? ==> |starts| == Pairs(devs, positions) && NoFatalStart(starts)
      ensures fatal.None? ==> waitdevs == Running(devs, starts) && (skip <==> SkippingStart(starts))
      ensures fatal.Some? ==> starts != [] && NoFatalStart(starts[..|starts| - 1])
      ensures fatal.Some? ==> FatalStart(starts[|starts| - 1]) && fatal == Except(Move, starts[|starts| - 1])
      ensures fatal != Some(SkipPoint) && fatal != Some(StopScan)
    {
      fatal, skip, waitdevs, starts := None, false, [], [];
      for k := 0 to Pairs(devs, positions)
        invariant |starts| == k && fatal.None? && NoFatalStart(starts)
        invariant DeviceSteps(starts)
        invariant session.moves == AfterStarts(old(session.moves), devs, positions, starts)
        invariant waitdevs == Running(devs, starts)
        invariant skip <==> SkippingStart(starts)
      {
        var r: Step :| DeviceStep(r);  assert DeviceStep(r);
        session.moves := Then(session.moves, Started(devs[k], positions[k], r));
        ghost var before := starts;
        starts := starts + [r];
        assert starts[..k] == before && starts[k] == r;
        var handled := Except(Move, r);
        if r.None? {
          waitdevs := waitdevs + [devs[k]];
        } else if handled == Some(SkipPoint) {
          skip := true;
        } else if handled.Some? {
          fatal := handled;
          break;
        }
      }
    }

    /** Moves the devices; with `wait`, a normal return and a SkipPoint come
        only after every started device went through multiWait. */
    method MoveDevices(devs: seq<nat>, positions: seq<real>, wait: bool)
      returns (out: MoveResult, ghost starts: seq<Step>, ghost waitResult: Step)
      modifies session`moves
      ensures |starts| <= Pairs(devs, positions) && DeviceSteps(starts)
      // a fatal start ends it at once, otherwise every device is tried
      ensures NoFatalStart(starts) ==> |starts| == Pairs(devs, positions)
      ensures !NoFatalStart(starts) ==>
        && NoFatalStart(starts[..|starts| - 1])
        && out == Threw(Except(Move, starts[|starts| - 1]).value)
      // what the devices saw
      ensures session.moves ==
        var started := AfterStarts(old(session.moves), devs, positions, starts);
        if NoFatalStart(starts) && wait then Then(started, Waited(Running(devs, starts), waitResult)) else started
      // the result
      ensures NoFatalStart(starts) && !wait ==> out == NotWaited
      ensures NoFatalStart(starts) && wait ==> WaitedResult(out, starts, waitResult)
      ensures out.Moved? ==> wait && NoFatalStart(starts) && out.results.Keys == set d | d in Running(devs, starts)
      ensures out == Threw(SkipPoint) ==> wait && NoFatalStart(starts)
      ensures out != Threw(StopScan)
    {
      waitResult := None;
      var fatal, skip, waitdevs;
      fatal, skip, waitdevs, starts := StartAll(devs, positions);
      if fatal.Some? {
        out := Threw(fatal.value);
        return;
      }
      if !wait {
        out := NotWaited;
        return;
      }
      var w: Step :| DeviceStep(w);  assert DeviceStep(w);
      session.moves := Then(session.moves, Waited(waitdevs, w));
      waitResult := w;
      out := AfterWaiting(waitdevs, skip, w);
    }

    /** moveDevices from the end of multiWait on. */
    method AfterWaiting(waitdevs: seq<nat>, skip: bool, w: Step) returns (out: MoveResult)
      requires DeviceStep(w)
      ensures Except(Wait, w).Some? ==> out == Threw(Except(Wait, w).value)
      ensures Except(Wait, w).None? && skip ==> out == Threw(SkipPoint)
      ensures Except(Wait, w).None? && !skip ==> !out.NotWaited? && out != Threw(SkipPoint)
      ensures out.Moved? ==> out.results.Keys == set d | d in waitdevs
      ensures out != Threw(StopScan)
    {
      var results: map<nat, Reading> := map[];
      if w.None? {
        results := ReadAll(waitdevs);
      } else {
        var handled := Except(Wait, w);
        if handled.Some? {
          return Threw(handled.value);
        }
      }
      if skip {
        return Threw(SkipPoint);
      }
      out := ReadMissing(waitdevs, results);
    }

    /** The values multiWait returns: one for each given device. */
    method ReadAll(devs: seq<nat>) returns (results: map<nat, Reading>)
      ensures results.Keys == set d | d in devs
    {
      results := map[];
      for k := 0 to |devs|
        invariant results.Keys == set d | d in devs[..k]
      {
        var v: real := *;
        results := results[devs[k] := Value(v)];
      }
    }

    /** Devices that failed to move but do not stop the scan are read here. */
    method ReadMissing(devs: seq<nat>, results0: map<nat, Reading>) returns (out: MoveResult)
      requires results0.Keys <= set d | d in devs
      ensures out.Moved? || (out.Threw? && (out.t.Error? || out.t.Stop?))
      ensures out.Moved? ==> out.results.Keys == set d | d in devs
      ensures out.Moved? ==> forall d :: d in results0 ==> out.results[d] == results0[d]
    {
      var results := results0;
      for k := 0 to |devs|
        invariant results.Keys == results0.Keys + set d | d in devs[..k]
        invariant forall d :: d in results0 ==> results[d] == results0[d]
      {
        if devs[k] !in results {
          var r: Step :| DeviceStep(r);  assert DeviceStep(r);
          if r.None? {
            var v: real := *;
            results := results[devs[k] := Value(v)];
          } else if r.value.Error? && IsNicosError(r.value.exc) {
            results := results[devs[k] := NoValue];
          } else {
            return Threw(r.value);
          }
        }
      }
      out := Moved(results);
    }

    function FirstDevices(): seq<nat> {
      seq(|firstmoves|, k requires 0 <= k < |firstmoves| => firstmoves[k].0)
    }

    function FirstPositions(): seq<real> {
      seq(|firstmoves|, k requires 0 <= k < |firstmoves| => firstmoves[k].1)
    }

    /** The first moves were made, if there are any, and then the move to `position`. */
    ghost predicate Prepared(before: Trace<MoveEvent>, after: Trace<MoveEvent>, position: seq<real>) {
      if firstmoves == [] then MovedTo(before, after, devices, position, true)
      else exists there ::
        MovedTo(before, there, FirstDevices(), FirstPositions(), true) && MovedTo(there, after, devices, position, true)
    }

    ghost predicate NotPrepared(before: Trace<MoveEvent>, after: Trace<MoveEvent>, position: seq<real>, t: Step) {
      if firstmoves == [] then ThrewAt(before, after, devices, position, true, t)
      else
        || ThrewAt(before, after, FirstDevices(), FirstPositions(), true, t)
        || exists there ::
             MovedTo(before, there, FirstDevices(), FirstPositions(), true)
             && ThrewAt(there, after, devices, position, true, t)
    }

    method PrepareScan(position: seq<real>) returns (t: Step)
      modifies session`moves, session`actionStack
      ensures session.actionStack == old(session.actionStack)
      ensures t.None? ==> Prepared(old(session.moves), session.moves, position)
      ensures t.Some? ==> NotPrepared(old(session.moves), session.moves, position, t)
    {
      session.BeginActionScope("Moving to start");
      t := None;
      if firstmoves != [] {
        var m;
        ghost var starts, w;
        m, starts, w := MoveDevices(FirstDevices(), FirstPositions(), true);
        t := if m.Threw? then Some(m.t) else None;
        assert t.None? ==>
          MovedVia(old(session.moves), session.moves, FirstDevices(), FirstPositions(), true, starts, w);
        assert t.Some? ==>
          ThrewVia(old(session.moves), session.moves, FirstDevices(), FirstPositions(), true, starts, w, t.value);
      }
      ghost var there := session.moves;
      assert t.None? && firstmoves != [] ==> MovedTo(old(session.moves), there, FirstDevices(), FirstPositions(), true);
      if t.None? {
        var m;
        ghost var starts, w;
        m, starts, w := MoveDevices(devices, position, true);
        t := if m.Threw? then Some(m.t) else None;
        assert t.None? ==> MovedVia(there, session.moves, devices, position, true, starts, w);
        assert t.None? ==> MovedTo(there, session.moves, devices, position, true);
        assert t.Some? ==> ThrewVia(there, session.moves, devices, position, true, starts, w, t.value);
        assert t.Some? ==> ThrewAt(there, session.moves, devices, position, true, t);
      }
      session.EndActionScope();
    }

    /** `endScan` */
    method EndScanSet() returns (t: Step)
      requires session.Valid()
      modifies session`stack, session`log
      ensures session.Valid()
      ensures
        var ended := Then(old(session.log), EndScan);
        session.log == ended || session.log == Then(ended, Break(1))
    {
      t := session.FinishScan();
      if t.None? {
        t := session.Breakpoint(1);
      }
    }

    /** Hooks that a scan class may override. */
    method PreparePoint() returns (t: Step)
    {
      t := *;
    }

    method FinishPoint() returns (t: Step)
      requires session.Valid()
      modifies session`log
      ensures session.Valid() && session.log == Then(old(session.log), Break(2))
    {
      t := session.Breakpoint(2);
    }

    ghost predicate ArrivedAt(i: nat, before: Trace<MoveEvent>, after: Trace<MoveEvent>)
      requires i < |startpositions|
    {
      && (endpositions != [] ==> i < |endpositions|)
      && MovedToPoint(before, after, devices, startpositions[i],
           endpositions != [], if endpositions != [] then endpositions[i] else [])
    }

    /** Moving to point `i` raised `t`. */
    ghost predicate NotArrivedAt(i: nat, before: Trace<MoveEvent>, after: Trace<MoveEvent>, t: Step)
      requires i < |startpositions|
    {
      || ThrewAt(before, after, devices, startpositions[i], true, t)
      || (endpositions != [] && exists there ::
            && MovedTo(before, there, devices, startpositions[i], true)
            && if i < |endpositions| then ThrewAt(there, after, devices, endpositions[i], false, t)
               else after == there && t == Some(Error(Exc(ForeignError, 0))))
    }

    /** The part of a point that may be skipped: moving. */
    method MoveToPoint(i: nat, skipFirst: bool) returns (t: Step, over: bool)
      requires i < |startpositions|
      modifies session`moves
      ensures over ==> i == 0 && skipFirst && t.None? && session.moves == old(session.moves)
      ensures t.None? && !over ==> ArrivedAt(i, old(session.moves), session.moves)
      ensures t.Some? ==> session.moves == old(session.moves) || NotArrivedAt(i, old(session.moves), session.moves, t)
      ensures i == 0 && skipFirst ==> (over || t.Some?) && session.moves == old(session.moves)
    {
      over := false;
      t := PreparePoint();
      if t.Some? {
        return;
      }
      if i == 0 && skipFirst {
        return None, true;
      }
      ghost var starts, w;
      var m;
      m, starts, w := MoveDevices(devices, startpositions[i], true);
      if m.Threw? {
        assert ThrewVia(old(session.moves), session.moves, devices, startpositions[i], true, starts, w, m.t);
        return Some(m.t), false;
      }
      ghost var there := session.moves;
      assert MovedVia(old(session.moves), there, devices, startpositions[i], true, starts, w);
      assert MovedTo(old(session.moves), there, devices, startpositions[i], true);
      if endpositions != [] {
        if i >= |endpositions| {
          return Some(Error(Exc(ForeignError, 0))), false;  // IndexError
        }
        m, starts, w := MoveDevices(devices, endpositions[i], false);
        if m.Threw? {
          assert ThrewVia(there, session.moves, devices, endpositions[i], false, starts, w, m.t);
          assert ThrewAt(there, session.moves, devices, endpositions[i], false, Some(m.t));
          return Some(m.t), false;
        }
        assert MovedVia(there, session.moves, devices, endpositions[i], false, starts, w);
        assert MovedTo(there, session.moves, devices, endpositions[i], false);
      }
    }

    /** Measuring one point, with its `except NicosError` and `except SkipPoint` clauses. */
    method Measure(i: nat)
      returns (t: Step, ghost end: PointEnd, ghost leaks: nat, ghost count: Step, ghost close: Step)
      requires i < |startpositions| && session.Valid()
      modifies session`stack, session`log, session`actionStack
      ensures session.Valid()
      ensures Balanced(old(session.actionStack), session.actionStack, leaks)
      ensures leaks > 0 ==> leaks == 1 && end.Measured?
      ensures ReachesTarget(end)
      ensures !end.Measured? ==> count.Some? && close.None?
      ensures t == Uncounted(Finally(count, close))
      ensures session.log == AfterMeasuring(old(session.log), i, startpositions[i], end)
    {
      leaks, close := 0, None;
      t, end := session.BeginPoint(i, startpositions[i]);
      count := t;
      if t.None? {
        t := *;  // putValues, readEnvironment
        count := t;
        if t.None? {
          session.log := Then(session.log, Counted(i));
          t := *;  // acquire
          count := t;
          var unclosed: bool := *;
          if t.Some? && unclosed {
            // raised outside the two `try` statements of acquire
            session.BeginActionScope("Counting");
            leaks := 1;
          }
          var f := session.FinishPoint(i);
          end, close := Measured, f;
          if f.Some? {
            t := f;
          }
        }
      }
      t := Except(CountUp, t);
      if t == Some(SkipPoint) {
        t := None;
      }
    }

    /** What point `i` moved: to its positions if it was measured; nowhere if it is
        the first and is to be skipped. */
    ghost predicate PointMoved(
      i: nat, skipFirst: bool, end: PointEnd, c: Causes, before: Trace<MoveEvent>, after: Trace<MoveEvent>)
      requires i < |startpositions|
    {
      && (end.SkippedOver? ==> i == 0 && skipFirst && after == before)
      && (ReachesTarget(end) ==> ArrivedAt(i, before, after))
      && (end.GivenUp? || end.Skip? ==> after == before || NotArrivedAt(i, before, after, c.move))
      && (i == 0 && skipFirst ==> !ReachesTarget(end) && after == before)
    }

    /** The moves of the points so far; `places` are the moves made before each of them
        and after the last. */
    ghost predicate PointsMoved(
      skipFirst: bool, ends: seq<PointEnd>, causes: seq<Causes>, places: seq<Trace<MoveEvent>>)
    {
      && |causes| == |ends| <= |startpositions| && |places| == |ends| + 1
      && forall k :: 0 <= k < |ends| ==>
           PointMoved(k, skipFirst, ends[k], causes[k], places[k], places[k + 1])
    }

    lemma OneMoreMoved(
      skipFirst: bool, ends: seq<PointEnd>, causes: seq<Causes>, places: seq<Trace<MoveEvent>>,
      end: PointEnd, c: Causes, after: Trace<MoveEvent>)
      requires PointsMoved(skipFirst, ends, causes, places) && |ends| < |startpositions|
      requires PointMoved(|ends|, skipFirst, end, c, places[|ends|], after)
      ensures PointsMoved(skipFirst, ends + [end], causes + [c], places + [after])
    {
      hide PointMoved;
    }

    /** One pass of the point loop. */
    method Point(i: nat, skipFirst: bool)
      returns (t: Step, ghost end: PointEnd, ghost leaks: nat, ghost causes: Causes)
      requires i < |startpositions| && session.Valid()
      modifies session`stack, session`log, session`moves, session`actionStack
      ensures session.Valid()
      ensures Balanced(old(session.actionStack), session.actionStack, leaks)
      ensures leaks > 0 ==> leaks == 1 && end.Measured?
      ensures session.log == AfterPoint(old(session.log), i, startpositions[i], end)
      ensures end.GivenUp? ==> t.Some?
      ensures EndsBy(end, causes) && t == PointRaises(end, causes)
      ensures PointMoved(i, skipFirst, end, causes, old(session.moves), session.moves)
    {
      session.BeginActionScope("Point");
      leaks := 0;
      var over;
      t, over := MoveToPoint(i, skipFirst);
      causes := Causes(t, None, None, None);
      if over {
        session.log := Then(session.log, Skipped(i));
        end := SkippedOver;
      } else if t == Some(SkipPoint) {
        session.log := Then(session.log, Skipped(i));
        t := session.Breakpoint(2);
        end, causes := Skip, causes.(last := t);
      } else if t.Some? {
        var f := FinishPoint();
        if f == Some(Stop) {
          t := f;
        }
        end, causes := GivenUp, causes.(last := f);
      } else {
        ghost var count, close;
        t, end, leaks, count, close := Measure(i);
        var f := FinishPoint();
        causes := Causes(None, count, close, f);
        if f.Some? {
          t := f;
        }
      }
      session.EndActionScope();
    }

    method PointLoop(skipFirst: bool)
      returns (t: Step, ghost ends: seq<PointEnd>, ghost leaks: nat, ghost causes: seq<Causes>,
               ghost places: seq<Trace<MoveEvent>>)
      requires session.Valid()
      modifies session`stack, session`log, session`moves, session`actionStack
      ensures session.Valid()
      ensures Balanced(old(session.actionStack), session.actionStack, leaks)
      ensures leaks > 0 ==> Measured in ends
      ensures |ends| <= |startpositions|
      ensures session.log == AfterPoints(old(session.log), startpositions, ends)
      ensures LoopRaises(|startpositions|, ends, causes, t)
      ensures t.None? ==> GivenUp !in ends
      ensures PointsMoved(skipFirst, ends, causes, places)
      ensures places[0] == old(session.moves) && places[|ends|] == session.moves
    {
      hide AfterPoint, AfterPoints, PointRaises, EndsBy, PointMoved;
      hide StackOf, LoopRaises, GoesOn;
      ends, leaks, causes, places := [], 0, [], [session.moves];
      t := None;
      NoPoints(session.log, startpositions, ends, causes);
      for i := 0 to |startpositions|
        invariant t.None? && |ends| == i && GivenUp !in ends && session.Valid()
        invariant PointsMoved(skipFirst, ends, causes, places)
        invariant places[0] == old(session.moves) && places[i] == session.moves
        invariant Balanced(old(session.actionStack), session.actionStack, leaks)
        invariant leaks > 0 ==> Measured in ends
        invariant GoesOn(ends, causes)
        invariant i == |startpositions| ==> LoopRaises(|startpositions|, ends, causes, None)
        invariant session.log == AfterPoints(old(session.log), startpositions, ends)
      {
        ghost var end, n, c;
        t, end, n, c := Point(i, skipFirst);
        leaks := leaks + n;
        PointAdded(old(session.log), startpositions, ends, causes, end, c);
        OneMoreMoved(skipFirst, ends, causes, places, end, c, session.moves);
        ends, causes, places := ends + [end], causes + [c], places + [session.moves];
        if t.Some? {
          break;
        }
      }
    }

    /** The moves of a run: preparing, if there is a point, and then those of the
        points, the first of which moves nowhere if preparing asked to skip it. */
    ghost predicate RunMoved(
      began: bool, ends: seq<PointEnd>, c: RunCauses, before: Trace<MoveEvent>, after: Trace<MoveEvent>)
    {
      && (if startpositions == [] then c.prepare.None? && c.prepared == before
          else if c.prepare.None? then Prepared(before, c.prepared, startpositions[0])
          else NotPrepared(before, c.prepared, startpositions[0], c.prepare))
      && (!began ==> after == c.prepared)
      && (began ==> exists places :: PointsMovedFrom(ends, c, places, after))
    }

    ghost predicate PointsMovedFrom(
      ends: seq<PointEnd>, c: RunCauses, places: seq<Trace<MoveEvent>>, after: Trace<MoveEvent>)
    {
      && PointsMoved(c.prepare == Some(SkipPoint), ends, c.points, places)
      && places[0] == c.prepared && places[|ends|] == after
    }

    /** `_inner_run`.  `began` tells that beginScan() succeeded, `completed` that
        the point loop ran to its end. */
    method InnerRun()
      returns (t: Step, ghost began: bool, ghost completed: bool, ghost ends: seq<PointEnd>, ghost leaks: nat,
               ghost causes: RunCauses)
      requires session.Valid()
      modifies session`stack, session`log, session`moves, session`actionStack
      ensures session.Valid()
      ensures Balanced(old(session.actionStack), session.actionStack, leaks)
      ensures leaks > 0 ==> Measured in ends
      ensures |ends| <= |startpositions|
      ensures !began ==> NotBegunLog(old(session.log), session.log)
      ensures began ==> RunLog(old(session.log), startpositions, ends, session.log)
      ensures completed ==> began && |ends| == |startpositions| && GivenUp !in ends
      ensures RunRaises(|startpositions|, began, completed, ends, causes, t)
      ensures RunMoved(began, ends, causes, old(session.moves), session.moves)
    {
      began, completed, ends, leaks := false, false, [], 0;
      causes := RunCauses(None, session.moves, None, [], None, None);
      var skipFirst := false;
      if startpositions != [] {
        t := PrepareScan(startpositions[0]);
        causes := causes.(prepare := t, prepared := session.moves);
        if t == Some(StopScan) {
          return None, began, completed, ends, leaks, causes;
        } else if t == Some(SkipPoint) {
          skipFirst := true;
        } else if t.Some? {
          return;
        }
      }
      t := session.BeginScan();
      causes := causes.(begin := t);
      if t.Some? {
        return;
      }
      began := true;
      ghost var points, places;
      t, ends, leaks, points, places := PointLoop(skipFirst);
      completed, causes := t.None?, causes.(points := points, loop := t);
      if t == Some(StopScan) {
        t := None;
      }
      var e := EndScanSet();
      causes := causes.(end := e);
      assert PointsMovedFrom(ends, causes, places, session.moves);
      if e.Some? {
        t := e;
      }
    }

    ghost predicate RunAsCaused(
      began: bool, completed: bool, ends: seq<PointEnd>, c: RunCauses, t: Step,
      before: Trace<MoveEvent>, after: Trace<MoveEvent>)
    {
      && RunRaises(|startpositions|, began, completed, ends, c, t)
      && RunMoved(began, ends, c, before, after)
    }

    /** `run`: refused while another scan runs.  Otherwise the running flag is
        reset however the scan ends, and so are the action scopes, except for
        one scope for each acquisition that left its own scope open. */
    method Run()
      returns (t: Step, ghost began: bool, ghost completed: bool, ghost ends: seq<PointEnd>, ghost leaks: nat,
               ghost causes: RunCauses)
      requires session.Valid()
      modifies session
      ensures session.Valid()
      ensures Balanced(old(session.actionStack), session.actionStack, leaks)
      ensures leaks > 0 ==> Measured in ends
      ensures old(session.scanRunning) ==>
        t.Some? && !began && session.scanRunning && session.moves == old(session.moves)
      ensures !old(session.scanRunning) ==> !session.scanRunning
      ensures |ends| <= |startpositions|
      ensures !began ==> NotBegunLog(old(session.log), session.log)
      ensures began ==> RunLog(old(session.log), startpositions, ends, session.log)
      ensures completed ==> began && |ends| == |startpositions| && GivenUp !in ends
      // refused, or the acquisition thread of before could not be stopped, or as the run ended
      ensures old(session.scanRunning) ==> t == Some(Error(Exc(OtherNicosError, 0)))
      ensures !old(session.scanRunning) ==>
        || (t.Some? && !began && session.log == old(session.log) && session.moves == old(session.moves))
        || RunAsCaused(began, completed, ends, causes, t, old(session.moves), session.moves)
      ensures began ==> RunAsCaused(began, completed, ends, causes, t, old(session.moves), session.moves)
    {
      began, completed, ends, leaks := false, false, [], 0;
      causes := RunCauses(None, session.moves, None, [], None, None);
      if session.scanRunning {
        return Some(Error(Exc(OtherNicosError, 0))), began, completed, ends, leaks, causes;
      }
      t := *;  // stop_acquire_thread
      if t.Some? {
        return;
      }
      session.scanRunning := true;
      session.BeginActionScope("Scan");
      t, began, completed, ends, leaks, causes := InnerRun();
      session.EndActionScope();
      session.scanRunning := false;
    }
  }

  ghost predicate AsksToSkip(t: Step) {
    t.Some? && t.value.Error? && Rank(t.value.exc) == 1
  }

  ghost predicate Ends(t: Step) {
    t.Some? && (t.value.Error? ==> Rank(t.value.exc) == 2)
  }

  /** Among the starts a device can give, an error of the highest rank or a stop
      ends the move, and one of the middle rank asks to skip the point. */
  lemma {:induction false} StartsMeaning(starts: seq<Step>)
    requires DeviceSteps(starts)
    ensures NoFatalStart(starts) <==> forall k :: 0 <= k < |starts| ==> !Ends(starts[k])
    ensures SkippingStart(starts) <==> exists k :: 0 <= k < |starts| && AsksToSkip(starts[k])
  {
    if starts != [] {
      var n := |starts| - 1;
      var before := starts[..n];
      StartsMeaning(before);
      assert forall k :: 0 <= k < n ==> before[k] == starts[k];
      assert DeviceStep(starts[n]);
      assert FatalStart(starts[n]) <==> Ends(starts[n]);
      assert Except(Move, starts[n]) == Some(SkipPoint) <==> AsksToSkip(starts[n]);
    }
  }

  /** A failure of measuring ends the scan exactly if it is an error of the highest
      rank, a stop, or StopScan; unless the break point raises, it is then what the
      point raises. */
  lemma MeasuringRaises(end: PointEnd, c: Causes)
    requires ReachesTarget(end) && c.last.None?
    ensures
      var failure := Finally(c.count, c.close);
      && PointRaises(end, c) in {None, failure}
      && (PointRaises(end, c).None? <==>
          failure.None? || failure.value.SkipPoint? || (failure.value.Error? && Rank(failure.value.exc) < 2))
  {
  }

  /** A run that began ends without an exception exactly if endScan() does and
      every point that raised anything raised StopScan. */
  lemma RunReturnsIff(n: nat, completed: bool, ends: seq<PointEnd>, c: RunCauses, t: Step)
    requires RunRaises(n, true, completed, ends, c, t)
    ensures t.None? <==> c.end.None? && forall k :: 0 <= k < |ends| ==>
      PointRaises(ends[k], c.points[k]) in {None, Some(StopScan)}
    ensures completed <==> |ends| == n && forall k :: 0 <= k < |ends| ==> PointRaises(ends[k], c.points[k]).None?
    ensures t.Some? && c.end.None? ==> ends != [] && t == PointRaises(ends[|ends| - 1], c.points[|ends| - 1])
  {
  }

  /** The log of a run whose beginScan() returned. */
  ghost predicate RunLog(log0: Log, positions: seq<seq<real>>, ends: seq<PointEnd>, log: Log)
    requires |ends| <= |positions|
  {
    var ended := Then(AfterPoints(Begun(log0), positions, ends), EndScan);
    log == ended || log == Then(ended, Break(1))
  }

  /** The calls of every run whose beginScan() returned, after any earlier calls:
      one finishScan() for the one beginScan(); targets in the order of the start
      positions; and without a point given up, exactly the points not skipped. */
  lemma RunIsWellFormed(log0: Log, positions: seq<seq<real>>, ends: seq<PointEnd>, log: Log)
    requires |ends| <= |positions| && RunLog(log0, positions, ends, log)
    ensures Count(log, BeginScan) == Count(log0, BeginScan) + 1 && Count(log, EndScan) == Count(log0, EndScan) + 1
    ensures Targets(log) == Targets(log0) + NewTargets(positions, ends)
    ensures SkippedPoints(log) == SkippedPoints(log0) + NewSkips(ends)
    ensures InOrder(NewTargets(positions, ends), positions)
    ensures GivenUp !in ends ==> forall i: nat :: i < |ends| ==>
      ((i, positions[i]) in NewTargets(positions, ends) <==> i !in NewSkips(ends))
  {
    hide AfterPoints, InOrder, NewTargets, NewSkips;
    var called := Then(log0, ScanCalled);
    var pushed := Then(called, ScanPushed);
    var begun := Then(pushed, BeginScan);
    var points := AfterPoints(begun, positions, ends);
    var ended := Then(points, EndScan);
    assert Targets(called) == Targets(log0) && Targets(pushed) == Targets(called) && Targets(begun) == Targets(pushed);
    assert SkippedPoints(called) == SkippedPoints(log0) && SkippedPoints(pushed) == SkippedPoints(called);
    assert SkippedPoints(begun) == SkippedPoints(pushed);
    forall e | e == BeginScan || e == EndScan
      ensures Count(pushed, e) == Count(called, e) == Count(log0, e)
      ensures Count(begun, e) == Count(log0, e) + if e == BeginScan then 1 else 0
    {
    }
    PointsAdd(begun, positions, ends);
    TargetsInOrder(positions, ends);
    assert Targets(ended) == Targets(points) && SkippedPoints(ended) == SkippedPoints(points);
    assert Count(ended, BeginScan) == Count(points, BeginScan) && Count(ended, EndScan) == Count(points, EndScan) + 1;
    if GivenUp !in ends {
      MeasuredOrSkipped(positions, ends);
    }
  }

  /** The data sets of every run whose beginScan() returned: points open, count and
      close in strict alternation.  The scan is finished, with nothing left of it
      on the stack, exactly if the last point that called beginPoint() did not
      leave its data set there; otherwise both stay. */
  lemma RunFinishesScan(s0: Stack, log0: Log, positions: seq<seq<real>>, ends: seq<PointEnd>, log: Log)
    requires |ends| <= |positions| && RunLog(log0, positions, ends, log) && Nested(s0, log0)
    ensures
      var base := Cleaned(StackOf(s0, log0), {BLOCK});
      && Nested(s0, log)
      && StackOf(s0, log) == (if OpenPoint(ends).None? then base else InScan(base, OpenPoint(ends)))
      && (StackOf(s0, log) == base <==> OpenPoint(ends).None?)
  {
    hide AfterPoints, Cleaned, OpenPoint;
    var base := Cleaned(StackOf(s0, log0), {BLOCK});
    var called := Then(log0, ScanCalled);
    var pushed := Then(called, ScanPushed);
    var begun := Then(pushed, BeginScan);
    assert StackOf(s0, called) == base && Nested(s0, called);
    assert base + [DataSet(SCAN, 0)] == InScan(base, None);
    assert StackOf(s0, pushed) == InScan(base, None) && Nested(s0, pushed);
    assert StackOf(s0, begun) == InScan(base, None) && Nested(s0, begun);
    PointsAlternate(s0, base, begun, positions, ends);
    var points := AfterPoints(begun, positions, ends);
    var ended := Then(points, EndScan);
    assert InScan(base, None)[..|base|] == base;
    assert StackOf(s0, ended) == Finished(InScan(base, OpenPoint(ends)), {SCAN, SUBSCAN}) && Nested(s0, ended);
  }

  /** What a run leaves behind, or a beginScan() that raised, is finished by the
      next beginScan(). */
  lemma NextScanCleansUp(s0: Stack, log0: Log, log: Log, left: Option<nat>)
    requires
      var base := Cleaned(StackOf(s0, log0), {BLOCK});
      StackOf(s0, log) == InScan(base, left) || NotBegunLog(log0, log)
    ensures StackOf(s0, Begun(log)) == InScan(Cleaned(StackOf(s0, log0), {BLOCK}), None)
  {
    var base := Cleaned(StackOf(s0, log0), {BLOCK});
    BegunStack(s0, log);
    CleanedTwice(StackOf(s0, log0), {BLOCK});
    CleanedOn(base, left, {BLOCK});
    CleanedOn(base, None, {BLOCK});
    if NotBegunLog(log0, log) {
      NotBegunStack(s0, log0, log);
    }
    hide Cleaned, StackOf, NotBegunLog, Begun;
  }

  lemma BegunStack(s0: Stack, log: Log)
    ensures StackOf(s0, Begun(log)) == InScan(Cleaned(StackOf(s0, log), {BLOCK}), None)
  {
    hide Cleaned;
    var called := Then(log, ScanCalled);
    var pushed := Then(called, ScanPushed);
    var base := Cleaned(StackOf(s0, log), {BLOCK});
    assert StackOf(s0, called) == base;
    assert StackOf(s0, pushed) == base + [DataSet(SCAN, 0)] == InScan(base, None);
  }

  lemma NotBegunStack(s0: Stack, log0: Log, log: Log)
    requires NotBegunLog(log0, log)
    ensures
      var base := Cleaned(StackOf(s0, log0), {BLOCK});
      log == log0 || StackOf(s0, log) == base || StackOf(s0, log) == InScan(base, None)
  {
    hide Cleaned;
    var called := Then(log0, ScanCalled);
    var base := Cleaned(StackOf(s0, log0), {BLOCK});
    assert StackOf(s0, called) == base;
    assert StackOf(s0, Then(called, ScanPushed)) == base + [DataSet(SCAN, 0)] == InScan(base, None);
  }

  lemma {:induction false} CleanedTwice(s: Stack, upto: set<Kind>)
    ensures Cleaned(Cleaned(s, upto), upto) == Cleaned(s, upto)
  {
  }

  lemma CleanedOn(base: Stack, left: Option<nat>, upto: set<Kind>)
    requires Cleaned(base, upto) == base && upto == {BLOCK}
    ensures Cleaned(InScan(base, left), upto) == base
  {
    var scan := InScan(base, None);
    assert scan[..|scan| - 1] == base;
    assert Cleaned(scan, upto) == base;
    if left.Some? {
      var s := InScan(base, left);
      assert s[..|s| - 1] == scan;
    }
  }
}
