/** The calls a scan makes to the data manager and at its break points, as a
    log; the data sets these calls leave open; and what a scan log implies. */
module ScanLog {
  import opened Options
  import opened Traces

  datatype Event =
    | ScanCalled                        // beginScan() was called
    | ScanPushed                        // ... and put the scan on the stack
    | BeginScan                         // ... and returned
    | EndScan                           // finishScan() was called
    | Skipped(num: nat)                 // a point was given up before measuring
    | Target(num: nat, pos: seq<real>)  // beginPoint(target=pos) was called
    | Pushed(num: nat)                  // ... and put the point on the stack
    | Opened(num: nat)                  // ... and returned
    | Counted(num: nat)                 // acquire() was called
    | Closed(num: nat)                  // finishPoint() of the data manager was called
    | Break(level: nat)                 // session.breakpoint(level)

  type Log = Trace<Event>

  datatype PointEnd =
    | GivenUp      // an exception other than SkipPoint ended the point before measuring
    | SkippedOver  // the first point, after a SkipPoint in "Moving to start"
    | Skip         // SkipPoint
    | NotBegun     // beginPoint() raised before the point was on the stack
    | HalfBegun    // beginPoint() raised afterwards
    | LeftOpen     // putValues() or readEnvironment() raised
    | Measured

  /** What point number `i` logs, depending on how it ends. */
  ghost function AfterPoint(log: Log, i: nat, pos: seq<real>, end: PointEnd): Log {
    match end
    case GivenUp => Then(log, Break(2))
    case SkippedOver => Then(log, Skipped(i))
    case Skip => Then(Then(log, Skipped(i)), Break(2))
    case _ => Then(AfterMeasuring(log, i, pos, end), Break(2))
  }

  /** The part of it between beginPoint() and finishPoint(). */
  ghost function AfterMeasuring(log: Log, i: nat, pos: seq<real>, end: PointEnd): Log {
    var targeted := Then(log, Target(i, pos));
    var pushed := Then(targeted, Pushed(i));
    match end
    case NotBegun => targeted
    case HalfBegun => pushed
    case LeftOpen => Then(pushed, Opened(i))
    case Measured => Then(Then(Then(pushed, Opened(i)), Counted(i)), Closed(i))
    case _ => log
  }

  /** The log of a point loop whose i-th point ended as `ends[i]`. */
  ghost function AfterPoints(log: Log, positions: seq<seq<real>>, ends: seq<PointEnd>): Log
    requires |ends| <= |positions|
  {
    if ends == [] then log
    else
      var n := |ends| - 1;
      AfterPoint(AfterPoints(log, positions, ends[..n]), n, positions[n], ends[n])
  }

  ghost predicate ReachesTarget(end: PointEnd) {
    end.NotBegun? || end.HalfBegun? || end.LeftOpen? || end.Measured?
  }

  /** The log of a beginScan() that returned. */
  ghost function Begun(log: Log): Log {
    Then(Then(Then(log, ScanCalled), ScanPushed), BeginScan)
  }

  /** The log of a beginScan() that was not called or raised. */
  ghost predicate NotBegunLog(log0: Log, log: Log) {
    log == log0 || log == Then(log0, ScanCalled) || log == Then(Then(log0, ScanCalled), ScanPushed)
  }

  // ---- The data sets on the stack ----

  datatype Kind = BLOCK | SCAN | SUBSCAN | POINT

  datatype DataSet = DataSet(kind: Kind, num: nat)

  type Stack = seq<DataSet>

  const NOT_POINTS := {BLOCK, SCAN, SUBSCAN}

  function Top(s: Stack): Option<DataSet> {
    if s == [] then None else Some(s[|s| - 1])
  }

  predicate TopIs(s: Stack, kinds: set<Kind>) {
    s != [] && s[|s| - 1].kind in kinds
  }

  /** `_clean`: finishes data sets from the top until one is of the given kinds. */
  function Cleaned(s: Stack, upto: set<Kind>): (r: Stack)
    ensures r <= s
    ensures r != [] ==> TopIs(r, upto)
  {
    if s == [] || TopIs(s, upto) then s else Cleaned(s[..|s| - 1], upto)
  }

  /** finishPoint() and finishScan(): only a top of the right kind is finished. */
  function Finished(s: Stack, kinds: set<Kind>): Stack {
    if TopIs(s, kinds) then s[..|s| - 1] else s
  }

  function StackStep(s: Stack, e: Event): Stack {
    match e
    case ScanCalled => Cleaned(s, {BLOCK})
    case ScanPushed => s + [DataSet(SCAN, 0)]
    case EndScan => Finished(s, {SCAN, SUBSCAN})
    case Target(_, _) => Cleaned(s, NOT_POINTS)
    case Pushed(i) => s + [DataSet(POINT, i)]
    case Closed(_) => Finished(s, {POINT})
    case _ => s
  }

  /** The stack after the calls of the log, `s0` before them. */
  ghost function StackOf(s0: Stack, log: Log): Stack {
    match log
    case Start => s0
    case Then(before, e) => StackStep(StackOf(s0, before), e)
  }

  /** Points open, count and close in strict alternation: a point is put on the
      stack only when the scan is on top, and counted and closed only while it is
      itself on top. */
  ghost predicate Nested(s0: Stack, log: Log) {
    match log
    case Start => true
    case Then(before, e) =>
      && Nested(s0, before)
      && var s := StackOf(s0, before);
         match e
         case Pushed(_) => TopIs(s, {SCAN})
         case Opened(i) => Top(s) == Some(DataSet(POINT, i))
         case Counted(i) => Top(s) == Some(DataSet(POINT, i))
         case Closed(i) => Top(s) == Some(DataSet(POINT, i))
         case _ => true
  }

  ghost predicate LeavesPoint(end: PointEnd) {
    end.HalfBegun? || end.LeftOpen?
  }

  /** The point left on the stack after points that ended so: only the last one
      for which beginPoint() was called can be, as beginPoint() finishes what it
      finds. */
  ghost function OpenPoint(ends: seq<PointEnd>): Option<nat> {
    if ends == [] then None
    else
      var n := |ends| - 1;
      if LeavesPoint(ends[n]) then Some(n)
      else if ReachesTarget(ends[n]) then None
      else OpenPoint(ends[..n])
  }

  /** The stack inside a scan that was begun on `base`. */
  ghost function InScan(base: Stack, left: Option<nat>): Stack {
    base + [DataSet(SCAN, 0)] + if left.Some? then [DataSet(POINT, left.value)] else []
  }

  lemma CleanedInScan(base: Stack, left: Option<nat>)
    ensures Cleaned(InScan(base, left), NOT_POINTS) == InScan(base, None)
  {
    var s := InScan(base, None);
    assert TopIs(s, NOT_POINTS) && Cleaned(s, NOT_POINTS) == s;
    if left.Some? {
      assert InScan(base, left)[..|InScan(base, left)| - 1] == s;
    }
  }

  /** One point. */
  lemma PointStack(s0: Stack, base: Stack, log: Log, i: nat, pos: seq<real>, end: PointEnd, left: Option<nat>)
    requires Nested(s0, log) && StackOf(s0, log) == InScan(base, left)
    ensures
      var after := AfterPoint(log, i, pos, end);
      && Nested(s0, after)
      && StackOf(s0, after) ==
         InScan(base, if LeavesPoint(end) then Some(i) else if ReachesTarget(end) then None else left)
  {
    if ReachesTarget(end) {
      CleanedInScan(base, left);
      hide Cleaned;
      var scan, point := InScan(base, None), InScan(base, Some(i));
      var targeted := Then(log, Target(i, pos));
      var pushed := Then(targeted, Pushed(i));
      var returned := Then(pushed, Opened(i));
      var counted := Then(returned, Counted(i));
      var closed := Then(counted, Closed(i));
      assert StackOf(s0, targeted) == scan && TopIs(scan, {SCAN}) && Nested(s0, targeted);
      assert scan + [DataSet(POINT, i)] == point && point[..|point| - 1] == scan;
      assert StackOf(s0, pushed) == point && Top(point) == Some(DataSet(POINT, i)) && Nested(s0, pushed);
      assert StackOf(s0, returned) == point && Nested(s0, returned);
      assert StackOf(s0, counted) == point && Nested(s0, counted);
      assert StackOf(s0, closed) == scan && Nested(s0, closed);
    }
  }

  /** However the points end, they never overlap; and which one is still on the
      stack after the last. */
  lemma {:induction false} PointsAlternate
    (s0: Stack, base: Stack, log: Log, positions: seq<seq<real>>, ends: seq<PointEnd>)
    requires |ends| <= |positions|
    requires Nested(s0, log) && StackOf(s0, log) == InScan(base, None)
    ensures
      var after := AfterPoints(log, positions, ends);
      Nested(s0, after) && StackOf(s0, after) == InScan(base, OpenPoint(ends))
  {
    if ends != [] {
      var n := |ends| - 1;
      PointsAlternate(s0, base, log, positions, ends[..n]);
      hide AfterPoint;
      PointStack(s0, base, AfterPoints(log, positions, ends[..n]), n, positions[n], ends[n], OpenPoint(ends[..n]));
    }
  }

  // ---- Targets and skipped points ----

  /** The positions passed to beginPoint(), in order, with their numbers. */
  ghost function Targets(log: Log): seq<(nat, seq<real>)> {
    match log
    case Start => []
    case Then(before, Target(i, pos)) => Targets(before) + [(i, pos)]
    case Then(before, _) => Targets(before)
  }

  ghost function SkippedPoints(log: Log): seq<nat> {
    match log
    case Start => []
    case Then(before, Skipped(i)) => SkippedPoints(before) + [i]
    case Then(before, _) => SkippedPoints(before)
  }

  ghost predicate IsSkipped(end: PointEnd) {
    end.Skip? || end.SkippedOver?
  }

  /** The targets that points ending so add to the log, and the skipped ones. */
  ghost function NewTargets(positions: seq<seq<real>>, ends: seq<PointEnd>): seq<(nat, seq<real>)>
    requires |ends| <= |positions|
  {
    if ends == [] then []
    else
      var n := |ends| - 1;
      NewTargets(positions, ends[..n]) + if ReachesTarget(ends[n]) then [(n, positions[n])] else []
  }

  ghost function NewSkips(ends: seq<PointEnd>): seq<nat> {
    if ends == [] then []
    else
      var n := |ends| - 1;
      NewSkips(ends[..n]) + if IsSkipped(ends[n]) then [n] else []
  }

  lemma PointTargets(log: Log, i: nat, pos: seq<real>, end: PointEnd)
    ensures Targets(AfterPoint(log, i, pos, end)) == Targets(log) + if ReachesTarget(end) then [(i, pos)] else []
    ensures SkippedPoints(AfterPoint(log, i, pos, end)) == SkippedPoints(log) + if IsSkipped(end) then [i] else []
    ensures Count(AfterPoint(log, i, pos, end), BeginScan) == Count(log, BeginScan)
    ensures Count(AfterPoint(log, i, pos, end), EndScan) == Count(log, EndScan)
  {
    if ReachesTarget(end) {
      var targeted := Then(log, Target(i, pos));
      var pushed := Then(targeted, Pushed(i));
      var returned := Then(pushed, Opened(i));
      var counted := Then(returned, Counted(i));
      var closed := Then(counted, Closed(i));
      assert Targets(targeted) == Targets(log) + [(i, pos)];
      assert Targets(pushed) == Targets(targeted);
      assert Targets(returned) == Targets(targeted) && Targets(closed) == Targets(counted) == Targets(returned);
      assert SkippedPoints(targeted) == SkippedPoints(log) && SkippedPoints(pushed) == SkippedPoints(targeted);
      assert SkippedPoints(closed) == SkippedPoints(counted) == SkippedPoints(returned) == SkippedPoints(pushed);
      forall e | e == BeginScan || e == EndScan
        ensures Count(closed, e) == Count(counted, e) == Count(returned, e) == Count(pushed, e) == Count(log, e)
        ensures Count(targeted, e) == Count(log, e)
      {
      }
    } else {
      var skipped := Then(log, Skipped(i));
      assert Targets(skipped) == Targets(log) && SkippedPoints(skipped) == SkippedPoints(log) + [i];
      assert Count(skipped, BeginScan) == Count(log, BeginScan) && Count(skipped, EndScan) == Count(log, EndScan);
    }
  }

  /** What a point loop adds to any log; it neither begins nor ends the scan. */
  lemma {:induction false} PointsAdd(log: Log, positions: seq<seq<real>>, ends: seq<PointEnd>)
    requires |ends| <= |positions|
    ensures
      var after := AfterPoints(log, positions, ends);
      && Targets(after) == Targets(log) + NewTargets(positions, ends)
      && SkippedPoints(after) == SkippedPoints(log) + NewSkips(ends)
      && Count(after, BeginScan) == Count(log, BeginScan)
      && Count(after, EndScan) == Count(log, EndScan)
  {
    if ends != [] {
      var n := |ends| - 1;
      PointsAdd(log, positions, ends[..n]);
      PointTargets(AfterPoints(log, positions, ends[..n]), n, positions[n], ends[n]);
    }
  }

  /** The targets are a subsequence of the start positions, in order. */
  ghost predicate InOrder(targets: seq<(nat, seq<real>)>, positions: seq<seq<real>>) {
    && (forall k :: 0 <= k < |targets| ==> targets[k].0 < |positions| && targets[k].1 == positions[targets[k].0])
    && (forall j, k :: 0 <= j < k < |targets| ==> targets[j].0 < targets[k].0)
  }

  lemma {:induction false} TargetsInOrder(positions: seq<seq<real>>, ends: seq<PointEnd>)
    requires |ends| <= |positions|
    ensures InOrder(NewTargets(positions, ends), positions)
    ensures forall i: nat, pos :: (i, pos) in NewTargets(positions, ends) <==>
      i < |ends| && pos == positions[i] && ReachesTarget(ends[i])
  {
    if ends != [] {
      TargetsInOrder(positions, ends[..|ends| - 1]);
    }
  }

  lemma {:induction false} SkippedAre(ends: seq<PointEnd>)
    ensures forall i: nat :: i in NewSkips(ends) <==> i < |ends| && IsSkipped(ends[i])
  {
    if ends != [] {
      SkippedAre(ends[..|ends| - 1]);
    }
  }

  /** On a loop that was not cut short by an exception, the points with a
      target are exactly the points that were not skipped. */
  lemma MeasuredOrSkipped(positions: seq<seq<real>>, ends: seq<PointEnd>)
    requires |ends| <= |positions| && GivenUp !in ends
    ensures forall i: nat :: i < |ends| ==>
      ((i, positions[i]) in NewTargets(positions, ends) <==> i !in NewSkips(ends))
  {
    TargetsInOrder(positions, ends);
    SkippedAre(ends);
  }
}
