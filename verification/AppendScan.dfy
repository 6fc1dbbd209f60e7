/** `appendscan`: going on from the last scan. */
module AppendScan {
  import opened Options

  type Position = seq<real>

  /** A recorded scan: `nsteps` is the number of points it measured, `chain` the
      scans an appended scan belongs to, `direction` its direction. */
  datatype Dataset = Dataset(
    uid: int, ndevs: nat, startpositions: seq<Position>, nsteps: nat, chain: seq<int>, direction: Option<int>)
  {
    ghost predicate Valid() {
      && nsteps <= |startpositions|
      && forall p :: 0 <= p < |startpositions| ==> |startpositions[p]| == ndevs
    }
  }

  datatype AppendError = ZeroPoints | NoLastScan | NoPositions | WrongStepSize

  /** The scan to be set up: devices are those of `scan`. */
  datatype Plan = Plan(scan: Dataset, positions: seq<Position>, chain: seq<int>, direction: int)

  ghost predicate AllValid(history: seq<Dataset>) {
    forall k :: 0 <= k < |history| ==> history[k].Valid()
  }

  function Sign(n: int): int {
    if n < 0 then -1 else 1
  }

  function Abs(n: int): nat {
    if n < 0 then -n else n
  }

  /** `k` steps of size `h` from `x`. */
  function At(x: real, h: real, k: int): real {
    x + k as real * h
  }

  /** Index of the last scan that is no appended scan; -1 if there is none. */
  ghost function LastOriginal(history: seq<Dataset>): (i: int)
    ensures -1 <= i < |history|
  {
    if history == [] then -1
    else if history[|history| - 1].chain == [] then |history| - 1
    else LastOriginal(history[..|history| - 1])
  }

  /** The uids of the scans from index `i` on. */
  ghost function Uids(history: seq<Dataset>, i: int): seq<int>
    requires 0 <= i <= |history|
  {
    seq(|history| - i, k requires 0 <= k < |history| - i => history[i + k].uid)
  }

  /** The scan whose points are continued, and whether it is continued beyond
      its last point (true) or before its first (false). */
  ghost function Continued(history: seq<Dataset>, numpoints: int): (Dataset, bool)
    requires history != [] && numpoints != 0
  {
    var last := history[|history| - 1];
    if last.direction == Some(Sign(numpoints)) then (last, true)
    else
      var i := LastOriginal(history);
      (if i >= 0 then history[i] else last, numpoints > 0)
  }

  /** The step of device `d`: given, or averaged over the points of the scan. */
  ghost function StepOf(scan: Dataset, stepsize: Option<seq<real>>, d: nat): real
    requires scan.Valid() && scan.nsteps >= 2 && d < scan.ndevs
    requires stepsize.Some? ==> |stepsize.value| == scan.ndevs
  {
    match stepsize
    case Some(s) => s[d]
    case None =>
      (scan.startpositions[scan.nsteps - 1][d] - scan.startpositions[0][d]) / (scan.nsteps - 1) as real
  }

  /** New position j of device d: j + 1 steps beyond the end continued at. */
  ghost function NewPosition(scan: Dataset, stepsize: Option<seq<real>>, beyond: bool, j: nat, d: nat): real
    requires scan.Valid() && scan.nsteps >= 2 && d < scan.ndevs
    requires stepsize.Some? ==> |stepsize.value| == scan.ndevs
  {
    var step := StepOf(scan, stepsize, d);
    if beyond then At(scan.startpositions[scan.nsteps - 1][d], step, j + 1)
    else At(scan.startpositions[0][d], -step, j + 1)
  }

  ghost predicate Planned(history: seq<Dataset>, numpoints: int, stepsize: Option<seq<real>>, plan: Plan)
    requires history != [] && AllValid(history) && numpoints != 0
  {
    var (scan, beyond) := Continued(history, numpoints);
    && plan.scan == scan && scan.Valid() && scan.nsteps >= 2
    && (stepsize.Some? ==> |stepsize.value| == scan.ndevs)
    && plan.direction == Sign(numpoints)
    && plan.chain == Uids(history, if LastOriginal(history) >= 0 then LastOriginal(history) else 0)
    && |plan.positions| == Abs(numpoints)
    && (forall j :: 0 <= j < |plan.positions| ==> |plan.positions[j]| == scan.ndevs)
    && (forall j, d :: 0 <= j < |plan.positions| && 0 <= d < scan.ndevs ==>
         plan.positions[j][d] == NewPosition(scan, stepsize, beyond, j, d))
  }

  /** The loop that looks for the original scan and collects the chain. */
  method FindOriginal(history: seq<Dataset>) returns (i: int, contuids: seq<int>)
    ensures i == LastOriginal(history)
    ensures contuids == Uids(history, if i >= 0 then i else 0)
  {
    contuids := [];
    i := |history| - 1;
    assert history[..|history|] == history;
    while i >= 0
      invariant -1 <= i < |history|
      invariant contuids == Uids(history, i + 1)
      invariant LastOriginal(history) == LastOriginal(history[..i + 1])
    {
      contuids := [history[i].uid] + contuids;
      if history[i].chain == [] {
        break;
      }
      assert history[..i + 1][..i] == history[..i];
      i := i - 1;
    }
  }

  /** The column of new positions of one device, written into the position list. */
  method FillColumn(positions0: seq<Position>, d: nat, start: real, step: real) returns (positions: seq<Position>)
    requires forall j :: 0 <= j < |positions0| ==> d < |positions0[j]|
    ensures |positions| == |positions0|
    ensures forall j :: 0 <= j < |positions| ==> positions[j] == positions0[j][d := At(start, step, j)]
  {
    positions := positions0;
    for j := 0 to |positions0|
      invariant |positions| == |positions0|
      invariant forall k :: 0 <= k < j ==> positions[k] == positions0[k][d := At(start, step, k)]
      invariant forall k :: j <= k < |positions| ==> positions[k] == positions0[k]
    {
      var row := positions[j];
      assert row == positions0[j];
      positions := positions[j := row[d := At(start, step, j)]];
    }
  }

  ghost predicate ColumnsDone(
    scan: Dataset, stepsize: Option<seq<real>>, beyond: bool, positions: seq<Position>, n: nat)
    requires scan.Valid() && scan.nsteps >= 2 && n <= scan.ndevs
    requires stepsize.Some? ==> |stepsize.value| == scan.ndevs
    requires forall j :: 0 <= j < |positions| ==> |positions[j]| == scan.ndevs
  {
    forall j, d :: 0 <= j < |positions| && 0 <= d < n ==>
      positions[j][d] == NewPosition(scan, stepsize, beyond, j, d)
  }

  /** The new positions, device by device. */
  method NewPositions(scan: Dataset, stepsize: Option<seq<real>>, numpoints: int) returns (positions: seq<Position>)
    requires scan.Valid() && scan.nsteps >= 2
    requires stepsize.Some? ==> |stepsize.value| == scan.ndevs
    ensures |positions| == Abs(numpoints)
    ensures forall j :: 0 <= j < |positions| ==> |positions[j]| == scan.ndevs
    ensures ColumnsDone(scan, stepsize, numpoints > 0, positions, scan.ndevs)
  {
    var nDevs, nSteps := scan.ndevs, scan.nsteps;
    positions := seq(Abs(numpoints), j => seq(nDevs, d => 0.0));
    for d := 0 to nDevs
      invariant |positions| == Abs(numpoints)
      invariant forall j :: 0 <= j < |positions| ==> |positions[j]| == nDevs
      invariant ColumnsDone(scan, stepsize, numpoints > 0, positions, d)
    {
      var pos1, pos2 := scan.startpositions[0][d], scan.startpositions[nSteps - 1][d];
      var step := if stepsize.Some? then stepsize.value[d] else (pos2 - pos1) / (nSteps - 1) as real;
      var startpos;
      ghost var before := positions;
      if numpoints > 0 {
        startpos := pos2 + step;
      } else {
        step := -step;
        startpos := pos1 + step;
      }
      positions := FillColumn(positions, d, startpos, step);
      forall j, e | 0 <= j < |positions| && 0 <= e < d + 1
        ensures positions[j][e] == NewPosition(scan, stepsize, numpoints > 0, j, e)
      {
        if e == d {
          ColumnEntry(scan, stepsize, numpoints > 0, j, d, startpos, step);
        } else {
          assert positions[j][e] == before[j][e];
        }
      }
    }
  }

  lemma ColumnEntry(
    scan: Dataset, stepsize: Option<seq<real>>, beyond: bool, j: nat, d: nat, start: real, step: real)
    requires scan.Valid() && scan.nsteps >= 2 && d < scan.ndevs
    requires stepsize.Some? ==> |stepsize.value| == scan.ndevs
    requires step == if beyond then StepOf(scan, stepsize, d) else -StepOf(scan, stepsize, d)
    requires start == step + scan.startpositions[if beyond then scan.nsteps - 1 else 0][d]
    ensures At(start, step, j) == NewPosition(scan, stepsize, beyond, j, d)
  {
    OneStepOn(scan.startpositions[if beyond then scan.nsteps - 1 else 0][d], step, j);
  }

  lemma OneStepOn(x: real, h: real, k: int)
    ensures At(x + h, h, k) == At(x, h, k + 1)
  {
    assert (k + 1) as real == k as real + 1.0;
  }

  method AppendScan(history: seq<Dataset>, numpoints0: int, stepsize: Option<seq<real>>)
    returns (r: Result<Plan, AppendError>)
    requires AllValid(history)
    ensures r == Err(ZeroPoints) <==> numpoints0 == 0
    ensures r == Err(NoLastScan) <==> numpoints0 != 0 && history == []
    ensures numpoints0 != 0 && history != [] ==>
      var scan := Continued(history, numpoints0).0;
      && (r == Err(NoPositions) <==> scan.nsteps < 2)
      && (r == Err(WrongStepSize) <==> scan.nsteps >= 2 && stepsize.Some? && |stepsize.value| != scan.ndevs)
      && (r.Ok? ==> Planned(history, numpoints0, stepsize, r.value))
  {
    if numpoints0 == 0 {
      return Err(ZeroPoints);
    }
    var numpoints := numpoints0;
    var direction := Sign(numpoints);
    if history == [] {
      return Err(NoLastScan);
    }
    var i, contuids := FindOriginal(history);
    var scan := history[|history| - 1];
    if scan.direction == Some(direction) {
      if scan.direction == Some(-1) {
        numpoints := -numpoints;
      }
    } else if i >= 0 {
      scan := history[i];
    }
    if scan.nsteps < 2 {
      return Err(NoPositions);
    }
    if stepsize.Some? && scan.ndevs != |stepsize.value| {
      return Err(WrongStepSize);
    }
    var positions := NewPositions(scan, stepsize, numpoints);
    r := Ok(Plan(scan, positions, contuids, direction));
  }

  // ---- Runs of appendscan ----

  function Pt(x: Position, h: Position, k: int): (p: Position)
    requires |x| == |h|
    ensures |p| == |x|
    ensures forall d :: 0 <= d < |x| ==> p[d] == At(x[d], h[d], k)
  {
    seq(|x|, d requires 0 <= d < |x| => At(x[d], h[d], k))
  }

  /** `k` points on from point `from`. */
  function Index(from: int, dir: int, k: int): int {
    from + dir * k
  }

  /** Points `from`, `from + dir`, ... of the progression x, x + h, x + 2h, ... */
  function Progression(x: Position, h: Position, from: int, dir: int, n: nat): (s: seq<Position>)
    requires |x| == |h|
    ensures |s| == n
    ensures forall j :: 0 <= j < n ==> s[j] == Pt(x, h, Index(from, dir, j))
  {
    seq(n, j => Pt(x, h, Index(from, dir, j)))
  }

  /** The record of an appended scan all of whose points were measured. */
  ghost predicate Recorded(plan: Plan, ds: Dataset) {
    && ds.ndevs == plan.scan.ndevs
    && ds.startpositions == plan.positions
    && ds.nsteps == |plan.positions|
    && ds.chain == plan.chain
    && ds.direction == Some(plan.direction)
  }

  /** A run of calls of appendscan with the scans they recorded, newest outermost. */
  datatype Calls = NoCalls | Call(earlier: Calls, numpoints: int, ds: Dataset)

  ghost function History(before: seq<Dataset>, calls: Calls): seq<Dataset> {
    match calls
    case NoCalls => before
    case Call(earlier, _, ds) => History(before, earlier) + [ds]
  }

  /** Each recorded scan is what its call plans after the earlier ones, with the
      default step size and all points measured. */
  ghost predicate IsRun(before: seq<Dataset>, calls: Calls) {
    match calls
    case NoCalls => true
    case Call(earlier, numpoints, ds) =>
      IsRun(before, earlier) && AppendedOnce(History(before, earlier), numpoints, ds)
  }

  ghost predicate AppendedOnce(before: seq<Dataset>, call: int, ds: Dataset) {
    && before != [] && AllValid(before) && call != 0
    && exists plan :: Planned(before, call, None, plan) && Recorded(plan, ds)
  }

  /** All positions visited by the calls, in order. */
  ghost function Visited(calls: Calls): seq<Position> {
    match calls
    case NoCalls => []
    case Call(earlier, _, ds) => Visited(earlier) + ds.startpositions
  }

  ghost function Total(calls: Calls): nat {
    match calls
    case NoCalls => 0
    case Call(earlier, numpoints, _) => Total(earlier) + Abs(numpoints)
  }

  ghost predicate OneWay(calls: Calls, dir: int) {
    match calls
    case NoCalls => true
    case Call(earlier, numpoints, _) => OneWay(earlier, dir) && Sign(numpoints) == dir
  }

  ghost predicate AllButLastLong(calls: Calls) {
    calls.Call? && calls.earlier.Call? ==> Abs(calls.earlier.numpoints) >= 2 && AllButLastLong(calls.earlier)
  }

  /** The original scan: equidistant, completely measured, and not appended. */
  ghost predicate Equidistant(base: Dataset, x: Position, h: Position) {
    && |x| == |h| == base.ndevs
    && base.Valid() && base.nsteps == |base.startpositions| >= 2
    && base.startpositions == Progression(x, h, 0, 1, base.nsteps)
    && base.chain == [] && base.direction == None
  }

  /** Where the first appended scan of a direction starts. */
  ghost function FirstIndex(base: Dataset, dir: int): int {
    if dir == 1 then base.nsteps else -1
  }

  /** A history in which every scan after the original `base` is an appended one. */
  ghost predicate StillContinues(history: seq<Dataset>, base: Dataset, b: nat) {
    && b < |history| && history[b] == base && AllValid(history)
    && forall k :: b < k < |history| ==> history[k].chain != []
  }

  /** ... and the last of which does not go in direction `dir`. */
  ghost predicate Ready(history: seq<Dataset>, base: Dataset, b: nat, dir: int) {
    StillContinues(history, base, b) && history[|history| - 1].direction != Some(dir)
  }

  lemma {:induction false} OriginalIs(history: seq<Dataset>, b: nat)
    requires b < |history| && history[b].chain == []
    requires forall k :: b < k < |history| ==> history[k].chain != []
    ensures LastOriginal(history) == b
  {
    if b < |history| - 1 {
      OriginalIs(history[..|history| - 1], b);
    }
  }

  /** Continuing a stretch of the progression goes on along the progression. */
  lemma ContinueStretch(scan: Dataset, x: Position, h: Position, from: int, dir: int, beyond: bool, j: nat)
    requires |x| == |h| == scan.ndevs && scan.Valid() && scan.nsteps == |scan.startpositions| >= 2
    requires dir == 1 || dir == -1
    requires scan.startpositions == Progression(x, h, from, dir, scan.nsteps)
    ensures forall d :: 0 <= d < scan.ndevs ==>
      NewPosition(scan, None, beyond, j, d) ==
        Pt(x, h, if beyond then Index(from, dir, scan.nsteps + j) else Index(from, -dir, j + 1))[d]
  {
    forall d | 0 <= d < scan.ndevs
      ensures NewPosition(scan, None, beyond, j, d) ==
        Pt(x, h, if beyond then Index(from, dir, scan.nsteps + j) else Index(from, -dir, j + 1))[d]
    {
      ContinueDevice(scan, x, h, from, dir, beyond, j, d);
    }
  }

  lemma ContinueDevice(scan: Dataset, x: Position, h: Position, from: int, dir: int, beyond: bool, j: nat, d: nat)
    requires |x| == |h| == scan.ndevs && scan.Valid() && scan.nsteps == |scan.startpositions| >= 2
    requires dir == 1 || dir == -1
    requires scan.startpositions == Progression(x, h, from, dir, scan.nsteps)
    requires d < scan.ndevs
    ensures NewPosition(scan, None, beyond, j, d) ==
      At(x[d], h[d], if beyond then Index(from, dir, scan.nsteps + j) else Index(from, -dir, j + 1))
  {
    hide At;
    var n := scan.nsteps;
    assert scan.startpositions[0] == Pt(x, h, Index(from, dir, 0));
    assert scan.startpositions[n - 1] == Pt(x, h, Index(from, dir, n - 1));
    AverageStep(from, dir, n - 1, x[d], h[d]);
    if beyond {
      StepsAdd(x[d], h[d], Index(from, dir, n - 1), dir, j + 1);
      IndexAdds(from, dir, n - 1, j + 1);
      assert Index(from, dir, n - 1 + (j + 1)) == Index(from, dir, n + j);
      assert NewPosition(scan, None, beyond, j, d) == At(scan.startpositions[n - 1][d], dir as real * h[d], j + 1);
    } else {
      StepsAdd(x[d], h[d], from, -dir, j + 1);
      assert (-dir) as real * h[d] == -(dir as real * h[d]) && Index(from, dir, 0) == from;
    }
  }

  /** The average step over a stretch is the step of the progression. */
  lemma AverageStep(from: int, dir: int, m: nat, x: real, h: real)
    requires m >= 1 && (dir == 1 || dir == -1)
    ensures (At(x, h, Index(from, dir, m)) - At(x, h, Index(from, dir, 0))) / m as real == dir as real * h
  {
    assert Index(from, dir, m) as real == from as real + dir as real * m as real;
    assert At(x, h, Index(from, dir, m)) - At(x, h, Index(from, dir, 0)) == (dir as real * h) * m as real;
  }

  lemma StepsAdd(x: real, h: real, i: int, dir: int, k: int)
    requires dir == 1 || dir == -1
    ensures At(At(x, h, i), dir as real * h, k) == At(x, h, Index(i, dir, k))
  {
    assert Index(i, dir, k) as real == i as real + dir as real * k as real;
  }

  /** The record of an appended scan over `n` points of the progression. */
  ghost predicate ContinuesStretch(ds: Dataset, ndevs: nat, x: Position, h: Position, from: int, dir: int, n: nat)
    requires |x| == |h|
  {
    && ds.Valid() && ds.chain != [] && ds.direction == Some(dir)
    && ds.ndevs == ndevs && ds.nsteps == |ds.startpositions| == n
    && ds.startpositions == Progression(x, h, from, dir, n)
  }

  /** Calls that all go in direction `dir`, each but the last with at least two
      points, after a history whose last scan does not go in that direction. */
  ghost predicate OneWayRun(before: seq<Dataset>, calls: Calls, base: Dataset, b: nat, dir: int) {
    && (dir == 1 || dir == -1)
    && Ready(before, base, b, dir)
    && OneWay(calls, dir) && AllButLastLong(calls) && IsRun(before, calls)
  }

  /** The first point of the last scan. */
  ghost function FromOf(calls: Calls, base: Dataset, dir: int): int
    requires calls.Call?
  {
    Index(FirstIndex(base, dir), dir, Total(calls.earlier))
  }

  /** Every scan of a one-way run continues the progression where the earlier ones ended. */
  lemma {:induction false} LastContinues(
    before: seq<Dataset>, calls: Calls, base: Dataset, b: nat, x: Position, h: Position, dir: int)
    requires Equidistant(base, x, h) && OneWayRun(before, calls, base, b, dir)
    ensures StillContinues(History(before, calls), base, b)
    ensures calls.Call? ==>
      ContinuesStretch(calls.ds, base.ndevs, x, h, FromOf(calls, base, dir), dir, Abs(calls.numpoints))
    decreases calls
  {
    if calls.Call? {
      var earlier := calls.earlier;
      LastContinues(before, earlier, base, b, x, h, dir);
      if earlier.NoCalls? {
        FirstIndices(base, dir, 0);
        FirstCall(before, calls.numpoints, calls.ds, base, b, x, h, dir);
      } else {
        LaterCall(before, calls, base, b, x, h, dir);
      }
      KeepsContinuing(History(before, earlier), calls.ds, base, b, x, h, FromOf(calls, base, dir), dir,
        Abs(calls.numpoints));
    }
  }

  lemma LaterCall(before: seq<Dataset>, calls: Calls, base: Dataset, b: nat, x: Position, h: Position, dir: int)
    requires Equidistant(base, x, h) && OneWayRun(before, calls, base, b, dir)
    requires calls.Call? && calls.earlier.Call?
    requires StillContinues(History(before, calls.earlier), base, b)
    requires ContinuesStretch(calls.earlier.ds, base.ndevs, x, h,
      FromOf(calls.earlier, base, dir), dir, Abs(calls.earlier.numpoints))
    ensures ContinuesStretch(calls.ds, base.ndevs, x, h, FromOf(calls, base, dir), dir, Abs(calls.numpoints))
  {
    hide Equidistant, StillContinues, ContinuesStretch, EndsIn, Ready, AppendedOnce, Index, FirstIndex, History;
    var earlier := calls.earlier;
    LastRecorded(before, earlier);
    NextCall(History(before, earlier), earlier.ds, calls.numpoints, calls.ds, base, b, x, h, dir,
      FromOf(earlier, base, dir), Abs(earlier.numpoints));
    IndexAdds(FirstIndex(base, dir), dir, Total(earlier.earlier), Abs(earlier.numpoints));
  }

  /** Any number of calls in one direction visits one further stretch of the
      progression, adjacent to the original scan. */
  lemma {:induction false} OneDirection(
    before: seq<Dataset>, calls: Calls, base: Dataset, b: nat, x: Position, h: Position, dir: int)
    requires Equidistant(base, x, h) && OneWayRun(before, calls, base, b, dir)
    ensures Visited(calls) == Progression(x, h, FirstIndex(base, dir), dir, Total(calls))
    decreases calls
  {
    if calls.Call? {
      hide Equidistant, ContinuesStretch, Ready, AppendedOnce, Index, FirstIndex, History;
      LastContinues(before, calls, base, b, x, h, dir);
      OneDirection(before, calls.earlier, base, b, x, h, dir);
      Join(x, h, FirstIndex(base, dir), dir, Total(calls.earlier), Abs(calls.numpoints));
      StretchPositions(calls.ds, base.ndevs, x, h, FromOf(calls, base, dir), dir, Abs(calls.numpoints));
    }
  }

  lemma StretchPositions(ds: Dataset, ndevs: nat, x: Position, h: Position, from: int, dir: int, n: nat)
    requires |x| == |h| && ContinuesStretch(ds, ndevs, x, h, from, dir, n)
    ensures ds.startpositions == Progression(x, h, from, dir, n)
  {
  }

  lemma LastRecorded(before: seq<Dataset>, calls: Calls)
    requires calls.Call?
    ensures EndsIn(History(before, calls), calls.ds)
  {
  }

  ghost predicate EndsIn(history: seq<Dataset>, ds: Dataset) {
    history != [] && history[|history| - 1] == ds
  }

  lemma KeepsContinuing(
    prev: seq<Dataset>, ds: Dataset, base: Dataset, b: nat, x: Position, h: Position, from: int, dir: int, n: nat)
    requires |x| == |h| && StillContinues(prev, base, b)
    requires ContinuesStretch(ds, base.ndevs, x, h, from, dir, n)
    ensures StillContinues(prev + [ds], base, b)
    ensures ds.startpositions == Progression(x, h, from, dir, n)
  {
  }

  lemma IndexAdds(from: int, dir: int, n: int, m: int)
    ensures Index(Index(from, dir, n), dir, m) == Index(from, dir, n + m)
  {
    assert dir * n + dir * m == dir * (n + m);
  }

  lemma FirstIndices(base: Dataset, dir: int, j: int)
    requires dir == 1 || dir == -1
    ensures Index(FirstIndex(base, dir), dir, j) ==
      if dir == 1 then Index(0, 1, base.nsteps + j) else Index(0, -1, j + 1)
    ensures Index(FirstIndex(base, dir), dir, 0) == FirstIndex(base, dir)
  {
  }

  /** The first call in a direction continues the original scan. */
  lemma FirstCall(
    prev: seq<Dataset>, numpoints: int, ds: Dataset, base: Dataset, b: nat, x: Position, h: Position, dir: int)
    requires dir == 1 || dir == -1
    requires Equidistant(base, x, h) && Ready(prev, base, b, dir)
    requires Sign(numpoints) == dir && AppendedOnce(prev, numpoints, ds)
    ensures ContinuesStretch(ds, base.ndevs, x, h, FirstIndex(base, dir), dir, Abs(numpoints))
  {
    hide At, Pt, NewPosition, Index;
    OriginalIs(prev, b);
    var plan :| Planned(prev, numpoints, None, plan) && Recorded(plan, ds);
    var from := FirstIndex(base, dir);
    forall j | 0 <= j < |plan.positions| ensures plan.positions[j] == Pt(x, h, Index(from, dir, j)) {
      ContinueStretch(base, x, h, 0, 1, dir == 1, j);
      FirstIndices(base, dir, j);
    }
  }

  /** A further call in the same direction continues the last appended scan. */
  lemma NextCall(
    prev: seq<Dataset>, scan: Dataset, numpoints: int, ds: Dataset, base: Dataset, b: nat,
    x: Position, h: Position, dir: int, from: int, m: nat)
    requires dir == 1 || dir == -1
    requires Equidistant(base, x, h) && StillContinues(prev, base, b)
    requires Sign(numpoints) == dir && AppendedOnce(prev, numpoints, ds)
    requires m >= 2 && EndsIn(prev, scan) && ContinuesStretch(scan, base.ndevs, x, h, from, dir, m)
    ensures ContinuesStretch(ds, base.ndevs, x, h, Index(from, dir, m), dir, Abs(numpoints))
  {
    hide At, Pt, NewPosition, Index;
    OriginalIs(prev, b);
    var plan :| Planned(prev, numpoints, None, plan) && Recorded(plan, ds);
    forall j | 0 <= j < |plan.positions| ensures plan.positions[j] == Pt(x, h, Index(Index(from, dir, m), dir, j)) {
      ContinueStretch(scan, x, h, from, dir, true, j);
      IndexAdds(from, dir, m, j);
    }
  }

  lemma Join(x: Position, h: Position, from: int, dir: int, n: nat, m: nat)
    requires |x| == |h|
    ensures Progression(x, h, from, dir, n) + Progression(x, h, Index(from, dir, n), dir, m)
      == Progression(x, h, from, dir, n + m)
  {
    forall j | n <= j < n + m ensures Index(Index(from, dir, n), dir, j - n) == Index(from, dir, j) {
      IndexAdds(from, dir, n, j - n);
    }
  }

  function Reversed(s: seq<Position>): (r: seq<Position>)
    ensures |r| == |s|
    ensures forall k :: 0 <= k < |s| ==> r[k] == s[|s| - 1 - k]
  {
    seq(|s|, k requires 0 <= k < |s| => s[|s| - 1 - k])
  }

  /** The points before the original scan, the scan itself, and the points after it. */
  ghost function AllPoints(base: Dataset, dir: int, first: Calls, second: Calls): seq<Position> {
    Reversed(Visited(Backward(dir, first, second))) + base.startpositions + Visited(Forward(dir, first, second))
  }

  ghost function Backward(dir: int, first: Calls, second: Calls): Calls {
    if dir == 1 then second else first
  }

  ghost function Forward(dir: int, first: Calls, second: Calls): Calls {
    if dir == 1 then first else second
  }

  /** Appending any number of times in one direction and then any number of times
      in the other visits one contiguous stretch of the original progression. */
  lemma TwoDirections(
    older: seq<Dataset>, base: Dataset, x: Position, h: Position, dir: int, first: Calls, second: Calls)
    requires AllValid(older) && Equidistant(base, x, h)
    requires OneWayRun(older + [base], first, base, |older|, dir)
    requires IsRun(History(older + [base], first), second)
    requires OneWay(second, -dir) && AllButLastLong(second)
    ensures AllPoints(base, dir, first, second) ==
      var back, forth := Total(Backward(dir, first, second)), Total(Forward(dir, first, second));
      Progression(x, h, 0 - back, 1, back + base.nsteps + forth)
  {
    hide Progression, Equidistant, Ready, ContinuesStretch, StillContinues, IsRun, AppendedOnce,
      Visited, Total, Reversed, OneWay, AllButLastLong, History, Pt, AllValid, Index;
    var start := older + [base];
    OneDirection(start, first, base, |older|, x, h, dir);
    ReadyForOther(older, base, x, h, dir, first);
    OneDirection(History(start, first), second, base, |older|, x, h, -dir);
    OriginalPositions(base, x, h);
    var back, forth := Backward(dir, first, second), Forward(dir, first, second);
    assert Visited(back) == Progression(x, h, -1, -1, Total(back));
    assert Visited(forth) == Progression(x, h, base.nsteps, 1, Total(forth));
    OneStretch(x, h, Total(Backward(dir, first, second)), base.nsteps, Total(Forward(dir, first, second)));
  }

  lemma OriginalPositions(base: Dataset, x: Position, h: Position)
    requires Equidistant(base, x, h)
    ensures |x| == |h| && base.startpositions == Progression(x, h, 0, 1, base.nsteps)
  {
  }

  lemma ReadyForOther(older: seq<Dataset>, base: Dataset, x: Position, h: Position, dir: int, first: Calls)
    requires Equidistant(base, x, h) && OneWayRun(older + [base], first, base, |older|, dir)
    ensures Ready(History(older + [base], first), base, |older|, -dir)
  {
    var start := older + [base];
    LastContinues(start, first, base, |older|, x, h, dir);
    if first.Call? {
      LastRecorded(start, first);
    }
  }

  lemma OneStretch(x: Position, h: Position, back: nat, n: nat, forth: nat)
    requires |x| == |h|
    ensures Reversed(Progression(x, h, -1, -1, back)) + Progression(x, h, 0, 1, n) + Progression(x, h, n, 1, forth)
      == Progression(x, h, 0 - back, 1, back + n + forth)
  {
    var l := Reversed(Progression(x, h, -1, -1, back)) + Progression(x, h, 0, 1, n) + Progression(x, h, n, 1, forth);
    var r := Progression(x, h, 0 - back, 1, back + n + forth);
    forall k | 0 <= k < |r| ensures l[k] == r[k] {
      if k < back {
        assert Index(-1, -1, back - 1 - k) == Index(0 - back, 1, k);
      } else if k < back + n {
        assert Index(0, 1, k - back) == Index(0 - back, 1, k);
      } else {
        assert Index(n, 1, k - back - n) == Index(0 - back, 1, k);
      }
    }
  }

  /** If some device has a nonzero step, no point of the stretch occurs twice. */
  lemma NoPointTwice(x: Position, h: Position, from: int, n: nat, d: nat, i: nat, j: nat)
    requires |x| == |h| && d < |h| && h[d] != 0.0
    requires i < j < n
    ensures Progression(x, h, from, 1, n)[i] != Progression(x, h, from, 1, n)[j]
  {
    var p, q := Pt(x, h, Index(from, 1, i)), Pt(x, h, Index(from, 1, j));
    assert q[d] - p[d] == (j - i) as real * h[d] by {
      assert Index(from, 1, j) as real == Index(from, 1, i) as real + (j - i) as real;
    }
    assert p[d] != q[d];
  }

  /** The restriction to one turn is needed: a call that turns a second time
      starts again at the points the first calls visited. */
  lemma SecondTurnRepeats(
    before: seq<Dataset>, base: Dataset, b: nat, x: Position, h: Position, dir: int,
    first: Calls, second: Calls, numpoints: int, ds: Dataset)
    requires Equidistant(base, x, h) && OneWayRun(before, first, base, b, dir) && first.Call?
    requires OneWayRun(History(before, first), second, base, b, -dir) && second.Call?
    requires Sign(numpoints) == dir && AppendedOnce(History(History(before, first), second), numpoints, ds)
    ensures ds.startpositions != [] && Visited(first) != []
    ensures ds.startpositions[0] == Visited(first)[0]
  {
    var middle := History(before, first);
    OneDirection(before, first, base, b, x, h, dir);
    LastContinues(middle, second, base, b, x, h, -dir);
    LastRecorded(middle, second);
    FirstCall(History(middle, second), numpoints, ds, base, b, x, h, dir);
    SomePoints(before, first);
  }

  lemma {:induction false} SomePoints(before: seq<Dataset>, calls: Calls)
    requires IsRun(before, calls) && calls.Call?
    ensures Total(calls) > 0
  {
  }

  /** The default step size is needed: with a given step size a second call
      before the first point turns back onto the points of the first call. */
  lemma GivenStepTurnsBack(
    history: seq<Dataset>, before: seq<Dataset>, k: int, m: int, step: seq<real>, plan1: Plan, ds: Dataset, plan2: Plan)
    requires k < -1 && m < 0
    requires before != [] && AllValid(before) && before[|before| - 1].direction != Some(-1)
    requires Planned(before, k, Some(step), plan1) && Recorded(plan1, ds)
    requires history == before + [ds] && AllValid(history) && Planned(history, m, Some(step), plan2)
    ensures plan2.positions[0] == plan1.positions[|plan1.positions| - 2]
  {
    var n, scan := |plan1.positions|, plan1.scan;
    assert Continued(history, m) == (ds, true) && Continued(before, k) == (scan, false);
    forall d | 0 <= d < scan.ndevs ensures plan2.positions[0][d] == plan1.positions[n - 2][d] {
      hide At;
      var a := scan.startpositions[0][d];
      assert plan1.positions[n - 1][d] == NewPosition(scan, Some(step), false, n - 1, d) == At(a, -step[d], n);
      assert plan1.positions[n - 2][d] == NewPosition(scan, Some(step), false, n - 2, d) == At(a, -step[d], n - 1);
      assert plan2.positions[0][d] == NewPosition(ds, Some(step), true, 0, d) == At(At(a, -step[d], n), step[d], 1);
      OneStepBack(a, step[d], n);
    }
  }

  lemma OneStepBack(x: real, h: real, n: int)
    ensures At(At(x, -h, n), h, 1) == At(x, -h, n - 1)
  {
    assert (n - 1) as real == n as real - 1.0;
  }

  // ---- Runs with a given step size ----

  /** The positions `second` go on where `first` ends, with the last step of `first`. */
  ghost predicate GoesOn(first: seq<Position>, second: seq<Position>, ndevs: nat)
    requires |first| >= 2
    requires forall j :: 0 <= j < |first| ==> |first[j]| == ndevs
    requires forall j :: 0 <= j < |second| ==> |second[j]| == ndevs
  {
    var n := |first|;
    forall j, d :: 0 <= j < |second| && 0 <= d < ndevs ==>
      second[j][d] == At(first[n - 1][d], first[n - 1][d] - first[n - 2][d], j + 1)
  }

  /** A second call in the same direction with the same given step goes on along the
      steps exactly if the direction is positive or all steps are zero. */
  lemma SecondCallGoesOnIff(
    before: seq<Dataset>, k: int, m: int, step: seq<real>, plan1: Plan, ds: Dataset, plan2: Plan)
    requires Abs(k) >= 2 && m != 0 && Sign(m) == Sign(k)
    requires before != [] && AllValid(before) && before[|before| - 1].direction != Some(Sign(k))
    requires Planned(before, k, Some(step), plan1) && Recorded(plan1, ds)
    requires AllValid(before + [ds]) && Planned(before + [ds], m, Some(step), plan2)
    ensures
      GoesOn(plan1.positions, plan2.positions, plan1.scan.ndevs) <==>
      k > 0 || forall d :: 0 <= d < plan1.scan.ndevs ==> step[d] == 0.0
  {
    var history := before + [ds];
    var n, scan := |plan1.positions|, plan1.scan;
    var first, second := plan1.positions, plan2.positions;
    assert Continued(history, m) == (ds, true) && Continued(before, k) == (scan, k > 0);
    forall d | 0 <= d < scan.ndevs
      ensures first[n - 1][d] - first[n - 2][d] == if k > 0 then step[d] else -step[d]
      ensures forall j :: 0 <= j < |second| ==> second[j][d] == At(first[n - 1][d], step[d], j + 1)
    {
      hide At;
      var h := if k > 0 then step[d] else -step[d];
      var a := scan.startpositions[if k > 0 then scan.nsteps - 1 else 0][d];
      assert first[n - 1][d] == NewPosition(scan, Some(step), k > 0, n - 1, d) == At(a, h, n);
      assert first[n - 2][d] == NewPosition(scan, Some(step), k > 0, n - 2, d) == At(a, h, n - 1);
      LastStep(a, h, n);
      forall j | 0 <= j < |second| ensures second[j][d] == At(first[n - 1][d], step[d], j + 1) {
        assert second[j][d] == NewPosition(ds, Some(step), true, j, d);
      }
    }
    if k < 0 && GoesOn(first, second, scan.ndevs) {
      forall d | 0 <= d < scan.ndevs ensures step[d] == 0.0 {
        assert second[0][d] == At(first[n - 1][d], step[d], 1) == At(first[n - 1][d], -step[d], 1);
      }
    }
    if k < 0 && forall d :: 0 <= d < scan.ndevs ==> step[d] == 0.0 {
      forall j, d | 0 <= j < |second| && 0 <= d < scan.ndevs
        ensures second[j][d] == At(first[n - 1][d], first[n - 1][d] - first[n - 2][d], j + 1)
      {
        assert second[j][d] == At(first[n - 1][d], step[d], j + 1);
        assert step[d] == 0.0 == -step[d];
      }
    }
  }

  lemma LastStep(x: real, h: real, n: int)
    ensures At(x, h, n) - At(x, h, n - 1) == h
  {
    assert n as real == (n - 1) as real + 1.0;
  }

  /** Each recorded scan is what its call plans with the given step size. */
  ghost predicate IsRunWith(before: seq<Dataset>, calls: Calls, step: seq<real>) {
    match calls
    case NoCalls => true
    case Call(earlier, numpoints, ds) =>
      IsRunWith(before, earlier, step) && AppendedWith(History(before, earlier), numpoints, step, ds)
  }

  ghost predicate AppendedWith(before: seq<Dataset>, call: int, step: seq<real>, ds: Dataset) {
    && before != [] && AllValid(before) && call != 0
    && exists plan :: Planned(before, call, Some(step), plan) && Recorded(plan, ds)
  }

  /** An appended scan of direction `dir` over `n` points of the progression, taken
      forwards or backwards. */
  ghost predicate StretchOf(ds: Dataset, ndevs: nat, x: Position, h: Position, dir: int, from: int, way: int, n: nat) {
    && |x| == |h| == ndevs
    && ds.Valid() && ds.chain != [] && ds.direction == Some(dir)
    && ds.ndevs == ndevs && ds.nsteps == |ds.startpositions| == n
    && ds.startpositions == Progression(x, h, from, way, n)
  }

  /** Where a run in direction `dir` with a given step starts from: the last or the
      first point of the original scan. */
  ghost function Origin(base: Dataset, dir: int): Position
    requires base.Valid() && base.nsteps >= 2
  {
    base.startpositions[if dir == 1 then base.nsteps - 1 else 0]
  }

  /** The steps from there to the last point: the first call goes in the direction,
      every further one forwards. */
  ghost function EndIndex(calls: Calls, dir: int): int {
    match calls
    case NoCalls => 0
    case Call(NoCalls, numpoints, _) => dir * Abs(numpoints)
    case Call(earlier, numpoints, _) => EndIndex(earlier, dir) + Abs(numpoints)
  }

  /** The points that a run visits. */
  ghost function GivenPoints(calls: Calls, x: Position, h: Position, dir: int): seq<Position>
    requires |x| == |h|
  {
    match calls
    case NoCalls => []
    case Call(NoCalls, numpoints, _) => Progression(x, h, dir, dir, Abs(numpoints))
    case Call(earlier, numpoints, _) =>
      GivenPoints(earlier, x, h, dir) + Progression(x, h, EndIndex(earlier, dir) + 1, 1, Abs(numpoints))
  }

  ghost predicate GivenRun(before: seq<Dataset>, calls: Calls, base: Dataset, b: nat, dir: int, step: seq<real>) {
    && (dir == 1 || dir == -1)
    && base.Valid() && base.nsteps >= 2 && base.chain == [] && |step| == base.ndevs
    && Ready(before, base, b, dir)
    && OneWay(calls, dir) && IsRunWith(before, calls, step)
  }

  lemma FirstGivenCall(
    prev: seq<Dataset>, numpoints: int, ds: Dataset, base: Dataset, b: nat, step: seq<real>, dir: int)
    requires dir == 1 || dir == -1
    requires base.Valid() && base.nsteps >= 2 && base.chain == [] && |step| == base.ndevs
    requires Ready(prev, base, b, dir) && Sign(numpoints) == dir && AppendedWith(prev, numpoints, step, ds)
    ensures StretchOf(ds, base.ndevs, Origin(base, dir), step, dir, dir, dir, Abs(numpoints))
  {
    hide At, Pt, NewPosition, Index;
    OriginalIs(prev, b);
    var plan :| Planned(prev, numpoints, Some(step), plan) && Recorded(plan, ds);
    var x := Origin(base, dir);
    assert plan.scan == base;
    forall j | 0 <= j < |plan.positions| ensures plan.positions[j] == Pt(x, step, Index(dir, dir, j)) {
      forall d | 0 <= d < base.ndevs ensures plan.positions[j][d] == At(x[d], step[d], Index(dir, dir, j)) {
        FirstGivenPoint(base, step, dir, j, d);
      }
    }
  }

  lemma FirstGivenPoint(base: Dataset, step: seq<real>, dir: int, j: nat, d: nat)
    requires dir == 1 || dir == -1
    requires base.Valid() && base.nsteps >= 2 && |step| == base.ndevs && d < base.ndevs
    ensures NewPosition(base, Some(step), dir == 1, j, d) == At(Origin(base, dir)[d], step[d], Index(dir, dir, j))
  {
    if dir == -1 {
      assert Index(dir, dir, j) as real == -((j + 1) as real);
    }
  }

  lemma NextGivenCall(
    prev: seq<Dataset>, scan: Dataset, numpoints: int, ds: Dataset, base: Dataset, b: nat, step: seq<real>, dir: int,
    from: int, way: int, m: nat)
    requires base.Valid() && base.nsteps >= 2 && |step| == base.ndevs
    requires StillContinues(prev, base, b) && base.chain == [] && EndsIn(prev, scan)
    requires Sign(numpoints) == dir && AppendedWith(prev, numpoints, step, ds)
    requires m > 0 && StretchOf(scan, base.ndevs, Origin(base, dir), step, dir, from, way, m)
    ensures StretchOf(ds, base.ndevs, Origin(base, dir), step, dir, Index(from, way, m - 1) + 1, 1, Abs(numpoints))
  {
    hide At, Pt, NewPosition, Index;
    OriginalIs(prev, b);
    var plan :| Planned(prev, numpoints, Some(step), plan) && Recorded(plan, ds);
    assert plan.scan == scan;
    var x, e := Origin(base, dir), Index(from, way, m - 1);
    assert scan.startpositions[m - 1] == Pt(x, step, e);
    forall j | 0 <= j < |plan.positions| ensures plan.positions[j] == Pt(x, step, Index(e + 1, 1, j)) {
      forall d | 0 <= d < base.ndevs ensures plan.positions[j][d] == At(x[d], step[d], Index(e + 1, 1, j)) {
        NextGivenPoint(scan, step, x, e, j, d);
      }
    }
  }

  lemma NextGivenPoint(scan: Dataset, step: seq<real>, x: Position, e: int, j: nat, d: nat)
    requires scan.Valid() && scan.nsteps >= 2 && |step| == |x| == scan.ndevs && d < scan.ndevs
    requires scan.startpositions[scan.nsteps - 1] == Pt(x, step, e)
    ensures NewPosition(scan, Some(step), true, j, d) == At(x[d], step[d], Index(e + 1, 1, j))
  {
    assert Index(e + 1, 1, j) as real == e as real + (j + 1) as real;
  }

  /** Every scan of a run with a given step. */
  lemma {:induction false} GivenScans
    (before: seq<Dataset>, calls: Calls, base: Dataset, b: nat, dir: int, step: seq<real>)
    requires GivenRun(before, calls, base, b, dir, step)
    ensures StillContinues(History(before, calls), base, b)
    ensures calls.Call? ==>
      var first := calls.earlier.NoCalls?;
      StretchOf(calls.ds, base.ndevs, Origin(base, dir), step, dir,
        if first then dir else EndIndex(calls.earlier, dir) + 1, if first then dir else 1, Abs(calls.numpoints))
    decreases calls
  {
    if calls.Call? {
      hide AppendedWith, StretchOf, StillContinues, Progression, EndIndex;
      var earlier := calls.earlier;
      assert Ready(before, base, b, dir) && StillContinues(before, base, b);
      hide Ready;
      GivenScans(before, earlier, base, b, dir, step);
      if earlier.NoCalls? {
        assert History(before, earlier) == before;
        FirstGivenCall(before, calls.numpoints, calls.ds, base, b, step, dir);
        StretchRecorded(before, calls.ds, base, b, Origin(base, dir), step, dir, dir, dir, Abs(calls.numpoints));
      } else {
        LaterGivenCall(before, calls, base, b, dir, step);
        StretchRecorded(History(before, earlier), calls.ds, base, b, Origin(base, dir), step, dir,
          EndIndex(earlier, dir) + 1, 1, Abs(calls.numpoints));
      }
    } else {
      hide AppendedWith, StretchOf, Progression, EndIndex;
    }
  }

  lemma StretchRecorded(
    prev: seq<Dataset>, ds: Dataset, base: Dataset, b: nat, x: Position, h: Position, dir: int, from: int,
    way: int, n: nat)
    requires StillContinues(prev, base, b) && StretchOf(ds, base.ndevs, x, h, dir, from, way, n)
    ensures StillContinues(prev + [ds], base, b)
    ensures |x| == |h| && ds.startpositions == Progression(x, h, from, way, n)
  {
  }

  lemma LaterGivenCall(before: seq<Dataset>, calls: Calls, base: Dataset, b: nat, dir: int, step: seq<real>)
    requires GivenRun(before, calls, base, b, dir, step) && calls.Call? && calls.earlier.Call?
    requires StillContinues(History(before, calls.earlier), base, b)
    requires
      var earlier := calls.earlier;
      var first := earlier.earlier.NoCalls?;
      StretchOf(earlier.ds, base.ndevs, Origin(base, dir), step, dir,
        if first then dir else EndIndex(earlier.earlier, dir) + 1, if first then dir else 1, Abs(earlier.numpoints))
    ensures StretchOf(calls.ds, base.ndevs, Origin(base, dir), step, dir,
      EndIndex(calls.earlier, dir) + 1, 1, Abs(calls.numpoints))
  {
    var earlier := calls.earlier;
    var first := earlier.earlier.NoCalls?;
    var from, way := if first then dir else EndIndex(earlier.earlier, dir) + 1, if first then dir else 1;
    LastRecorded(before, earlier);
    LastOfStretch(earlier, dir);
    assert AppendedWith(History(before, earlier), calls.numpoints, step, calls.ds);
    assert earlier.numpoints != 0;
    hide AppendedWith, StretchOf, StillContinues, EndsIn, Ready, History, Index, EndIndex;
    NextGivenCall(History(before, earlier), earlier.ds, calls.numpoints, calls.ds, base, b, step, dir,
      from, way, Abs(earlier.numpoints));
  }

  lemma LastOfStretch(calls: Calls, dir: int)
    requires calls.Call?
    ensures
      var first := calls.earlier.NoCalls?;
      Index(if first then dir else EndIndex(calls.earlier, dir) + 1, if first then dir else 1, Abs(calls.numpoints) - 1)
      == EndIndex(calls, dir)
  {
  }

  /** What any number of calls in one direction with a given step visits: the first
      goes in its direction, all others go forwards from where it ended. */
  lemma {:induction false} GivenStepRun
    (before: seq<Dataset>, calls: Calls, base: Dataset, b: nat, dir: int, step: seq<real>)
    requires GivenRun(before, calls, base, b, dir, step)
    ensures Visited(calls) == GivenPoints(calls, Origin(base, dir), step, dir)
    decreases calls
  {
    if calls.Call? {
      GivenRunBefore(before, calls, base, b, dir, step);
      hide AppendedWith, StillContinues, Progression, EndIndex, Ready, GivenRun, Origin, StretchOf, Index, History;
      GivenScans(before, calls, base, b, dir, step);
      GivenScans(before, calls.earlier, base, b, dir, step);
      GivenStepRun(before, calls.earlier, base, b, dir, step);
      var first := calls.earlier.NoCalls?;
      StretchRecorded(History(before, calls.earlier), calls.ds, base, b, Origin(base, dir), step, dir,
        if first then dir else EndIndex(calls.earlier, dir) + 1, if first then dir else 1, Abs(calls.numpoints));
      if first {
        NothingBefore(calls.ds.startpositions);
      }
    }
  }

  lemma GivenRunBefore(before: seq<Dataset>, calls: Calls, base: Dataset, b: nat, dir: int, step: seq<real>)
    requires GivenRun(before, calls, base, b, dir, step) && calls.Call?
    ensures GivenRun(before, calls.earlier, base, b, dir, step)
  {
  }

  lemma NothingBefore(s: seq<Position>)
    ensures [] + s == s
  {
  }

  /** In the positive direction that is one stretch of equal steps. */
  lemma {:induction false} GivenStepForwards(before: seq<Dataset>, calls: Calls, base: Dataset, b: nat, step: seq<real>)
    requires GivenRun(before, calls, base, b, 1, step)
    ensures Visited(calls) == Progression(Origin(base, 1), step, 1, 1, Total(calls))
  {
    GivenStepRun(before, calls, base, b, 1, step);
    ForwardPoints(calls, Origin(base, 1), step);
  }

  lemma {:induction false} ForwardPoints(calls: Calls, x: Position, h: Position)
    requires |x| == |h|
    ensures GivenPoints(calls, x, h, 1) == Progression(x, h, 1, 1, Total(calls))
    ensures EndIndex(calls, 1) == Total(calls)
    decreases calls
  {
    hide Progression, Pt;
    if calls.Call? {
      ForwardPoints(calls.earlier, x, h);
      if calls.earlier.Call? {
        Join(x, h, 1, 1, Total(calls.earlier), Abs(calls.numpoints));
      }
    } else {
      NoPoints(x, h);
    }
  }

  lemma NoPoints(x: Position, h: Position)
    requires |x| == |h|
    ensures Progression(x, h, 1, 1, 0) == []
  {
  }
}
