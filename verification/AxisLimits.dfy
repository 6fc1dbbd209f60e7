/** Limits and offset of a motor axis (a Moveable with HasLimits and HasOffset
    in the convention of MotorAxis): user limits are logical positions, absolute
    limits and hardware positions are physical ones, and
    physical == logical + offset. */
module AxisLimits {
  import opened Options

  type Limits = (real, real)

  // Relative tolerance of the limit check.
  const TOLERANCE := 0.000000000001

  function Tol(x: real): real {
    if x * TOLERANCE < 0.0 then -(x * TOLERANCE) else x * TOLERANCE
  }

  /** An axis as a value.  `pending` is the `_new_offset` attribute, present while
      the offset is being changed; `hw` are the targets given to the hardware. */
  datatype Axis = Axis(
    abslimits: Limits, userlimits: Limits, offset: real, pending: Option<real>,
    target: Option<real>, fixed: bool, hw: seq<real>)

  /** The offset the limit check uses. */
  function CheckOffset(a: Axis): real {
    if a.pending.Some? then a.pending.value else a.offset
  }

  /** `_checkLimits` accepts the user limits. */
  predicate LimitsOk(a: Axis, l: Limits) {
    var umin, umax := l.0 + CheckOffset(a), l.1 + CheckOffset(a);
    && umin <= umax
    && umin >= a.abslimits.0 - Tol(a.abslimits.0)
    && umax <= a.abslimits.1 + Tol(a.abslimits.1)
  }

  ghost predicate InAbsRange(a: Axis, phys: real) {
    a.abslimits.0 - Tol(a.abslimits.0) <= phys <= a.abslimits.1 + Tol(a.abslimits.1)
  }

  ghost predicate InUserRange(a: Axis, phys: real) {
    a.userlimits.0 + a.offset <= phys <= a.userlimits.1 + a.offset
  }

  /** The physical user range is within the absolute limits, up to the tolerance,
      and so is every target given to the hardware. */
  ghost predicate Inv(a: Axis) {
    && a.abslimits.0 <= a.abslimits.1
    && a.pending == None
    && a.userlimits.0 <= a.userlimits.1
    && InAbsRange(a, a.userlimits.0 + a.offset) && InAbsRange(a, a.userlimits.1 + a.offset)
    && forall k :: 0 <= k < |a.hw| ==> InAbsRange(a, a.hw[k])
  }

  // ---- Steps as functions: the new state, and whether the call returned ----

  /** Setting `userlimits`; `readable` tells that reading the value does not raise. */
  function SetUserlimits(a: Axis, l: Limits, readable: bool): (Axis, bool) {
    if l.0 > l.1 || !LimitsOk(a, l) then (a, false)
    else if a.pending.None? && !readable then (a, false)
    else (a.(userlimits := l), true)
  }

  /** Setting `offset`; `readable` tells that reading the value, which is done
      after the limits were moved, does not raise. */
  function SetOffset(a: Axis, value: real, readable: bool): (Axis, bool) {
    var diff := value - a.offset;
    var (b, ok) := SetUserlimits(a.(pending := Some(value)), (a.userlimits.0 - diff, a.userlimits.1 - diff), readable);
    if !ok then (b, false)
    else
      var c := b.(pending := None, target := if b.target.Some? then Some(b.target.value - diff) else None);
      if !readable then (c, false) else (c.(offset := value), true)
  }

  function ResetLimits(a: Axis, readable: bool): (Axis, bool) {
    var l := (a.abslimits.0 - a.offset, a.abslimits.1 - a.offset);
    if a.userlimits != l then SetUserlimits(a, l, readable) else (a, true)
  }

  function Min(x: real, y: real): real { if y < x then y else x }
  function Max(x: real, y: real): real { if y > x then y else x }

  /** The limits `init` restores as master; None if `doReadUserlimits` raises.
      `config` are the user limits of the setup file. */
  function InitialLimits(a: Axis, config: Option<Limits>): Option<Limits> {
    var amin, amax := a.abslimits.0 - a.offset, a.abslimits.1 - a.offset;
    var (umin, umax) := a.userlimits;
    if umin > amax || umax < amin then Some((amin, amax))
    else if umin == umax == 0.0 then
      if config.None? then Some(a.abslimits)
      else if LimitsOk(a, config.value) then config
      else None
    else Some((Min(Max(umin, amin), amax), Max(Min(umax, amax), amin)))
  }

  function Init(a: Axis, config: Option<Limits>, readable: bool): (Axis, bool) {
    match InitialLimits(a, config)
    case None => (a, false)
    case Some(l) => if l != a.userlimits then SetUserlimits(a, l, readable) else (a, true)
  }

  datatype StartCheck = Move(pos: real) | Stay | Refused

  /** `_check_start`: `permitted` sums up access rights and controllers. */
  function CheckStart(a: Axis, pos: real, permitted: bool): StartCheck {
    if a.fixed then Stay
    else if !permitted then Refused
    else if a.userlimits.0 <= pos <= a.userlimits.1 then Move(pos)
    else Refused
  }

  /** `_start_unchecked`: the target is set, then `doStart` gives it to the hardware,
      unless that raises. */
  function Started(a: Axis, pos: real, accepts: bool): Axis {
    a.(target := Some(pos), hw := if accepts then a.hw + [pos + a.offset] else a.hw)
  }

  function Start(a: Axis, pos: real, permitted: bool, accepts: bool): (Axis, bool) {
    match CheckStart(a, pos, permitted)
    case Move(p) => (Started(a, p, accepts), accepts)
    case Stay => (a, true)
    case Refused => (a, false)
  }

  // ---- Runs ----

  datatype Op =
    | DoSetUserlimits(l: Limits, readable: bool)
    | DoSetOffset(value: real, readable: bool)
    | DoAdjust(oldvalue: real, newvalue: real, readable: bool)
    | DoResetLimits(readable: bool)
    | DoFix(fixed: bool)
    | DoStart(pos: real, permitted: bool, accepts: bool)

  function Apply(a: Axis, op: Op): (Axis, bool) {
    match op
    case DoSetUserlimits(l, readable) => SetUserlimits(a, l, readable)
    case DoSetOffset(value, readable) => SetOffset(a, value, readable)
    case DoAdjust(oldvalue, newvalue, readable) => SetOffset(a, a.offset + (oldvalue - newvalue), readable)
    case DoResetLimits(readable) => ResetLimits(a, readable)
    case DoFix(fixed) => (a.(fixed := fixed), true)
    case DoStart(pos, permitted, accepts) => Start(a, pos, permitted, accepts)
  }

  /** Changing the offset comes with a successful reading of the value. */
  predicate Readable(op: Op) {
    (op.DoSetOffset? || op.DoAdjust?) ==> op.readable
  }

  function Run(a: Axis, ops: seq<Op>): Axis {
    if ops == [] then a else Apply(Run(a, ops[..|ops| - 1]), ops[|ops| - 1]).0
  }

  /** Changing the offset moves the logical limits and the target, not the
      physical ones, and is never refused for its limits. */
  lemma OffsetKeepsPhysicalRange(a: Axis, value: real, readable: bool)
    requires Inv(a)
    ensures
      var (b, ok) := SetOffset(a, value, readable);
      && ok == readable
      && (ok ==>
           && Inv(b) && b.offset == value && b.abslimits == a.abslimits
           && b.userlimits.0 + b.offset == a.userlimits.0 + a.offset
           && b.userlimits.1 + b.offset == a.userlimits.1 + a.offset
           && (a.target.Some? ==> b.target.Some? && b.target.value + b.offset == a.target.value + a.offset)
           && b.hw == a.hw)
  {
  }

  /** New user limits are stored exactly if they are in order, their physical range
      is within the absolute limits, and the value can be read. */
  lemma UserlimitsKeepInv(a: Axis, l: Limits, readable: bool)
    requires Inv(a)
    ensures
      var (b, ok) := SetUserlimits(a, l, readable);
      && Inv(b) && b.abslimits == a.abslimits
      && b.userlimits == (if ok then l else a.userlimits)
      && (ok <==> l.0 <= l.1 && InAbsRange(a, l.0 + a.offset) && InAbsRange(a, l.1 + a.offset) && readable)
  {
  }

  /** Adjusting makes the physical position that read as `oldvalue` read as `newvalue`. */
  lemma AdjustRenames(a: Axis, oldvalue: real, newvalue: real, phys: real)
    requires Inv(a) && phys - a.offset == oldvalue
    ensures
      var (b, ok) := Apply(a, DoAdjust(oldvalue, newvalue, true));
      ok && phys - b.offset == newvalue && (InUserRange(b, phys) <==> InUserRange(a, phys))
  {
    hide SetOffset;
    OffsetKeepsPhysicalRange(a, a.offset + (oldvalue - newvalue), true);
  }

  /** Resetting gives exactly the absolute limits as physical range. */
  lemma ResetGivesAbsoluteRange(a: Axis, phys: real)
    requires Inv(a)
    ensures
      var (b, ok) := ResetLimits(a, true);
      ok && Inv(b) && b.offset == a.offset && (InUserRange(b, phys) <==> a.abslimits.0 <= phys <= a.abslimits.1)
  {
  }

  lemma StepKeepsInv(a: Axis, op: Op)
    requires Inv(a) && Readable(op)
    ensures Inv(Apply(a, op).0) && Apply(a, op).0.abslimits == a.abslimits
  {
    hide SetUserlimits, SetOffset, Start, LimitsOk;
    match op
    case DoSetUserlimits(l, readable) => UserlimitsKeepInv(a, l, readable);
    case DoSetOffset(value, readable) => OffsetKeepsPhysicalRange(a, value, readable);
    case DoAdjust(oldvalue, newvalue, readable) =>
      OffsetKeepsPhysicalRange(a, a.offset + (oldvalue - newvalue), readable);
    case DoResetLimits(readable) =>
      UserlimitsKeepInv(a, (a.abslimits.0 - a.offset, a.abslimits.1 - a.offset), readable);
    case DoFix(fixed) =>
    case DoStart(pos, permitted, accepts) => StartIsInRange(a, pos, permitted, accepts);
  }

  /** A target reaches the hardware only inside the physical user range, and
      never on a fixed device. */
  lemma StartIsInRange(a: Axis, pos: real, permitted: bool, accepts: bool)
    requires Inv(a)
    ensures
      var (b, ok) := Start(a, pos, permitted, accepts);
      && Inv(b) && b.abslimits == a.abslimits
      && (b.hw == a.hw || (!a.fixed && b.hw == a.hw + [pos + a.offset] && InUserRange(a, pos + a.offset)))
    // exactly when it does, and when the call returns
    ensures
      var (b, ok), fits := Start(a, pos, permitted, accepts), permitted && InUserRange(a, pos + a.offset);
      && (b.hw == a.hw + [pos + a.offset] <==> !a.fixed && fits && accepts)
      && (ok <==> a.fixed || (fits && accepts))
      && b.target == if !a.fixed && fits then Some(pos) else a.target
  {
    assert |a.hw + [pos + a.offset]| == |a.hw| + 1;
  }

  /** Over any run, the physical user range and all targets given to the
      hardware stay inside the absolute limits. */
  lemma {:induction false} RunKeepsInv(a: Axis, ops: seq<Op>)
    requires Inv(a)
    requires forall k :: 0 <= k < |ops| ==> Readable(ops[k])
    ensures Inv(Run(a, ops)) && Run(a, ops).abslimits == a.abslimits
  {
    if ops != [] {
      var n := |ops| - 1;
      RunKeepsInv(a, ops[..n]);
      StepKeepsInv(Run(a, ops[..n]), ops[n]);
    }
  }

  /** `init` establishes the invariant, whatever user limits were remembered. */
  lemma InitEstablishesInv(a: Axis, config: Option<Limits>, readable: bool)
    requires a.abslimits.0 <= a.abslimits.1 && a.userlimits.0 <= a.userlimits.1
    requires a.pending == None && a.hw == []
    ensures Init(a, config, readable).1 ==> Inv(Init(a, config, readable).0)
    ensures a.userlimits != (0.0, 0.0) && readable ==> Init(a, config, readable).1
  {
  }

  /** If the reading fails while the offset is changed, the limits have moved but
      the offset has not: the invariant then holds exactly if the physical range
      happens to stay inside when moved by the difference. */
  lemma TornOffset(a: Axis, value: real)
    requires Inv(a)
    ensures
      var (b, ok), diff := SetOffset(a, value, false), value - a.offset;
      && !ok && b.offset == a.offset
      && (Inv(b) <==>
           InAbsRange(a, a.userlimits.0 + a.offset - diff) && InAbsRange(a, a.userlimits.1 + a.offset - diff))
  {
  }

  /** A concrete run in which a target outside the absolute limits reaches the hardware. */
  lemma TornOffsetReachesHardware()
    ensures
      var a := Axis((0.0, 10.0), (0.0, 10.0), 0.0, None, None, false, []);
      var b := Start(SetOffset(a, -5.0, false).0, 15.0, true, true).0;
      Inv(a) && b.hw == [15.0] && !InAbsRange(b, b.hw[0])
  {
  }

  // ---- The device ----

  class MotorAxis {
    const abslimits: Limits
    var userlimits: Limits
    var offset: real
    var pending: Option<real>
    var target: Option<real>
    var fixed: bool
    var hw: seq<real>  // the targets given to the hardware

    constructor (abslimits: Limits, userlimits: Limits, offset: real)
      ensures State() == Axis(abslimits, userlimits, offset, None, None, false, [])
    {
      this.abslimits, this.userlimits, this.offset := abslimits, userlimits, offset;
      pending, target, fixed, hw := None, None, false, [];
    }

    function State(): Axis
      reads this
    {
      Axis(abslimits, userlimits, offset, pending, target, fixed, hw)
    }

    method CheckLimits(l: Limits) returns (ok: bool)
      ensures ok <==> LimitsOk(State(), l)
    {
      var off := if pending.Some? then pending.value else offset;
      var umin, umax := l.0 + off, l.1 + off;
      var (amin, amax) := abslimits;
      if umin > umax || umin < amin - Tol(amin) || umax > amax + Tol(amax) {
        return false;
      }
      ok := true;
    }

    method WriteUserlimits(l: Limits, readable: bool) returns (ok: bool)
      modifies this`userlimits
      ensures (State(), ok) == SetUserlimits(old(State()), l, readable)
    {
      if l.0 > l.1 {
        return false;
      }
      ok := CheckLimits(l);
      if ok && pending.None? {
        ok := readable;
      }
      if ok {
        userlimits := l;
      }
    }

    method WriteOffset(value: real, readable: bool) returns (ok: bool)
      modifies this`userlimits, this`offset, this`pending, this`target
      ensures (State(), ok) == SetOffset(old(State()), value, readable)
    {
      var diff := value - offset;
      pending := Some(value);
      ok := WriteUserlimits((userlimits.0 - diff, userlimits.1 - diff), readable);
      if !ok {
        return;
      }
      pending := None;
      if target.Some? {
        target := Some(target.value - diff);
      }
      if !readable {
        return false;
      }
      offset := value;
    }

    method Adjust(oldvalue: real, newvalue: real, readable: bool) returns (ok: bool)
      modifies this`userlimits, this`offset, this`pending, this`target
      ensures (State(), ok) == Apply(old(State()), DoAdjust(oldvalue, newvalue, readable))
    {
      var diff := oldvalue - newvalue;
      ok := WriteOffset(offset + diff, readable);
    }

    method ResetUserlimits(readable: bool) returns (ok: bool)
      modifies this`userlimits
      ensures (State(), ok) == ResetLimits(old(State()), readable)
    {
      var newlim := (abslimits.0 - offset, abslimits.1 - offset);
      ok := true;
      if userlimits != newlim {
        ok := WriteUserlimits(newlim, readable);
      }
    }

    method Initialize(config: Option<Limits>, readable: bool) returns (ok: bool)
      modifies this`userlimits
      ensures (State(), ok) == Init(old(State()), config, readable)
    {
      var amin, amax := abslimits.0 - offset, abslimits.1 - offset;
      var (umin, umax) := userlimits;
      var restricted: Limits;
      if umin > amax || umax < amin {
        restricted := (amin, amax);
      } else if umin == umax == 0.0 {
        if config.None? {
          restricted := abslimits;
        } else {
          ok := CheckLimits(config.value);
          if !ok {
            return;
          }
          restricted := config.value;
        }
      } else {
        restricted := (Min(Max(umin, amin), amax), Max(Min(umax, amax), amin));
      }
      ok := true;
      if restricted != (umin, umax) {
        ok := WriteUserlimits(restricted, readable);
      }
    }

    method Check(pos: real, permitted: bool) returns (r: StartCheck)
      ensures r == CheckStart(State(), pos, permitted)
    {
      if fixed {
        return Stay;
      }
      if !permitted || !(userlimits.0 <= pos <= userlimits.1) {
        return Refused;
      }
      r := Move(pos);
    }

    method StartUnchecked(pos: real, accepts: bool) returns (ok: bool)
      modifies this`target, this`hw
      ensures State() == Started(old(State()), pos, accepts) && ok == accepts
    {
      target := Some(pos);
      if accepts {
        hw := hw + [pos + offset];
      }
      ok := accepts;
    }

    /** `start`; `accepts` says that `doStart` does not raise. */
    method StartAt(pos: real, permitted: bool, accepts: bool) returns (ok: bool)
      modifies this`target, this`hw
      ensures (State(), ok) == Start(old(State()), pos, permitted, accepts)
    {
      var r := Check(pos, permitted);
      if r.Move? {
        ok := StartUnchecked(r.pos, accepts);
      } else {
        ok := r.Stay?;
      }
    }
  }

  // ---- Moving several devices at once ----

  datatype Request<D> = Request(dev: D, pos: real, permitted: bool)

  /** The axes of several devices. */
  type Fleet<!D> = map<D, Axis>

  ghost predicate Known<D>(fleet: Fleet<D>, requests: seq<Request<D>>) {
    forall k :: 0 <= k < |requests| ==> requests[k].dev in fleet
  }

  ghost function Checked<D>(fleet: Fleet<D>, r: Request<D>): StartCheck
    requires r.dev in fleet
  {
    CheckStart(fleet[r.dev], r.pos, r.permitted)
  }

  /** The requests whose check passes for a device that is not fixed. */
  ghost function Movable<D>(fleet: Fleet<D>, requests: seq<Request<D>>): seq<Request<D>>
    requires Known(fleet, requests)
  {
    if requests == [] then []
    else
      var n := |requests| - 1;
      Movable(fleet, requests[..n]) + if Checked(fleet, requests[n]).Move? then [requests[n]] else []
  }

  /** The first `n` moves in order, `accepts` telling whether the last start returns. */
  ghost function StartedAll<D>(fleet: Fleet<D>, moves: seq<Request<D>>, n: nat, accepts: bool): Fleet<D>
    requires Known(fleet, moves) && n <= |moves|
    ensures StartedAll(fleet, moves, n, accepts).Keys == fleet.Keys
  {
    if n == 0 then fleet
    else
      var before, m := StartedAll(fleet, moves, n - 1, true), moves[n - 1];
      before[m.dev := Started(before[m.dev], m.pos, accepts)]
  }

  /** How many of `n` starts return before one raises. */
  function Accepted(accepts: nat -> bool, n: nat): (k: nat)
    ensures k <= n
    ensures forall j :: 0 <= j < k ==> accepts(j)
    ensures k < n ==> !accepts(k)
  {
    if n == 0 then 0
    else
      var k := Accepted(accepts, n - 1);
      if k < n - 1 || !accepts(n - 1) then k else n
  }

  ghost predicate AnyRefused<D>(fleet: Fleet<D>, requests: seq<Request<D>>)
    requires Known(fleet, requests)
  {
    exists k :: 0 <= k < |requests| && Checked(fleet, requests[k]).Refused?
  }

  /** What the second loop leaves: the moves up to the first whose start raises. */
  ghost function AfterStarts<D>(fleet: Fleet<D>, moves: seq<Request<D>>, accepts: nat -> bool): (Fleet<D>, bool)
    requires Known(fleet, moves)
  {
    var n := Accepted(accepts, |moves|);
    if n < |moves| then (StartedAll(fleet, moves, n + 1, false), true) else (StartedAll(fleet, moves, n, true), false)
  }

  /** `_basemove`: the axes afterwards, and whether it raised. */
  ghost function AfterBaseMove<D>(fleet: Fleet<D>, requests: seq<Request<D>>, accepts: nat -> bool): (Fleet<D>, bool)
    requires Known(fleet, requests)
  {
    if AnyRefused(fleet, requests) then (fleet, true)
    else
      MovableAreRequests(fleet, requests);
      AfterStarts(fleet, Movable(fleet, requests), accepts)
  }

  lemma {:induction false} MovableAreRequests<D>(fleet: Fleet<D>, requests: seq<Request<D>>)
    requires Known(fleet, requests)
    ensures forall k :: 0 <= k < |Movable(fleet, requests)| ==>
      Movable(fleet, requests)[k] in requests && Checked(fleet, Movable(fleet, requests)[k]).Move?
    ensures Known(fleet, Movable(fleet, requests))
  {
    if requests != [] {
      MovableAreRequests(fleet, requests[..|requests| - 1]);
    }
  }

  // ---- What a joint move does, in terms of the requests ----

  /** A request for a device that is not fixed, not permitted or outside its user limits. */
  ghost predicate IsBad<D>(fleet: Fleet<D>, r: Request<D>)
    requires r.dev in fleet
  {
    var a := fleet[r.dev];
    !a.fixed && (!r.permitted || r.pos < a.userlimits.0 || a.userlimits.1 < r.pos)
  }

  /** The requests for devices that are not fixed. */
  ghost function FreeRequests<D>(fleet: Fleet<D>, requests: seq<Request<D>>): (r: seq<Request<D>>)
    requires Known(fleet, requests)
    ensures Known(fleet, r)
  {
    if requests == [] then []
    else
      var n := |requests| - 1;
      FreeRequests(fleet, requests[..n]) + if fleet[requests[n].dev].fixed then [] else [requests[n]]
  }

  /** The positions the first `n` moves have for `d`. */
  ghost function PositionsOf<D>(moves: seq<Request<D>>, n: nat, d: D): seq<real>
    requires n <= |moves|
  {
    if n == 0 then []
    else PositionsOf(moves, n - 1, d) + if moves[n - 1].dev == d then [moves[n - 1].pos] else []
  }

  ghost function Physical(positions: seq<real>, offset: real): (r: seq<real>)
    ensures |r| == |positions| && forall k :: 0 <= k < |r| ==> r[k] == positions[k] + offset
  {
    seq(|positions|, k requires 0 <= k < |positions| => positions[k] + offset)
  }

  /** `b` is `a` after targets were set to `asked`, of which the hardware took `taken`. */
  ghost predicate MovedThrough(a: Axis, b: Axis, asked: seq<real>, taken: seq<real>) {
    b == a.(
      target := if asked == [] then a.target else Some(asked[|asked| - 1]),
      hw := a.hw + Physical(taken, a.offset))
  }

  /** A bad request refuses the whole move.  Otherwise the devices that are not
      fixed are started in the order of their requests until a start raises: each
      has the position of its last start as target, and its hardware took exactly
      the positions whose start returned. */
  ghost predicate JointMove<D>(
    fleet: Fleet<D>, after: Fleet<D>, requests: seq<Request<D>>, accepts: nat -> bool, raised: bool)
    requires Known(fleet, requests)
  {
    && after.Keys == fleet.Keys
    && if exists k :: 0 <= k < |requests| && IsBad(fleet, requests[k]) then raised && after == fleet
       else
         var moves := FreeRequests(fleet, requests);
         var n := Accepted(accepts, |moves|);
         && (raised <==> n < |moves|)
         && forall d :: d in fleet ==>
              MovedThrough(fleet[d], after[d],
                PositionsOf(moves, if raised then n + 1 else n, d), PositionsOf(moves, n, d))
  }

  lemma {:induction false} MovableAreFree<D>(fleet: Fleet<D>, requests: seq<Request<D>>)
    requires Known(fleet, requests) && !AnyRefused(fleet, requests)
    ensures Movable(fleet, requests) == FreeRequests(fleet, requests)
  {
    if requests != [] {
      var n := |requests| - 1;
      assert forall k :: 0 <= k < n ==> requests[..n][k] == requests[k];
      MovableAreFree(fleet, requests[..n]);
      assert !Checked(fleet, requests[n]).Refused?;
    }
  }

  lemma {:induction false} StartsMoveThrough<D>(fleet: Fleet<D>, moves: seq<Request<D>>, n: nat, accepts: bool, d: D)
    requires Known(fleet, moves) && n <= |moves| && (n == 0 ==> accepts) && d in fleet
    ensures MovedThrough(fleet[d], StartedAll(fleet, moves, n, accepts)[d],
              PositionsOf(moves, n, d), PositionsOf(moves, if accepts then n else n - 1, d))
    decreases n
  {
    if n == 0 {
      assert fleet[d].hw + [] == fleet[d].hw;
    } else {
      hide MovedThrough, Started;
      StartsMoveThrough(fleet, moves, n - 1, true, d);
      var before, asked := StartedAll(fleet, moves, n - 1, true), PositionsOf(moves, n - 1, d);
      assert asked + [] == asked;
      MovedOnce(fleet[d], before[d], asked, moves[n - 1].pos, accepts);
    }
  }

  lemma MovedOnce(a: Axis, b: Axis, asked: seq<real>, pos: real, accepts: bool)
    requires MovedThrough(a, b, asked, asked)
    ensures MovedThrough(a, Started(b, pos, accepts), asked + [pos], if accepts then asked + [pos] else asked)
  {
    OneMorePhysical(asked, pos, a.offset);
    hide Physical;
    assert (asked + [pos])[|asked + [pos]| - 1] == pos;
    Regroup(a.hw, Physical(asked, a.offset), [pos + a.offset]);
  }

  lemma OneMorePhysical(positions: seq<real>, pos: real, offset: real)
    ensures Physical(positions + [pos], offset) == Physical(positions, offset) + [pos + offset]
  {
  }

  lemma Regroup(a: seq<real>, b: seq<real>, c: seq<real>)
    ensures a + b + c == a + (b + c)
  {
  }

  /** What `_basemove` does for every device. */
  lemma BaseMoveMoves<D>(fleet: Fleet<D>, requests: seq<Request<D>>, accepts: nat -> bool)
    requires Known(fleet, requests)
    ensures
      var (after, raised) := AfterBaseMove(fleet, requests, accepts);
      JointMove(fleet, after, requests, accepts, raised)
  {
    hide StartedAll, Started, Accepted, MovedThrough, PositionsOf, Movable, FreeRequests;
    forall k | 0 <= k < |requests|
      ensures IsBad(fleet, requests[k]) <==> Checked(fleet, requests[k]).Refused?
    {
    }
    if !AnyRefused(fleet, requests) {
      MovableAreRequests(fleet, requests);
      MovableAreFree(fleet, requests);
      var moves := Movable(fleet, requests);
      var n := Accepted(accepts, |moves|);
      var after := AfterBaseMove(fleet, requests, accepts).0;
      forall d | d in fleet
        ensures MovedThrough(fleet[d], after[d],
          PositionsOf(moves, if n < |moves| then n + 1 else n, d), PositionsOf(moves, n, d))
      {
        if n < |moves| {
          StartsMoveThrough(fleet, moves, n + 1, false, d);
        } else {
          StartsMoveThrough(fleet, moves, n, true, d);
        }
      }
    }
  }

  ghost function DevsOf(requests: seq<Request<MotorAxis>>): set<MotorAxis> {
    set k | 0 <= k < |requests| :: requests[k].dev
  }

  ghost function Snapshot(devs: set<MotorAxis>): Fleet<MotorAxis>
    reads devs
  {
    map d | d in devs :: d.State()
  }

  /** The first loop of `_basemove`: checks every request. */
  method CheckAll(requests: seq<Request<MotorAxis>>, ghost devs: set<MotorAxis>)
    returns (errors: nat, movelist: seq<Request<MotorAxis>>)
    requires forall k :: 0 <= k < |requests| ==> requests[k].dev in devs
    ensures errors > 0 <==> AnyRefused(Snapshot(devs), requests)
    ensures movelist == Movable(Snapshot(devs), requests)
  {
    movelist, errors := [], 0;
    ghost var fleet := Snapshot(devs);
    for k := 0 to |requests|
      invariant errors > 0 <==> exists j :: 0 <= j < k && Checked(fleet, requests[j]).Refused?
      invariant movelist == Movable(fleet, requests[..k])
    {
      ghost var upto := requests[..k + 1];
      assert upto[..|upto| - 1] == requests[..k] && upto[|upto| - 1] == requests[k];
      assert movelist + [] == movelist;
      var r := requests[k].dev.Check(requests[k].pos, requests[k].permitted);
      assert r == Checked(fleet, requests[k]);
      if r.Move? {
        movelist := movelist + [requests[k]];
      } else if r.Refused? {
        errors := errors + 1;
      }
    }
    assert requests[..|requests|] == requests;
  }

  method StartOne(ghost devs: set<MotorAxis>, m: Request<MotorAxis>, accepts: bool) returns (ok: bool)
    requires m.dev in devs
    modifies m.dev
    ensures
      var before := old(Snapshot(devs));
      Snapshot(devs) == before[m.dev := Started(before[m.dev], m.pos, accepts)] && ok == accepts
  {
    hide Started;
    ok := m.dev.StartUnchecked(m.pos, accepts);
  }

  /** The second loop: starts the devices, in order, until a start raises. */
  method StartAll(ghost devs: set<MotorAxis>, movelist: seq<Request<MotorAxis>>, accepts: nat -> bool)
    returns (raised: bool)
    requires forall k :: 0 <= k < |movelist| ==> movelist[k].dev in devs
    modifies devs
    ensures (Snapshot(devs), raised) == AfterStarts(old(Snapshot(devs)), movelist, accepts)
  {
    ghost var fleet := Snapshot(devs);
    assert Known(fleet, movelist);
    hide StartedAll, Started, Accepted, Snapshot;
    raised := false;
    NothingStarted(fleet, movelist, accepts);
    for n := 0 to |movelist|
      invariant !raised && Accepted(accepts, n) == n
      invariant Snapshot(devs) == StartedAll(fleet, movelist, n, true)
    {
      var m := movelist[n];
      var ok := StartOne(devs, m, accepts(n));
      StartedStep(fleet, movelist, n, accepts);
      if !ok {
        AcceptedStays(accepts, n, |movelist|);
        raised := true;
        break;
      }
    }
  }

  lemma NothingStarted<D>(fleet: Fleet<D>, moves: seq<Request<D>>, accepts: nat -> bool)
    requires Known(fleet, moves)
    ensures StartedAll(fleet, moves, 0, true) == fleet && Accepted(accepts, 0) == 0
  {
  }

  lemma StartedStep<D>(fleet: Fleet<D>, moves: seq<Request<D>>, n: nat, accepts: nat -> bool)
    requires Known(fleet, moves) && n < |moves| && Accepted(accepts, n) == n
    ensures
      var before, m := StartedAll(fleet, moves, n, true), moves[n];
      StartedAll(fleet, moves, n + 1, accepts(n)) == before[m.dev := Started(before[m.dev], m.pos, accepts(n))]
    ensures Accepted(accepts, n + 1) == if accepts(n) then n + 1 else n
  {
    hide Started;
  }

  lemma {:induction false} AcceptedStays(accepts: nat -> bool, k: nat, n: nat)
    requires k < n && Accepted(accepts, k) == k && !accepts(k)
    ensures Accepted(accepts, n) == k
    decreases n
  {
    if k < n - 1 {
      AcceptedStays(accepts, k, n - 1);
    }
  }

  /** `_basemove`: checks all requests; if none fails, starts the devices that are
      not fixed, in order, until a start raises. */
  method BaseMove(requests: seq<Request<MotorAxis>>, accepts: nat -> bool) returns (raised: bool)
    modifies DevsOf(requests)
    ensures Known(old(Snapshot(DevsOf(requests))), requests)
    ensures (Snapshot(DevsOf(requests)), raised) == AfterBaseMove(old(Snapshot(DevsOf(requests))), requests, accepts)
    ensures JointMove(old(Snapshot(DevsOf(requests))), Snapshot(DevsOf(requests)), requests, accepts, raised)
    ensures old(AllInv(Snapshot(DevsOf(requests)))) ==> AllInv(Snapshot(DevsOf(requests)))
  {
    hide JointMove, AfterStarts, StartedAll;
    ghost var devs := DevsOf(requests);
    ghost var fleet := Snapshot(devs);
    forall k | 0 <= k < |requests| ensures requests[k].dev in devs {
    }
    if AllInv(fleet) {
      BaseMoveKeepsInv(fleet, requests, accepts);
    }
    BaseMoveMoves(fleet, requests, accepts);
    MovableAreRequests(fleet, requests);
    var errors, movelist;
    errors, movelist := CheckAll(requests, devs);
    if errors > 0 {
      return true;
    }
    raised := StartAll(devs, movelist, accepts);
  }

  // ---- Runs of several axes ----

  ghost predicate AllInv<D>(fleet: Fleet<D>) {
    forall d :: d in fleet ==> Inv(fleet[d])
  }

  /** The axes have the limits, the offset and the fix they had before, keep their
      invariant, and their hardware got targets inside the user range only. */
  ghost predicate OnlyMoved<D>(before: Fleet<D>, after: Fleet<D>) {
    && after.Keys == before.Keys
    && forall d :: d in before ==> AxisMoved(before[d], after[d])
  }

  ghost predicate AxisMoved(a: Axis, b: Axis) {
    && Inv(b) && b.fixed == a.fixed
    && b.abslimits == a.abslimits && b.userlimits == a.userlimits && b.offset == a.offset
    && a.hw <= b.hw && (forall k :: |a.hw| <= k < |b.hw| ==> InUserRange(a, b.hw[k]))
    && (a.fixed ==> b.hw == a.hw)
  }

  lemma {:induction false} StartsOnlyMove<D>(fleet: Fleet<D>, moves: seq<Request<D>>, n: nat, accepts: bool)
    requires AllInv(fleet) && Known(fleet, moves) && n <= |moves|
    requires forall k :: 0 <= k < |moves| ==> Checked(fleet, moves[k]).Move?
    ensures OnlyMoved(fleet, StartedAll(fleet, moves, n, accepts))
    decreases n
  {
    hide AxisMoved, Inv, CheckStart, Started;
    if n == 0 {
      MovedInv(fleet, fleet);
    } else {
      StartsOnlyMove(fleet, moves, n - 1, true);
      var before, m := StartedAll(fleet, moves, n - 1, true), moves[n - 1];
      AxisMoves(fleet[m.dev], before[m.dev], m.pos, m.permitted, accepts);
    }
  }

  lemma AxisMoves(a: Axis, b: Axis, pos: real, permitted: bool, accepts: bool)
    requires AxisMoved(a, b) && CheckStart(a, pos, permitted).Move?
    ensures AxisMoved(a, Started(b, pos, accepts))
  {
    StartIsInRange(b, pos, permitted, accepts);
  }

  lemma MovedInv<D>(before: Fleet<D>, after: Fleet<D>)
    requires AllInv(before)
    ensures OnlyMoved(before, after) ==> AllInv(after)
    ensures before == after ==> OnlyMoved(before, after)
  {
    hide Inv;
  }

  /** `_basemove` keeps the invariant of every axis, also when a start raises; if it
      refuses a request, it changes nothing. */
  lemma BaseMoveKeepsInv<D>(fleet: Fleet<D>, requests: seq<Request<D>>, accepts: nat -> bool)
    requires AllInv(fleet) && Known(fleet, requests)
    ensures
      var (after, raised) := AfterBaseMove(fleet, requests, accepts);
      && OnlyMoved(fleet, after) && AllInv(after)
      && (AnyRefused(fleet, requests) ==> raised && after == fleet)
      && var n := |Movable(fleet, requests)|;
         (raised <==> AnyRefused(fleet, requests) || Accepted(accepts, n) < n)
  {
    hide OnlyMoved, AllInv, StartedAll, Movable, AnyRefused, Checked, Accepted;
    MovedInv(fleet, fleet);
    MovedInv(fleet, AfterBaseMove(fleet, requests, accepts).0);
    if !AnyRefused(fleet, requests) {
      MovableAreRequests(fleet, requests);
      var moves := Movable(fleet, requests);
      var n := Accepted(accepts, |moves|);
      if n < |moves| {
        StartsOnlyMove(fleet, moves, n + 1, false);
      } else {
        StartsOnlyMove(fleet, moves, n, true);
      }
    }
  }

  datatype FleetOp<D> =
    | On(dev: D, op: Op)
    | Together(requests: seq<Request<D>>, accepts: nat -> bool)

  ghost predicate Possible<D>(fleet: Fleet<D>, op: FleetOp<D>) {
    match op
    case On(dev, op) => dev in fleet && Readable(op)
    case Together(requests, _) => Known(fleet, requests)
  }

  ghost function FleetStep<D>(fleet: Fleet<D>, op: FleetOp<D>): (r: Fleet<D>)
    requires Possible(fleet, op)
  {
    match op
    case On(dev, op) => fleet[dev := Apply(fleet[dev], op).0]
    case Together(requests, accepts) => AfterBaseMove(fleet, requests, accepts).0
  }

  ghost predicate PossibleRun<D>(fleet: Fleet<D>, ops: seq<FleetOp<D>>)
    decreases |ops|
  {
    ops != [] ==> Possible(fleet, ops[0]) && PossibleRun(FleetStep(fleet, ops[0]), ops[1..])
  }

  ghost function FleetRun<D>(fleet: Fleet<D>, ops: seq<FleetOp<D>>): Fleet<D>
    requires PossibleRun(fleet, ops)
    decreases |ops|
  {
    if ops == [] then fleet else FleetRun(FleetStep(fleet, ops[0]), ops[1..])
  }

  /** Over any run of operations on single axes and of joint moves, every physical
      user range and every hardware target stays inside the absolute limits. */
  lemma {:induction false} FleetRunKeepsInv<D>(fleet: Fleet<D>, ops: seq<FleetOp<D>>)
    requires AllInv(fleet) && PossibleRun(fleet, ops)
    ensures AllInv(FleetRun(fleet, ops))
    decreases |ops|
  {
    if ops != [] {
      FleetStepKeepsInv(fleet, ops[0]);
      FleetRunKeepsInv(FleetStep(fleet, ops[0]), ops[1..]);
    }
  }

  lemma FleetStepKeepsInv<D>(fleet: Fleet<D>, op: FleetOp<D>)
    requires AllInv(fleet) && Possible(fleet, op)
    ensures AllInv(FleetStep(fleet, op))
  {
    hide Inv, Apply, AfterBaseMove;
    match op
    case On(dev, op) => StepKeepsInv(fleet[dev], op);
    case Together(requests, accepts) => BaseMoveKeepsInv(fleet, requests, accepts);
  }
}
