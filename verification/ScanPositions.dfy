/** Setting up a scan: expansion of multi-step devices into the position lists,
    and the guess of the plot axis. */
module ScanPositions {
  import opened Options

  type Position = seq<real>
  datatype MultiStep = MultiStep(dev: nat, values: seq<real>)

  /** No multi-step device has fewer values than the first; further values are not used. */
  ghost predicate EnoughValues(multistep: seq<MultiStep>) {
    forall i :: 0 <= i < |multistep| ==> |multistep[i].values| >= |multistep[0].values|
  }

  /** Number of steps per primary position. */
  function StepCount(multistep: seq<MultiStep>): nat {
    if multistep == [] then 1 else |multistep[0].values|
  }

  /** The positions of the multi-step devices in step `j`. */
  function StepPosition(multistep: seq<MultiStep>, j: nat): (pos: Position)
    requires EnoughValues(multistep) && j < StepCount(multistep)
    ensures |pos| == |multistep|
    ensures forall i :: 0 <= i < |pos| ==> pos[i] == multistep[i].values[j]
  {
    seq(|multistep|, i requires 0 <= i < |multistep| => multistep[i].values[j])
  }

  /** Position k of an expanded list is primary position k div m followed by
      step k mod m, for m steps per position. */
  ghost predicate Expands(primary: seq<Position>, multistep: seq<MultiStep>, expanded: seq<Position>)
    requires EnoughValues(multistep)
  {
    var m := StepCount(multistep);
    && |expanded| == |primary| * m
    && (m > 0 ==> forall k :: 0 <= k < |expanded| ==>
         && 0 <= k / m < |primary|
         && expanded[k] == primary[k / m] + StepPosition(multistep, k % m))
  }

  lemma DivMod(p: nat, m: nat, i: nat)
    requires i < m
    ensures (p * m + i) / m == p && (p * m + i) % m == i
  {
    var q := (p * m + i) / m;
    assert q * m <= p * m + i < q * m + m;
    assert (q - p) * m < m && (p - q) * m < m;
    AtLeast(m, q - p);
    AtLeast(m, p - q);
  }

  lemma AtLeast(m: nat, a: int)
    ensures a >= 1 ==> a * m >= m
  {
  }

  lemma QuotientBelow(k: nat, n: nat, m: nat)
    requires m > 0 && k < n * m
    ensures k / m < n
  {
  }

  /** The nested loop that appends every step to every position. */
  method Expand(primary: seq<Position>, multistep: seq<MultiStep>) returns (expanded: seq<Position>)
    requires EnoughValues(multistep)
    ensures Expands(primary, multistep, expanded)
  {
    var m := StepCount(multistep);
    expanded := [];
    for p := 0 to |primary|
      invariant |expanded| == p * m
      invariant forall k :: 0 <= k < p * m ==>
        0 <= k / m < p && expanded[k] == primary[k / m] + StepPosition(multistep, k % m)
    {
      for i := 0 to m
        invariant |expanded| == p * m + i
        invariant forall k :: 0 <= k < p * m + i ==>
          0 <= k / m <= p && expanded[k] == primary[k / m] + StepPosition(multistep, k % m)
      {
        DivMod(p, m, i);
        expanded := expanded + [primary[p] + StepPosition(multistep, i)];
      }
      assert p * m + m == (p + 1) * m;
      forall k | 0 <= k < (p + 1) * m ensures 0 <= k / m < p + 1 {
        QuotientBelow(k, p + 1, m);
      }
    }
  }

  // ---- The plot axis ----

  /** Sum of the numbers of values of the first `n` devices. */
  ghost function ValuesBefore(subvals: seq<nat>, n: nat): nat
    requires n <= |subvals|
  {
    if n == 0 then 0 else ValuesBefore(subvals, n - 1) + subvals[n - 1]
  }

  ghost predicate SameUpTo(a: Position, b: Position, n: nat)
    requires n <= |a| && n <= |b|
  {
    forall j :: 0 <= j < n ==> a[j] == b[j]
  }

  /** `x` is the number of values of the devices before the first device that
      moves between two positions; 0 if none does. */
  ghost predicate FirstMoving(subvals: seq<nat>, st0: Position, st1: Position, x: nat)
    requires |st0| >= |subvals| && |st1| >= |subvals|
  {
    if SameUpTo(st0, st1, |subvals|) then x == 0
    else exists j :: MovesFirst(st0, st1, j, |subvals|) && x == ValuesBefore(subvals, j)
  }

  ghost predicate MovesFirst(st0: Position, st1: Position, j: int, n: nat)
    requires n <= |st0| && n <= |st1|
  {
    0 <= j < n && SameUpTo(st0, st1, j) && st0[j] != st1[j]
  }

  /** The axis of a scan is that of its first two primary positions. */
  ghost predicate PlotIndex(subvals: seq<nat>, primary: seq<Position>, x: nat)
    requires forall p :: 0 <= p < |primary| ==> |primary[p]| >= |subvals|
  {
    if |primary| <= 1 then x == 0 else FirstMoving(subvals, primary[0], primary[1], x)
  }

  method GuessPlotIndex(subvals: seq<nat>, startpositions: seq<Position>, mscount: nat) returns (x: nat)
    requires forall p :: 0 <= p < |startpositions| ==> |startpositions[p]| >= |subvals|
    ensures |startpositions| <= mscount ==> x == 0
    ensures |startpositions| > mscount ==> FirstMoving(subvals, startpositions[0], startpositions[mscount], x)
  {
    x := 0;
    if |startpositions| <= mscount {
      return;
    }
    for j := 0 to |subvals|
      invariant x == ValuesBefore(subvals, j)
      invariant SameUpTo(startpositions[0], startpositions[mscount], j)
    {
      if startpositions[0][j] != startpositions[mscount][j] {
        assert MovesFirst(startpositions[0], startpositions[mscount], j, |subvals|);
        return;
      }
      x := x + subvals[j];
    }
    x := 0;
  }

  /** The scan set-up; `subvals[d]` is the number of values of primary device d. */
  class PlannedScan {
    var devices: seq<nat>
    var startpositions: seq<Position>
    var endpositions: seq<Position>
    var mscount: nat
    var xindex: int

    constructor (
      devs: seq<nat>, starts: seq<Position>, ends: seq<Position>, multistep: seq<MultiStep>,
      x: Option<int>, subvals: seq<nat>)
      requires EnoughValues(multistep)
      requires |subvals| == |devs|
      requires forall p :: 0 <= p < |starts| ==> |starts[p]| == |devs|
      ensures mscount == StepCount(multistep)
      ensures |devices| == |devs| + |multistep| && devices[..|devs|] == devs
      ensures forall i :: 0 <= i < |multistep| ==> devices[|devs| + i] == multistep[i].dev
      ensures Expands(starts, multistep, startpositions) && Expands(ends, multistep, endpositions)
      ensures x.Some? ==> xindex == x.value
      // the guess looks at the first two primary positions, however many steps each has
      ensures x.None? && mscount > 0 ==> xindex >= 0 && PlotIndex(subvals, starts, xindex)
      ensures x.None? && mscount == 0 ==> xindex == 0
    {
      var m := StepCount(multistep);
      var alldevs, allstarts, allends := devs, starts, ends;
      if multistep != [] {
        for i := 0 to |multistep|
          invariant |alldevs| == |devs| + i && alldevs[..|devs|] == devs
          invariant forall j :: 0 <= j < i ==> alldevs[|devs| + j] == multistep[j].dev
        {
          alldevs := alldevs + [multistep[i].dev];
        }
        allstarts := Expand(starts, multistep);
        if ends != [] {
          allends := Expand(ends, multistep);
        }
      } else {
        NoStepsExpand(starts, multistep);
        NoStepsExpand(ends, multistep);
      }
      devices, startpositions, endpositions, mscount := alldevs, allstarts, allends, m;
      if x.Some? {
        xindex := x.value;
      } else {
        LongEnough(starts, multistep, allstarts, |devs|);
        var g := GuessPlotIndex(subvals, allstarts, m);
        if m > 0 {
          GuessIsPrimary(subvals, starts, multistep, allstarts, g);
        }
        xindex := g;
      }
    }
  }

  lemma NoStepsExpand(primary: seq<Position>, multistep: seq<MultiStep>)
    requires multistep == []
    ensures Expands(primary, multistep, primary)
  {
    forall k | 0 <= k < |primary| ensures primary[k] == primary[k / 1] + StepPosition(multistep, k % 1) {
      assert k / 1 == k && k % 1 == 0;
      assert StepPosition(multistep, 0) == [];
    }
  }

  lemma LongEnough(primary: seq<Position>, multistep: seq<MultiStep>, expanded: seq<Position>, n: nat)
    requires EnoughValues(multistep) && Expands(primary, multistep, expanded)
    requires forall p :: 0 <= p < |primary| ==> |primary[p]| == n
    ensures forall k :: 0 <= k < |expanded| ==> |expanded[k]| >= n
  {
    var m := StepCount(multistep);
    if m == 0 {
      assert |expanded| == 0;
    }
  }

  /** What the guess compares are the first two primary positions. */
  lemma GuessIsPrimary(
    subvals: seq<nat>, primary: seq<Position>, multistep: seq<MultiStep>, expanded: seq<Position>, x: nat)
    requires EnoughValues(multistep) && Expands(primary, multistep, expanded) && StepCount(multistep) > 0
    requires forall p :: 0 <= p < |primary| ==> |primary[p]| == |subvals|
    requires forall p :: 0 <= p < |expanded| ==> |expanded[p]| >= |subvals|
    requires |expanded| <= StepCount(multistep) ==> x == 0
    requires |expanded| > StepCount(multistep) ==> FirstMoving(subvals, expanded[0], expanded[StepCount(multistep)], x)
    ensures PlotIndex(subvals, primary, x)
  {
    var m := StepCount(multistep);
    if |primary| <= 1 {
      assert |primary| * m <= m;
    } else {
      assert 2 * m <= |primary| * m;
      DivMod(0, m, 0);
      DivMod(1, m, 0);
      var step := StepPosition(multistep, 0);
      assert expanded[0] == primary[0] + step && expanded[m] == primary[1] + step;
      SameAxis(subvals, primary[0], primary[1], step, x);
    }
  }

  lemma SameAxis(subvals: seq<nat>, st0: Position, st1: Position, step: Position, x: nat)
    requires |st0| == |st1| == |subvals|
    requires FirstMoving(subvals, st0 + step, st1 + step, x)
    ensures FirstMoving(subvals, st0, st1, x)
  {
    var a, b, n := st0 + step, st1 + step, |subvals|;
    assert forall j :: 0 <= j < n ==> a[j] == st0[j] && b[j] == st1[j];
    if !SameUpTo(a, b, n) {
      var j :| MovesFirst(a, b, j, n) && x == ValuesBefore(subvals, j);
      assert MovesFirst(st0, st1, j, n);
    }
  }
}
