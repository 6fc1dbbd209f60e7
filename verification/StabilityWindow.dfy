/** The value history of HasWindowTimeout, trimmed at every new value, and the
    questions asked of it. */
module StabilityWindow {

  import opened Options

  type History = seq<(real, real)>  // (time, value)

  function AbsR(x: real): real {
    if x < 0.0 then -x else x
  }

  /** Index of the first entry not older than `start`; the length if there is none. */
  function FirstInWindow(h: History, start: real): (i: nat)
    ensures i <= |h|
    ensures forall k :: 0 <= k < i ==> h[k].0 < start
    ensures i < |h| ==> h[i].0 >= start
  {
    if h == [] || h[0].0 >= start then 0 else 1 + FirstInWindow(h[1..], start)
  }

  /** What trimming leaves: everything from the last stale entry on, if some
      entry is in the window. */
  function Trim(h: History, start: real): History {
    var stale := FirstInWindow(h, start);
    if stale < |h| && stale > 1 then h[stale - 1..] else h
  }

  ghost predicate Sorted(h: History) {
    forall i, j :: 0 <= i <= j < |h| ==> h[i].0 <= h[j].0
  }

  /** The values in the window, in order. */
  ghost function InWindow(h: History, start: real): seq<real> {
    if h == [] then []
    else InWindow(h[..|h| - 1], start) + if h[|h| - 1].0 >= start then [h[|h| - 1].1] else []
  }

  predicate AllNear(values: seq<real>, target: real, precision: real) {
    forall k :: 0 <= k < |values| ==> AbsR(values[k] - target) <= precision
  }

  /** `isAtTarget`, given the history after the callback, with the default
      `doIsAtTarget` of HasPrecision. */
  ghost predicate AtTarget(h: History, start: real, pos: real, target: real, precision: real) {
    && 0 < |InWindow(h, start)| < |h|
    && AllNear(InWindow(h, start), target, precision)
    && AbsR(target - pos) <= precision
  }

  /** The estimate of the remaining time once the ramp is over. */
  function Estimate(h: History, now: real, window: real, target: real, precision: real): real {
    if h == [] then 0.0
    else
      var (t, v) := h[|h| - 1];
      if AbsR(v - target) > precision then
        var left := t + window - now + 1.0;
        if left > 0.0 then left else 0.0
      else if t < now - window then 0.0
      else Estimate(h[..|h| - 1], now, window, target, precision)
  }

  /** At the target means: the history holds a value of the window and an older one,
      and all values of the window, and the present one, are close. */
  lemma AtTargetMeaning(h: History, start: real, pos: real, target: real, precision: real)
    ensures AtTarget(h, start, pos, target, precision) <==>
      && SomeInWindow(h, start) && SomeBefore(h, start)
      && AllCloseInWindow(h, start, target, precision)
      && -precision <= pos - target <= precision
  {
    InWindowMeaning(h, start, target, precision);
  }

  ghost predicate SomeInWindow(h: History, start: real) {
    exists i :: 0 <= i < |h| && h[i].0 >= start
  }

  ghost predicate SomeBefore(h: History, start: real) {
    exists i :: 0 <= i < |h| && h[i].0 < start
  }

  ghost predicate AllCloseInWindow(h: History, start: real, target: real, precision: real) {
    forall i :: 0 <= i < |h| && h[i].0 >= start ==> -precision <= h[i].1 - target <= precision
  }

  lemma LastEntry(h: History, start: real, target: real, precision: real)
    requires h != []
    ensures
      var init, last := h[..|h| - 1], h[|h| - 1];
      && (SomeInWindow(h, start) <==> SomeInWindow(init, start) || last.0 >= start)
      && (SomeBefore(h, start) <==> SomeBefore(init, start) || last.0 < start)
      && (AllCloseInWindow(h, start, target, precision) <==>
            AllCloseInWindow(init, start, target, precision)
            && (last.0 >= start ==> -precision <= last.1 - target <= precision))
  {
    var init := h[..|h| - 1];
    assert forall i :: 0 <= i < |init| ==> init[i] == h[i];
  }

  lemma NearSnoc(values: seq<real>, v: real, target: real, precision: real)
    ensures AllNear(values + [v], target, precision) <==>
      AllNear(values, target, precision) && -precision <= v - target <= precision
  {
    var more := values + [v];
    assert forall k :: 0 <= k < |values| ==> more[k] == values[k];
    assert more[|values|] == v;
  }

  lemma {:induction false} InWindowMeaning(h: History, start: real, target: real, precision: real)
    ensures |InWindow(h, start)| <= |h|
    ensures |InWindow(h, start)| > 0 <==> SomeInWindow(h, start)
    ensures |InWindow(h, start)| < |h| <==> SomeBefore(h, start)
    ensures AllNear(InWindow(h, start), target, precision) <==> AllCloseInWindow(h, start, target, precision)
  {
    if h != [] {
      var init, last := h[..|h| - 1], h[|h| - 1];
      InWindowMeaning(init, start, target, precision);
      LastEntry(h, start, target, precision);
      NearSnoc(InWindow(init, start), last.1, target, precision);
      hide SomeInWindow, SomeBefore, AllCloseInWindow, AllNear;
      assert InWindow(init, start) + [] == InWindow(init, start);
    }
  }

  ghost predicate IsFar(v: real, target: real, precision: real) {
    v - target > precision || target - v > precision
  }

  /** Entry `i` is far from the target, and all newer ones are close and in the window. */
  ghost predicate LastFar(h: History, now: real, window: real, target: real, precision: real, i: nat) {
    && i < |h| && IsFar(h[i].1, target, precision)
    && forall j :: i < j < |h| ==> !IsFar(h[j].1, target, precision) && h[j].0 >= now - window
  }

  /** The estimate is the time until that entry leaves the window, plus one second. */
  lemma {:induction false} EstimateMeaning(h: History, now: real, window: real, target: real, precision: real)
    ensures
      var e := Estimate(h, now, window, target, precision);
      && e >= 0.0
      && (forall i: nat :: LastFar(h, now, window, target, precision, i) ==>
            e == if h[i].0 + window + 1.0 > now then h[i].0 + window + 1.0 - now else 0.0)
      && (e > 0.0 ==> exists i: nat :: LastFar(h, now, window, target, precision, i))
  {
    if h != [] {
      var n := |h| - 1;
      EstimateMeaning(h[..n], now, window, target, precision);
      if IsFar(h[n].1, target, precision) {
        assert LastFar(h, now, window, target, precision, n);
      } else if h[n].0 >= now - window {
        forall i: nat ensures LastFar(h, now, window, target, precision, i) <==>
                              LastFar(h[..n], now, window, target, precision, i) {
          LastFarOfInit(h, now, window, target, precision, i);
        }
      }
    }
  }

  lemma LastFarOfInit(h: History, now: real, window: real, target: real, precision: real, i: nat)
    requires h != [] && h[|h| - 1].0 >= now - window && !IsFar(h[|h| - 1].1, target, precision)
    ensures LastFar(h, now, window, target, precision, i) <==>
            LastFar(h[..|h| - 1], now, window, target, precision, i)
  {
    var init := h[..|h| - 1];
    assert forall j :: 0 <= j < |init| ==> init[j] == h[j];
  }

  class WindowDevice {
    var history: History
    var window: real
    var precision: real
    var target: Option<real>

    constructor (history: History, window: real, precision: real, target: Option<real>)
      ensures this.history == history && this.window == window
      ensures this.precision == precision && this.target == target
    {
      this.history, this.window, this.precision, this.target := history, window, precision, target;
    }

    /** `_cacheCB`. */
    method CacheCallback(value: real, time: real)
      modifies this`history
      ensures history == Trim(old(history) + [(time, value)], time - window)
    {
      history := history + [(time, value)];
      var stale := 0;
      while stale < |history|
        invariant 0 <= stale <= |history| && history == old(history) + [(time, value)]
        invariant forall k :: 0 <= k < stale ==> history[k].0 < time - window
      {
        if history[stale].0 >= time - window {
          break;
        }
        stale := stale + 1;
      }
      FirstIsUnique(history, time - window, stale);
      if stale == |history| {
        return;
      }
      if stale > 1 {
        history := history[stale - 1..];
      }
    }

    /** `isAtTarget` at time `ct` with the value `pos`. */
    method IsAtTarget(pos: real, ct: real) returns (r: bool)
      modifies this`history
      ensures history == Trim(old(history) + [(ct, pos)], ct - window)
      ensures r <==> (target.Some? ==> AtTarget(history, ct - window, pos, target.value, precision))
    {
      CacheCallback(pos, ct);
      if target.None? {
        return true;
      }
      var values: seq<real> := [];
      for k := 0 to |history|
        invariant values == InWindow(history[..k], ct - window)
      {
        assert history[..k + 1][..k] == history[..k];
        if history[k].0 >= ct - window {
          values := values + [history[k].1];
        }
      }
      assert history[..|history|] == history;
      r := 0 < |values| < |history| && AllNear(values, target.value, precision)
        && AbsR(target.value - pos) <= precision;
    }

    /** `doEstimateTime`: newest entries first, once the setpoint has reached the
        target; `rampTime` is what `doTime` says before. */
    method EstimateTime(busy: bool, ramping: bool, rampTime: real, now: real) returns (r: Option<real>)
      ensures r.None? <==> !busy || target.None?
      ensures r.Some? && ramping ==> r.value == rampTime
      ensures r.Some? && !ramping ==> r.value == Estimate(history, now, window, target.value, precision)
    {
      if !busy || target.None? {
        return None;
      }
      if ramping {
        return Some(rampTime);
      }
      var k := |history|;
      assert history[..k] == history;
      while k > 0
        invariant 0 <= k <= |history|
        invariant Estimate(history, now, window, target.value, precision)
               == Estimate(history[..k], now, window, target.value, precision)
      {
        var (t, v) := history[k - 1];
        if AbsR(v - target.value) > precision {
          var left := t + window - now + 1.0;
          return Some(if left > 0.0 then left else 0.0);
        }
        if t < now - window {
          break;
        }
        assert history[..k][..k - 1] == history[..k - 1];
        k := k - 1;
      }
      r := Some(0.0);
    }
  }

  lemma FirstIsUnique(h: History, start: real, i: nat)
    requires i <= |h| && (forall k :: 0 <= k < i ==> h[k].0 < start)
    requires i < |h| ==> h[i].0 >= start
    ensures i == FirstInWindow(h, start)
  {
    var f := FirstInWindow(h, start);
    assert f < |h| ==> !(h[f].0 < start);
  }

  // ---- The trimmed history answers like the full one ----

  /** A new value, with the window that is set when it comes. */
  datatype Update = Update(entry: (real, real), window: real) {
    function Cut(): real {
      entry.0 - window
    }
  }

  ghost function Entries(updates: seq<Update>): History {
    seq(|updates|, i requires 0 <= i < |updates| => updates[i].entry)
  }

  /** The history after the callbacks for `updates`, trimmed each time. */
  ghost function Trimmed(updates: seq<Update>): History {
    if updates == [] then []
    else
      var u := updates[|updates| - 1];
      Trim(Trimmed(updates[..|updates| - 1]) + [u.entry], u.Cut())
  }

  /** Times ascend, and the cut-off, the time minus the window, never moves back. */
  ghost predicate Steady(updates: seq<Update>) {
    && Sorted(Entries(updates))
    && forall i, j :: 0 <= i <= j < |updates| ==> updates[i].Cut() <= updates[j].Cut()
  }

  ghost predicate TailOf(h: History, full: History) {
    |h| <= |full| && h == full[|full| - |h|..]
  }

  /** `h` is the end of `full`, and what was cut off left a stale entry behind:
      the first entry of `h` is older than `start` if anything is missing. */
  ghost predicate KeepsWindow(h: History, full: History, start: real) {
    && TailOf(h, full)
    && (|h| < |full| ==> |h| > 0 && h[0].0 < start)
  }

  lemma EntriesStep(updates: seq<Update>, u: Update)
    ensures Entries(updates + [u]) == Entries(updates) + [u.entry]
  {
  }

  lemma TrimmedStep(updates: seq<Update>, u: Update)
    ensures Trimmed(updates + [u]) == Trim(Trimmed(updates) + [u.entry], u.Cut())
  {
    hide Trim;
    assert (updates + [u])[..|updates|] == updates;
  }

  lemma TrimmedNothing()
    ensures Trimmed([]) == [] && Entries([]) == []
  {
  }

  /** Trimming cuts off a number of entries, none if it leaves no stale one. */
  lemma TrimCuts(h: History, start: real) returns (c: nat)
    ensures c <= |h| && Trim(h, start) == h[c..]
    ensures c > 0 ==> c < |h| && h[c].0 < start
  {
    var stale := FirstInWindow(h, start);
    c := if stale < |h| && stale > 1 then stale - 1 else 0;
  }

  lemma TailStep(before: History, full: History, e: (real, real), start: real)
    requires TailOf(before, full)
    ensures TailOf(Trim(before + [e], start), full + [e]) && Trim(before + [e], start) != []
  {
    var c := TrimCuts(before + [e], start);
    hide Trim;
    var d := |full| - |before|;
    assert full[d..] + [e] == (full + [e])[d..];
    assert (full + [e])[d..][c..] == (full + [e])[d + c..];
  }

  lemma KeepsStep(before: History, full: History, e: (real, real), was: real, start: real)
    requires KeepsWindow(before, full, was) && was <= start
    ensures KeepsWindow(Trim(before + [e], start), full + [e], start)
  {
    TailStep(before, full, e, start);
    var c := TrimCuts(before + [e], start);
    hide Trim, TailOf;
  }

  /** Whatever the windows are, the trimmed history is an end of the full one. */
  lemma {:induction false} TrimmedIsTail(updates: seq<Update>)
    ensures TailOf(Trimmed(updates), Entries(updates))
    ensures updates != [] ==> Trimmed(updates) != []
  {
    if updates == [] {
      TrimmedNothing();
    } else {
      var init, u := updates[..|updates| - 1], updates[|updates| - 1];
      assert updates == init + [u];
      hide Trimmed, Trim, Entries, TailOf;
      TrimmedIsTail(init);
      TrimmedStep(init, u);
      EntriesStep(init, u);
      TailStep(Trimmed(init), Entries(init), u.entry, u.Cut());
    }
  }

  /** If the cut-off never moves back, it starts with a stale entry if anything is
      missing. */
  lemma {:induction false} TrimmedKeepsWindow(updates: seq<Update>, u: Update)
    requires Steady(updates + [u])
    ensures KeepsWindow(Trimmed(updates + [u]), Entries(updates + [u]), u.Cut())
    decreases |updates|
  {
    hide Trimmed, Trim, Entries, Sorted;
    TrimmedStep(updates, u);
    EntriesStep(updates, u);
    var was := u.Cut();
    if updates == [] {
      TrimmedNothing();
      assert KeepsWindow([], [], was);
    } else {
      hide KeepsWindow;
      var n := |updates| - 1;
      var init, last := updates[..n], updates[n];
      assert init + [last] == updates;
      SteadyParts(updates, u);
      TrimmedKeepsWindow(init, last);
      was := last.Cut();
      assert was <= u.Cut();
    }
    hide KeepsWindow;
    KeepsStep(Trimmed(updates), Entries(updates), u.entry, was, u.Cut());
  }

  lemma SteadyParts(updates: seq<Update>, u: Update)
    requires Steady(updates + [u])
    ensures Steady(updates) && forall k :: 0 <= k < |updates| ==> updates[k].Cut() <= u.Cut()
  {
    var all := updates + [u];
    forall i, j | 0 <= i <= j < |updates|
      ensures Entries(updates)[i].0 <= Entries(updates)[j].0 && updates[i].Cut() <= updates[j].Cut()
    {
      assert Entries(all)[i].0 <= Entries(all)[j].0 && all[i].Cut() <= all[j].Cut();
    }
    forall k | 0 <= k < |updates| ensures updates[k].Cut() <= u.Cut() {
      assert all[k].Cut() <= all[|updates|].Cut();
    }
  }

  /** The trimmed history keeps every entry in the window, and, for a window
      that is not negative, at most one entry before it. */
  lemma AtMostOneStale(updates: seq<Update>, u: Update)
    requires Steady(updates + [u]) && u.window >= 0.0
    ensures
      var h, full := Trimmed(updates + [u]), Entries(updates + [u]);
      && InWindow(h, u.Cut()) == InWindow(full, u.Cut())
      && forall k :: 1 <= k < |h| ==> h[k].0 >= u.Cut()
  {
    TrimmedKeepsWindow(updates, u);
    TrimmedIsTail(updates);
    hide Trimmed, InWindow, Trim, Entries;
    SameWindow(Trimmed(updates + [u]), Entries(updates + [u]), u.Cut());
    TrimmedStep(updates, u);
    EntriesStep(updates, u);
    SortedTail(Trimmed(updates), Entries(updates), u.entry);
    OneStaleAtFront(Trimmed(updates) + [u.entry], u.Cut());
  }

  lemma SortedTail(h: History, full: History, e: (real, real))
    requires TailOf(h, full) && Sorted(full + [e])
    ensures Sorted(h + [e])
  {
    var d := |full| - |h|;
    assert h + [e] == (full + [e])[d..];
  }

  lemma OneStaleAtFront(h: History, start: real)
    requires Sorted(h) && h != [] && h[|h| - 1].0 >= start
    ensures forall k :: 1 <= k < |Trim(h, start)| ==> Trim(h, start)[k].0 >= start
  {
    var i := FirstInWindow(h, start);
    forall k | i <= k < |h| ensures h[k].0 >= start {
      assert h[i].0 <= h[k].0;
    }
  }

  /** A history that keeps the window has the same values in it. */
  lemma {:induction false} SameWindow(h: History, full: History, start: real)
    requires Sorted(full) && KeepsWindow(h, full, start)
    ensures InWindow(h, start) == InWindow(full, start)
    decreases |full|
  {
    if h == full {
    } else if h != [] {
      var a, b := h[..|h| - 1], full[..|full| - 1];
      assert h[|h| - 1] == full[|full| - 1];
      assert a == b[|b| - |a|..];
      if a == [] {
        NothingInWindow(b, start);
      } else {
        SameWindow(a, b, start);
      }
    }
  }

  lemma {:induction false} NothingInWindow(h: History, start: real)
    requires forall k :: 0 <= k < |h| ==> h[k].0 < start
    ensures InWindow(h, start) == []
  {
    if h != [] {
      NothingInWindow(h[..|h| - 1], start);
    }
  }

  lemma InWindowStep(h: History, e: (real, real), start: real)
    ensures InWindow(h + [e], start) == InWindow(h, start) + if e.0 >= start then [e.1] else []
  {
    assert (h + [e])[..|h|] == h;
  }

  lemma {:induction false} WindowSize(h: History, start: real)
    ensures |InWindow(h, start)| <= |h|
    ensures |InWindow(h, start)| < |h| <==> exists k :: 0 <= k < |h| && h[k].0 < start
  {
    if h != [] {
      var n := |h| - 1;
      WindowSize(h[..n], start);
      if k :| 0 <= k < n && h[k].0 < start {
        assert h[..n][k] == h[k];
      }
    }
  }

  /** What an end of the full history answers: what the full one does, and that
      it reaches back before the window itself, if anything is missing. */
  lemma TailAnswers(h: History, full: History, start: real, pos: real, target: real, precision: real)
    requires Sorted(full) && TailOf(h, full) && h != []
    ensures
      AtTarget(h, start, pos, target, precision) <==>
      AtTarget(full, start, pos, target, precision) && (|h| == |full| || h[0].0 < start)
  {
    if |h| == |full| {
      assert h == full;
    } else if h[0].0 < start {
      KeptAnswersLikeFull(h, full, start, pos, target, precision);
    } else {
      WindowSize(h, start);
      hide InWindow, AllNear;
      var d := |full| - |h|;
      forall k | 0 <= k < |h| ensures h[k].0 >= start {
        assert full[d].0 <= full[d + k].0;
      }
    }
  }

  lemma KeptAnswersLikeFull(h: History, full: History, start: real, pos: real, target: real, precision: real)
    requires Sorted(full) && KeepsWindow(h, full, start)
    ensures AtTarget(h, start, pos, target, precision) <==> AtTarget(full, start, pos, target, precision)
  {
    SameWindow(h, full, start);
    WindowSize(h, start);
    WindowSize(full, start);
    hide InWindow, AllNear;
    if k :| 0 <= k < |full| && full[k].0 < start {
      assert full[0].0 < start;
      assert |h| < |full| ==> h[0].0 < start;
    }
    if k :| 0 <= k < |h| && h[k].0 < start {
      assert full[|full| - |h| + k].0 < start;
    }
  }

  /** For values in the order of their times, whatever the windows are, `isAtTarget`
      on the trimmed history equals `isAtTarget` on the full one, except that it
      says no if entries are missing and all that are left are in the window. */
  lemma TrimmedAnswersIff(updates: seq<Update>, u: Update, target: real, precision: real)
    requires Sorted(Entries(updates + [u]))
    ensures
      var h, full := Trimmed(updates + [u]), Entries(updates + [u]);
      && h != []
      && (AtTarget(h, u.Cut(), u.entry.1, target, precision) <==>
          AtTarget(full, u.Cut(), u.entry.1, target, precision) && (|h| == |full| || h[0].0 < u.Cut()))
  {
    TrimmedIsTail(updates + [u]);
    hide Trimmed, Entries, AtTarget, TailOf;
    TailAnswers(Trimmed(updates + [u]), Entries(updates + [u]), u.Cut(), u.entry.1, target, precision);
  }

  /** So the answers are equal as long as the cut-off never moves back. */
  lemma TrimmedAnswersLikeFull(updates: seq<Update>, u: Update, target: real, precision: real)
    requires Steady(updates + [u])
    ensures
      AtTarget(Trimmed(updates + [u]), u.Cut(), u.entry.1, target, precision) <==>
      AtTarget(Entries(updates + [u]), u.Cut(), u.entry.1, target, precision)
  {
    hide Trimmed, Entries, AtTarget, TailOf;
    TrimmedKeepsWindow(updates, u);
    KeptAnswersLikeFull(Trimmed(updates + [u]), Entries(updates + [u]), u.Cut(), u.entry.1, target, precision);
  }

  ghost predicate AnyOutside(h: History, target: real, precision: real) {
    exists k :: 0 <= k < |h| && AbsR(h[k].1 - target) > precision
  }

  /** The estimate of an end of the full history: equal if that reaches back before
      the window or has a value outside the precision; otherwise zero, and the
      full one goes on with what is missing. */
  lemma {:induction false} TailEstimates
    (h: History, full: History, now: real, window: real, target: real, precision: real)
    requires Sorted(full) && TailOf(h, full)
    ensures
      var missing := full[..|full| - |h|];
      if (h != [] && h[0].0 < now - window) || AnyOutside(h, target, precision)
      then Estimate(h, now, window, target, precision) == Estimate(full, now, window, target, precision)
      else
        && Estimate(h, now, window, target, precision) == 0.0
        && Estimate(full, now, window, target, precision) == Estimate(missing, now, window, target, precision)
    decreases |h|
  {
    if h == [] {
      assert full[..|full|] == full;
    } else {
      var n, m := |h| - 1, |full| - 1;
      var a, b := h[..n], full[..m];
      assert h[n] == full[m] && a == b[|b| - |a|..];
      assert b[..|b| - |a|] == full[..|full| - |h|];
      var d := |full| - |h|;
      assert full[d].0 <= full[m].0;
      assert h[0] == full[d];
      TailEstimates(a, b, now, window, target, precision);
      OutsideStep(h, target, precision);
    }
  }

  lemma OutsideStep(h: History, target: real, precision: real)
    requires h != []
    ensures AnyOutside(h, target, precision) <==>
      AnyOutside(h[..|h| - 1], target, precision) || AbsR(h[|h| - 1].1 - target) > precision
  {
    var n := |h| - 1;
    if k :| 0 <= k < |h| && AbsR(h[k].1 - target) > precision {
      assert k < n ==> h[..n][k] == h[k];
    }
    if k :| 0 <= k < n && AbsR(h[..n][k].1 - target) > precision {
      assert h[..n][k] == h[k];
    }
  }

  /** The estimate is the same on both histories at any later time, for a window
      that does not reach back before the cut-off of the last trimming. */
  lemma TrimmedEstimatesLikeFull(
    updates: seq<Update>, u: Update, now: real, window: real, target: real, precision: real)
    requires Steady(updates + [u]) && now - window >= u.Cut()
    ensures
      Estimate(Trimmed(updates + [u]), now, window, target, precision) ==
      Estimate(Entries(updates + [u]), now, window, target, precision)
  {
    hide Trimmed, Trim, Estimate, Entries, Sorted;
    TrimmedKeepsWindow(updates, u);
    var h, full := Trimmed(updates + [u]), Entries(updates + [u]);
    TailEstimates(h, full, now, window, target, precision);
    if |h| == |full| {
      assert h == full;
    }
  }

  /** For any other window it is the same exactly if nothing is missing, what is
      left reaches back before the window or has a value outside the precision,
      or what is missing would not count either. */
  lemma TrimmedEstimatesIff(updates: seq<Update>, now: real, window: real, target: real, precision: real)
    requires Sorted(Entries(updates))
    ensures
      var h, full := Trimmed(updates), Entries(updates);
      && |h| <= |full|
      && (Estimate(h, now, window, target, precision) == Estimate(full, now, window, target, precision) <==>
          || (h != [] && h[0].0 < now - window)
          || AnyOutside(h, target, precision)
          || Estimate(full[..|full| - |h|], now, window, target, precision) == 0.0)
  {
    hide Trimmed, Estimate, Entries, Sorted, AnyOutside;
    TrimmedIsTail(updates);
    TailEstimates(Trimmed(updates), Entries(updates), now, window, target, precision);
  }

  /** For example, a window that is enlarged: three values, all at the target. */
  lemma EnlargingTheWindowIsSeen()
    ensures
      var updates := [Update((0.0, 5.0), 0.5), Update((9.0, 5.0), 0.5), Update((10.0, 5.0), 0.5)];
      && Sorted(Entries(updates)) && |Trimmed(updates)| < 3
      && !AtTarget(Trimmed(updates), 10.0 - 2.0, 5.0, 5.0, 0.1)
      && AtTarget(Entries(updates), 10.0 - 2.0, 5.0, 5.0, 0.1)
  {
    var e0, e1, e2 := (0.0, 5.0), (9.0, 5.0), (10.0, 5.0);
    var u0, u1, u2 := Update(e0, 0.5), Update(e1, 0.5), Update(e2, 0.5);
    var none: seq<Update> := [];
    var nothing: History := [];
    var updates := [u0, u1, u2];
    hide Trim, InWindow;
    assert updates == none + [u0] + [u1] + [u2];
    assert Entries(updates) == [e0, e1, e2];
    assert Trimmed(updates) == [e1, e2] by {
      hide Trimmed, AtTarget;
      TrimmedNothing();
      TrimmedStep(none, u0);
      TrimmedStep(none + [u0], u1);
      TrimmedStep(none + [u0] + [u1], u2);
      TrimOne(e0, u0.Cut());
      TrimTwo(e0, e1, u1.Cut());
      TrimThree(e0, e1, e2, u2.Cut());
    }
    hide Trimmed;
    NothingInWindow(nothing, 8.0);
    InWindowStep(nothing, e1, 8.0);
    InWindowStep([e1], e2, 8.0);
    InWindowStep(nothing, e0, 8.0);
    InWindowStep([e0], e1, 8.0);
    InWindowStep([e0, e1], e2, 8.0);
    assert nothing + [e0] == [e0] && nothing + [e1] == [e1] && [e1] + [e2] == [e1, e2];
    assert InWindow([e1, e2], 8.0) == [5.0, 5.0];
    assert [e0] + [e1] == [e0, e1] && [e0, e1] + [e2] == [e0, e1, e2];
    assert InWindow([e0, e1, e2], 8.0) == [5.0, 5.0];
  }

  lemma TrimOne(a: (real, real), start: real)
    ensures Trim([] + [a], start) == [a]
  {
  }

  lemma TrimTwo(a: (real, real), b: (real, real), start: real)
    ensures Trim([a] + [b], start) == [a, b]
  {
    assert [a] + [b] == [a, b];
  }

  lemma TrimThree(a: (real, real), b: (real, real), c: (real, real), start: real)
    requires a.0 < start && b.0 < start <= c.0
    ensures Trim([a, b] + [c], start) == [b, c]
  {
    FirstIsUnique([a, b] + [c], start, 2);
    assert ([a, b] + [c])[1..] == [b, c];
  }
}
