/** `acquire`: counting with a set of detectors, outside simulation mode.

    Every call of a detector, the data manager or the session may raise; which
    one does is left open by nondeterministic choice.  Python loops that end
    only when the outside world lets them are bounded by a parameter: every run
    that ends is a run for some bound. */
module Acquisition {
  import opened Options
  import opened Traces
  import opened AcquisitionLog

  datatype Throw =
    | AnException       // caught by `except Exception`
    | ABaseException    // ControlStop and the like

  type Step = Option<Throw>

  datatype Ending =
    | NotPrepared       // raised before the detectors were started
    | NotStarted        // raised by a detector's start()
    | NotCounting       // raised by the first delay, before the counting loop
    | Completed
    | Saved             // raised in the loop; every unfinished detector was handled
    | SavingCut         // a BaseException cut the handling of the unfinished detectors

  class Acquirer {
    var actionStack: seq<string>
    ghost var log: Log

    constructor ()
      ensures actionStack == [] && log == Start
    {
      actionStack, log := [], Start;
    }

    /** `_wait_for_continuation`, called with a request pending.  `taken` are the
        requests it took. */
    method WaitForContinuation(onlyPause: bool, patience: nat)
      returns (t: Step, go: bool, ghost taken: seq<Request>)
      modifies this`log
      ensures taken != [] && log == AfterRequests(old(log), taken)
      ensures forall k :: 0 <= k < |taken| - 1 ==> taken[k] == PauseRequest
      ensures t.None? ==> (go <==> onlyPause || taken[|taken| - 1] == PauseRequest)
    {
      taken, go, t := [], true, None;
      var left := patience + 1;
      var pending := true;
      while pending
        invariant forall k :: 0 <= k < |taken| ==> taken[k] == PauseRequest
        invariant log == AfterRequests(old(log), taken)
        invariant pending || taken != []
        invariant pending ==> left > 0
        invariant t.None? && go
        decreases left, pending
      {
        var req: Request := *;
        assert (taken + [req])[..|taken|] == taken;
        log, taken := Then(log, Took(req)), taken + [req];
        if onlyPause && req != PauseRequest {
          return;
        }
        if req == FinishRequest {
          go := false;
          return;
        }
        t := *;  // breakpoint(3)
        if t.Some? {
          return;
        }
        // `while exp.pausecount`: delays, further break points, new requests
        var again: bool;
        t, again := WaitWhilePaused(patience);
        if t.Some? {
          return;
        }
        left := left - 1;
        pending := again && left > 0;
      }
    }

    method WaitWhilePaused(patience: nat) returns (t: Step, newRequest: bool)
    {
      newRequest, t := *, None;
      var left := patience;
      var counting: bool := *;
      while counting && left > 0
        invariant t.None?
      {
        t := *;  // delay, breakpoint(3)
        if t.Some? {
          return;
        }
        newRequest := *;
        if newRequest {
          return;
        }
        counting := *;
        left := left - 1;
      }
    }

    /** One detector in one round of the counting loop: what its hook asked for, and
        whether it was completed, decide on its record. */
    method Round(det: nat, mustComplete: bool, ghost dets: set<nat>, detset0: set<nat>)
      returns (t: Step, detset: set<nat>, ghost hook: Option<Quality>, ghost done: bool)
      requires det in detset0 && det !in Turns(log) && Counting(log, dets, detset0, {}) && Served(log)
      modifies this`log
      ensures Counting(log, dets, detset, {}) && Served(log)
      ensures Kept(old(log), log) && Turns(log) == old(Turns(log)) + {det}
      ensures t.None? ==> log == AfterTurn(old(log), det, hook, done) && (mustComplete ==> done)
      ensures detset == if t.None? && done then detset0 - {det} else detset0
    {
      detset, hook, done := detset0, None, false;
      TurnStep(log, det, dets, detset);
      log := Then(log, Turned(det));
      ghost var turned := log;
      t := *;  // duringMeasureHook
      if t.Some? {
        return;
      }
      var quality: Option<Quality> :| quality == None || quality == Some(Live) || quality == Some(Intermediate);
      hook := quality;
      t := *;  // isCompleted
      if t.Some? {
        return;
      }
      var completed: bool :| mustComplete ==> completed;
      done := completed;
      if completed {
        t := *;  // finish
        if t.Some? {
          return;
        }
        FinishStep(old(log), log, det, dets, detset);
        log := Then(log, Finished(det));
        quality := Some(Final);
      }
      hide Counting, Kept, Turns;
      if quality.Some? {
        t := *;  // readResults
        if t == Some(ABaseException) {
          return;
        }
        t := *;  // putResults
        if t.Some? {
          RejectStep(old(log), log, quality.value, det, dets, detset);
          log := Then(log, Rejected(quality.value, det));
          return;
        }
        RecordAccepted(log, quality.value, det, dets, detset);
        KeptRecord(old(log), log, quality.value, det);
        log := Then(log, Recorded(quality.value, det));
      }
      if quality == Some(Final) {
        detset := detset - {det};
      }
    }

    /** Calls one method of every detector of the set, in any order: all are paused,
        or all of the paused ones get their answer. */
    method TellAll(k: Talk, ghost dets: set<nat>, detset: set<nat>) returns (t: Step, ghost paused: set<nat>)
      requires Counting(log, dets, detset, if k == Pause then {} else detset) && TalkFits(log, k)
      modifies this`log
      ensures Counting(log, dets, detset, paused) && Served(log) == old(Served(log))
      ensures KeptRound(old(log), log)
      ensures t.None? ==> paused == if k == Pause then detset else {}
    {
      t, paused := None, if k == Pause then {} else detset;
      var todo := detset;
      while todo != {}
        invariant todo <= detset && t.None?
        invariant paused == if k == Pause then detset - todo else todo
        invariant Counting(log, dets, detset, paused) && TalkFits(log, k) && Served(log) == old(Served(log))
        invariant KeptRound(old(log), log)
      {
        var det :| det in todo;
        t := *;  // pause, resume or finish of the detector
        if t.Some? {
          break;
        }
        NoRecord(log, Said(k, det), dets, detset, paused);
        KeptStep(old(log), log, Said(k, det));
        paused := PausedAfter(paused, Said(k, det));
        log := Then(log, Said(k, det));
        todo := todo - {det};
      }
    }

    /** The reaction to a request in the counting loop: all remaining detectors are
        paused, and then all are resumed or all are asked to finish. */
    method PauseRound(ghost dets: set<nat>, detset: set<nat>, patience: nat) returns (t: Step, ghost paused: set<nat>)
      requires Counting(log, dets, detset, {})
      modifies this`log
      ensures Counting(log, dets, detset, paused)
      ensures t.None? ==> paused == {} && Served(log)
      ensures KeptRound(old(log), log)
    {
      t, paused := TellAll(Pause, dets, detset);
      if t.Some? {
        return;
      }
      assert paused == detset;
      ghost var before := log;
      var go;
      ghost var taken;
      t, go, taken := WaitForContinuation(false, patience);
      RequestsTaken(before, taken, dets, detset, paused);
      KeptTwice(old(log), before, log);
      if t.Some? {
        return;
      }
      ghost var answered := log;
      t, paused := TellAll(if go then Resume else AskFinish, dets, detset);
      KeptTwice(old(log), answered, log);
    }

    /** `for det in list(detset)` of the counting loop: every detector has its turn. */
    method Rounds(mustComplete: bool, ghost dets: set<nat>, detset0: set<nat>)
      returns (t: Step, detset: set<nat>)
      requires Counting(log, dets, detset0, {}) && Served(log) && Turns(log) == {}
      modifies this`log
      ensures Counting(log, dets, detset, {}) && Served(log) && Kept(old(log), log)
      ensures t.None? ==> Turns(log) == detset0 && detset <= detset0
      ensures t.None? && mustComplete ==> detset == {}
    {
      t, detset := None, detset0;
      var todo := detset0;
      hide Counting, Kept;
      KeptTwiceAny(log);
      while todo != {}
        invariant t.None? && todo <= detset <= detset0
        invariant Counting(log, dets, detset, {}) && Served(log) && Kept(old(log), log)
        invariant Turns(log) == detset0 - todo
        invariant mustComplete ==> detset == todo
      {
        var det :| det in todo;
        ghost var before, hook, done;
        before := log;
        t, detset, hook, done := Round(det, mustComplete, dets, detset);
        KeptTwice(old(log), before, log);
        if t.Some? {
          break;
        }
        todo := todo - {det};
      }
    }

    /** Stops all detectors still counting, when `iscompletefunc` asks for it. */
    method StopAll(ghost dets: set<nat>, detset: set<nat>) returns (t: Step)
      requires Counting(log, dets, detset, {}) && Served(log)
      modifies this`log
      ensures Counting(log, dets, detset, {}) && Served(log)
      ensures KeptRound(old(log), log)
      ensures t.None? ==> detset <= Stops(log)
    {
      t := None;
      var todo := detset;
      while todo != {} && t.None?
        invariant todo <= detset && Counting(log, dets, detset, {}) && Served(log)
        invariant KeptRound(old(log), log)
        invariant detset - todo <= Stops(log)
      {
        var det :| det in todo;
        NoRecord(log, Stopped(det), dets, detset, {});
        KeptStep(old(log), log, Stopped(det));
        log := Then(log, Stopped(det));
        t := *;  // det.stop()
        todo := todo - {det};
      }
    }

    /** `while True` of the counting loop, for a run in which every detector has
        completed in round `limit` at the latest; `pending(k)` says that a request is
        found after round k, `complete(k)` that iscompletefunc() then says yes.  Of
        `rounds` rounds that were not the last, `polled` came to that call, and `delays`
        to their end.  Only an exception leaves detectors paused. */
    method CountLoop(dets: set<nat>, limit: nat, patience: nat, pending: nat -> bool, complete: nat -> bool)
      returns (t: Step, detset: set<nat>, ghost paused: set<nat>,
               ghost rounds: nat, ghost polled: nat, ghost delays: nat)
      requires Counting(log, dets, dets, {}) && Served(log) && Turns(log) == {} && !Wanted(log)
      modifies this`log
      ensures Counting(log, dets, detset, paused)
      ensures t.None? ==> detset == {} && paused == {} && Served(log)
      ensures LoopSaw(old(log), log, pending, complete, rounds, polled, delays)
      ensures delays <= polled <= rounds <= delays + 1 && (t.None? ==> delays == rounds)
    {
      hide *;
      t, detset, paused, rounds, polled, delays := None, dets, {}, 0, 0, 0;
      var round := 0;
      SawNothing(log, pending, complete);
      while true
        invariant t.None? && round <= limit && paused == {} && rounds == polled == delays == round
        invariant Counting(log, dets, detset, {}) && Served(log) && Turns(log) == {} && !Wanted(log)
        invariant LoopSaw(old(log), log, pending, complete, rounds, polled, delays)
        decreases limit - round
      {
        ghost var begun := log;
        t, detset := Rounds(round == limit, dets, detset);
        SawKept(old(log), begun, log, pending, complete, rounds, polled, delays);
        if t.Some? || detset == {} {
          break;
        }
        rounds := rounds + 1;
        LookedFor(old(log), log, pending, complete, round, dets, detset);
        if pending(round) {
          log := Then(log, Asked);
          ghost var asked := log;
          t, paused := PauseRound(dets, detset, patience);
          SawKept(old(log), asked, log, pending, complete, rounds, polled, delays);
          if t.Some? {
            break;
          }
        }
        t := *;  // iscompletefunc()
        if t.Some? {
          break;
        }
        polled := polled + 1;
        Polled(old(log), log, pending, complete, round, dets, detset);
        if complete(round) {
          log := Then(log, StopWanted);
          ghost var wanted := log;
          t := StopAll(dets, detset);
          SawKept(old(log), wanted, log, pending, complete, rounds, polled, delays);
          if t.Some? {
            break;
          }
        }
        RoundOver(old(log), log, pending, complete, round, dets, detset);
        log, delays := Then(log, Delayed), delays + 1;
        t := *;  // delay
        if t.Some? {
          break;
        }
        round := round + 1;
      }
    }

    /** The `except BaseException` clause: stop, read and save what is left. */
    method SaveAll(ghost dets: set<nat>, detset: set<nat>, ghost paused: set<nat>) returns (cut: bool)
      requires Counting(log, dets, detset, paused)
      modifies this`log
      ensures Orderly(log) && CallsOrderly(log)
      ensures exists todo :: Saving(log, dets, detset, todo) && (!cut ==> todo == {})
      ensures Kept(old(log), log)
    {
      cut := false;
      var todo := detset;
      assert Saving(log, dets, detset, todo);
      KeptTwiceAny(log);
      hide Kept, KeptRound, Saving, Orderly, CallsOrderly, Counting;
      while todo != {}
        invariant !cut && Orderly(log) && CallsOrderly(log) && Saving(log, dets, detset, todo)
        invariant Kept(old(log), log)
      {
        var det :| det in todo;
        SaveStopped(log, det, dets, detset, todo);
        KeptStep(old(log), log, Stopped(det));
        log := Then(log, Stopped(det));
        var r: Step := *;  // stop(), readResults(INTERRUPTED)
        if r == Some(ABaseException) {
          cut := true;
          break;
        }
        var p: Step := *;  // putResults
        if p == Some(ABaseException) {
          cut := true;
          break;
        }
        var e := if p.None? then Recorded(Interrupted, det) else Rejected(Interrupted, det);
        SaveStep(log, e, det, dets, detset, todo);
        KeptStep(old(log), log, e);
        log := Then(log, e);
        todo := todo - {det};
      }
    }

    method ForEach(stage: Stage, dets: seq<nat>) returns (t: Step)
      requires Preliminary(log) && Served(log) && NoneStarted(log)
      modifies this`log
      ensures Preliminary(log) && Served(log) && NoneStarted(log)
      ensures Count(log, Asked) == old(Count(log, Asked))
      ensures Opening(log) <= old(Opening(log)) + ForAll(stage, dets)
      ensures t.None? ==> Opening(log) == old(Opening(log)) + ForAll(stage, dets)
    {
      t := None;
      ghost var calls := ForAll(stage, dets);
      assert old(Opening(log)) + calls[..0] == old(Opening(log));
      for k := 0 to |dets|
        invariant t.None? && Preliminary(log) && Served(log) && NoneStarted(log)
        invariant Count(log, Asked) == old(Count(log, Asked))
        invariant Opening(log) == old(Opening(log)) + calls[..k]
      {
        hide *;
        CallStep(log, stage, dets, k, old(Opening(log)));
        log := Then(log, Called(stage, dets[k]));
        t := *;
        if t.Some? {
          break;
        }
      }
      assert calls[..|dets|] == calls;
    }

    method PrepareAll(detectors: seq<nat>) returns (t: Step)
      requires OnlyRequests(log) && Served(log)
      modifies this`log
      ensures Preliminary(log) && Served(log) && NoneStarted(log)
      ensures Count(log, Asked) == old(Count(log, Asked))
      ensures Opening(log) <= Planned(detectors)
      ensures t.None? ==> Opening(log) + Starts(detectors) == Planned(detectors)
    {
      PreliminaryIsQuiet(log);
      PlannedPrefixes(detectors);
      hide Opening, OnlyRequests, Preliminary, Served, NoneStarted, ForAll, Planned, Starts;
      t := ForEach(SetPreset, detectors);
      PrefixOf(Opening(log), ForAll(SetPreset, detectors), Planned(detectors));
      if t.None? {
        t := ForEach(Prepare, detectors);
        PrefixOf(Opening(log), ForAll(SetPreset, detectors) + ForAll(Prepare, detectors), Planned(detectors));
      }
      if t.None? {
        t := ForEach(Await, detectors);
        PrefixOf(Opening(log), ForAll(SetPreset, detectors) + ForAll(Prepare, detectors) + ForAll(Await, detectors),
          Planned(detectors));
      }
      if t.None? {
        t := *;  // updateMetainfo
      }
    }

    method StartDetectors(detectors: seq<nat>) returns (t: Step)
      requires Preliminary(log) && Served(log) && NoneStarted(log)
      modifies this`log
      ensures Preliminary(log) && Count(log, Asked) == old(Count(log, Asked))
      ensures Opening(log) <= old(Opening(log)) + Starts(detectors)
      ensures t.None? ==> AllStarted(log, set d | d in detectors) && Served(log)
      ensures t.None? ==> Opening(log) == old(Opening(log)) + Starts(detectors)
    {
      t := None;
      ghost var calls := Starts(detectors);
      assert old(Opening(log)) + calls[..0] == old(Opening(log));
      for k := 0 to |detectors|
        invariant t.None? && Preliminary(log) && Served(log) && Count(log, Asked) == old(Count(log, Asked))
        invariant forall d: nat :: d in detectors[..k] <==> Count(log, Started(d)) > 0
        invariant Opening(log) == old(Opening(log)) + calls[..k]
      {
        assert calls[..k + 1] == calls[..k] + [Started(detectors[k])];
        t := *;  // start
        if t.Some? {
          break;
        }
        log := Then(log, Started(detectors[k]));
      }
      assert detectors[..|detectors|] == detectors && calls[..|detectors|] == calls;
    }

    /** The request that is pending before counting. */
    method FirstContinuation(patience: nat) returns (t: Step)
      requires log == Start
      modifies this`log
      ensures OnlyRequests(log) && Preliminary(log) && Served(log) && Count(log, Asked) == 1
    {
      log := Then(log, Asked);
      FirstRequest();
      var go;
      ghost var taken;
      t, go, taken := WaitForContinuation(true, patience);
      RequestsPreliminary(Then(Start, Asked), taken);
    }

    /** `acquire` up to the counting loop; `ending` says where it raised. */
    method BeforeCounting(detectors: seq<nat>, patience: nat, request: bool) returns (t: Step, ending: Ending)
      requires log == Start && actionStack != []
      modifies this
      ensures Preliminary(log) && Count(log, Asked) == (if request then 1 else 0)
      ensures t.None? ==> AllStarted(log, set d | d in detectors) && Served(log)
      ensures t.Some? ==> ending.NotPrepared? || ending.NotStarted? || ending.NotCounting?
      ensures if t.Some? && !ending.NotCounting? then Opening(log) <= Planned(detectors)
              else Opening(log) == Planned(detectors)
      ensures actionStack ==
        if t.Some? && ending.NotStarted? then old(actionStack)[..|old(actionStack)| - 1] else old(actionStack)
    {
      ending := NotPrepared;
      if request {
        t := FirstContinuation(patience);
        PreliminaryIsQuiet(log);
        if t.Some? {
          return;
        }
      }
      hide Planned, Starts;
      t := PrepareAll(detectors);
      if t.Some? {
        return;
      }
      t := StartDetectors(detectors);
      if t.Some? {
        actionStack := actionStack[..|actionStack| - 1];
        ending := NotStarted;
        return;
      }
      t := *;  // delay
      ending := NotCounting;
    }

    /** `acquire`.  The log holds the calls of this acquisition. */
    method Acquire(
      detectors: seq<nat>, limit: nat, patience: nat, request: bool, pending: nat -> bool, complete: nat -> bool)
      returns (t: Step, ending: Ending, ghost rounds: nat, ghost polled: nat, ghost delays: nat)
      modifies this
      ensures ending == Completed <==> t.None?
      ensures Orderly(log) && CallsOrderly(log)
      ensures AtMostOneTerminal(log, detectors)
      ensures ending == Completed ==> FinalForAll(log, detectors) && PausedSet(log) == {} && Served(log)
      ensures ending == Saved ==> SavedUnlessRefused(log, detectors)
      // every request and every wish to stop is seen, in every round that was not the last
      ensures Count(log, Asked) == (if request then 1 else 0) + Found(pending, rounds)
      ensures Count(log, StopWanted) == Found(complete, polled) && Count(log, Delayed) == delays
      ensures delays <= polled <= rounds <= delays + 1 && (ending == Completed ==> delays == rounds)
      // the calls before counting
      ensures if ending.NotPrepared? || ending.NotStarted? then Opening(log) <= Planned(detectors)
              else Opening(log) == Planned(detectors)
      // raised earlier: no records and no pauses at all
      ensures ending.NotPrepared? || ending.NotStarted? || ending.NotCounting? ==> Preliminary(log)
      // the action scope is left open exactly by an exception outside both `try`s
      ensures actionStack ==
        if ending.NotPrepared? || ending.NotCounting? then old(actionStack) + ["Counting"] else old(actionStack)
    {
      log := Start;
      rounds, polled, delays := 0, 0, 0;
      actionStack := actionStack + ["Counting"];
      t, ending := BeforeCounting(detectors, patience, request);
      NothingRecorded(log, detectors);
      PreliminaryIsQuiet(log);
      assert Found(pending, 0) == 0 == Found(complete, 0);
      hide *;
      if t.Some? {
        return;
      }
      t, ending, rounds, polled, delays := CountAndSave(detectors, limit, patience, pending, complete);
      actionStack := actionStack[..|actionStack| - 1];
    }

    /** The second `try` of `acquire`. */
    method CountAndSave(
      detectors: seq<nat>, limit: nat, patience: nat, pending: nat -> bool, complete: nat -> bool)
      returns (t: Step, ending: Ending, ghost rounds: nat, ghost polled: nat, ghost delays: nat)
      requires Preliminary(log) && AllStarted(log, set d | d in detectors) && Served(log)
      modifies this`log
      ensures ending == Completed <==> t.None?
      ensures ending.Completed? || ending.Saved? || ending.SavingCut?
      ensures Orderly(log) && CallsOrderly(log) && AtMostOneTerminal(log, detectors)
      ensures ending == Completed ==> FinalForAll(log, detectors) && PausedSet(log) == {} && Served(log)
      ensures ending == Saved ==> SavedUnlessRefused(log, detectors)
      ensures Count(log, Asked) == old(Count(log, Asked)) + Found(pending, rounds)
      ensures Count(log, StopWanted) == Found(complete, polled) && Count(log, Delayed) == delays
      ensures delays <= polled <= rounds <= delays + 1 && (ending == Completed ==> delays == rounds)
      ensures Opening(log) == old(Opening(log))
    {
      hide *;
      var dets := set d | d in detectors;
      ReadyToCount(log, dets);
      var detset;
      ghost var paused;
      ghost var started := log;
      t, detset, paused, rounds, polled, delays := CountLoop(dets, limit, patience, pending, complete);
      if t.None? {
        CountedOut(log, detectors, dets);
        ending := Completed;
      } else {
        ghost var raised := log;
        var cut := SaveAll(dets, detset, paused);
        SawKept(started, raised, log, pending, complete, rounds, polled, delays);
        ghost var todo :| Saving(log, dets, detset, todo) && (!cut ==> todo == {});
        SavedOut(log, detectors, dets, detset, todo);
        ending := if cut then SavingCut else Saved;
      }
      LoopCounts(started, log, pending, complete, rounds, polled, delays);
    }
  }
}
