/** The calls of an acquisition as a log: which logs are in order, and what the calls
    of `acquire` keep. */
module AcquisitionLog {
  import opened Options
  import opened Traces

  // The hook of a detector asks for a LIVE or INTERMEDIATE record or for none.
  datatype Quality = Live | Intermediate | Final | Interrupted

  datatype Request = PauseRequest | FinishRequest

  // What is called for every detector before it is started.
  datatype Stage = SetPreset | Prepare | Await

  datatype Event =
    | Called(stage: Stage, det: nat)
    | Started(det: nat)                     // det.start() returned
    | Turned(det: nat)                      // det.duringMeasureHook() was called
    | Finished(det: nat)                    // det.finish() of a completed detector
    | Recorded(quality: Quality, det: nat)  // putResults() accepted a record
    | Rejected(quality: Quality, det: nat)  // putResults() raised
    | Asked                                 // a countloop request was seen
    | Took(req: Request)                    // a countloop request was taken
    | Paused(det: nat)
    | Resumed(det: nat)
    | FinishAsked(det: nat)                 // det.finish() after a "finish" request
    | StopWanted                            // iscompletefunc() said yes
    | Stopped(det: nat)                     // det.stop() was called
    | Delayed                               // the delay at the end of a round was reached

  type Log = Trace<Event>

  /** How many terminal records of the detector were accepted. */
  ghost function Terminals(log: Log, d: nat): nat {
    Count(log, Recorded(Final, d)) + Count(log, Recorded(Interrupted, d))
  }

  /** Only started detectors have records; no record of a detector follows its
      terminal record; its FINAL record follows its finish(), its INTERRUPTED
      record a call of its stop(). */
  ghost predicate Orderly(log: Log) {
    match log
    case Start => true
    case Then(before, Recorded(q, d)) =>
      && Orderly(before)
      && Terminals(before, d) == 0
      && Count(before, Started(d)) > 0
      && (q == Interrupted ==> Count(before, Stopped(d)) > 0)
      && (q == Final ==> Count(before, Finished(d)) > 0)
    case Then(before, _) => Orderly(before)
  }

  /** The detectors that were paused and neither resumed nor asked to finish since. */
  ghost function PausedSet(log: Log): set<nat> {
    match log
    case Start => {}
    case Then(before, e) => PausedAfter(PausedSet(before), e)
  }

  function PausedAfter(paused: set<nat>, e: Event): set<nat> {
    match e
    case Paused(d) => paused + {d}
    case Resumed(d) => paused - {d}
    case FinishAsked(d) => paused - {d}
    case _ => paused
  }

  /** The last request taken. */
  ghost function LastRequest(log: Log): Option<Request> {
    match log
    case Start => None
    case Then(_, Took(req)) => Some(req)
    case Then(before, _) => LastRequest(before)
  }

  /** No request was seen since the last one was taken. */
  ghost predicate Served(log: Log) {
    match log
    case Start => true
    case Then(_, Took(_)) => true
    case Then(_, Asked) => false
    case Then(before, _) => Served(before)
  }

  /** The detector was started and has no terminal record. */
  ghost predicate IsCounting(log: Log, d: nat) {
    Count(log, Started(d)) > 0 && Terminals(log, d) == 0
  }

  /** Every detector that is still counting is paused. */
  ghost predicate AllHeld(log: Log) {
    forall d: nat :: IsCounting(log, d) ==> d in PausedSet(log)
  }

  /** The detectors that had their turn in this round. */
  ghost function Turns(log: Log): set<nat> {
    match log
    case Start => {}
    case Then(_, Delayed) => {}
    case Then(before, Turned(d)) => Turns(before) + {d}
    case Then(before, _) => Turns(before)
  }

  /** In this round all detectors are to be stopped. */
  ghost predicate Wanted(log: Log) {
    match log
    case Start => false
    case Then(_, Delayed) => false
    case Then(_, StopWanted) => true
    case Then(before, _) => Wanted(before)
  }

  /** The detectors stopped since that was said in this round. */
  ghost function Stops(log: Log): set<nat> {
    match log
    case Start => {}
    case Then(_, Delayed) => {}
    case Then(_, StopWanted) => {}
    case Then(before, Stopped(d)) => Stops(before) + {d}
    case Then(before, _) => Stops(before)
  }

  /** Every detector that is still counting had its turn. */
  ghost predicate RoundDone(log: Log) {
    forall d: nat :: IsCounting(log, d) ==> d in Turns(log)
  }

  ghost predicate AllStopped(log: Log) {
    forall d: nat :: IsCounting(log, d) ==> d in Stops(log)
  }

  /** The calls before counting, in order. */
  ghost function Opening(log: Log): seq<Event> {
    match log
    case Start => []
    case Then(before, e) => Opening(before) + if e.Called? || e.Started? then [e] else []
  }

  ghost function ForAll(stage: Stage, dets: seq<nat>): (r: seq<Event>)
    ensures |r| == |dets|
  {
    seq(|dets|, k requires 0 <= k < |dets| => Called(stage, dets[k]))
  }

  ghost function Starts(dets: seq<nat>): (r: seq<Event>)
    ensures |r| == |dets|
  {
    seq(|dets|, k requires 0 <= k < |dets| => Started(dets[k]))
  }

  /** Each stage for all detectors in order, one stage after the other. */
  ghost function Planned(dets: seq<nat>): seq<Event> {
    ForAll(SetPreset, dets) + ForAll(Prepare, dets) + ForAll(Await, dets) + Starts(dets)
  }

  /** A detector is paused only when it is not, and resumed or asked to finish only
      when it is: resumed if the last request taken was a pause, else asked to
      finish.  A request is taken only when all that count are paused.  As long as
      one is paused, or a request that was seen is not taken, the counting loop does
      not go on: no detector is started, finished or recorded, except by saving
      after an exception.  In each round every detector that counts has one turn, in
      which alone it is finished or recorded; only then requests are looked at; and
      if all are to be stopped, they are, before the round is over. */
  ghost predicate CallFits(log: Log, e: Event) {
    match e
    case Paused(d) => d !in PausedSet(log)
    case Resumed(d) => d in PausedSet(log) && LastRequest(log) == Some(PauseRequest)
    case FinishAsked(d) => d in PausedSet(log) && LastRequest(log) == Some(FinishRequest)
    case Called(_, _) => Served(log)
    case Started(_) => Served(log)
    case Took(_) => AllHeld(log)
    case Turned(d) => d !in Turns(log) && PausedSet(log) == {} && Served(log)
    case Finished(d) => d in Turns(log) && PausedSet(log) == {} && Served(log)
    case Recorded(q, d) => q != Interrupted ==> d in Turns(log) && PausedSet(log) == {} && Served(log)
    case Asked => RoundDone(log)
    case StopWanted => RoundDone(log)
    case Delayed => RoundDone(log) && PausedSet(log) == {} && Served(log) && (Wanted(log) ==> AllStopped(log))
    case _ => true
  }

  ghost predicate CallsOrderly(log: Log) {
    log.Then? ==> CallsOrderly(log.before) && CallFits(log.before, log.last)
  }

  ghost predicate AllStarted(log: Log, dets: set<nat>) {
    forall d: nat :: d in dets <==> Count(log, Started(d)) > 0
  }

  ghost predicate NoneStarted(log: Log) {
    forall d: nat :: Count(log, Started(d)) == 0
  }

  /** Before counting: requests come first, then the detectors are prepared and started. */
  ghost predicate ComesBeforeCounting(log: Log, e: Event) {
    match e
    case Asked => Opening(log) == []
    case Took(_) => Opening(log) == []
    case Called(_, _) => Served(log)
    case Started(_) => Served(log)
    case _ => false
  }

  /** Nothing but taking requests and then preparing and starting detectors has happened. */
  ghost predicate Preliminary(log: Log) {
    log.Then? ==> Preliminary(log.before) && ComesBeforeCounting(log.before, log.last)
  }

  /** Nothing but seeing and taking requests has happened. */
  ghost predicate OnlyRequests(log: Log) {
    Preliminary(log) && Opening(log) == []
  }

  /** The detectors still counting are those without a terminal record. */
  ghost predicate Pending(log: Log, dets: set<nat>, detset: set<nat>) {
    && detset <= dets && AllStarted(log, dets)
    && (forall d: nat :: Terminals(log, d) == if d in dets && d !in detset then 1 else 0)
    && (forall d: nat :: Count(log, Recorded(Interrupted, d)) == 0 && Count(log, Rejected(Interrupted, d)) == 0)
  }

  /** The state of the counting loop: `detset` still count, `paused` are paused. */
  ghost predicate Counting(log: Log, dets: set<nat>, detset: set<nat>, paused: set<nat>) {
    Orderly(log) && CallsOrderly(log) && Pending(log, dets, detset) && PausedSet(log) == paused
  }

  /** Calls other than accepted records leave the records as they were. */
  lemma NoRecord(log: Log, e: Event, dets: set<nat>, detset: set<nat>, paused: set<nat>)
    requires Counting(log, dets, detset, paused) && CallFits(log, e)
    requires !e.Recorded? && !e.Started? && (e.Rejected? ==> e.quality != Interrupted)
    ensures Counting(Then(log, e), dets, detset, PausedAfter(paused, e))
  {
    forall d: nat
      ensures Terminals(Then(log, e), d) == Terminals(log, d)
      ensures Count(Then(log, e), Started(d)) == Count(log, Started(d))
    {
    }
  }

  /** The detectors still counting. */
  lemma CountingAre(log: Log, dets: set<nat>, detset: set<nat>, paused: set<nat>)
    requires Counting(log, dets, detset, paused)
    ensures forall d: nat :: IsCounting(log, d) <==> d in detset
  {
  }

  /** In how many of the first `n` rounds a request is found. */
  ghost function Found(pending: nat -> bool, n: nat): nat {
    if n == 0 then 0 else Found(pending, n - 1) + if pending(n - 1) then 1 else 0
  }

  /** The calls of the loop itself: each pending request was seen, each wish to stop
      was noted, and so many rounds came to their end. */
  ghost predicate LoopSaw(
    before: Log, log: Log, pending: nat -> bool, complete: nat -> bool, rounds: nat, polled: nat, delays: nat)
  {
    && Count(log, Asked) == Count(before, Asked) + Found(pending, rounds)
    && Count(log, StopWanted) == Count(before, StopWanted) + Found(complete, polled)
    && Count(log, Delayed) == Count(before, Delayed) + delays
    && Opening(log) == Opening(before)
  }

  lemma SawNothing(log: Log, pending: nat -> bool, complete: nat -> bool)
    ensures LoopSaw(log, log, pending, complete, 0, 0, 0)
  {
  }

  lemma SawKept(
    before: Log, a: Log, b: Log, pending: nat -> bool, complete: nat -> bool, rounds: nat, polled: nat, delays: nat)
    requires LoopSaw(before, a, pending, complete, rounds, polled, delays)
    requires Kept(a, b) || KeptRound(a, b)
    ensures LoopSaw(before, b, pending, complete, rounds, polled, delays)
    ensures Wanted(a) <==> Wanted(b)
    ensures KeptRound(a, b) ==> Turns(a) == Turns(b)
  {
  }

  /** A request is looked for once all that count had their turn. */
  lemma LookedFor(
    before: Log, log: Log, pending: nat -> bool, complete: nat -> bool, round: nat, dets: set<nat>, detset: set<nat>)
    requires LoopSaw(before, log, pending, complete, round, round, round)
    requires Counting(log, dets, detset, {}) && detset <= Turns(log)
    ensures
      var asked := Then(log, Asked);
      && LoopSaw(before, if pending(round) then asked else log, pending, complete, round + 1, round, round)
      && Counting(asked, dets, detset, {}) && Turns(asked) == Turns(log) && (Wanted(asked) <==> Wanted(log))
  {
    CountingAre(log, dets, detset, {});
    NoRecord(log, Asked, dets, detset, {});
    assert Opening(log) + [] == Opening(log);
    hide Counting, IsCounting, AllHeld;
  }

  lemma Polled(
    before: Log, log: Log, pending: nat -> bool, complete: nat -> bool, round: nat, dets: set<nat>, detset: set<nat>)
    requires LoopSaw(before, log, pending, complete, round + 1, round, round)
    requires Counting(log, dets, detset, {}) && detset <= Turns(log) && Served(log)
    ensures
      var wanted := Then(log, StopWanted);
      && LoopSaw(before, if complete(round) then wanted else log, pending, complete, round + 1, round + 1, round)
      && Counting(wanted, dets, detset, {}) && Turns(wanted) == Turns(log) && Served(wanted)
  {
    CountingAre(log, dets, detset, {});
    NoRecord(log, StopWanted, dets, detset, {});
    assert Opening(log) + [] == Opening(log);
    hide Counting, IsCounting, AllHeld;
  }

  lemma RoundOver(
    before: Log, log: Log, pending: nat -> bool, complete: nat -> bool, round: nat, dets: set<nat>, detset: set<nat>)
    requires LoopSaw(before, log, pending, complete, round + 1, round + 1, round)
    requires Counting(log, dets, detset, {}) && detset <= Turns(log) && Served(log)
    requires Wanted(log) ==> detset <= Stops(log)
    ensures
      var after := Then(log, Delayed);
      && LoopSaw(before, after, pending, complete, round + 1, round + 1, round + 1)
      && Counting(after, dets, detset, {}) && Turns(after) == {} && Served(after) && !Wanted(after)
  {
    CountingAre(log, dets, detset, {});
    NoRecord(log, Delayed, dets, detset, {});
    assert Opening(log) + [] == Opening(log);
    hide Counting, IsCounting, AllHeld;
  }

  /** What only the counting loop itself changes. */
  ghost predicate Kept(before: Log, after: Log) {
    && Count(after, Asked) == Count(before, Asked)
    && Count(after, StopWanted) == Count(before, StopWanted)
    && Count(after, Delayed) == Count(before, Delayed)
    && Opening(after) == Opening(before)
    && (Wanted(after) <==> Wanted(before))
  }

  ghost predicate KeptRound(before: Log, after: Log) {
    Kept(before, after) && Turns(after) == Turns(before)
  }

  lemma KeptTwiceAny(log: Log)
    ensures Kept(log, log)
  {
  }

  lemma KeptTwice(a: Log, b: Log, c: Log)
    requires Kept(a, b) && Kept(b, c)
    ensures Kept(a, c) && (KeptRound(a, b) && KeptRound(b, c) ==> KeptRound(a, c))
  {
  }

  ghost predicate IsQuiet(e: Event) {
    !e.Asked? && !e.StopWanted? && !e.Delayed? && !e.Called? && !e.Started?
  }

  lemma KeptStep(before: Log, log: Log, e: Event)
    requires IsQuiet(e) && Kept(before, log)
    ensures Kept(before, Then(log, e))
    ensures KeptRound(before, log) && !e.Turned? ==> KeptRound(before, Then(log, e))
  {
    assert Opening(log) + [] == Opening(log);
  }

  /** When all detectors are paused, a request may be taken. */
  lemma HeldWhenPaused(log: Log, dets: set<nat>, detset: set<nat>)
    requires Counting(log, dets, detset, detset)
    ensures AllHeld(log)
  {
  }

  /** Once all detectors are started, none has any record. */
  lemma StartedPending(log: Log, dets: set<nat>)
    requires Preliminary(log) && AllStarted(log, dets)
    ensures Counting(log, dets, dets, {}) && Turns(log) == {}
  {
    PreliminaryIsQuiet(log);
  }

  lemma {:induction false} PreliminaryIsQuiet(log: Log)
    requires Preliminary(log)
    ensures Orderly(log) && CallsOrderly(log) && PausedSet(log) == {}
    ensures forall e: Event :: !e.Called? && !e.Started? && !e.Asked? && !e.Took? ==> Count(log, e) == 0
    ensures Turns(log) == {} && !Wanted(log)
    ensures Opening(log) == [] ==> NoneStarted(log)
  {
    if log.Then? {
      PreliminaryIsQuiet(log.before);
    }
  }

  lemma RecordAccepted(log: Log, q: Quality, d: nat, dets: set<nat>, detset: set<nat>)
    requires Counting(log, dets, detset, {}) && d in detset && !q.Interrupted? && Served(log) && d in Turns(log)
    requires q == Final ==> Count(log, Finished(d)) > 0
    ensures Counting(Then(log, Recorded(q, d)), dets, if q == Final then detset - {d} else detset, {})
  {
    forall x: nat
      ensures Terminals(Then(log, Recorded(q, d)), x) == Terminals(log, x) + if q == Final && x == d then 1 else 0
    {
    }
  }

  /** The calls of one turn that raised nothing. */
  ghost function AfterTurn(log: Log, d: nat, hook: Option<Quality>, done: bool): Log {
    var turned := Then(log, Turned(d));
    if done then Then(Then(turned, Finished(d)), Recorded(Final, d))
    else if hook.Some? then Then(turned, Recorded(hook.value, d))
    else turned
  }

  lemma TurnStep(log: Log, d: nat, dets: set<nat>, detset: set<nat>)
    requires Counting(log, dets, detset, {}) && Served(log) && d !in Turns(log)
    ensures
      var after := Then(log, Turned(d));
      && Counting(after, dets, detset, {}) && Served(after)
      && Kept(log, after) && Turns(after) == Turns(log) + {d}
  {
    NoRecord(log, Turned(d), dets, detset, {});
    KeptStep(log, log, Turned(d));
  }

  lemma FinishStep(before: Log, log: Log, d: nat, dets: set<nat>, detset: set<nat>)
    requires Counting(log, dets, detset, {}) && Served(log) && d in Turns(log) && Kept(before, log)
    ensures
      var after := Then(log, Finished(d));
      && Counting(after, dets, detset, {}) && Served(after) && Count(after, Finished(d)) > 0
      && Turns(after) == Turns(log) && Kept(before, after)
  {
    NoRecord(log, Finished(d), dets, detset, {});
    KeptStep(before, log, Finished(d));
  }

  lemma RejectStep(before: Log, log: Log, q: Quality, d: nat, dets: set<nat>, detset: set<nat>)
    requires Counting(log, dets, detset, {}) && Served(log) && Kept(before, log) && q != Interrupted
    ensures
      var after := Then(log, Rejected(q, d));
      Counting(after, dets, detset, {}) && Served(after) && Kept(before, after) && Turns(after) == Turns(log)
  {
    NoRecord(log, Rejected(q, d), dets, detset, {});
    KeptStep(before, log, Rejected(q, d));
  }

  lemma KeptRecord(before: Log, log: Log, q: Quality, d: nat)
    requires Kept(before, log)
    ensures Kept(before, Then(log, Recorded(q, d))) && Turns(Then(log, Recorded(q, d))) == Turns(log)
  {
    KeptStep(before, log, Recorded(q, d));
  }

  /** The requests taken in a row. */
  ghost function AfterRequests(log: Log, taken: seq<Request>): Log {
    if taken == [] then log else Then(AfterRequests(log, taken[..|taken| - 1]), Took(taken[|taken| - 1]))
  }

  lemma {:induction false} RequestsTaken
    (log: Log, taken: seq<Request>, dets: set<nat>, detset: set<nat>, paused: set<nat>)
    requires Counting(log, dets, detset, paused) && paused == detset
    ensures Counting(AfterRequests(log, taken), dets, detset, paused)
    ensures taken != [] ==> LastRequest(AfterRequests(log, taken)) == Some(taken[|taken| - 1])
    ensures taken != [] ==> Served(AfterRequests(log, taken))
    ensures KeptRound(log, AfterRequests(log, taken))
  {
    if taken != [] {
      var n := |taken| - 1;
      RequestsTaken(log, taken[..n], dets, detset, paused);
      KeptStep(log, AfterRequests(log, taken[..n]), Took(taken[n]));
      HeldWhenPaused(AfterRequests(log, taken[..n]), dets, detset);
      NoRecord(AfterRequests(log, taken[..n]), Took(taken[n]), dets, detset, paused);
    }
  }

  lemma {:induction false} RequestsPreliminary(log: Log, taken: seq<Request>)
    requires OnlyRequests(log)
    ensures OnlyRequests(AfterRequests(log, taken))
    ensures taken != [] ==> Served(AfterRequests(log, taken))
    ensures KeptRound(log, AfterRequests(log, taken))
  {
    if taken != [] {
      RequestsPreliminary(log, taken[..|taken| - 1]);
      KeptStep(log, AfterRequests(log, taken[..|taken| - 1]), Took(taken[|taken| - 1]));
    }
  }

  lemma ReadyToCount(log: Log, dets: set<nat>)
    requires Preliminary(log) && AllStarted(log, dets)
    ensures Counting(log, dets, dets, {}) && Turns(log) == {} && !Wanted(log)
    ensures Count(log, StopWanted) == Count(log, Delayed) == 0
  {
    StartedPending(log, dets);
    PreliminaryIsQuiet(log);
  }

  lemma LoopCounts(
    before: Log, log: Log, pending: nat -> bool, complete: nat -> bool, rounds: nat, polled: nat, delays: nat)
    requires LoopSaw(before, log, pending, complete, rounds, polled, delays)
    requires Count(before, StopWanted) == Count(before, Delayed) == 0
    ensures Count(log, Asked) == Count(before, Asked) + Found(pending, rounds)
    ensures Count(log, StopWanted) == Found(complete, polled) && Count(log, Delayed) == delays
    ensures Opening(log) == Opening(before)
  {
  }

  lemma PlannedPrefixes(dets: seq<nat>)
    ensures
      var a, b, c := ForAll(SetPreset, dets), ForAll(Prepare, dets), ForAll(Await, dets);
      && [] + a == a && a <= Planned(dets) && a + b <= Planned(dets) && a + b + c <= Planned(dets)
      && a + b + c + Starts(dets) == Planned(dets)
  {
  }

  lemma CallStep(log: Log, stage: Stage, dets: seq<nat>, k: nat, begun: seq<Event>)
    requires k < |dets| && Opening(log) == begun + ForAll(stage, dets)[..k]
    requires Preliminary(log) && Served(log) && NoneStarted(log)
    ensures
      var calls, after := ForAll(stage, dets), Then(log, Called(stage, dets[k]));
      && Preliminary(after) && Served(after) && NoneStarted(after) && Count(after, Asked) == Count(log, Asked)
      && Opening(after) == begun + calls[..k + 1] && Opening(after) <= begun + calls
  {
    var calls := ForAll(stage, dets);
    assert calls[..k + 1] == calls[..k] + [Called(stage, dets[k])];
  }

  lemma PrefixOf<T>(a: seq<T>, b: seq<T>, c: seq<T>)
    ensures a <= b && b <= c ==> a <= c
  {
  }

  lemma FirstRequest()
    ensures OnlyRequests(Then(Start, Asked)) && Count(Then(Start, Asked), Event.Asked) == 1
  {
  }

  // What the detectors are told in a pause round.
  datatype Talk = Pause | Resume | AskFinish

  ghost function Said(k: Talk, d: nat): Event {
    match k
    case Pause => Paused(d)
    case Resume => Resumed(d)
    case AskFinish => FinishAsked(d)
  }

  /** The answer to a pause follows the last request taken. */
  ghost predicate TalkFits(log: Log, k: Talk) {
    match k
    case Pause => true
    case Resume => LastRequest(log) == Some(PauseRequest)
    case AskFinish => LastRequest(log) == Some(FinishRequest)
  }

  /** Where the records stand while the detectors `detset` are being saved, of
      which `todo` are still to be handled: a handled one has its INTERRUPTED
      record exactly if the data manager did not refuse it. */
  ghost predicate Saving(log: Log, dets: set<nat>, detset: set<nat>, todo: set<nat>) {
    && todo <= detset <= dets && AllStarted(log, dets)
    && (forall d: nat :: Terminals(log, d) ==
         if d !in dets || d in todo then 0
         else if d !in detset then 1
         else if Count(log, Rejected(Interrupted, d)) == 0 then 1 else 0)
    && (forall d: nat :: d in todo || d !in detset ==> Count(log, Rejected(Interrupted, d)) == 0)
    && (forall d: nat :: d in dets - detset ==> Count(log, Recorded(Final, d)) == 1)
  }

  lemma SaveStopped(log: Log, d: nat, dets: set<nat>, detset: set<nat>, todo: set<nat>)
    requires Orderly(log) && CallsOrderly(log) && Saving(log, dets, detset, todo)
    ensures Orderly(Then(log, Stopped(d))) && CallsOrderly(Then(log, Stopped(d)))
    ensures Saving(Then(log, Stopped(d)), dets, detset, todo)
    ensures Count(Then(log, Stopped(d)), Stopped(d)) > 0
  {
    var after := Then(log, Stopped(d));
    forall x: nat
      ensures Terminals(after, x) == Terminals(log, x)
      ensures Count(after, Rejected(Interrupted, x)) == Count(log, Rejected(Interrupted, x))
      ensures Count(after, Recorded(Final, x)) == Count(log, Recorded(Final, x))
      ensures Count(after, Started(x)) == Count(log, Started(x))
    {
    }
  }

  lemma SaveStep(log: Log, e: Event, d: nat, dets: set<nat>, detset: set<nat>, todo: set<nat>)
    requires Orderly(log) && CallsOrderly(log) && Saving(log, dets, detset, todo) && d in todo
    requires e == Recorded(Interrupted, d) || e == Rejected(Interrupted, d)
    requires Count(log, Stopped(d)) > 0
    ensures Orderly(Then(log, e)) && CallsOrderly(Then(log, e)) && Saving(Then(log, e), dets, detset, todo - {d})
  {
    var after := Then(log, e);
    forall x: nat
      ensures Terminals(after, x) == Terminals(log, x) + if e == Recorded(Interrupted, d) && x == d then 1 else 0
      ensures Count(after, Rejected(Interrupted, x)) ==
        Count(log, Rejected(Interrupted, x)) + if e == Rejected(Interrupted, d) && x == d then 1 else 0
      ensures Count(after, Recorded(Final, x)) == Count(log, Recorded(Final, x))
    {
    }
  }

  ghost predicate AtMostOneTerminal(log: Log, detectors: seq<nat>) {
    forall d: nat :: Terminals(log, d) <= if d in detectors then 1 else 0
  }

  /** Every detector has one terminal record, its FINAL record. */
  ghost predicate FinalForAll(log: Log, detectors: seq<nat>) {
    forall d: nat :: d in detectors ==> Count(log, Recorded(Final, d)) == 1 == Terminals(log, d)
  }

  /** Every detector has its terminal record, except those whose INTERRUPTED
      record the data manager refused. */
  ghost predicate SavedUnlessRefused(log: Log, detectors: seq<nat>) {
    forall d: nat :: d in detectors ==>
      (Terminals(log, d) == 1 <==> Count(log, Rejected(Interrupted, d)) == 0)
  }

  lemma CountedOut(log: Log, detectors: seq<nat>, dets: set<nat>)
    requires Counting(log, dets, {}, {}) && dets == set d | d in detectors
    ensures FinalForAll(log, detectors) && AtMostOneTerminal(log, detectors)
    ensures Orderly(log) && CallsOrderly(log) && PausedSet(log) == {}
  {
    forall d: nat
      ensures Terminals(log, d) == (if d in detectors then 1 else 0) && Count(log, Recorded(Interrupted, d)) == 0
    {
      assert d in detectors <==> d in dets;
    }
    hide Count, Orderly, CallsOrderly;
  }

  lemma SavedOut(log: Log, detectors: seq<nat>, dets: set<nat>, detset: set<nat>, todo: set<nat>)
    requires Saving(log, dets, detset, todo) && dets == set d | d in detectors
    ensures AtMostOneTerminal(log, detectors)
    ensures todo == {} ==> SavedUnlessRefused(log, detectors)
  {
  }

  lemma NothingRecorded(log: Log, detectors: seq<nat>)
    requires Preliminary(log)
    ensures Orderly(log) && CallsOrderly(log) && AtMostOneTerminal(log, detectors)
  {
    PreliminaryIsQuiet(log);
  }
}
