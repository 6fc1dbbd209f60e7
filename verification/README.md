# Verification of the NICOS core

A Dafny model of the device, scan and cache layer of NICOS, and proofs of what
that layer keeps for every pattern of failures, requests and user actions.

Objects whose methods change their fields are classes with these fields; the
call they make to the outside world (devices, detectors, data manager, sockets,
clocks) may answer anything, which is modelled by nondeterministic choice, by
parameters, or by function arguments called oracles. Exceptions are values of
outcome datatypes. Calls whose order matters are kept in logs. Times and
positions are `real` numbers. Most methods are proved equal to a function of
the old state, and the properties are lemmas about that function and about
runs of it.

| file | what it models |
|---|---|
| `Severity.dfy` | which of several exceptions is raised in the end |
| `DeviceGraph.dfy` | devices, their attachments, and the traversal `devIter` |
| `MultiWait.dfy` | waiting for several devices, calling a method on several devices |
| `ScanLog.dfy`, `ScanEngine.dfy` | the scan: moving, measuring, skipping, stopping |
| `AcquisitionLog.dfy`, `Acquisition.dfy` | counting with detectors: pauses, final and interrupted records |
| `ScanPositions.dfy`, `AppendScan.dfy` | multi-step expansion and plot axis; continuing a scan |
| `CacheKeys.dfy`, `CacheStore.dfy`, `Aliases.dfy` | the local cache store, its rewrites, and device aliases |
| `CacheUpdates.dfy`, `CacheStream.dfy`, `CacheQueue.dfy` | updates from the server, the received byte stream, the send queue |
| `AxisLimits.dfy` | user limits, offset and starting of axes, one or several at once |
| `StabilityWindow.dfy`, `Timeouts.dfy` | the stability history and the timeout logic |
| `Fixing.dfy` | fixing and releasing devices by users of different levels |
| `SpmTokenizer.dfy`, `SpmCommand.dfy`, `SpmLine.dfy` | Simple Parameter Mode |
| `Options.dfy`, `Traces.dfy` | small shared datatypes |

`dafny verify dfyconfig.toml` checks everything.

## Findings

Where a property one would expect is not true of the code, the model follows
the code, and the property is proved with the exact condition under which it
holds.

- A scan is not finished by its `finishScan` if the last point that called `beginPoint`
  left its data set on the stack: because `beginPoint` raised after putting it there
  (`nicos/core/data/manager.py:178-199`), or because its values could not be stored
  (`nicos/core/scan.py:423-425`). Otherwise it is, and points never overlap in any
  case, as `beginPoint` finishes what it finds (`ScanEngine.RunFinishesScan`). What is
  left is finished by the next scan (`ScanEngine.NextScanCleansUp`).
- `acquire` opens an action scope before its first `try`
  (`nicos/core/acquire.py:107-126`): the scope stays open exactly if an exception
  comes from there (`Acquisition.Acquirer.Acquire`), and a scan then ends with that scope
  open (`ScanEngine.Scan.Run`).
- The pattern for lines is `([^\r\n]*)\r?\n` (`nicos/protocols/cache.py:276`). A
  carriage return that is not followed by a newline is never matched; from
  then on the worker finds a newline in its buffer, does not receive any
  more, and handles nothing: exactly if there is a carriage return before a newline
  and not directly before one (`CacheStream.DecodableStream`).
- A line that is not UTF-8 raises out of `_process_data`
  (`nicos/devices/cacheclient.py:210`), and the rest of the buffer is lost, so what is
  handled depends on how the stream was cut into chunks
  (`CacheStream.MessageBehindBadLineIsLost`). It does not exactly if all lines can be
  decoded, or nothing behind the first that cannot could be taken for a line that
  causes anything (`CacheStream.CutsDoNotMatterIff`).
- A failed batch is put behind the lines it did not take and those that were put while
  it was being sent (`CacheQueue.FailureSendsToTheBack`); no line is lost.
- An erased cache key forgets its time, so an older update that is delivered later is
  stored again (`CacheUpdates.ErasureForgetsTime`). A key holds the winner of the updates
  since its last accepted erasure (`CacheUpdates.HoldsTheLatestSinceErasure`); the
  message of the greatest time decides exactly if it is an update, or no update came
  after that erasure (`CacheUpdates.GreatestDecidesIff`).
- The order of delivery of updates does not matter exactly if the messages with the
  greatest time of each key agree (`CacheUpdates.DeliveryOrderIsIrrelevantIff`).
- Aliases are not transparent after clearing the real device, exactly if an alias holds a
  copy of a key that is removed (`Aliases.ClearingTheDeviceIsSeenIff`); without a
  connection, exactly for keys that the target has and that are not copied
  (`Aliases.LocallyTransparentIff`); after storing a value under the alias, exactly if it is
  not the one in the cache of the device (`Aliases.CopyKeepsInvIff`); and through an alias
  of an alias, exactly if that has copied another value of the key
  (`Aliases.CopyThroughAliasIsSeenIff`).
- If reading the value fails while an offset is being changed, the user limits have moved
  and the offset has not (`AxisLimits.TornOffset`, with a run in which
  the hardware then gets a target outside its limits, `AxisLimits.TornOffsetReachesHardware`).
- `_basemove` checks all requests before it starts anything, but if a start raises, the
  devices before it are already moving (`AxisLimits.BaseMove`).
- `appendscan` with an explicit step size goes on along the steps in a second call exactly
  if the direction is positive or all steps are zero (`AppendScan.SecondCallGoesOnIff`):
  in the negative direction every call after the first turns back onto the points of the
  first (`AppendScan.GivenStepTurnsBack`, `AppendScan.GivenStepRun`). A second change of
  direction repeats points (`AppendScan.SecondTurnRepeats`).
- The trimmed stability history says no where the full one says yes exactly if entries
  are missing and all that are left are in the window (`StabilityWindow.TrimmedAnswersIff`).
  That cannot be as long as the cut-off, the time minus the window, never moves back
  (`StabilityWindow.TrimmedAnswersLikeFull`), and happens, for example, after the window was
  enlarged (`StabilityWindow.EnlargingTheWindowIsSeen`).
- `fix` asks every device it enters for its status, which may raise
  (`nicos/core/device.py:1985`): then the devices entered before are fixed and the others
  are not (`Fixing.FixReaches`, `Fixing.FixesAllIff`, `Fixing.BadStatusStopsFix`).
- Releasing undoes a fix exactly if nothing in its reach had been fixed before
  (`Fixing.ReleaseUndoesFix`).

## Model

| member | source | states |
|---|---|---|
| Severity.SurvivorIsFirstMostSevere | nicos/core/utils.py:291-302 | merging exceptions one by one leaves the first of the highest severity, CONTINUE < SKIP < other, and nothing exactly if there were none |
| DeviceGraph.DevIterIsReachability | nicos/core/utils.py:111-157 | a device is yielded exactly if it is reachable from the given ones through devices of the class |
| DeviceGraph.AttachmentsComeFirst | nicos/core/utils.py:111-157 | every yielded device comes after all devices of the class attached to it |
| DeviceGraph.YieldedAreMembers | nicos/core/utils.py:111-157 | nothing outside the class is yielded |
| DeviceGraph.ListedIsYielded | nicos/core/utils.py:111-157 | every given device of the class is yielded |
| MultiWait.MultiWait | nicos/core/utils.py:195-302 | ends for all devices that answer after finitely many polls; the passes poll the devices of the traversal still waited for, in that order, up to the first busy one, except that the second pass and then every tenth go through all; on return and on the merged exception every waited device ended exactly once; a return means no failure and has a value for exactly the given waitable devices; the raised exception is the first most severe one; a failing read escapes at once, and only then; otherwise the estimate or the delay raised, at the first pass that leaves devices after which it does |
| MultiWait.WaitPass | nicos/core/utils.py:238-269 | a pass polls the devices of the list in order, up to the first busy one unless it is a full pass, the last one, or one whose read raises, and uses up one unit of work per poll |
| MultiWait.AnsweredAtOnce | nicos/core/utils.py:222-269 | if no poll is answered by busy there is one pass, which polls every device in the order of the traversal; so the exception raised is the first most severe in that order |
| MultiWait.OneMorePass | nicos/core/utils.py:233-282 | a pass over the devices still waited for extends the passes so far |
| MultiWait.PollStep | nicos/core/utils.py:238-267 | one poll keeps what is known of the wait, and strictly lowers the polls still to come |
| MultiWait.RemainingStep | nicos/core/utils.py:233-282 | busy answers still to come never grow, and shrink with each busy answer |
| MultiWait.WaitedIffReachable | nicos/core/utils.py:222-222 | the devices waited for are exactly the waitable ones reachable through waiters |
| MultiWait.MergedIsSurvivor | nicos/core/utils.py:243-248 | the exception kept by the loop is that of merging all failures in order |
| MultiWait.ReadingsCoverEnded | nicos/core/utils.py:262-267 | without failures the values cover exactly the ended devices that were given explicitly |
| MultiWait.MultiMethod | nicos/core/utils.py:392-412 | every device of the class is called exactly once, in order, whatever is raised; the first most severe exception is raised at the end |
| ScanEngine.HandleErrorMeans | nicos/core/scan.py:239-281 | an error of the highest rank is raised again whatever failed; a SkipPoint is raised exactly if preparing failed with another error, or moving or waiting with one of the middle rank; otherwise it returns |
| ScanEngine.StartsMeaning | nicos/core/scan.py:291-304 | starting ends exactly with an error of the highest rank or a stop, and asks to skip the point exactly if some start gave an error of the middle rank |
| ScanEngine.Scan.StartAll | nicos/core/scan.py:291-304 | starts devices in order until a fatal failure; the wait list is exactly the devices that started; a SkipPoint is remembered, not raised |
| ScanEngine.Scan.MoveDevices | nicos/core/scan.py:283-330 | with waiting, no return and no SkipPoint before every started device was waited for; the result has an entry for exactly the started devices; the failure of the wait decides before a remembered SkipPoint |
| ScanEngine.Scan.ReadMissing | nicos/core/scan.py:320-330 | every waited device gets an entry; values from the wait are kept |
| ScanEngine.Scan.PrepareScan | nicos/core/scan.py:192-203 | a normal return comes after the first moves, if any, and the move to the start, each with waiting; what is raised is what one of these moves raised; the action scope is balanced in any case |
| ScanEngine.Scan.MoveToPoint | nicos/core/scan.py:399-410 | a point that is not given up had its devices moved to its start position with waiting and sent off to its end position, if any; otherwise what is raised is what one of these moves raised; the first point is passed over exactly if moving to the start asked to skip, and moves nothing |
| ScanEngine.Scan.Measure | nicos/core/scan.py:420-433 | which calls a measured point makes, and in which order, for every pattern of failures; the point is counted and closed exactly if its values could be stored; what is raised is what handleError leaves of the failure, that of closing the point prevailing |
| ScanEngine.Scan.Point | nicos/core/scan.py:397-435 | one point for every pattern of failures: its calls, its scope, its moves, and what it raises: the break point prevails over a failure of measuring, but over a failure to move only if it raises no Exception |
| ScanEngine.Scan.PointLoop | nicos/core/scan.py:396-437 | the log and the moves of the loop are those of its points in order; it raises what its last point raised, and no earlier one raised; a normal end means that all points were visited and none was given up; a first point to be skipped moves nothing and never gets a target |
| ScanEngine.Scan.InnerRun | nicos/core/scan.py:383-439 | a begun scan is always ended; otherwise no data call but beginScan is made; what is raised: that of endScan, else that of the point loop except StopScan; without a begin, that of preparing except StopScan, or that of beginScan |
| ScanEngine.Scan.Run | nicos/core/scan.py:352-366 | refused while a scan runs; otherwise raises and moves as the inner run does; the running flag is reset however the scan ends, and so are all action scopes except those left open by acquisitions |
| ScanEngine.RunReturnsIff | nicos/core/scan.py:395-439 | a begun run returns exactly if endScan does and no point raised anything but StopScan; it is complete exactly if no point raised; otherwise it raises what its last point raised |
| ScanEngine.MeasuringRaises | nicos/core/scan.py:420-435 | a failure of measuring is raised exactly if it is an error of the highest rank, a stop or StopScan, unless the break point raises |
| ScanEngine.PointAdded | nicos/core/scan.py:396-437 | one more point after points that raised nothing: the loop goes on exactly if it raises nothing either |
| ScanEngine.Session.Clean | nicos/core/data/manager.py:201-209 | finishes data sets from the top until one is of a kind to keep |
| ScanEngine.Session.BeginScan | nicos/core/data/manager.py:98-112 | the calls and the stack, also when it raises before or after the scan is on the stack |
| ScanEngine.Session.BeginPoint | nicos/core/data/manager.py:124-128 | the calls and the stack, also when it raises before or after the point is on the stack |
| ScanEngine.Session.FinishPoint | nicos/core/data/manager.py:138-144 | takes a point off the stack, and nothing else |
| ScanEngine.Session.FinishScan | nicos/core/data/manager.py:146-152 | takes a scan off the stack, and nothing else |
| ScanEngine.RunFinishesScan | nicos/core/scan.py:383-439 | points open, count and close in strict alternation whatever fails; the scan is finished, and the stack is as before, exactly if the last point that called beginPoint did not leave its data set there |
| ScanEngine.NextScanCleansUp | nicos/core/data/manager.py:98-112 | what a run or a failed beginScan leaves on the stack is finished by the next beginScan |
| ScanEngine.RunIsWellFormed | nicos/core/scan.py:383-439 | after any earlier calls: one end for the one begin; targets are a subsequence of the start positions in order, and on completion exactly the points not skipped |
| ScanLog.PointsAlternate | nicos/core/scan.py:397-435 | after any points, however they end, none overlap, and the point still on the stack is the last that called beginPoint, if that left its data set there |
| ScanLog.TargetsInOrder | nicos/core/scan.py:397-423 | announced targets are start positions with increasing numbers, and exactly those of the points that got that far |
| ScanLog.MeasuredOrSkipped | nicos/core/scan.py:397-435 | if no point was given up, a point has a target exactly if it was not skipped |
| ScanLog.SkippedAre | nicos/core/scan.py:399-413 | the points logged as skipped are exactly those that ended in SkipPoint |
| ScanLog.PointsAdd | nicos/core/scan.py:395-439 | what a loop adds to the targets and skipped points of any log; points neither begin nor end the scan |
| Acquisition.Acquirer.Acquire | nicos/core/acquire.py:75-187 | however it ends: only started detectors have records; no record after a terminal record; FINAL only after finish(), INTERRUPTED only after stop(); at most one terminal record per detector; in each round every detector that counts has one turn, in which alone it is finished or recorded; a request is looked for only after these turns, each one found is taken before anything goes on, and only when all that count are paused; a detector is resumed or asked to finish only when it is paused, as the last request taken says; if iscompletefunc says yes, all are stopped before the round is over. Every pending request and every yes is noticed. On completion each has its FINAL record, none is paused and no request is left; on an exception in the loop each has a terminal record unless the data manager refused it; which endings leave the action scope open |
| Acquisition.Acquirer.BeforeCounting | nicos/core/acquire.py:107-126 | before counting, each of setPreset, prepare, waiting and start is called for all detectors in order, one after the other, up to the first that raises; where the action scope stays open |
| Acquisition.Acquirer.CountLoop | nicos/core/acquire.py:127-163 | the detectors still counting are those without terminal record, in every round and however it ends; which requests and which wishes to stop were noticed; only an exception leaves detectors paused |
| AcquisitionLog.RoundOver | nicos/core/acquire.py:127-163 | a round may end when all that count had their turn, no request is left, none is paused, and all are stopped if that was wanted |
| AcquisitionLog.LookedFor | nicos/core/acquire.py:146-149 | a request is looked for once all that count had their turn |
| Acquisition.Acquirer.Round | nicos/core/acquire.py:131-145 | one detector in one round: its record is FINAL, after finish, exactly if it was completed, and otherwise the one its hook asked for, if any; it leaves the set exactly with its FINAL record |
| Acquisition.Acquirer.Rounds | nicos/core/acquire.py:130-145 | if nothing raises, every detector of the set had its turn |
| Acquisition.Acquirer.PauseRound | nicos/core/acquire.py:149-159 | a pause round that does not raise pauses all remaining detectors, and then resumes all or asks all to finish, as the last request taken says |
| Acquisition.Acquirer.WaitForContinuation | nicos/core/acquire.py:36-72 | takes requests until one that is no pause; says go on exactly if the last taken is a pause or only pauses count |
| Acquisition.Acquirer.StopAll | nicos/core/acquire.py:160-162 | every detector still counting is stopped in this round, and nothing is recorded |
| AcquisitionLog.StartedPending | nicos/core/acquire.py:120-126 | once all detectors are started, and nothing else happened, all are pending |
| Acquisition.Acquirer.SaveAll | nicos/core/acquire.py:164-184 | every unfinished detector gets an INTERRUPTED record or a refusal, unless a BaseException cuts the handling |
| Acquisition.Acquirer.TellAll | nicos/core/acquire.py:150-159 | all remaining detectors are paused, or all paused ones get their answer; which are paused if a call raises |
| AcquisitionLog.NoRecord | nicos/core/acquire.py:127-163 | calls other than accepted records keep the order of records and pauses, and change the paused set only |
| AcquisitionLog.RecordAccepted | nicos/core/acquire.py:137-145 | an accepted record keeps the order of records and the set of pending detectors |
| AcquisitionLog.SaveStep | nicos/core/acquire.py:168-183 | saving one detector gives it its only terminal record, or a refusal |
| ScanPositions.Expand | nicos/core/scan.py:119-134 | position k of the expanded list is primary position k div m followed by step k mod m; further values of longer step lists are not used |
| ScanPositions.GuessPlotIndex | nicos/core/scan.py:157-179 | the number of values before the first device that moves between the compared positions; 0 if none does |
| ScanPositions.GuessIsPrimary | nicos/core/scan.py:157-179 | the compared positions are the first two primary ones, whatever the number of steps |
| ScanPositions.PlannedScan.constructor | nicos/core/scan.py:119-140 | start and end lists are expanded alike, devices follow the multi-step devices, and the axis is that of the first two primary positions |
| AppendScan.FindOriginal | nicos/commands/scan.py:715-723 | finds the last scan that is no appended one and collects the scans from there on |
| AppendScan.NewPositions | nicos/commands/scan.py:753-784 | column by column, new position j is j + 1 steps beyond the end that is continued |
| AppendScan.AppendScan | nicos/commands/scan.py:709-784 | which of the four errors is raised when; otherwise the scan continued, direction, chain and positions |
| AppendScan.ContinueStretch | nicos/commands/scan.py:757-784 | the averaged step continues an arithmetic progression at either end |
| AppendScan.LastContinues | nicos/commands/scan.py:709-784 | each call of a run in one direction goes on where the earlier ones ended |
| AppendScan.OneDirection | nicos/commands/scan.py:709-784 | any number of calls in one direction visits one stretch of the progression adjacent to the original scan |
| AppendScan.TwoDirections | nicos/commands/scan.py:709-784 | any number of calls in one direction and then in the other, each but the last of a direction with two points or more, visits one contiguous stretch of the original progression |
| AppendScan.NoPointTwice | nicos/commands/scan.py:757-784 | no point of the stretch occurs twice if some device moves |
| AppendScan.SecondTurnRepeats | nicos/commands/scan.py:725-738 | turning a second time starts again at the first point the first calls visited |
| AppendScan.GivenStepTurnsBack | nicos/commands/scan.py:731-784 | with an explicit step, a second call in the negative direction returns to a point visited by the first |
| AppendScan.SecondCallGoesOnIff | nicos/commands/scan.py:731-784 | a second call with the same explicit step goes on along the steps of the first exactly if the direction is positive or all steps are zero |
| AppendScan.GivenStepRun | nicos/commands/scan.py:709-784 | what any number of calls in one direction with an explicit step visits: the first goes in the direction, the others forwards from where it ended |
| AppendScan.GivenStepForwards | nicos/commands/scan.py:709-784 | in the positive direction any number of calls with an explicit step visits one stretch of equal steps |
| CacheKeys.DbKeyInjective | nicos/devices/cacheclient.py:632-632 | for names without a slash, two store keys are equal exactly if device and subkey are, up to case |
| CacheKeys.PrefixIsDevice | nicos/devices/cacheclient.py:792-800 | the prefix test of clear selects exactly the keys of that device |
| CacheStore.CacheClient.Put | nicos/devices/cacheclient.py:700-729 | stores the entry under the name of the device and all names rewritten to it, and queues one message; nothing for a zero lifetime |
| CacheStore.CacheClient.Delete | nicos/devices/cacheclient.py:732-746 | removes the key under the device and all names rewritten to it, and queues one message |
| CacheStore.CacheClient.Clear | nicos/devices/cacheclient.py:792-804 | removes exactly the keys of the device that are not excluded, and queues an erasure for each |
| CacheStore.CacheClient.ClearRewrite | nicos/devices/cacheclient.py:767-775 | removes one name from both maps, and the device from its map with its last name |
| CacheStore.CacheClient.SetRewrite | nicos/devices/cacheclient.py:777-785 | points a name to a device, in both maps, after removing its old rewrite; the maps stay inverses |
| CacheStore.CacheClient.UnsetRewrite | nicos/devices/cacheclient.py:787-790 | removes a rewrite; the maps stay inverses; a message only if there was one |
| CacheStore.CacheClient.Get | nicos/devices/cacheclient.py:629-664 | ends whenever following the rewrites ends, and finds the first name on the way that has the key |
| CacheStore.LookupFinds | nicos/devices/cacheclient.py:642-655 | a look-up finds the value under the first name on the way that has the key |
| CacheStore.LookupFindsNothingIff | nicos/devices/cacheclient.py:642-655 | it finds nothing exactly if none of the names it comes to has the key |
| Aliases.PutAndDeleteAreSeen | nicos/devices/cacheclient.py:700-746 | a value that was put is found under the device and its aliases, with and without a connection, a deleted one is not found there, and all other keys stay |
| CacheStore.SetRewriteKeepsMirror | nicos/devices/cacheclient.py:767-790 | the two rewrite maps stay exact inverses without empty sets |
| CacheStore.ClearRewriteKeepsMirror | nicos/devices/cacheclient.py:767-775 | the same for removing a rewrite, which changes nothing else |
| Aliases.StillEndsIff | nicos/devices/cacheclient.py:629-664 | after pointing a to t every look-up still ends exactly if following t does not lead back to a |
| Aliases.Transparent | nicos/devices/cacheclient.py:629-664 | following rewrites, an alias finds what its target finds, for keys that are not its own parameters |
| Aliases.LocallyTransparentIff | nicos/devices/cacheclient.py:642-655 | without a connection they find the same exactly if the key is copied or the target does not have it |
| Aliases.AliasesAreTransparent | nicos/core/device.py:2520-2569 | after any run of puts, deletes, clearing, pointing and copying: an alias finds what its target finds, always while connected, and without a connection exactly if the key is copied or the target does not have it; the rewrite maps are inverses and look-ups end |
| Aliases.StepKeepsInv | nicos/devices/cacheclient.py:700-804 | each of these operations keeps every stored key of an alias a copy of the key of its device |
| Aliases.RunKeepsInv | nicos/devices/cacheclient.py:700-804 | so does every run |
| Aliases.DeviceAlias.ReinitParams | nicos/core/device.py:2554-2569 | nothing without master mode; otherwise the alias keeps its own parameters, has for each listed parameter what the target had in the cache, or else its local value, and nothing else; other names keep their keys; the messages are an erasure for each cleared key and one update for each copied parameter, in order |
| Aliases.DeviceAlias.DoUpdateAlias | nicos/core/device.py:2520-2552 | when it raises, when it changes nothing, and the rewrites, the parameters and the messages after pointing to a device or to nothing |
| Aliases.ReinitCopies | nicos/core/device.py:2554-2569 | the same for the specification: which keys are found under the alias afterwards, and which messages are queued |
| Aliases.CopiesAre | nicos/core/device.py:2561-2569 | copying one parameter after another uses for each the value before anything was copied |
| Aliases.PointingIsCopyOk | nicos/core/device.py:2534-2537 | pointing an alias so that no chain of rewrites closes meets the condition for that |
| Aliases.PointingKeepsInv | nicos/core/device.py:2520-2569 | pointing an alias with all its copies keeps aliases transparent if the parameters of the device are in the cache |
| Aliases.ClearingTheDeviceIsSeenIff | nicos/devices/cacheclient.py:792-804 | after clearing a real device its aliases still agree with it exactly if no alias holds a copy of a key that is removed |
| Aliases.ClearKeepsInvIff | nicos/devices/cacheclient.py:792-804 | clearing a real device keeps every stored key of an alias a copy of the key of its device exactly under the same condition |
| Aliases.CopyKeepsInvIff | nicos/core/device.py:2554-2569 | storing a value under an alias keeps aliases transparent exactly if the cache holds that value for the device |
| Aliases.CopyThroughAliasIsSeenIff | nicos/devices/cacheclient.py:700-729 | an alias of an alias sees a new value of a key exactly if it has not copied another value of it |
| CacheUpdates.Receiver.HandleMsg | nicos/devices/cacheclient.py:556-589 | which messages are ignored, erase, store or raise, and the store afterwards |
| CacheUpdates.DeliveryMeans | nicos/devices/cacheclient.py:556-589 | a TELL with a value stores it, an empty one and every TELLOLD erase the key, unless the store has something newer; nothing else changes anything |
| CacheUpdates.HoldsTheLatest | nicos/devices/cacheclient.py:556-589 | after any non-empty updates each key holds the last message among those with the greatest time, and only mentioned keys are there |
| CacheUpdates.HoldsTheLatestSinceErasure | nicos/devices/cacheclient.py:556-589 | after any messages each key holds the winner of the updates since its last accepted erasure, and nothing if there are none |
| CacheUpdates.GreatestDecidesIff | nicos/devices/cacheclient.py:573-589 | the message of the greatest time decides exactly if it is an update, or no update came after the last accepted erasure |
| CacheUpdates.NoLateUpdateDecides | nicos/devices/cacheclient.py:573-589 | it does if no update comes after a newer erasure |
| CacheUpdates.DeliveryOrderIsIrrelevantIff | nicos/devices/cacheclient.py:556-589 | every order of delivery of updates gives the same store exactly if the messages with the greatest time of each key agree |
| CacheUpdates.ErasureForgetsTime | nicos/devices/cacheclient.py:573-589 | an example of an older update stored after an erasure |
| CacheStream.StreamClient.ProcessData | nicos/devices/cacheclient.py:193-223 | handles the whole lines in order up to the first that cannot be decoded, at which it raises; otherwise returns the remainder |
| CacheStream.HandledMeans | nicos/devices/cacheclient.py:201-220 | each message line is handled as often as it occurs, and lines with the synchronization mark are not |
| CacheStream.SyncedMeans | nicos/devices/cacheclient.py:206-208 | the client is synchronized exactly if one of the lines holds that mark |
| CacheStream.StreamClient.Receive | nicos/devices/cacheclient.py:225-327 | what is handled and left of any chunks, the buffer being dropped at a line that cannot be decoded, and when the worker gets stuck |
| CacheStream.DecodableStream | nicos/devices/cacheclient.py:257-327 | if all lines can be decoded, the events are those of the lines of the whole stream however it is cut; the worker gets stuck exactly if there is a stray carriage return; otherwise no newline is left |
| CacheStream.FailingStream | nicos/devices/cacheclient.py:225-258 | what is handled if a line cannot be decoded and nothing behind it could cause an event |
| CacheStream.CutsDoNotMatterIff | nicos/devices/cacheclient.py:193-258 | how the stream is cut does not matter exactly if all its lines can be decoded, or nothing behind the first that cannot could be taken for a line that causes an event |
| CacheStream.MessageBehindBadLineIsLost | nicos/devices/cacheclient.py:204-223 | a message behind such a line is lost in one chunk and handled in the next |
| CacheStream.LinesInPieces | nicos/devices/cacheclient.py:193-223 | the lines of a stream in two pieces are those of the first, then those of its remainder with the second |
| CacheStream.RemainderHasNewlineIffStray | nicos/protocols/cache.py:276-276 | the remainder holds a newline exactly if some carriage return before a newline is not followed by one |
| CacheStream.StrayBlocks | nicos/protocols/cache.py:276-276 | a stray carriage return is never matched, whatever follows |
| CacheStream.MatchStays | nicos/devices/cacheclient.py:200-223 | more data does not change a line already matched |
| CacheQueue.Sender.SendBatch | nicos/devices/cacheclient.py:291-315 | takes up to ten items, sends their text or queues it again behind what was put meanwhile, and keeps the task count equal to the length of the queue |
| CacheQueue.SendingDrains | nicos/devices/cacheclient.py:291-315 | each successful batch sends ten items, or all that are left, from the front; k of them empty a queue of up to 10 k items, in order |
| CacheQueue.BatchConserves | nicos/devices/cacheclient.py:291-315 | a batch, sent or failed, neither loses nor duplicates a line |
| CacheQueue.NothingLostOrDuplicated | nicos/devices/cacheclient.py:291-315 | after any run each line put is queued or was sent, exactly once, and the count of unfinished tasks is the length of the queue |
| CacheQueue.FailureKeepsOrderOfShortQueue | nicos/devices/cacheclient.py:306-315 | a failed batch that took the whole queue keeps the order if nothing was put meanwhile |
| CacheQueue.FailureSendsToTheBack | nicos/devices/cacheclient.py:306-315 | a failed batch goes behind the lines it did not take and those put meanwhile |
| AxisLimits.OffsetKeepsPhysicalRange | nicos/core/mixins.py:335-396 | changing the offset keeps physical limits and target, and is refused exactly if the value cannot be read |
| AxisLimits.UserlimitsKeepInv | nicos/core/mixins.py:265-317 | new user limits are stored exactly if they are in order, inside the absolute ones up to the tolerance, and the value can be read; the invariant is kept |
| AxisLimits.AdjustRenames | nicos/core/mixins.py:398-408 | adjusting makes the physical position that read as the old value read as the new one, and moves no physical limit |
| AxisLimits.ResetGivesAbsoluteRange | nicos/commands/device.py:1063-1069 | resetting gives exactly the absolute limits as physical range |
| AxisLimits.StartIsInRange | nicos/core/device.py:1754-1820 | a target reaches the hardware exactly if the device is free, the start is permitted and accepted, and the target is inside the user range; when the call returns, and the target |
| AxisLimits.StepKeepsInv | nicos/core/mixins.py:265-409 | every operation on an axis keeps the invariant |
| AxisLimits.RunKeepsInv | nicos/core/mixins.py:265-409 | over any run all hardware targets and the physical user range stay inside the absolute limits |
| AxisLimits.InitEstablishesInv | nicos/core/device.py:1638-1693 | initialization establishes the invariant from any remembered limits |
| AxisLimits.TornOffset | nicos/core/mixins.py:380-396 | if the value cannot be read while the offset changes, the invariant survives exactly if the moved range is still inside |
| AxisLimits.TornOffsetReachesHardware | nicos/core/mixins.py:380-396 | a run in which a target outside the limits then reaches the hardware |
| AxisLimits.MotorAxis.CheckLimits | nicos/core/mixins.py:265-291 | the check accepts exactly ordered limits inside the absolute ones, up to the tolerance, with the offset that is being set |
| AxisLimits.MotorAxis.WriteUserlimits | nicos/core/mixins.py:303-317 | the user limits afterwards, and when it raises |
| AxisLimits.MotorAxis.WriteOffset | nicos/core/mixins.py:380-396 | limits, target and offset afterwards, also when it raises halfway |
| AxisLimits.MotorAxis.Adjust | nicos/core/mixins.py:398-408 | adjusting is a change of the offset by the difference |
| AxisLimits.MotorAxis.ResetUserlimits | nicos/commands/device.py:1063-1069 | the user limits become the absolute ones in logical coordinates |
| AxisLimits.MotorAxis.Initialize | nicos/core/device.py:1638-1693 | the restored limits |
| AxisLimits.MotorAxis.StartAt | nicos/core/device.py:1731-1820 | check, then start, with the hardware convention of the axis, also when the start raises |
| AxisLimits.CheckAll | nicos/commands/device.py:117-128 | fails exactly if some request is refused, and collects the requests of devices that may move, in order |
| AxisLimits.BaseMove | nicos/commands/device.py:109-141 | if some request is refused nothing changes; otherwise each device that is not fixed has the position of its last request as target and its hardware got exactly the positions of its requests, in order, up to the first start that raises; it raises exactly in these cases, and the invariant of every requested axis is kept |
| AxisLimits.BaseMoveMoves | nicos/commands/device.py:109-141 | the same for the specification, in terms of the requests alone |
| AxisLimits.MovableAreFree | nicos/commands/device.py:117-128 | if none is refused, the requests that are started are those of the devices that are not fixed |
| AxisLimits.StartsOnlyMove | nicos/commands/device.py:135-139 | starting devices whose requests were accepted changes no limits, offsets or fixes, keeps every invariant, and gives the hardware targets inside the user ranges only |
| AxisLimits.StartAll | nicos/commands/device.py:135-139 | the second loop leaves the axes as starting them in order up to the first start that raises |
| AxisLimits.BaseMoveKeepsInv | nicos/commands/device.py:109-141 | a joint move, also one that raises, keeps every invariant and moves nothing else; a refused one changes nothing |
| AxisLimits.FleetRunKeepsInv | nicos/commands/device.py:109-141 | over any run of operations on single axes and joint moves, every physical user range and every hardware target stays inside the absolute limits |
| AxisLimits.MovableAreRequests | nicos/commands/device.py:117-139 | the devices to be started are those of accepted requests |
| StabilityWindow.WindowDevice.CacheCallback | nicos/core/mixins.py:698-711 | the history afterwards is trimmed to the window and one older entry |
| StabilityWindow.WindowDevice.IsAtTarget | nicos/core/mixins.py:734-756 | true exactly if there is no target, or the window is filled and followed by an older entry, all values in it are close, and so is the position |
| StabilityWindow.AtTargetMeaning | nicos/core/mixins.py:734-756 | at the target means: the history holds a value of the window and an older one, and all values of the window and the present one are within the precision |
| StabilityWindow.WindowDevice.EstimateTime | nicos/core/mixins.py:767-783 | when there is no estimate, and the estimate from the newest value outside the precision |
| StabilityWindow.EstimateMeaning | nicos/core/mixins.py:767-783 | the estimate is the time until the newest value outside the precision leaves the window, plus one second, if all newer ones are in the window, and zero if there is none |
| StabilityWindow.TrimmedKeepsWindow | nicos/core/mixins.py:698-711 | if the cut-off never moves back, the trimmed history starts with a stale entry if anything is missing |
| StabilityWindow.TrimmedIsTail | nicos/core/mixins.py:698-711 | whatever the windows are, the trimmed history is an end of the full one |
| StabilityWindow.AtMostOneStale | nicos/core/mixins.py:698-711 | the trimmed history keeps all values in the window and at most one entry before it |
| StabilityWindow.TrimmedAnswersLikeFull | nicos/core/mixins.py:734-756 | if the cut-off never moves back, `isAtTarget` gives the same answer on the trimmed and on the full history |
| StabilityWindow.TrimmedAnswersIff | nicos/core/mixins.py:734-756 | whatever the windows are, the trimmed history says yes exactly if the full one does and it reaches back before the window or is complete |
| StabilityWindow.TrimmedEstimatesIff | nicos/core/mixins.py:767-783 | exactly when the time estimates on both histories are equal, for any window |
| StabilityWindow.TrimmedEstimatesLikeFull | nicos/core/mixins.py:767-783 | the time estimates are equal at any later time, for a window that does not reach back before the last cut-off |
| StabilityWindow.EnlargingTheWindowIsSeen | nicos/core/mixins.py:698-711 | an example in which the window was enlarged |
| Timeouts.TimesAscend | nicos/core/mixins.py:552-570 | the phase times ascend exactly if no duration is negative, and the last one is the sum of all durations |
| Timeouts.DoTimeIsNotNegative | nicos/core/mixins.py:758-765 | the moving time is not negative for positive speed or ramp |
| Timeouts.TimedDevice.CombinedStatus | nicos/core/mixins.py:610-654 | terminates with its call of itself; the answer is the hardware status, or busy if that says done but a pending movement is not at its target; once the time is over it is the timeout status, unless the action succeeded and the time is not over any more; when it raises, and when the times are cleared |
| Timeouts.AnswerAndPhases | nicos/core/mixins.py:610-654 | the same for the specification: every answer, and the times left behind |
| Timeouts.TimedDevice.ResetTimeout | nicos/core/mixins.py:589-595 | arms the action again, also if the new times cannot be computed |
| Timeouts.DoneMeansArrived | nicos/core/mixins.py:610-654 | OK or WARN is answered exactly if the hardware says so and no movement is pending or the device is at its target, at once or after a successful action |
| Timeouts.TimedOutMeansOverdue | nicos/core/mixins.py:610-654 | the timeout status is answered exactly if the device is overdue and the action did not help |
| Timeouts.ActionIsCalledWhenDue | nicos/core/mixins.py:626-652 | when the action is called, and what disarms it |
| Timeouts.RunActsAtMostOnce | nicos/core/mixins.py:589-654 | in every run the action is called at most once per `resetTimeout` |
| Timeouts.DisarmedStaysQuiet | nicos/core/mixins.py:589-654 | after a reset, or once the action was disarmed otherwise, it is not called before the next `resetTimeout` |
| Timeouts.FirstOverdueActs | nicos/core/mixins.py:589-654 | after a start the first overdue status evaluation calls the action, if it is allowed and nothing disarmed it |
| Fixing.Devices.Fix | nicos/core/device.py:1968-2005 | refused exactly for a device fixed by a higher level; otherwise marks the devices it enters until a status call raises, and raises exactly if one does |
| Fixing.Devices.DoFix | nicos/core/device.py:2000-2005 | the recursion over attachments marks the devices entered until a status call raises, all with one text |
| Fixing.Devices.Release | nicos/core/device.py:2007-2036 | the same for releasing |
| Fixing.Devices.Start | nicos/core/device.py:1754-1776 | a fixed device gives no target to its hardware |
| Fixing.FreeIsStarted | nicos/core/device.py:1754-1776 | a start gives its target to the hardware exactly if nobody has fixed the device and the other checks pass |
| Fixing.FixReaches | nicos/core/device.py:1968-2005 | exactly the devices entered before a status call raised are now fixed by the user; all of them are reachable through devices the user may change |
| Fixing.FixTexts | nicos/core/device.py:1986-2005 | the text ends in the note who fixed the device, which is never doubled; attachments get the same text |
| Fixing.FixesAllIff | nicos/core/device.py:1968-2005 | everything reachable is fixed exactly if the devices that are not entered any more had been entered before |
| Fixing.BadStatusStopsFix | nicos/core/device.py:1984-2005 | if the status calls of some devices fail, a fix raises exactly if it can reach one of them, and then does not fix everything reachable |
| Fixing.VisitsAreYielded | nicos/core/device.py:2000-2005 | a fix enters the devices that the traversal of attachments yields |
| Fixing.ReleaseReaches | nicos/core/device.py:2007-2036 | which devices a release changes |
| Fixing.PrivilegedFixReachesAll | nicos/core/device.py:1968-2005 | a user who may change everything reachable fixes everything reachable, exactly if no status call for a reachable device fails |
| Fixing.FixedStaysFixed | nicos/core/device.py:1754-2036 | a device fixed at some level keeps its fix and gets no target through any run of operations by lower users |
| Fixing.LevelIsExact | nicos/core/device.py:2019-2030 | releasing works exactly from that level on |
| Fixing.ReleaseUndoesFix | nicos/core/device.py:1968-2036 | releasing right after fixing restores the state exactly if nothing in reach was fixed before |
| Fixing.RunKeepsInv | nicos/core/device.py:1968-2036 | over any run a device has a text exactly if it was fixed by somebody |
| SpmTokenizer.Tokenize | nicos/core/spm.py:399-460 | terminates, and gives the commands of the scanned pieces or the first failure |
| SpmTokenizer.QuotedIffQuote | nicos/core/spm.py:53-54 | a quoted string is matched exactly if there is a closing quote |
| SpmTokenizer.ScanLosesNothing | nicos/core/spm.py:399-460 | on success the pieces rebuild the line exactly, and each has its shape |
| SpmTokenizer.FailureIsUnclosed | nicos/core/spm.py:399-460 | on failure the reported rest starts with an opener that is never closed |
| SpmTokenizer.ScanOfFlatten | nicos/core/spm.py:399-460 | well-formed pieces that are kept apart are read back as they are |
| SpmTokenizer.TokenizeOfPrint | nicos/core/spm.py:399-460 | printing any commands of well-formed tokens and tokenizing the line gives the same commands |
| SpmTokenizer.QuotedOf | nicos/core/spm.py:53-54 | a quoted string with escapes ends at its closing quote whatever follows |
| SpmCommand.HandleCommand | nicos/core/spm.py:469-522 | the binding loops terminate, and bind as specified |
| SpmCommand.AcceptedIffFits | nicos/core/spm.py:469-522 | a command is accepted exactly if its tokens are the positional arguments, then whole rounds of the group or complete option pairs, all accepted by their types |
| SpmCommand.BoundAsGiven | nicos/core/spm.py:484-522 | every token is used exactly once; options are bound by name, the last value winning |
| SpmCommand.ErrorNamesTheFirst | nicos/core/spm.py:483-520 | apart from a premature end the error names the first token its type refuses, or else the last token if options do not come in pairs, or else what is wrong with the first pair that is no option |
| SpmCommand.OptionValues | nicos/core/spm.py:507-520 | the value of a known option is what its type makes of it, that of an unknown one the text as it is |
| SpmCommand.AcceptedValues | nicos/core/spm.py:95-270 | what an argument accepted by a type becomes |
| SpmCommand.RefusedValues | nicos/core/spm.py:95-270 | which arguments a type refuses |
| SpmCommand.MissingIffIncomplete | nicos/core/spm.py:485-491 | the premature end is reported exactly if all given tokens are accepted and more are needed |
| SpmCommand.NoSyntaxTakesAll | nicos/core/spm.py:470-472 | a command without declared syntax takes all its tokens as bare values |
| SpmLine.HandleLine | nicos/core/spm.py:363-397 | the code for a line: escapes, then the calls of its commands |
| SpmLine.EscapesMean | nicos/core/spm.py:363-378 | which lines are comments, Python, help or simulated, and what they stand for |
| SpmLine.CommandCalls | nicos/core/spm.py:385-397 | a name that is neither command nor device is refused; a command is called with exactly what its tokens are bound to |
| SpmLine.DeviceCalls | nicos/core/spm.py:462-467 | a device alone is read, with one argument moved there, and with more refused |
| SpmLine.AllCallsMeaning | nicos/core/spm.py:383-397 | a line succeeds exactly if all its commands do, with their calls in order; otherwise with the error of the first that fails |
| SpmLine.PrintedLineRuns | nicos/core/spm.py:363-397 | a line that prints commands generates the calls of these commands |

## Left out

- Sockets, `select`, threads, locks, the secondary connection, reconnecting and the flush at shutdown of the cache client: only the queue, buffer and store steps are modelled. Loading of raw values and UTF-8 decoding are outcomes: see CacheStream and CacheUpdates.
- `invalidate`, `get` with a minimum time, callbacks, and alias messages sent by the server: each touches one name only.
- `DataManager`, `session`, elog, logging and message texts: only the calls that appear in a log, and whether they raise.
- ContinuousScan, SweepScan, ManualScan and QScan, and subscans: they depend on timing or hardware.
- Simulation mode, the device metaclass, dynamic parameters, and access checks other than the comparison of user levels: a flag says whether they pass.
- `multiStatus`, `isTimedOut` messages and the phase names of the status text: the names are empty except for the first, which is over when it is set.
- Scan.Measure: `acquire` is one step here, which may raise and may leave its scope open; Acquisition models it in full.
- MultiWait.MultiWait: devices are oracles that answer each poll, so a device does not change another one while it is waited for.
- Acquisition.Acquirer.CountLoop: whether a request is found and what `iscompletefunc` says are functions of the round; loops that end only when detectors or users let them are bounded by a parameter; every run that ends is a run for some bound.
- Acquisition.Acquirer.Acquire: for modes other than simulation, in which the quality is not reset for each detector.
- Fixing.Devices: the parameters of all devices are sequences in one object, indexed by the order of creation, so an object per device and its attachments as references are not modelled. A device that starts its attachments in `doStart` is a run of several starts.
- Fixing.FixTexts: a user name is put between single quotes as it is, without escapes.
- Timeouts.TimedDevice.CombinedStatus: `timeoutAction` is one step that does not start its own device, raises no BaseException, and does not ask for the status of its own device; if it does, the flag is not yet set and the status calls itself without end.
- AxisLimits.RunKeepsInv: as in AxisLimits.FleetRunKeepsInv, the value can be read whenever an offset is changed; AxisLimits.TornOffset says what holds without.
- Aliases.AliasesAreTransparent: copies are made of cached keys, by aliases of real devices that no other alias points to; Aliases.CopyKeepsInvIff and Aliases.CopyThroughAliasIsSeenIff say exactly when other copies do no harm.
- AppendScan.NewPositions: as for AppendScan.AppendScan, positions of devices are single numbers; tuples, arrays and several devices of different kinds are not modelled, and neither are the arguments handed on to the new scan.
- AppendScan.AppendScan: positions that are not numbers, and the error raised for them, are left out.
- CacheUpdates.Receiver.HandleMsg: callbacks for other prefixes, and loading the values for them, are left out.
- Aliases.DeviceAlias.ReinitParams: an exception other than a NicosError while a parameter is copied would escape; it is left out.
- Aliases.DeviceAlias.DoUpdateAlias: the same exception is left out.
- AxisLimits.BaseMove: changes of the position by a hook (as in `rmove`) and the wait after the starts are left out.
- SpmCommand.Handle: lower-casing is that of ASCII letters; conversions to numbers are functions of the session.
- SpmTokenizer.Tokenize: completion and partial tokenizing are not modelled.
- Floating point rounding: positions and times are real numbers.
- `gridscan`, fitting, TAS commands, `experiment.py`, `configmod.py`, clients, user interfaces and tools.
