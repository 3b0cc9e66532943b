# A verified model of the control daemon

The daemon stands in for a robot controller's system server. Several periodic threads share one
small driver-station state, drive GPIO lines, and publish a control word that a robot program decodes.
This project models the stateful parts in Dafny 4.11 and proves what they promise, over all inputs
and whole runs. `dafny verify dfyconfig.toml` checks everything.

## How the model is built

Objects whose methods update fields are Dafny classes with the same fields. `DaemonState` and
`LibgpiodBackend` also carry a ghost log: every setter call, and every operation asked of the
backend, in order. Their `Valid()` says that the fields are the replay of that log. A method that
writes them states its whole effect as what it appends to the log, so the order of its steps is part of
its contract, and "what a snapshot can show" is a theorem about prefixes of logs. Each method is tied
to a function on values (`Step`, `Writes`, `GlueTick`, `Window`, `Scan`, ...), and the results over
runs are lemmas about those functions.

Time is integer nanoseconds, durations are whole non-negative milliseconds, `duration_cast` and `ceil`
are written out, and narrowing to 32 bits is the function `Int32`. The clock, the environment's delays,
the topics and the level on an input's wire are parameters.

| files | subject |
|---|---|
| `PeriodicTask` | the deadline-aligned loop: lateness, recovery, when it keeps up |
| `MatchController`, `MatchTimeline`, `MatchOnSchedule` | the match clock, its runs against the ideal timeline, under the scheduler, and what others can observe |
| `Sorting`, `CadenceTracker`, `Healthz` | the percentile ring with its lazy cache, and the health verdict |
| `ControlDataPublisher` | the publisher, its message, and health over whole runs |
| `BitOps`, `ControlDataEncoder`, `Protobuf`, `DaemonTester` | the control word, its bytes, and the scanner that reads it back |
| `MatchOnTheWire` | scheduler, clock, state, encoder and scanner together |
| `DaemonState`, `GamepadIngest`, `SharedWriters`, `FormBody`, `WebUi` | the shared state and its writers |
| `LibgpiodBackend`, `SmartIoChannel`, `SmartIoBridge`, `SmartIoRuns`, `SmartIoLines`, `RslBlinker` | GPIO lines and who drives them |

## Main results

- A match is on its ideal timeline after every tick of a scheduler that keeps up (`MatchOnTime`), and
  the robot is told so: the bytes published next decode to the enable bit and mode that the time since the
  match start calls for (`TickReachesRobot`). Under any
  stall the clock is never ahead, never skips a phase, and three ticks make up any lag
  (`NeverAhead`, `TickTowardsIdeal`, `ThreeTicksSuffice`); three ticks after the loop has recovered, a
  computable number of ticks after the stall, the phase is exactly the ideal one for good
  (`MatchOnTimeAfterStall`).
- A snapshot taken between any two setter calls of a run lies between the phases before and after the
  event in flight; enabled with an unknown mode shows only during an event that enables
  (`SnapshotBetweenPhases`).
- The loop keeps every run at most `w` late exactly when latency `w` and cost `c` fit in the period
  (`OnTimeIffFits`); a stall of any length is forgotten in a computable number of ticks
  (`StallForgotten`), by the health check too (`StallHealed`).
- The ring with its epoch-checked cache is "keep everything, sort the last 1024, index", in every
  interleaving of records and reads (`PercentileMs`, `MaxMs`); a percentile is an order statistic
  (`PercentileIsRank`) and the health verdict a count (`HealthyIffFewSlow`).
- Suppressing repeated topic values changes no mode, output, sample or line (`SuppressionRefines`), and the
  samples are the wire's readings (`ValgetIsReadings`); no line is leaked or misused (`RunTracked`,
  `EveryOperationFindsItsLine`), however the signal light's writes interleave with the bridge's
  (`BridgeAndLight`).
- The control word survives the wire whatever surrounds it (`PublishedWordDecodes`), and over a whole run the
  messages decode, in order, to the states as each tick found them (`RunDecodes`).
- Each shared field holds the last write that counts, in every interleaving (`LastWriterWins`).

## Where the code and its description differ

The model follows the code.

- The comment at `daemon/src/periodic_task.hpp:16-19` first says a slow tick is caught up by skipping to
  the next slot and then that missed deadlines are replayed; the code replays, one tick a deadline.
- The comment at `daemon/src/web_ui.cpp:170` says a body is split on `&` and then on `=`. The extractor
  searches for `key=` instead and gives up if the first match does not start a pair.
  `FormBody.ExtractIsLookupIffNotShadowed` says exactly when the two agree and
  `FormBody.ShadowedExample` gives a body where they do not. The page's own four keys never collide.
  The match form does not check that its key starts a pair: `reaction=start` starts a match
  (`WebUi.HijackedExample`). `WebUi.VerbIsLookupIffNotHijacked` says exactly when it agrees with splitting.
- A valset and a type are 64-bit on the topic and narrowed to 32 bits. A nonzero multiple of 2^32 drives an
  output low (`SmartIoRuns.NarrowedValsetExample`; `SmartIoRuns.OutputIsLastCommand` states the exact
  condition), and a type of 2^32 configures an input (`SmartIoRuns.NarrowedTypeExample`;
  `SmartIoRuns.ModeIsLastType` states the exact condition).
- `docs/daemon-design.md:128` says the alliance is 0..3 on the wire. The web form clamps to that range and
  the gamepad path does not: a gamepad alliance of 4 is published as 4
  (`SharedWriters.AllianceOutOfRangeExample`). `SharedWriters.AllianceOnTheWire` states what is published from
  either, and exactly when a gamepad value is published as it is.

## Model

| member | source | states |
|---|---|---|
| PeriodicTask.RunPeriodic | daemon/src/periodic_task.hpp:20-32 | the loop calls its tick at exactly the instants given by deadlines, wake-up latencies and tick costs, once a deadline, for every round up to the first with a stop seen before or after its sleep |
| PeriodicTask.Ran | daemon/src/periodic_task.hpp:26-30 | the rounds that tick are those before the first with a stop on either side of the sleep |
| PeriodicTask.NeverEarly | daemon/src/periodic_task.hpp:25-29 | tick `k` never starts before `t0 + (k + 1) * period`: deadlines do not drift |
| PeriodicTask.LatenessStep | daemon/src/periodic_task.hpp:26-31 | exact recurrence of lateness from one tick to the next |
| PeriodicTask.LatenessDecays | daemon/src/periodic_task.hpp:16-19 | with slack, any lateness decays by the slack a tick, down to the latency bound |
| PeriodicTask.StallForgotten | daemon/src/periodic_task.hpp:16-19 | after any stall, a computable number of ticks later the loop is on time again for good |
| PeriodicTask.StaysOnTime | daemon/src/periodic_task.hpp:25-31 | latency at most `w` and cost at most `c` that fit in the period keep every tick at most `w` late |
| PeriodicTask.OverloadAccumulates | daemon/src/periodic_task.hpp:25-31 | an overload of `w + c - period` a tick accumulates without bound |
| PeriodicTask.OnTimeIffFits | daemon/src/periodic_task.hpp:25-31 | all bounded runs stay at most `w` late if and only if `w + c <= period` |
| PeriodicTask.IntervalIsPeriodPlusLateness | daemon/src/periodic_task.hpp:25-31 | consecutive ticks are a period apart plus the change in lateness |
| MatchController.MatchController.StartMatch | daemon/src/match_controller.cpp:92-98 | the whole new clock and the setter calls made, in order |
| MatchController.MatchController.StopMatch | daemon/src/match_controller.cpp:100-106 | the clock reset and the setter calls made, in order |
| MatchController.MatchController.SkipToTeleop | daemon/src/match_controller.cpp:112-119 | the clock with its back-dated match start, and the setter calls made, in order |
| MatchController.MatchController.Tick | daemon/src/match_controller.cpp:121-145 | no-op when idle or ended, re-assertion within a phase, otherwise one phase on from the deadline |
| MatchController.MatchController.ApplyPhase | daemon/src/match_controller.cpp:50-69 | enable bit first, then mode, for each phase |
| MatchController.MatchController.PublishMatchTime | daemon/src/match_controller.cpp:71-86 | one match-time write: seconds left rounded up in Auto and Teleop, 0 elsewhere |
| MatchController.MatchController.TakeSnapshot | daemon/src/match_controller.cpp:147-163 | elapsed, total and remaining time as reported to the page |
| MatchTimeline.RunAligned | daemon/src/match_controller.cpp:92-145 | in every reachable state the phase started exactly the sum of the earlier durations after the match |
| MatchTimeline.TickTowardsIdeal | daemon/src/match_controller.cpp:121-145 | a tick advances by one phase exactly when the clock is behind the ideal timeline; it never skips one |
| MatchTimeline.NeverAhead | daemon/src/match_controller.cpp:121-145 | no run, with events in any order, puts the phase ahead of the ideal timeline |
| MatchTimeline.TicksCatchUp | daemon/src/match_controller.cpp:134-144 | `n` ticks make up `n` phases of lag |
| MatchTimeline.ThreeTicksSuffice | daemon/src/match_controller.cpp:134-144 | any three ticks at or after `t` reach the ideal phase of `t`, so every match ends; exactly it if nothing came later |
| MatchTimeline.CommandsTakeOver | daemon/src/match_controller.cpp:92-119 | start, skip and stop set the clock as if afresh, and ticks leave a stopped clock alone |
| MatchTimeline.OnTime | daemon/src/match_controller.cpp:121-145 | while ticks come at most `gap` apart the phase is the ideal one after every event, boundaries acted on within `gap` |
| MatchTimeline.PhaseHasStarted | daemon/src/match_controller.cpp:92-145 | no reachable phase starts after the latest event so far, as the rows below assume of the instant |
| MatchTimeline.RoundingsAgree | daemon/src/match_controller.cpp:71-86 | seconds rounded up from nanoseconds equal seconds rounded up from the snapshot's milliseconds |
| MatchTimeline.MatchTimeCountsDown | daemon/src/match_controller.cpp:71-86 | match time lies in 0..ceil(duration), never increases within a phase, and is 0 exactly outside Auto and Teleop or when overdue |
| MatchTimeline.MatchTimeIsSecondsLeft | daemon/src/match_controller.cpp:71-86 | the match time is the one 32-bit number congruent to the least number of seconds that covers what is left of the Auto or Teleop period |
| MatchTimeline.SnapshotShows | daemon/src/match_controller.cpp:147-163 | the page is shown the phase, elapsed times truncated toward zero even before the phase start, what is left of that phase's own period, and all zero when idle |
| MatchTimeline.SnapshotAddsUp | daemon/src/match_controller.cpp:147-163 | total elapsed is in-phase elapsed plus the earlier durations, to the millisecond; elapsed plus remaining is the duration until overdue |
| MatchOnSchedule.MatchOnTime | daemon/src/match_controller.cpp:23-29 | on a scheduler that keeps up and durations above `period + w`, every tick leaves the ideal phase and acts on a boundary less than `period + w` late |
| MatchOnSchedule.MatchOnTimeAfterStall | daemon/src/match_controller.cpp:23-29 | after a stall of any length, three ticks after the lateness has decayed, every later tick leaves exactly the ideal phase |
| MatchOnSchedule.EventReasserts | daemon/src/match_controller.cpp:121-145 | whatever others wrote, a running tick re-asserts phase and match time; idle ticks write nothing; e-stop and alliance are never touched |
| MatchOnSchedule.EventTellsRobot | daemon/src/match_controller.cpp:50-69 | every command and running tick leaves the robot enabled exactly in Auto and Teleop, in mode Auto or Teleop, and otherwise disabled with mode Unknown |
| MatchOnSchedule.StartTellsRobot | daemon/src/match_controller.cpp:92-98 | starting enables Auto with the whole period left, in seconds rounded up |
| MatchOnSchedule.SkipTellsRobot | daemon/src/match_controller.cpp:112-119 | skipping enables Teleop with the whole period left |
| MatchOnSchedule.StopTellsRobot | daemon/src/match_controller.cpp:100-106 | stopping disables, with mode Unknown and match time 0 |
| MatchOnSchedule.RunShowsPhase | daemon/src/match_controller.cpp:50-69 | with only the controller writing, between events the state shows the phase |
| MatchOnSchedule.SnapshotBetweenPhases | daemon/src/match_controller.cpp:50-69 | at any moment some event is in flight, and whichever it is, a snapshot shows the phase before it, the one after it, or the new enable bit with the old mode; enabled with unknown mode only if that event enables; match time is old until the event is through |
| MatchOnTheWire.TickReachesRobot | daemon/src/control_data_publisher.cpp:32-45 | after a tick of an on-time match, whatever others wrote before it and with no write in between, the next message decodes to enabled and mode 1, enabled and mode 2, or disabled and mode 0, as the time since the match start says; DsConnected set, e-stop and alliance as left |
| CadenceTracker.CadenceTracker.RecordIntervalUs | daemon/src/cadence_tracker.cpp:7-14 | the history grows by the interval and the ring still holds its last 1024 |
| CadenceTracker.CadenceTracker.RefreshSorted | daemon/src/cadence_tracker.cpp:16-24 | afterwards the cache is current, which means it is the sorted window |
| CadenceTracker.CadenceTracker.PercentileMs | daemon/src/cadence_tracker.cpp:26-34 | the element at min(floor(p * n), n - 1) of the sorted last 1024 intervals, in milliseconds; 0 if none |
| CadenceTracker.CadenceTracker.MaxMs | daemon/src/cadence_tracker.cpp:36-42 | the largest of the last 1024 intervals, in milliseconds; 0 if none |
| CadenceTracker.IndexIsFloor | daemon/src/cadence_tracker.cpp:31-32 | the index read is the i with i * den <= num * n < (i + 1) * den, or the last one for fractions of 1 and more |
| CadenceTracker.PercentileIsRank | daemon/src/cadence_tracker.cpp:26-34 | a percentile is a sample with at most floor(p * n) samples below it and more than that not above it |
| CadenceTracker.MaximumIsLargest | daemon/src/cadence_tracker.cpp:36-42 | the maximum is a sample and none is larger |
| CadenceTracker.WindowIsLast1024 | daemon/src/cadence_tracker.hpp:17-17 | the window is the last 1024 intervals, in order, or all of them |
| CadenceTracker.RingRecords | daemon/src/cadence_tracker.cpp:7-14 | one record keeps the ring in step with the window, while it fills and after it wraps |
| CadenceTracker.RingSorts | daemon/src/cadence_tracker.cpp:16-24 | sorting the live slots in storage order is sorting the window in time order |
| Sorting.SortPrefix | daemon/src/cadence_tracker.cpp:21-22 | in-place sort of a prefix to the sorted permutation, rest untouched |
| Sorting.SortedUnique | daemon/src/cadence_tracker.cpp:20-23 | a multiset has one sorted sequence, so a sorted cache is determined by the live slots |
| Healthz.HandleHealthz | daemon/src/web_ui.cpp:141-150 | 200 exactly when p99 of the window is below 25 ms, that is, when the window is empty or at most n - 1 - floor(99 * n / 100) samples are 25 ms or more; else 503 |
| Healthz.HealthyIffFewSlow | daemon/src/web_ui.cpp:142-143 | healthy exactly when the window is empty or its samples of 25 ms and more are at most n - 1 - floor(99 * n / 100) |
| Healthz.FullWindowTolerance | daemon/src/web_ui.cpp:142-143 | a full window tolerates ten slow intervals and not eleven |
| Healthz.PercentilesOrdered | daemon/src/cadence_tracker.cpp:26-42 | p50 <= p99 <= p999 <= max |
| Healthz.HistoryForgotten | daemon/src/cadence_tracker.cpp:7-14 | after 1024 further records no percentile or verdict depends on anything earlier |
| ControlDataPublisher.ControlDataPublisher.Tick | daemon/src/control_data_publisher.cpp:32-45 | records the truncated interval, moves `last`, and publishes the encoding of the locked view unless it is empty |
| ControlDataPublisher.ControlDataPublisher.Run | daemon/src/control_data_publisher.cpp:28-46 | a run records exactly the intervals between the loop's ticks and publishes, in order, the encoding of the state each tick finds while other threads write |
| ControlDataPublisher.RunDecodes | daemon/src/control_data_publisher.cpp:28-46 | if the other fields leave room, a run publishes one message a tick, and the tester decodes each to the state at its view |
| ControlDataPublisher.OnTimeIsHealthy | daemon/src/control_data_publisher.cpp:28-46 | a publisher on time is healthy at every point of the run and no percentile reaches 25 ms |
| ControlDataPublisher.StallHealed | daemon/src/control_data_publisher.cpp:28-46 | after a stall of any length the verdict is 200 again once lateness has decayed and 1024 intervals passed |
| ControlDataPublisher.IntervalsAddUp | daemon/src/control_data_publisher.cpp:33-37 | n recorded intervals sum to the elapsed time less than n microseconds short |
| ControlDataPublisher.PublishedWordDecodes | daemon/src/control_data_encoder.cpp:21-40 | whatever the other fields are, what is published decodes to the packed word, also when the word is omitted as 0 |
| ControlDataPublisher.PublishedIffFits | daemon/src/control_data_publisher.cpp:40-44 | a message is published exactly when it fits in 256 bytes, with a byte 0x28 and the word as a varint between the other fields |
| ControlDataPublisher.IntervalsAre | daemon/src/control_data_publisher.cpp:33-37 | each interval is the whole microseconds since the tick before |
| ControlDataEncoder.PackControlWord | daemon/src/control_data_encoder.cpp:8-19 | the successive shifts, masks and ors produce the positional layout |
| ControlDataEncoder.UnpackControlWord | daemon/src/control_data_encoder.hpp:34-43 | the documented masks recover every field, alliance modulo 16, watchdog equal to enabled |
| DaemonTester.DecodeControlWord | sample-robot/src/main/java/DaemonTester.java:106-146 | the nested loops compute the scan of the array for every array |
| DaemonTester.ReadVarintAt | sample-robot/src/main/java/DaemonTester.java:130-135 | the accumulating loop reads one varint, bits shifted modulo 32 |
| DaemonTester.ReadEncoded | sample-robot/src/main/java/DaemonTester.java:114-122 | reading an encoded 32-bit number returns it and the bytes after it |
| DaemonTester.ScanSkips | sample-robot/src/main/java/DaemonTester.java:124-143 | every well-formed field other than ControlWord is skipped exactly |
| DaemonTester.VarintPassed | sample-robot/src/main/java/DaemonTester.java:125-127 | wire type 0 passes one varint, for every tag byte but that of field 5 |
| DaemonTester.LengthPassed | sample-robot/src/main/java/DaemonTester.java:127-136 | wire type 2 passes a length and that many bytes, for every tag byte |
| DaemonTester.FixedPassed | sample-robot/src/main/java/DaemonTester.java:137-140 | wire type 1 passes eight bytes and wire type 5 four, for every tag byte |
| DaemonTester.UnsupportedEnds | sample-robot/src/main/java/DaemonTester.java:141-143 | any wire type other than 0, 1, 2 and 5 ends the scan with 0 |
| DaemonTester.WordAfterTag | sample-robot/src/main/java/DaemonTester.java:103-123 | a byte 0x28 introduces the word |
| DaemonTester.WordCutOff | sample-robot/src/main/java/DaemonTester.java:114-122 | a word cut off after k bytes is read modulo 128^k |
| DaemonTester.LengthStrays | sample-robot/src/main/java/DaemonTester.java:136-136 | a length that carries the index past the largest int is answered by `Stray` |
| DaemonTester.OverlongExample | sample-robot/src/main/java/DaemonTester.java:118-118 | the sixth byte of an overlong varint is shifted by 35 modulo 32 |
| DaemonTester.ControlWordFound | sample-robot/src/main/java/DaemonTester.java:106-146 | after any such fields and before any bytes, the first field-5 varint is returned |
| DaemonTester.ControlWordAbsent | sample-robot/src/main/java/DaemonTester.java:145-145 | without one the result is 0 |
| DaemonState.DaemonState.SetEnabled | daemon/src/daemon_state.cpp:5-8 | one atomic write of one field |
| DaemonState.DaemonState.SetMode | daemon/src/daemon_state.cpp:10-13 | one atomic write of one field |
| DaemonState.DaemonState.SetAlliance | daemon/src/daemon_state.cpp:15-18 | one atomic write of one field |
| DaemonState.DaemonState.SetEStop | daemon/src/daemon_state.cpp:20-23 | one atomic write of one field |
| DaemonState.DaemonState.SetMatchTime | daemon/src/daemon_state.cpp:25-28 | one atomic write of one field |
| DaemonState.DaemonState.SnapshotControl | daemon/src/daemon_state.cpp:30-42 | the view after all writes so far, always DsConnected, never FmsConnected |
| DaemonState.SettingSeen | daemon/src/daemon_state.cpp:5-42 | every view shows the last call of each of the five setters, whatever the others were called with |
| DaemonState.UnsetIsInitial | daemon/src/daemon_state.cpp:30-42 | a setter never called leaves its field disabled, Unknown or 0; DsConnected is always set, FmsConnected and SupportsOpModes never |
| GamepadIngest.GamepadIngest.Tick | daemon/src/gamepad_ingest.cpp:47-69 | the setter calls of a tick, in order: all on the first, only changed topics afterwards |
| GamepadIngest.TickEffect | daemon/src/gamepad_ingest.cpp:13-69 | field by field, what a tick does: 1, 2, 3 are Auto, Teleop, Test and anything else Unknown; the alliance is narrowed to 32 bits |
| GamepadIngest.TickWritesInOrder | daemon/src/gamepad_ingest.cpp:47-69 | enabled, mode, alliance, e-stop, each at most once |
| SharedWriters.TickIsFourPolls | daemon/src/gamepad_ingest.cpp:47-69 | a tick is four atomic polls in a row |
| SharedWriters.PollWritesIffNews | daemon/src/gamepad_ingest.cpp:47-69 | a poll writes exactly when it is the first of its topic or saw it change |
| SharedWriters.LastWriterWins | daemon/src/gamepad_ingest.cpp:47-69 | in every interleaving with other writers, each field holds the last write that counts, told from the acts alone |
| SharedWriters.SettingSurvives | daemon/src/gamepad_ingest.hpp:42-44 | polls that see nothing new never undo another thread's setting |
| SharedWriters.AllianceOnTheWire | daemon/src/gamepad_ingest.cpp:58-62 | what alliance is published after a web or gamepad write, and exactly when a gamepad value is published as it is |
| SharedWriters.AllianceOutOfRangeExample | daemon/src/gamepad_ingest.cpp:58-62 | a gamepad alliance of 4 is published as 4 |
| WebUi.WebUi.HandleSetControl | daemon/src/web_ui.cpp:169-203 | the setter calls a body causes, in order |
| WebUi.WebUi.HandleMatch | daemon/src/web_ui.cpp:152-167 | the match event a body causes, or nothing for an unknown verb |
| WebUi.VerbIsFirstAction | daemon/src/web_ui.cpp:152-160 | the verb obeyed is that of the first pair whose key ends in "action" |
| WebUi.VerbIsLookupIffNotHijacked | daemon/src/web_ui.cpp:152-160 | that is the verb splitting would read if and only if no longer key with that ending comes first and names another verb |
| WebUi.HijackedExample | daemon/src/web_ui.cpp:152-160 | a body without an action that starts a match |
| WebUi.MatchFormObeyed | daemon/src/web_ui.cpp:152-167 | by the string posted, a match form starts Auto now, resets the clock, starts Teleop now with the match start back-dated, or does nothing |
| WebUi.MatchFormTellsRobot | daemon/src/web_ui.cpp:152-167 | by the string posted, the robot is enabled in Auto, disabled, or enabled in Teleop |
| WebUi.FormRoundTrip | daemon/src/web_ui.cpp:169-203 | posting any distinct settings in any order sets exactly those fields |
| WebUi.NumbersPosted | daemon/src/web_ui.cpp:188-202 | whatever numbers a form gives, mode outside 0..3 is Unknown and alliance is clamped; numbers too large for an int count as 0 |
| WebUi.FormIsEffect | daemon/src/web_ui.cpp:169-203 | a body over the four keys, repeated or not, in any order, does what splitting it would say |
| WebUi.KeysNeverShadowed | daemon/src/web_ui.cpp:171-180 | none of the four keys can be matched inside another |
| WebUi.FormEffect | daemon/src/web_ui.cpp:182-202 | the effect of any body, field by field: "true" and "1" are on, 1, 2, 3 are Auto, Teleop, Test, the alliance is clamped; empty values leave a field alone |
| WebUi.FormWritesInOrder | daemon/src/web_ui.cpp:182-202 | enabled, e-stop, mode, alliance, each at most once |
| WebUi.FromCharsOfDecimal | daemon/src/web_ui.cpp:188-202 | a decimal number that fits an int is read up to the first character that is not a digit; one that does not fit is read as 0 |
| WebUi.NotANumber | daemon/src/web_ui.cpp:188-202 | without a digit at the start, or after a minus sign, a value is read as 0 |
| WebUi.FormKeepsRange | daemon/src/web_ui.cpp:195-202 | any body keeps the alliance in 0..3 and never sets the match time |
| FormBody.ExtractIsFirstEnding | daemon/src/web_ui.cpp:171-180 | from any rendered body the extractor reads the first pair whose key ends with the key, if it is that key |
| FormBody.ExtractIsLookupIffNotShadowed | daemon/src/web_ui.cpp:170-180 | that is what splitting would read if and only if no longer key with the same ending hides it |
| FormBody.ShadowedExample | daemon/src/web_ui.cpp:170-180 | a body whose mode setting is ignored |
| LibgpiodBackend.LibgpiodBackend.ReleaseLine | daemon/src/libgpiod_backend.cpp:27-32 | the line is no longer held; a no-op if it was not |
| LibgpiodBackend.LibgpiodBackend.RequestInput | daemon/src/libgpiod_backend.cpp:34-39 | the line is held as an input |
| LibgpiodBackend.LibgpiodBackend.RequestOutput | daemon/src/libgpiod_backend.cpp:41-47 | the line is held as an output at the initial value |
| LibgpiodBackend.LibgpiodBackend.SetValue | daemon/src/libgpiod_backend.cpp:49-53 | a held output is driven; otherwise nothing happens |
| LibgpiodBackend.LibgpiodBackend.GetValue | daemon/src/libgpiod_backend.cpp:55-59 | the wire of a held input, the level of a held output, false if not held |
| LibgpiodBackend.ReadsBack | daemon/src/libgpiod_backend.cpp:27-59 | an input reads its wire, an output what it was driven to last, a line not held low |
| SmartIoChannel.SmartIoChannel.OnTypeChanged | daemon/src/smartio_state.cpp:9-42 | new mode and the exact release and request operations of every transition |
| SmartIoChannel.SmartIoChannel.OnValset | daemon/src/smartio_state.cpp:44-51 | the value is always remembered and driven only in output mode |
| SmartIoChannel.SmartIoChannel.SampleInput | daemon/src/smartio_state.cpp:53-58 | reads the line in input mode, false otherwise |
| SmartIoChannel.TypeOpsHold | daemon/src/smartio_state.cpp:9-42 | a type change keeps the backend holding what the mode says and leaves other pins alone |
| SmartIoBridge.SmartIoBridge.Tick | daemon/src/smartio_bridge.cpp:50-69 | every channel's state, last values and published sample after the tick, and all operations in order |
| SmartIoBridge.SmartIoBridge.ChannelsConfigured | daemon/src/smartio_bridge.cpp:71-77 | the number of channels not unconfigured |
| SmartIoBridge.SmartIoBridge.constructor | daemon/src/smartio_bridge.cpp:13-35 | for any pins, channels start unconfigured with sentinel last values; in step with the backend exactly when no pin is repeated or already held |
| SmartIoBridge.GlueOpsHold | daemon/src/smartio_bridge.cpp:51-68 | one channel's poll keeps the backend in step with it and leaves other pins alone |
| SmartIoBridge.PollPublishes | daemon/src/smartio_bridge.cpp:62-67 | an input publishes 255 for a high wire and 0 for a low one, any other channel nothing |
| SmartIoBridge.FirstValuesTakeEffect | daemon/src/smartio_bridge.cpp:10-61 | -9999 is no value; any other takes effect on a fresh channel |
| SmartIoRuns.RunHolds | daemon/src/smartio_bridge.cpp:50-69 | after every tick the held lines are those of configured channels, in direction and level; other lines untouched |
| SmartIoRuns.SuppressionRefines | daemon/src/smartio_bridge.cpp:52-61 | modes, outputs, samples and lines equal those of a bridge that dispatches every value every tick |
| SmartIoRuns.FlattenDetermined | daemon/src/smartio_bridge.cpp:50-69 | two operation sequences that carry every channel between the same states lead to the same lines |
| SmartIoRuns.ModeIsLastType | daemon/src/smartio_state.cpp:9-27 | a channel is an input if its most recent type is 0 modulo 2^32, an output if 1, else unconfigured, and exactly when that is what the 64-bit type asks for |
| SmartIoRuns.ValgetIsReadings | daemon/src/smartio_bridge.cpp:62-67 | over a run a channel publishes exactly the 255 and 0 readings of the ticks in which its most recent type asks for an input |
| SmartIoRuns.NarrowedTypeExample | daemon/src/smartio_bridge.cpp:52-56 | a type of 2^32 configures an input |
| SmartIoRuns.NarrowedValsetExample | daemon/src/smartio_bridge.cpp:57-61 | a nonzero valset of 2^32 drives its output low |
| SmartIoRuns.OutputIsLastCommand | daemon/src/smartio_state.cpp:44-51 | an output line is at its last valset, across mode flips, low if none; exactly when that agrees with the 64-bit value being nonzero |
| SmartIoLines.RunTracked | daemon/src/smartio_state.cpp:9-58 | a pin's operations are (request, matching gets or sets, release) repeated, ending held as the mode says |
| SmartIoLines.ProperUse | daemon/src/libgpiod_backend.cpp:27-59 | under proper use requests exceed releases by one exactly while the backend holds the line, in the requested direction |
| SmartIoLines.EveryOperationFindsItsLine | daemon/src/libgpiod_backend.cpp:34-47 | every operation of a run finds its line as it should; the backend's defensive release finds nothing |
| SmartIoLines.RequestsBalance | daemon/src/smartio_state.cpp:9-42 | requests minus releases is 1 exactly for configured channels |
| SmartIoLines.ConfiguredCountIsHeldLines | daemon/src/smartio_bridge.cpp:71-77 | the configured count is the number of bridge lines held |
| RslBlinker.RslBlinker.Start | daemon/src/rsl_blinker.cpp:13-17 | the line is requested as an output, on |
| RslBlinker.RslBlinker.Stop | daemon/src/rsl_blinker.cpp:19-25 | the line is released if the blinker was started, otherwise nothing happens |
| RslBlinker.RslBlinker.Tick | daemon/src/rsl_blinker.cpp:39-48 | after every tick the line is at the level wanted now, written only on change |
| RslBlinker.LevelWanted | daemon/src/rsl_blinker.cpp:27-33 | solid on while disabled; while enabled, on for the first 500 of every 1000 milliseconds |
| RslBlinker.LineFollows | daemon/src/rsl_blinker.cpp:35-48 | over a run that writes only on change the line is always at the level wanted last |
| RslBlinker.WritesAlternate | daemon/src/rsl_blinker.cpp:44-47 | the first write is off and consecutive writes differ |
| RslBlinker.AsIfAlone | daemon/src/main.cpp:113-117 | however two threads' operations on different pins interleave, each line is as if its thread were alone |
| RslBlinker.BridgeAndLight | daemon/src/main.cpp:113-117 | in every interleaving of a bridge run with the light's writes, bridge lines are held as the channels say and the light is at the level wanted last |
| RslBlinker.BridgeBesideLight | daemon/src/smartio_bridge.cpp:50-69 | a bridge tick leaves the light's line as it is and the bridge in step |
| RslBlinker.LightBesideBridge | daemon/src/rsl_blinker.cpp:39-48 | a light tick leaves every channel in step with its line |
| RslBlinker.HalfTheTime | daemon/src/rsl_blinker.cpp:27-33 | while enabled any 1000 consecutive milliseconds have exactly 500 with the light on |

## Left out

- NetworkTables, the HTTP server and libgpiod: topics are streams of values, forms are strings, lines are a map from pin to direction and level.
- nanopb: the encoder is modelled by the protobuf wire rules, with the fields other than ControlWord (match time among them, whose number is in `MrcComm.proto`, not part of this model) as arbitrary well-formed fields.
- DaemonTester.DecodeControlWord: for a length whose top bit is set, or a skip of any kind that carries the index past 2^31, the model answers `Stray` and does not say what the program does next. Fields numbered 16 and above (tags of several bytes) get no theorem.
- CadenceTracker.CadenceTracker.PercentileMs: the fraction is an exact rational and the result a real, so double rounding is not modelled; the epoch is unbounded, so its wrap-around is not modelled. Reads from other threads are not modelled.
- MatchTimeline.RoundingsAgree: requires the instant not to precede the phase start (MatchTimeline.PhaseHasStarted), and is about the seconds before narrowing to 32 bits; MatchTimeline.MatchTimeCountsDown bounds the duration so that narrowing loses nothing.
- PeriodicTask.RunPeriodic: the tick is represented by the instant it is called at; the environment is a finite script after which the thread is taken to be stopped.
- MatchOnSchedule.MatchOnTime: durations are positive and times do not decrease from event to event. The code reads the clock before it takes the lock (daemon/src/match_controller.cpp:25, 89, 109), so two threads can take the lock out of order; MatchTimeline.NeverAhead and MatchTimeline.ThreeTicksSuffice hold without that.
- LibgpiodBackend.LibgpiodBackend.SetValue: driving a line held as an input is a no-op in the model; SmartIoLines.EveryOperationFindsItsLine shows the bridge never does it. Exceptions from line requests are not modelled.
- The backend's map is used by two threads without a lock; the model takes its operations one at a time.
- SmartIoBridge.SmartIoBridge.Tick: pins given twice, or held by somebody else when the bridge starts, are not modelled past the constructor; the daemon's own mapping has neither.
- Percent-decoding in forms: the extractor does none, and values are taken without the two separators.
- The page itself, JSON, IMU, diagnostics, system service, start-up and shutdown, thread joining and signals: plumbing without an invariant.
