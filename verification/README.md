# OBC-Zero in Dafny

OBC-Zero is a bare-metal flight core in C with host-side checkers in Python that say what
the flight code must do.  The host runs a finite number of cases; this project states the
same promises for every case and proves them.  `dafny verify dfyconfig.toml` checks it all.

Four machines and the word-level arithmetic under them are modelled.  Code that changes
state step by step is a class whose methods are proved against specification functions;
the theorems about whole runs are lemmas over those functions.

**The executive and the ladder** (`TraceCheck`, `Ladder`, `Window`, `Replay`, `Waiting`,
`Sched`, `SchedRuns`, `HostVerdict`, `Feeds`, `SchedWitness`).  `Sched.Executive` runs one
window of the cyclic executive against any clock, any cost of each dispatch and any votes on
the mode.  A window that ends well is proved to have waited out every frame, reading by
reading, and to have dispatched, overrun and withheld exactly what `Replay.Play` computes from
the task table, the costs and the mode, the mode being told from the clock; any other end has
its cause.  `Replay.PlayTracked` proves that run to be the sequence `expected_trace` derives
from the table less what was withheld.  From there the project says, in terms of table, costs
and clock, exactly when the host's checks of the run pass and in which frames the watchdog
was fed.

**The boot sequence** (`FaultRecord`, `BootRecords`, `Mission`).  `Mission.Vehicle` runs
the records that survive a reset through one boot and can die between any two stores; the
theorems are about every sequence of boots.

**The voter** (`Bits`, `Critical`).  Three checksummed copies, voted and repaired: what
self-repair keeps over any run of corruption, and what corruption cannot forge, at 32 bits.

**The command path** (`CmdTable`, `CmdQueue`, `CmdFrame`, `Uplink`, `CmdRuns`, `CmdEffects`,
`CmdTiming`, `CmdArming`, `CmdSchedule`).  Bytes to frames, ordered checks, replay counter,
time-tagged queue, arm-then-execute and what the executed commands did, against the ground's
frame builder, and driven by the frames and times a window of the executive supplies.

**The telemetry path** (`Sensor`, `TlmLayout`, `TlmEmit`, `Downlink`, `TlmDecode`,
`TlmCheck`, `TlmRuns`), with the timer (`Mtime`) and the shared integrity word (`FrameSum`) beside it.
From sensor readings to the values the ground decodes, and the ground's sequence check.

Words are integers of their width with wrap and saturation written out (`Words`).  Devices
are arbitrary functions from the number of an access to what it returns.

## Where the code is not what its text or its checkers say

Each of these is proved as a condition that holds if and only if the promise does, with a
concrete run on which it fails where one is named.

- The suspension log does not let the checker tell a rung-2 entry from a withheld dispatch:
  a run that reset a subsystem fails the order check, and with frame numbers inside a byte
  and never two suspensions pending only such a run does
  (`SchedRuns.OrderHoldsExactlyWhen`; run: `SchedWitness.ResetFailsOrder`).
- Only the latest suspension is remembered.  The trace matches the announcements exactly
  when each one for a live slot of the window still stood when its slot came
  (`SchedRuns.TraceMatchesExactlyWhen`).  Two tasks that overrun in the same frame are both
  announced, and the first one runs (run: `SchedWitness.TwoPendingLosesOne`).
- The log keeps the low byte of a frame number, and every rung.  For windows of up to 256
  frames the expectation drawn from it is right exactly when each entry for a live slot of
  the window is an uncut suspension that stood (`SchedRuns.LogTellsExactlyWhen`; run:
  `SchedWitness.NarrowFrameFailsOrder`).
- An overrun in a task's last due frame announces a suspension after the window closes, and
  `check_suspensions` rejects that run (`SchedRuns.AnnouncementsPassExactlyWhen`,
  `HostVerdict.AllChecksPassExactlyWhen`; run: `SchedWitness.LastFrameFailsAnnouncements`).
- A boot that starts safe runs the essential subset in frame 0, for which `expected_trace`
  wants the full table (`HostVerdict.SafeOrderExactlyWhen`; run:
  `SchedWitness.SafeStartFailsOrder`).
- A suspension that was honoured and then replaced in the same frame costs that frame its
  watchdog feed, and so does one for a due task that safe mode no longer runs
  (`Feeds.FedExactlyWhen`; run: `SchedWitness.HonouredThenReplacedIsNotFed`).
- `recover.c` says a healthy executive always feeds within the watchdog's four frames.  With the
  shipped table that holds of every finished window (`Feeds.ShippedFedInTime`).  With another it
  need not: a nominal window leaves four frames in a row unfed only if five tasks overran
  (`Feeds.NominalFourUnfed`), and five tasks due in every frame that overrun once each do
  (`Feeds.FourUnfedExactlyWhen`; run: `SchedWitness.FiveTasksLoseFour`).
- `recover.h` says rung 1 withholds the next frame; the code withholds the next due frame,
  and so does the model.
- `queue.h` says the command immediately before a critical one must have armed it.  The code
  lets an arm survive other commands until it expires or another arm or a queue reset
  replaces it (`CmdArming.CriticalNeedsRecentArm`).
- `queue.h` says nothing but start-up empties the queue; the task table makes it the command
  task's rung-2 reset, and the model has both.
- A command tagged 0, which asks for the next frame, counts as late once the clock is past
  1024, and any tag within 1024 of the top of the clock always does (`CmdArming.LateMeans`).
- A frame dropped right after a telemetry reset makes `check_sequence` report a loss that
  did not happen (`TlmCheck.PairAcceptedExactlyWhen`, over whole runs
  `TlmRuns.SequenceAcceptedExactlyWhen`; run: `TlmCheck.CongestedResetLooksLost`).
- The trap handler does not clear the magic first, so over a record that was never consumed
  a cut can leave a believed mixture of two faults (`FaultRecord.TornOverUnconsumed`,
  `FaultRecord.TornRecordCanBeBelieved`).

## Hypotheses

- `Sched.Executive.Ideal`: every row of the table has a body to call, no vote on the mode
  fails, and a boot whose streak has run out has started safe, which
  `Mission.FiveShortBootsStartSafe` proves of the boot sequence.  Only the statements about
  the trace, the mode and the feeds need it: the wait for each boundary, the overruns as the
  dispatches over budget, the accounts and the log hold without it.
- `Ladder.OneAtATime`: each rung-1 overrun comes after the slots earlier suspensions named,
  and no next due frame passes 2^32.  Only the simpler corollaries use it; the exact
  conditions do not.
- `Mission` starts from records that hold no streak, as at a cold boot.
- `CmdArming.EveryFrame`: the command task is dispatched in every frame, and fewer than
  2^32 - 256 frames have passed.  `CmdSchedule` shows the executive provides the frames and
  the times.

## Model

| member | source | states |
|---|---|---|
| TraceCheck.ExpectedTrace | harness/runner/trace_check.py:160-192 | the nested loops build exactly the specified sequence, degraded from the frame after the recorded entry |
| TraceCheck.CheckOrder | harness/runner/trace_check.py:279-300 | passes iff the traces are equal; otherwise names a length mismatch or the first position that differs |
| TraceCheck.CheckConformance | harness/runner/trace_check.py:236-276 | passes iff nothing overflowed, every frame ran, the span is 1024 ticks a frame modulo 2^32 and every count is the number of times the task occurs in the expected sequence |
| TraceCheck.CheckSuspensions | harness/runner/trace_check.py:195-233 | reports an overflowed log, and exactly the announcements for an unknown task, a frame outside the window, or a frame where the task was not due |
| TraceCheck.ExpectedAgrees | harness/runner/trace_check.py:174-192 | only announcements for live slots inside the window can change the expected sequence |
| TraceCheck.LargerLogAgreesExactlyWhen | harness/runner/trace_check.py:174-192 | a log that names everything withheld gives the right expectation iff it names no other live slot |
| TraceCheck.CleanRunCounts | harness/runner/trace_check.py:236-276 | with nothing withheld task i appears exactly frames / period times when the period divides the window |
| TraceCheck.DueCountIsQuotient | flight/core/sched.c:217-232 | the number of frames a period divides is the window over the period, rounded up, for any window |
| TraceCheck.ExpectedFits | flight/core/sched.c:217-232 | no window dispatches more than each row's window over its period, rounded up |
| TraceCheck.BuildSumSuffices | flight/core/tasks.c:254-260 | with every period dividing the window, as the build also demands, the rounded-down sum it checks keeps every window inside the trace |
| TraceCheck.SafeStartAgreesExactlyWhen | harness/runner/trace_check.py:175-181 | for entry frame 0 the checker and a run degraded from frame 0 agree iff frame 0 owes nothing but essential tasks |
| Ladder.EachRungOnce | flight/core/sched.c:114-138 | below overrun wrap each task logs one rung-1 entry iff it overran and one rung-2 entry iff it overran twice and has a reset |
| Ladder.RungsNeverGoDown | flight/core/sched.c:129-136 | below overrun wrap a task's rungs never go down |
| Ladder.LogNeverOverflows | flight/core/recover.c:154-168 | with at most eight tasks, none past the wrap of its own counter, any run of overruns announces at most sixteen entries |
| Ladder.EntriesNameDueSlots | flight/core/recover.c:172-191 | every announcement whose frame did not go round names a frame in which its task is due, never merely the next frame |
| Ladder.NextDueIsNext | flight/core/recover.c:172-191 | below wrap the frame a suspension names is the first one after this in which the task is due |
| Ladder.PendingIsLatest | flight/core/recover.c:187-188 | the suspension remembered is the one the latest rung-1 overrun made |
| Ladder.StandsIsPending | flight/core/recover.c:149-152 | when its slot comes a suspension is the one remembered iff it lay ahead and no later rung-1 overrun came before the slot |
| Window.WithholdKeeps | flight/core/sched.c:230-236 | withholding the pending slot keeps trace, gaps and announcements in agreement with the table |
| Window.RunKeeps | flight/core/sched.c:217-238 | dispatching a live slot that is not pending extends the trace by exactly what the table dictates |
| Window.OverrunKeeps | flight/core/sched.c:91-140 | dispatching a slot and climbing for it extends the trace by what the table dictates and decides only slots still to come |
| Replay.PlayTracked | flight/core/sched.c:195-250 | for every table, costs and mode the run they lead to dispatches the table less what is withheld, and the overruns before each slot decide what is withheld |
| Replay.DegradeKeeps | flight/core/sched.c:258-266 | entering safe mode at a frame boundary changes nothing about the run before it |
| Replay.PlayToGrows | flight/core/sched.c:195-239 | the overruns up to any slot of a window are the first of the whole window's |
| Replay.CleanExactlyWhen | flight/core/sched.c:104-116 | a window sees no overrun iff every dispatch of the table's own sequence, at its place in it, costs no more than its budget; then nothing is withheld |
| Waiting.KeptByOne | flight/core/sched.c:195-301 | the clock alone decides every frame's published time, slack and readings |
| Waiting.FirstLateExactlyWhen | flight/core/sched.c:257-266 | a frame is the first late one iff its slack reading was at the deadline or past it and none before was |
| Waiting.SlackMeans | flight/core/sched.c:257-272 | a frame's slack is what is left to its deadline, and nothing at it or past it |
| Waiting.LateFramesCounts | flight/core/sched.c:257-266 | the frame overruns are the number of frames whose slack reading was at the deadline or past it |
| Waiting.LeastSlackMeans | flight/core/sched.c:267-272 | the least slack is at most every frame's and is one frame's, or the whole minor frame |
| Window.HistoryKept | flight/core/sched.c:195-250 | one more frame keeps every dispatch stamped with its frame and time, and the feeds those that were earned |
| Sched.Executive.constructor | flight/core/sched.c:18-35 | the state a boot leaves for the executive |
| Sched.Executive.ModeIsSafe | flight/core/mode.c:31-45 | a failed vote is answered safe without changing the mode, and the mirror shows the answer |
| Sched.Executive.SchedNow | flight/core/sched.c:152-161 | an unsettled clock degrades a system that is not already safe and records the frame |
| Sched.Executive.TracePush | flight/core/sched.c:64-78 | the buffer holds the first 256 dispatches and the overflow counter the rest |
| Sched.Executive.LogSuspension | flight/core/recover.c:154-168 | the log holds the first sixteen announcements narrowed to bytes and the overflow counter the rest |
| Sched.Executive.Escalate | flight/core/recover.c:170-236 | rung 1 remembers and announces the next due slot, rung 2 announces and resets the subsystem, rung 3 resets the machine below five short boots and goes safe from five on |
| Sched.Executive.Account | flight/core/sched.c:104-116 | runs, worst cost and overruns of the one task move and no other account does, and the overrun number it gives is the count so far |
| Sched.WorstMeans | flight/core/sched.c:104-116 | the worst cost of a task is that of one of its dispatches and no dispatch of it cost more |
| Sched.Executive.Dispatch | flight/core/sched.c:91-140 | one dispatch pushes, charges the next cost and climbs exactly when it exceeds the budget; the overruns so far are the dispatches over budget, and the machine is reset iff one reached rung 3 below five short boots; a row without a body does nothing |
| Sched.Executive.RunSlot | flight/core/sched.c:217-238 | a slot is due, withheld or run exactly by period, mode and pending suspension, and the run stays the one table, costs and mode lead to |
| Sched.Executive.DispatchFrame | flight/core/sched.c:215-239 | every due task in table order at the frame's published time; at most one is withheld, and it was suspended for this frame when it began |
| Sched.Executive.SuspendedThisFrame | flight/core/sched.c:45-62 | counts one exactly when the remembered suspension is for this frame and a task due in it |
| Sched.Executive.FeedIfEarned | flight/core/sched.c:241-250 | the watchdog is fed iff a withheld task's suspension is still the remembered one, or nothing was withheld and none is remembered for a due task |
| Sched.Executive.CheckDeadline | flight/core/sched.c:257-272 | slack or a counted overrun, and an overrun degrades the system from the next frame on, with the entry frame recorded |
| Sched.Executive.Measure | flight/core/sched.c:252-272 | one reading measures the slack; an unsettled one ends the window |
| Sched.Executive.Idle | flight/core/sched.c:280-291 | success means a reading at or past the deadline and none before it; a timeout means 8388608 readings all short of it |
| Sched.Executive.WaitOut | flight/core/sched.c:274-301 | the frame is recorded as measured and waited out by these readings, and counted |
| Sched.Executive.RunFrame | flight/core/sched.c:195-301 | publishes the frame's time before any dispatch, keeps the run, measures its slack at one reading and waits through readings short of the deadline to one that reaches it |
| Sched.Executive.RunWindow | flight/core/sched.c:163-306 | an OK window waited out every frame on the absolute schedule, spans its ticks exactly, counts its late frames and dispatched and overran what table, costs and clock lead to; unstable, timeout and reset each mean the reading, the deadline or the climb that caused them |
| Sched.Executive.Run | flight/core/sched.c:316-324 | the watchdog is armed on return only if rung 3 never came back |
| SchedRuns.WindowIsReplay | flight/core/sched.c:163-306 | a finished window dispatched, overran and withheld exactly what its table, its costs and its mode lead to, and the mode follows from the clock |
| SchedRuns.SafeEntryExactlyWhen | flight/core/sched.c:257-266 | the recorded entry frame of a window entered nominal is the first late frame on the clock, none if no frame was late, and then none is counted |
| SchedRuns.NoTopReached | flight/core/recover.c:216-236 | below five short boots no window ends well if the run its environment leads to climbs to rung 3 |
| SchedRuns.ResetMeans | flight/core/recover.c:216-236 | and one ends by a machine reset only if the run its environment leads to climbs to rung 3 |
| SchedRuns.TwoRunsAgree | harness/runner/trace_check.py:320-351 | two windows of one table over one clock and the same costs end with equal traces, counts, worst costs, slack, late frames and feeds |
| SchedRuns.WindowFollowsTable | flight/core/sched.c:163-306 | a finished window dispatched the table's sequence less what was withheld, and every gap had been announced |
| SchedRuns.WindowBelowWrap | flight/core/sched.c:114-116 | in one window no overrun counter goes round |
| SchedRuns.TraceMatchesExactlyWhen | flight/core/recover.c:187-191 | the trace is the expectation over the rung-1 announcements iff every suspension for a live slot of the window stood until its slot |
| SchedRuns.OneAtATimeMatches | flight/core/sched.c:163-306 | with never two suspensions pending the trace equals that expectation |
| SchedRuns.LogTellsExactlyWhen | flight/core/recover.c:154-168 | up to 256 frames the expectation from the byte-wide log is the real trace iff each entry for a live slot of the window is an uncut suspension that stood |
| SchedRuns.OrderHoldsExactlyWhen | harness/runner/trace_check.py:160-192 | with room for frame numbers and never two suspensions pending the order check passes iff no subsystem was reset |
| SchedRuns.AnnouncementsPassExactlyWhen | harness/runner/trace_check.py:217-231 | an announcement passes the host's check iff its frame lies inside the window |
| HostVerdict.HostAcceptsExactlyWhen | harness/runner/trace_check.py:195-300 | entered nominal: order and conformance pass iff every logged entry is harmless, and the announcements pass iff each is for a due slot of the window |
| HostVerdict.AllChecksPassExactlyWhen | harness/runner/trace_check.py:354-364 | with frame numbers that fit and never two suspensions pending all checks pass iff no subsystem was reset and every announced frame is inside the window |
| HostVerdict.ExecutivePassesExactlyWhen | flight/core/sched.c:163-306 | the verdict on the memory an OK window leaves, entered nominal or safe, told from table, costs and clock |
| HostVerdict.CleanWindowCounts | flight/core/sched.c:163-306 | a nominal window never late on the clock, whose table's own dispatches all fit their budgets, ran task i exactly frames / period times and fed the watchdog in every frame |
| HostVerdict.SafeWindowAgreesExactlyWhen | flight/core/sched.c:189-193 | a window entered safe matches the checker's mode iff every task that runs at all is essential |
| HostVerdict.SafeOrderExactlyWhen | harness/runner/trace_check.py:175-181 | against the expectation drawn from its log a window entered safe matches iff every task that runs at all is essential and every logged entry is harmless, or it is empty |
| HostVerdict.SafeHostAcceptsExactlyWhen | harness/runner/trace_check.py:195-300 | entered safe: the whole verdict, in the same terms |
| HostVerdict.LogIsComplete | flight/core/recover.c:154-168 | nothing announced in a window is missing from the log, whatever the votes said |
| Feeds.FedExactlyWhen | flight/core/sched.c:241-250 | a frame was fed iff, in the run table, costs and clock lead to, it withheld a task exactly if it ended with a suspension for a task due in it |
| Feeds.FourUnfedExactlyWhen | flight/core/recover.c:31-36 | a window leaves four frames in a row unfed exactly where that run loses four feeds |
| Feeds.UnfedMeans | flight/core/sched.c:241-250 | a frame all of whose due tasks may run goes unfed only if a suspension made in it replaces an earlier one of a task due in it |
| Feeds.NominalFourUnfed | flight/core/recover.c:31-36 | in a nominal window four unfed frames in a row take overruns of five different tasks, and so a table of five rows at least |
| Feeds.OneOddUnfed | flight/core/recover.c:31-36 | where only two rows are due in odd frames, at most one odd frame goes unfed |
| Feeds.ShippedFedInTime | flight/core/tasks.c:210-218 | with the shipped table no finished window leaves four frames in a row unfed, whatever budgets, costs, clock and mode |
| SchedWitness.Demonstrate | flight/core/sched.c:316-324 | for any table and positive costs that never reach rung 3, the executive runs to the end of the window on a clock that is never late, entered nominal or safe |
| SchedWitness.TwoPendingLosesOne | flight/core/recover.c:43-44 | costs 1001 1001 500 on budgets of 1000: both tasks overrun in frame 0, only the second is withheld, the window dispatches 0 1 0 and the announcements expect 0 1 |
| SchedWitness.ResetFailsOrder | flight/core/recover.c:194-214 | a task that overruns twice and is reset fails the order check though every other condition holds |
| SchedWitness.LastFrameFailsAnnouncements | harness/runner/trace_check.py:219-224 | one overrun in the only frame passes the order check and fails the announcement check |
| SchedWitness.NarrowFrameFailsOrder | flight/core/recover.c:164-165 | the second dispatch of a task of period 128 over budget: a suspension for frame 256 is logged for frame 0 and fails the order check |
| SchedWitness.HonouredThenReplacedIsNotFed | flight/core/sched.c:241-250 | the first and third dispatch over budget: a suspension honoured and replaced in frame 1 leaves it without its feed |
| SchedWitness.FiveTasksLoseFour | flight/core/recover.c:31-36 | every fifth dispatch over budget: five tasks overrun once each and frames 1 to 4 go unfed |
| SchedWitness.SafeStartFailsOrder | harness/runner/trace_check.py:175-181 | a window entered safe dispatches nothing where the checker expects the non-essential task |
| Critical.Voter.Set | flight/core/critical.c:76-86 | all three copies hold the value with their own checksums |
| Critical.Voter.Vote | flight/core/critical.c:109-166 | answers the value a majority of intact copies holds, rewrites dissenters and counts them, or counts a failed vote and at most one event |
| Critical.Voter.Scrub | flight/core/critical.c:176-193 | a vote without a reader, with the same repairs |
| Critical.Voter.ModeIsSafe | flight/core/mode.c:31-45 | no majority is answered safe; with one, the mirror word shows its value and the answer is safe iff that value is 1 |
| Critical.SelfRepair | flight/core/critical.c:76-193 | with at most one copy overwritten between votes, every read is the last write, every vote leaves three fresh copies, none fails |
| Critical.ModeIsLastSet | flight/core/mode.c:31-45 | with at most one copy overwritten between votes the mode question is answered safe iff the last mode written was safe |
| Critical.RepairsAreRewrites | flight/core/critical.c:135-150 | in any state a vote counts one repair for every copy that was not already the winner with its own checksum, and none without a winner |
| Critical.EventsCountBlocks | flight/core/critical.c:153-165 | under any corruption the event counter counts maximal blocks of failing votes, the failure counter the votes |
| Critical.IdenticalPatternNeverForges | flight/core/critical.c:52-67 | one pattern over two or three copies never yields another value, and a verdict survives iff the pattern is an intact copy of the value |
| Critical.FlipBreaksChecksum | flight/core/critical.c:52-60 | flipping any value bit changes the checksum, at every value and seed |
| Critical.TwoUpsetsGiveNoVerdict | flight/core/critical.c:109-166 | one flipped bit in each of two copies gives no verdict whatever the third holds, so the mode reads safe |
| Mtime.Timer.Read | flight/hal/mtime.c:39-65 | a success is the timer at the low-word read of the first untorn attempt; a failure means all four were torn |
| Mtime.Timer.ReadTwice | flight/hal/mtime.c:39-65 | successive reads never go back |
| Mtime.TwoAttemptsSuffice | flight/hal/mtime.c:46-61 | below 2^32 ticks of movement one of two attempts succeeds |
| Mtime.UnstableMeansImpossiblySlow | flight/hal/mtime.c:46-64 | an unstable result means the timer moved more than 3 * 2^32 |
| Sensor.Sensors.Init | flight/tlm/sensor.c:50-62 | history and flags go, rejection counters stay |
| Sensor.Sensors.Sample | flight/tlm/sensor.c:64-121 | both sensors take one reading; success iff no flag is up afterwards; a reading outside 200-3800 or 100-900 moves its range counter and the eighth equal one in a row its stuck counter, each going round |
| Sensor.StuckIsLongRun | flight/tlm/sensor.c:79-96 | the saturating run counter says stuck iff the last eight readings exist and are equal |
| Sensor.OnlyOwnBits | flight/tlm/sensor.c:108-110 | rewriting one sensor's bits leaves the other's |
| Sensor.FlagsSay | flight/tlm/sensor.c:64-121 | bit by bit: 1 and 8 say out of range, 2 and 16 eight equal readings, 4 and 32 no reading, each of its own sensor |
| Sensor.BothDirections | flight/tlm/sensor.c:98-118 | a sensor is unflagged and carries its last reading iff that is in range and not the last of eight equal ones; otherwise it is flagged and carries 0xFFFF |
| FrameSum.FlightSum | flight/cmd/frame.c:89-99 | the flight loop is the complemented byte total modulo 65535, at any length |
| FrameSum.GroundSum | harness/runner/tlm_decode.py:221-232 | the ground's loop is the same word, with Python's clipping slice |
| FrameSum.WordCompletes | flight/cmd/frame.c:89-99 | the word added to the bytes makes a multiple of 65535, and is all ones iff every byte is zero |
| FrameSum.SingleByteChangesWord | flight/cmd/frame.c:83-99 | changing any one byte changes the word |
| FaultRecord.Memory.ResetWithCause | flight/core/fault.c:110-131 | cut after any store: the old record, none, or the complete new one |
| FaultRecord.Memory.Consume | flight/core/fault.c:133-143 | from its first store on there is no record |
| FaultRecord.Memory.TrapEntry | flight/boot/trap.S:68-130 | the stores of either path, cut anywhere |
| FaultRecord.TrapLeavesNoneOrTheOriginal | flight/boot/trap.S:68-130 | from a consumed record any nest of cut entries reads as none, the complete first cause, or double fault iff a nested entry stored |
| FaultRecord.OneWordShows | flight/core/fault.c:52-108 | records that differ in one payload word have different checksums, whichever word it is |
| FaultRecord.TornOverUnconsumed | flight/boot/trap.S:82-117 | over an unconsumed record a cut before the checksum store is believed iff the payload disturbance cancels |
| FaultRecord.TornRecordCanBeBelieved | flight/boot/trap.S:82-117 | for any record and any new cause there is a fault address that makes the mixture believed |
| BootRecords.WriteBoot | flight/core/recover.c:99-108 | cut after any store: old, unreadable, or complete |
| BootRecords.OneBootWordShows | flight/core/recover.c:77-97 | an intact record whose count or flag is changed in place reads as none |
| BootRecords.WriteMode | flight/core/mode.c:87-92 | cut after any store: old, unreadable, or complete |
| BootRecords.OneModeWordShows | flight/core/mode.c:49-54 | and so does a mode record whose reason is changed in place |
| Mission.Vehicle.EnterSafe | flight/core/mode.c:71-103 | latched: the first reason stays, and the record is complete if the boot lives |
| Mission.Vehicle.Restore | flight/core/mode.c:105-134 | safe iff the last boot trapped or a safe entry is on record, with the trap as the reason in the first case and the recorded one in the second; nominal otherwise |
| Mission.Vehicle.Boot | flight/core/main.c:597-751 | one boot in the order of the steps, dying anywhere, changes the surviving records only as specified; it is healthy iff the executive came back after eight frames at least and the verdict made its first store |
| Mission.CountIsStreak | flight/core/recover.c:110-130 | the count is the length of the streak of unhealthy boots, however they died |
| Mission.NextCount | flight/core/recover.c:132-146 | the next boot starts its count at 0 iff this one came back after eight frames and began the verdict, and finds it one higher otherwise |
| Mission.ShortBootLengthens | flight/core/recover.c:132-146 | a boot of fewer than eight frames always lengthens the streak by one |
| Mission.FiveShortOfEightFrames | flight/core/main.c:743-751 | after five boots that each stop short of eight frames the executive starts safe and never takes rung 3 |
| Mission.AtMostFiveRung3Resets | flight/core/recover.c:216-236 | at most five rung-3 resets without a healthy boot between |
| Mission.FiveShortBootsStartSafe | flight/core/main.c:674-676 | after five unhealthy boots the executive starts safe and never takes rung 3 |
| Mission.SafeModeSurvives | flight/core/mode.c:105-134 | once a boot completed safe entry every later boot starts the executive safe |
| Mission.ReasonTells | flight/core/main.c:597-751 | the reason on record after a safe start is 1 after a trap, else the one already recorded, else 4 after five unhealthy boots, else 5 and the boot's own audit failed |
| Mission.ReasonSurvives | flight/core/mode.c:105-134 | while no boot ends in a trap, an entry on record keeps its first reason and every boot starts the executive safe |
| Mission.SafeStartHasACause | flight/core/mode.c:105-134 | without a trap, a safe entry, a failed audit or five short boots no boot starts safe |
| CmdTable.FindRow | flight/cmd/table.c:76-81 | the lookup loop finds the opcode's row or none |
| CmdTable.LookupIsTable | flight/cmd/table.c:76-81 | an opcode has a row iff the table names it, and then that row is the only one |
| CmdTable.Audit | flight/cmd/frame.c:172-214 | passes iff there is a row, each has a handler and a range that is not empty, no opcode comes twice, and each field starts where the one before ends, from 0 to the frame length |
| CmdTable.ShippedTablePasses | flight/cmd/table.c:76-81 | the shipped table and descriptors pass the audit |
| CmdQueue.CommandQueue.Init | flight/cmd/queue.c:30-44 | empties the queue and drops the arming, keeps the counters |
| CmdQueue.CommandQueue.Put | flight/cmd/queue.c:46-71 | takes the first free slot, refuses when full, never evicts |
| CmdQueue.CommandQueue.Run | flight/cmd/queue.c:85-170 | expires the arm, then up to four passes of oldest first |
| CmdQueue.RunsExactlyTheDue | flight/cmd/queue.c:104-170 | a run executes exactly the due entries, by tag and then by slot, and frees nothing else |
| CmdEffects.RunsByTag | flight/cmd/queue.c:104-170 | the same in words of its own: what left had a tag the time had reached, tags never decrease and slots rise among equals, every such entry left and its slot is free, no other slot moved |
| CmdEffects.EffectsAreTheHistory | flight/cmd/table.c:30-74 | in every reachable state safe mode is requested iff a command 0x13 ran, the stored argument is that of the last 0x11 that ran, and pings and late runs are counted up to the ceiling |
| CmdEffects.SafeNeedsArm | flight/cmd/table.c:46-70 | safe mode is requested only after an arm naming 0x13 ran and then a 0x13 |
| CmdEffects.CounterIsLastAccepted | flight/cmd/frame.c:294-321 | the counter a frame must exceed is the one of the last accepted frame, whatever was refused since |
| CmdFrame.CommandPath.Init | flight/cmd/frame.c:172-227 | a failed audit changes nothing; one that passes clears queue, counters and partial frame and lets frames in |
| CmdFrame.CommandPath.Ingest | flight/cmd/frame.c:241-321 | nothing happens before the audit passed; then the reason is the first failing check in code order and a refusal changes its counter and announced bit only |
| CmdFrame.VerdictMeans | flight/cmd/frame.c:263-321 | for any bytes the reason number is told check by check from the bytes, the table, the last counter, the arming and the slots, in the order length, sync, declared length, sum, opcode, argument, replay, arming, queue |
| CmdFrame.CommandPath.Poll | flight/cmd/frame.c:135-170 | takes nothing before the audit passed, then at most 160 bytes in order, and refuses a held partial frame iff nothing was waiting |
| CmdFrame.CommandPath.TaskCommand | flight/core/tasks.c:189-193 | poll, then run the queue at the published time |
| Uplink.Build | harness/runner/uplink.py:190-225 | the buffer filled field by field is the specified frame |
| Uplink.BuiltFrameVerdict | harness/runner/uplink.py:190-225 | for every choice of keywords the vehicle's verdict is the reason number told from the keywords and the table rows: 0 sync, 1 length, 2 sum, 3 opcode, 4 argument, 5 replay, 7 not armed, 6 queue full, 8 accepted, the first that applies |
| Uplink.AcceptedExactlyWhenBuilt | flight/cmd/frame.c:241-321 | a frame is accepted iff it is a build of keywords that pass every check |
| Uplink.BoundaryArguments | harness/runner/uplink.py:228-250 | either side of each declared bound is accepted or refused as an argument error |
| Uplink.SingleByteChangeRefused | flight/cmd/frame.c:263-274 | any one-byte change to a well-formed frame is refused, for sync, length or sum by its position |
| CmdRuns.EveryRunIsSound | flight/cmd/frame.c:59-64 | in every reachable state each counter is its true count up to its ceiling, and queued is the number of occupied slots |
| CmdRuns.ExaminedIsAcceptedPlusRejected | flight/cmd/frame.c:241-262 | examined = accepted + rejected, and accepted = executed + queued + dropped by a reset |
| CmdTiming.FramingIgnoresDispatches | flight/cmd/frame.c:135-170 | however a burst is split, the frames examined are its 20-byte blocks plus one length rejection for a remainder |
| CmdTiming.AcceptedCountersRise | flight/cmd/frame.c:294-321 | accepted counters strictly rise within a boot |
| CmdArming.LastArmMeaning | flight/cmd/queue.c:158-168 | the arming in force is the executed arm with no later arm and no reset |
| CmdArming.CriticalNeedsRecentArm | flight/cmd/frame.c:299-301 | a critical command is accepted only within four frames of its own arm, and an otherwise valid one in each of them |
| CmdArming.TaggedCommandRuns | flight/cmd/frame.c:299-321 | a command accepted in a dispatch stays queued until, and runs in, the first dispatch from that one on whose time reaches its tag, less than 1024 ticks after it if the tag was ahead |
| CmdArming.QueuedEntryRuns | flight/cmd/queue.c:85-170 | the same from any state with the entry in its slot |
| CmdArming.LateMeans | flight/cmd/queue.c:141-151 | the late counter counts more than one frame past the tag, or any tag so high that tag plus 1024 wraps |
| CmdSchedule.EssentialRunsEveryFrame | flight/core/sched.c:195-238 | in a finished window an essential task of period 1 never withheld was dispatched once in every frame, each time with that frame's number and a time 1024 ticks after the last |
| CmdSchedule.NeverOverranNeverWithheld | flight/core/recover.c:172-191 | a task that never overran its budget was never withheld |
| CmdSchedule.WindowDrivesTheQueue | flight/core/tasks.c:189-193 | the command task's dispatches in a finished window are exactly what the arming and timing theorems assume |
| TlmLayout.Audit | flight/tlm/frame.c:170-199 | accepts iff every width is 1, 2 or 4, no count is 0, and each field starts where the one before ends, from 0 to the frame length |
| TlmLayout.AuditPartitions | flight/tlm/frame.c:170-199 | an accepted table puts every byte in exactly one field |
| TlmLayout.DecodeEncode | harness/runner/tlm_decode.py:235-246 | decoding what was packed gives the values, for every accepted table |
| TlmLayout.EncodeDecode | harness/runner/tlm_decode.py:235-246 | packing what was decoded gives the bytes, for every accepted table |
| TlmEmit.ShippedLayoutAudited | flight/tlm/frame.c:40-94 | the shipped descriptor table passes the audit and its sum field is the last |
| TlmEmit.Telemetry.Pack | flight/tlm/frame.c:270-321 | every byte is overwritten with the frame of the current state, and offset by offset the bytes read as that state: repairs at 28 and failed votes at 30 up to 65535, the mode at 37, the clock's low word or all ones at 8, and so on to the sum at 89 |
| TlmEmit.Telemetry.Emit | flight/tlm/frame.c:248-357 | the frame reports the state in the same bytes, with the number and drops as they were; the number moves on, a prefix goes out, a drop is counted unless all of it did, and success also needs a readable clock |
| TlmEmit.Telemetry.SubsystemReset | flight/tlm/frame.c:224-244 | number, buffer and sensors restart, drop and rejection counters and the audit verdict stay |
| TlmEmit.EmittedFrameDecodes | flight/tlm/frame.c:248-321 | the emitted frame decodes to the saturated or masked state and is well formed for the search |
| TlmEmit.ValidMeans | harness/runner/tlm_decode.py:249-275 | the search takes 91 bytes for a frame iff they start with the four sync bytes and the last two are the sum of the 89 before |
| TlmEmit.OneByteWrongIsNoFrame | harness/runner/tlm_decode.py:249-275 | a frame with any one byte changed is no frame at its place any more |
| Downlink.Port.PutByte | flight/hal/uart.c:97-109 | every poll but the last is a refusal paid from the allowance |
| Downlink.Port.Write | flight/hal/uart.c:184-213 | what goes out is a prefix, all of it iff the refusals met fit the one shared allowance of 256 |
| TlmDecode.FindFrames | harness/runner/tlm_decode.py:249-275 | returns exactly what trying every offset from left to right returns |
| TlmDecode.ScanIsGreedy | harness/runner/tlm_decode.py:249-275 | that list is the only one that is valid, in order, disjoint and skips no valid offset |
| TlmDecode.CaptureDecodes | harness/runner/tlm_decode.py:249-275 | frames with quiet noise between them decode to exactly themselves where they were sent |
| TlmDecode.BackToBackDecodes | harness/runner/tlm_decode.py:249-275 | frames sent back to back decode to exactly themselves |
| TlmCheck.CheckSequence | harness/runner/tlm_check.py:60-97 | raises iff some frame carries neither the number after the one before, nor zero, nor one further by exactly as many as were dropped since, and counts the zeros after the first frame |
| TlmCheck.NoFrameLostUnaccounted | flight/tlm/frame.c:323-354 | without reset or saturation every gap between sent frames equals the growth of the drop counter, and the check passes with no restart |
| TlmCheck.PairAcceptedExactlyWhen | harness/runner/tlm_check.py:78-97 | two consecutive sent frames are accepted iff no reset came between, or no drop followed it, or as many as fill the old numbers; and counted as a restart iff a reset came directly before the second |
| TlmCheck.CongestedResetLooksLost | harness/runner/tlm_check.py:78-97 | frame 5, a reset and one dropped frame: the next frame is rejected as a loss |
| TlmCheck.CaptureTellsWhatWasSent | harness/runner/tlm_decode.py:249-275 | the frames found in a capture are exactly those that went out whole, each decoding to the state it was emitted from |
| TlmRuns.SequenceAcceptedExactlyWhen | harness/runner/tlm_check.py:60-97 | over a whole run with resets and drops anywhere the check passes iff every two frames sent one after the other are explained by what lay between them |
| TlmRuns.RestartsCountResets | harness/runner/tlm_check.py:60-97 | over a whole run the resets counted are the frames sent directly after a reset, the first frame sent aside |
| TlmRuns.Serve | flight/tlm/frame.c:224-357 | over any series of emissions and resets the counters move as the run says, each frame carries the ones it found, and the line holds the emissions one after the other, cut where the port refused |
| TlmRuns.WholeReports | flight/tlm/frame.c:248-357 | the frames that went out whole report what the run says the sent frames report |
| TlmRuns.CaptureAcceptedExactlyWhen | harness/runner/tlm_check.py:60-97 | the frames found in a capture of such a run read as reports the check accepts iff every consecutive pair is explained, with a restart for each frame sent directly after a reset; with no reset always, and with none |
| TlmCheck.CheckBothDirections | harness/runner/tlm_check.py:100-118 | passes iff every sensor with one of its three flag bits up carries 0xFFFF and every other a value inside 200-3800 or 100-900 |
| TlmCheck.DecodedFramesAreHonest | harness/runner/tlm_check.py:100-118 | every decoded frame passes, whatever the sensors read |

## Left out

- Mission.AtMostFiveRung3Resets: counts boots up to 2^32, where the stored count would go round.
- CmdArming.CriticalNeedsRecentArm: below frame 2^32 - 256, where the expiry frame cannot go round.
- CmdArming.TaggedCommandRuns: published times do not go round within the wait; across the wrap a tag runs late, as the source says.
- TlmCheck.NoFrameLostUnaccounted: below saturation of the 16-bit drop field; at its ceiling the gap cannot be read from it.
- TlmRuns.SequenceAcceptedExactlyWhen: runs short of the 32-bit number's wrap and of the drop field's ceiling.
- Feeds.ShippedFedInTime: counts frames; the instant of a feed inside its frame depends on how long task bodies take in ticks, which the model leaves to the clock.
- SchedRuns.LogTellsExactlyWhen: windows of up to 256 frames; beyond, a narrowed entry may stand for another slot and the two sequences can agree by chance.
- TraceCheck.CheckSuspensions: a log that names, inside the window, a row of period zero; the build forbids such rows and the Python would divide by zero on that entry.
- Sched.Executive.RunWindow: a second window in the same boot, which the flight code does not run.
- Sched.Executive.ModeIsSafe: a vote holds or fails; which corruptions cannot forge a majority is `Critical`'s result, not repeated here.
- Uplink.Build: the shipped frame layout, where the Python reads any layout from the binary.
- Entering safe mode on the request a `safe` command records: no flight code reads it.
- The effect of task bodies on the executive: none of the shipped ones calls back into it; their cost is the dispatch's cost.
- The voter's registry with more than one item: one is shipped.
- Null-pointer arguments, console text, register addresses, baud rate and watchdog keys: no effect on the properties.
- Deaths before the boot flag is raised, and traps before the handler has mscratch back: outside what the code covers.
- The handler's saved registers, which no reader uses.
- Reading the binary through a debugger, sockets, the emulator and campaign reports: tools around the checks; layouts and tables are parameters or the shipped constants.
- The announced bits are a set, and the parallel sensor arrays one array of rows.
- `check_budgets`, which prints the overrun counts and fails nothing.
- The per-case telemetry checks: each compares one decoded value with what its campaign injected, and the campaigns are not part of this model.
