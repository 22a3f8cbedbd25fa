/**
  The host's verdict on a finished window: what its memory holds, and exactly when the
  three checks of harness/runner/trace_check.py pass on it.
*/
module HostVerdict {
  import opened Words
  import opened TraceCheck
  import opened Ladder
  import opened Window
  import opened Replay
  import opened Waiting
  import opened Sched
  import opened SchedRuns

  // ---- the finished window as the host reads it ---------------------------------------------------

  /** What memory holds after a window, in terms of what happened in it. */
  ghost predicate Reported(table: seq<Task>, es: seq<Overrun>, frames: nat, dispatched: seq<nat>, start: nat, d: Dump,
                           log: seq<Slot>, logOverflow: uint32) {
    && InTable(table, es)
    && d.frames == frames && d.framesRun == frames
    && d.trace == dispatched[..Min(|dispatched|, TRACE_CAPACITY)]
    && d.traceOverflow == Wrap32(|dispatched| - |d.trace|)
    && d.windowStart == Wrap32(start) && d.windowEnd == Wrap32(start + Ticks(frames))
    && |d.runs| == |table| && (forall i :: 0 <= i < |table| ==> d.runs[i] == Wrap32(Occurrences(dispatched, i)))
    && LogShows(Announced(table, es), log)
    && logOverflow == Wrap32(|Announced(table, es)| - |log|)
  }

  /** The first sixteen announcements, each with its frame as a byte. */
  ghost predicate LogShows(ann: seq<Entry>, log: seq<Slot>) {
    && |log| == Min(|ann|, SUSPEND_LOG_LEN)
    && forall k :: 0 <= k < |log| ==> log[k] == Logged(ann[k])
  }

  function Slots(log: seq<Slot>): set<Slot> {
    set s | s in log
  }

  lemma SpanIsExact(start: nat, frames: nat)
    requires frames <= 0x100
    ensures Wrap32(Wrap32(start + Ticks(frames)) - Wrap32(start)) == Ticks(frames)
  {
  }

  lemma {:induction false} OccurrencesBounded(trace: seq<nat>, i: nat)
    ensures Occurrences(trace, i) <= |trace|
  {
    if trace != [] {
      OccurrencesBounded(trace[..|trace| - 1], i);
    }
  }

  lemma RunsAreExact(d: Dump, dispatched: seq<nat>)
    requires |dispatched| <= TRACE_CAPACITY
    requires forall i :: 0 <= i < |d.runs| ==> d.runs[i] == Wrap32(Occurrences(dispatched, i))
    ensures forall i :: 0 <= i < |d.runs| ==> d.runs[i] == Occurrences(dispatched, i)
  {
    forall i | 0 <= i < |d.runs| ensures d.runs[i] == Occurrences(dispatched, i) {
      OccurrencesBounded(dispatched, i);
    }
  }

  /** A window that fits the trace conforms to its own dispatch sequence. */
  lemma ConformsToItself(table: seq<Task>, es: seq<Overrun>, frames: nat, dispatched: seq<nat>, start: nat, d: Dump,
                         log: seq<Slot>, logOverflow: uint32)
    requires Reported(table, es, frames, dispatched, start, d, log, logOverflow)
    requires frames <= 0x100 && |dispatched| <= TRACE_CAPACITY
    ensures d.trace == dispatched && Conforms(d, dispatched)
  {
    hide LogShows, Announced, InTable, Occurrences, Ticks;
    SpanIsExact(start, frames);
    RunsAreExact(d, dispatched);
  }

  lemma LogIsWhole(ann: seq<Entry>, log: seq<Slot>)
    requires LogShows(ann, log) && |ann| <= SUSPEND_LOG_LEN
    ensures Slots(log) == LoggedSlots(ann)
  {
    hide Logged;
    forall s | s in LoggedSlots(ann) ensures s in log {
      var k :| 0 <= k < |ann| && Logged(ann[k]) == s;
      assert log[k] == s;
    }
  }

  /** `check_order` and `check_conformance` against the expectation drawn from the dump. */
  ghost predicate OrderAndConformance(table: seq<Task>, d: Dump, log: seq<Slot>) {
    var expected := Expected(table, Slots(log), CheckerFrom(d.safeEntry), d.frames);
    d.trace == expected && Conforms(d, expected)
  }

  /** `check_suspensions`. */
  predicate AnnouncementsPass(table: seq<Task>, d: Dump, log: seq<Slot>, logOverflow: uint32) {
    logOverflow == 0 && forall k :: 0 <= k < |log| ==> Announceable(table, d.frames, log[k])
  }

  /** Every announcement, as logged, is for a slot inside the window in which its task was due. */
  predicate EntriesInside(table: seq<Task>, es: seq<Overrun>, frames: nat)
    requires InTable(table, es)
  {
    forall k :: 0 <= k < |es| && RungAt(table, es, k) != RUNG_RESET_MACHINE ==>
      Announceable(table, frames, Logged(EntryOf(table, es, k)))
  }

  lemma EntriesAreLog(table: seq<Task>, es: seq<Overrun>, frames: nat, log: seq<Slot>)
    requires InTable(table, es) && LogShows(Announced(table, es), log) && |Announced(table, es)| <= SUSPEND_LOG_LEN
    ensures (forall k :: 0 <= k < |log| ==> Announceable(table, frames, log[k])) <==> EntriesInside(table, es, frames)
  {
    var ann := Announced(table, es);
    LogIsWhole(ann, log);
    hide Announced, RungAt, EntryOf, Logged, Announceable, LoggedSlots, LogShows, InTable;
    forall s ensures s in log <==> exists j :: 0 <= j < |es| && RungAt(table, es, j) != RUNG_RESET_MACHINE
                                               && Logged(EntryOf(table, es, j)) == s
    {
      LoggedAre(table, es, s);
      assert s in Slots(log) <==> s in log;
    }
    if EntriesInside(table, es, frames) {
      forall k | 0 <= k < |log| ensures Announceable(table, frames, log[k]) {
        assert log[k] in log;
      }
    }
    if forall k :: 0 <= k < |log| ==> Announceable(table, frames, log[k]) {
      forall j | 0 <= j < |es| && RungAt(table, es, j) != RUNG_RESET_MACHINE
        ensures Announceable(table, frames, Logged(EntryOf(table, es, j)))
      {
        assert Logged(EntryOf(table, es, j)) in log;
      }
    }
  }

  /**
    The host's verdict on a whole window entered nominal.  For any table of at most eight
    tasks and any window of at most 256 frames that fits the trace: order and conformance
    pass exactly when every logged entry is harmless, and the announcements pass exactly
    when each is for a due slot inside the window.
  */
  lemma HostAcceptsExactlyWhen(table: seq<Task>, es: seq<Overrun>, withheld: set<Slot>, frames: nat,
                               dispatched: seq<nat>, start: nat, d: Dump, log: seq<Slot>, logOverflow: uint32)
    requires Tracked(table, CheckerFrom(d.safeEntry), es, withheld, Slot(frames, 0), dispatched)
    requires Reported(table, es, frames, dispatched, start, d, log, logOverflow)
    requires |table| <= MAX_TASKS && frames <= 0x100
    requires TotalDue(table, |table|, frames) <= TRACE_CAPACITY
    ensures OrderAndConformance(table, d, log) <==> LogTells(table, CheckerFrom(d.safeEntry), es, frames)
    ensures AnnouncementsPass(table, d, log, logOverflow) <==> EntriesInside(table, es, frames)
  {
    assert InTable(table, es);
    var from := CheckerFrom(d.safeEntry);
    hide *;
    TrackedHappened(table, from, es, withheld, Slot(frames, 0), dispatched);
    WindowBelowWrap(table, es, frames);
    WholeLogRead(table, es, frames, dispatched, start, d, log, logOverflow);
    EntriesAreLog(table, es, frames, log);
    AnnouncementsMean(table, d, log, logOverflow);
    OrderAgainst(table, from, es, withheld, frames, dispatched, start, d, log, logOverflow);
    LogTellsExactlyWhen(table, from, es, withheld, frames, dispatched);
  }

  lemma AnnouncementsMean(table: seq<Task>, d: Dump, log: seq<Slot>, logOverflow: uint32)
    ensures AnnouncementsPass(table, d, log, logOverflow) <==>
            logOverflow == 0 && forall k :: 0 <= k < |log| ==> Announceable(table, d.frames, log[k])
  {
  }

  /** The log read from memory is all that was announced. */
  lemma WholeLogRead(table: seq<Task>, es: seq<Overrun>, frames: nat, dispatched: seq<nat>, start: nat, d: Dump,
                     log: seq<Slot>, logOverflow: uint32)
    requires Reported(table, es, frames, dispatched, start, d, log, logOverflow)
    requires |table| <= MAX_TASKS && BelowWrap(table, es)
    ensures InTable(table, es) && LogShows(Announced(table, es), log) && |Announced(table, es)| <= SUSPEND_LOG_LEN
    ensures Slots(log) == LoggedSlots(Announced(table, es)) && logOverflow == 0 && d.frames == frames
  {
    hide Announced, BelowWrap, Ticks, Occurrences, InTable;
    LogNeverOverflows(table, es);
    LogIsWhole(Announced(table, es), log);
  }

  /** Order and conformance come down to the expectation drawn from the log and the recorded entry. */
  lemma OrderAgainst(table: seq<Task>, from: Option<nat>, es: seq<Overrun>, withheld: set<Slot>, frames: nat,
                     dispatched: seq<nat>, start: nat, d: Dump, log: seq<Slot>, logOverflow: uint32)
    requires Tracked(table, from, es, withheld, Slot(frames, 0), dispatched)
    requires Reported(table, es, frames, dispatched, start, d, log, logOverflow)
    requires frames <= 0x100 && TotalDue(table, |table|, frames) <= TRACE_CAPACITY
    requires d.frames == frames && Slots(log) == LoggedSlots(Announced(table, es))
    ensures OrderAndConformance(table, d, log)
            <==> dispatched == Expected(table, LoggedSlots(Announced(table, es)), CheckerFrom(d.safeEntry), frames)
  {
    assert InTable(table, es);
    WindowFollowsTable(table, from, es, withheld, frames, dispatched);
    ConformsToItself(table, es, frames, dispatched, start, d, log, logOverflow) by {
      hide Expected;
      ExpectedFits(table, withheld, from, frames);
    }
    hide Tracked, Reported, Expected, Conforms, Announced, LoggedSlots, TotalDue, CheckerFrom, InTable;
  }

  lemma InsideByFrame(table: seq<Task>, es: seq<Overrun>, frames: nat)
    requires InTable(table, es) && WhereDue(table, es) && FramesFit(table, frames)
    requires forall k :: 0 <= k < |es| ==> es[k].frame < frames
    ensures EntriesInside(table, es, frames) <==>
            forall k :: 0 <= k < |es| && RungAt(table, es, k) != RUNG_RESET_MACHINE ==>
              EntryOf(table, es, k).frame < frames
  {
    hide RungAt, EntryOf, Announceable, FramesFit, WhereDue, InTable;
    forall k | 0 <= k < |es| && RungAt(table, es, k) != RUNG_RESET_MACHINE
      ensures Announceable(table, frames, Logged(EntryOf(table, es, k))) <==> EntryOf(table, es, k).frame < frames
    {
      AnnouncementsPassExactlyWhen(table, es, frames, k);
    }
  }

  /**
    With frame numbers that fit a byte and never two suspensions pending, all the host's
    checks pass exactly when no subsystem was reset and every announced frame lies inside
    the window.
  */
  lemma AllChecksPassExactlyWhen(table: seq<Task>, es: seq<Overrun>, withheld: set<Slot>, frames: nat,
                                 dispatched: seq<nat>, start: nat, d: Dump, log: seq<Slot>, logOverflow: uint32)
    requires Tracked(table, CheckerFrom(d.safeEntry), es, withheld, Slot(frames, 0), dispatched)
    requires Reported(table, es, frames, dispatched, start, d, log, logOverflow)
    requires |table| <= MAX_TASKS && FramesFit(table, frames) && OneAtATime(table, es)
    requires TotalDue(table, |table|, frames) <= TRACE_CAPACITY
    ensures OrderAndConformance(table, d, log) && AnnouncementsPass(table, d, log, logOverflow) <==>
            && NoRung2(table, es)
            && forall k :: 0 <= k < |es| && RungAt(table, es, k) != RUNG_RESET_MACHINE ==>
                 EntryOf(table, es, k).frame < frames
  {
    assert InTable(table, es) && frames <= 0x100;
    OverrunsInWindow(table, CheckerFrom(d.safeEntry), es, withheld, frames);
    hide *;
    HostAcceptsExactlyWhen(table, es, withheld, frames, dispatched, start, d, log, logOverflow);
    OrderHoldsExactlyWhen(table, CheckerFrom(d.safeEntry), es, withheld, frames, dispatched);
    InsideByFrame(table, es, frames);
  }

  // ---- the executive ------------------------------------------------------------------------------

  /** The host's dump of this executive's memory. */
  ghost predicate DumpOf(e: Executive, frames: nat, d: Dump, log: seq<Slot>, logOverflow: uint32)
    reads e, e.trace, e.states, e.log
  {
    && d.frames == frames && d.framesRun == e.framesRun
    && |d.trace| == e.traceLen <= e.trace.Length && (forall k :: 0 <= k < |d.trace| ==> d.trace[k] == e.trace[k])
    && d.traceOverflow == e.traceOverflow && d.safeEntry == e.safeEntry
    && d.windowStart == e.windowStart && d.windowEnd == e.windowEnd
    && |d.runs| == |e.table| <= e.states.Length && (forall i :: 0 <= i < |d.runs| ==> d.runs[i] == e.states[i].runs)
    && |log| == e.logCount <= e.log.Length && logOverflow == e.logOverflow
    && (forall k :: 0 <= k < |log| ==> log[k] == Slot(e.log[k].frame, e.log[k].task))
  }

  lemma {:induction false} AnnouncedInTable(table: seq<Task>, es: seq<Overrun>, k: nat)
    requires InTable(table, es) && k < |Announced(table, es)|
    ensures Announced(table, es)[k].task < |table|
  {
    if k < |Announced(table, es[..|es| - 1])| {
      AnnouncedInTable(table, es[..|es| - 1], k);
    }
  }

  lemma LogIsShown(e: Executive, log: seq<Slot>, ann: seq<Entry>)
    requires e.LogHolds(ann) && |log| == e.logCount
    requires forall k :: 0 <= k < |log| ==> log[k] == Slot(e.log[k].frame, e.log[k].task)
    requires forall k :: 0 <= k < |ann| ==> ann[k].task < MAX_TASKS
    ensures LogShows(ann, log)
  {
  }

  lemma TraceIsShown(e: Executive, trace: seq<nat>)
    requires e.TraceHolds() && |trace| == e.traceLen
    requires forall k :: 0 <= k < |trace| ==> trace[k] == e.trace[k]
    ensures trace == e.dispatched[..Min(|e.dispatched|, TRACE_CAPACITY)]
  {
  }

  /** A finished window leaves in memory what happened in it. */
  lemma MemoryReports(e: Executive, start: uint64, frames: nat, d: Dump, log: seq<Slot>, logOverflow: uint32)
    requires e.Between(start, frames) && e.windowEnd == Wrap32(start + Ticks(frames))
    requires DumpOf(e, frames, d, log, logOverflow)
    ensures Reported(e.table, e.overruns, frames, e.dispatched, start, d, log, logOverflow)
    ensures |e.table| <= MAX_TASKS
  {
    var ann := Announced(e.table, e.overruns);
    assert e.LogHolds(ann) && e.TraceHolds() && e.StatesHold(e.dispatched, e.overruns);
    hide Announced, Ticks, Occurrences, Count;
    forall k | 0 <= k < |ann| ensures ann[k].task < MAX_TASKS {
      AnnouncedInTable(e.table, e.overruns, k);
    }
    LogIsShown(e, log, ann);
    TraceIsShown(e, d.trace);
  }

  /**
    The verdict on the memory a window of the executive leaves, told from the table, the
    costs and the clock.  Entered nominal, order and conformance pass exactly when every
    entry logged in the run they lead to is harmless; entered safe, exactly when moreover
    every task that runs at all is essential.
  */
  lemma ExecutivePassesExactlyWhen(e: Executive, start: uint64, frames: nat, d: Dump, log: seq<Slot>,
                                   logOverflow: uint32)
    requires e.Between(start, frames) && e.windowEnd == Wrap32(start + Ticks(frames)) && e.Ideal()
    requires DumpOf(e, frames, d, log, logOverflow) && frames <= 0x100
    requires TotalDue(e.table, |e.table|, frames) <= TRACE_CAPACITY
    ensures var from := ModeOf(e, start);
            var es := Play(e.table, e.cost, from, frames).es;
            && (OrderAndConformance(e.table, d, log) <==>
                if e.startsSafe then frames == 0 || (AllEssential(e.table) && LogTells(e.table, from, es, frames))
                else LogTells(e.table, from, es, frames))
            && (AnnouncementsPass(e.table, d, log, logOverflow) <==> EntriesInside(e.table, es, frames))
  {
    MemoryReports(e, start, frames, d, log, logOverflow);
    WindowIsReplay(e, start, frames);
    EntryOfMode(e, start, frames, d);
    hide *;
    if e.startsSafe {
      SafeHostAcceptsExactlyWhen(e.table, e.overruns, e.withheld, frames, e.dispatched, start, d, log, logOverflow);
    } else {
      HostAcceptsExactlyWhen(e.table, e.overruns, e.withheld, frames, e.dispatched, start, d, log, logOverflow);
    }
  }

  lemma EntryOfMode(e: Executive, start: uint64, frames: nat, d: Dump)
    requires e.Between(start, frames) && e.Ideal() && d.safeEntry == e.safeEntry
    ensures if e.startsSafe then e.From() == Some(0) && d.safeEntry == 0 else e.From() == CheckerFrom(d.safeEntry)
  {
    StageOfWindow(e, start, frames);
    hide e.Between, e.Ideal, e.Stage, e.Following, e.DegradesWhenLate;
  }

  lemma RunsOf(e: Executive, i: nat)
    requires e.Valid() && i < |e.table|
    ensures i < e.states.Length && e.states[i].runs == Wrap32(Occurrences(e.dispatched, i))
  {
    assert e.StatesHold(e.dispatched, e.overruns);
  }

  /**
    Entered nominal, no frame late on the clock, and every dispatch of the table's own
    sequence within its task's budget.
  */
  ghost predicate CleanWindow(e: Executive, start: uint64, frames: nat)
    reads e, e.trace, e.states, e.log
  {
    && e.Between(start, frames) && e.Ideal() && !e.startsSafe && FirstLate(e.clock, start, e.records) == None
    && Affordable(e.table, e.cost, Expected(e.table, {}, None, frames))
  }

  lemma FedThroughout(e: Executive, start: uint64, frames: nat)
    requires e.Between(start, frames) && e.overruns == []
    ensures e.Valid() && e.FedEvery(frames)
  {
    hide e.Valid, e.Stage, e.OnSchedule, e.History, e.DegradesWhenLate, e.FedEvery;
  }

  lemma CleanWindowRuns(e: Executive, start: uint64, frames: nat, i: nat)
    requires CleanWindow(e, start, frames) && i < |e.table|
    ensures i < e.states.Length
    ensures e.states[i].runs == Wrap32(Occurrences(Expected(e.table, {}, None, frames), i))
    ensures e.FedEvery(frames)
  {
    WindowIsReplay(e, start, frames);
    assert ModeOf(e, start) == None;
    hide *;
    CleanExactlyWhen(e.table, e.cost, None, frames);
    FedThroughout(e, start, frames);
    RunsOf(e, i);
  }

  /** A clean window ran each task `frames / period` times when that divides, and fed the watchdog throughout. */
  lemma CleanWindowCounts(e: Executive, start: uint64, frames: nat, i: nat, times: uint32)
    requires CleanWindow(e, start, frames) && i < |e.table|
    requires e.table[i].period > 0 && frames == times * e.table[i].period
    ensures i < e.states.Length && e.states[i].runs == times
    ensures e.FedEvery(frames)
  {
    hide CleanWindow, Occurrences, Expected;
    CleanWindowRuns(e, start, frames, i);
    CleanRunCounts(e.table, frames, i, times);
  }

  // ---- a window entered safe --------------------------------------------------------------------

  /** Nothing can be withheld in frame 0: a next due frame is never 0 there. */
  lemma NoneWithheldFirst(table: seq<Task>, from: Option<nat>, es: seq<Overrun>, s: Slot)
    requires InTable(table, es) && Ordered(es) && WithheldAt(table, from, es, s)
    ensures s.frame != 0
  {
    var m := |Until(es, s)|;
    UntilCuts(es, s);
    assert Until(es, s) == es[..m];
    hide Announced, Pending, RungAt, Until, Live, Ordered;
    var l := PendingIsLatest(table, es[..m]);
  }

  /**
    A window entered safe: what the checker expects, which is the full table in frame 0,
    matches exactly when every task that runs at all is essential.
  */
  lemma SafeWindowAgreesExactlyWhen(e: Executive, start: uint64, frames: nat)
    requires e.Between(start, frames) && e.Ideal() && e.startsSafe
    ensures e.dispatched == Expected(e.table, e.withheld, CheckerFrom(e.safeEntry), frames)
            <==> frames == 0 || AllEssential(e.table)
  {
    WindowIsReplay(e, start, frames);
    StageOfWindow(e, start, frames);
    assert e.safeEntry == 0 && e.From() == Some(0);
    SafeTraceAgrees(e.table, e.overruns, e.withheld, frames, e.dispatched) by { hide *; }
  }

  lemma SafeTraceAgrees(table: seq<Task>, es: seq<Overrun>, withheld: set<Slot>, frames: nat, dispatched: seq<nat>)
    requires Tracked(table, Some(0), es, withheld, Slot(frames, 0), dispatched)
    ensures dispatched == Expected(table, withheld, CheckerFrom(0), frames) <==> frames == 0 || AllEssential(table)
  {
    hide Expected, AllEssential, WithheldAt, OverrunsRan;
    WindowFollowsTable(table, Some(0), es, withheld, frames, dispatched);
    forall s | s in withheld ensures s.frame != 0 {
      NoneWithheldFirst(table, Some(0), es, s);
    }
    SafeStartByTable(table, withheld, frames);
  }

  /** A task of an overrun in safe mode is essential, and so no other is ever logged. */
  lemma LoggedIsEssential(table: seq<Task>, es: seq<Overrun>, withheld: set<Slot>, frames: nat, dispatched: seq<nat>,
                          s: Slot)
    requires Tracked(table, Some(0), es, withheld, Slot(frames, 0), dispatched)
    requires InTable(table, es) && s in LoggedSlots(Announced(table, es))
    ensures s.task < |table| && table[s.task].essential
  {
    LoggedAre(table, es, s);
    hide RungAt, Announced, LoggedSlots, Tracked;
    var k :| 0 <= k < |es| && RungAt(table, es, k) != RUNG_RESET_MACHINE && Logged(EntryOf(table, es, k)) == s;
    NamedByTask(table, es, k);
    RanFacts(table, Some(0), es, withheld, frames, dispatched, k);
  }

  /** A task occurs in the expected sequence exactly when some slot of it is dictated. */
  lemma {:induction false} OccursExactlyWhen(table: seq<Task>, withheld: set<Slot>, from: Option<nat>, frames: nat,
                                             i: nat)
    requires i < |table|
    ensures Occurrences(Expected(table, withheld, from, frames), i) > 0 <==>
            exists f: nat :: f < frames && Dictated(table, withheld, from, Slot(f, i))
  {
    hide Dictated, FrameTrace, Occurrences;
    if frames == 0 {
      NoneOccur(i);
    } else {
      var f := frames - 1;
      OccursExactlyWhen(table, withheld, from, f, i);
      FrameOccurrences(table, withheld, from, f, |table|, i);
      OccurrencesAppend(Expected(table, withheld, from, f), FrameTrace(table, withheld, from, f, |table|), i);
    }
  }

  lemma NoneOccur(i: nat)
    ensures Occurrences([], i) == 0
  {
  }

  /** A task that is not essential runs in no frame, and is expected in frame 0. */
  lemma MissedInFirstFrame(table: seq<Task>, withheld: set<Slot>, logged: set<Slot>, frames: nat, i: nat)
    requires i < |table| && table[i].period != 0 && !table[i].essential && frames > 0
    requires Slot(0, i) !in logged
    ensures Expected(table, withheld, Some(0), frames) != Expected(table, logged, Some(1), frames)
  {
    assert Dictated(table, logged, Some(1), Slot(0, i));
    assert forall f: nat :: !Dictated(table, withheld, Some(0), Slot(f, i));
    hide Dictated, Expected;
    OccursExactlyWhen(table, withheld, Some(0), frames, i);
    OccursExactlyWhen(table, logged, Some(1), frames, i);
  }

  lemma {:induction false} EssentialFrame(table: seq<Task>, withheld: set<Slot>, frame: nat, n: nat)
    requires AllEssential(table)
    ensures FrameTrace(table, withheld, Some(0), frame, n) == FrameTrace(table, withheld, Some(1), frame, n)
  {
    if n == 0 {
    } else {
      EssentialFrame(table, withheld, frame, n - 1);
    }
  }

  /** With nothing but essential tasks the mode makes no difference. */
  lemma {:induction false} EssentialSame(table: seq<Task>, withheld: set<Slot>, frames: nat)
    requires AllEssential(table)
    ensures Expected(table, withheld, Some(0), frames) == Expected(table, withheld, Some(1), frames)
  {
    hide AllEssential, FrameTrace;
    if frames == 0 {
    } else {
      EssentialSame(table, withheld, frames - 1);
      EssentialFrame(table, withheld, frames - 1, |table|);
    }
  }

  /**
    A window entered safe, against the expectation drawn from its log: they agree exactly
    when every task that runs at all is essential and every logged entry is harmless.
  */
  lemma SafeOrderExactlyWhen(table: seq<Task>, es: seq<Overrun>, withheld: set<Slot>, frames: nat,
                             dispatched: seq<nat>)
    requires Tracked(table, Some(0), es, withheld, Slot(frames, 0), dispatched) && frames <= 0x100
    ensures dispatched == Expected(table, LoggedSlots(Announced(table, es)), CheckerFrom(0), frames)
            <==> frames == 0 || (AllEssential(table) && LogTells(table, Some(0), es, frames))
  {
    InTableOf(table, Some(0), es, withheld, Slot(frames, 0), dispatched);
    var logged := LoggedSlots(Announced(table, es));
    CheckerFromZero();
    EssentialMeans(table);
    hide *;
    WindowFollowsTable(table, Some(0), es, withheld, frames, dispatched);
    if frames == 0 {
      NoFrames(table, withheld, Some(0));
      NoFrames(table, logged, Some(1));
    } else if AllEssential(table) {
      EssentialSame(table, logged, frames);
      LogTellsExactlyWhen(table, Some(0), es, withheld, frames, dispatched);
    } else {
      var i: nat :| i < |table| && table[i].period != 0 && !table[i].essential;
      if Slot(0, i) in logged {
        LoggedIsEssential(table, es, withheld, frames, dispatched, Slot(0, i));
      }
      MissedInFirstFrame(table, withheld, logged, frames, i);
    }
  }

  lemma EssentialMeans(table: seq<Task>)
    ensures AllEssential(table) <==> forall i: nat :: i < |table| && table[i].period != 0 ==> table[i].essential
  {
  }

  /** The host's verdict on a window entered safe, which records entry frame 0. */
  lemma SafeHostAcceptsExactlyWhen(table: seq<Task>, es: seq<Overrun>, withheld: set<Slot>, frames: nat,
                                   dispatched: seq<nat>, start: nat, d: Dump, log: seq<Slot>, logOverflow: uint32)
    requires Tracked(table, Some(0), es, withheld, Slot(frames, 0), dispatched) && d.safeEntry == 0
    requires Reported(table, es, frames, dispatched, start, d, log, logOverflow)
    requires |table| <= MAX_TASKS && frames <= 0x100
    requires TotalDue(table, |table|, frames) <= TRACE_CAPACITY
    ensures OrderAndConformance(table, d, log)
            <==> frames == 0 || (AllEssential(table) && LogTells(table, Some(0), es, frames))
    ensures AnnouncementsPass(table, d, log, logOverflow) <==> EntriesInside(table, es, frames)
  {
    InTableOf(table, Some(0), es, withheld, Slot(frames, 0), dispatched);
    hide *;
    TrackedHappened(table, Some(0), es, withheld, Slot(frames, 0), dispatched);
    WindowBelowWrap(table, es, frames);
    WholeLogRead(table, es, frames, dispatched, start, d, log, logOverflow);
    EntriesAreLog(table, es, frames, log);
    AnnouncementsMean(table, d, log, logOverflow);
    OrderAgainst(table, Some(0), es, withheld, frames, dispatched, start, d, log, logOverflow);
    SafeOrderExactlyWhen(table, es, withheld, frames, dispatched);
  }

  lemma CheckerFromZero()
    ensures CheckerFrom(0) == Some(1)
  {
  }

  // ---- the log ------------------------------------------------------------------------------------

  lemma ValidLog(e: Executive)
    requires e.Valid()
    ensures InTable(e.table, e.overruns) && |e.table| <= MAX_TASKS
    ensures |Announced(e.table, e.overruns)| <= SUSPEND_LOG_LEN ==>
              e.logOverflow == 0 && e.logCount == |Announced(e.table, e.overruns)|
  {
    hide Announced;
    assert e.LogHolds(Announced(e.table, e.overruns));
  }

  /** Nothing announced in a window is missing from the log, whatever the votes on the mode said. */
  lemma LogIsComplete(e: Executive, start: uint64, frames: uint32)
    requires e.Between(start, frames)
    ensures InTable(e.table, e.overruns)
    ensures e.logOverflow == 0 && e.logCount == |Announced(e.table, e.overruns)|
  {
    hide *;
    e.ScheduleBefore(start, frames);
    ValidLog(e);
    StageHappened(e, frames);
    WindowBelowWrap(e.table, e.overruns, frames);
    LogNeverOverflows(e.table, e.overruns);
  }

  lemma StageHappened(e: Executive, frames: nat)
    requires e.Stage(frames, 0)
    ensures Happened(e.overruns, Slot(frames, 0))
  {
  }
}
