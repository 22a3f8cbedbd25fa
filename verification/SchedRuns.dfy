/**
  What a finished window proves: its trace against the task table, its log against its
  gaps, and exactly when the host's checks of it pass.
*/
module SchedRuns {
  import opened Words
  import opened TraceCheck
  import opened Ladder
  import opened Window
  import opened Replay
  import opened Waiting
  import opened Sched

  // ---- the trace and the table --------------------------------------------------------------

  lemma {:induction false} SuspendedGrows(table: seq<Task>, es: seq<Overrun>, n: nat)
    requires InTable(table, es) && n <= |es|
    ensures Suspended(Announced(table, es[..n])) <= Suspended(Announced(table, es))
  {
    hide *;
    if n == |es| {
      assert es[..n] == es;
    } else {
      InTablePrefix(table, es, n);
      InTablePrefix(table, es, |es| - 1);
      var shorter := es[..|es| - 1];
      SuspendsLast(table, es);
      SuspendedGrows(table, shorter, n);
      assert shorter[..n] == es[..n];
    }
  }

  lemma WithheldIsSuspended(table: seq<Task>, from: Option<nat>, es: seq<Overrun>, s: Slot)
    requires InTable(table, es) && WithheldAt(table, from, es, s)
    ensures s in Suspended(Announced(table, es))
  {
    hide Announced, Suspended, Pending, Live;
    var n := |Until(es, s)|;
    assert Until(es, s) == es[..n];
    PendingIsSuspended(Announced(table, es[..n]));
    SuspendedGrows(table, es, n);
  }

  /**
    A finished window dispatched exactly what the table dictates less what was withheld, and
    everything withheld had been announced.
  */
  lemma WindowFollowsTable(table: seq<Task>, from: Option<nat>, es: seq<Overrun>, withheld: set<Slot>, frames: nat,
                           dispatched: seq<nat>)
    requires Tracked(table, from, es, withheld, Slot(frames, 0), dispatched)
    ensures dispatched == Expected(table, withheld, from, frames)
    ensures forall s :: s in withheld ==>
              s.frame < frames && Live(table, from, s) && s in Suspended(Announced(table, es))
  {
    hide Announced, Suspended, Pending, Expected, Ordered, OverrunsRan, InTable;
    forall s | s in withheld ensures s in Suspended(Announced(table, es)) {
      WithheldIsSuspended(table, from, es, s);
    }
  }

  // ---- the executive and the replay -------------------------------------------------------------

  /** The mode of a window, told from the clock. */
  ghost function ModeOf(e: Executive, start: uint64): Option<nat>
    reads e`records
  {
    if e.startsSafe then Some(0)
    else
      match FirstLate(e.clock, start, e.records)
      case None => None
      case Some(f) => Some(f + 1)
  }

  lemma StageOfWindow(e: Executive, start: uint64, frames: nat)
    requires e.Between(start, frames) && e.Ideal()
    ensures frames <= U32_MAX && e.Stage(frames, 0) && e.DegradesWhenLate(start) && e.ModeKnown(frames)
    ensures e.Following(Slot(frames, 0))
  {
    hide e.Valid, e.DegradesWhenLate, e.History, e.OnSchedule, e.Following, e.ModeKnown, Happened, e.FedEvery;
  }

  /**
    A finished window dispatched, overran and withheld exactly what its table, its costs and
    its mode lead to, and the mode is told from the clock.
  */
  lemma WindowIsReplay(e: Executive, start: uint64, frames: nat)
    requires e.Between(start, frames) && e.Ideal()
    ensures Played(e.dispatched, e.overruns, e.withheld) == Play(e.table, e.cost, e.From(), frames)
    ensures e.From() == ModeOf(e, start)
    ensures Tracked(e.table, e.From(), e.overruns, e.withheld, Slot(frames, 0), e.dispatched)
  {
    hide *;
    StageOfWindow(e, start, frames);
    FollowsPlay(e, frames);
    FollowsClock(e, start);
    PlayTracked(e.table, e.cost, e.From(), frames);
  }

  lemma FollowsPlay(e: Executive, frames: nat)
    requires e.Following(Slot(frames, 0))
    ensures Played(e.dispatched, e.overruns, e.withheld) == Play(e.table, e.cost, e.From(), frames)
  {
    hide Play;
  }

  lemma FollowsClock(e: Executive, start: uint64)
    requires e.DegradesWhenLate(start)
    ensures e.From() == ModeOf(e, start)
  {
    hide FirstLate;
  }

  /**
    The frame recorded for a window entered nominal is the first whose work ended at its
    deadline or past it, and the overrun counter counts all such frames.
  */
  lemma SafeEntryExactlyWhen(e: Executive, start: uint64, frames: nat, f: uint32)
    requires e.Between(start, frames) && e.Ideal() && !e.startsSafe && f < frames
    ensures |e.records| == frames && f != SAFE_ENTRY_NONE
    ensures e.safeEntry == f <==>
            && Reaches(e.clock, e.records[f].checked, Deadline(start, f))
            && forall g: nat :: g < f ==> !Reaches(e.clock, e.records[g].checked, Deadline(start, g))
    ensures e.safeEntry == SAFE_ENTRY_NONE <==>
            forall g: nat :: g < frames ==> !Reaches(e.clock, e.records[g].checked, Deadline(start, g))
    ensures e.safeEntry == SAFE_ENTRY_NONE ==> e.frameOverruns == 0
  {
    hide *;
    StageOfWindow(e, start, frames);
    e.ScheduleBefore(start, frames);
    FirstLateMeans(e.clock, start, e.records);
    FirstLateExactlyWhen(e.clock, start, e.records, f);
    EntryTold(e, start, f);
    NoWraps(0);
  }

  lemma NoWraps(n: uint32)
    ensures Wrap32(n) == n
  {
  }

  lemma EntryTold(e: Executive, start: uint64, f: uint32)
    requires e.DegradesWhenLate(start) && !e.startsSafe && f < U32_MAX
    ensures f != SAFE_ENTRY_NONE
    ensures e.safeEntry == f <==> FirstLate(e.clock, start, e.records) == Some(f)
    ensures e.safeEntry == SAFE_ENTRY_NONE <==> FirstLate(e.clock, start, e.records) == None
  {
    hide FirstLate;
  }

  lemma TopNotReached(e: Executive, start: uint64, frames: nat)
    requires e.Between(start, frames) && e.shortBoots < 5
    ensures InTable(e.table, e.overruns) && !ReachedTop(e.table, e.overruns)
  {
    hide e.Stage, e.OnSchedule, e.History, e.DegradesWhenLate, e.FedEvery, ReachedTop, e.TraceHolds, e.StatesHold;
  }

  /** Short of five short boots no window ends well if the run its environment leads to climbs to rung 3. */
  lemma NoTopReached(e: Executive, start: uint64, frames: nat)
    requires e.Between(start, frames) && e.Ideal() && e.shortBoots < 5
    ensures !ReachedTop(e.table, Play(e.table, e.cost, ModeOf(e, start), frames).es)
  {
    hide *;
    WindowIsReplay(e, start, frames);
    TopNotReached(e, start, frames);
  }

  /** And only such a climb, of the run its environment leads to, ends one by resetting the machine. */
  lemma ResetMeans(e: Executive, start: uint64, frames: uint32)
    requires e.CutShort(start, frames) && e.Ideal()
    ensures e.shortBoots < 5
    ensures ReachedTop(e.table, Play(e.table, e.cost, ModeOf(e, start), frames).es)
  {
    assert e.DegradesWhenLate(start) && e.Interrupted(frames) by { hide e.Interrupted, e.OnSchedule; }
    FollowsClock(e, start);
    hide ModeOf, e.CutShort, e.DegradesWhenLate;
    var es := Play(e.table, e.cost, e.From(), frames).es;
    assert e.shortBoots < SHORT_BOOT_LIMIT && InTable(e.table, e.overruns) && ReachedTop(e.table, e.overruns) by {
      hide e.Stage, ReachedTop, Happened, e.TraceHolds, e.StatesHold;
    }
    hide e.Valid, Play, PlayTo, ReachedTop, Happened, e.ModeKnown, e.From, e.Ideal, InTable;
    var f: nat, n: nat :| f < frames && n <= |e.table| && e.Stage(f, n);
    assert e.Following(Slot(f, n));
    PlayToGrows(e.table, e.cost, e.From(), Slot(f, n), frames);
    assert e.overruns == es[..|e.overruns|];
    TopPrefix(e.table, es, |e.overruns|);
  }

  // ---- two runs ---------------------------------------------------------------------------------

  lemma SameRecords(a: Executive, b: Executive, start: uint64, start': uint64, frames: nat)
    requires a.Between(start, frames) && b.Between(start', frames) && a.clock == b.clock
    ensures start == start' && a.records == b.records && a.slackMin == b.slackMin && a.frameOverruns == b.frameOverruns
  {
    a.ScheduleBefore(start, frames);
    b.ScheduleBefore(start', frames);
    KeptFrom(a.clock, start, a.records);
    KeptFrom(b.clock, start', b.records);
    hide *;
    KeptByOne(a.clock, start, a.records, b.records);
  }

  lemma KeptFrom(clock: nat -> Option<uint64>, start: nat, records: seq<FrameRecord>)
    requires Kept(clock, start, records)
    ensures clock(0) == Some(start)
  {
  }

  lemma SameAccount(a: Executive, b: Executive, i: nat)
    requires a.Valid() && b.Valid() && a.table == b.table && a.cost == b.cost && i < |a.table|
    requires a.dispatched == b.dispatched && a.overruns == b.overruns
    ensures i < a.states.Length == b.states.Length && a.states[i] == b.states[i]
  {
    assert a.StatesHold(a.dispatched, a.overruns) && b.StatesHold(b.dispatched, b.overruns);
    hide a.Valid, b.Valid, Occurrences, Count, Worst, Wrap32;
    assert Counted(a.states[i], Occurrences(a.dispatched, i), Count(a.overruns, i), Worst(a.cost, a.dispatched, i));
  }

  lemma SameTrace(a: Executive, b: Executive)
    requires a.Valid() && b.Valid() && a.dispatched == b.dispatched
    ensures a.traceLen == b.traceLen <= a.trace.Length == b.trace.Length
    ensures forall k :: 0 <= k < a.traceLen ==> a.trace[k] == b.trace[k]
  {
    assert a.TraceHolds() && b.TraceHolds();
    hide a.Valid, b.Valid;
  }

  /**
    Two windows of one table over one environment end in identical observations: the trace,
    every task's counts and worst cost, the slack, the late frames and the feeds.
  */
  lemma TwoRunsAgree(a: Executive, b: Executive, start: uint64, start': uint64, frames: nat)
    requires a.Between(start, frames) && b.Between(start', frames) && a.Ideal() && b.Ideal()
    requires a.table == b.table && a.clock == b.clock && a.cost == b.cost && a.startsSafe == b.startsSafe
    ensures start == start' && a.records == b.records && a.slackMin == b.slackMin && a.frameOverruns == b.frameOverruns
    ensures a.dispatched == b.dispatched && a.overruns == b.overruns && a.withheld == b.withheld
    ensures a.safeEntry == b.safeEntry && a.told == b.told && a.fed == b.fed
    ensures a.traceLen == b.traceLen <= a.trace.Length == b.trace.Length
    ensures forall k :: 0 <= k < a.traceLen ==> a.trace[k] == b.trace[k]
    ensures forall i: nat :: i < |a.table| ==> i < a.states.Length == b.states.Length && a.states[i] == b.states[i]
  {
    SameRecords(a, b, start, start', frames);
    WindowIsReplay(a, start, frames);
    WindowIsReplay(b, start', frames);
    SameMode(a, b, start, frames);
    a.ScheduleBefore(start, frames);
    b.ScheduleBefore(start', frames);
    a.HistoryBefore(start, frames);
    b.HistoryBefore(start', frames);
    hide *;
    SameTrace(a, b);
    forall i: nat | i < |a.table| ensures i < a.states.Length == b.states.Length && a.states[i] == b.states[i] {
      SameAccount(a, b, i);
    }
  }

  lemma SameMode(a: Executive, b: Executive, start: uint64, frames: nat)
    requires a.Between(start, frames) && b.Between(start, frames) && a.Ideal() && b.Ideal()
    requires a.records == b.records && a.clock == b.clock && a.startsSafe == b.startsSafe
    ensures a.safeEntry == b.safeEntry && a.From() == b.From()
  {
    StageOfWindow(a, start, frames);
    StageOfWindow(b, start, frames);
    hide FirstLate, a.Between, b.Between, a.Following, b.Following, a.Stage, b.Stage, a.Ideal, b.Ideal;
  }

  // ---- which suspensions the trace shows ------------------------------------------------------

  /** In one window no overrun counter can go round: a task overruns at most once a frame. */
  lemma WindowBelowWrap(table: seq<Task>, es: seq<Overrun>, frames: uint32)
    requires Happened(es, Slot(frames, 0))
    ensures BelowWrap(table, es)
  {
    hide Count;
    forall i | 0 <= i < |table| ensures Count(es, i) < 0x1_0000_0000 {
      CountInWindow(es, i, frames);
    }
  }

  lemma TrackedHappened(table: seq<Task>, from: Option<nat>, es: seq<Overrun>, withheld: set<Slot>, at: Slot,
                        dispatched: seq<nat>)
    requires Tracked(table, from, es, withheld, at, dispatched)
    ensures Happened(es, at)
  {
    hide Decided, TraceAt, Live, InTable, Ordered, Precedes;
  }

  /** A suspension whose slot is live and inside the window withheld it exactly when it stood. */
  lemma StandsIsWithheld(table: seq<Task>, from: Option<nat>, es: seq<Overrun>, withheld: set<Slot>, frames: uint32,
                         dispatched: seq<nat>, k: nat)
    requires Tracked(table, from, es, withheld, Slot(frames, 0), dispatched) && k < |es| && Suspends(table, es, k)
    ensures var s := NamedBy(table, es, k);
            s in withheld <==> s.frame < frames && Live(table, from, s) && Stands(table, es, k)
  {
    hide Live, Announced, Pending, Suspends, NamedBy, Stands, OverrunsRan, TraceAt, Ordered, Until;
    TrackedHappened(table, from, es, withheld, Slot(frames, 0), dispatched);
    WindowBelowWrap(table, es, frames);
    StandsIsPending(table, es, k);
  }

  /** Every suspension for a live slot of the window stood until its slot. */
  predicate AllStand(table: seq<Task>, from: Option<nat>, es: seq<Overrun>, frames: nat)
    requires InTable(table, es)
  {
    forall k :: 0 <= k < |es| && Suspends(table, es, k) ==>
      var s := NamedBy(table, es, k);
      s.frame < frames && Live(table, from, s) ==> Stands(table, es, k)
  }

  /**
    The trace is the expectation over the rung-1 announcements exactly when every suspension
    for a live slot of the window was still the one remembered when that slot came: no later
    rung-1 overrun in a slot before it, and no next due frame gone round.
  */
  lemma TraceMatchesExactlyWhen(table: seq<Task>, from: Option<nat>, es: seq<Overrun>, withheld: set<Slot>,
                                frames: uint32, dispatched: seq<nat>)
    requires Tracked(table, from, es, withheld, Slot(frames, 0), dispatched)
    ensures dispatched == Expected(table, Suspended(Announced(table, es)), from, frames)
            <==> AllStand(table, from, es, frames)
  {
    assert InTable(table, es);
    WindowFollowsTable(table, from, es, withheld, frames, dispatched);
    var named := Suspended(Announced(table, es));
    hide Tracked, Live, Announced, Suspended, Pending, Expected, Suspends, NamedBy, Stands, InTable;
    LargerLogAgreesExactlyWhen(table, withheld, named, from, frames);
    forall k | 0 <= k < |es| && Suspends(table, es, k)
      ensures NamedBy(table, es, k) in named
      ensures var s := NamedBy(table, es, k);
              s in withheld <==> s.frame < frames && Live(table, from, s) && Stands(table, es, k)
    {
      SuspendedAreNamed(table, es, NamedBy(table, es, k));
      StandsIsWithheld(table, from, es, withheld, frames, dispatched, k);
    }
    if AllStand(table, from, es, frames) {
      forall s | s in named && s.frame < frames && Live(table, from, s) ensures s in withheld {
        SuspendedAreNamed(table, es, s);
        var k :| 0 <= k < |es| && Suspends(table, es, k) && NamedBy(table, es, k) == s;
      }
    }
  }

  lemma OverrunsInWindow(table: seq<Task>, from: Option<nat>, es: seq<Overrun>, withheld: set<Slot>, frames: nat)
    requires OverrunsRan(table, from, es, withheld, Slot(frames, 0))
    ensures forall j :: 0 <= j < |es| ==> es[j].frame < frames
    ensures InTable(table, es) && WhereDue(table, es)
  {
    forall j | 0 <= j < |es|
      ensures es[j].frame < frames && es[j].task < |table| && Due(table[es[j].task], es[j].frame)
    {
      assert Live(table, from, SlotOf(es[j]));
    }
  }

  lemma OneAtATimeAllStand(table: seq<Task>, from: Option<nat>, es: seq<Overrun>, frames: nat)
    requires InTable(table, es) && WhereDue(table, es) && OneAtATime(table, es)
    ensures AllStand(table, from, es, frames)
  {
    forall k | 0 <= k < |es| && Suspends(table, es, k) ensures Stands(table, es, k) {
      assert Due(table[es[k].task], es[k].frame);
      OneAtATimeStands(table, es, k);
    }
  }

  /** In particular with never two suspensions pending. */
  lemma OneAtATimeMatches(table: seq<Task>, from: Option<nat>, es: seq<Overrun>, withheld: set<Slot>, frames: uint32,
                          dispatched: seq<nat>)
    requires Tracked(table, from, es, withheld, Slot(frames, 0), dispatched) && OneAtATime(table, es)
    ensures dispatched == Expected(table, Suspended(Announced(table, es)), from, frames)
  {
    OverrunsInWindow(table, from, es, withheld, frames);
    hide Tracked, OneAtATime, AllStand, Announced, Suspended, Expected;
    OneAtATimeAllStand(table, from, es, frames);
    TraceMatchesExactlyWhen(table, from, es, withheld, frames, dispatched);
  }

  // ---- the log the host reads ------------------------------------------------------------------

  /** The slots the log names once its frames are bytes: the checker takes every entry, whatever its rung. */
  function LoggedSlots(ann: seq<Entry>): set<Slot> {
    set k | 0 <= k < |ann| :: Logged(ann[k])
  }

  function Logged(e: Entry): Slot {
    Slot(e.frame % 0x100, e.task)
  }

  lemma LoggedAre(table: seq<Task>, es: seq<Overrun>, s: Slot)
    requires InTable(table, es)
    ensures s in LoggedSlots(Announced(table, es)) <==>
            exists j :: 0 <= j < |es| && RungAt(table, es, j) != RUNG_RESET_MACHINE
                        && Logged(EntryOf(table, es, j)) == s
  {
    hide Announced, RungAt, EntryOf, Logged;
    var ann := Announced(table, es);
    if k :| 0 <= k < |ann| && Logged(ann[k]) == s {
      var j := AnnouncedFrom(table, es, k);
    }
    if j :| 0 <= j < |es| && RungAt(table, es, j) != RUNG_RESET_MACHINE && Logged(EntryOf(table, es, j)) == s {
      var k := AnnouncedBy(table, es, j);
    }
  }

  /**
    An entry as the host reads it is harmless: it is for a slot the table does not dictate in
    the window, or it is the whole of a suspension that stood.
  */
  predicate EntryTells(table: seq<Task>, from: Option<nat>, es: seq<Overrun>, frames: nat, k: nat)
    requires InTable(table, es) && k < |es|
  {
    var e := EntryOf(table, es, k);
    Logged(e).frame < frames && Live(table, from, Logged(e)) ==>
      Suspends(table, es, k) && e.frame < 0x100 && Stands(table, es, k)
  }

  predicate LogTells(table: seq<Task>, from: Option<nat>, es: seq<Overrun>, frames: nat)
    requires InTable(table, es)
  {
    forall k :: 0 <= k < |es| && RungAt(table, es, k) != RUNG_RESET_MACHINE ==> EntryTells(table, from, es, frames, k)
  }

  lemma NamedByEntry(table: seq<Task>, es: seq<Overrun>, k: nat)
    requires InTable(table, es) && k < |es|
    ensures Suspends(table, es, k) ==>
              NamedBy(table, es, k) == Slot(EntryOf(table, es, k).frame, EntryOf(table, es, k).task)
    ensures RungAt(table, es, k) == RUNG_RESET_SUBSYSTEM ==>
              SlotOf(es[k]) == Slot(EntryOf(table, es, k).frame, EntryOf(table, es, k).task)
    ensures EntryOf(table, es, k).task == es[k].task
  {
    hide RungAt;
  }

  /** What was withheld was named by a suspension. */
  lemma WithheldWasNamed(table: seq<Task>, from: Option<nat>, es: seq<Overrun>, s: Slot) returns (l: nat)
    requires InTable(table, es) && WithheldAt(table, from, es, s)
    ensures l < |es| && Suspends(table, es, l) && NamedBy(table, es, l) == s
  {
    hide Announced, Suspended, Pending, Live, Suspends, NamedBy;
    WithheldIsSuspended(table, from, es, s);
    SuspendedAreNamed(table, es, s);
    l :| 0 <= l < |es| && Suspends(table, es, l) && NamedBy(table, es, l) == s;
  }

  lemma WithheldFacts(table: seq<Task>, from: Option<nat>, es: seq<Overrun>, withheld: set<Slot>, frames: nat,
                      dispatched: seq<nat>, s: Slot)
    requires Tracked(table, from, es, withheld, Slot(frames, 0), dispatched) && s in withheld
    ensures InTable(table, es) && s.frame < frames && WithheldAt(table, from, es, s)
  {
    hide WithheldAt, TraceAt, Ordered, OverrunsRan, InTable;
  }

  lemma RanFacts(table: seq<Task>, from: Option<nat>, es: seq<Overrun>, withheld: set<Slot>, frames: nat,
                 dispatched: seq<nat>, k: nat)
    requires Tracked(table, from, es, withheld, Slot(frames, 0), dispatched) && k < |es|
    ensures InTable(table, es) && SlotOf(es[k]) !in withheld && es[k].frame < frames
    ensures Live(table, from, SlotOf(es[k]))
  {
    hide WithheldAt, TraceAt, Ordered, Decided, InTable, Live;
  }

  /** A logged suspension for a live slot of the window: withheld exactly when nothing was cut off and it stood. */
  lemma SuspensionTells(table: seq<Task>, from: Option<nat>, es: seq<Overrun>, withheld: set<Slot>, frames: nat,
                        dispatched: seq<nat>, k: nat)
    requires Tracked(table, from, es, withheld, Slot(frames, 0), dispatched) && frames <= 0x100
    requires k < |es| && Suspends(table, es, k)
    requires Logged(EntryOf(table, es, k)).frame < frames && Live(table, from, Logged(EntryOf(table, es, k)))
    ensures Logged(EntryOf(table, es, k)) in withheld
            <==> EntryOf(table, es, k).frame < 0x100 && Stands(table, es, k)
  {
    assert InTable(table, es);
    hide *;
    var e := EntryOf(table, es, k);
    var s := Logged(e);
    LoggedWhole(e);
    NamedByEntry(table, es, k);
    StandsIsWithheld(table, from, es, withheld, frames, dispatched, k);
    if s in withheld {
      WithheldFacts(table, from, es, withheld, frames, dispatched, s);
      TrackedHappened(table, from, es, withheld, Slot(frames, 0), dispatched);
      WindowBelowWrap(table, es, frames);
      var l := WithheldWasNamed(table, from, es, s);
      NamedByTask(table, es, l);
      NamedByTask(table, es, k);
      SuspendsOnce(table, es, l, k);
    }
  }

  lemma LoggedWhole(e: Entry)
    ensures Logged(e) == Slot(e.frame, e.task) <==> e.frame < 0x100
  {
  }

  lemma NamedByTask(table: seq<Task>, es: seq<Overrun>, k: nat)
    requires InTable(table, es) && k < |es|
    ensures NamedBy(table, es, k).task == es[k].task
    ensures Logged(EntryOf(table, es, k)).task == es[k].task
  {
  }

  /** One logged entry, for a live slot of the window: harmless exactly when that slot was withheld. */
  lemma EntryTellsExactlyWhen(table: seq<Task>, from: Option<nat>, es: seq<Overrun>, withheld: set<Slot>, frames: nat,
                              dispatched: seq<nat>, k: nat)
    requires Tracked(table, from, es, withheld, Slot(frames, 0), dispatched) && frames <= 0x100
    requires k < |es| && RungAt(table, es, k) != RUNG_RESET_MACHINE
    requires Logged(EntryOf(table, es, k)).frame < frames && Live(table, from, Logged(EntryOf(table, es, k)))
    ensures EntryTells(table, from, es, frames, k) <==> Logged(EntryOf(table, es, k)) in withheld
  {
    assert InTable(table, es);
    hide *;
    RungRange(table, es, k);
    EntryTellsMeans(table, from, es, frames, k);
    LoggedWhole(EntryOf(table, es, k));
    if Suspends(table, es, k) {
      SuspensionTells(table, from, es, withheld, frames, dispatched, k);
    } else {
      RanFacts(table, from, es, withheld, frames, dispatched, k);
      NamedByEntry(table, es, k);
    }
  }

  lemma RungRange(table: seq<Task>, es: seq<Overrun>, k: nat)
    requires InTable(table, es) && k < |es|
    ensures 1 <= RungAt(table, es, k) <= 3
    ensures Suspends(table, es, k) <==> RungAt(table, es, k) == RUNG_SUSPEND_TASK
  {
  }

  lemma EntryTellsMeans(table: seq<Task>, from: Option<nat>, es: seq<Overrun>, frames: nat, k: nat)
    requires InTable(table, es) && k < |es|
    requires Logged(EntryOf(table, es, k)).frame < frames && Live(table, from, Logged(EntryOf(table, es, k)))
    ensures EntryTells(table, from, es, frames, k) <==>
            Suspends(table, es, k) && EntryOf(table, es, k).frame < 0x100 && Stands(table, es, k)
  {
    hide RungAt, Live, EntryOf, Stands;
  }

  /**
    For a window of at most 256 frames, the sequence the checker derives from the log is the
    dispatched one exactly when every logged entry is harmless.
  */
  lemma LogTellsExactlyWhen(table: seq<Task>, from: Option<nat>, es: seq<Overrun>, withheld: set<Slot>, frames: nat,
                            dispatched: seq<nat>)
    requires Tracked(table, from, es, withheld, Slot(frames, 0), dispatched) && frames <= 0x100
    ensures dispatched == Expected(table, LoggedSlots(Announced(table, es)), from, frames)
            <==> LogTells(table, from, es, frames)
  {
    assert InTable(table, es);
    var logged := LoggedSlots(Announced(table, es));
    WindowFollowsTable(table, from, es, withheld, frames, dispatched);
    forall s | s in withheld ensures s in logged {
      GapIsLogged(table, from, es, withheld, frames, dispatched, s);
    }
    hide Tracked, Live, Announced, Expected, LoggedSlots, RungAt, EntryOf, InTable, Logged, Suspended;
    LargerLogAgreesExactlyWhen(table, withheld, logged, from, frames);
    forall k | 0 <= k < |es| && RungAt(table, es, k) != RUNG_RESET_MACHINE
      ensures Logged(EntryOf(table, es, k)) in logged
      ensures var s := Logged(EntryOf(table, es, k));
              s.frame < frames && Live(table, from, s) ==> (EntryTells(table, from, es, frames, k) <==> s in withheld)
    {
      LoggedAre(table, es, Logged(EntryOf(table, es, k)));
      if Logged(EntryOf(table, es, k)).frame < frames && Live(table, from, Logged(EntryOf(table, es, k))) {
        EntryTellsExactlyWhen(table, from, es, withheld, frames, dispatched, k);
      }
    }
    if LogTells(table, from, es, frames) {
      forall s | s in logged && s.frame < frames && Live(table, from, s) ensures s in withheld {
        LoggedAre(table, es, s);
        var k :| 0 <= k < |es| && RungAt(table, es, k) != RUNG_RESET_MACHINE && Logged(EntryOf(table, es, k)) == s;
      }
    }
  }

  lemma GapIsLogged(table: seq<Task>, from: Option<nat>, es: seq<Overrun>, withheld: set<Slot>, frames: nat,
                    dispatched: seq<nat>, s: Slot)
    requires Tracked(table, from, es, withheld, Slot(frames, 0), dispatched) && frames <= 0x100 && s in withheld
    ensures s in LoggedSlots(Announced(table, es))
  {
    hide Tracked, Announced, LoggedSlots, WithheldAt, RungAt, EntryOf, NamedBy;
    WithheldFacts(table, from, es, withheld, frames, dispatched, s);
    var l := WithheldWasNamed(table, from, es, s);
    NamedByEntry(table, es, l);
    LoggedAre(table, es, s);
    assert Logged(EntryOf(table, es, l)) == s;
  }

  /** The window and every period leave the announced frames inside a byte. */
  predicate FramesFit(table: seq<Task>, frames: nat) {
    frames <= 0x100 && forall i :: 0 <= i < |table| ==> frames + table[i].period <= 0x100
  }

  lemma EntryFits(table: seq<Task>, es: seq<Overrun>, frames: nat, k: nat)
    requires InTable(table, es) && WhereDue(table, es) && k < |es| && FramesFit(table, frames)
    requires es[k].frame < frames
    ensures EntryOf(table, es, k).frame < 0x100
    ensures es[k].frame + table[es[k].task].period < 0x1_0000_0000
  {
    hide RungAt;
    var e := es[k];
    assert Due(table[e.task], e.frame);
    assert e.frame + table[e.task].period < 0x100;
  }

  /** No overrun reached rung 2. */
  predicate NoRung2(table: seq<Task>, es: seq<Overrun>)
    requires InTable(table, es)
  {
    forall k :: 0 <= k < |es| ==> RungAt(table, es, k) != RUNG_RESET_SUBSYSTEM
  }

  /**
    With room for frame numbers in a byte and never two suspensions pending, the order check
    passes exactly when no subsystem was reset: the checker takes a rung-2 entry for a
    withheld dispatch, though that task had run.
  */
  lemma OrderHoldsExactlyWhen(table: seq<Task>, from: Option<nat>, es: seq<Overrun>, withheld: set<Slot>, frames: nat,
                              dispatched: seq<nat>)
    requires Tracked(table, from, es, withheld, Slot(frames, 0), dispatched)
    requires FramesFit(table, frames) && OneAtATime(table, es)
    ensures LogTells(table, from, es, frames) <==> NoRung2(table, es)
    ensures dispatched == Expected(table, LoggedSlots(Announced(table, es)), from, frames) <==> NoRung2(table, es)
  {
    assert frames <= 0x100;
    LogTellsExactlyWhen(table, from, es, withheld, frames, dispatched);
    OverrunsInWindow(table, from, es, withheld, frames);
    forall k | 0 <= k < |es| ensures Live(table, from, SlotOf(es[k])) {}
    hide Tracked, Announced, Expected, LoggedSlots, RungAt, OneAtATime, Live, FramesFit, InTable, WhereDue, EntryOf;
    OneAtATimeTells(table, from, es, frames);
  }

  lemma OneEntryTells(table: seq<Task>, from: Option<nat>, es: seq<Overrun>, frames: nat, k: nat)
    requires InTable(table, es) && WhereDue(table, es) && FramesFit(table, frames) && OneAtATime(table, es)
    requires k < |es| && RungAt(table, es, k) != RUNG_RESET_MACHINE
    requires es[k].frame < frames && Live(table, from, SlotOf(es[k]))
    ensures EntryTells(table, from, es, frames, k) <==> RungAt(table, es, k) != RUNG_RESET_SUBSYSTEM
  {
    assert Due(table[es[k].task], es[k].frame);
    assert frames <= 0x100;
    hide RungAt, Live, FramesFit, EntryOf, NamedBy, Stands, OneAtATime, Due, WhereDue, InTable;
    EntryFits(table, es, frames, k);
    RungRange(table, es, k);
    NamedByEntry(table, es, k);
    if Suspends(table, es, k) {
      OneAtATimeStands(table, es, k);
    }
  }

  lemma OneAtATimeTells(table: seq<Task>, from: Option<nat>, es: seq<Overrun>, frames: nat)
    requires InTable(table, es) && WhereDue(table, es) && FramesFit(table, frames) && OneAtATime(table, es)
    requires forall k :: 0 <= k < |es| ==> es[k].frame < frames && Live(table, from, SlotOf(es[k]))
    ensures LogTells(table, from, es, frames) <==> NoRung2(table, es)
  {
    hide RungAt, EntryTells, Live, FramesFit, OneAtATime, WhereDue, InTable;
    forall k | 0 <= k < |es| && RungAt(table, es, k) != RUNG_RESET_MACHINE
      ensures EntryTells(table, from, es, frames, k) <==> RungAt(table, es, k) != RUNG_RESET_SUBSYSTEM
    {
      OneEntryTells(table, from, es, frames, k);
    }
  }

  /**
    The check of the announcements themselves passes exactly when each lies inside the
    window: an overrun in a task's last due frame announces a gap after the window closes,
    and the host rejects that run although nothing was dropped.
  */
  lemma AnnouncementsPassExactlyWhen(table: seq<Task>, es: seq<Overrun>, frames: nat, k: nat)
    requires InTable(table, es) && WhereDue(table, es) && FramesFit(table, frames)
    requires k < |es| && RungAt(table, es, k) != RUNG_RESET_MACHINE && es[k].frame < frames
    ensures Announceable(table, frames, Logged(EntryOf(table, es, k))) <==> EntryOf(table, es, k).frame < frames
  {
    EntryFits(table, es, frames, k);
    RungRange(table, es, k);
    NamedByTask(table, es, k);
    LoggedWhole(EntryOf(table, es, k));
    EntryIsDue(table, es, k);
    hide RungAt, EntryOf, Logged, Due, FramesFit, WhereDue;
  }

  lemma EntryIsDue(table: seq<Task>, es: seq<Overrun>, k: nat)
    requires InTable(table, es) && WhereDue(table, es) && k < |es|
    requires es[k].frame + table[es[k].task].period < 0x1_0000_0000
    ensures EntryOf(table, es, k).task == es[k].task && Due(table[es[k].task], EntryOf(table, es, k).frame)
  {
    hide RungAt;
    assert Due(table[es[k].task], es[k].frame);
    PeriodLater(es[k].frame, table[es[k].task].period);
  }

}
