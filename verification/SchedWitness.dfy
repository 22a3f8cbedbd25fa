/**
  Runs of the executive on which a promise of the host's checks fails.  Each is given by a
  table, the cost of every dispatch and a mode; the overruns and the withheld slots follow
  from those, and `Demonstrate` runs the executive to that end on a clock that is never late.
*/
module SchedWitness {
  import opened Words
  import opened TraceCheck
  import opened Ladder
  import opened Window
  import opened Replay
  import opened Waiting
  import opened Sched
  import opened SchedRuns
  import opened HostVerdict
  import opened Feeds

  // ---- the runs exist -------------------------------------------------------------------------

  /** What the machine can do: bodies to call, budgets, costs of at least one instruction, no rung 3. */
  ghost predicate Runnable(table: seq<Task>, cost: nat -> uint32, frames: nat) {
    && 1 <= |table| <= MAX_TASKS && frames <= 0x100
    && (forall i :: 0 <= i < |table| ==> table[i].hasFn && table[i].budget > 0)
    && (forall n :: cost(n) > 0)
    && !ReachedTop(table, Play(table, cost, None, frames).es)
  }

  /** A clock that moves half a frame between readings, until it can move no further. */
  function Steady(k: nat): Option<uint64> {
    Some(if 512 * k > 0xFFFF_FFFF_FFFF_FFFF then 0xFFFF_FFFF_FFFF_FFFF else 512 * k)
  }

  lemma DeadlineOf(f: nat)
    requires f < 0x100
    ensures Deadline(0, f) == 1024 * (f + 1)
  {
  }

  /** On it a frame's slack is measured one reading before its boundary. */
  lemma {:induction false} SteadyRecords(records: seq<FrameRecord>)
    requires Kept(Steady, 0, records) && |records| <= 0x100
    ensures NextReading(records) == 2 * |records| + 1 && FirstLate(Steady, 0, records) == None
  {
    if records == [] {
    } else {
      hide Kept, Waited, Steady, Deadline;
      var n := |records| - 1;
      KeptShorter(Steady, 0, records);
      SteadyRecords(records[..n]);
      DeadlineOf(n);
      SteadyFrame(n, records[n]);
    }
  }

  lemma SteadyFrame(f: nat, r: FrameRecord)
    requires f < 0x100 && r.checked == 2 * f + 1 && Waited(Steady, 1024 * (f + 1), r)
    ensures r.closed == 2 * f + 2 && !Reaches(Steady, r.checked, 1024 * (f + 1))
  {
    assert !Short(Steady, 2 * f + 2, 1024 * (f + 1)) && Reaches(Steady, r.closed, 1024 * (f + 1));
  }

  lemma SteadyMode(e: Executive, start: uint64, frames: nat)
    requires e.clock == Steady && e.OnSchedule(start, frames) && frames <= 0x100
    ensures start == 0 && ModeOf(e, start) == if e.startsSafe then Some(0) else None
  {
    hide e.Between, FirstLate, LateFrames, LeastSlack, NextReading;
    assert Kept(Steady, start, e.records) && Steady(0) == Some(0);
    SteadyRecords(e.records);
  }

  lemma SteadyCutShort(e: Executive, start: uint64, frames: nat)
    requires e.CutShort(start, frames) && e.clock == Steady && frames <= 0x100
    ensures ModeOf(e, start) == if e.startsSafe then Some(0) else None
  {
    hide e.Interrupted, e.OnSchedule, e.DegradesWhenLate;
    var f: nat :| f < frames && e.OnSchedule(start, f);
    SteadyMode(e, start, f);
  }

  lemma SteadyReaches(e: Executive, f: nat)
    requires e.clock == Steady && f < 0x100
    ensures !e.GaveUp(Deadline(0, f)) && !e.ClockFailed()
  {
    DeadlineOf(f);
    if e.clockReads >= IDLE_GUARD {
      assert !Short(e.clock, e.clockReads - 1, Deadline(0, f)) by { hide Deadline; }
    }
  }

  lemma NominalIdeal(e: Executive, frames: nat)
    requires Runnable(e.table, e.cost, frames) && (forall n :: !e.voteFails(n))
    requires e.shortBoots == if e.startsSafe then 5 else 0
    ensures e.Ideal() && 1 <= |e.table| <= MAX_TASKS
    ensures !ReachedTop(e.table, Play(e.table, e.cost, None, frames).es)
  {
    hide Play, ReachedTop;
  }

  /**
    Runs the executive for this table and these costs to the end of a window; entered safe,
    it runs in the boot after the fifth short one, which no task can reset.
  */
  method Demonstrate(table: seq<Task>, cost: nat -> uint32, frames: uint32, startsSafe: bool)
    returns (e: Executive, ghost start: uint64)
    requires Runnable(table, cost, frames)
    ensures fresh(e) && e.table == table && e.cost == cost && e.startsSafe == startsSafe
    ensures e.Ideal() && e.Between(start, frames) && e.windowEnd == Wrap32(start + Ticks(frames))
    ensures var from := if startsSafe then Some(0) else None;
            ModeOf(e, start) == from
            && Played(e.dispatched, e.overruns, e.withheld) == Play(table, cost, from, frames)
  {
    hide *;
    e := new Executive(table, Steady, cost, n => false, if startsSafe then 5 else 0, startsSafe);
    NominalIdeal(e, frames);
    ghost var steady := e.clock == Steady;
    var st;
    st, start := e.RunWindow(frames);
    SteadyEnds(e, st, start, frames);
    WindowIsReplay(e, start, frames);
    e.ScheduleBefore(start, frames);
    e.Scheduled(start, frames);
    FramesSmall(table, cost, frames);
    SteadyMode(e, start, frames);
  }

  lemma FramesSmall(table: seq<Task>, cost: nat -> uint32, frames: nat)
    requires Runnable(table, cost, frames)
    ensures frames <= 0x100
  {
  }

  /** No end but a good one is left. */
  lemma SteadyEnds(e: Executive, st: Status, start: uint64, frames: uint32)
    requires e.clock == Steady && e.Ideal() && Runnable(e.table, e.cost, frames)
    requires e.shortBoots == if e.startsSafe then 5 else 0
    requires st == Invalid <==> |e.table| == 0 || |e.table| > MAX_TASKS
    requires st == MachineReset ==> e.CutShort(start, frames)
    requires st == Unstable ==> e.ClockFailed()
    requires st == Timeout ==> exists f: nat :: f < frames && e.GaveUp(Deadline(start, f))
    requires st == Ok || st == Timeout ==> e.clock(0) == Some(start)
    ensures st == Ok
  {
    hide Play, ReachedTop, e.CutShort, e.Ideal, e.GaveUp, e.ClockFailed, Deadline, ModeOf;
    SteadyReaches(e, 0);
    if st == Timeout {
      var f: nat :| f < frames && e.GaveUp(Deadline(start, f));
      SteadyReaches(e, f);
    } else if st == MachineReset {
      SteadyCutShort(e, start, frames);
      ResetMeans(e, start, frames);
    }
  }

  // ---- short runs, computed ------------------------------------------------------------------

  lemma OneOverrun(table: seq<Task>, e: Overrun)
    requires e.task < |table|
    ensures InTable(table, [e]) && RungAt(table, [e], 0) == RUNG_SUSPEND_TASK
    ensures Announced(table, [e]) == [EntryOf(table, [e], 0)]
    ensures Pending(Announced(table, [e])) == Some(NamedBy(table, [e], 0))
  {
    assert [e][..1] == [e] && [e][..0] == [];
    assert Count([e], e.task) == 1;
    LastEntryOf(table, [e]);
    SuspendsLast(table, [e]);
  }

  lemma CountOfTwo(e: Overrun, f: Overrun)
    ensures Count([e, f], f.task) == if e.task == f.task then 2 else 1
    ensures [e, f][..1] == [e] && [e, f][..2] == [e, f]
  {
    assert [e, f][..1] == [e] && [e][..0] == [];
    assert Count([e, f], f.task) == Count([e], f.task) + 1 && Count([e], f.task) == if e.task == f.task then 1 else 0;
  }

  lemma TwoOverruns(table: seq<Task>, e: Overrun, f: Overrun)
    requires e.task < |table| && f.task < |table|
    ensures InTable(table, [e, f])
    ensures RungAt(table, [e, f], 0) == RUNG_SUSPEND_TASK
    ensures RungAt(table, [e, f], 1) == RungFor(table[f.task], if e.task == f.task then 2 else 1)
    ensures Pending(Announced(table, [e, f]))
         == if RungAt(table, [e, f], 1) == RUNG_SUSPEND_TASK then Some(NamedBy(table, [e, f], 1))
            else Some(NamedBy(table, [e], 0))
  {
    var es := [e, f];
    assert InTable(table, es);
    hide RungAt, Announced, Pending, Count, RungFor, NamedBy;
    OneOverrun(table, e);
    CountOfTwo(e, f);
    RungAtIs(table, es, 1);
    SuspendsPrefix(table, es, 1, 0);
    SuspendsLast(table, es);
    SmallWord(if e.task == f.task then 2 else 1);
  }

  lemma SmallWord(n: uint32)
    ensures Wrap32(n) == n
  {
  }

  lemma NothingPending(table: seq<Task>)
    ensures InTable(table, []) && Pending(Announced(table, [])) == None
  {
  }

  lemma FitsWord(frame: nat)
    requires frame < 0x1_0000_0000
    ensures frame <= U32_MAX
  {
  }

  lemma NextIs(at: Slot)
    ensures Next(at) == Slot(at.frame, at.task + 1)
  {
  }

  /** A slot that is dispatched within its budget, and what the run is then. */
  lemma RunsNext(table: seq<Task>, cost: nat -> uint32, from: Option<nat>, at: Slot, p: Played, q: Played)
    requires PlayTo(table, cost, from, at) == p && InTable(table, p.es)
    requires Live(table, from, at) && Pending(Announced(table, p.es)) != Some(at)
    requires at.task < |table| && cost(|p.ran|) <= table[at.task].budget
    requires q == Played(p.ran + [at.task], p.es, p.withheld)
    ensures PlayTo(table, cost, from, Slot(at.frame, at.task + 1)) == q
  {
    hide *;
    PaysWithin(table[at.task], cost(|p.ran|), at);
    PlayNext(table, cost, from, at);
    NextIs(at);
    RanHere(table, cost, from, p, at);
    assert p.es + [] == p.es;
  }

  lemma PaysWithin(t: Task, used: uint32, at: Slot)
    requires used <= t.budget
    ensures Charged(t, used, at) == []
  {
  }

  /** And one that exceeds it. */
  lemma OverrunsNext(table: seq<Task>, cost: nat -> uint32, from: Option<nat>, at: Slot, p: Played, q: Played)
    requires PlayTo(table, cost, from, at) == p && InTable(table, p.es) && at.frame < 0x1_0000_0000
    requires Live(table, from, at) && Pending(Announced(table, p.es)) != Some(at)
    requires at.task < |table| && cost(|p.ran|) > table[at.task].budget
    requires q == Played(p.ran + [at.task], p.es + [Overrun(at.task, at.frame)], p.withheld)
    ensures PlayTo(table, cost, from, Slot(at.frame, at.task + 1)) == q
  {
    hide *;
    FitsWord(at.frame);
    PlayNext(table, cost, from, at);
    NextIs(at);
    RanHere(table, cost, from, p, at);
    ChargedIs(table[at.task], cost(|p.ran|), at);
  }

  /** A slot that is withheld. */
  lemma WithholdsNext(table: seq<Task>, cost: nat -> uint32, from: Option<nat>, at: Slot, p: Played)
    requires PlayTo(table, cost, from, at) == p && InTable(table, p.es)
    requires Live(table, from, at) && Pending(Announced(table, p.es)) == Some(at)
    ensures PlayTo(table, cost, from, Slot(at.frame, at.task + 1)) == Played(p.ran, p.es, p.withheld + {at})
  {
    hide *;
    PlayNext(table, cost, from, at);
    NextIs(at);
    WithheldHere(table, cost, from, p, at);
  }

  /** A row that is not due, or may not run. */
  lemma SkipsNext(table: seq<Task>, cost: nat -> uint32, from: Option<nat>, at: Slot, p: Played)
    requires PlayTo(table, cost, from, at) == p && InTable(table, p.es) && !Live(table, from, at)
    ensures PlayTo(table, cost, from, Slot(at.frame, at.task + 1)) == p
  {
    hide *;
    PlayNext(table, cost, from, at);
    NextIs(at);
    Skipped(table, cost, from, p, at);
  }

  lemma AlwaysDue(table: seq<Task>, s: Slot)
    requires s.task < |table| && table[s.task].period == 1
    ensures Live(table, None, s)
  {
    assert s.frame % 1 == 0;
  }

  // ---- two suspensions pending at once --------------------------------------------------------

  /** Two tasks, both due in every frame. */
  function TwoTasks(): seq<Task> {
    [Task(1, 1000, true, true, false), Task(1, 1000, true, true, false)]
  }

  /** The first two dispatches exceed a budget of 1000. */
  function FirstTwo(n: nat): uint32 {
    if n < 2 then 1001 else 500
  }

  lemma TwoRows()
    ensures |TwoTasks()| == 2 && forall i :: 0 <= i < 2 ==> TwoTasks()[i] == Task(1, 1000, true, true, false)
    ensures forall s: Slot :: s.task < 2 ==> Live(TwoTasks(), None, s)
  {
    forall s: Slot | s.task < 2 ensures Live(TwoTasks(), None, s) {
      AlwaysDue(TwoTasks(), s);
    }
  }

  lemma FirstTwoCosts()
    ensures FirstTwo(0) == FirstTwo(1) == 1001 && FirstTwo(2) == 500 && forall n :: FirstTwo(n) > 0
  {
  }

  /** Both overran in frame 0, so both were announced for frame 1. */
  function BothOverrun(): seq<Overrun> {
    [Overrun(0, 0), Overrun(1, 0)]
  }

  lemma OnePending()
    ensures InTable(TwoTasks(), [Overrun(0, 0)])
    ensures Pending(Announced(TwoTasks(), [Overrun(0, 0)])) == Some(Slot(1, 0))
  {
    OneOverrun(TwoTasks(), Overrun(0, 0));
    hide RungAt, Announced, Pending;
  }

  lemma BothPending()
    ensures InTable(TwoTasks(), BothOverrun())
    ensures Pending(Announced(TwoTasks(), BothOverrun())) == Some(Slot(1, 1))
    ensures var t, es := TwoTasks(), BothOverrun();
            && Suspends(t, es, 0) && Suspends(t, es, 1)
            && NamedBy(t, es, 0) == Slot(1, 0) && NamedBy(t, es, 1) == Slot(1, 1) && !ReachedTop(t, es)
  {
    TwoOverruns(TwoTasks(), Overrun(0, 0), Overrun(1, 0));
    hide RungAt, Announced, Pending;
  }

  lemma BothFirst()
    ensures PlayTo(TwoTasks(), FirstTwo, None, Slot(0, 1)) == Played([0], [Overrun(0, 0)], {})
  {
    hide *;
    TwoRows();
    FirstTwoCosts();
    NothingPending(TwoTasks());
    PlayStarts(TwoTasks(), FirstTwo, None);
    OverrunsNext(TwoTasks(), FirstTwo, None, Slot(0, 0), Played([], [], {}), Played([0], [Overrun(0, 0)], {}));
  }

  lemma BothSecond()
    ensures PlayTo(TwoTasks(), FirstTwo, None, Slot(1, 0)) == Played([0, 1], BothOverrun(), {})
  {
    assert BothOverrun() == [Overrun(0, 0)] + [Overrun(1, 0)];
    hide *;
    TwoRows();
    FirstTwoCosts();
    OnePending();
    BothFirst();
    OverrunsNext(TwoTasks(), FirstTwo, None, Slot(0, 1), Played([0], [Overrun(0, 0)], {}),
                 Played([0, 1], BothOverrun(), {}));
    PlayEndsFrame(TwoTasks(), FirstTwo, None, 0);
  }

  lemma BothPlay()
    ensures Play(TwoTasks(), FirstTwo, None, 2) == Played([0, 1, 0], BothOverrun(), {Slot(1, 1)})
  {
    hide *;
    TwoRows();
    FirstTwoCosts();
    BothPending();
    BothSecond();
    RunsNext(TwoTasks(), FirstTwo, None, Slot(1, 0), Played([0, 1], BothOverrun(), {}),
             Played([0, 1, 0], BothOverrun(), {}));
    WithholdsNext(TwoTasks(), FirstTwo, None, Slot(1, 1), Played([0, 1, 0], BothOverrun(), {}));
    PlayEndsFrame(TwoTasks(), FirstTwo, None, 1);
  }

  lemma BothNamed()
    ensures InTable(TwoTasks(), BothOverrun())
    ensures Suspended(Announced(TwoTasks(), BothOverrun())) == {Slot(1, 0), Slot(1, 1)}
  {
    var t, es := TwoTasks(), BothOverrun();
    BothPending();
    assert |es| == 2;
    hide *;
    forall s ensures s in Suspended(Announced(t, es)) <==> s == Slot(1, 0) || s == Slot(1, 1) {
      SuspendedAreNamed(t, es, s);
    }
  }

  lemma TwoTasksTrace(withheld: set<Slot>)
    requires withheld == {Slot(1, 0), Slot(1, 1)}
    ensures Expected(TwoTasks(), withheld, None, 2) == [0, 1]
  {
    var t := TwoTasks();
    forall s: Slot | s.task < 2 ensures Live(t, None, s) {
      AlwaysDue(t, s);
    }
    hide Live;
    assert FrameTrace(t, withheld, None, 0, 0) == [] && FrameTrace(t, withheld, None, 1, 0) == [];
    assert FrameTrace(t, withheld, None, 0, 1) == [0] && FrameTrace(t, withheld, None, 1, 1) == [];
    assert FrameTrace(t, withheld, None, 0, 2) == [0, 1] && FrameTrace(t, withheld, None, 1, 2) == [];
    assert Expected(t, withheld, None, 0) == [];
    assert Expected(t, withheld, None, 1) == [0, 1];
  }

  /**
    Two tasks that overrun in the same frame are both announced as withheld in the next, but
    the second suspension replaces the first: task 0 runs where the log says it did not, and
    the expectation over the announcements is one dispatch short.
  */
  lemma TwoPendingLosesOne()
    ensures Runnable(TwoTasks(), FirstTwo, 2)
    ensures Play(TwoTasks(), FirstTwo, None, 2) == Played([0, 1, 0], BothOverrun(), {Slot(1, 1)})
    ensures InTable(TwoTasks(), BothOverrun())
    ensures Expected(TwoTasks(), Suspended(Announced(TwoTasks(), BothOverrun())), None, 2) == [0, 1]
  {
    BothPlay();
    BothNamed();
    BothPending();
    hide Expected, Play, Announced, Suspended, Pending, ReachedTop;
    TwoTasksTrace({Slot(1, 0), Slot(1, 1)});
  }

  // ---- a subsystem reset ------------------------------------------------------------------------

  function WithReset(): seq<Task> {
    [Task(1, 1000, true, true, true)]
  }

  lemma ResetRow()
    ensures |WithReset()| == 1 && WithReset()[0] == Task(1, 1000, true, true, true)
    ensures forall s: Slot :: s.task < 1 ==> Live(WithReset(), None, s)
  {
    forall s: Slot | s.task < 1 ensures Live(WithReset(), None, s) {
      AlwaysDue(WithReset(), s);
    }
  }

  /** Over budget in frame 0, hence withheld in frame 1, and over budget again in frame 2. */
  function TwiceOver(): seq<Overrun> {
    [Overrun(0, 0), Overrun(0, 2)]
  }

  lemma TwicePending()
    ensures InTable(WithReset(), [Overrun(0, 0)]) && InTable(WithReset(), TwiceOver())
    ensures Pending(Announced(WithReset(), [Overrun(0, 0)])) == Some(Slot(1, 0))
    ensures FramesFit(WithReset(), 3) && OneAtATime(WithReset(), TwiceOver()) && !NoRung2(WithReset(), TwiceOver())
    ensures !ReachedTop(WithReset(), TwiceOver())
  {
    OneOverrun(WithReset(), Overrun(0, 0));
    TwoOverruns(WithReset(), Overrun(0, 0), Overrun(0, 2));
    hide RungAt, Announced, Pending, Live;
  }

  lemma TwiceFirst()
    ensures PlayTo(WithReset(), FirstTwo, None, Slot(2, 0)) == Played([0], [Overrun(0, 0)], {Slot(1, 0)})
  {
    hide *;
    var p1 := Played([0], [Overrun(0, 0)], {});
    ResetRow();
    FirstTwoCosts();
    NothingPending(WithReset());
    TwicePending();
    PlayStarts(WithReset(), FirstTwo, None);
    OverrunsNext(WithReset(), FirstTwo, None, Slot(0, 0), Played([], [], {}), p1);
    PlayEndsFrame(WithReset(), FirstTwo, None, 0);
    WithholdsNext(WithReset(), FirstTwo, None, Slot(1, 0), p1);
    PlayEndsFrame(WithReset(), FirstTwo, None, 1);
  }

  lemma TwicePlay()
    ensures Play(WithReset(), FirstTwo, None, 3) == Played([0, 0], TwiceOver(), {Slot(1, 0)})
  {
    assert TwiceOver() == [Overrun(0, 0)] + [Overrun(0, 2)];
    hide *;
    ResetRow();
    FirstTwoCosts();
    TwicePending();
    TwiceFirst();
    OverrunsNext(WithReset(), FirstTwo, None, Slot(2, 0), Played([0], [Overrun(0, 0)], {Slot(1, 0)}),
                 Played([0, 0], TwiceOver(), {Slot(1, 0)}));
    PlayEndsFrame(WithReset(), FirstTwo, None, 2);
  }

  lemma TwiceRunnable()
    ensures Runnable(WithReset(), FirstTwo, 3)
  {
    TwicePlay();
    TwicePending();
    hide Play, FramesFit, OneAtATime, NoRung2, ReachedTop, Announced, Pending, InTable;
  }

  /** This window meets every condition but the last, and the order check rejects it. */
  lemma ResetFailsOrder()
    ensures Runnable(WithReset(), FirstTwo, 3)
    ensures var t, p := WithReset(), Play(WithReset(), FirstTwo, None, 3);
            && p.ran == [0, 0] && p.withheld == {Slot(1, 0)}
            && FramesFit(t, 3) && OneAtATime(t, p.es) && !NoRung2(t, p.es)
            && p.ran != Expected(t, LoggedSlots(Announced(t, p.es)), None, 3)
  {
    TwiceRunnable();
    hide *;
    TwicePlay();
    TwicePending();
    var p := Play(WithReset(), FirstTwo, None, 3);
    PlayTracked(WithReset(), FirstTwo, None, 3);
    OrderHoldsExactlyWhen(WithReset(), None, p.es, p.withheld, 3, p.ran);
  }

  // ---- an overrun in the last frame --------------------------------------------------------------

  function OneTask(): seq<Task> {
    [Task(1, 1000, true, true, false)]
  }

  lemma LastFrameFacts()
    ensures var t, es := OneTask(), [Overrun(0, 0)];
            && InTable(t, es) && FramesFit(t, 1) && OneAtATime(t, es) && NoRung2(t, es) && !ReachedTop(t, es)
            && RungAt(t, es, 0) != RUNG_RESET_MACHINE && !Announceable(t, 1, Logged(EntryOf(t, es, 0)))
  {
    OneOverrun(OneTask(), Overrun(0, 0));
    hide RungAt, Announced, Pending, Live;
  }

  lemma LastFramePlay()
    ensures Play(OneTask(), FirstTwo, None, 1) == Played([0], [Overrun(0, 0)], {})
  {
    AlwaysDue(OneTask(), Slot(0, 0));
    NothingPending(OneTask());
    hide PlayTo, Play, Live, Pending, Announced, InTable;
    PlayStarts(OneTask(), FirstTwo, None);
    OverrunsNext(OneTask(), FirstTwo, None, Slot(0, 0), Played([], [], {}), Played([0], [Overrun(0, 0)], {}));
    PlayEndsFrame(OneTask(), FirstTwo, None, 0);
  }

  /** One overrun in the only frame: nothing is dropped, the order is right, the announcement lies outside. */
  lemma LastFrameFailsAnnouncements()
    ensures Runnable(OneTask(), FirstTwo, 1)
    ensures var t, p := OneTask(), Play(OneTask(), FirstTwo, None, 1);
            && p.ran == [0] && p.es == [Overrun(0, 0)] && p.withheld == {}
            && FramesFit(t, 1) && OneAtATime(t, p.es)
            && p.ran == Expected(t, LoggedSlots(Announced(t, p.es)), None, 1) && !EntriesInside(t, p.es, 1)
  {
    LastFramePlay();
    LastFrameFacts();
    hide Play, FramesFit, OneAtATime, NoRung2, ReachedTop, Expected, LoggedSlots, Announced, InTable, RungAt,
         Announceable, EntryOf, Tracked, Logged;
    var p := Play(OneTask(), FirstTwo, None, 1);
    PlayTracked(OneTask(), FirstTwo, None, 1);
    OrderHoldsExactlyWhen(OneTask(), None, p.es, p.withheld, 1, p.ran);
  }

  // ---- a frame number that does not fit a byte ------------------------------------------------------

  function SlowTask(): seq<Task> {
    [Task(128, 1000, true, true, false)]
  }

  /** Only the second dispatch exceeds a budget of 1000. */
  function SecondOnly(n: nat): uint32 {
    if n == 1 then 1001 else 500
  }

  lemma SlowFacts()
    ensures var t, es := SlowTask(), [Overrun(0, 128)];
            && InTable(t, es) && OneAtATime(t, es) && !ReachedTop(t, es)
            && RungAt(t, es, 0) == RUNG_SUSPEND_TASK && !EntryTells(t, None, es, 256, 0)
            && Pending(Announced(t, es)) == Some(Slot(256, 0))
  {
    OneOverrun(SlowTask(), Overrun(0, 128));
    assert Live(SlowTask(), None, Slot(128, 0)) && Live(SlowTask(), None, Slot(0, 0));
    assert EntryOf(SlowTask(), [Overrun(0, 128)], 0) == Entry(0, 256, 1);
    hide RungAt, Announced, Pending, Live, EntryOf;
  }

  /** Due in frames 0 and 128 of the window. */
  lemma SlowLive(f: nat)
    requires f < 256
    ensures Live(SlowTask(), None, Slot(f, 0)) <==> f == 0 || f == 128
  {
  }

  function SlowUntil(f: nat): Played {
    if f == 0 then Played([], [], {})
    else if f <= 128 then Played([0], [], {})
    else Played([0, 0], [Overrun(0, 128)], {})
  }

  lemma SlowRow()
    ensures |SlowTask()| == 1 && SlowTask()[0].budget == 1000
  {
  }

  lemma SlowFirst()
    ensures SlowUntil(0) == Played([], [], {}) && SlowUntil(1) == Played([0], [], {}) && SecondOnly(0) == 500
  {
  }

  lemma SlowSecond()
    ensures SlowUntil(128) == Played([0], [], {}) && SecondOnly(1) == 1001
    ensures SlowUntil(129) == Played([0, 0], [Overrun(0, 128)], {})
  {
  }

  lemma SlowSame(f: nat)
    requires f < 256 && f != 0 && f != 128
    ensures SlowUntil(f + 1) == SlowUntil(f)
  {
  }

  lemma SlowInTable(f: nat)
    ensures InTable(SlowTask(), SlowUntil(f).es)
  {
  }

  lemma SlowStep(f: nat)
    requires f < 256 && PlayTo(SlowTask(), SecondOnly, None, Slot(f, 0)) == SlowUntil(f)
    ensures PlayTo(SlowTask(), SecondOnly, None, Slot(f + 1, 0)) == SlowUntil(f + 1)
  {
    hide *;
    SlowRow();
    PlayEndsFrame(SlowTask(), SecondOnly, None, f);
    if f == 0 {
      SlowStart();
    } else if f == 128 {
      SlowOverrun();
    } else {
      SlowLive(f);
      SlowInTable(f);
      SlowSame(f);
      SkipsNext(SlowTask(), SecondOnly, None, Slot(f, 0), SlowUntil(f));
    }
  }

  lemma SlowStart()
    requires PlayTo(SlowTask(), SecondOnly, None, Slot(0, 0)) == SlowUntil(0)
    ensures PlayTo(SlowTask(), SecondOnly, None, Slot(0, 1)) == SlowUntil(1)
  {
    hide *;
    SlowRow();
    SlowLive(0);
    SlowInTable(0);
    NothingPending(SlowTask());
    SlowFirst();
    RunsNext(SlowTask(), SecondOnly, None, Slot(0, 0), SlowUntil(0), SlowUntil(1));
  }

  lemma SlowOverrun()
    requires PlayTo(SlowTask(), SecondOnly, None, Slot(128, 0)) == SlowUntil(128)
    ensures PlayTo(SlowTask(), SecondOnly, None, Slot(128, 1)) == SlowUntil(129)
  {
    hide *;
    SlowRow();
    SlowLive(128);
    SlowInTable(128);
    NothingPending(SlowTask());
    SlowSecond();
    assert [0] + [0] == [0, 0] && [] + [Overrun(0, 128)] == [Overrun(0, 128)];
    OverrunsNext(SlowTask(), SecondOnly, None, Slot(128, 0), SlowUntil(128), SlowUntil(129));
  }

  lemma {:induction false} SlowPlay(f: nat)
    requires f <= 256
    ensures PlayTo(SlowTask(), SecondOnly, None, Slot(f, 0)) == SlowUntil(f)
  {
    hide PlayTo;
    if f == 0 {
      PlayStarts(SlowTask(), SecondOnly, None);
    } else {
      SlowPlay(f - 1);
      SlowStep(f - 1);
    }
  }

  /** Suspended for frame 256, logged for frame 0, which the task had run in. */
  lemma NarrowFrameFailsOrder()
    ensures Runnable(SlowTask(), SecondOnly, 256)
    ensures var t, p := SlowTask(), Play(SlowTask(), SecondOnly, None, 256);
            && p.ran == [0, 0] && p.es == [Overrun(0, 128)] && p.withheld == {} && OneAtATime(t, p.es)
            && p.ran != Expected(t, LoggedSlots(Announced(t, p.es)), None, 256)
  {
    var t := SlowTask();
    SlowEnds();
    SlowRunnable();
    SlowFacts();
    SlowTells();
    hide *;
    var p := Play(t, SecondOnly, None, 256);
    PlayTracked(t, SecondOnly, None, 256);
    LogTellsExactlyWhen(t, None, p.es, p.withheld, 256, p.ran);
  }

  lemma SlowEnds()
    ensures Play(SlowTask(), SecondOnly, None, 256) == Played([0, 0], [Overrun(0, 128)], {})
  {
    assert SlowUntil(256) == Played([0, 0], [Overrun(0, 128)], {});
    hide *;
    SlowPlay(256);
    PlayEndsFrame(SlowTask(), SecondOnly, None, 256);
  }

  lemma SlowRunnable()
    ensures Runnable(SlowTask(), SecondOnly, 256)
  {
    SlowEnds();
    SlowFacts();
    hide Play, ReachedTop, OneAtATime, EntryTells, RungAt, Pending, Announced;
  }

  lemma SlowTells()
    ensures InTable(SlowTask(), [Overrun(0, 128)]) && !LogTells(SlowTask(), None, [Overrun(0, 128)], 256)
  {
    SlowFacts();
    hide OneAtATime, ReachedTop, EntryTells, RungAt, Pending, Announced, SlowTask;
    assert |[Overrun(0, 128)]| == 1;
  }

  // ---- a feed that is lost ------------------------------------------------------------------------

  /** The first and the third dispatch exceed a budget of 1000. */
  function FirstAndThird(n: nat): uint32 {
    if n == 0 || n == 2 then 1001 else 500
  }

  /** Task 0 overruns in frame 0 and is withheld in frame 1, in which task 1 overruns. */
  function OneThenOther(): seq<Overrun> {
    [Overrun(0, 0), Overrun(1, 1)]
  }

  lemma OtherPending()
    ensures InTable(TwoTasks(), OneThenOther())
    ensures Pending(Announced(TwoTasks(), OneThenOther())) == Some(Slot(2, 1))
    ensures OneAtATime(TwoTasks(), OneThenOther()) && !ReachedTop(TwoTasks(), OneThenOther())
  {
    TwoOverruns(TwoTasks(), Overrun(0, 0), Overrun(1, 1));
    hide RungAt, Announced, Pending, Live;
  }

  lemma OtherCosts()
    ensures FirstAndThird(0) == FirstAndThird(2) == 1001 && FirstAndThird(1) == 500
  {
  }

  lemma OtherFirst()
    ensures PlayTo(TwoTasks(), FirstAndThird, None, Slot(1, 0)) == Played([0, 1], [Overrun(0, 0)], {})
  {
    hide *;
    var p1 := Played([0], [Overrun(0, 0)], {});
    TwoRows();
    OtherCosts();
    NothingPending(TwoTasks());
    OnePending();
    PlayStarts(TwoTasks(), FirstAndThird, None);
    OverrunsNext(TwoTasks(), FirstAndThird, None, Slot(0, 0), Played([], [], {}), p1);
    RunsNext(TwoTasks(), FirstAndThird, None, Slot(0, 1), p1, Played([0, 1], [Overrun(0, 0)], {}));
    PlayEndsFrame(TwoTasks(), FirstAndThird, None, 0);
  }

  lemma OtherPlay()
    ensures Play(TwoTasks(), FirstAndThird, None, 2) == Played([0, 1, 1], OneThenOther(), {Slot(1, 0)})
  {
    assert OneThenOther() == [Overrun(0, 0)] + [Overrun(1, 1)];
    hide *;
    TwoRows();
    OtherCosts();
    OnePending();
    OtherFirst();
    WithholdsNext(TwoTasks(), FirstAndThird, None, Slot(1, 0), Played([0, 1], [Overrun(0, 0)], {}));
    OverrunsNext(TwoTasks(), FirstAndThird, None, Slot(1, 1), Played([0, 1], [Overrun(0, 0)], {Slot(1, 0)}),
                 Played([0, 1, 1], OneThenOther(), {Slot(1, 0)}));
    PlayEndsFrame(TwoTasks(), FirstAndThird, None, 1);
  }

  lemma OtherEnds()
    ensures InTable(TwoTasks(), OneThenOther()) && !EndsSuspended(TwoTasks(), OneThenOther(), 1)
  {
    assert Until(OneThenOther(), Slot(2, 0)) == OneThenOther();
    OtherPending();
    hide Announced, Pending, Until;
  }

  /** Never two suspensions pending and the trace is right, but frame 1 goes without its watchdog feed. */
  lemma HonouredThenReplacedIsNotFed()
    ensures Runnable(TwoTasks(), FirstAndThird, 2)
    ensures var t, p := TwoTasks(), Play(TwoTasks(), FirstAndThird, None, 2);
            p == Played([0, 1, 1], OneThenOther(), {Slot(1, 0)}) && OneAtATime(t, p.es) && !FedIn(t, None, p.es, 1)
  {
    OtherPlay();
    OtherPending();
    OtherEnds();
    hide Play, OneAtATime, ReachedTop, EndsSuspended, InTable, Pending, Announced;
    var p := Play(TwoTasks(), FirstAndThird, None, 2);
    PlayTracked(TwoTasks(), FirstAndThird, None, 2);
    assert Withholds(p.withheld, 1) by { assert Slot(1, 0) in p.withheld; }
    hide FrameWithholds, Withholds;
    WithholdsSame(TwoTasks(), None, p.es, p.withheld, 2, p.ran, 1);
  }

  // ---- four feeds lost in a row ---------------------------------------------------------------------

  /** Five tasks, all due in every frame. */
  function FiveTasks(): seq<Task> {
    seq(5, i => Task(1, 1000, true, true, false))
  }

  /** Every fifth of the first twenty-five dispatches exceeds a budget of 1000. */
  function EveryFifth(n: nat): uint32 {
    if n % 5 == 0 && n < 25 then 1001 else 500
  }

  /** The tasks overrun once each, in table order, in consecutive frames. */
  function Stairs(m: nat): (es: seq<Overrun>)
    requires m <= 5
    ensures |es| == m && forall k :: 0 <= k < m ==> es[k] == Overrun(k, k)
  {
    if m == 0 then [] else Stairs(m - 1) + [Overrun(m - 1, m - 1)]
  }

  lemma {:induction false} NoneOfTask(es: seq<Overrun>, task: nat)
    requires forall k :: 0 <= k < |es| ==> es[k].task != task
    ensures Count(es, task) == 0
  {
    if es == [] {
    } else {
      NoneOfTask(es[..|es| - 1], task);
    }
  }

  lemma StairsInTable(m: nat)
    requires m <= 5
    ensures InTable(FiveTasks(), Stairs(m)) && Ordered(Stairs(m))
  {
  }

  /** Each of them only suspends its task, for the next frame. */
  lemma StairSuspends(m: nat, k: nat)
    requires k < m <= 5
    ensures InTable(FiveTasks(), Stairs(m)) && Suspends(FiveTasks(), Stairs(m), k)
    ensures NamedBy(FiveTasks(), Stairs(m), k) == Slot(k + 1, k)
  {
    StairsInTable(m);
    StairAt(m, k);
    StairRow(k);
    hide *;
    CountOwn(Stairs(m), k);
    NoneOfTask(Stairs(m)[..k], k);
    RungAtIs(FiveTasks(), Stairs(m), k);
    FirstRung(FiveTasks()[k]);
    NamedNext(FiveTasks(), Stairs(m), k);
  }

  lemma StairAt(m: nat, k: nat)
    requires k < m <= 5
    ensures |Stairs(m)| == m && Stairs(m)[k] == Overrun(k, k)
    ensures forall j :: 0 <= j < k ==> Stairs(m)[..k][j].task != k
  {
  }

  lemma StairRow(k: nat)
    requires k < 5
    ensures |FiveTasks()| == 5 && FiveTasks()[k].period == 1
  {
  }

  lemma FirstRung(t: Task)
    ensures RungFor(t, Wrap32(1)) == RUNG_SUSPEND_TASK
  {
  }

  lemma NamedNext(table: seq<Task>, es: seq<Overrun>, k: nat)
    requires InTable(table, es) && k < |es| && es[k].frame == k && es[k].task == k < 5 && table[k].period == 1
    ensures NamedBy(table, es, k) == Slot(k + 1, k)
    ensures Suspends(table, es, k) <==> RungAt(table, es, k) == RUNG_SUSPEND_TASK
  {
    hide RungAt;
  }

  lemma StairsPending(m: nat)
    requires m <= 5
    ensures InTable(FiveTasks(), Stairs(m))
    ensures Pending(Announced(FiveTasks(), Stairs(m))) == if m == 0 then None else Some(Slot(m, m - 1))
  {
    StairsInTable(m);
    StairsLength(m);
    hide *;
    var k := PendingIsLatest(FiveTasks(), Stairs(m));
    if m > 0 {
      StairSuspends(m, m - 1);
    }
  }

  lemma StairsLength(m: nat)
    requires m <= 5
    ensures |Stairs(m)| == m
  {
  }

  lemma StairsNeverReset(m: nat)
    requires m <= 5
    ensures InTable(FiveTasks(), Stairs(m)) && !ReachedTop(FiveTasks(), Stairs(m))
  {
    StairsInTable(m);
    hide RungAt, FiveTasks, InTable, NamedBy;
    forall j | 0 <= j < m ensures RungAt(FiveTasks(), Stairs(m), j) == RUNG_SUSPEND_TASK {
      StairSuspends(m, j);
    }
  }

  /** How many dispatches there were before this slot. */
  function StairCount(f: nat, i: nat): nat {
    if f == 0 then i else if i < f then 4 * f + 1 + i else 4 * f + i
  }

  lemma StairCosts(f: nat, i: nat)
    requires f < 5 && i < 5 && (f == 0 || i != f - 1)
    ensures EveryFifth(StairCount(f, i)) > 1000 <==> i == f
  {
  }

  /** The run, slot by slot: frame `f` withholds task `f - 1`, and task `f` overruns. */
  lemma {:induction false} StairsPlay(f: nat, i: nat)
    requires f <= 5 && i <= 5 && (f == 5 ==> i == 0)
    ensures var p := PlayTo(FiveTasks(), EveryFifth, None, Slot(f, i));
            |p.ran| == StairCount(f, i) && p.es == Stairs(if i > f then f + 1 else f)
    decreases f, i
  {
    hide *;
    StairCountAt(f);
    if f == 0 && i == 0 {
      PlayStarts(FiveTasks(), EveryFifth, None);
    } else if i == 0 {
      StairsPlay(f - 1, 5);
      FiveRows();
      PlayEndsFrame(FiveTasks(), EveryFifth, None, f - 1);
    } else {
      StairsPlay(f, i - 1);
      StairStep(f, i - 1);
    }
  }

  lemma StairCountAt(f: nat)
    ensures StairCount(0, 0) == 0 && Stairs(0) == [] && (f > 0 ==> StairCount(f - 1, 5) == StairCount(f, 0) || f > 5)
  {
  }

  lemma FiveRows()
    ensures |FiveTasks()| == 5
    ensures forall i :: 0 <= i < 5 ==> FiveTasks()[i] == Task(1, 1000, true, true, false)
  {
  }

  /** The costs of a row that runs, and what they do to the overruns. */
  lemma StairPays(f: nat, i: nat)
    requires f < 5 && i < 5 && (f == 0 || i != f - 1)
    ensures StairCount(f, i + 1) == StairCount(f, i) + 1
    ensures EveryFifth(StairCount(f, i)) > 1000 <==> i == f
    ensures Stairs(f + 1) == Stairs(f) + [Overrun(f, f)]
  {
    StairCosts(f, i);
  }

  lemma StairStep(f: nat, i: nat)
    requires f < 5 && i < 5
    requires var p := PlayTo(FiveTasks(), EveryFifth, None, Slot(f, i));
             |p.ran| == StairCount(f, i) && p.es == Stairs(if i > f then f + 1 else f)
    ensures var p := PlayTo(FiveTasks(), EveryFifth, None, Slot(f, i + 1));
            |p.ran| == StairCount(f, i + 1) && p.es == Stairs(if i + 1 > f then f + 1 else f)
  {
    hide *;
    if f > 0 && i == f - 1 {
      StairWithholds(f);
    } else {
      StairRuns(f, i);
    }
  }

  lemma StairWithholds(f: nat)
    requires 1 <= f < 5
    requires var p := PlayTo(FiveTasks(), EveryFifth, None, Slot(f, f - 1));
             |p.ran| == StairCount(f, f - 1) && p.es == Stairs(f)
    ensures var p := PlayTo(FiveTasks(), EveryFifth, None, Slot(f, f));
            |p.ran| == StairCount(f, f) && p.es == Stairs(f)
  {
    assert StairCount(f, f - 1) == StairCount(f, f);
    hide *;
    FiveRows();
    AlwaysDue(FiveTasks(), Slot(f, f - 1));
    StairsPending(f);
    WithholdsNext(FiveTasks(), EveryFifth, None, Slot(f, f - 1),
                  PlayTo(FiveTasks(), EveryFifth, None, Slot(f, f - 1)));
  }

  lemma StairRuns(f: nat, i: nat)
    requires f < 5 && i < 5 && (f == 0 || i != f - 1)
    requires var p := PlayTo(FiveTasks(), EveryFifth, None, Slot(f, i));
             |p.ran| == StairCount(f, i) && p.es == Stairs(if i > f then f + 1 else f)
    ensures var p := PlayTo(FiveTasks(), EveryFifth, None, Slot(f, i + 1));
            |p.ran| == StairCount(f, i + 1) && p.es == Stairs(if i + 1 > f then f + 1 else f)
  {
    hide *;
    FiveRows();
    AlwaysDue(FiveTasks(), Slot(f, i));
    StairsPending(if i > f then f + 1 else f);
    StairPays(f, i);
    var p := PlayTo(FiveTasks(), EveryFifth, None, Slot(f, i));
    if i == f {
      OverrunsNext(FiveTasks(), EveryFifth, None, Slot(f, i), p,
                   Played(p.ran + [i], p.es + [Overrun(i, f)], p.withheld));
    } else {
      RunsNext(FiveTasks(), EveryFifth, None, Slot(f, i), p, Played(p.ran + [i], p.es, p.withheld));
    }
  }

  lemma StairUnfed(f: nat)
    requires 1 <= f <= 4
    ensures InTable(FiveTasks(), Stairs(5)) && !FedIn(FiveTasks(), None, Stairs(5), f)
  {
    var t, es := FiveTasks(), Stairs(5);
    FiveRows();
    StairsInTable(5);
    AlwaysDue(t, Slot(f, f - 1));
    StairSuspends(5, f - 1);
    StairSuspends(5, f);
    SlotsInOrder(f);
    hide *;
    var k := LatestBefore(t, es, Slot(f, f - 1));
    var l := LatestBefore(t, es, Slot(f + 1, 0));
    StairLatest(f, k, l);
    WithheldMeans(t, None, es, Slot(f, f - 1));
    EndsMeans(t, es, f);
    NotFed(t, es, f, Slot(f, f - 1));
  }

  lemma SlotsInOrder(f: nat)
    requires 1 <= f <= 4
    ensures forall k :: 0 <= k < 5 ==>
              && (Precedes(SlotOf(Stairs(5)[k]), Slot(f, f - 1)) <==> k < f)
              && (Precedes(SlotOf(Stairs(5)[k]), Slot(f + 1, 0)) <==> k <= f)
  {
  }

  lemma StairLatest(f: nat, k: int, l: int)
    requires 1 <= f <= 4 && -1 <= k < 5 && -1 <= l < 5
    requires k >= 0 ==> Precedes(SlotOf(Stairs(5)[k]), Slot(f, f - 1))
    requires l >= 0 ==> Precedes(SlotOf(Stairs(5)[l]), Slot(f + 1, 0))
    requires InTable(FiveTasks(), Stairs(5))
    requires forall j :: k < j < 5 && Suspends(FiveTasks(), Stairs(5), j) ==>
               !Precedes(SlotOf(Stairs(5)[j]), Slot(f, f - 1))
    requires forall j :: l < j < 5 && Suspends(FiveTasks(), Stairs(5), j) ==>
               !Precedes(SlotOf(Stairs(5)[j]), Slot(f + 1, 0))
    ensures k == f - 1 && l == f
  {
    SlotsInOrder(f);
    StairSuspends(5, f - 1);
    StairSuspends(5, f);
    hide Suspends, Precedes, SlotOf, FiveTasks, InTable, NamedBy;
  }

  lemma NotFed(table: seq<Task>, es: seq<Overrun>, f: nat, s: Slot)
    requires InTable(table, es) && WithheldAt(table, None, es, s) && s.frame == f && !EndsSuspended(table, es, f)
    ensures !FedIn(table, None, es, f)
  {
    hide WithheldAt, EndsSuspended;
  }

  lemma FifthCosts()
    ensures forall n :: EveryFifth(n) > 0
  {
  }

  lemma FiveRunnable()
    ensures Runnable(FiveTasks(), EveryFifth, 5)
  {
    hide FiveTasks, EveryFifth, Stairs, StairCount, Play, ReachedTop, InTable;
    FiveRows();
    FifthCosts();
    StairsEnd();
    StairsNeverReset(5);
  }

  /** Five tasks overrun once each, none beyond rung 1, and frames 1 to 4 all go without a feed. */
  lemma FiveTasksLoseFour()
    ensures Runnable(FiveTasks(), EveryFifth, 5)
    ensures var t, p := FiveTasks(), Play(FiveTasks(), EveryFifth, None, 5);
            p.es == Stairs(5) && |p.ran| == 21 && LosesFrom(t, None, p.es, 5, 1)
  {
    assert StairCount(5, 0) == 21;
    FiveRunnable();
    StairsEnd();
    hide FiveTasks, Runnable, EveryFifth, Stairs, Play, FedIn, InTable;
    StairUnfed(1);
    StairUnfed(2);
    StairUnfed(3);
    StairUnfed(4);
  }

  lemma StairsEnd()
    ensures var p := Play(FiveTasks(), EveryFifth, None, 5); p.es == Stairs(5) && |p.ran| == StairCount(5, 0)
  {
    hide *;
    StairsPlay(5, 0);
    PlayEndsFrame(FiveTasks(), EveryFifth, None, 5);
  }

  // ---- a window entered safe ------------------------------------------------------------------------

  /** One task that safe mode does not run. */
  function Spare(): seq<Task> {
    [Task(1, 1000, false, true, false)]
  }

  function Cheap(n: nat): uint32 {
    500
  }

  lemma SparePlay(from: Option<nat>)
    requires from == None || from == Some(0)
    ensures Play(Spare(), Cheap, from, 1) == Played(if from == None then [0] else [], [], {})
  {
    NothingPending(Spare());
    assert Live(Spare(), from, Slot(0, 0)) <==> from == None;
    hide PlayTo, Play, Live, Pending, Announced, InTable;
    PlayStarts(Spare(), Cheap, from);
    if from == None {
      RunsNext(Spare(), Cheap, from, Slot(0, 0), Played([], [], {}), Played([0], [], {}));
    } else {
      SkipsNext(Spare(), Cheap, from, Slot(0, 0), Played([], [], {}));
    }
    PlayEndsFrame(Spare(), Cheap, from, 0);
  }

  lemma SpareExpected()
    ensures Expected(Spare(), {}, CheckerFrom(0), 1) == [0]
  {
    assert Live(Spare(), Some(1), Slot(0, 0));
    assert FrameTrace(Spare(), {}, Some(1), 0, 0) == [] && Expected(Spare(), {}, Some(1), 0) == [];
    assert FrameTrace(Spare(), {}, Some(1), 0, 1) == [0];
  }

  lemma SpareRunnable()
    ensures Runnable(Spare(), Cheap, 1)
  {
    SparePlay(None);
    hide Play;
  }

  /** The checker expects it in frame 0 of a window entered safe all the same. */
  lemma SafeStartFailsOrder()
    ensures Runnable(Spare(), Cheap, 1)
    ensures Play(Spare(), Cheap, Some(0), 1) == Played([], [], {})
    ensures Tracked(Spare(), Some(0), [], {}, Slot(1, 0), [])
    ensures Expected(Spare(), {}, CheckerFrom(0), 1) == [0]
  {
    hide *;
    SpareRunnable();
    SpareExpected();
    SparePlay(Some(0));
    PlayTracked(Spare(), Cheap, Some(0), 1);
  }
}
