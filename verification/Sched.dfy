/**
  The cyclic executive (flight/core/sched.c) with the ladder it climbs
  (`obc_recover_escalate` in flight/core/recover.c): one window, against any clock, any
  cost of each dispatch and any votes on the mode.
*/
module Sched {
  import opened Words
  import opened TraceCheck
  import opened Ladder
  import opened Window
  import opened Replay
  import opened Waiting

  const NO_TASK: uint32 := 0xFFFF_FFFF
  const SHORT_BOOT_LIMIT: uint32 := 5
  const IDLE_GUARD: nat := 0x80_0000
  const SAFE_FRAME_OVERRUN: uint32 := 2
  const SAFE_CLOCK: uint32 := 3
  const SAFE_RESET_LOOP: uint32 := 4

  datatype Status = Ok | Invalid | Unstable | Timeout | MachineReset

  datatype TaskState = TaskState(runs: uint32, overruns: uint32, maxInstr: uint32)

  predicate Counted(s: TaskState, runs: nat, overruns: nat, worst: uint32) {
    s.runs == Wrap32(runs) && s.overruns == Wrap32(overruns) && s.maxInstr == worst
  }

  /** The most a dispatch of this task has cost. */
  function Worst(cost: nat -> uint32, ran: seq<nat>, i: nat): uint32 {
    if ran == [] then 0
    else
      var n := |ran| - 1;
      var worst := Worst(cost, ran[..n], i);
      if ran[n] == i && cost(n) > worst then cost(n) else worst
  }

  /** No dispatch of the task cost more, and one cost exactly that much unless none cost anything. */
  lemma {:induction false} WorstMeans(cost: nat -> uint32, ran: seq<nat>, i: nat)
    ensures forall k: nat :: k < |ran| && ran[k] == i ==> cost(k) <= Worst(cost, ran, i)
    ensures Worst(cost, ran, i) == 0 || exists k: nat :: k < |ran| && ran[k] == i && cost(k) == Worst(cost, ran, i)
  {
    if ran == [] {
    } else {
      var n := |ran| - 1;
      WorstMeans(cost, ran[..n], i);
      assert forall k: nat :: k < n ==> ran[..n][k] == ran[k];
      assert ran[n] == i ==> cost(n) <= Worst(cost, ran, i);
    }
  }

  /** One dispatch added to a task's account. */
  function Accounted(s: TaskState, used: uint32, budget: uint32): TaskState {
    TaskState(Inc(s.runs), if used > budget then Inc(s.overruns) else s.overruns,
              if used > s.maxInstr then used else s.maxInstr)
  }

  lemma AccountKeeps(s: TaskState, used: uint32, budget: uint32, runs: nat, overruns: nat,
                     worst: uint32)
    requires Counted(s, runs, overruns, worst)
    ensures Counted(Accounted(s, used, budget), runs + 1, overruns + (if used > budget then 1 else 0),
                    if used > worst then used else worst)
    ensures used > budget ==> Accounted(s, used, budget).overruns == Wrap32(overruns + 1)
  {
  }

  /** A suspension-log entry as the log stores it. */
  datatype LogEntry = LogEntry(task: uint8, frame: uint8, rung: uint8)

  function Narrow(e: Entry): LogEntry {
    LogEntry(e.task % 0x100, e.frame % 0x100, e.rung % 0x100)
  }

  class Executive {
    const table: seq<Task>
    // the environment: the n-th clock read, the n-th dispatch's cost, the n-th vote
    const clock: nat -> Option<uint64>
    const cost: nat -> uint32
    const voteFails: nat -> bool
    const shortBoots: uint32
    const startsSafe: bool
    var clockReads: nat
    var dispatches: nat
    var votes: nat

    const trace: array<uint8>
    var traceLen: uint32
    var traceOverflow: uint32
    const states: array<TaskState>
    var framesRun: uint32
    var frameOverruns: uint32
    var slackMin: uint32
    var windowStart: uint32
    var windowEnd: uint32
    var nowTicks: uint32
    var safeEntry: uint32
    var safe: bool
    var safeReason: uint32
    // `obc_mode`, the word the host reads
    var mirror: bool

    const log: array<LogEntry>
    var logCount: uint32
    var logOverflow: uint32
    var suspendedTask: uint32
    var suspendedFrame: uint32

    // effects outside the executive: frames the watchdog was fed in, subsystems reset, the machine reset
    var fed: seq<nat>
    var resets: seq<nat>
    var machineReset: bool
    var armed: bool

    // what happened, for the specification only
    ghost var dispatched: seq<nat>
    ghost var told: seq<Stamp>
    ghost var withheld: set<Slot>
    ghost var overruns: seq<Overrun>
    ghost var records: seq<FrameRecord>

    /** The state the boot leaves for the executive. */
    constructor (table: seq<Task>, clock: nat -> Option<uint64>, cost: nat -> uint32, voteFails: nat -> bool,
                 shortBoots: uint32, startsSafe: bool)
      ensures this.table == table && this.clock == clock && this.cost == cost && this.voteFails == voteFails
      ensures this.shortBoots == shortBoots && this.startsSafe == startsSafe
      ensures Fresh() && fresh(trace) && fresh(states) && fresh(log)
    {
      this.table, this.clock, this.cost, this.voteFails := table, clock, cost, voteFails;
      this.shortBoots, this.startsSafe := shortBoots, startsSafe;
      clockReads, dispatches, votes := 0, 0, 0;
      trace := new uint8[256](_ => 0);
      traceLen, traceOverflow := 0, 0;
      states := new TaskState[8](_ => TaskState(0, 0, 0));
      framesRun, frameOverruns, slackMin, windowStart, windowEnd, nowTicks := 0, 0, 0, 0, 0, 0;
      safeEntry, safe, safeReason, mirror := SAFE_ENTRY_NONE, startsSafe, 0, startsSafe;
      log := new LogEntry[16](_ => LogEntry(0, 0, 0));
      logCount, logOverflow, suspendedTask, suspendedFrame := 0, 0, NO_TASK, NO_TASK;
      fed, resets, machineReset := [], [], false;
      dispatched, told, withheld, overruns, records := [], [], {}, [], [];
      armed := false;
    }

    // ---- invariants ------------------------------------------------------------------------

    ghost predicate Arrays() {
      && trace.Length == 256 && states.Length == 8 && log.Length == 16
      && (trace as object) != states && (trace as object) != log && (states as object) != log
    }

    ghost predicate Fresh()
      reads this, trace, states, log
    {
      && Arrays()
      && clockReads == 0 && dispatches == 0 && traceLen == 0 && traceOverflow == 0
      && framesRun == 0 && frameOverruns == 0
      && safeEntry == SAFE_ENTRY_NONE && safe == startsSafe && logCount == 0 && logOverflow == 0
      && suspendedTask == NO_TASK && fed == [] && !machineReset
      && dispatched == [] && told == [] && withheld == {} && overruns == [] && records == []
      && forall i :: 0 <= i < 8 ==> states[i] == TaskState(0, 0, 0)
    }

    /** The trace holds the first 256 dispatches and counts the rest. */
    ghost predicate TraceHolds()
      reads this`traceLen, this`traceOverflow, this`dispatched, trace
    {
      && trace.Length == 256
      && traceLen == Min(|dispatched|, 256)
      && traceOverflow == Wrap32(|dispatched| - traceLen)
      && (forall k :: 0 <= k < traceLen ==> trace[k] == dispatched[k])
    }

    /** The log holds the first 16 announcements, narrowed to bytes, and counts the rest. */
    ghost predicate LogHolds(ann: seq<Entry>)
      reads this`logCount, this`logOverflow, log
    {
      && log.Length == 16
      && logCount == Min(|ann|, 16)
      && logOverflow == Wrap32(|ann| - logCount)
      && (forall k :: 0 <= k < logCount ==> log[k] == Narrow(ann[k]))
    }

    ghost predicate PendingHolds(ann: seq<Entry>)
      reads this`suspendedTask, this`suspendedFrame
    {
      match Pending(ann)
      case None => suspendedTask == NO_TASK
      case Some(s) => suspendedTask == s.task && suspendedFrame == s.frame
    }

    /** Every dispatch, every overrun and the worst cost are counted against their task. */
    ghost predicate StatesHold(ran: seq<nat>, es: seq<Overrun>)
      reads states
    {
      && states.Length == 8 && |table| <= 8
      && forall i :: 0 <= i < |table| ==>
           Counted(states[i], Occurrences(ran, i), Count(es, i), Worst(cost, ran, i))
    }

    /** Each dispatch took the next cost, and those over their budget are the overruns. */
    ghost predicate CostsHold()
      reads this`dispatches, this`told, this`dispatched, this`overruns
    {
      dispatches == |dispatched| == |told| && overruns == OverBudget(table, cost, told)
    }

    /** Rung 3 is the only way out of the window that does not come back, and it is never passed over. */
    ghost predicate ResetHolds()
      requires InTable(table, overruns)
      reads this`machineReset, this`overruns
    {
      machineReset <==> shortBoots < SHORT_BOOT_LIMIT && ReachedTop(table, overruns)
    }

    ghost predicate Valid()
      reads this`traceLen, this`traceOverflow, this`dispatched, trace, this`overruns, states,
            this`logCount, this`logOverflow, log, this`suspendedTask, this`suspendedFrame,
            this`dispatches, this`told, this`machineReset
    {
      && 1 <= |table| <= MAX_TASKS
      && Arrays() && TraceHolds() && StatesHold(dispatched, overruns)
      && InTable(table, overruns)
      && LogHolds(Announced(table, overruns))
      && PendingHolds(Announced(table, overruns))
      && CostsHold() && ResetHolds()
    }

    /**
      What the trace depends on: every row has a body to call, no vote on the mode fails, and
      a boot whose streak has run out has started safe, as the boot sequence sees to.
    */
    ghost predicate Ideal() {
      && (forall i :: 0 <= i < |table| ==> table[i].hasFn)
      && (forall n :: !voteFails(n))
      && (shortBoots >= SHORT_BOOT_LIMIT ==> startsSafe)
    }

    /** The first frame that is degraded from its start, if there is one. */
    ghost function From(): Option<nat>
      reads this`safeEntry
    {
      if startsSafe then Some(0) else CheckerFrom(safeEntry)
    }

    /** The run so far is the one its table, its costs and its mode lead to. */
    ghost predicate Following(at: Slot)
      reads this`safeEntry, this`overruns, this`withheld, this`dispatched
    {
      Played(dispatched, overruns, withheld) == PlayTo(table, cost, From(), at)
    }

    ghost predicate ModeFits(frame: nat, degraded: bool, entry: uint32) {
      && (startsSafe ==> degraded && entry == 0)
      && (!startsSafe ==> (degraded <==> entry != SAFE_ENTRY_NONE) && (degraded ==> entry < frame))
    }

    /** The mode of a whole frame is the one the recorded entry says. */
    ghost predicate ModeKnown(frame: nat)
      reads this`safe, this`safeEntry
    {
      ModeFits(frame, safe, safeEntry)
    }

    /** What holds when a frame comes to its `n`th row. */
    ghost predicate Stage(frame: nat, n: nat)
      reads this`safe, this`safeEntry, this`overruns, this`withheld, this`dispatched
    {
      Happened(overruns, Slot(frame, n)) && (Ideal() ==> ModeKnown(frame) && Following(Slot(frame, n)))
    }

    /** Rung 3 ended the window in one of its frames. */
    ghost predicate Interrupted(frames: nat)
      reads this`traceLen, this`traceOverflow, this`dispatched, trace, this`overruns, states,
            this`logCount, this`logOverflow, log, this`suspendedTask, this`suspendedFrame,
            this`dispatches, this`told, this`machineReset, this`safe, this`safeEntry, this`withheld
    {
      Valid() && machineReset && exists f: nat, n: nat :: f < frames && n <= |table| && Stage(f, n)
    }

    // ---- mode and clock -----------------------------------------------------------------------

    /** `obc_mode_is_safe`: a vote that fails answers safe, and the host is shown the answer. */
    method ModeIsSafe() returns (answer: bool)
      modifies this`votes, this`mirror
      ensures answer == (voteFails(old(votes)) || safe) && mirror == answer
    {
      answer := voteFails(votes) || safe;
      mirror := answer;
      votes := votes + 1;
    }

    /** `obc_mode_enter_safe`: the first reason is kept. */
    method EnterSafe(reason: uint32)
      modifies this`safe, this`safeReason, this`mirror
      ensures safe && safeReason == if old(safe) then old(safeReason) else reason
      ensures mirror == (old(mirror) || !old(safe))
    {
      if safe {
        return;
      }
      safe, safeReason, mirror := true, reason, true;
    }

    /** The last reading taken did not settle. */
    ghost predicate ClockFailed()
      reads this`clockReads
    {
      clockReads > 0 && clock(clockReads - 1) == None
    }

    /** `sched_now`: a clock that will not settle degrades the system. */
    method SchedNow(frame: uint32) returns (st: Status, now: uint64)
      modifies this`clockReads, this`votes, this`safe, this`safeReason, this`mirror, this`safeEntry
      ensures clockReads == old(clockReads) + 1
      ensures match clock(old(clockReads))
              case Some(v) => st == Ok && now == v && safe == old(safe) && safeEntry == old(safeEntry)
                              && safeReason == old(safeReason)
              case None => st == Unstable
                           && (safe <==> old(safe) || !voteFails(old(votes)))
                           && safeEntry == (if safe && !old(safe) then frame else old(safeEntry))
                           && safeReason == if safe && !old(safe) then SAFE_CLOCK else old(safeReason)
      ensures st == Unstable ==> ClockFailed() && (Ideal() ==> safe)
    {
      var r := clock(clockReads);
      clockReads := clockReads + 1;
      if r.Some? {
        return Ok, r.value;
      }
      var degraded := ModeIsSafe();
      if !degraded {
        safeEntry := frame;
        EnterSafe(SAFE_CLOCK);
      }
      return Unstable, 0;
    }

    // ---- one dispatch ----------------------------------------------------------------------------

    /** `trace_push`: what no longer fits only raises the overflow counter. */
    method TracePush(task: nat)
      requires TraceHolds() && task < MAX_TASKS
      modifies this`traceLen, this`traceOverflow, this`dispatched, trace
      ensures TraceHolds() && dispatched == old(dispatched) + [task]
    {
      hide Inc, Wrap32;
      IncOfSum(0, |dispatched| - traceLen);
      dispatched := dispatched + [task];
      if traceLen >= 256 {
        traceOverflow := Inc(traceOverflow);
        return;
      }
      trace[traceLen] := task % 0x100;
      traceLen := traceLen + 1;
    }

    /** `log_suspension`, with its frame narrowed to a byte. */
    method LogSuspension(task: nat, frame: uint32, rung: nat, ghost ann: seq<Entry>)
      requires LogHolds(ann)
      modifies this`logCount, this`logOverflow, log
      ensures LogHolds(ann + [Entry(task, frame, rung)])
    {
      hide Inc, Wrap32;
      IncOfSum(0, |ann| - logCount);
      if logCount >= 16 {
        logOverflow := Inc(logOverflow);
        return;
      }
      log[logCount] := LogEntry(task % 0x100, frame % 0x100, rung % 0x100);
      logCount := logCount + 1;
    }

    /** `obc_recover_escalate`: rung 3 resets the machine, or goes safe once resetting has failed too often. */
    method Escalate(rung: nat, task: nat, frame: uint32, ghost ann: seq<Entry>)
      requires task < |table| <= MAX_TASKS && LogHolds(ann) && PendingHolds(ann)
      modifies this`logCount, this`logOverflow, log, this`suspendedTask, this`suspendedFrame,
               this`resets, this`machineReset, this`safe, this`safeReason, this`mirror
      ensures LogHolds(ann + Announce(table[task], task, frame, rung))
      ensures PendingHolds(ann + Announce(table[task], task, frame, rung))
      ensures resets == old(resets) + if rung == RUNG_RESET_SUBSYSTEM && table[task].hasReset then [task] else []
      ensures machineReset == (old(machineReset) || (rung == RUNG_RESET_MACHINE && shortBoots < 5))
      ensures safe == (old(safe) || (rung == RUNG_RESET_MACHINE && shortBoots >= 5))
      ensures safeReason == if safe && !old(safe) then SAFE_RESET_LOOP else old(safeReason)
      ensures (suspendedTask == old(suspendedTask) && suspendedFrame == old(suspendedFrame))
              || suspendedFrame == NextDue(table[task], frame)
    {
      if rung == RUNG_SUSPEND_TASK {
        var nextDue := NextDue(table[task], frame);
        suspendedTask := task;
        suspendedFrame := nextDue;
        PendingAppend(ann, Entry(task, nextDue, rung));
        LogSuspension(task, nextDue, rung, ann);
        return;
      }
      assert ann + [] == ann;
      if rung == RUNG_RESET_SUBSYSTEM {
        if !table[task].hasReset {
          return;
        }
        PendingAppend(ann, Entry(task, frame, rung));
        LogSuspension(task, frame, rung, ann);
        resets := resets + [task];
        return;
      }
      if rung != RUNG_RESET_MACHINE {
        return;
      }
      if shortBoots >= SHORT_BOOT_LIMIT {
        EnterSafe(SAFE_RESET_LOOP);
        return;
      }
      machineReset := true;
    }

    /** The account of one dispatch; gives the overrun counter if the budget was exceeded. */
    method Account(task: nat, used: uint32, ghost ran: seq<nat>, ghost es: seq<Overrun>, ghost e: Overrun)
      returns (over: Option<uint32>)
      requires task < |table| && e.task == task && StatesHold(ran, es) && used == cost(|ran|)
      modifies states
      ensures StatesHold(ran + [task], if used > table[task].budget then es + [e] else es)
      ensures over == if used > table[task].budget then Some(Wrap32(Count(es, task) + 1)) else None
      ensures states[task] == Accounted(old(states[task]), used, table[task].budget)
      ensures forall i :: 0 <= i < states.Length && i != task ==> states[i] == old(states[i])
    {
      hide Occurrences, Count, Counted, Worst, Wrap32, Inc;
      AccountKeeps(states[task], used, table[task].budget, Occurrences(ran, task), Count(es, task),
                   Worst(cost, ran, task));
      var state := states[task];
      state := state.(runs := Inc(state.runs));
      if used > state.maxInstr {
        state := state.(maxInstr := used);
      }
      over := None;
      if used > table[task].budget {
        state := state.(overruns := Inc(state.overruns));
        over := Some(state.overruns);
      }
      states[task] := state;
      forall i | 0 <= i < |table|
        ensures Occurrences(ran + [task], i) == Occurrences(ran, i) + if i == task then 1 else 0
        ensures Count(es + [e], i) == Count(es, i) + if i == task then 1 else 0
        ensures Worst(cost, ran + [task], i)
             == if i == task && used > Worst(cost, ran, i) then used else Worst(cost, ran, i)
      {
        OneMoreDispatch(cost, ran, task, i);
        OneMoreOverrun(es, e, i);
      }
    }

    /** The climb: the rung follows from the overrun counter. */
    method Climb(task: nat, frame: uint32, overrunsNow: uint32, ghost es: seq<Overrun>)
      requires task < |table| <= MAX_TASKS && InTable(table, es)
      requires LogHolds(Announced(table, es)) && PendingHolds(Announced(table, es))
      requires overrunsNow == Wrap32(Count(es, task) + 1)
      modifies this`logCount, this`logOverflow, log, this`suspendedTask, this`suspendedFrame,
               this`resets, this`machineReset, this`safe, this`safeReason, this`mirror
      ensures var es' := es + [Overrun(task, frame)];
              && InTable(table, es')
              && LogHolds(Announced(table, es')) && PendingHolds(Announced(table, es'))
              && machineReset == (old(machineReset)
                                  || (LastRung(table, es') == RUNG_RESET_MACHINE && shortBoots < SHORT_BOOT_LIMIT))
              && safe == (old(safe) || (LastRung(table, es') == RUNG_RESET_MACHINE && shortBoots >= SHORT_BOOT_LIMIT))
      ensures (suspendedTask == old(suspendedTask) && suspendedFrame == old(suspendedFrame))
              || suspendedFrame == NextDue(table[task], frame)
    {
      hide LogHolds, PendingHolds, Announced, RungFor, Count, InTable, LastRung, Announce;
      AnnouncedAppend(table, es, Overrun(task, frame));
      LastRungIs(table, es, Overrun(task, frame));
      var rung := RungFor(table[task], overrunsNow);
      Escalate(rung, task, frame, Announced(table, es));
    }

    /** This dispatch, if the task has a body, takes more than the task's budget. */
    predicate Overspends(task: nat, n: nat)
      requires task < |table|
    {
      table[task].hasFn && cost(n) > table[task].budget
    }

    lemma CostsGrow(task: nat, frame: uint32)
      requires CostsHold() && task < |table|
      ensures var n, told', ran' := dispatches, told + [Stamp(task, frame, nowTicks)], dispatched + [task];
              && |told'| == |ran'| == n + 1
              && OverBudget(table, cost, told')
                 == if cost(n) > table[task].budget then overruns + [Overrun(task, frame)] else overruns
    {
      hide OverBudget;
      OneMoreStamp(table, cost, told, Stamp(task, frame, nowTicks));
    }

    lemma TopGrows(es: seq<Overrun>, e: Overrun)
      requires InTable(table, es) && e.task < |table|
      ensures InTable(table, es + [e])
      ensures ReachedTop(table, es + [e]) <==>
              ReachedTop(table, es) || LastRung(table, es + [e]) == RUNG_RESET_MACHINE
    {
      assert (es + [e])[..|es|] == es;
      InTableAppend(table, es, e);
      hide InTable, ReachedTop, LastRung;
      TopPrefix(table, es + [e], |es|);
    }

    lemma OverspendsIs(task: nat, n: nat)
      requires task < |table|
      ensures Overspends(task, n) <==> table[task].hasFn && cost(n) > table[task].budget
    {
    }

    lemma ValidParts()
      requires Valid()
      ensures 1 <= |table| <= MAX_TASKS && Arrays() && TraceHolds() && StatesHold(dispatched, overruns)
      ensures InTable(table, overruns)
      ensures LogHolds(Announced(table, overruns)) && PendingHolds(Announced(table, overruns))
      ensures CostsHold()
      ensures dispatches == |dispatched| == |told| && overruns == OverBudget(table, cost, told)
      ensures machineReset <==> shortBoots < SHORT_BOOT_LIMIT && ReachedTop(table, overruns)
    {
      hide Arrays, TraceHolds, StatesHold, LogHolds, PendingHolds, Announced, InTable, OverBudget, ReachedTop;
    }

    lemma ValidAgain()
      requires 1 <= |table| <= MAX_TASKS && Arrays() && TraceHolds() && StatesHold(dispatched, overruns)
      requires InTable(table, overruns)
      requires LogHolds(Announced(table, overruns)) && PendingHolds(Announced(table, overruns))
      requires dispatches == |dispatched| == |told| && overruns == OverBudget(table, cost, told)
      requires machineReset <==> shortBoots < SHORT_BOOT_LIMIT && ReachedTop(table, overruns)
      ensures Valid()
    {
      hide Arrays, TraceHolds, StatesHold, LogHolds, PendingHolds, Announced, InTable, OverBudget, ReachedTop;
    }

    /** `dispatch`: push, run, account, and climb if the budget was exceeded. */
    method Dispatch(task: nat, frame: uint32)
      requires Valid() && task < |table| && framesRun == frame
      modifies this`dispatches, this`traceLen, this`traceOverflow, this`dispatched, trace, states, this`overruns,
               this`logCount, this`logOverflow, log, this`suspendedTask, this`suspendedFrame,
               this`resets, this`machineReset, this`safe, this`safeReason, this`mirror, this`told
      ensures Valid()
      ensures told == if table[task].hasFn then old(told) + [Stamp(task, frame, nowTicks)] else old(told)
      ensures dispatched == if table[task].hasFn then old(dispatched) + [task] else old(dispatched)
      ensures overruns ==
              if Overspends(task, old(dispatches)) then old(overruns) + [Overrun(task, frame)] else old(overruns)
      ensures var toTheTop := Overspends(task, old(dispatches)) && LastRung(table, overruns) == RUNG_RESET_MACHINE;
              && machineReset == (old(machineReset) || (toTheTop && shortBoots < SHORT_BOOT_LIMIT))
              && safe == (old(safe) || (toTheTop && shortBoots >= SHORT_BOOT_LIMIT))
      ensures (suspendedTask == old(suspendedTask) && suspendedFrame == old(suspendedFrame))
              || suspendedFrame == NextDue(table[task], frame)
    {
      hide *;
      OverspendsIs(task, dispatches);
      if !table[task].hasFn {
        return;
      }
      ghost var es, ran := overruns, dispatched;
      ValidParts();
      CostsGrow(task, frame);
      TopGrows(es, Overrun(task, frame));
      TracePush(task);
      told := told + [Stamp(task, framesRun, nowTicks)];
      var used := cost(dispatches);
      dispatches := dispatches + 1;
      var over := Account(task, used, ran, es, Overrun(task, frame));
      if over.Some? {
        overruns := overruns + [Overrun(task, frame)];
        Climb(task, frame, over.value, es);
      }
      ValidAgain();
    }

    /** `obc_recover_is_suspended`. */
    predicate IsSuspended(task: nat, frame: uint32)
      reads this`suspendedTask, this`suspendedFrame
    {
      suspendedTask == task && suspendedFrame == frame
    }

    lemma SuspendedIsPending(task: nat, frame: uint32)
      requires InTable(table, overruns) && PendingHolds(Announced(table, overruns)) && task < |table| <= MAX_TASKS
      ensures IsSuspended(task, frame) <==> Pending(Announced(table, overruns)) == Some(Slot(frame, task))
    {
    }

    // ---- one frame ---------------------------------------------------------------------------

    lemma ModeMatches(frame: nat)
      requires ModeKnown(frame)
      ensures safe <==> Degraded(From(), frame)
    {
    }

    /** The row is due and its task may run in this mode. */
    predicate MayRun(task: nat, frame: uint32, degraded: bool)
      requires task < |table|
    {
      Due(table[task], frame) && (table[task].essential || !degraded)
    }

    /** A row that is not due, or not essential in a degraded frame. */
    lemma StageSkips(task: nat, frame: uint32)
      requires Stage(frame, task)
      requires Ideal() ==> !Live(table, From(), Slot(frame, task))
      ensures Stage(frame, task + 1)
    {
      hide PlayTo, PlaySlot, ModeKnown, Ideal, From, Live;
      var at := Slot(frame, task);
      HappenedNext(overruns, at);
      if Ideal() {
        PlayNext(table, cost, From(), at);
        Skipped(table, cost, From(), Played(dispatched, overruns, withheld), at);
      }
    }

    /** The slot the remembered suspension names. */
    lemma StageWithholds(task: nat, frame: uint32)
      requires InTable(table, overruns) && Stage(frame, task)
      requires Ideal() ==> Live(table, From(), Slot(frame, task))
      requires Pending(Announced(table, overruns)) == Some(Slot(frame, task))
      ensures Happened(overruns, Slot(frame, task + 1))
      ensures Ideal() ==> Played(dispatched, overruns, withheld + {Slot(frame, task)})
                          == PlayTo(table, cost, From(), Slot(frame, task + 1))
    {
      hide PlayTo, PlaySlot, ModeKnown, Ideal, From, Live, Announced, Pending, InTable;
      var at := Slot(frame, task);
      HappenedNext(overruns, at);
      if Ideal() {
        PlayNext(table, cost, From(), at);
        WithheldHere(table, cost, From(), Played(dispatched, overruns, withheld), at);
      }
    }

    /** Any other slot. */
    lemma StageRuns(task: nat, frame: uint32)
      requires InTable(table, overruns) && Stage(frame, task) && task < |table| && dispatches == |dispatched|
      requires Ideal() ==> Live(table, From(), Slot(frame, task))
      requires Pending(Announced(table, overruns)) != Some(Slot(frame, task))
      ensures Happened(overruns, Slot(frame, task + 1))
      ensures Happened(overruns + [Overrun(task, frame)], Slot(frame, task + 1))
      ensures Ideal() ==>
                var over := cost(dispatches) > table[task].budget;
                Played(dispatched + [task], if over then overruns + [Overrun(task, frame)] else overruns, withheld)
                == PlayTo(table, cost, From(), Slot(frame, task + 1))
    {
      hide PlayTo, PlaySlot, ModeKnown, Ideal, From, Live, Announced, Pending, InTable, Charged;
      var at := Slot(frame, task);
      HappenedNext(overruns, at);
      if Ideal() {
        PlayNext(table, cost, From(), at);
        RanHere(table, cost, From(), Played(dispatched, overruns, withheld), at);
        ChargedIs(table[task], cost(dispatches), at);
        assert overruns + [] == overruns;
      }
    }

    lemma CostsCounted()
      requires Valid()
      ensures InTable(table, overruns) && dispatches == |dispatched| && |table| <= MAX_TASKS
      ensures PendingHolds(Announced(table, overruns))
    {
    }

    /** Whether a row is live, as the dispatch loop finds out. */
    lemma SlotMode(task: nat, frame: uint32, n: nat)
      requires Stage(frame, task) && task < |table|
      ensures Ideal() ==>
                && table[task].hasFn && !voteFails(n) && (shortBoots >= SHORT_BOOT_LIMIT ==> safe)
                && ModeFits(frame, safe, safeEntry)
                && (Live(table, From(), Slot(frame, task)) <==> MayRun(task, frame, safe))
    {
      hide Following, Happened;
      if Ideal() {
        ModeMatches(frame);
      }
    }

    lemma MayRunIs(task: nat, frame: uint32)
      requires task < |table|
      ensures forall degraded ::
                MayRun(task, frame, degraded) <==>
                table[task].period != 0 && frame % table[task].period == 0 && (table[task].essential || !degraded)
    {
    }

    lemma StageHolds(frame: uint32, n: nat)
      requires Happened(overruns, Slot(frame, n))
      requires Ideal() ==> ModeKnown(frame) && Following(Slot(frame, n))
      ensures Stage(frame, n)
    {
      hide Happened, ModeKnown, Following, Ideal;
    }

    lemma StageAgain(frame: uint32, n: nat, wasSafe: bool, wasEntry: uint32)
      requires Happened(overruns, Slot(frame, n))
      requires Ideal() ==> ModeFits(frame, wasSafe, wasEntry) && wasSafe == safe && wasEntry == safeEntry
      requires Ideal() ==> Played(dispatched, overruns, withheld) == PlayTo(table, cost, From(), Slot(frame, n))
      ensures Stage(frame, n)
    {
      hide Happened, PlayTo, Ideal, ModeFits, From;
    }

    /** One turn of the dispatch loop. */
    method RunSlot(task: nat, frame: uint32) returns (due: bool, ran: bool)
      requires Valid() && task < |table| && !machineReset && framesRun == frame
      requires Stage(frame, task)
      modifies this`votes, this`withheld, this`told,
               this`dispatches, this`traceLen, this`traceOverflow, this`dispatched, trace, states, this`overruns,
               this`logCount, this`logOverflow, log, this`suspendedTask, this`suspendedFrame,
               this`resets, this`machineReset, this`safe, this`safeReason, this`mirror
      ensures Valid() && Stage(frame, task + 1)
      ensures due <==> MayRun(task, frame, table[task].period != 0 && (voteFails(old(votes)) || old(safe)))
      ensures ran <==> due && !old(IsSuspended(task, frame))
      ensures GrewIn(old(overruns), overruns, frame)
      ensures StampedBy(old(told), old(dispatched), told, dispatched, frame, nowTicks)
      ensures withheld == if due && !ran then old(withheld) + {Slot(frame, task)} else old(withheld)
      ensures !ran ==> suspendedTask == old(suspendedTask) && suspendedFrame == old(suspendedFrame)
      ensures (suspendedTask == old(suspendedTask) && suspendedFrame == old(suspendedFrame)) || suspendedFrame != frame
    {
      hide *;
      StampsNone(told, dispatched, frame, nowTicks);
      StampsOne(told, dispatched, task, frame, nowTicks);
      GrewNot(overruns, frame);
      GrewByOne(overruns, Overrun(task, frame));
      OverspendsIs(task, dispatches);
      SlotMode(task, frame, votes);
      MayRunIs(task, frame);
      CostsCounted();
      if table[task].period == 0 {
        StageSkips(task, frame);
        return false, false;
      }
      var degraded := ModeIsSafe();
      if degraded && !table[task].essential {
        StageSkips(task, frame);
        return false, false;
      }
      if frame % table[task].period != 0 {
        StageSkips(task, frame);
        return false, false;
      }
      SuspendedIsPending(task, frame);
      if IsSuspended(task, frame) {
        StageWithholds(task, frame);
        withheld := withheld + {Slot(frame, task)};
        StageAgain(frame, task + 1, safe, safeEntry);
        return true, false;
      }
      StageRuns(task, frame);
      NextDueElsewhere(table[task], frame);
      ghost var wasSafe := safe;
      Dispatch(task, frame);
      StageAgain(frame, task + 1, wasSafe, safeEntry);
      return true, true;
    }

    lemma NoOverrunsNonePending()
      requires Valid() && overruns == []
      ensures suspendedTask == NO_TASK
    {
    }

    /**
      The dispatch loop of one frame.  At most one task is withheld, `gap`: the one
      suspended for this frame when the frame began.
    */
    method DispatchFrame(frame: uint32) returns (due: nat, ran: nat, ghost gap: Option<nat>)
      requires Valid() && !machineReset && framesRun == frame && Stage(frame, 0)
      modifies this`votes, this`withheld, this`told,
               this`dispatches, this`traceLen, this`traceOverflow, this`dispatched, trace, states, this`overruns,
               this`logCount, this`logOverflow, log, this`suspendedTask, this`suspendedFrame,
               this`resets, this`machineReset, this`safe, this`safeReason, this`mirror
      ensures Valid()
      ensures if machineReset then Interrupted(frame + 1) else Stage(frame, |table|)
      ensures GrewIn(old(overruns), overruns, frame)
      ensures StampedBy(old(told), old(dispatched), told, dispatched, frame, nowTicks)
      ensures due == ran + if gap.Some? then 1 else 0
      ensures withheld == old(withheld) + if gap.Some? then {Slot(frame, gap.value)} else {}
      ensures gap.Some? ==> old(IsSuspended(gap.value, frame))
      ensures overruns == [] ==> gap == None
    {
      hide Valid, Stage, MayRun, Ideal, GrewIn, StampedBy;
      assert |table| <= MAX_TASKS by { TableFits(); }
      StampsNone(told, dispatched, frame, nowTicks);
      assert GrewIn(overruns, overruns, frame) by { GrewNot(overruns, frame); }
      due, ran, gap := 0, 0, None;
      for i := 0 to |table|
        invariant Valid() && !machineReset && Stage(frame, i)
        invariant GrewIn(old(overruns), overruns, frame)
        invariant StampedBy(old(told), old(dispatched), told, dispatched, frame, nowTicks)
        invariant withheld == old(withheld) + if gap.Some? then {Slot(frame, gap.value)} else {}
        invariant due == ran + if gap.Some? then 1 else 0
        invariant gap.Some? ==> gap.value < i && old(IsSuspended(gap.value, frame))
        invariant (suspendedTask == old(suspendedTask) && suspendedFrame == old(suspendedFrame))
                  || suspendedFrame != frame
        invariant overruns == [] ==> gap == None
      {
        if overruns == [] {
          NoOverrunsNonePending();
        }
        ghost var wasSuspended := IsSuspended(i, frame);
        assert wasSuspended ==> old(IsSuspended(i, frame)) && gap == None;
        ghost var t, d, es := told, dispatched, overruns;
        var isDue, didRun := RunSlot(i, frame);
        StampsChain(old(told), old(dispatched), t, d, told, dispatched, frame, nowTicks);
        GrewOn(old(overruns), es, overruns, frame);
        GrewIsPrefix(es, overruns, frame);
        if isDue {
          due := due + 1;
        }
        if didRun {
          ran := ran + 1;
        }
        if isDue && !didRun {
          gap := Some(i);
        }
        if machineReset {
          return;
        }
      }
    }

    /** The suspension remembered now is for this frame, and for a task the table has due in it. */
    predicate SuspendedDue(frame: uint32)
      reads this`suspendedTask, this`suspendedFrame
    {
      suspendedTask < |table| && suspendedFrame == frame && Due(table[suspendedTask], frame)
    }

    /** `obc_suspended_this_frame`. */
    method SuspendedThisFrame(frame: uint32) returns (n: nat)
      ensures n == if SuspendedDue(frame) then 1 else 0
    {
      n := 0;
      for i := 0 to |table|
        invariant n == if SuspendedDue(frame) && suspendedTask < i then 1 else 0
      {
        if table[i].period == 0 {
          continue;
        }
        if frame % table[i].period != 0 {
          continue;
        }
        if IsSuspended(i, frame) {
          n := n + 1;
        }
      }
    }

    /**
      The feed, and the test it depends on.  A frame
      that withheld a suspended task is fed exactly when that suspension is still the one
      remembered at its end; one that withheld nothing, exactly when none is.
    */
    method FeedIfEarned(frame: uint32, due: nat, ran: nat, ghost gap: Option<nat>)
      requires due == ran + if gap.Some? then 1 else 0
      modifies this`fed
      ensures fed == old(fed) + if gap.Some? <==> SuspendedDue(frame) then [frame] else []
    {
      var suspended := SuspendedThisFrame(frame);
      if ran + suspended == due {
        fed := fed + [frame];
      } else {
        assert fed + [] == fed;
      }
    }

    /** The entry frame after a frame: the first late one is recorded, unless the window was degraded before. */
    ghost function EntryAfter(entry: uint32, late: bool, frame: uint32): uint32 {
      if entry == SAFE_ENTRY_NONE && late && !startsSafe then frame else entry
    }

    lemma DegradedFrom(frame: nat)
      ensures PlayTo(table, cost, Some(frame), Slot(frame, 0)) == PlayTo(table, cost, None, Slot(frame, 0))
    {
      hide Play;
      Replay.DegradeKeeps(table, cost, frame, frame);
    }

    /** Slack, or an overrun that degrades the system from the next frame on. */
    method CheckDeadline(now: uint64, deadline: uint64, frame: uint32) returns (ghost slack: uint32)
      requires frame < U32_MAX
      requires Ideal() ==> ModeKnown(frame) && Following(Slot(frame + 1, 0))
      modifies this`frameOverruns, this`slackMin, this`votes, this`safe, this`safeReason, this`mirror, this`safeEntry
      ensures slack == Slack(now, deadline)
      ensures slackMin == Min(old(slackMin), slack)
      ensures frameOverruns == if now >= deadline then Inc(old(frameOverruns)) else old(frameOverruns)
      ensures safe <==> old(safe) || (now >= deadline && !voteFails(old(votes)))
      ensures safeEntry == if safe && !old(safe) then frame else old(safeEntry)
      ensures Ideal() ==> safeEntry == EntryAfter(old(safeEntry), now >= deadline, frame)
      ensures safeReason == if safe && !old(safe) then SAFE_FRAME_OVERRUN else old(safeReason)
      ensures Ideal() ==> ModeKnown(frame + 1) && Following(Slot(frame + 1, 0))
      ensures Ideal() ==> ModeMoves(old(From()), From(), frame + 1)
    {
      hide PlayTo;
      if now >= deadline {
        slack := 0;
        frameOverruns := Inc(frameOverruns);
        slackMin := 0;
        if Ideal() && !startsSafe && !safe {
          DegradedFrom(frame + 1);
        }
        var degraded := ModeIsSafe();
        if !degraded {
          safeEntry := frame;
          EnterSafe(SAFE_FRAME_OVERRUN);
        }
      } else {
        var s := Wrap32(deadline - now);
        slack := s;
        if s < slackMin {
          slackMin := s;
        }
      }
    }

    /** The last readings taken, as many as the guard allows, were all short of this deadline. */
    ghost predicate GaveUp(deadline: uint64)
      reads this`clockReads
    {
      && clockReads >= 0x80_0000
      && forall k :: clockReads - 0x80_0000 <= k < clockReads ==> Short(clock, k, deadline)
    }

    /** Idles to the frame boundary, for a bounded number of readings. */
    method Idle(deadline: uint64, frame: uint32) returns (st: Status, now: uint64)
      modifies this`clockReads, this`votes, this`safe, this`safeReason, this`mirror, this`safeEntry
      ensures st == Ok || st == Unstable || st == Timeout
      ensures st != Unstable ==> safe == old(safe) && safeEntry == old(safeEntry)
      ensures old(clockReads) < clockReads
      ensures st == Ok ==> clock(clockReads - 1) == Some(now) && now >= deadline
      ensures forall k :: old(clockReads) <= k < clockReads - 1 ==> Short(clock, k, deadline)
      ensures safeEntry == if safe && !old(safe) then frame else old(safeEntry)
      ensures safeReason == if safe && !old(safe) then SAFE_CLOCK else old(safeReason)
      ensures st == Unstable ==> ClockFailed() && (Ideal() ==> safe)
      ensures st == Timeout ==> clockReads == old(clockReads) + 0x80_0000 && GaveUp(deadline)
    {
      for guard := 0 to IDLE_GUARD
        invariant safe == old(safe) && safeEntry == old(safeEntry) && safeReason == old(safeReason)
        invariant clockReads == old(clockReads) + guard
        invariant forall k :: old(clockReads) <= k < clockReads ==> Short(clock, k, deadline)
      {
        st, now := SchedNow(frame);
        if st != Ok {
          return;
        }
        if now >= deadline {
          return;
        }
      }
      return Timeout, 0;
    }

    /** The work of a frame: publish the time, dispatch, feed the watchdog if earned. */
    method WorkFrame(frame: uint32, frameStart: uint64)
      requires Valid() && !machineReset && framesRun == frame && Stage(frame, 0)
      modifies this`votes, this`withheld, this`told, this`nowTicks, this`fed,
               this`dispatches, this`traceLen, this`traceOverflow, this`dispatched, trace, states, this`overruns,
               this`logCount, this`logOverflow, log, this`suspendedTask, this`suspendedFrame,
               this`resets, this`machineReset, this`safe, this`safeReason, this`mirror
      ensures Valid() && nowTicks == Wrap32(frameStart) && GrewIn(old(overruns), overruns, frame)
      ensures StampedBy(old(told), old(dispatched), told, dispatched, frame, Wrap32(frameStart))
      ensures InTable(table, overruns)
      ensures if machineReset then Interrupted(frame + 1) else Stage(frame, |table|)
      ensures Ideal() && !machineReset ==> WithheldIn(old(withheld), withheld, frame)
      ensures Ideal() && !machineReset ==>
                fed == old(fed) + if Earns(table, overruns, withheld, frame) then [frame] else []
      ensures overruns == [] && !machineReset ==> fed == old(fed) + [frame]
    {
      hide Valid, Stage, Ideal, GrewIn, StampedBy, WithheldIn, Withholds, InTable, SuspendedDue;
      if Ideal() {
        FrameStartsClean(frame);
      }
      nowTicks := Wrap32(frameStart);
      var due, ran, gap := DispatchFrame(frame);
      TableKept();
      if machineReset {
        return;
      }
      if Ideal() {
        OneWithheld(old(withheld), withheld, gap, frame);
        EndsAsRemembered(frame);
      }
      if overruns == [] {
        NoOverrunsNonePending();
        NoneSuspendedDue(frame);
      }
      FeedIfEarned(frame, due, ran, gap);
    }

    /** So an ideal run agrees with its table at every stage. */
    lemma StageTracked(frame: uint32, n: nat)
      requires Stage(frame, n) && Ideal()
      ensures Tracked(table, From(), overruns, withheld, Slot(frame, n), dispatched)
    {
      hide Tracked, PlayTo, From, Happened;
      PlayToTracked(table, cost, From(), Slot(frame, n));
    }

    lemma NoneSuspendedDue(frame: uint32)
      requires Valid() && suspendedTask == NO_TASK
      ensures !SuspendedDue(frame)
    {
    }

    lemma FrameStartsClean(frame: uint32)
      requires Stage(frame, 0) && Ideal()
      ensures !Withholds(withheld, frame)
    {
      hide Tracked, Stage;
      StageTracked(frame, 0);
      NoneWithheldYet(table, From(), overruns, withheld, frame, dispatched);
    }

    lemma TableKept()
      requires Valid()
      ensures InTable(table, overruns)
    {
    }

    /** At the end of a frame the remembered suspension is the one the overruns so far leave. */
    lemma EndsAsRemembered(frame: uint32)
      requires Valid() && Stage(frame, |table|) && Ideal()
      ensures InTable(table, overruns)
      ensures SuspendedDue(frame) <==> EndsSuspended(table, overruns, frame)
    {
      StageTracked(frame, |table|);
      hide Announced, Due, TraceHolds, StatesHold, LogHolds, Pending, Until, CostsHold, ResetHolds;
      UntilFrameEnd(table, From(), overruns, withheld, frame, dispatched);
      assert PendingHolds(Announced(table, overruns));
    }

    lemma TableFits()
      requires Valid()
      ensures 1 <= |table| <= MAX_TASKS
    {
    }

    /** The frame's last row is behind it. */
    lemma StageEnds(frame: nat)
      requires Stage(frame, |table|)
      ensures Happened(overruns, Slot(frame + 1, 0))
      ensures Ideal() ==> ModeKnown(frame) && Following(Slot(frame + 1, 0))
    {
      hide ModeKnown, From, Ideal, PlayTo;
      HappenedFrame(overruns, frame, |table|);
      PlayEndsFrame(table, cost, From(), frame);
    }

    /** The end of a frame's work: read the clock once and measure the slack. */
    method Measure(frame: uint32, deadline: uint64) returns (st: Status, ghost slack: uint32)
      requires frame < U32_MAX && Stage(frame, |table|)
      modifies this`clockReads, this`votes, this`frameOverruns, this`slackMin,
               this`safeEntry, this`safe, this`safeReason, this`mirror
      ensures st == Ok || st == Unstable
      ensures st == Unstable ==> ClockFailed() && (Ideal() ==> safe)
      ensures st == Ok ==>
                && clockReads == old(clockReads) + 1 && clock(old(clockReads)).Some?
                && slack == Slack(clock(old(clockReads)).value, deadline) && slackMin == Min(old(slackMin), slack)
                && frameOverruns == if clock(old(clockReads)).value >= deadline then Inc(old(frameOverruns))
                                    else old(frameOverruns)
      ensures st == Ok ==> Stage(frame + 1, 0)
      ensures st == Ok && Ideal() ==>
                safeEntry == EntryAfter(old(safeEntry), clock(old(clockReads)).value >= deadline, frame)
    {
      hide *;
      slack := 0;
      var now;
      st, now := SchedNow(frame);
      if st != Ok {
        return;
      }
      StageEnds(frame);
      slack := CheckDeadline(now, deadline, frame);
      StageHolds(frame + 1, 0);
    }

    /** Then wait out the boundary, and count the frame. */
    method WaitOut(frame: uint32, deadline: uint64, ghost slack: uint32) returns (st: Status, ghost r: FrameRecord)
      requires frame < U32_MAX && framesRun == frame
      requires clockReads > 0 && clock(clockReads - 1).Some? && slack == Slack(clock(clockReads - 1).value, deadline)
      modifies this`clockReads, this`votes, this`records, this`framesRun,
               this`safeEntry, this`safe, this`safeReason, this`mirror
      ensures records == if st == Ok then old(records) + [r] else old(records)
      ensures st == Ok || st == Unstable || st == Timeout
      ensures st == Unstable ==> ClockFailed() && (Ideal() ==> safe)
      ensures st == Timeout ==> GaveUp(deadline)
      ensures st == Ok ==>
                && framesRun == frame + 1 && safe == old(safe) && safeEntry == old(safeEntry)
                && r.published == nowTicks && r.checked == old(clockReads) - 1 && clockReads == r.closed + 1
                && r.slack == slack && Waited(clock, deadline, r)
    {
      hide *;
      ghost var checked := clockReads - 1;
      var now;
      st, now := Idle(deadline, frame);
      r := FrameRecord(nowTicks, slack, checked, clockReads - 1);
      if st == Ok {
        WaitedHere(clock, deadline, r);
        records := records + [r];
        NoWrap(framesRun);
        framesRun := Inc(framesRun);
      }
    }

    /** The end of a frame. */
    method CloseFrame(frame: uint32, deadline: uint64) returns (st: Status, ghost r: FrameRecord)
      requires Valid() && frame < U32_MAX && framesRun == frame && Stage(frame, |table|)
      modifies this`clockReads, this`votes, this`frameOverruns, this`slackMin, this`records, this`framesRun,
               this`safeEntry, this`safe, this`safeReason, this`mirror
      ensures Valid() && records == if st == Ok then old(records) + [r] else old(records)
      ensures st == Ok || st == Unstable || st == Timeout
      ensures st == Unstable ==> ClockFailed() && (Ideal() ==> safe)
      ensures st == Timeout ==> GaveUp(deadline)
      ensures st == Ok ==>
                && framesRun == frame + 1
                && r.published == nowTicks && r.checked == old(clockReads) && clockReads == r.closed + 1
                && Waited(clock, deadline, r) && slackMin == Min(old(slackMin), r.slack)
                && frameOverruns
                   == if Reaches(clock, r.checked, deadline) then Inc(old(frameOverruns)) else old(frameOverruns)
      ensures st == Ok ==> Stage(frame + 1, 0)
      ensures st == Ok && Ideal() ==>
                safeEntry == EntryAfter(old(safeEntry), Reaches(clock, r.checked, deadline), frame)
    {
      hide *;
      ghost var slack;
      ReachesMeans(clock, clockReads, deadline);
      st, slack := Measure(frame, deadline);
      if st != Ok {
        r := FrameRecord(nowTicks, 0, 0, 0);
        return;
      }
      st, r := WaitOut(frame, deadline, slack);
    }

    /** One minor frame, from its published reading to its boundary. */
    method RunFrame(frame: uint32, frameStart: uint64) returns (st: Status, deadline: uint64, ghost r: FrameRecord)
      requires Valid() && !machineReset && frame < U32_MAX && framesRun == frame && Stage(frame, 0)
      modifies this`clockReads, this`votes, this`withheld, this`told, this`nowTicks, this`frameOverruns, this`slackMin,
               this`safeEntry, this`framesRun, this`fed, this`records,
               this`dispatches, this`traceLen, this`traceOverflow, this`dispatched, trace, states, this`overruns,
               this`logCount, this`logOverflow, log, this`suspendedTask, this`suspendedFrame,
               this`resets, this`machineReset, this`safe, this`safeReason, this`mirror
      ensures Valid() && InTable(table, overruns) && deadline == Wrap64(frameStart + 1024)
      ensures st != Invalid && (st == MachineReset <==> machineReset)
      ensures st == MachineReset ==>
                && Interrupted(frame + 1) && records == old(records) && clockReads == old(clockReads)
                && slackMin == old(slackMin) && frameOverruns == old(frameOverruns) && safeEntry == old(safeEntry)
      ensures st == Unstable ==> ClockFailed() && (Ideal() ==> safe)
      ensures st == Timeout ==> GaveUp(deadline)
      ensures st == Ok ==> framesRun == frame + 1 && records == old(records) + [r] && Stage(frame + 1, 0)
      ensures st == Ok ==>
                && r.published == Wrap32(frameStart) && r.checked == old(clockReads) && clockReads == r.closed + 1
                && Waited(clock, deadline, r) && slackMin == Min(old(slackMin), r.slack)
                && frameOverruns
                   == if Reaches(clock, r.checked, deadline) then Inc(old(frameOverruns)) else old(frameOverruns)
      ensures GrewIn(old(overruns), overruns, frame)
      ensures StampedBy(old(told), old(dispatched), told, dispatched, frame, Wrap32(frameStart))
      ensures st == Ok && Ideal() ==>
                && safeEntry == EntryAfter(old(safeEntry), Reaches(clock, r.checked, deadline), frame)
                && WithheldIn(old(withheld), withheld, frame)
                && fed == old(fed) + if Earns(table, overruns, withheld, frame) then [frame] else []
      ensures st == Ok && overruns == [] ==> fed == old(fed) + [frame]
    {
      hide *;
      deadline := Wrap64(frameStart + 1024);
      WorkFrame(frame, frameStart);
      if machineReset {
        r := FrameRecord(0, 0, 0, 0);
        return MachineReset, deadline, r;
      }
      st, r := CloseFrame(frame, deadline);
    }

    // ---- the window -----------------------------------------------------------------------------

    lemma FreshIsValid()
      requires Fresh() && 1 <= |table| <= MAX_TASKS
      ensures Valid() && !machineReset && framesRun == 0 && fed == [] && told == []
      ensures Happened(overruns, Slot(0, 0))
    {
      assert !ReachedTop(table, []);
    }

    /** The frames so far, reading by reading: each published the absolute schedule and was waited out. */
    ghost predicate OnSchedule(start: uint64, frames: nat)
      reads this`records, this`slackMin, this`frameOverruns, this`clockReads
    {
      && |records| == frames && Kept(clock, start, records) && clockReads == NextReading(records)
      && slackMin == LeastSlack(records)
      && frameOverruns == Wrap32(LateFrames(clock, start, records))
    }

    /** A window entered nominal is degraded from the frame after its first late one. */
    ghost predicate DegradesWhenLate(start: uint64)
      reads this`records, this`safeEntry
    {
      !startsSafe ==>
        match FirstLate(clock, start, records)
        case None => safeEntry == SAFE_ENTRY_NONE
        case Some(f) => f < U32_MAX && safeEntry == f
    }

    /** Rung 3 ended this window in one of its frames, the frames before which were on schedule. */
    ghost predicate CutShort(start: uint64, frames: nat)
      reads this`traceLen, this`traceOverflow, this`dispatched, trace, this`overruns, states,
            this`logCount, this`logOverflow, log, this`suspendedTask, this`suspendedFrame,
            this`dispatches, this`told, this`machineReset, this`safe, this`safeEntry, this`withheld,
            this`records, this`slackMin, this`frameOverruns, this`clockReads
    {
      && Interrupted(frames) && (exists f: nat :: f < frames && OnSchedule(start, f))
      && (Ideal() ==> DegradesWhenLate(start))
    }

    lemma CutShortHere(start: uint64, frame: nat)
      requires Interrupted(frame + 1) && OnSchedule(start, frame)
      requires Ideal() ==> DegradesWhenLate(start)
      ensures CutShort(start, frame + 1)
    {
      hide Interrupted, OnSchedule, Ideal, DegradesWhenLate;
    }

    lemma DegradesStill(start: uint64)
      requires !startsSafe ==>
                 match FirstLate(clock, start, records)
                 case None => safeEntry == SAFE_ENTRY_NONE
                 case Some(f) => f < U32_MAX && safeEntry == f
      ensures DegradesWhenLate(start)
    {
      hide FirstLate;
    }

    ghost predicate FedEvery(frames: nat)
      reads this`fed
    {
      |fed| == frames && forall k :: 0 <= k < frames ==> fed[k] == k
    }

    lemma FreshFacts()
      requires Fresh()
      ensures clockReads == 0 && frameOverruns == 0 && records == [] && safeEntry == SAFE_ENTRY_NONE
      ensures safe == startsSafe && Played(dispatched, overruns, withheld) == Played([], [], {})
    {
    }

    lemma NoVoteFails()
      requires Ideal()
      ensures forall n :: !voteFails(n)
    {
    }

    lemma OpensOnSchedule(start: uint64)
      requires records == [] && clock(0) == Some(start) && clockReads == 1 && slackMin == 1024 && frameOverruns == 0
      ensures OnSchedule(start, 0)
    {
    }

    lemma OpensMode(start: uint64)
      requires records == [] && safe == startsSafe && safeEntry == if startsSafe then 0 else SAFE_ENTRY_NONE
      requires Played(dispatched, overruns, withheld) == Played([], [], {})
      ensures ModeKnown(0) && Following(Slot(0, 0)) && DegradesWhenLate(start)
    {
      hide PlayTo;
      PlayStarts(table, cost, From());
    }

    /** Takes the first reading and marks a window that starts degraded. */
    method OpenWindow() returns (st: Status, frameStart: uint64)
      requires Fresh() && 1 <= |table| <= MAX_TASKS
      modifies this`clockReads, this`votes, this`safe, this`safeReason, this`mirror, this`safeEntry,
               this`slackMin, this`windowStart
      ensures st == Ok || st == Unstable
      ensures st == Unstable ==> ClockFailed() && (Ideal() ==> safe)
      ensures st == Ok ==> windowStart == Wrap32(frameStart) && OnSchedule(frameStart, 0)
      ensures st == Ok && Ideal() ==> ModeKnown(0) && Following(Slot(0, 0)) && DegradesWhenLate(frameStart)
    {
      hide Fresh, Arrays, Following, ModeKnown, Ideal, PlayTo, OnSchedule, DegradesWhenLate;
      FreshFacts();
      st, frameStart := SchedNow(0);
      if st != Ok {
        return;
      }
      slackMin := 1024;
      windowStart := Wrap32(frameStart);
      var degraded := ModeIsSafe();
      if degraded && safeEntry == SAFE_ENTRY_NONE {
        safeEntry := 0;
      }
      OpensOnSchedule(frameStart);
      if Ideal() {
        NoVoteFails();
        OpensMode(frameStart);
      }
    }

    /** Every dispatch was told its frame and that frame's time, and the watchdog was fed where that was earned. */
    ghost predicate History(start: uint64, frames: nat)
      reads this`overruns, this`withheld, this`safeEntry, this`told, this`fed
    {
      && InTable(table, overruns)
      && told == Timed(table, withheld, From(), start, frames)
      && fed == FedFrames(table, overruns, withheld, frames)
    }

    /** What holds between two frames of a window. */
    ghost predicate Between(start: uint64, frame: nat)
      reads this`traceLen, this`traceOverflow, this`dispatched, trace, this`overruns, states,
            this`logCount, this`logOverflow, log, this`suspendedTask, this`suspendedFrame,
            this`dispatches, this`told, this`machineReset, this`clockReads, this`frameOverruns,
            this`framesRun, this`windowStart, this`records, this`slackMin,
            this`safe, this`safeEntry, this`withheld, this`fed
    {
      && Valid() && !machineReset && framesRun == frame && Stage(frame, 0)
      && windowStart == Wrap32(start) && OnSchedule(start, frame)
      && (Ideal() ==> History(start, frame) && DegradesWhenLate(start))
      && (overruns == [] ==> FedEvery(frame))
    }

    /** Another frame on the absolute schedule. */
    lemma ScheduleKept(start: uint64, was: seq<FrameRecord>, wasLeast: int, wasLate: uint32, r: FrameRecord)
      requires Kept(clock, start, was) && wasLeast == LeastSlack(was)
      requires wasLate == Wrap32(LateFrames(clock, start, was))
      requires r.published == Wrap32(start + Ticks(|was|)) && r.checked == NextReading(was)
      requires Waited(clock, Deadline(start, |was|), r)
      requires records == was + [r] && clockReads == r.closed + 1 && slackMin == Min(wasLeast, r.slack)
      requires frameOverruns == if Reaches(clock, r.checked, Deadline(start, |was|)) then Inc(wasLate) else wasLate
      ensures OnSchedule(start, |was| + 1)
    {
      hide *;
      KeptGrows(clock, start, was, r);
      OneMoreFrame(clock, start, was, r);
      IncOfSum(0, LateFrames(clock, start, was));
      LastRecord(was, r);
      Scheduled(start, |was| + 1);
    }

    lemma Scheduled(start: uint64, frames: nat)
      requires |records| == frames && Kept(clock, start, records) && clockReads == NextReading(records)
      requires slackMin == LeastSlack(records) && frameOverruns == Wrap32(LateFrames(clock, start, records))
      ensures OnSchedule(start, frames)
    {
      hide Kept, NextReading, LeastSlack, LateFrames, Wrap32;
    }

    lemma ModeKept(start: uint64, frame: uint32, was: seq<FrameRecord>, wasEntry: uint32, r: FrameRecord)
      requires |was| == frame < U32_MAX && records == was + [r]
      requires !startsSafe ==>
                 match FirstLate(clock, start, was)
                 case None => wasEntry == SAFE_ENTRY_NONE
                 case Some(f) => f < U32_MAX && wasEntry == f
      requires safeEntry == EntryAfter(wasEntry, Reaches(clock, r.checked, Deadline(start, frame)), frame)
      ensures DegradesWhenLate(start)
      ensures wasEntry == SAFE_ENTRY_NONE || safeEntry == wasEntry
      ensures startsSafe ==> safeEntry == wasEntry
      ensures safeEntry == wasEntry || safeEntry == frame
    {
      hide Reaches, Deadline, FirstLate;
      OneMoreFrame(clock, start, was, r);
    }

    lemma ModeMoved(wasEntry: uint32, from: Option<nat>, frame: uint32)
      requires from == if startsSafe then Some(0) else CheckerFrom(wasEntry)
      requires startsSafe || wasEntry == SAFE_ENTRY_NONE || safeEntry == wasEntry
      requires startsSafe ==> safeEntry == wasEntry
      requires safeEntry == wasEntry || safeEntry == frame
      requires frame < U32_MAX
      ensures ModeMoves(from, From(), frame + 1)
    {
    }

    lemma HistoryGrows(start: uint64, frame: nat, from: Option<nat>, es: seq<Overrun>, w: set<Slot>, ran: seq<nat>,
                       t: seq<Stamp>, f: seq<nat>)
      requires Tracked(table, from, es, w, Slot(frame, 0), ran)
      requires Tracked(table, From(), overruns, withheld, Slot(frame + 1, 0), dispatched)
      requires InTable(table, es) && InTable(table, overruns)
      requires ModeMoves(from, From(), frame + 1) && GrewIn(es, overruns, frame) && WithheldIn(w, withheld, frame)
      requires StampedBy(t, ran, told, dispatched, frame, Wrap32(start + Ticks(frame)))
      requires t == Timed(table, w, from, start, frame) && f == FedFrames(table, es, w, frame)
      requires fed == f + if Earns(table, overruns, withheld, frame) then [frame] else []
      ensures History(start, frame + 1)
    {
      hide Tracked, ModeMoves, GrewIn, WithheldIn, StampedBy, Timed, FedFrames, Earns, InTable, From;
      HistoryKept(table, from, From(), es, overruns, w, withheld, start, frame, ran, dispatched, t, told);
    }

    /** What `Between` says of an ideal run, for the next turn. */
    lemma HistoryBefore(start: uint64, frame: uint32)
      requires Between(start, frame) && Ideal()
      ensures Tracked(table, From(), overruns, withheld, Slot(frame, 0), dispatched)
      ensures InTable(table, overruns)
      ensures told == Timed(table, withheld, From(), start, frame)
      ensures fed == FedFrames(table, overruns, withheld, frame)
      ensures !startsSafe ==>
                match FirstLate(clock, start, records)
                case None => safeEntry == SAFE_ENTRY_NONE
                case Some(f) => f < U32_MAX && safeEntry == f
      ensures From() == if startsSafe then Some(0) else CheckerFrom(safeEntry)
    {
      assert History(start, frame) && DegradesWhenLate(start);
      hide Tracked, Stage, Timed, FedFrames, Valid;
      StageTracked(frame, 0);
    }

    /** And of any run. */
    lemma ScheduleBefore(start: uint64, frame: nat)
      requires Between(start, frame)
      ensures Valid() && !machineReset && framesRun == frame && Stage(frame, 0) && windowStart == Wrap32(start)
      ensures |records| == frame && Kept(clock, start, records) && clockReads == NextReading(records)
      ensures slackMin == LeastSlack(records) && frameOverruns == Wrap32(LateFrames(clock, start, records))
      ensures overruns == [] ==> FedEvery(frame)
    {
      hide Valid, Stage, FedEvery, Kept, LeastSlack, LateFrames, NextReading, Wrap32;
    }

    lemma BetweenNext(start: uint64, frame: nat)
      requires Valid() && !machineReset && framesRun == frame && Stage(frame, 0) && windowStart == Wrap32(start)
      requires OnSchedule(start, frame)
      requires Ideal() ==> History(start, frame) && DegradesWhenLate(start)
      requires overruns == [] ==> FedEvery(frame)
      ensures Between(start, frame)
    {
      hide Valid, Stage, FedEvery, OnSchedule, History, DegradesWhenLate, Wrap32;
    }

    lemma FedNext(frame: nat, was: seq<nat>)
      requires |was| == frame && (forall k :: 0 <= k < frame ==> was[k] == k) && fed == was + [frame]
      ensures FedEvery(frame + 1)
    {
    }

    lemma FedAll(frame: nat)
      requires FedEvery(frame)
      ensures |fed| == frame && forall k :: 0 <= k < frame ==> fed[k] == k
    {
    }

    /** One turn of the frame loop, on the absolute schedule. */
    method Turn(frame: uint32, frameStart: uint64, ghost start: uint64) returns (st: Status, deadline: uint64)
      requires frame < U32_MAX && Between(start, frame) && frameStart == Wrap64(start + Ticks(frame))
      modifies this, trace, states, log
      ensures st != Invalid && (st == MachineReset <==> machineReset)
      ensures st == MachineReset ==> CutShort(start, frame + 1)
      ensures st == Unstable ==> ClockFailed() && (Ideal() ==> safe)
      ensures st == Timeout ==> GaveUp(Deadline(start, frame))
      ensures deadline == Wrap64(start + Ticks(frame + 1))
      ensures st == Ok ==> Between(start, frame + 1)
    {
      hide *;
      ghost var was, wasLeast, wasLate, wasEntry := records, slackMin, frameOverruns, safeEntry;
      ghost var from, es, w, ran, t, f := From(), overruns, withheld, dispatched, told, fed;
      NextDeadline(start, frame);
      ScheduleBefore(start, frame);
      if Ideal() {
        HistoryBefore(start, frame);
      }
      if overruns == [] {
        FedAll(frame);
      }
      ghost var r;
      st, deadline, r := RunFrame(frame, frameStart);
      if st == Ok {
        ScheduleKept(start, was, wasLeast, wasLate, r);
        GrewIsPrefix(es, overruns, frame);
        if Ideal() {
          ModeKept(start, frame, was, wasEntry, r);
          ModeMoved(wasEntry, from, frame);
          StageTracked(frame + 1, 0);
          HistoryGrows(start, frame, from, es, w, ran, t, f);
        }
        if overruns == [] {
          FedNext(frame, f);
        }
        BetweenNext(start, frame + 1);
      } else if st == MachineReset {
        Scheduled(start, frame);
        if Ideal() {
          DegradesStill(start);
        }
        CutShortHere(start, frame);
      }
    }

    lemma OpensBetween(start: uint64)
      requires Valid() && !machineReset && framesRun == 0 && windowStart == Wrap32(start) && OnSchedule(start, 0)
      requires Ideal() ==> ModeKnown(0) && Following(Slot(0, 0)) && DegradesWhenLate(start)
      requires Happened(overruns, Slot(0, 0))
      requires fed == [] && told == []
      ensures Between(start, 0)
    {
      assert Stage(0, 0) by { hide Happened, ModeKnown, Following, Ideal; }
      assert InTable(table, overruns) by { TableKept(); }
      hide Valid, Stage, Happened, ModeKnown, Following, Ideal, OnSchedule, DegradesWhenLate, InTable;
    }

    /** The frame loop. */
    method RunFrames(frames: uint32, first: uint64, ghost start: uint64) returns (st: Status, frameStart: uint64)
      requires Between(start, 0) && first == start
      modifies this, trace, states, log
      ensures st != Invalid && (st == MachineReset <==> machineReset)
      ensures st == MachineReset ==> CutShort(start, frames)
      ensures st == Unstable ==> ClockFailed() && (Ideal() ==> safe)
      ensures st == Timeout ==> exists f: nat :: f < frames && GaveUp(Deadline(start, f))
      ensures st == Ok ==> Between(start, frames) && frameStart == Wrap64(start + Ticks(frames))
    {
      hide *;
      st, frameStart := Ok, first;
      FirstStart(start);
      ScheduleBefore(start, 0);
      for frame := 0 to frames
        invariant st == Ok && !machineReset
        invariant frameStart == Wrap64(start + Ticks(frame))
        invariant Between(start, frame)
      {
        FrameFits(frame, frames);
        st, frameStart := Turn(frame, frameStart, start);
        if st != Ok {
          if st == MachineReset {
            CutShortWithin(start, frame + 1, frames);
          }
          return st, frameStart;
        }
      }
    }

    lemma CutShortWithin(start: uint64, n: nat, frames: nat)
      requires CutShort(start, n) && n <= frames
      ensures CutShort(start, frames)
    {
      hide Valid, Stage, OnSchedule, DegradesWhenLate;
    }

    /**
      `run_window`.  A window that ends well ran every frame on the absolute schedule, waited
      each one out on the clock, and its trace is the one its table and its costs lead to.
      Any other end has its cause: a reading that did not settle, a deadline the clock did
      not reach, or a task that climbed to rung 3.
    */
    method RunWindow(frames: uint32) returns (st: Status, ghost start: uint64)
      requires Fresh()
      modifies this, trace, states, log
      ensures st == Invalid <==> |table| == 0 || |table| > MAX_TASKS
      ensures st == MachineReset <==> machineReset
      ensures st == MachineReset ==> CutShort(start, frames)
      ensures st == Unstable ==> ClockFailed() && (Ideal() ==> safe)
      ensures st == Timeout ==> exists f: nat :: f < frames && GaveUp(Deadline(start, f))
      ensures st == Ok || st == Timeout ==> clock(0) == Some(start)
      ensures st == Ok ==> Between(start, frames) && windowEnd == Wrap32(start + Ticks(frames))
    {
      hide *;
      start := 0;
      assert !machineReset by { NotYetReset(); }
      if |table| == 0 || |table| > MAX_TASKS {
        return Invalid, start;
      }
      FreshIsValid();
      var frameStart;
      st, frameStart := OpenWindow();
      start := frameStart;
      if st != Ok {
        return;
      }
      OpensBetween(start);
      FirstStart(start);
      FirstReading(start);
      st, frameStart := RunFrames(frames, frameStart, start);
      if st == Ok {
        LowHalf(start + Ticks(frames));
        windowEnd := Wrap32(frameStart);
        ScheduleBefore(start, frames);
      }
    }

    lemma FirstReading(start: uint64)
      requires OnSchedule(start, 0)
      ensures clock(0) == Some(start)
    {
    }

    lemma NotYetReset()
      requires Fresh()
      ensures !machineReset
    {
    }

    /** `obc_sched_run`: the watchdog is armed for exactly as long as the window runs. */
    method Run(frames: uint32) returns (st: Status, ghost start: uint64)
      requires Fresh()
      modifies this, trace, states, log
      ensures st == Invalid <==> |table| == 0 || |table| > MAX_TASKS
      ensures st == MachineReset <==> machineReset
      ensures armed <==> machineReset
      ensures st == MachineReset ==> CutShort(start, frames)
      ensures st == Unstable ==> ClockFailed() && (Ideal() ==> safe)
      ensures st == Timeout ==> exists f: nat :: f < frames && GaveUp(Deadline(start, f))
      ensures st == Ok || st == Timeout ==> clock(0) == Some(start)
      ensures st == Ok ==> Between(start, frames) && windowEnd == Wrap32(start + Ticks(frames))
    {
      hide Ideal, Between, CutShort, ClockFailed, GaveUp, Deadline;
      armed := true;
      st, start := RunWindow(frames);
      // after rung 3 there is no coming back to disarm it
      armed := st == MachineReset;
    }
  }

  lemma NoWrap(n: uint32)
    requires n < U32_MAX
    ensures Inc(n) == n + 1
  {
  }

  /** One frame further on the absolute schedule, as the executive computes it. */
  lemma NextDeadline(start: uint64, frame: nat)
    ensures Wrap64(Wrap64(start + Ticks(frame)) + 1024) == Wrap64(start + Ticks(frame + 1)) == Deadline(start, frame)
    ensures Wrap32(Wrap64(start + Ticks(frame))) == Wrap32(start + Ticks(frame))
  {
    assert Ticks(frame + 1) == Ticks(frame) + 1024;
    hide Wrap32, Wrap64, Ticks;
    WrapStep(start + Ticks(frame), 1024);
    LowHalf(start + Ticks(frame));
  }

  lemma LastRecord(was: seq<FrameRecord>, r: FrameRecord)
    ensures NextReading(was + [r]) == r.closed + 1
  {
  }

  lemma FrameFits(frame: nat, frames: uint32)
    requires frame < frames
    ensures frame < U32_MAX
  {
  }

  lemma FirstStart(start: uint64)
    ensures start == Wrap64(start + Ticks(0))
  {
  }

  lemma GrewNot(es: seq<Overrun>, frame: nat)
    ensures GrewIn(es, es, frame)
  {
  }

  lemma GrewByOne(es: seq<Overrun>, e: Overrun)
    ensures GrewIn(es, es + [e], e.frame)
  {
  }

  lemma GrewIsPrefix(es: seq<Overrun>, later: seq<Overrun>, frame: nat)
    requires GrewIn(es, later, frame)
    ensures es <= later
  {
  }

  lemma NextDueElsewhere(t: Task, frame: uint32)
    ensures t.period != 0 ==> NextDue(t, frame) != frame
  {
  }

  lemma OneMoreDispatch(cost: nat -> uint32, ran: seq<nat>, task: nat, i: nat)
    ensures Occurrences(ran + [task], i) == Occurrences(ran, i) + if i == task then 1 else 0
    ensures Worst(cost, ran + [task], i)
         == if i == task && cost(|ran|) > Worst(cost, ran, i) then cost(|ran|) else Worst(cost, ran, i)
  {
    assert (ran + [task])[..|ran|] == ran;
  }

  lemma OneMoreOverrun(es: seq<Overrun>, e: Overrun, i: nat)
    ensures Count(es + [e], i) == Count(es, i) + if i == e.task then 1 else 0
  {
    assert (es + [e])[..|es|] == es;
  }

  lemma LastRungIs(table: seq<Task>, es: seq<Overrun>, e: Overrun)
    requires InTable(table, es) && e.task < |table|
    ensures InTable(table, es + [e])
    ensures LastRung(table, es + [e]) == RungFor(table[e.task], Wrap32(Count(es, e.task) + 1))
  {
    AnnouncedAppend(table, es, e);
  }
}
