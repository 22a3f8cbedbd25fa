/**
  What the executed commands did (flight/cmd/table.c, flight/cmd/queue.c), told from the
  history of departures and the opcodes alone, over every run of the command path.
*/
module CmdEffects {
  import opened Words
  import opened FrameSum
  import opened CmdTable
  import opened CmdFrame
  import opened Q = CmdQueue
  import opened CmdRuns

  predicate RanOpcode(d: Departure, opcode: nat) {
    d.Ran? && d.slot.opcode == opcode
  }

  /** The argument of the last `set` that ran, 0 before the first. */
  function LastSetArg(log: seq<Departure>): uint32 {
    if log == [] then 0
    else if RanOpcode(log[|log| - 1], 0x11) then log[|log| - 1].slot.arg else LastSetArg(log[..|log| - 1])
  }

  /** How many commands of this opcode ran. */
  function RanTimes(log: seq<Departure>, opcode: nat): nat {
    if log == [] then 0
    else RanTimes(log[..|log| - 1], opcode) + if RanOpcode(log[|log| - 1], opcode) then 1 else 0
  }

  /** It ran later than one frame after its tag, in the counter's wrapping arithmetic. */
  predicate RanLate(d: Departure) {
    d.Ran? && d.now > (d.slot.when + 1024) % 0x1_0000_0000
  }

  function LateTimes(log: seq<Departure>): nat {
    if log == [] then 0 else LateTimes(log[..|log| - 1]) + if RanLate(log[|log| - 1]) then 1 else 0
  }

  /** The handlers' globals and the late counter are what the history says. */
  predicate EffectsFollow(q: Queue) {
    && (q.fx.safeRequested <==> RanTimes(q.log, 0x13) > 0)
    && q.fx.setArg == LastSetArg(q.log)
    && q.fx.pingCount == Min(RanTimes(q.log, 0x10), U32_MAX)
    && q.late == Min(LateTimes(q.log), U32_MAX)
  }

  /** What each opcode of the table does, and leaves alone. */
  lemma HandlerOf(opcode: uint8, arg: uint32, fx: Effects)
    requires Lookup(opcode).Some?
    ensures var after := Handle(Lookup(opcode).value.handler, arg, fx);
            && after.pingCount == (if opcode == 0x10 then Bump(fx.pingCount) else fx.pingCount)
            && after.setArg == (if opcode == 0x11 then arg else fx.setArg)
            && after.armTarget == (if opcode == 0x12 then arg else fx.armTarget)
            && after.safeRequested == (opcode == 0x13 || fx.safeRequested)
  {
  }

  lemma OneMore(log: seq<Departure>, d: Departure)
    ensures LastSetArg(log + [d]) == if RanOpcode(d, 0x11) then d.slot.arg else LastSetArg(log)
    ensures forall opcode ::
              RanTimes(log + [d], opcode) == RanTimes(log, opcode) + if RanOpcode(d, opcode) then 1 else 0
    ensures LateTimes(log + [d]) == LateTimes(log) + if RanLate(d) then 1 else 0
  {
    assert (log + [d])[..|log|] == log;
  }

  /** The globals after one execution. */
  lemma ExecuteDoes(q: Queue, k: nat, now: uint32, frame: uint32)
    requires k < |q.slots| && Lookup(q.slots[k].opcode).Some? && q.fx.armTarget == 0
    ensures var s, r := q.slots[k], Execute(q, k, now, frame);
            && r.log == q.log + [Ran(s, frame, now)]
            && r.fx.safeRequested == (s.opcode == 0x13 || q.fx.safeRequested)
            && r.fx.setArg == (if s.opcode == 0x11 then s.arg else q.fx.setArg)
            && r.fx.pingCount == (if s.opcode == 0x10 then Bump(q.fx.pingCount) else q.fx.pingCount)
            && r.late == (if RanLate(Ran(s, frame, now)) then Bump(q.late) else q.late)
            && r.armedOpcode == if s.opcode == 0x12 && s.arg != 0 then s.arg else q.armedOpcode
  {
    HandlerOf(q.slots[k].opcode, q.slots[k].arg, q.fx);
    hide Lookup, Handle, Bump;
  }

  lemma ExecuteFollows(q: Queue, k: nat, now: uint32, frame: uint32)
    requires k < |q.slots| && Lookup(q.slots[k].opcode).Some? && q.fx.armTarget == 0 && EffectsFollow(q)
    ensures EffectsFollow(Execute(q, k, now, frame))
  {
    ExecuteDoes(q, k, now, frame);
    OneMore(q.log, Ran(q.slots[k], frame, now));
    hide Execute, Lookup, LastSetArg, RanTimes, LateTimes, RanLate;
  }

  lemma {:induction false} PassesFollow(q: Queue, admitted: nat, now: uint32, frame: uint32, passes: nat)
    requires QueueSound(q, admitted) && EffectsFollow(q)
    ensures EffectsFollow(Passes(q, now, frame, passes))
    decreases passes
  {
    hide QueueSound, Execute, EffectsFollow, Lookup;
    SoundShape(q, admitted);
    var k := Oldest(q.slots, now, |q.slots|);
    if passes > 0 && k < |q.slots| {
      ExecuteSound(q, admitted, k, now, frame);
      ExecuteFollows(q, k, now, frame);
      PassesFollow(Execute(q, k, now, frame), admitted, now, frame, passes - 1);
    }
  }

  lemma ResetFollows(q: Queue)
    requires EffectsFollow(q)
    ensures EffectsFollow(AfterReset(q))
  {
    OneMore(q.log, Reset(Occupied(q.slots)));
    hide LastSetArg, RanTimes, LateTimes, Occupied;
  }

  /** Receiving bytes changes nothing of what has been done. */
  predicate EffectsKept(q: Queue, q': Queue) {
    q'.fx == q.fx && q'.log == q.log && q'.late == q.late && q'.armedOpcode == q.armedOpcode
  }

  lemma ByteKeeps(p: Path, byte: uint8)
    requires |p.rejected| == REJECT_COUNT && |p.rx| < FRAME_LEN
    ensures EffectsKept(p.queue, AfterByte(p, byte).queue)
  {
    hide Verdict, EntryOf, FirstFree;
  }

  lemma {:induction false} BytesKeep(p: Path, bytes: seq<uint8>)
    requires |p.rejected| == REJECT_COUNT && |p.rx| < FRAME_LEN
    ensures EffectsKept(p.queue, AfterBytes(p, bytes).queue)
  {
    hide AfterByte;
    if bytes == [] {
    } else {
      BytesKeep(p, bytes[..|bytes| - 1]);
      ByteKeeps(AfterBytes(p, bytes[..|bytes| - 1]), bytes[|bytes| - 1]);
    }
  }

  lemma PollKeeps(p: Path, bytes: seq<uint8>)
    requires |p.rejected| == REJECT_COUNT && |p.rx| < FRAME_LEN
    ensures EffectsKept(p.queue, AfterPoll(p, bytes).queue)
  {
    hide AfterBytes;
    BytesKeep(p, bytes);
  }

  lemma KeptFollows(q: Queue, q': Queue)
    requires EffectsKept(q, q') && EffectsFollow(q)
    ensures EffectsFollow(q')
  {
    hide LastSetArg, RanTimes, LateTimes;
  }

  lemma ExpireKeeps(q: Queue, frame: uint32)
    ensures Expire(q, frame).fx == q.fx && Expire(q, frame).log == q.log && Expire(q, frame).late == q.late
    ensures Expire(q, frame).slots == q.slots
    ensures Expire(q, frame).armedOpcode == q.armedOpcode || Expire(q, frame).armedOpcode == ARM_NONE
  {
  }

  lemma QueueOfSound(p: Path)
    requires Sound(p)
    ensures QueueSound(p.queue, Verdicts(p.exams, 8)) && |p.rejected| == REJECT_COUNT && |p.rx| < FRAME_LEN
  {
    hide QueueSound, Verdicts;
  }

  lemma StepUnfolds(p: Path, e: Event)
    requires |p.rejected| == REJECT_COUNT && |p.rx| < FRAME_LEN
    ensures Step(p, e).queue ==
            match e
            case Dispatch(bytes, now, frame) => Passes(Expire(AfterPoll(p, bytes).queue, frame), now, frame, LEN)
            case QueueReset => AfterReset(p.queue)
  {
    hide AfterPoll, Passes, Expire, AfterReset;
  }

  lemma StepFollows(p: Path, e: Event)
    requires Sound(p) && EffectsFollow(p.queue)
    ensures EffectsFollow(Step(p, e).queue)
  {
    hide *;
    QueueOfSound(p);
    StepUnfolds(p, e);
    match e {
      case Dispatch(bytes, now, frame) =>
        PollSound(p, bytes);
        var polled := AfterPoll(p, bytes);
        QueueOfSound(polled);
        PollKeeps(p, bytes);
        KeptFollows(p.queue, polled.queue);
        ExpireSound(polled.queue, Verdicts(polled.exams, 8), frame);
        ExpireFollows(polled.queue, frame);
        PassesFollow(Expire(polled.queue, frame), Verdicts(polled.exams, 8), now, frame, LEN);
      case QueueReset =>
        ResetFollows(p.queue);
    }
  }

  lemma ExpireFollows(q: Queue, frame: uint32)
    requires EffectsFollow(q)
    ensures EffectsFollow(Expire(q, frame))
  {
    ExpireKeeps(q, frame);
    hide Expire, LastSetArg, RanTimes, LateTimes;
  }

  lemma RunUnfolds(es: seq<Event>)
    requires es != []
    ensures Run(BOOT, es) == Step(Run(BOOT, es[..|es| - 1]), es[|es| - 1])
    ensures |BOOT.rejected| == REJECT_COUNT && |BOOT.rx| < FRAME_LEN
  {
    hide Step;
  }

  lemma BootFollows()
    ensures EffectsFollow(BOOT.queue) && Run(BOOT, []) == BOOT
  {
  }

  /**
    In every reachable state safe mode has been requested exactly if a `safe` ran, the
    stored argument is the one of the last `set` that ran, the pings are counted up to the
    ceiling, and so are the commands that ran late.
  */
  lemma {:induction false} EffectsAreTheHistory(es: seq<Event>)
    ensures var q := Run(BOOT, es).queue;
            && (q.fx.safeRequested <==> exists d :: d in q.log && RanOpcode(d, 0x13))
            && q.fx.setArg == LastSetArg(q.log)
            && q.fx.pingCount == Min(RanTimes(q.log, 0x10), U32_MAX)
            && q.late == Min(LateTimes(q.log), U32_MAX)
  {
    EffectsReach(es);
    SomeRan(Run(BOOT, es).queue.log, 0x13);
    hide Run, LastSetArg, RanTimes, LateTimes;
  }

  lemma {:induction false} EffectsReach(es: seq<Event>)
    ensures EffectsFollow(Run(BOOT, es).queue)
  {
    hide *;
    if es == [] {
      BootFollows();
    } else {
      EffectsReach(es[..|es| - 1]);
      EveryRunIsSound(es[..|es| - 1]);
      RunUnfolds(es);
      StepFollows(Run(BOOT, es[..|es| - 1]), es[|es| - 1]);
    }
  }

  lemma {:induction false} SomeRan(log: seq<Departure>, opcode: nat)
    ensures RanTimes(log, opcode) > 0 <==> exists d :: d in log && RanOpcode(d, opcode)
  {
    if log == [] {
    } else {
      var n := |log| - 1;
      SomeRan(log[..n], opcode);
      assert log == log[..n] + [log[n]];
    }
  }

  // ---- nothing critical without its arm ------------------------------------------------------

  /** Among the first `n` departures an arm for `safe` ran. */
  predicate ArmedBefore(log: seq<Departure>, n: nat) {
    exists i :: 0 <= i < n && i < |log| && RanOpcode(log[i], 0x12) && log[i].slot.arg == 0x13
  }

  predicate HoldsSafe(slots: seq<Slot>) {
    exists i :: 0 <= i < |slots| && slots[i].occupied && slots[i].opcode == 0x13
  }

  /** No `safe` has run, waits or may be accepted but after an arm for it. */
  predicate ArmsFirst(q: Queue) {
    && (forall j :: 0 <= j < |q.log| && RanOpcode(q.log[j], 0x13) ==> ArmedBefore(q.log, j))
    && (HoldsSafe(q.slots) || q.armedOpcode == 0x13 ==> ArmedBefore(q.log, |q.log|))
  }

  lemma ArmsExtend(log: seq<Departure>, d: Departure, n: nat)
    requires n <= |log|
    ensures ArmedBefore(log + [d], n) <==> ArmedBefore(log, n)
    ensures ArmedBefore(log, |log|) ==> ArmedBefore(log + [d], |log| + 1)
    ensures RanOpcode(d, 0x12) && d.slot.arg == 0x13 ==> ArmedBefore(log + [d], |log| + 1)
  {
    var more := log + [d];
    assert more[|log|] == d && forall i :: 0 <= i < |log| ==> more[i] == log[i];
  }

  lemma ArmsFirstExtends(q: Queue, r: Queue, d: Departure)
    requires ArmsFirst(q) && r.log == q.log + [d]
    requires RanOpcode(d, 0x13) ==> ArmedBefore(q.log, |q.log|)
    requires HoldsSafe(r.slots) || r.armedOpcode == 0x13 ==>
               ArmedBefore(q.log, |q.log|) || (RanOpcode(d, 0x12) && d.slot.arg == 0x13)
    ensures ArmsFirst(r)
  {
    ArmsExtend(q.log, d, |q.log|);
    forall j | 0 <= j < |r.log| && RanOpcode(r.log[j], 0x13) ensures ArmedBefore(r.log, j) {
      ArmsExtend(q.log, d, j);
    }
    hide ArmedBefore;
  }

  lemma ExecuteArmsFirst(q: Queue, k: nat, now: uint32, frame: uint32)
    requires k < |q.slots| && q.slots[k].occupied && Lookup(q.slots[k].opcode).Some? && q.fx.armTarget == 0
    requires ArmsFirst(q)
    ensures ArmsFirst(Execute(q, k, now, frame))
  {
    var s := q.slots[k];
    ExecuteDoes(q, k, now, frame);
    assert Execute(q, k, now, frame).slots == q.slots[k := s.(occupied := false)] by { hide Handle; }
    hide Execute, Lookup, ArmedBefore;
    ArmsFirstExtends(q, Execute(q, k, now, frame), Ran(s, frame, now));
  }

  lemma {:induction false} PassesArmFirst(q: Queue, admitted: nat, now: uint32, frame: uint32, passes: nat)
    requires QueueSound(q, admitted) && ArmsFirst(q)
    ensures ArmsFirst(Passes(q, now, frame, passes))
    decreases passes
  {
    hide QueueSound, Execute, ArmsFirst, Lookup;
    SoundShape(q, admitted);
    var k := Oldest(q.slots, now, |q.slots|);
    if passes > 0 && k < |q.slots| {
      ExecuteSound(q, admitted, k, now, frame);
      ExecuteArmsFirst(q, k, now, frame);
      PassesArmFirst(Execute(q, k, now, frame), admitted, now, frame, passes - 1);
    }
  }

  lemma NothingHeld(q: Queue)
    ensures !HoldsSafe(AfterReset(q).slots) && AfterReset(q).armedOpcode == ARM_NONE
    ensures AfterReset(q).log == q.log + [Reset(Occupied(q.slots))]
  {
    hide Occupied;
  }

  lemma ResetArmsFirst(q: Queue)
    requires ArmsFirst(q)
    ensures ArmsFirst(AfterReset(q))
  {
    NothingHeld(q);
    hide AfterReset, ArmedBefore, HoldsSafe, Occupied;
    ArmsFirstExtends(q, AfterReset(q), Reset(Occupied(q.slots)));
  }

  /** A `safe` is put in the queue only while the arming names it. */
  lemma AcceptedSafe(p: Path, frame: seq<uint8>)
    requires Verdict(p, frame) == 8
    ensures |frame| == 20 && (EntryOf(frame).opcode == 0x13 ==> p.queue.armedOpcode == 0x13)
  {
    VerdictMeans(p, frame);
    assert Lookup(0x13) == Some(TABLE[3]) && TABLE[3].critical;
    hide Verdict, Lookup, IntegrityWord, FromLittleEndian;
  }

  lemma IngestArmsFirst(p: Path, frame: seq<uint8>)
    requires |p.rejected| == REJECT_COUNT && ArmsFirst(p.queue)
    ensures ArmsFirst(AfterIngest(p, frame).queue)
  {
    if Verdict(p, frame) == 8 {
      AcceptedSafe(p, frame);
    }
    hide Verdict, EntryOf, FirstFree, ArmedBefore;
  }

  lemma ByteArmsFirst(p: Path, byte: uint8)
    requires |p.rejected| == REJECT_COUNT && |p.rx| < FRAME_LEN && ArmsFirst(p.queue)
    ensures ArmsFirst(AfterByte(p, byte).queue)
  {
    hide AfterIngest, ArmsFirst;
    if |p.rx| + 1 == FRAME_LEN {
      IngestArmsFirst(p.(rx := []), p.rx + [byte]);
    }
  }

  lemma {:induction false} BytesArmFirst(p: Path, bytes: seq<uint8>)
    requires |p.rejected| == REJECT_COUNT && |p.rx| < FRAME_LEN && ArmsFirst(p.queue)
    ensures ArmsFirst(AfterBytes(p, bytes).queue)
  {
    hide AfterByte, ArmsFirst;
    if bytes == [] {
    } else {
      BytesArmFirst(p, bytes[..|bytes| - 1]);
      ByteArmsFirst(AfterBytes(p, bytes[..|bytes| - 1]), bytes[|bytes| - 1]);
    }
  }

  lemma PollArmsFirst(p: Path, bytes: seq<uint8>)
    requires |p.rejected| == REJECT_COUNT && |p.rx| < FRAME_LEN && ArmsFirst(p.queue)
    ensures ArmsFirst(AfterPoll(p, bytes).queue)
  {
    BytesArmFirst(p, bytes);
    hide AfterBytes, ArmsFirst;
  }

  lemma ExpireArmsFirst(q: Queue, frame: uint32)
    requires ArmsFirst(q)
    ensures ArmsFirst(Expire(q, frame))
  {
    ExpireKeeps(q, frame);
    hide Expire, ArmedBefore, HoldsSafe;
  }

  lemma StepArmsFirst(p: Path, e: Event)
    requires Sound(p) && ArmsFirst(p.queue)
    ensures ArmsFirst(Step(p, e).queue)
  {
    hide *;
    QueueOfSound(p);
    StepUnfolds(p, e);
    match e {
      case Dispatch(bytes, now, frame) =>
        PollSound(p, bytes);
        var polled := AfterPoll(p, bytes);
        QueueOfSound(polled);
        PollArmsFirst(p, bytes);
        ExpireSound(polled.queue, Verdicts(polled.exams, 8), frame);
        ExpireArmsFirst(polled.queue, frame);
        PassesArmFirst(Expire(polled.queue, frame), Verdicts(polled.exams, 8), now, frame, LEN);
      case QueueReset =>
        ResetArmsFirst(p.queue);
    }
  }

  lemma BootArmsFirst()
    ensures ArmsFirst(BOOT.queue) && Run(BOOT, []) == BOOT
  {
  }

  lemma {:induction false} ArmsFirstReach(es: seq<Event>)
    ensures ArmsFirst(Run(BOOT, es).queue)
  {
    hide *;
    if es == [] {
      BootArmsFirst();
    } else {
      ArmsFirstReach(es[..|es| - 1]);
      EveryRunIsSound(es[..|es| - 1]);
      RunUnfolds(es);
      StepArmsFirst(Run(BOOT, es[..|es| - 1]), es[|es| - 1]);
    }
  }

  /** Safe mode is requested only where an arm naming `safe` ran, and after it a `safe`. */
  lemma SafeNeedsArm(es: seq<Event>) returns (i: nat, j: nat)
    requires Run(BOOT, es).queue.fx.safeRequested
    ensures var log := Run(BOOT, es).queue.log;
            i < j < |log| && RanOpcode(log[i], 0x12) && log[i].slot.arg == 0x13 && RanOpcode(log[j], 0x13)
  {
    EffectsAreTheHistory(es);
    ArmsFirstReach(es);
    hide Run, LastSetArg, RanTimes, LateTimes;
    var log := Run(BOOT, es).queue.log;
    var d :| d in log && RanOpcode(d, 0x13);
    j :| 0 <= j < |log| && log[j] == d;
    i :| 0 <= i < j && i < |log| && RanOpcode(log[i], 0x12) && log[i].slot.arg == 0x13;
  }

  // ---- the counter a replay is measured against ------------------------------------------------

  /** The counter of the last accepted frame, 0 before the first. */
  function LastAcceptedCounter(exams: seq<Exam>): uint32 {
    if exams == [] then 0
    else
      var e := exams[|exams| - 1];
      if e.reason == 8 && |e.frame| == 20 then Word32(e.frame, 4) else LastAcceptedCounter(exams[..|exams| - 1])
  }

  predicate CounterFollows(p: Path) {
    p.lastCounter == LastAcceptedCounter(p.exams)
  }

  lemma OneMoreExam(exams: seq<Exam>, e: Exam)
    ensures LastAcceptedCounter(exams + [e]) ==
            if e.reason == 8 && |e.frame| == 20 then Word32(e.frame, 4) else LastAcceptedCounter(exams)
  {
    assert (exams + [e])[..|exams|] == exams;
  }

  lemma IngestCounter(p: Path, frame: seq<uint8>)
    requires |p.rejected| == REJECT_COUNT && CounterFollows(p)
    ensures CounterFollows(AfterIngest(p, frame))
  {
    OneMoreExam(p.exams, Exam(frame, Verdict(p, frame)));
    if Verdict(p, frame) == 8 {
      AcceptedSafe(p, frame);
    }
    hide Verdict, LastAcceptedCounter, AfterPut, FromLittleEndian;
  }

  lemma ByteCounter(p: Path, byte: uint8)
    requires |p.rejected| == REJECT_COUNT && |p.rx| < FRAME_LEN && CounterFollows(p)
    ensures CounterFollows(AfterByte(p, byte))
  {
    hide AfterIngest, LastAcceptedCounter;
    if |p.rx| + 1 == FRAME_LEN {
      IngestCounter(p.(rx := []), p.rx + [byte]);
    }
  }

  lemma {:induction false} BytesCounter(p: Path, bytes: seq<uint8>)
    requires |p.rejected| == REJECT_COUNT && |p.rx| < FRAME_LEN && CounterFollows(p)
    ensures CounterFollows(AfterBytes(p, bytes))
  {
    hide AfterByte, CounterFollows;
    if bytes == [] {
    } else {
      BytesCounter(p, bytes[..|bytes| - 1]);
      ByteCounter(AfterBytes(p, bytes[..|bytes| - 1]), bytes[|bytes| - 1]);
    }
  }

  lemma StepCounter(p: Path, e: Event)
    requires |p.rejected| == REJECT_COUNT && |p.rx| < FRAME_LEN && CounterFollows(p)
    ensures CounterFollows(Step(p, e))
  {
    match e {
      case Dispatch(bytes, now, frame) =>
        BytesCounter(p, bytes);
        OneMoreExam(p.exams, Exam(p.rx, REJECT_LENGTH));
      case QueueReset =>
    }
    hide AfterBytes, LastAcceptedCounter, AfterRun, AfterReset;
  }

  /** In every reachable state the counter a frame must exceed is the last accepted one, refusals or not. */
  lemma {:induction false} CounterIsLastAccepted(es: seq<Event>)
    ensures Run(BOOT, es).lastCounter == LastAcceptedCounter(Run(BOOT, es).exams)
  {
    if es == [] {
    } else {
      hide Step, LastAcceptedCounter;
      RunUnfolds(es);
      CounterIsLastAccepted(es[..|es| - 1]);
      StepCounter(Run(BOOT, es[..|es| - 1]), es[|es| - 1]);
    }
  }

  // ---- the order of one run ----------------------------------------------------------------------

  /** Departures taken in this order, told without the definitions of a due entry and of its turn. */
  predicate LeftInTurn(slots: seq<Slot>, order: seq<nat>, left: seq<Departure>, now: uint32) {
    && |left| == |order|
    && (forall n :: 0 <= n < |order| ==>
          && order[n] < |slots| && !left[n].Reset? && left[n].slot == slots[order[n]]
          && slots[order[n]].occupied && slots[order[n]].when <= now)
    && (forall m, n :: 0 <= m < n < |order| ==>
          && slots[order[m]].when <= slots[order[n]].when
          && (slots[order[m]].when == slots[order[n]].when ==> order[m] < order[n]))
    && (forall i :: 0 <= i < |slots| && slots[i].occupied && slots[i].when <= now ==> i in order)
  }

  lemma DueOrderTurns(slots: seq<Slot>, order: seq<nat>, now: uint32, frame: uint32)
    requires DueOrder(slots, now, order) && forall n :: 0 <= n < |order| ==> order[n] < |slots|
    ensures LeftInTurn(slots, order, Departures(slots, order, now, frame), now)
  {
    hide Lookup;
    forall m, n | 0 <= m < n < |order|
      ensures slots[order[m]].when <= slots[order[n]].when
      ensures slots[order[m]].when == slots[order[n]].when ==> order[m] < order[n]
    {
      assert Before(slots, order[m], order[n]);
    }
    forall i | 0 <= i < |slots| && slots[i].occupied && slots[i].when <= now ensures i in order {
      assert Due(slots[i], now);
    }
  }

  lemma FreedMeans(before: seq<Slot>, after: seq<Slot>, now: uint32)
    requires DueFreed(before, after, now)
    ensures |after| == |before|
    ensures forall i :: 0 <= i < |before| ==>
              && after[i].occupied == (before[i].occupied && before[i].when > now)
              && (after[i].occupied ==> after[i] == before[i])
  {
  }

  lemma AfterRunIs(q: Queue, now: uint32, frame: uint32)
    ensures AfterRun(q, now, frame) == Passes(Expire(q, frame), now, frame, 4)
  {
    hide Passes, Expire;
  }

  /**
    One run of the queue, in words of its own: what left was waiting with a tag the time had
    reached, earlier tags first and lower slots first among equals; every such entry left and
    its slot is free; nothing else moved.
  */
  lemma RunsByTag(q: Queue, now: uint32, frame: uint32) returns (order: seq<nat>, left: seq<Departure>)
    requires |q.slots| == 4
    ensures LeftInTurn(q.slots, order, left, now)
    ensures var r := AfterRun(q, now, frame);
            && r.log == q.log + left && |r.slots| == 4
            && forall i :: 0 <= i < 4 ==>
                 && r.slots[i].occupied == (q.slots[i].occupied && q.slots[i].when > now)
                 && (r.slots[i].occupied ==> r.slots[i] == q.slots[i])
  {
    hide *;
    ExpireKeeps(q, frame);
    AfterRunIs(q, now, frame);
    DueCountZero(q.slots, now);
    order := RunsExactlyTheDue(Expire(q, frame), now, frame, 4);
    left := Departures(q.slots, order, now, frame);
    DueOrderTurns(q.slots, order, now, frame);
    FreedMeans(q.slots, AfterRun(q, now, frame).slots, now);
  }
}
