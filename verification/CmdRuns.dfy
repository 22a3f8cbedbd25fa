/**
  Every run of the command path: dispatches of `task_command` and rung-2 resets of its
  queue (flight/core/tasks.c, flight/cmd).
*/
module CmdRuns {
  import opened Words
  import opened CmdTable
  import opened CmdFrame
  import opened Q = CmdQueue

  datatype Event =
    | Dispatch(bytes: seq<uint8>, now: uint32, frame: uint32)
    | QueueReset

  /** `obc_cmd_init` after the boot cleared everything. */
  const BOOT: Path := Path([], 0, 0, 0, [0, 0, 0, 0, 0, 0, 0, 0], {},
    Queue([EMPTY_SLOT, EMPTY_SLOT, EMPTY_SLOT, EMPTY_SLOT], 0, 0, 0, ARM_NONE, 0, Effects(0, 0, 0, false), []), [])

  predicate Shaped(p: Path) {
    |p.rejected| == REJECT_COUNT && |p.rx| < FRAME_LEN && |p.queue.slots| == LEN
  }

  function Step(p: Path, e: Event): (p': Path)
    requires |p.rejected| == REJECT_COUNT && |p.rx| < FRAME_LEN
    ensures |p'.rejected| == REJECT_COUNT && |p'.rx| < FRAME_LEN
  {
    match e
    case Dispatch(bytes, now, frame) => AfterDispatch(p, bytes, now, frame)
    case QueueReset => p.(queue := AfterReset(p.queue))
  }

  function Run(p: Path, es: seq<Event>): (p': Path)
    requires |p.rejected| == REJECT_COUNT && |p.rx| < FRAME_LEN
    ensures |p'.rejected| == REJECT_COUNT && |p'.rx| < FRAME_LEN
  {
    if es == [] then p else Step(Run(p, es[..|es| - 1]), es[|es| - 1])
  }

  // ---- accounting -------------------------------------------------------------------

  function Verdicts(exams: seq<Exam>, reason: Reason): nat {
    if exams == [] then 0
    else Verdicts(exams[..|exams| - 1], reason) + if exams[|exams| - 1].reason == reason then 1 else 0
  }

  function RanCount(log: seq<Departure>): nat {
    if log == [] then 0 else RanCount(log[..|log| - 1]) + if log[|log| - 1].Ran? then 1 else 0
  }

  function DroppedCount(log: seq<Departure>): nat {
    if log == [] then 0
    else DroppedCount(log[..|log| - 1]) + if log[|log| - 1].Reset? then log[|log| - 1].dropped else 0
  }

  /** A queued entry passed the table's checks. */
  predicate Valid(s: Slot) {
    s.occupied ==> Lookup(s.opcode).Some? && Lookup(s.opcode).value.argMin <= s.arg <= Lookup(s.opcode).value.argMax
  }

  /** The queue's books, when `admitted` commands have been put in it since boot. */
  predicate QueueSound(q: Queue, admitted: nat) {
    && |q.slots| == LEN
    && (forall i :: 0 <= i < LEN ==> Valid(q.slots[i]))
    && (forall d :: d in q.log ==> !d.Unknown?)
    && q.fx.armTarget == 0
    && q.queued == Occupied(q.slots) <= LEN
    && q.executed == Min(RanCount(q.log), U32_MAX)
    && admitted == RanCount(q.log) + Occupied(q.slots) + DroppedCount(q.log)
  }

  /** The path's books: every counter is its true count, up to its ceiling. */
  predicate Sound(p: Path) {
    && |p.rejected| == REJECT_COUNT && |p.rx| < FRAME_LEN
    && p.examined == Min(|p.exams|, U32_MAX)
    && p.accepted == Min(Verdicts(p.exams, ACCEPTED), U32_MAX)
    && (forall r: Reason :: r < REJECT_COUNT ==> p.rejected[r] == Min(Verdicts(p.exams, r), U32_MAX))
    && (forall r: Reason :: r < REJECT_COUNT ==> (r in p.announced <==> Verdicts(p.exams, r) > 0))
    && QueueSound(p.queue, Verdicts(p.exams, ACCEPTED))
  }

  lemma {:induction false} OccupiedUpdate(slots: seq<Slot>, k: nat, s: Slot)
    requires k < |slots|
    ensures Occupied(slots[k := s])
         == Occupied(slots) - (if slots[k].occupied then 1 else 0) + (if s.occupied then 1 else 0)
  {
    var n := |slots| - 1;
    if k == n {
      assert slots[k := s][..n] == slots[..n];
    } else {
      assert slots[k := s][..n] == slots[..n][k := s];
      OccupiedUpdate(slots[..n], k, s);
    }
  }

  lemma {:induction false} OccupiedBound(slots: seq<Slot>)
    ensures Occupied(slots) <= |slots|
  {
    if slots != [] {
      OccupiedBound(slots[..|slots| - 1]);
    }
  }

  lemma PutSound(q: Queue, admitted: nat, e: Slot)
    requires QueueSound(q, admitted) && !Full(q.slots) && e.occupied && Valid(e)
    ensures QueueSound(AfterPut(q, e), admitted + 1)
  {
    hide Lookup;
    var k := FirstFree(q.slots);
    OccupiedUpdate(q.slots, k, e);
    OccupiedBound(q.slots[k := e]);
  }

  /** What executing an entry of the table leaves. */
  lemma ExecuteIs(q: Queue, k: nat, now: uint32, frame: uint32)
    requires k < |q.slots| && Lookup(q.slots[k].opcode).Some?
    ensures var s, r := q.slots[k], Execute(q, k, now, frame);
            && r.log == q.log + [Ran(s, frame, now)] && r.slots == q.slots[k := s.(occupied := false)]
            && r.queued == (if q.queued > 0 then q.queued - 1 else 0) && r.executed == Bump(q.executed)
            && r.fx.armTarget == 0
    ensures var s, r := q.slots[k], Execute(q, k, now, frame);
            var target := Handle(Lookup(s.opcode).value.handler, s.arg, q.fx).armTarget;
            && r.armedOpcode == (if target != 0 then target else q.armedOpcode)
            && r.armedUntil == if target != 0 then Wrap32(frame + ARM_FRAMES) else q.armedUntil
  {
    hide Lookup, CountsLate, Handle, Bump;
  }

  lemma RanOne(log: seq<Departure>, s: Slot, frame: uint32, now: uint32)
    ensures RanCount(log + [Ran(s, frame, now)]) == RanCount(log) + 1
    ensures DroppedCount(log + [Ran(s, frame, now)]) == DroppedCount(log)
  {
    assert (log + [Ran(s, frame, now)])[..|log|] == log;
  }

  lemma ExecuteSound(q: Queue, admitted: nat, k: nat, now: uint32, frame: uint32)
    requires QueueSound(q, admitted) && k < LEN && q.slots[k].occupied
    ensures QueueSound(Execute(q, k, now, frame), admitted)
    ensures Execute(q, k, now, frame).log == q.log + [Ran(q.slots[k], frame, now)]
    ensures Execute(q, k, now, frame).slots == q.slots[k := q.slots[k].(occupied := false)]
  {
    hide Lookup, Execute, RanCount, DroppedCount, Occupied;
    var s := q.slots[k];
    assert Valid(s);
    ExecuteIs(q, k, now, frame);
    OccupiedUpdate(q.slots, k, s.(occupied := false));
    OccupiedBound(q.slots[k := s.(occupied := false)]);
    RanOne(q.log, s, frame, now);
  }

  lemma {:induction false} PassesSound(q: Queue, admitted: nat, now: uint32, frame: uint32, passes: nat)
    requires QueueSound(q, admitted)
    ensures QueueSound(Passes(q, now, frame, passes), admitted)
    decreases passes
  {
    hide QueueSound, Execute;
    assert |q.slots| == LEN by { SoundShape(q, admitted); }
    var k := Oldest(q.slots, now, |q.slots|);
    if passes > 0 && k < |q.slots| {
      ExecuteSound(q, admitted, k, now, frame);
      PassesSound(Execute(q, k, now, frame), admitted, now, frame, passes - 1);
    }
  }

  lemma SoundShape(q: Queue, admitted: nat)
    requires QueueSound(q, admitted)
    ensures |q.slots| == LEN && q.fx.armTarget == 0
    ensures forall i :: 0 <= i < LEN ==> Valid(q.slots[i])
  {
  }

  lemma ResetSound(q: Queue, admitted: nat)
    requires QueueSound(q, admitted)
    ensures QueueSound(AfterReset(q), admitted)
  {
    hide Lookup;
    var empty := [EMPTY_SLOT, EMPTY_SLOT, EMPTY_SLOT, EMPTY_SLOT];
    NoneOccupied(empty);
    var log := q.log + [Reset(Occupied(q.slots))];
    assert log[..|q.log|] == q.log;
  }

  lemma {:induction false} NoneOccupied(slots: seq<Slot>)
    requires forall i :: 0 <= i < |slots| ==> !slots[i].occupied
    ensures Occupied(slots) == 0
  {
    if slots != [] {
      NoneOccupied(slots[..|slots| - 1]);
    }
  }

  lemma VerdictsExtend(exams: seq<Exam>, e: Exam, r: Reason)
    ensures Verdicts(exams + [e], r) == Verdicts(exams, r) + if e.reason == r then 1 else 0
  {
    assert (exams + [e])[..|exams|] == exams;
  }

  lemma RefusedSound(p: Path, frame: seq<uint8>, reason: Reason)
    requires Sound(p) && reason < REJECT_COUNT
    ensures Sound(Refused(p, frame, reason))
  {
    hide QueueSound, Verdicts;
    forall r: Reason { VerdictsExtend(p.exams, Exam(frame, reason), r); }
  }

  lemma AdmittedSound(p: Path, frame: seq<uint8>, e: Slot)
    requires Sound(p) && !Full(p.queue.slots) && e.occupied && Valid(e)
    ensures Sound(Admitted(p, frame, e))
  {
    PutSound(p.queue, Verdicts(p.exams, ACCEPTED), e);
    hide QueueSound, Verdicts, AfterPut;
    forall r: Reason { VerdictsExtend(p.exams, Exam(frame, ACCEPTED), r); }
  }

  lemma IngestSound(p: Path, frame: seq<uint8>)
    requires Sound(p)
    ensures Sound(AfterIngest(p, frame))
  {
    var v := Verdict(p, frame);
    if v == ACCEPTED {
      AcceptedEntry(p, frame);
      AdmittedSound(p, frame, EntryOf(frame));
    } else {
      RefusedSound(p, frame, v);
    }
    hide *;
  }

  lemma AcceptedEntry(p: Path, frame: seq<uint8>)
    requires Verdict(p, frame) == ACCEPTED
    ensures |frame| == FRAME_LEN && !Full(p.queue.slots)
    ensures EntryOf(frame).occupied && Valid(EntryOf(frame)) && EntryOf(frame).counter > p.lastCounter
    ensures EntryVerdict(p.lastCounter, p.queue, EntryOf(frame)) == ACCEPTED
  {
    hide Lookup, Full;
  }

  lemma {:induction false} BytesSound(p: Path, bytes: seq<uint8>)
    requires Sound(p)
    ensures Sound(AfterBytes(p, bytes))
  {
    if bytes == [] {
    } else {
      BytesSound(p, bytes[..|bytes| - 1]);
      ByteSound(AfterBytes(p, bytes[..|bytes| - 1]), bytes[|bytes| - 1]);
    }
  }

  lemma ByteSound(p: Path, byte: uint8)
    requires Sound(p)
    ensures Sound(AfterByte(p, byte))
  {
    hide AfterIngest, QueueSound, Verdicts;
    var rx := p.rx + [byte];
    if |rx| == FRAME_LEN {
      assert Sound(p.(rx := []));
      IngestSound(p.(rx := []), rx);
    }
  }

  lemma StepSound(p: Path, e: Event)
    requires Sound(p)
    ensures Sound(Step(p, e))
  {
    match e {
      case Dispatch(bytes, now, frame) =>
        PollSound(p, bytes);
        var polled := AfterPoll(p, bytes);
        var admitted := Verdicts(polled.exams, ACCEPTED);
        ExpireSound(polled.queue, admitted, frame);
        PassesSound(Expire(polled.queue, frame), admitted, now, frame, LEN);
        hide QueueSound, Passes, Expire, AfterPoll, Verdicts;
      case QueueReset =>
        ResetSound(p.queue, Verdicts(p.exams, ACCEPTED));
        hide QueueSound, AfterReset, Verdicts;
    }
  }

  lemma PollSound(p: Path, bytes: seq<uint8>)
    requires Sound(p)
    ensures Sound(AfterPoll(p, bytes))
  {
    if bytes == [] && p.rx != [] {
      assert Sound(p.(rx := []));
      RefusedSound(p.(rx := []), p.rx, REJECT_LENGTH);
    } else {
      BytesSound(p, bytes);
    }
    hide *;
  }

  lemma ExpireSound(q: Queue, admitted: nat, frame: uint32)
    requires QueueSound(q, admitted)
    ensures QueueSound(Expire(q, frame), admitted)
  {
  }

  /**
    The identity the ground checks, in every reachable state: every counter is its true
    count up to its ceiling, what was admitted has run, waits or was dropped by a reset,
    and `queued` is the number of occupied slots.
  */
  lemma {:induction false} EveryRunIsSound(es: seq<Event>)
    ensures Sound(Run(BOOT, es))
  {
    if es == [] {
      NoneOccupied(BOOT.queue.slots);
    } else {
      EveryRunIsSound(es[..|es| - 1]);
      StepSound(Run(BOOT, es[..|es| - 1]), es[|es| - 1]);
    }
  }

  /** Examinations with a verdict below `n`. */
  function VerdictsBelow(exams: seq<Exam>, n: nat): nat
    requires n <= 9
  {
    if n == 0 then 0 else VerdictsBelow(exams, n - 1) + Verdicts(exams, n - 1)
  }

  lemma {:induction false} VerdictsBelowExtend(exams: seq<Exam>, e: Exam, n: nat)
    requires n <= 9
    ensures VerdictsBelow(exams + [e], n) == VerdictsBelow(exams, n) + if e.reason < n then 1 else 0
  {
    if n > 0 {
      VerdictsBelowExtend(exams, e, n - 1);
      VerdictsExtend(exams, e, n - 1);
    }
  }

  /** Every examination is in exactly one column. */
  lemma {:induction false} VerdictsPartition(exams: seq<Exam>)
    ensures VerdictsBelow(exams, 9) == |exams|
  {
    if exams == [] {
      NoVerdicts(9);
    } else {
      var prefix := exams[..|exams| - 1];
      assert exams == prefix + [exams[|exams| - 1]];
      VerdictsPartition(prefix);
      VerdictsBelowExtend(prefix, exams[|exams| - 1], 9);
    }
  }

  lemma {:induction false} NoVerdicts(n: nat)
    requires n <= 9
    ensures VerdictsBelow([], n) == 0
  {
    if n > 0 {
      NoVerdicts(n - 1);
    }
  }

  function SumUpTo(counters: seq<uint32>, n: nat): nat
    requires n <= |counters|
  {
    if n == 0 then 0 else SumUpTo(counters, n - 1) + counters[n - 1]
  }

  lemma {:induction false} RejectedSum(p: Path, n: nat)
    requires Sound(p) && |p.exams| < U32_MAX && n <= REJECT_COUNT
    ensures SumUpTo(p.rejected, n) == VerdictsBelow(p.exams, n)
  {
    if n > 0 {
      RejectedSum(p, n - 1);
      VerdictsBound(p.exams, n - 1);
    }
  }

  /** examined == accepted + sum(rejected), below the ceiling; and what was accepted is accounted for. */
  lemma ExaminedIsAcceptedPlusRejected(es: seq<Event>)
    requires |Run(BOOT, es).exams| < U32_MAX
    ensures var p := Run(BOOT, es);
            && p.examined == p.accepted + SumUpTo(p.rejected, REJECT_COUNT)
            && p.accepted == p.queue.executed + p.queue.queued + DroppedCount(p.queue.log)
  {
    EveryRunIsSound(es);
    var p := Run(BOOT, es);
    VerdictsPartition(p.exams);
    VerdictsBound(p.exams, ACCEPTED);
    RejectedSum(p, REJECT_COUNT);
    hide Run, Verdicts;
  }

  lemma {:induction false} VerdictsBound(exams: seq<Exam>, r: Reason)
    ensures Verdicts(exams, r) <= |exams|
  {
    if exams != [] {
      VerdictsBound(exams[..|exams| - 1], r);
    }
  }
}
