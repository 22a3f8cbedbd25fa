/** Arm-then-execute, and when a tagged command runs, over every run. */
module CmdArming {
  import opened Words
  import opened FrameSum
  import opened CmdTable
  import opened CmdFrame
  import opened Q = CmdQueue
  import opened CmdRuns

  // ---- the arming state is the last arm executed ----------------------------------------

  datatype Arming = Armed(frame: nat, opcode: nat)

  /** The last arm command executed, unless a reset of the queue came after it. */
  function LastArm(log: seq<Departure>): Option<Arming> {
    if log == [] then None
    else match log[|log| - 1]
      case Reset(_) => None
      case Unknown(_) => LastArm(log[..|log| - 1])
      case Ran(s, frame, _) =>
        if s.opcode == OP_ARM then Some(Armed(frame, s.arg)) else LastArm(log[..|log| - 1])
  }

  predicate IsArm(d: Departure, a: Arming) {
    d.Ran? && d.slot.opcode == OP_ARM && a == Armed(d.frame, d.slot.arg)
  }

  /** A later arm, or a reset of the queue. */
  predicate Supersedes(d: Departure) {
    d.Reset? || (d.Ran? && d.slot.opcode == OP_ARM)
  }

  predicate ArmedAt(log: seq<Departure>, i: nat, a: Arming) {
    i < |log| && IsArm(log[i], a) && forall k :: i < k < |log| ==> !Supersedes(log[k])
  }

  /** Said by position: an executed arm, and no other arm and no reset after it. */
  lemma {:induction false} LastArmMeaning(log: seq<Departure>, a: Arming)
    ensures LastArm(log) == Some(a) <==> exists i :: ArmedAt(log, i, a)
  {
    if log == [] {
    } else {
      var n := |log| - 1;
      LastArmMeaning(log[..n], a);
      if Supersedes(log[n]) {
        if LastArm(log) == Some(a) {
          assert ArmedAt(log, n, a);
        }
      } else {
        forall i: nat ensures ArmedAt(log, i, a) <==> ArmedAt(log[..n], i, a) {
          assert forall k :: 0 <= k < n ==> log[..n][k] == log[k];
        }
      }
    }
  }

  /** The arming state as it stands once the queue has run in frame `f`. */
  predicate ArmedAfter(q: Queue, f: int) {
    match LastArm(q.log)
    case None => q.armedOpcode == ARM_NONE
    case Some(a) =>
      && a.frame <= f && 0x10 <= a.opcode <= 0x13
      && if f < a.frame + ARM_FRAMES then q.armedOpcode == a.opcode && q.armedUntil == a.frame + ARM_FRAMES
         else q.armedOpcode == ARM_NONE
  }

  /** An arm naming this opcode executed at most four frames before `frame`, and it is the last. */
  predicate RecentlyArmed(log: seq<Departure>, opcode: uint8, frame: nat) {
    match LastArm(log)
    case None => false
    case Some(a) => a.opcode == opcode && a.frame < frame <= a.frame + 4
  }

  lemma ExpireArmed(q: Queue, f: uint32)
    requires ArmedAfter(q, f - 1)
    ensures ArmedAfter(Expire(q, f), f)
  {
    hide LastArm;
  }

  lemma ExecuteArmed(q: Queue, admitted: nat, k: nat, now: uint32, f: uint32)
    requires QueueSound(q, admitted) && k < LEN && q.slots[k].occupied && ArmedAfter(q, f) && f < 0xFFFF_FF00
    ensures ArmedAfter(Execute(q, k, now, f), f)
  {
    hide *;
    SoundShape(q, admitted);
    var s := q.slots[k];
    ArmTarget(s, q.fx);
    LastArmRan(q.log, s, f, now);
    ExecuteIs(q, k, now, f);
    ArmedStep(q, Execute(q, k, now, f), s, f);
  }

  lemma ArmedStep(q: Queue, r: Queue, s: Slot, f: uint32)
    requires ArmedAfter(q, f) && f < 0xFFFF_FF00
    requires LastArm(r.log) == if s.opcode == OP_ARM then Some(Armed(f, s.arg)) else LastArm(q.log)
    requires if s.opcode == OP_ARM
             then 0x10 <= s.arg <= 0x13 && r.armedOpcode == s.arg && r.armedUntil == Wrap32(f + ARM_FRAMES)
             else r.armedOpcode == q.armedOpcode && r.armedUntil == q.armedUntil
    ensures ArmedAfter(r, f)
  {
    hide LastArm;
  }

  lemma LastArmRan(log: seq<Departure>, s: Slot, frame: uint32, now: uint32)
    ensures LastArm(log + [Ran(s, frame, now)])
         == if s.opcode == OP_ARM then Some(Armed(frame, s.arg)) else LastArm(log)
  {
    assert (log + [Ran(s, frame, now)])[..|log|] == log;
  }

  /** Of the table's commands only the arm sets a target, and one of the four critical opcodes. */
  lemma ArmTarget(s: Slot, fx: Effects)
    requires s.occupied && Valid(s) && fx.armTarget == 0
    ensures Lookup(s.opcode).Some?
    ensures Handle(Lookup(s.opcode).value.handler, s.arg, fx).armTarget == if s.opcode == OP_ARM then s.arg else 0
    ensures s.opcode == OP_ARM ==> 0x10 <= s.arg <= 0x13
  {
  }

  lemma {:induction false} PassesArmed(q: Queue, admitted: nat, now: uint32, f: uint32, passes: nat)
    requires QueueSound(q, admitted) && ArmedAfter(q, f) && f < 0xFFFF_FF00
    ensures ArmedAfter(Passes(q, now, f, passes), f)
    decreases passes
  {
    hide QueueSound, Execute, ArmedAfter;
    SoundShape(q, admitted);
    var k := Oldest(q.slots, now, |q.slots|);
    if passes > 0 && k < |q.slots| {
      ExecuteArmed(q, admitted, k, now, f);
      ExecuteSound(q, admitted, k, now, f);
      PassesArmed(Execute(q, k, now, f), admitted, now, f, passes - 1);
    }
  }

  /** Receiving bytes changes neither the history nor the arming, and no waiting entry. */
  predicate QueueKept(q: Queue, q': Queue) {
    && q'.log == q.log && q'.armedOpcode == q.armedOpcode && q'.armedUntil == q.armedUntil
    && |q'.slots| == |q.slots|
    && forall i :: 0 <= i < |q.slots| && q.slots[i].occupied ==> q'.slots[i] == q.slots[i]
  }

  lemma {:induction false} BytesKeepQueue(p: Path, bytes: seq<uint8>)
    requires |p.rejected| == REJECT_COUNT && |p.rx| < FRAME_LEN
    ensures QueueKept(p.queue, AfterBytes(p, bytes).queue)
  {
    if bytes == [] {
    } else {
      hide Verdict, EntryOf, FirstFree;
      BytesKeepQueue(p, bytes[..|bytes| - 1]);
    }
  }

  lemma PollKeepsQueue(p: Path, bytes: seq<uint8>)
    requires |p.rejected| == REJECT_COUNT && |p.rx| < FRAME_LEN
    ensures QueueKept(p.queue, AfterPoll(p, bytes).queue)
  {
    BytesKeepQueue(p, bytes);
    hide AfterBytes;
  }

  function Dispatches(es: seq<Event>): nat {
    if es == [] then 0 else Dispatches(es[..|es| - 1]) + if es[|es| - 1].Dispatch? then 1 else 0
  }

  /** The command task is dispatched in every frame: dispatch number n is in frame n. */
  predicate EveryFrame(es: seq<Event>) {
    if es == [] then true
    else EveryFrame(es[..|es| - 1])
         && (es[|es| - 1].Dispatch? ==> es[|es| - 1].frame == Dispatches(es[..|es| - 1]) < 0xFFFF_FF00)
  }

  lemma {:induction false} ArmingFollowsHistory(es: seq<Event>)
    requires EveryFrame(es)
    ensures ArmedAfter(Run(BOOT, es).queue, Dispatches(es) - 1)
  {
    if es == [] {
    } else {
      var prefix, e := es[..|es| - 1], es[|es| - 1];
      ArmingFollowsHistory(prefix);
      EveryRunIsSound(prefix);
      StepArmed(Run(BOOT, prefix), e, Dispatches(prefix));
    }
  }

  lemma StepArmed(p: Path, e: Event, f: nat)
    requires Sound(p) && ArmedAfter(p.queue, f - 1) && (e.Dispatch? ==> e.frame == f < 0xFFFF_FF00)
    ensures ArmedAfter(Step(p, e).queue, if e.Dispatch? then f else f - 1)
  {
    match e
    case Dispatch(bytes, now, frame) =>
      var polled := AfterPoll(p, bytes);
      PollKeepsQueue(p, bytes);
      PollSound(p, bytes);
      var admitted := Verdicts(polled.exams, ACCEPTED);
      assert QueueSound(polled.queue, admitted);
      ExpireArmed(polled.queue, frame);
      ExpireSound(polled.queue, admitted, frame);
      PassesArmed(Expire(polled.queue, frame), admitted, now, frame, LEN);
      hide *;
    case QueueReset =>
      var log := p.queue.log + [Reset(Occupied(p.queue.slots))];
      assert LastArm(log) == None;
  }

  /** A frame that passes every check but the arming and the queue's room. */
  predicate OtherwiseValid(p: Path, b: seq<uint8>, opcode: uint8) {
    && |b| == FRAME_LEN && Word32(b, O_SYNC) == SYNC && b[O_LENGTH] == FRAME_LEN
    && Word16(b, O_SUM) == IntegrityWord(b[..O_SUM])
    && b[O_OPCODE] == opcode && Lookup(opcode).Some?
    && Lookup(opcode).value.argMin <= Word32(b, O_ARG) <= Lookup(opcode).value.argMax
    && Word32(b, O_COUNTER) > p.lastCounter
  }

  /**
    With the command task dispatched every frame: a critical command arriving in frame F
    is accepted only if an arm naming exactly its opcode executed in some frame f with
    f < F <= f + 4, no arm and no queue reset coming after it; and an otherwise valid one,
    with room in the queue, is accepted in every one of those frames.
  */
  lemma CriticalNeedsRecentArm(es: seq<Event>, bytes: seq<uint8>, b: seq<uint8>, opcode: uint8)
    requires EveryFrame(es) && Lookup(opcode).Some? && Lookup(opcode).value.critical
    ensures var p := AfterBytes(Run(BOOT, es), bytes);
            var armed := RecentlyArmed(Run(BOOT, es).queue.log, opcode, Dispatches(es));
            && (Verdict(p, b) == ACCEPTED && b[O_OPCODE] == opcode ==> armed)
            && (OtherwiseValid(p, b, opcode) ==> (Verdict(p, b) == REJECT_NOT_ARMED <==> !armed))
            && (OtherwiseValid(p, b, opcode) && !Full(p.queue.slots) ==> (Verdict(p, b) == ACCEPTED <==> armed))
  {
    var start := Run(BOOT, es);
    var p := AfterBytes(start, bytes);
    ArmingFollowsHistory(es);
    BytesKeepQueue(start, bytes);
    CriticalOpcode(opcode);
    ArmedIsRecent(start.queue, opcode, Dispatches(es));
    VerdictOnCritical(p, b, opcode);
    hide *;
  }

  lemma CriticalOpcode(opcode: uint8)
    requires Lookup(opcode).Some? && Lookup(opcode).value.critical
    ensures opcode == OP_SAFE
  {
  }

  lemma ArmedIsRecent(q: Queue, opcode: uint8, f: nat)
    requires ArmedAfter(q, f - 1)
    ensures q.armedOpcode == opcode <==> RecentlyArmed(q.log, opcode, f)
  {
    hide LastArm;
  }

  lemma VerdictOnCritical(p: Path, b: seq<uint8>, opcode: uint8)
    requires Lookup(opcode).Some? && Lookup(opcode).value.critical
    ensures Verdict(p, b) == ACCEPTED && b[O_OPCODE] == opcode ==> p.queue.armedOpcode == opcode
    ensures OtherwiseValid(p, b, opcode) ==>
              Verdict(p, b) == if p.queue.armedOpcode != opcode then REJECT_NOT_ARMED
                               else if Full(p.queue.slots) then REJECT_QUEUE else ACCEPTED
  {
    hide Lookup, IntegrityWord, FromLittleEndian, Full;
  }

  // ---- time tags ---------------------------------------------------------------------------

  /** An accepted frame's entry is in the queue. */
  lemma AcceptedIsQueued(p: Path, b: seq<uint8>) returns (i: nat)
    requires |p.rejected| == REJECT_COUNT && Verdict(p, b) == ACCEPTED
    ensures i < |p.queue.slots| && AfterIngest(p, b).queue.slots[i] == EntryOf(b)
    ensures EntryOf(b).occupied && Lookup(EntryOf(b).opcode).Some?
  {
    AcceptedEntry(p, b);
    i := FirstFree(p.queue.slots);
    hide Verdict, EntryOf, Lookup;
  }

  /** One run either leaves an entry waiting or executes it, by its tag and the time. */
  lemma RunOnEntry(q: Queue, now: uint32, frame: uint32, i: nat)
    requires |q.slots| == LEN && i < LEN && q.slots[i].occupied && Lookup(q.slots[i].opcode).Some?
    ensures var q' := AfterRun(q, now, frame);
            && |q'.slots| == LEN && q.log <= q'.log
            && (q.slots[i].when > now ==> q'.slots[i] == q.slots[i])
            && (q.slots[i].when <= now ==> Ran(q.slots[i], frame, now) in q'.log[|q.log|..])
  {
    hide Passes, Lookup;
    var s := Expire(q, frame);
    DueCountZero(s.slots, now);
    var order := RunsExactlyTheDue(s, now, frame, LEN);
    var left := Departures(s.slots, order, now, frame);
    var q' := AfterRun(q, now, frame);
    assert q'.log == q.log + left;
    assert q'.log[|q.log|..] == left;
    if q.slots[i].when <= now {
      assert Due(s.slots[i], now);
      var n :| 0 <= n < |order| && order[n] == i;
      assert left[n] == Ran(q.slots[i], frame, now);
    }
  }

  predicate AllDispatches(es: seq<Event>) {
    forall m :: 0 <= m < |es| ==> es[m].Dispatch?
  }

  /** Consecutive published times are one frame apart and do not go round. */
  predicate FrameTicks(es: seq<Event>) {
    forall m :: 0 < m < |es| && es[m - 1].Dispatch? && es[m].Dispatch? ==> es[m].now == es[m - 1].now + LATE_TICKS
  }

  /** Until a dispatch's time reaches its tag, an entry stays where it is. */
  lemma {:induction false} EntryWaits(p: Path, es: seq<Event>, i: nat, e: Slot)
    requires Shaped(p) && AllDispatches(es) && i < LEN && p.queue.slots[i] == e && e.occupied
    requires Lookup(e.opcode).Some? && forall m :: 0 <= m < |es| ==> es[m].now < e.when
    ensures Shaped(Run(p, es)) && Run(p, es).queue.slots[i] == e
  {
    if es == [] {
    } else {
      var prefix, d := es[..|es| - 1], es[|es| - 1];
      EntryWaits(p, prefix, i, e);
      var q := Run(p, prefix);
      PollKeepsQueue(q, d.bytes);
      hide Lookup, AfterPoll, AfterRun, QueueSound;
      RunOnEntry(AfterPoll(q, d.bytes).queue, d.now, d.frame, i);
    }
  }

  /**
    An entry in its slot, tagged `e.when`, runs in the first dispatch whose published time
    has reached the tag.  If an earlier dispatch found the tag still ahead, that is less than
    one frame after the tag, and the late counter agrees.
  */
  lemma QueuedEntryRuns(p: Path, es: seq<Event>, i: nat, e: Slot)
    requires Shaped(p) && AllDispatches(es) && FrameTicks(es) && es != []
    requires i < LEN && p.queue.slots[i] == e && e.occupied && Lookup(e.opcode).Some?
    requires forall m :: 0 <= m < |es| - 1 ==> es[m].now < e.when
    requires es[|es| - 1].now >= e.when
    ensures RunsBetween(Run(p, es[..|es| - 1]).queue, Run(p, es).queue, i, e, es[|es| - 1])
    ensures |es| > 1 ==> es[|es| - 1].now - e.when < LATE_TICKS
    ensures |es| > 1 && e.when < 0x1_0000_0000 - LATE_TICKS ==> !CountsLate(e, es[|es| - 1].now)
  {
    var j := |es| - 1;
    var d := es[j];
    EntryWaits(p, es[..j], i, e);
    DispatchRuns(Run(p, es[..j]), d, i, e);
    if j > 0 {
      assert es[j - 1].Dispatch? && es[j].Dispatch? && es[j - 1].now < e.when;
      LateMeans(e, d.now);
    }
    hide *;
  }

  /** The entry was still in its slot before, and its execution is among what this dispatch added. */
  predicate RunsBetween(before: Queue, after: Queue, i: nat, e: Slot, d: Event)
    requires d.Dispatch?
  {
    && i < |before.slots| && before.slots[i] == e
    && before.log <= after.log && Ran(e, d.frame, d.now) in after.log[|before.log|..]
  }

  lemma DispatchRuns(p: Path, d: Event, i: nat, e: Slot)
    requires Shaped(p) && d.Dispatch? && i < LEN && p.queue.slots[i] == e && e.occupied
    requires Lookup(e.opcode).Some? && d.now >= e.when
    ensures RunsBetween(p.queue, Step(p, d).queue, i, e, d)
  {
    PollKeepsQueue(p, d.bytes);
    hide AfterPoll, AfterRun, Lookup;
    RunOnEntry(AfterPoll(p, d.bytes).queue, d.now, d.frame, i);
  }

  /** The byte at `a` of this burst completes a frame, it is accepted, and `e` is the entry it asks for. */
  predicate AcceptedAt(p: Path, bytes: seq<uint8>, a: nat, e: Slot)
    requires Shaped(p)
  {
    && a < |bytes|
    && var q := AfterBytes(p, bytes[..a]);
       var b := q.rx + [bytes[a]];
       |b| == FRAME_LEN && Verdict(q.(rx := []), b) == ACCEPTED && e == EntryOf(b)
  }

  lemma {:induction false} BytesSplit(p: Path, x: seq<uint8>, y: seq<uint8>)
    requires |p.rejected| == REJECT_COUNT && |p.rx| < FRAME_LEN
    ensures AfterBytes(p, x + y) == AfterBytes(AfterBytes(p, x), y)
  {
    hide AfterByte;
    if y == [] {
      assert x + y == x;
    } else {
      var n := |y| - 1;
      BytesSplit(p, x, y[..n]);
      assert (x + y)[..|x + y| - 1] == x + y[..n];
      LastOfBytes(p, x + y);
      LastOfBytes(AfterBytes(p, x), y);
      hide AfterBytes;
    }
  }

  lemma LastOfBytes(p: Path, bytes: seq<uint8>)
    requires |p.rejected| == REJECT_COUNT && |p.rx| < FRAME_LEN && bytes != []
    ensures AfterBytes(p, bytes) == AfterByte(AfterBytes(p, bytes[..|bytes| - 1]), bytes[|bytes| - 1])
  {
    hide AfterByte;
  }

  /** The path right after the accepting byte: the entry is in a slot and no partial frame is held. */
  lemma AcceptingByte(p: Path, bytes: seq<uint8>, a: nat, e: Slot) returns (i: nat)
    requires Shaped(p) && AcceptedAt(p, bytes, a, e)
    ensures var p1 := AfterByte(AfterBytes(p, bytes[..a]), bytes[a]);
            && Shaped(p1) && p1.rx == [] && i < LEN && p1.queue.slots[i] == e
            && p1.queue.log == p.queue.log && AfterBytes(p, bytes) == AfterBytes(p1, bytes[a + 1..])
    ensures e.occupied && Lookup(e.opcode).Some?
  {
    var q := AfterBytes(p, bytes[..a]);
    BytesKeepQueue(p, bytes[..a]);
    hide AfterBytes, Verdict, EntryOf, Lookup, FirstFree;
    i := AcceptedIsQueued(q.(rx := []), q.rx + [bytes[a]]);
    var p1 := AfterByte(q, bytes[a]);
    assert bytes == bytes[..a] + ([bytes[a]] + bytes[a + 1..]);
    BytesSplit(p, bytes[..a], [bytes[a]] + bytes[a + 1..]);
    BytesSplit(q, [bytes[a]], bytes[a + 1..]);
    OneByte(q, bytes[a]);
  }

  lemma OneByte(p: Path, byte: uint8)
    requires |p.rejected| == REJECT_COUNT && |p.rx| < FRAME_LEN
    ensures AfterBytes(p, [byte]) == AfterByte(p, byte)
  {
    hide AfterByte;
    assert [byte][..0] == [];
    assert AfterBytes(p, []) == p;
  }

  /** So the dispatch of acceptance is a dispatch of that path with the bytes left over. */
  lemma DispatchFromAcceptance(p: Path, p1: Path, bytes: seq<uint8>, rest: seq<uint8>, now: uint32, frame: uint32)
    requires Shaped(p) && Shaped(p1) && p1.rx == [] && bytes != []
    requires AfterBytes(p, bytes) == AfterBytes(p1, rest)
    ensures Step(p, Dispatch(bytes, now, frame)) == Step(p1, Dispatch(rest, now, frame))
  {
    hide AfterBytes, AfterRun;
  }

  lemma {:induction false} RunsAlike(p: Path, p1: Path, es: seq<Event>, fs: seq<Event>, n: nat)
    requires Shaped(p) && Shaped(p1) && 0 < n <= |es| == |fs| && es[1..] == fs[1..]
    requires Step(p, es[0]) == Step(p1, fs[0])
    ensures Run(p, es[..n]) == Run(p1, fs[..n])
  {
    hide Step;
    assert es[..n][..n - 1] == es[..n - 1] && fs[..n][..n - 1] == fs[..n - 1];
    if n == 1 {
      assert Run(p, []) == p && Run(p1, []) == p1;
    } else {
      RunsAlike(p, p1, es, fs, n - 1);
      assert es[n - 1] == es[1..][n - 2] && fs[n - 1] == fs[1..][n - 2];
    }
  }

  /**
    A command accepted in the first of these dispatches and tagged `e.when` runs in the first
    of them, acceptance on, whose published time has reached the tag: until then it stays in
    its slot, and then its execution is among what that dispatch added.  If the tag was
    still ahead at acceptance that is less than one frame after the tag, and the late
    counter agrees.
  */
  lemma TaggedCommandRuns(p: Path, es: seq<Event>, a: nat, e: Slot) returns (i: nat)
    requires Shaped(p) && AllDispatches(es) && FrameTicks(es) && es != []
    requires AcceptedAt(p, es[0].bytes, a, e)
    requires forall m :: 0 <= m < |es| - 1 ==> es[m].now < e.when
    requires es[|es| - 1].now >= e.when
    ensures forall m :: 0 < m < |es| ==> i < |Run(p, es[..m]).queue.slots| && Run(p, es[..m]).queue.slots[i] == e
    ensures var before, after, d := Run(p, es[..|es| - 1]).queue.log, Run(p, es).queue.log, es[|es| - 1];
            before <= after && Ran(e, d.frame, d.now) in after[|before|..]
    ensures |es| > 1 ==> es[|es| - 1].now - e.when < LATE_TICKS
    ensures |es| > 1 && e.when < 0x1_0000_0000 - LATE_TICKS ==> !CountsLate(e, es[|es| - 1].now)
  {
    var d := es[0];
    var p1 := AfterByte(AfterBytes(p, d.bytes[..a]), d.bytes[a]);
    var fs := [Dispatch(d.bytes[a + 1..], d.now, d.frame)] + es[1..];
    i := AcceptingByte(p, d.bytes, a, e);
    DispatchFromAcceptance(p, p1, d.bytes, d.bytes[a + 1..], d.now, d.frame);
    AcceptedRunsAlike(p, p1, es, fs, i, e);
  }

  lemma SameTimes(es: seq<Event>, fs: seq<Event>)
    requires AllDispatches(es) && FrameTicks(es) && es != [] && |fs| == |es| && es[1..] == fs[1..]
    requires fs[0].Dispatch? && fs[0].now == es[0].now && fs[0].frame == es[0].frame
    ensures AllDispatches(fs) && FrameTicks(fs)
    ensures forall m :: 0 <= m < |es| ==> fs[m].now == es[m].now && fs[m].frame == es[m].frame
  {
    forall m | 0 < m < |es| ensures fs[m] == es[m] {
      assert fs[1..][m - 1] == es[1..][m - 1];
    }
  }

  lemma AcceptedStays(p: Path, p1: Path, es: seq<Event>, fs: seq<Event>, i: nat, e: Slot, m: nat)
    requires Shaped(p) && 0 < m < |es| == |fs| && es[1..] == fs[1..] && AllDispatches(fs)
    requires Shaped(p1) && i < LEN && p1.queue.slots[i] == e && e.occupied && Lookup(e.opcode).Some?
    requires Step(p, es[0]) == Step(p1, fs[0]) && forall n :: 0 <= n < m ==> fs[n].now < e.when
    ensures i < |Run(p, es[..m]).queue.slots| && Run(p, es[..m]).queue.slots[i] == e
  {
    hide Step, Lookup;
    RunsAlike(p, p1, es, fs, m);
    EntryWaits(p1, fs[..m], i, e);
  }

  lemma AcceptedRunsAlike(p: Path, p1: Path, es: seq<Event>, fs: seq<Event>, i: nat, e: Slot)
    requires Shaped(p) && AllDispatches(es) && FrameTicks(es) && es != [] && |fs| == |es| && es[1..] == fs[1..]
    requires fs[0].Dispatch? && fs[0].now == es[0].now && fs[0].frame == es[0].frame
    requires Shaped(p1) && i < LEN && p1.queue.slots[i] == e && e.occupied && Lookup(e.opcode).Some?
    requires Step(p, es[0]) == Step(p1, fs[0]) && p1.queue.log == p.queue.log
    requires forall m :: 0 <= m < |es| - 1 ==> es[m].now < e.when
    requires es[|es| - 1].now >= e.when
    ensures forall m :: 0 < m < |es| ==> i < |Run(p, es[..m]).queue.slots| && Run(p, es[..m]).queue.slots[i] == e
    ensures var before, after, d := Run(p, es[..|es| - 1]).queue.log, Run(p, es).queue.log, es[|es| - 1];
            before <= after && Ran(e, d.frame, d.now) in after[|before|..]
    ensures |es| > 1 ==> es[|es| - 1].now - e.when < LATE_TICKS
    ensures |es| > 1 && e.when < 0x1_0000_0000 - LATE_TICKS ==> !CountsLate(e, es[|es| - 1].now)
  {
    var last := |es| - 1;
    SameTimes(es, fs);
    assert es[..|es|] == es && fs[..|fs|] == fs;
    assert Run(p, []) == p && Run(p1, []) == p1;
    hide Run, Step, Lookup, CountsLate, AllDispatches, FrameTicks;
    forall m | 0 < m < |es|
      ensures i < |Run(p, es[..m]).queue.slots| && Run(p, es[..m]).queue.slots[i] == e
    {
      AcceptedStays(p, p1, es, fs, i, e, m);
    }
    QueuedEntryRuns(p1, fs, i, e);
    RunsAlike(p, p1, es, fs, |es|);
    if last > 0 {
      RunsAlike(p, p1, es, fs, last);
    } else {
      assert es[..0] == [] && fs[..0] == [];
    }
  }

  /**
    What the late counter counts, exactly: more than one frame past the tag, or any run
    at all of a tag so near the top of the clock that tag plus one frame goes round.  So a
    command tagged 0, which asks for the next frame, counts as late once the clock is past 1024.
  */
  lemma LateMeans(e: Slot, now: uint32)
    requires e.when <= now
    ensures CountsLate(e, now) <==> now > e.when + LATE_TICKS || e.when >= 0x1_0000_0000 - LATE_TICKS
    ensures e.when == 0 ==> (CountsLate(e, now) <==> now > LATE_TICKS)
  {
  }
}
