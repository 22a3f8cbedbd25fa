/** Command framing and ingest (flight/cmd/frame.c). */
module CmdFrame {
  import opened Words
  import opened FrameSum
  import opened CmdTable
  import Q = CmdQueue

  const SYNC: uint32 := 0x5A3CA5C3
  const FRAME_LEN := 20
  const O_SYNC := 0
  const O_COUNTER := 4
  const O_LENGTH := 8
  const O_OPCODE := 9
  const O_WHEN := 10
  const O_ARG := 14
  const O_SUM := 18

  /** The receiver's share of one dispatch, in bytes. */
  const RX_BYTES := 160

  // The closed set of reasons; `ACCEPTED` is the code's own value for none of them.
  const REJECT_SYNC := 0
  const REJECT_LENGTH := 1
  const REJECT_SUM := 2
  const REJECT_OPCODE := 3
  const REJECT_ARG := 4
  const REJECT_REPLAY := 5
  const REJECT_QUEUE := 6
  const REJECT_NOT_ARMED := 7
  const REJECT_COUNT := 8
  const ACCEPTED := 8

  type Reason = r: nat | r <= 8

  function Word16(bytes: seq<uint8>, at: nat): nat
    requires at + 2 <= |bytes|
  {
    FromLittleEndian(bytes[at..at + 2])
  }

  function Word32(bytes: seq<uint8>, at: nat): (w: uint32)
    requires at + 4 <= |bytes|
  {
    FromLittleEndianBytes(bytes[at..at + 4]);
    FromLittleEndian(bytes[at..at + 4])
  }

  /** One examination: the bytes that were taken as a frame, and what became of them. */
  datatype Exam = Exam(frame: seq<uint8>, reason: Reason)

  /** The module's state over its queue, with the history of examinations beside it. */
  datatype Path = Path(rx: seq<uint8>, lastCounter: uint32, examined: uint32, accepted: uint32,
                       rejected: seq<uint32>, announced: set<nat>, queue: Q.Queue, exams: seq<Exam>)

  // ---- the verdict on one frame -------------------------------------------------

  /** The entry an accepted frame asks for. */
  function EntryOf(frame: seq<uint8>): Q.Slot
    requires |frame| == FRAME_LEN
  {
    Q.Slot(Word32(frame, O_WHEN), Word32(frame, O_ARG), Word32(frame, O_COUNTER), frame[O_OPCODE], true)
  }

  function Verdict(p: Path, frame: seq<uint8>): Reason {
    if |frame| != FRAME_LEN then REJECT_LENGTH
    else if Word32(frame, O_SYNC) != SYNC then REJECT_SYNC
    else if frame[O_LENGTH] != FRAME_LEN then REJECT_LENGTH
    else if Word16(frame, O_SUM) != IntegrityWord(frame[..O_SUM]) then REJECT_SUM
    else EntryVerdict(p.lastCounter, p.queue, EntryOf(frame))
  }

  /** The checks on a well-formed frame's contents. */
  function EntryVerdict(lastCounter: uint32, q: Q.Queue, e: Q.Slot): Reason {
    match Lookup(e.opcode)
    case None => REJECT_OPCODE
    case Some(cmd) =>
      if e.arg < cmd.argMin || e.arg > cmd.argMax then REJECT_ARG
      else if e.counter <= lastCounter then REJECT_REPLAY
      else if cmd.critical && q.armedOpcode != e.opcode then REJECT_NOT_ARMED
      else if Q.Full(q.slots) then REJECT_QUEUE
      else ACCEPTED
  }

  /**
    The reason for every sequence of bytes, said check by check: the first that fails gives
    its number, and a frame that fails none is accepted.
  */
  lemma VerdictMeans(p: Path, frame: seq<uint8>)
    ensures |frame| != 20 ==> Verdict(p, frame) == 1
    ensures |frame| == 20 ==>
              var v, row := Verdict(p, frame), Lookup(frame[9]);
              var arg, counter := Word32(frame, 14), Word32(frame, 4);
              if Word32(frame, 0) != 0x5A3CA5C3 then v == 0
              else if frame[8] != 20 then v == 1
              else if Word16(frame, 18) != IntegrityWord(frame[..18]) then v == 2
              else if forall cmd :: cmd in TABLE ==> cmd.opcode != frame[9] then v == 3
              else
                && row.Some?
                && (arg < row.value.argMin || arg > row.value.argMax ==> v == 4)
                && (row.value.argMin <= arg <= row.value.argMax ==>
                      if counter <= p.lastCounter then v == 5
                      else if row.value.critical && p.queue.armedOpcode != frame[9] then v == 7
                      else if forall s :: s in p.queue.slots ==> s.occupied then v == 6
                      else v == 8)
  {
    hide Lookup, IntegrityWord, FromLittleEndian;
    if |frame| == 20 {
      LookupIsTable(frame[9]);
    }
  }

  /** The effect of a verdict: a refusal changes its counter and the announced bit only. */
  function Refused(p: Path, frame: seq<uint8>, reason: Reason): Path
    requires reason < REJECT_COUNT && |p.rejected| == REJECT_COUNT
  {
    p.(examined := Bump(p.examined), rejected := p.rejected[reason := Bump(p.rejected[reason])],
       announced := p.announced + {reason}, exams := p.exams + [Exam(frame, reason)])
  }

  function Admitted(p: Path, frame: seq<uint8>, e: Q.Slot): Path {
    p.(examined := Bump(p.examined), accepted := Bump(p.accepted), lastCounter := e.counter,
       queue := Q.AfterPut(p.queue, e), exams := p.exams + [Exam(frame, ACCEPTED)])
  }

  function AfterIngest(p: Path, frame: seq<uint8>): (p': Path)
    requires |p.rejected| == REJECT_COUNT
    ensures |p'.rejected| == REJECT_COUNT && p'.rx == p.rx
  {
    var v := Verdict(p, frame);
    if v == ACCEPTED then Admitted(p, frame, EntryOf(frame)) else Refused(p, frame, v)
  }

  // ---- framing --------------------------------------------------------------------

  function AfterByte(p: Path, byte: uint8): (p': Path)
    requires |p.rejected| == REJECT_COUNT && |p.rx| < FRAME_LEN
    ensures |p'.rejected| == REJECT_COUNT && |p'.rx| < FRAME_LEN
  {
    var rx := p.rx + [byte];
    if |rx| == FRAME_LEN then AfterIngest(p.(rx := []), rx) else p.(rx := rx)
  }

  function AfterBytes(p: Path, bytes: seq<uint8>): (p': Path)
    requires |p.rejected| == REJECT_COUNT && |p.rx| < FRAME_LEN
    ensures |p'.rejected| == REJECT_COUNT && |p'.rx| < FRAME_LEN
  {
    if bytes == [] then p else AfterByte(AfterBytes(p, bytes[..|bytes| - 1]), bytes[|bytes| - 1])
  }

  /** One dispatch of the receiver that found `bytes` waiting and took them all. */
  function AfterPoll(p: Path, bytes: seq<uint8>): (p': Path)
    requires |p.rejected| == REJECT_COUNT && |p.rx| < FRAME_LEN
    ensures |p'.rejected| == REJECT_COUNT && |p'.rx| < FRAME_LEN
  {
    if bytes == [] && p.rx != [] then Refused(p.(rx := []), p.rx, REJECT_LENGTH) else AfterBytes(p, bytes)
  }

  /** `task_command`: poll, then run what is due. */
  function AfterDispatch(p: Path, bytes: seq<uint8>, now: uint32, frame: uint32): (p': Path)
    requires |p.rejected| == REJECT_COUNT && |p.rx| < FRAME_LEN
    ensures |p'.rejected| == REJECT_COUNT && |p'.rx| < FRAME_LEN
  {
    var polled := AfterPoll(p, bytes);
    polled.(queue := Q.AfterRun(polled.queue, now, frame))
  }

  // ---- the module -------------------------------------------------------------------

  class CommandPath {
    const rx: array<uint8>
    var fill: nat
    var lastCounter: uint32
    var examined: uint32
    var accepted: uint32
    const rejected: array<uint32>
    var announced: set<nat>
    const queue: Q.CommandQueue
    var tableOk: bool
    ghost var exams: seq<Exam>

    ghost predicate Valid()
      reads this
    {
      && rx.Length == FRAME_LEN && fill < FRAME_LEN && rejected.Length == REJECT_COUNT
      && rx as object != rejected && queue.Valid()
    }

    ghost function View(): Path
      requires Valid()
      reads this, rx, rejected, queue, queue.slots
    {
      Path(rx[..fill], lastCounter, examined, accepted, rejected[..], announced, queue.View(), exams)
    }

    constructor (queue: Q.CommandQueue)
      requires queue.Valid()
      ensures Valid() && this.queue == queue && fresh(rx) && fresh(rejected)
      ensures View() == Path([], 0, 0, 0, [0, 0, 0, 0, 0, 0, 0, 0], {}, queue.View(), []) && !tableOk
    {
      rx := new uint8[20](_ => 0);
      rejected := new uint32[8](_ => 0);
      this.queue := queue;
      fill, lastCounter, examined, accepted, announced, tableOk, exams := 0, 0, 0, 0, {}, false, [];
      new;
      assert rejected[..] == [0, 0, 0, 0, 0, 0, 0, 0];
    }

    /** `obc_cmd_init`: a table that fails its audit is never used to ingest; one that passes starts afresh. */
    method Init(rows: seq<Row>, fields: seq<FrameField>) returns (ok: bool)
      requires Valid()
      modifies this, rejected, queue, queue.slots
      ensures Valid()
      ensures ok <==> AuditPasses(rows, fields, FRAME_LEN)
      ensures !ok ==> View() == old(View()) && tableOk == old(tableOk)
      ensures ok ==> tableOk && View() == Path([], 0, 0, 0, [0, 0, 0, 0, 0, 0, 0, 0], {},
                                               Q.AfterReset(old(queue.View())), [])
    {
      ok := Audit(rows, fields, FRAME_LEN);
      if !ok {
        return;
      }
      queue.Init();
      examined, accepted, fill, announced, lastCounter := 0, 0, 0, {}, 0;
      for i := 0 to REJECT_COUNT
        invariant forall k :: 0 <= k < i ==> rejected[k] == 0
        invariant Valid() && queue.View() == Q.AfterReset(old(queue.View()))
        invariant fill == 0 && examined == 0 && accepted == 0 && announced == {} && lastCounter == 0
      {
        rejected[i] := 0;
      }
      tableOk, exams := true, [];
      assert rejected[..] == [0, 0, 0, 0, 0, 0, 0, 0];
    }

    /** `refuse`, after the examined counter moved. */
    method Refuse(ghost frame: seq<uint8>, reason: Reason)
      requires Valid() && reason < REJECT_COUNT
      modifies this`announced, this`exams, rejected
      ensures View() == Refused(old(View()), frame, reason).(examined := examined)
    {
      rejected[reason] := Bump(rejected[reason]);
      announced := announced + {reason};
      exams := exams + [Exam(frame, reason)];
      assert rejected[..] == old(rejected[..])[reason := rejected[reason]];
    }

    method GetU16(frame: array<uint8>, at: nat) returns (w: nat)
      requires at + 2 <= frame.Length
      ensures w == Word16(frame[..], at)
    {
      w := (frame[at] as nat) + 0x100 * (frame[at + 1] as nat);
      FromLittleEndianBytes(frame[..][at..at + 2]);
    }

    method GetU32(frame: array<uint8>, at: nat) returns (w: uint32)
      requires at + 4 <= frame.Length
      ensures w == Word32(frame[..], at)
    {
      FromLittleEndianBytes(frame[..][at..at + 4]);
      w := (frame[at] as nat) + 0x100 * (frame[at + 1] as nat)
           + 0x1_0000 * (frame[at + 2] as nat) + 0x100_0000 * (frame[at + 3] as nat);
    }

    /** The checks of `obc_cmd_ingest` before the queue is asked, in their order. */
    method Check(frame: array<uint8>, len: nat) returns (v: Reason, e: Q.Slot)
      requires Valid() && len <= frame.Length && frame.Length == FRAME_LEN
      ensures v == REJECT_QUEUE || v == Verdict(View(), frame[..len])
      ensures v == REJECT_QUEUE <==> Verdict(View(), frame[..len]) == REJECT_QUEUE
                                     || Verdict(View(), frame[..len]) == ACCEPTED
      ensures v == REJECT_QUEUE ==> len == FRAME_LEN && e == EntryOf(frame[..])
    {
      hide IntegrityWord, FromLittleEndian, Q.Full;
      e := Q.EMPTY_SLOT;
      if len != FRAME_LEN { return REJECT_LENGTH, e; }
      assert frame[..len] == frame[..] && frame[..][..O_SUM] == frame[..O_SUM];
      var sync := GetU32(frame, O_SYNC);
      if sync != SYNC { return REJECT_SYNC, e; }
      if frame[O_LENGTH] != FRAME_LEN { return REJECT_LENGTH, e; }
      var declared := GetU16(frame, O_SUM);
      var computed := FlightSum(frame, O_SUM);
      if declared != computed { return REJECT_SUM, e; }
      var cmd := FindRow(frame[O_OPCODE]);
      if cmd.None? { return REJECT_OPCODE, e; }
      var arg := GetU32(frame, O_ARG);
      if arg < cmd.value.argMin || arg > cmd.value.argMax { return REJECT_ARG, e; }
      var counter := GetU32(frame, O_COUNTER);
      if counter <= lastCounter { return REJECT_REPLAY, e; }
      if cmd.value.critical && queue.armedOpcode != frame[O_OPCODE] { return REJECT_NOT_ARMED, e; }
      var when := GetU32(frame, O_WHEN);
      return REJECT_QUEUE, Q.Slot(when, arg, counter, frame[O_OPCODE], true);
    }

    /** The part of `obc_cmd_ingest` after its table guard. */
    method Examine(frame: array<uint8>, len: nat) returns (reason: Reason)
      requires Valid() && len <= frame.Length && frame.Length == FRAME_LEN && frame as object != rejected
      modifies this`lastCounter, this`examined, this`accepted, this`announced, this`exams,
               rejected, queue, queue.slots
      ensures Valid()
      ensures reason == Verdict(old(View()), old(frame[..len]))
      ensures View() == AfterIngest(old(View()), old(frame[..len]))
    {
      hide IntegrityWord, FromLittleEndian, Q.FirstFree, Lookup;
      var v, e := Check(frame, len);
      assert len == FRAME_LEN ==> frame[..len] == frame[..];
      examined := Bump(examined);
      if v != REJECT_QUEUE {
        Refuse(frame[..len], v);
        return v;
      }
      var ok := queue.Put(e.opcode, e.when, e.arg, e.counter);
      if !ok {
        Refuse(frame[..len], REJECT_QUEUE);
        return REJECT_QUEUE;
      }
      lastCounter := e.counter;
      accepted := Bump(accepted);
      exams := exams + [Exam(frame[..len], ACCEPTED)];
      assert View() == Admitted(old(View()), old(frame[..len]), e);
      return ACCEPTED;
    }

    /** `obc_cmd_ingest`: nothing is examined, and no reason given, until the table audit has passed. */
    method Ingest(frame: array<uint8>, len: nat) returns (reason: Option<Reason>)
      requires Valid() && len <= frame.Length && frame.Length == FRAME_LEN && frame as object != rejected
      modifies this`lastCounter, this`examined, this`accepted, this`announced, this`exams,
               rejected, queue, queue.slots
      ensures Valid()
      ensures !tableOk ==> reason == None && View() == old(View())
      ensures tableOk ==> reason == Some(Verdict(old(View()), old(frame[..len])))
      ensures tableOk ==> View() == AfterIngest(old(View()), old(frame[..len]))
    {
      hide Verdict, AfterIngest;
      if !tableOk {
        return None;
      }
      var r := Examine(frame, len);
      return Some(r);
    }

    /**
      `obc_cmd_poll` when `waiting` is what the receive FIFO holds: takes at most
      `RX_BYTES` of it, and rejects a partial frame when nothing at all was waiting.  Without
      a table that passed its audit it takes nothing.
    */
    method Poll(waiting: seq<uint8>) returns (taken: nat)
      requires Valid()
      modifies this, rx, rejected, queue, queue.slots
      ensures Valid() && tableOk == old(tableOk)
      ensures !tableOk ==> taken == 0 && View() == old(View())
      ensures tableOk ==> taken == Min(|waiting|, 160) && View() == AfterPoll(old(View()), waiting[..taken])
    {
      hide AfterIngest, Verdict, Refused;
      taken := 0;
      if !tableOk {
        return;
      }
      while taken < RX_BYTES && taken < |waiting|
        invariant Valid() && tableOk && 0 <= taken <= Min(|waiting|, RX_BYTES)
        invariant View() == AfterBytes(old(View()), waiting[..taken])
      {
        TakeByte(waiting[taken]);
        assert waiting[..taken + 1][..taken] == waiting[..taken];
        taken := taken + 1;
      }
      if taken == 0 && fill != 0 {
        assert View() == old(View());
        DropPartial();
      }
    }

    /** A quiet line ends the frame being assembled: what is held of it counts as one frame of the wrong length. */
    method DropPartial()
      requires Valid()
      modifies this, rejected
      ensures Valid() && tableOk == old(tableOk)
      ensures View() == Refused(old(View()).(rx := []), old(View()).rx, REJECT_LENGTH)
    {
      ghost var partial := rx[..fill];
      fill := 0;
      assert View() == old(View()).(rx := []);
      examined := Bump(examined);
      Refuse(partial, REJECT_LENGTH);
    }

    /** The loop body: one received byte, and the frame it completes. */
    method TakeByte(byte: uint8)
      requires Valid() && tableOk
      modifies this, rx, rejected, queue, queue.slots
      ensures Valid() && tableOk
      ensures View() == AfterByte(old(View()), byte)
    {
      hide AfterIngest, Verdict;
      ghost var p := View();
      rx[fill] := byte;
      fill := fill + 1;
      assert rx[..fill] == p.rx + [byte];
      if fill == FRAME_LEN {
        fill := 0;
        assert View() == p.(rx := []);
        assert rx[..FRAME_LEN] == p.rx + [byte];
        var reason := Ingest(rx, FRAME_LEN);
      }
    }

    /** `task_command`, at the time the executive published and the frame it is in. */
    method TaskCommand(waiting: seq<uint8>, now: uint32, frame: uint32)
      requires Valid()
      modifies this, rx, rejected, queue, queue.slots
      ensures Valid()
      ensures tableOk == old(tableOk)
      ensures tableOk ==> View() == AfterDispatch(old(View()), waiting[..Min(|waiting|, 160)], now, frame)
      ensures !tableOk ==> View() == old(View()).(queue := Q.AfterRun(old(View()).queue, now, frame))
    {
      hide AfterPoll, Q.AfterRun;
      var taken := Poll(waiting);
      queue.Run(now, frame);
    }
  }
}
