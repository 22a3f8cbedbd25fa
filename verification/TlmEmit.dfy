/** The shipped telemetry frame: packing and emission (flight/tlm/frame.c). */
module TlmEmit {
  import opened Words
  import opened FrameSum
  import opened TlmLayout
  import opened TlmDecode
  import D = Downlink
  import S = Sensor

  const SYNC: uint32 := 0xA5C35A3C
  const FRAME_LEN := 91
  const TASKS := 8
  const SENSORS := 2
  const REASONS := 8

  const O_SYNC := 0
  const O_SEQ := 4
  const O_UPTIME := 8
  const O_FRAMES := 12
  const O_FRAME_OVERRUNS := 16
  const O_SLACK := 18
  const O_TASK_OVERRUNS := 20
  const O_REPAIRS := 28
  const O_FAILED_VOTES := 30
  const O_SUSPENSIONS := 32
  const O_DROPS := 34
  const O_SHORT_BOOTS := 36
  const O_MODE := 37
  const O_SAFE_REASON := 38
  const O_RESET_CAUSE := 39
  const O_SENSOR_FLAGS := 40
  const O_SENSOR := 41
  const O_CMD_EXAMINED := 45
  const O_CMD_ACCEPTED := 49
  const O_CMD_REJECTED := 53
  const O_CMD_EXECUTED := 85
  const O_CMD_QUEUED := 87
  const O_CMD_LATE := 88
  const O_SUM := 89

  const FIELD_COUNT := 24

  /** Row `n` of `obc_tlm_fields`. */
  function FieldAt(n: nat): Field
    requires n < FIELD_COUNT
  {
    match n
    case 0 => Field(O_SYNC, 4, 1, KindSync)
    case 1 => Field(O_SEQ, 4, 1, KindCount)
    case 2 => Field(O_UPTIME, 4, 1, KindCount)
    case 3 => Field(O_FRAMES, 4, 1, KindCount)
    case 4 => Field(O_FRAME_OVERRUNS, 2, 1, KindCount)
    case 5 => Field(O_SLACK, 2, 1, KindCount)
    case 6 => Field(O_TASK_OVERRUNS, 1, 8, KindCount)
    case 7 => Field(O_REPAIRS, 2, 1, KindCount)
    case 8 => Field(O_FAILED_VOTES, 2, 1, KindCount)
    case 9 => Field(O_SUSPENSIONS, 2, 1, KindCount)
    case 10 => Field(O_DROPS, 2, 1, KindCount)
    case 11 => Field(O_SHORT_BOOTS, 1, 1, KindCount)
    case 12 => Field(O_MODE, 1, 1, KindEnum)
    case 13 => Field(O_SAFE_REASON, 1, 1, KindEnum)
    case 14 => Field(O_RESET_CAUSE, 1, 1, KindEnum)
    case 15 => Field(O_SENSOR_FLAGS, 1, 1, KindBits)
    case 16 => Field(O_SENSOR, 2, 2, KindSensor)
    case 17 => Field(O_CMD_EXAMINED, 4, 1, KindCount)
    case 18 => Field(O_CMD_ACCEPTED, 4, 1, KindCount)
    case 19 => Field(O_CMD_REJECTED, 4, 8, KindCount)
    case 20 => Field(O_CMD_EXECUTED, 2, 1, KindCount)
    case 21 => Field(O_CMD_QUEUED, 1, 1, KindCount)
    case 22 => Field(O_CMD_LATE, 1, 1, KindCount)
    case _ => Field(O_SUM, 2, 1, KindSum)
  }

  function Fields(): (fields: seq<Field>)
    ensures |fields| == FIELD_COUNT
  {
    seq(FIELD_COUNT, n requires 0 <= n < FIELD_COUNT => FieldAt(n))
  }

  function ShippedLayout(): Layout {
    Layout(Fields(), FRAME_LEN, SYNC)
  }

  const SUM_FIELD: Field := Field(O_SUM, 2, 1, KindSum)

  /** What the frame reports about the other subsystems, as they stand. */
  datatype Housekeeping = Housekeeping(
    clock: Option<uint64>, framesRun: uint32, frameOverruns: uint32, slack: uint32, taskOverruns: seq<uint32>,
    repairs: uint32, failedVotes: uint32, suspensions: uint32, shortBoots: uint32, safe: bool,
    safeReason: uint32, resetCause: uint32, sensorFlags: uint32, sensors: seq<uint16>,
    cmdExamined: uint32, cmdAccepted: uint32, cmdRejected: seq<uint32>,
    cmdExecuted: uint32, cmdQueued: uint32, cmdLate: uint32)

  predicate Shaped(hk: Housekeeping) {
    |hk.taskOverruns| <= TASKS && |hk.sensors| == SENSORS && |hk.cmdRejected| == REASONS
  }

  function Sat16(v: uint32): uint32 {
    if v > 0xFFFF then 0xFFFF else v
  }

  function Sat8(v: uint32): uint32 {
    if v > 0xFF then 0xFF else v
  }

  /** The low word of the clock; a read that failed publishes an unmistakable value. */
  function Uptime(clock: Option<uint64>): uint32 {
    match clock
    case Some(now) => Wrap32(now)
    case None => U32_MAX
  }

  /** The saturated overruns of the tasks there are, and zero in the places left. */
  function TaskOverruns(o: seq<uint32>): (r: seq<nat>)
    ensures |r| == TASKS
  {
    seq(TASKS, i requires 0 <= i < TASKS => if i < |o| then Sat8(o[i]) else 0)
  }

  /** What the ground must read in field `n`: saturated where a counter may not fit, masked elsewhere. */
  function ValueAt(hk: Housekeeping, number: uint32, drops: uint32, sum: uint16, n: nat): seq<nat>
    requires n < FIELD_COUNT
  {
    match n
    case 0 => [SYNC]
    case 1 => [number]
    case 2 => [Uptime(hk.clock)]
    case 3 => [hk.framesRun]
    case 4 => [Sat16(hk.frameOverruns)]
    case 5 => [Sat16(hk.slack)]
    case 6 => TaskOverruns(hk.taskOverruns)
    case 7 => [Sat16(hk.repairs)]
    case 8 => [Sat16(hk.failedVotes)]
    case 9 => [Sat16(hk.suspensions)]
    case 10 => [Sat16(drops)]
    case 11 => [Sat8(hk.shortBoots)]
    case 12 => [if hk.safe then 1 else 0]
    case 13 => [hk.safeReason % 256]
    case 14 => [hk.resetCause % 256]
    case 15 => [hk.sensorFlags % 256]
    case 16 => hk.sensors
    case 17 => [hk.cmdExamined]
    case 18 => [hk.cmdAccepted]
    case 19 => hk.cmdRejected
    case 20 => [Sat16(hk.cmdExecuted)]
    case 21 => [Sat8(hk.cmdQueued)]
    case 22 => [Sat8(hk.cmdLate)]
    case _ => [sum]
  }

  function Values(hk: Housekeeping, number: uint32, drops: uint32, sum: uint16): (vs: seq<seq<nat>>)
    ensures |vs| == FIELD_COUNT
  {
    seq(FIELD_COUNT, n requires 0 <= n < FIELD_COUNT => ValueAt(hk, number, drops, sum, n))
  }

  /** The 89 bytes the sum is taken over. */
  function Payload(hk: Housekeeping, number: uint32, drops: uint32): seq<uint8> {
    Encode(Fields(), Values(hk, number, drops, 0), 23)
  }

  /** The frame that reports this state. */
  function Frame(hk: Housekeeping, number: uint32, drops: uint32): seq<uint8> {
    Encode(Fields(), Values(hk, number, drops, IntegrityWord(Payload(hk, number, drops))), FIELD_COUNT)
  }

  // ---- the layout is audited, and every value fits --------------------------------------

  /** Up to each field, the fields before it leave no gap. */
  lemma {:induction false} Offsets(n: nat)
    requires n <= FIELD_COUNT
    ensures Start(Fields(), n) == if n == FIELD_COUNT then FRAME_LEN else FieldAt(n).offset
  {
    hide *;
    if n == 0 {
      StartsAtZero();
    } else {
      Offsets(n - 1);
      SizeAt(n - 1);
      StartNext(n - 1);
    }
  }

  lemma StartsAtZero()
    ensures Start(Fields(), 0) == 0 == FieldAt(0).offset && FIELD_COUNT == 24
  {
  }

  lemma StartNext(n: nat)
    requires n < FIELD_COUNT
    ensures Start(Fields(), n + 1) == Start(Fields(), n) + Size(FieldAt(n)) && n < 24 && FIELD_COUNT == 24
  {
    hide Size, FieldAt;
  }

  lemma SizeAt(n: nat)
    requires n < FIELD_COUNT
    ensures FieldAt(n).offset + Size(FieldAt(n)) == if n + 1 == FIELD_COUNT then FRAME_LEN else FieldAt(n + 1).offset
  {
    hide Times;
    TimesIsProduct(FieldAt(n).count, FieldAt(n).width);
  }

  lemma FieldsOk(n: nat)
    requires n < FIELD_COUNT
    ensures FieldOk(FieldAt(n)) && (FieldAt(n).kind == KindSum <==> n == 23)
  {
  }

  lemma ShippedLayoutAudited()
    ensures AuditOk(Fields(), FRAME_LEN)
    ensures SumField(Fields()) == Some(SUM_FIELD)
  {
    hide FieldAt, Start;
    forall n: nat | n < FIELD_COUNT ensures FieldOk(Fields()[n]) && Fields()[n].offset == Start(Fields(), n) {
      Offsets(n);
      FieldsOk(n);
    }
    Offsets(FIELD_COUNT);
    FieldsOk(23);
    forall n: nat | n < 23 ensures Fields()[n].kind != KindSum { FieldsOk(n); }
    SumFieldIs(Fields(), 23);
    LastField();
  }

  lemma LastField()
    ensures FieldAt(23) == SUM_FIELD
  {
  }

  lemma ValueFits(hk: Housekeeping, number: uint32, drops: uint32, sum: uint16, n: nat)
    requires Shaped(hk) && n < FIELD_COUNT
    ensures Fits(FieldAt(n), ValueAt(hk, number, drops, sum, n))
  {
    hide Span;
    SpanBytes();
  }

  lemma ValuesFit(hk: Housekeeping, number: uint32, drops: uint32, sum: uint16)
    requires Shaped(hk)
    ensures AllFit(Fields(), Values(hk, number, drops, sum))
  {
    hide FieldAt, ValueAt, Fits, Shaped;
    forall n: nat | n < FIELD_COUNT ensures Fits(Fields()[n], Values(hk, number, drops, sum)[n]) {
      ValueFits(hk, number, drops, sum, n);
    }
  }

  lemma SpanBytes()
    ensures Span(1) == 0x100 && Span(2) == 0x1_0000 && Span(4) == 0x1_0000_0000
  {
    assert Span(3) == 256 * Span(2);
  }

  // ---- an emitted frame, read back on the ground ---------------------------------------

  lemma {:induction false} EncodeSame(fields: seq<Field>, a: seq<seq<nat>>, b: seq<seq<nat>>, n: nat)
    requires n <= |fields| == |a| == |b| && forall i :: 0 <= i < n ==> a[i] == b[i]
    ensures Encode(fields, a, n) == Encode(fields, b, n)
  {
    if n > 0 {
      EncodeSame(fields, a, b, n - 1);
    }
  }

  lemma PayloadIgnoresSum(hk: Housekeeping, number: uint32, drops: uint32, sum: uint16)
    ensures Encode(Fields(), Values(hk, number, drops, sum), 23) == Payload(hk, number, drops)
  {
    EncodeSame(Fields(), Values(hk, number, drops, sum), Values(hk, number, drops, 0), 23);
  }

  lemma OneElement(width: nat, v: nat)
    ensures EncodeField(width, [v]) == LittleEndian(v, width)
  {
    EncodeFieldGrows(width, [], v);
    assert [] + [v] == [v];
    EncodeNothing(width);
  }

  /** The frame is its payload and then its sum. */
  lemma FrameShape(hk: Housekeeping, number: uint32, drops: uint32)
    requires Shaped(hk)
    ensures |Payload(hk, number, drops)| == O_SUM
    ensures Frame(hk, number, drops)
         == Payload(hk, number, drops) + LittleEndian(IntegrityWord(Payload(hk, number, drops)), 2)
    ensures |Frame(hk, number, drops)| == FRAME_LEN
  {
    hide EncodeField, LittleEndian, IntegrityWord, Start, FieldAt, ValueAt;
    var payload := Payload(hk, number, drops);
    var sum := IntegrityWord(payload);
    PayloadIgnoresSum(hk, number, drops, sum);
    ValuesFit(hk, number, drops, sum);
    EncodeLength(Fields(), Values(hk, number, drops, sum), 23);
    Offsets(23);
    LastField();
    LastValue(hk, number, drops, sum);
    OneElement(2, sum);
  }

  lemma LastValue(hk: Housekeeping, number: uint32, drops: uint32, sum: uint16)
    ensures ValueAt(hk, number, drops, sum, 23) == [sum]
  {
  }

  /**
    The emitted frame, whatever the buffer held before: it decodes to the saturated or
    masked current state, field by field, and it is well formed for the ground's search.
  */
  lemma EmittedFrameDecodes(hk: Housekeeping, number: uint32, drops: uint32)
    requires Shaped(hk)
    ensures Decode(Fields(), Frame(hk, number, drops))
         == Values(hk, number, drops, IntegrityWord(Payload(hk, number, drops)))
    ensures WellFormed(Frame(hk, number, drops), ShippedLayout(), SUM_FIELD)
  {
    var sum := IntegrityWord(Payload(hk, number, drops));
    ShippedLayoutAudited();
    ValuesFit(hk, number, drops, sum);
    DecodeEncode(Fields(), FRAME_LEN, Values(hk, number, drops, sum));
    FrameShape(hk, number, drops);
    SyncFirst(hk, number, drops);
    hide Frame, Payload, Decode, Values, IntegrityWord, LittleEndian, FromLittleEndian;
    SumLast(Frame(hk, number, drops), Payload(hk, number, drops));
  }

  lemma SyncFirst(hk: Housekeeping, number: uint32, drops: uint32)
    requires Shaped(hk)
    ensures SyncAt(Frame(hk, number, drops), 0, SYNC)
  {
    FrameShape(hk, number, drops);
    hide IntegrityWord, LittleEndian;
    var vs := Values(hk, number, drops, 0);
    EncodePrefix(Fields(), vs, 1, 23);
    assert Encode(Fields(), vs, 1) == Encode(Fields(), vs, 0) + EncodeField(4, [SYNC]);
    OneElement(4, SYNC);
    assert Frame(hk, number, drops)[0..4] == Payload(hk, number, drops)[0..4] == LittleEndian(SYNC, 4);
  }

  lemma SumLast(frame: seq<uint8>, payload: seq<uint8>)
    requires |payload| == O_SUM && frame == payload + LittleEndian(IntegrityWord(payload), 2)
    requires SyncAt(frame, 0, SYNC)
    ensures WellFormed(frame, ShippedLayout(), SUM_FIELD)
  {
    hide IntegrityWord, LittleEndian, FromLittleEndian;
    var sum := IntegrityWord(payload);
    SpanBytes();
    UnpackPack(sum, 2);
    assert frame[0..0 + FRAME_LEN] == frame;
    assert Slice(frame, O_SUM, O_SUM + 2) == LittleEndian(sum, 2);
    assert Slice(frame, 0, O_SUM) == payload;
  }

  // ---- the same frame, byte by byte ------------------------------------------------------

  /** The number in `width` bytes at an offset, least significant byte first. */
  function Number(frame: seq<uint8>, at: nat, width: nat): nat
    requires width in {1, 2, 4} && at + width <= |frame|
  {
    if width == 1 then frame[at]
    else if width == 2 then frame[at] as nat + 0x100 * frame[at + 1] as nat
    else
      frame[at] as nat + 0x100 * frame[at + 1] as nat + 0x1_0000 * frame[at + 2] as nat
      + 0x100_0000 * frame[at + 3] as nat
  }

  /** Synchronisation word, number, clock, and what the executive counted. */
  predicate ReportsTiming(frame: seq<uint8>, hk: Housekeeping, number: uint32)
    requires |frame| == 91 && Shaped(hk)
  {
    && frame[0] == 0x3C && frame[1] == 0x5A && frame[2] == 0xC3 && frame[3] == 0xA5
    && Number(frame, 4, 4) == number
    && Number(frame, 8, 4) == (if hk.clock.Some? then hk.clock.value % 0x1_0000_0000 else 0xFFFF_FFFF)
    && Number(frame, 12, 4) == hk.framesRun
    && Number(frame, 16, 2) == Min(hk.frameOverruns, 65535)
    && Number(frame, 18, 2) == Min(hk.slack, 65535)
    && forall at :: 20 <= at < 28 ==>
         frame[at] == if at - 20 < |hk.taskOverruns| then Min(hk.taskOverruns[at - 20], 255) else 0
  }

  /** What the voter, the escalation, the boots and the mode left. */
  predicate ReportsHealth(frame: seq<uint8>, hk: Housekeeping, drops: uint32)
    requires |frame| == 91
  {
    && Number(frame, 28, 2) == Min(hk.repairs, 65535)
    && Number(frame, 30, 2) == Min(hk.failedVotes, 65535)
    && Number(frame, 32, 2) == Min(hk.suspensions, 65535)
    && Number(frame, 34, 2) == Min(drops, 65535)
    && frame[36] == Min(hk.shortBoots, 255)
    && frame[37] <= 1 && (frame[37] == 1 <==> hk.safe)
    && frame[38] == hk.safeReason % 256
    && frame[39] == hk.resetCause % 256
    && frame[40] == hk.sensorFlags % 256
  }

  /** The sensors, the command path, and the sum over everything before it. */
  predicate ReportsCommands(frame: seq<uint8>, hk: Housekeeping)
    requires |frame| == 91 && Shaped(hk)
  {
    && Number(frame, 41, 2) == hk.sensors[0] && Number(frame, 43, 2) == hk.sensors[1]
    && Number(frame, 45, 4) == hk.cmdExamined
    && Number(frame, 49, 4) == hk.cmdAccepted
    && (forall i :: 0 <= i < 8 ==> Number(frame, 53 + 4 * i, 4) == hk.cmdRejected[i])
    && Number(frame, 85, 2) == Min(hk.cmdExecuted, 65535)
    && frame[87] == Min(hk.cmdQueued, 255)
    && frame[88] == Min(hk.cmdLate, 255)
    && Number(frame, 89, 2) == IntegrityWord(frame[..89])
  }

  lemma NumberIsLittleEndian(frame: seq<uint8>, at: nat, width: nat)
    requires width in {1, 2, 4} && at + width <= |frame|
    ensures FromLittleEndian(Slice(frame, at, at + width)) == Number(frame, at, width)
  {
    FromLittleEndianBytes(frame[at..at + width]);
    hide FromLittleEndian;
  }

  lemma {:induction false} ElementAt(raw: seq<uint8>, at: nat, width: nat, n: nat, i: nat)
    requires i < n
    ensures DecodeElems(raw, at, width, n)[i] == FromLittleEndian(Slice(raw, at + i * width, at + i * width + width))
  {
    hide FromLittleEndian, Slice;
    if i == n - 1 {
      TimesIsProduct(i, width);
    } else {
      ElementAt(raw, at, width, n - 1, i);
    }
  }

  /** Where every field of the shipped frame lies. */
  lemma FieldInFrame(n: nat, i: nat)
    requires n < 24 && i < FieldAt(n).count
    ensures FieldAt(n).width in {1, 2, 4}
    ensures FieldAt(n).offset + i * FieldAt(n).width as nat + FieldAt(n).width as nat <= 91
  {
  }

  lemma DecodedAt(frame: seq<uint8>, n: nat)
    requires n < FIELD_COUNT
    ensures FIELD_COUNT == 24
    ensures Decode(Fields(), frame)[n]
         == DecodeElems(frame, FieldAt(n).offset, FieldAt(n).width, FieldAt(n).count)
  {
    hide FieldAt, DecodeElems;
  }

  lemma ValuesAt(hk: Housekeeping, number: uint32, drops: uint32, sum: uint16, n: nat)
    requires n < FIELD_COUNT
    ensures Values(hk, number, drops, sum)[n] == ValueAt(hk, number, drops, sum, n)
  {
    hide ValueAt;
  }

  lemma FrameIsWhole(hk: Housekeeping, number: uint32, drops: uint32)
    requires Shaped(hk)
    ensures |Frame(hk, number, drops)| == 91 && FIELD_COUNT == 24
  {
    hide Frame, Shaped;
    FrameShape(hk, number, drops);
  }

  /** The bytes of one element of one field are the number it must read as. */
  lemma FieldReads(hk: Housekeeping, number: uint32, drops: uint32, n: nat, i: nat)
    requires Shaped(hk) && n < FIELD_COUNT && i < FieldAt(n).count
    ensures var frame, f := Frame(hk, number, drops), FieldAt(n);
            var vs := ValueAt(hk, number, drops, IntegrityWord(Payload(hk, number, drops)), n);
            && |frame| == 91 && |vs| == f.count && f.width in {1, 2, 4}
            && f.offset + i * f.width as nat + f.width as nat <= 91
            && Number(frame, f.offset + i * f.width as nat, f.width) == vs[i]
  {
    hide *;
    FrameIsWhole(hk, number, drops);
    FieldInFrame(n, i);
    EmittedFrameDecodes(hk, number, drops);
    var frame, f := Frame(hk, number, drops), FieldAt(n);
    DecodedAt(frame, n);
    ValuesAt(hk, number, drops, IntegrityWord(Payload(hk, number, drops)), n);
    ElementAt(frame, f.offset, f.width, f.count, i);
    NumberIsLittleEndian(frame, f.offset + i * f.width as nat, f.width);
  }

  /** One field of one element, in the layout's own numbers. */
  lemma ScalarReads(hk: Housekeeping, number: uint32, drops: uint32, n: nat)
    requires Shaped(hk) && n < FIELD_COUNT && FieldAt(n).count == 1
    ensures var frame, f := Frame(hk, number, drops), FieldAt(n);
            var vs := ValueAt(hk, number, drops, IntegrityWord(Payload(hk, number, drops)), n);
            && |frame| == 91 && f.width in {1, 2, 4} && f.offset as nat + f.width as nat <= 91
            && |vs| == 1 && Number(frame, f.offset, f.width) == vs[0]
  {
    hide *;
    FieldReads(hk, number, drops, n, 0);
  }

  lemma SyncBytes(frame: seq<uint8>)
    requires |frame| == 91 && Number(frame, 0, 4) == 0xA5C3_5A3C
    ensures frame[0] == 0x3C && frame[1] == 0x5A && frame[2] == 0xC3 && frame[3] == 0xA5
  {
  }

  lemma TaskBytes(hk: Housekeeping, number: uint32, drops: uint32, i: nat)
    requires Shaped(hk) && i < 8
    ensures |Frame(hk, number, drops)| == 91
    ensures Frame(hk, number, drops)[20 + i] == if i < |hk.taskOverruns| then Min(hk.taskOverruns[i], 255) else 0
  {
    hide Frame, Payload, IntegrityWord;
    FieldReads(hk, number, drops, 6, i);
  }

  /** The frame that is sent reports the executive's counters. */
  lemma FrameReportsTiming(hk: Housekeeping, number: uint32, drops: uint32)
    requires Shaped(hk)
    ensures |Frame(hk, number, drops)| == 91 && ReportsTiming(Frame(hk, number, drops), hk, number)
  {
    hide Frame, Payload, IntegrityWord, Number;
    ScalarReads(hk, number, drops, 0);
    SyncBytes(Frame(hk, number, drops));
    ScalarReads(hk, number, drops, 1);
    ScalarReads(hk, number, drops, 2);
    ScalarReads(hk, number, drops, 3);
    ScalarReads(hk, number, drops, 4);
    ScalarReads(hk, number, drops, 5);
    var frame := Frame(hk, number, drops);
    forall at | 20 <= at < 28
      ensures frame[at] == if at - 20 < |hk.taskOverruns| then Min(hk.taskOverruns[at - 20], 255) else 0
    {
      TaskBytes(hk, number, drops, at - 20);
    }
  }

  lemma FrameReportsHealth(hk: Housekeeping, number: uint32, drops: uint32)
    requires Shaped(hk)
    ensures |Frame(hk, number, drops)| == 91 && ReportsHealth(Frame(hk, number, drops), hk, drops)
  {
    hide Frame, Payload, IntegrityWord;
    ScalarReads(hk, number, drops, 7);
    ScalarReads(hk, number, drops, 8);
    ScalarReads(hk, number, drops, 9);
    ScalarReads(hk, number, drops, 10);
    ScalarReads(hk, number, drops, 11);
    ScalarReads(hk, number, drops, 12);
    ScalarReads(hk, number, drops, 13);
    ScalarReads(hk, number, drops, 14);
    ScalarReads(hk, number, drops, 15);
  }

  lemma RejectedReads(hk: Housekeeping, number: uint32, drops: uint32, i: nat)
    requires Shaped(hk) && i < 8
    ensures |Frame(hk, number, drops)| == 91
    ensures Number(Frame(hk, number, drops), 53 + 4 * i, 4) == hk.cmdRejected[i]
  {
    hide Frame, Payload, IntegrityWord, Number;
    FieldReads(hk, number, drops, 19, i);
  }

  lemma SumReads(hk: Housekeeping, number: uint32, drops: uint32)
    requires Shaped(hk)
    ensures |Frame(hk, number, drops)| == 91
    ensures Number(Frame(hk, number, drops), 89, 2) == IntegrityWord(Frame(hk, number, drops)[..89])
  {
    hide Frame, Payload, IntegrityWord, Number, LittleEndian;
    FrameShape(hk, number, drops);
    ScalarReads(hk, number, drops, 23);
    assert Frame(hk, number, drops)[..89] == Payload(hk, number, drops);
  }

  /** The frame that is sent reports the sensors and the command path, and carries its sum. */
  lemma FrameReportsCommands(hk: Housekeeping, number: uint32, drops: uint32)
    requires Shaped(hk)
    ensures |Frame(hk, number, drops)| == 91 && ReportsCommands(Frame(hk, number, drops), hk)
  {
    hide Frame, Payload, IntegrityWord;
    FieldReads(hk, number, drops, 16, 0);
    FieldReads(hk, number, drops, 16, 1);
    ScalarReads(hk, number, drops, 17);
    ScalarReads(hk, number, drops, 18);
    ScalarReads(hk, number, drops, 20);
    ScalarReads(hk, number, drops, 21);
    ScalarReads(hk, number, drops, 22);
    forall i: nat | i < 8 ensures Number(Frame(hk, number, drops), 53 + 4 * i, 4) == hk.cmdRejected[i] {
      RejectedReads(hk, number, drops, i);
    }
    SumReads(hk, number, drops);
  }

  /** What the ground's search takes for a shipped frame, byte by byte. */
  lemma ValidMeans(stream: seq<uint8>, at: nat)
    ensures ValidAt(stream, at, ShippedLayout(), SUM_FIELD) <==>
            && at + 91 <= |stream|
            && stream[at] == 0x3C && stream[at + 1] == 0x5A && stream[at + 2] == 0xC3 && stream[at + 3] == 0xA5
            && stream[at + 89] as nat + 0x100 * stream[at + 90] as nat == IntegrityWord(stream[at..at + 89])
  {
    SyncLittleEndian();
    hide IntegrityWord, FromLittleEndian, LittleEndian;
    if at + 91 <= |stream| {
      var raw := stream[at..at + 91];
      assert raw[..89] == stream[at..at + 89] && raw[89..91] == stream[at + 89..at + 91];
      FromLittleEndianBytes(raw[89..91]);
      assert Slice(raw, 89, 91) == raw[89..91] && Slice(raw, 0, 89) == raw[..89];
      assert stream[at..at + 4] == [stream[at], stream[at + 1], stream[at + 2], stream[at + 3]];
    }
  }

  lemma SyncLittleEndian()
    ensures LittleEndian(SYNC, 4) == [0x3C, 0x5A, 0xC3, 0xA5]
  {
    LittleEndianBytes(SYNC);
    hide LittleEndian;
  }

  /** A frame with one byte changed, wherever it was, is no frame any more. */
  lemma OneByteWrongIsNoFrame(stream: seq<uint8>, at: nat, k: nat, byte: uint8)
    requires ValidAt(stream, at, ShippedLayout(), SUM_FIELD) && at <= k < at + 91
    requires k < |stream| && byte != stream[k]
    ensures !ValidAt(stream[k := byte], at, ShippedLayout(), SUM_FIELD)
  {
    hide *;
    var after := stream[k := byte];
    ValidMeans(stream, at);
    ValidMeans(after, at);
    if k < at + 89 {
      assert after[at..at + 89] == stream[at..at + 89][k - at := byte];
      SingleByteChangesWord(stream[at..at + 89], k - at, byte);
    } else {
      assert after[at..at + 89] == stream[at..at + 89];
    }
  }

  // ---- the module ------------------------------------------------------------------------

  class Telemetry {
    const frame: array<uint8>
    const port: D.Port
    const sensors: S.Sensors
    var number: uint32
    var drops: uint32
    var dropsConsecutive: uint32
    var subsystemResets: uint32
    var layoutOk: bool

    ghost predicate Valid() {
      && frame.Length == FRAME_LEN && sensors.channels.Length == S.COUNT
      && (sensors.channels as object) != frame
    }

    constructor (port: D.Port, sensors: S.Sensors)
      requires sensors.channels.Length == S.COUNT
      ensures Valid() && this.port == port && this.sensors == sensors && fresh(frame) && !layoutOk
    {
      frame := new uint8[91];
      this.port, this.sensors := port, sensors;
      number, drops, dropsConsecutive, subsystemResets, layoutOk := 0, 0, 0, 0, false;
    }

    /**
      `obc_tlm_init` over a descriptor table: refuses one that does not describe the frame,
      and starts the sensors, the number and the buffer afresh otherwise.
    */
    method Init(fields: seq<Field>) returns (ok: bool)
      requires Valid()
      modifies this, frame, sensors, sensors.channels
      ensures ok <==> AuditOk(fields, FRAME_LEN)
      ensures ok ==> layoutOk && number == 0 && forall i :: 0 <= i < FRAME_LEN ==> frame[i] == 0
      ensures ok ==> SensorsRestarted()
      ensures drops == old(drops) && dropsConsecutive == old(dropsConsecutive)
      ensures !ok ==> unchanged(this) && unchanged(frame) && unchanged(sensors) && unchanged(sensors.channels)
    {
      ok := Audit(fields, FRAME_LEN);
      if !ok {
        return;
      }
      sensors.Init();
      number := 0;
      ClearFrame();
      layoutOk := true;
    }

    /** No history, every sensor without data, and the rejection counters as they were. */
    twostate predicate SensorsRestarted()
      requires Valid()
      reads sensors, sensors.channels
    {
      && sensors.Valid() && sensors.history == [[], []]
      && forall i: nat :: i < S.COUNT ==>
           && sensors.channels[i].rejectsRange == old(sensors.channels[i].rejectsRange)
           && sensors.channels[i].rejectsStuck == old(sensors.channels[i].rejectsStuck)
    }

    method ClearFrame()
      requires Valid()
      modifies frame
      ensures forall i :: 0 <= i < FRAME_LEN ==> frame[i] == 0
    {
      for i := 0 to FRAME_LEN
        invariant forall k :: 0 <= k < i ==> frame[k] == 0
      {
        frame[i] := 0;
      }
    }

    /** `obc_tlm_subsystem_reset`: the number, the buffer and the sensors restart, the drop counters stay. */
    method SubsystemReset()
      requires Valid()
      modifies this, frame, sensors, sensors.channels
      ensures number == 0 && subsystemResets == Inc(old(subsystemResets))
      ensures forall i :: 0 <= i < FRAME_LEN ==> frame[i] == 0
      ensures SensorsRestarted()
      ensures drops == old(drops) && dropsConsecutive == old(dropsConsecutive) && layoutOk == old(layoutOk)
    {
      number := 0;
      ClearFrame();
      sensors.Init();
      subsystemResets := Inc(subsystemResets);
    }

    // Byte-level packing: each store leaves what precedes it in place.

    method Put8(at: nat, v: uint32)
      requires Valid() && at + 1 <= FRAME_LEN
      modifies frame
      ensures frame[..at + 1] == old(frame[..at]) + LittleEndian(v % 256, 1)
    {
      LittleEndianBytes(v % 256);
      frame[at] := v % 256;
    }

    method Put16(at: nat, v: uint16)
      requires Valid() && at + 2 <= FRAME_LEN
      modifies frame
      ensures frame[..at + 2] == old(frame[..at]) + LittleEndian(v, 2)
    {
      LittleEndianBytes(v);
      frame[at] := v % 256;
      frame[at + 1] := v / 0x100 % 256;
    }

    method Put32(at: nat, v: uint32)
      requires Valid() && at + 4 <= FRAME_LEN
      modifies frame
      ensures frame[..at + 4] == old(frame[..at]) + LittleEndian(v, 4)
    {
      LittleEndianBytes(v);
      frame[at] := v % 256;
      frame[at + 1] := v / 0x100 % 256;
      frame[at + 2] := v / 0x1_0000 % 256;
      frame[at + 3] := v / 0x100_0000 % 256;
    }

    /** The frame so far is the first `n` fields of these values. */
    ghost predicate Packed(vs: seq<seq<nat>>, n: nat)
      requires n < FIELD_COUNT
      reads frame
    {
      && Valid() && |vs| == FIELD_COUNT
      && frame[..FieldAt(n).offset] == Encode(Fields(), vs, n)
    }

    lemma StartPacking(vs: seq<seq<nat>>)
      requires Valid() && |vs| == FIELD_COUNT
      ensures Packed(vs, 0)
    {
    }

    // A scalar field: its bytes stored at its offset, and one more field packed.

    method Scalar8(at: nat, v: uint32, ghost vs: seq<seq<nat>>, ghost n: nat)
      requires n + 1 < FIELD_COUNT && Packed(vs, n) && vs[n] == [v % 256]
      requires FieldAt(n).offset == at && FieldAt(n).width == 1 && FieldAt(n).count == 1
      modifies frame
      ensures Packed(vs, n + 1)
    {
      hide LittleEndian, EncodeField, Encode, FieldAt;
      SizeOfScalar(n);
      Put8(at, v);
      NextScalar(vs, n, v % 256);
    }

    method Scalar16(at: nat, v: uint16, ghost vs: seq<seq<nat>>, ghost n: nat)
      requires n + 1 < FIELD_COUNT && Packed(vs, n) && vs[n] == [v]
      requires FieldAt(n).offset == at && FieldAt(n).width == 2 && FieldAt(n).count == 1
      modifies frame
      ensures Packed(vs, n + 1)
    {
      hide LittleEndian, EncodeField, Encode, FieldAt;
      SizeOfScalar(n);
      Put16(at, v);
      NextScalar(vs, n, v);
    }

    method Scalar32(at: nat, v: uint32, ghost vs: seq<seq<nat>>, ghost n: nat)
      requires n + 1 < FIELD_COUNT && Packed(vs, n) && vs[n] == [v]
      requires FieldAt(n).offset == at && FieldAt(n).width == 4 && FieldAt(n).count == 1
      modifies frame
      ensures Packed(vs, n + 1)
    {
      hide LittleEndian, EncodeField, Encode, FieldAt;
      SizeOfScalar(n);
      Put32(at, v);
      NextScalar(vs, n, v);
    }

    method PackHeader(hk: Housekeeping, ghost vs: seq<seq<nat>>)
      requires Valid() && vs == Values(hk, number, drops, 0)
      modifies frame
      ensures Packed(vs, 6)
    {
      hide LittleEndian, EncodeField;
      StartPacking(vs);
      hide Packed;
      Scalar32(O_SYNC, SYNC, vs, 0);
      Scalar32(O_SEQ, number, vs, 1);
      Scalar32(O_UPTIME, Uptime(hk.clock), vs, 2);
      Scalar32(O_FRAMES, hk.framesRun, vs, 3);
      Scalar16(O_FRAME_OVERRUNS, Sat16(hk.frameOverruns), vs, 4);
      Scalar16(O_SLACK, Sat16(hk.slack), vs, 5);
    }

    method PackTasks(hk: Housekeeping, ghost vs: seq<seq<nat>>)
      requires Packed(vs, 6) && vs == Values(hk, number, drops, 0) && Shaped(hk)
      modifies frame
      ensures Packed(vs, 7)
    {
      hide LittleEndian, EncodeField, Encode;
      ghost var elems := TaskOverruns(hk.taskOverruns);
      ghost var start := Encode(Fields(), vs, 6);
      EncodeNothing(1);
      for i := 0 to TASKS
        invariant frame[..O_TASK_OVERRUNS + i] == start + EncodeField(1, elems[..i])
      {
        var v: uint32 := if i < |hk.taskOverruns| then hk.taskOverruns[i] else 0;
        Put8(O_TASK_OVERRUNS + i, Sat8(v));
        EncodeFieldGrows(1, elems[..i], elems[i]);
        assert elems[..i] + [elems[i]] == elems[..i + 1];
        assert Sat8(v) % 256 == elems[i];
      }
      assert elems[..TASKS] == elems;
      NextField(vs, 6);
    }

    method PackVoter(hk: Housekeeping, ghost vs: seq<seq<nat>>)
      requires Packed(vs, 7) && vs == Values(hk, number, drops, 0)
      modifies frame
      ensures Packed(vs, 12)
    {
      hide Packed;
      Scalar16(O_REPAIRS, Sat16(hk.repairs), vs, 7);
      Scalar16(O_FAILED_VOTES, Sat16(hk.failedVotes), vs, 8);
      Scalar16(O_SUSPENSIONS, Sat16(hk.suspensions), vs, 9);
      Scalar16(O_DROPS, Sat16(drops), vs, 10);
      Scalar8(O_SHORT_BOOTS, Sat8(hk.shortBoots), vs, 11);
    }

    method PackMode(hk: Housekeeping, ghost vs: seq<seq<nat>>)
      requires Packed(vs, 12) && vs == Values(hk, number, drops, 0)
      modifies frame
      ensures Packed(vs, 16)
    {
      hide Packed;
      Scalar8(O_MODE, if hk.safe then 1 else 0, vs, 12);
      Scalar8(O_SAFE_REASON, hk.safeReason, vs, 13);
      Scalar8(O_RESET_CAUSE, hk.resetCause, vs, 14);
      Scalar8(O_SENSOR_FLAGS, hk.sensorFlags, vs, 15);
    }

    method PackSensors(hk: Housekeeping, ghost vs: seq<seq<nat>>)
      requires Packed(vs, 16) && vs == Values(hk, number, drops, 0) && Shaped(hk)
      modifies frame
      ensures Packed(vs, 17)
    {
      hide LittleEndian, EncodeField, Encode;
      ghost var start := Encode(Fields(), vs, 16);
      EncodeNothing(2);
      for i := 0 to SENSORS
        invariant frame[..O_SENSOR + i * 2] == start + EncodeField(2, hk.sensors[..i])
      {
        Put16(O_SENSOR + i * 2, hk.sensors[i]);
        EncodeFieldGrows(2, hk.sensors[..i], hk.sensors[i]);
        assert hk.sensors[..i] + [hk.sensors[i]] == hk.sensors[..i + 1];
      }
      assert hk.sensors[..SENSORS] == hk.sensors;
      NextField(vs, 16);
    }

    method PackCommands(hk: Housekeeping, ghost vs: seq<seq<nat>>)
      requires Packed(vs, 17) && vs == Values(hk, number, drops, 0) && Shaped(hk)
      modifies frame
      ensures Packed(vs, 20)
    {
      hide Packed;
      Scalar32(O_CMD_EXAMINED, hk.cmdExamined, vs, 17);
      Scalar32(O_CMD_ACCEPTED, hk.cmdAccepted, vs, 18);
      PackRejected(hk, vs);
    }

    method PackRejected(hk: Housekeeping, ghost vs: seq<seq<nat>>)
      requires Packed(vs, 19) && vs == Values(hk, number, drops, 0) && Shaped(hk)
      modifies frame
      ensures Packed(vs, 20)
    {
      hide LittleEndian, EncodeField, Encode;
      ghost var start := Encode(Fields(), vs, 19);
      EncodeNothing(4);
      for i := 0 to REASONS
        invariant frame[..O_CMD_REJECTED + i * 4] == start + EncodeField(4, hk.cmdRejected[..i])
      {
        Put32(O_CMD_REJECTED + i * 4, hk.cmdRejected[i]);
        EncodeFieldGrows(4, hk.cmdRejected[..i], hk.cmdRejected[i]);
        assert hk.cmdRejected[..i] + [hk.cmdRejected[i]] == hk.cmdRejected[..i + 1];
      }
      assert hk.cmdRejected[..REASONS] == hk.cmdRejected;
      NextField(vs, 19);
    }

    method PackTail(hk: Housekeeping, ghost vs: seq<seq<nat>>)
      requires Packed(vs, 20) && vs == Values(hk, number, drops, 0)
      modifies frame
      ensures Packed(vs, 23)
    {
      hide Packed;
      Scalar16(O_CMD_EXECUTED, Sat16(hk.cmdExecuted), vs, 20);
      Scalar8(O_CMD_QUEUED, Sat8(hk.cmdQueued), vs, 21);
      Scalar8(O_CMD_LATE, Sat8(hk.cmdLate), vs, 22);
    }

    /** The packing half of `obc_tlm_emit`: every byte of the buffer is overwritten. */
    method Pack(hk: Housekeeping)
      requires Valid() && Shaped(hk)
      modifies frame
      ensures frame[..] == Frame(hk, number, drops)
      ensures ReportsTiming(frame[..], hk, number)
      ensures ReportsHealth(frame[..], hk, drops)
      ensures ReportsCommands(frame[..], hk)
    {
      hide LittleEndian, EncodeField, IntegrityWord, Encode, ValueAt, Shaped;
      hide ReportsTiming, ReportsHealth, ReportsCommands;
      ghost var vs := Values(hk, number, drops, 0);
      PackHeader(hk, vs);
      PackTasks(hk, vs);
      PackVoter(hk, vs);
      PackMode(hk, vs);
      PackSensors(hk, vs);
      PackCommands(hk, vs);
      PackTail(hk, vs);
      LastField();
      assert frame[..O_SUM] == Payload(hk, number, drops);
      var sum := FlightSum(frame, O_SUM);
      Put16(O_SUM, sum);
      FrameShape(hk, number, drops);
      assert frame[..] == frame[..FRAME_LEN];
      FrameReportsTiming(hk, number, drops);
      FrameReportsHealth(hk, number, drops);
      FrameReportsCommands(hk, number, drops);
    }

    /**
      `obc_tlm_emit`.  A layout that failed its audit sends nothing.  Otherwise the frame
      carries the number and the drop count as they were, the number moves on, and the
      port takes a prefix of the frame: all of it on success, and a counted drop if not.  What
      it returns is success only if the clock could be read as well.
    */
    method Emit(hk: Housekeeping) returns (ok: bool, sentAll: bool)
      requires Valid() && Shaped(hk)
      modifies this, frame, port
      ensures !old(layoutOk) ==> !sentAll && unchanged(this) && unchanged(frame) && unchanged(port)
      ensures old(layoutOk) ==>
                && frame[..] == Frame(hk, old(number), old(drops))
                && ReportsTiming(frame[..], hk, old(number))
                && ReportsHealth(frame[..], hk, old(drops))
                && ReportsCommands(frame[..], hk)
                && number == Inc(old(number))
                && drops == (if sentAll then old(drops) else Inc(old(drops)))
                && dropsConsecutive == (if sentAll then 0 else Inc(old(dropsConsecutive)))
                && |old(port.sent)| <= |port.sent| <= |old(port.sent)| + FRAME_LEN
                && port.sent == old(port.sent)
                                + Frame(hk, old(number), old(drops))[..|port.sent| - |old(port.sent)|]
                && (sentAll <==> |port.sent| == |old(port.sent)| + FRAME_LEN)
      ensures layoutOk == old(layoutOk)
      ensures ok <==> sentAll && hk.clock.Some?
    {
      hide Frame, Shaped, ReportsTiming, ReportsHealth, ReportsCommands;
      if !layoutOk {
        return false, false;
      }
      Pack(hk);
      assert |Frame(hk, number, drops)| == FRAME_LEN by { assert |frame[..]| == FRAME_LEN; }
      number := Inc(number);
      sentAll := port.Write(frame[..]);
      ok := sentAll && hk.clock.Some?;
      if !sentAll {
        drops := Inc(drops);
        dropsConsecutive := Inc(dropsConsecutive);
        return;
      }
      dropsConsecutive := 0;
    }
  }

  /** One more scalar field packed. */
  lemma NextScalar(vs: seq<seq<nat>>, n: nat, v: nat)
    requires n < FIELD_COUNT == |vs| && vs[n] == [v]
    ensures Encode(Fields(), vs, n + 1) == Encode(Fields(), vs, n) + LittleEndian(v, FieldAt(n).width)
  {
    hide EncodeField, LittleEndian, FieldAt;
    OneElement(FieldAt(n).width, v);
  }

  lemma SizeOfScalar(n: nat)
    requires n + 1 < FIELD_COUNT && FieldAt(n).count == 1
    ensures FieldAt(n + 1).offset == FieldAt(n).offset + FieldAt(n).width <= FRAME_LEN
  {
  }

  lemma NextField(vs: seq<seq<nat>>, n: nat)
    requires n < FIELD_COUNT == |vs|
    ensures Encode(Fields(), vs, n + 1) == Encode(Fields(), vs, n) + EncodeField(FieldAt(n).width, vs[n])
  {
    hide EncodeField, FieldAt;
  }
}
