/** The ground's frame builder (harness/runner/uplink.py) against the vehicle's parser. */
module Uplink {
  import opened Words
  import opened FrameSum
  import opened CmdTable
  import opened CmdFrame
  import Q = CmdQueue

  /** The keywords of `build`. */
  datatype Fields = Fields(sync: uint32, counter: uint32, length: uint8, opcode: uint8,
                           when: uint32, arg: uint32, corruptSum: bool)

  function Body(f: Fields): (b: seq<uint8>)
    ensures |b| == O_SUM
  {
    LittleEndian(f.sync, 4) + LittleEndian(f.counter, 4) + [f.length, f.opcode]
    + LittleEndian(f.when, 4) + LittleEndian(f.arg, 4)
  }

  function SumOf(f: Fields): uint16 {
    var word := IntegrityWord(Body(f));
    if !f.corruptSum then word else if word % 2 == 0 then word + 1 else word - 1
  }

  function Frame(f: Fields): (b: seq<uint8>)
    ensures |b| == FRAME_LEN
  {
    Body(f) + LittleEndian(SumOf(f), 2)
  }

  /** One field stored into the buffer at its offset. */
  method Put(buf: array<uint8>, at: nat, bytes: seq<uint8>)
    requires at + |bytes| <= buf.Length
    modifies buf
    ensures buf[..at + |bytes|] == old(buf[..at]) + bytes
    ensures buf[at + |bytes|..] == old(buf[at + |bytes|..])
  {
    for i := 0 to |bytes|
      invariant forall k :: 0 <= k < i ==> buf[at + k] == bytes[k]
      invariant forall k :: 0 <= k < buf.Length && !(at <= k < at + i) ==> buf[k] == old(buf[k])
    {
      buf[at + i] := bytes[i];
    }
  }

  /** `build`: fill the buffer field by field, then the word over what precedes it. */
  method Build(f: Fields) returns (frame: seq<uint8>)
    ensures frame == Frame(f)
  {
    hide IntegrityWord, LittleEndian;
    var buf := new uint8[20](_ => 0);
    Put(buf, O_SYNC, LittleEndian(f.sync, 4));
    Put(buf, O_COUNTER, LittleEndian(f.counter, 4));
    Put(buf, O_LENGTH, [f.length]);
    Put(buf, O_OPCODE, [f.opcode]);
    Put(buf, O_WHEN, LittleEndian(f.when, 4));
    Put(buf, O_ARG, LittleEndian(f.arg, 4));
    assert buf[..O_SUM] == Body(f);
    var word := GroundSum(buf[..], O_SUM);
    assert buf[..][..O_SUM] == buf[..O_SUM];
    if f.corruptSum {
      word := if word % 2 == 0 then word + 1 else word - 1;
    }
    Put(buf, O_SUM, LittleEndian(word, 2));
    frame := buf[..];
    assert frame == buf[..FRAME_LEN];
  }

  /** Seven fields one after another, cut apart again. */
  lemma Cuts(sync: seq<uint8>, counter: seq<uint8>, middle: seq<uint8>, when: seq<uint8>, arg: seq<uint8>,
             sum: seq<uint8>)
    requires |sync| == 4 && |counter| == 4 && |middle| == 2 && |when| == 4 && |arg| == 4 && |sum| == 2
    ensures var body := sync + counter + middle + when + arg;
            var b := body + sum;
            && b[..18] == body && b[18..20] == sum
            && b[0..4] == sync && b[4..8] == counter && b[8] == middle[0] && b[9] == middle[1]
            && b[10..14] == when && b[14..18] == arg
  {
    var body := sync + counter + middle + when + arg;
    var b := body + sum;
    assert b[..18] == body && b[18..] == sum && b[18..20] == b[18..];
    assert body[0..4] == sync && body[4..8] == counter && body[10..14] == when && body[14..18] == arg;
    assert b[0..4] == body[0..4] && b[4..8] == body[4..8] && b[10..14] == body[10..14] && b[14..18] == body[14..18];
  }

  /** Every field the vehicle reads is the one the ground wrote. */
  lemma FrameReadsBack(f: Fields)
    ensures var b := Frame(f);
            && Word32(b, O_SYNC) == f.sync && b[O_LENGTH] == f.length
            && EntryOf(b) == Q.Slot(f.when, f.arg, f.counter, f.opcode, true)
            && b[..O_SUM] == Body(f) && Word16(b, O_SUM) == SumOf(f)
  {
    hide LittleEndian, FromLittleEndian, IntegrityWord;
    var b := Frame(f);
    SpanValues();
    UnpackPack(f.sync, 4);
    UnpackPack(f.counter, 4);
    UnpackPack(f.when, 4);
    UnpackPack(f.arg, 4);
    UnpackPack(SumOf(f), 2);
    Cuts(LittleEndian(f.sync, 4), LittleEndian(f.counter, 4), [f.length, f.opcode],
         LittleEndian(f.when, 4), LittleEndian(f.arg, 4), LittleEndian(SumOf(f), 2));
  }

  lemma SpanValues()
    ensures Span(1) == 0x100 && Span(2) == 0x1_0000 && Span(4) == 0x1_0000_0000
  {
    assert Span(3) == 256 * Span(2);
  }

  /** The vehicle's verdict on a built frame, told from the builder's keywords alone. */
  function FieldVerdict(p: Path, f: Fields): Reason {
    if f.sync != 0x5A3CA5C3 then 0
    else if f.length != 20 then 1
    else if f.corruptSum then 2
    else if forall cmd :: cmd in TABLE ==> cmd.opcode != f.opcode then 3
    else if exists cmd :: cmd in TABLE && cmd.opcode == f.opcode && !(cmd.argMin <= f.arg <= cmd.argMax) then 4
    else if f.counter <= p.lastCounter then 5
    else if (exists cmd :: cmd in TABLE && cmd.opcode == f.opcode && cmd.critical) && p.queue.armedOpcode != f.opcode
    then 7
    else if forall s :: s in p.queue.slots ==> s.occupied then 6
    else 8
  }

  /** Parser and builder agree on every combination of keywords. */
  lemma BuiltFrameVerdict(p: Path, f: Fields)
    ensures Verdict(p, Frame(f)) == FieldVerdict(p, f)
    ensures Verdict(p, Frame(f)) == ACCEPTED ==>
              EntryOf(Frame(f)) == Q.Slot(f.when, f.arg, f.counter, f.opcode, true)
  {
    FrameReadsBack(f);
    VerdictMeans(p, Frame(f));
    LookupIsTable(f.opcode);
    hide Verdict, Lookup, IntegrityWord, FromLittleEndian, Frame;
  }

  /** Every frame whose word checks is what `build` makes of some keywords. */
  lemma WellFormedIsBuilt(b: seq<uint8>)
    requires |b| == FRAME_LEN && Word16(b, O_SUM) == IntegrityWord(b[..O_SUM])
    ensures b == Frame(Fields(Word32(b, O_SYNC), Word32(b, O_COUNTER), b[O_LENGTH], b[O_OPCODE],
                              Word32(b, O_WHEN), Word32(b, O_ARG), false))
  {
    hide LittleEndian, FromLittleEndian, IntegrityWord;
    var f := Fields(Word32(b, O_SYNC), Word32(b, O_COUNTER), b[O_LENGTH], b[O_OPCODE],
                    Word32(b, O_WHEN), Word32(b, O_ARG), false);
    PackUnpack(b[0..4]);
    PackUnpack(b[4..8]);
    PackUnpack(b[10..14]);
    PackUnpack(b[14..18]);
    PackUnpack(b[18..20]);
    assert Body(f) == b[0..4] + b[4..8] + [b[8], b[9]] + b[10..14] + b[14..18] == b[..O_SUM];
    assert Frame(f) == b[..O_SUM] + b[18..20] == b;
  }

  /** Hence: a frame is accepted exactly when it is a build of valid keywords. */
  lemma AcceptedExactlyWhenBuilt(p: Path, b: seq<uint8>)
    ensures Verdict(p, b) == ACCEPTED <==> exists f :: b == Frame(f) && FieldVerdict(p, f) == ACCEPTED
  {
    hide FieldVerdict, EntryVerdict, IntegrityWord, Frame;
    if Verdict(p, b) == ACCEPTED {
      WellFormedIsBuilt(b);
      var f := Fields(Word32(b, O_SYNC), Word32(b, O_COUNTER), b[O_LENGTH], b[O_OPCODE],
                      Word32(b, O_WHEN), Word32(b, O_ARG), false);
      BuiltFrameVerdict(p, f);
    }
    forall f | b == Frame(f) && FieldVerdict(p, f) == ACCEPTED ensures Verdict(p, b) == ACCEPTED {
      BuiltFrameVerdict(p, f);
    }
  }

  /** A frame with nothing wrong but perhaps its argument. */
  lemma ArgumentDecides(p: Path, f: Fields, cmd: Command)
    requires Lookup(f.opcode) == Some(cmd)
    requires f.sync == SYNC && f.length == FRAME_LEN && !f.corruptSum
    requires f.counter > p.lastCounter && !Q.Full(p.queue.slots)
    requires cmd.critical ==> p.queue.armedOpcode == f.opcode
    ensures Verdict(p, Frame(f)) == if cmd.argMin <= f.arg <= cmd.argMax then ACCEPTED else REJECT_ARG
  {
    BuiltFrameVerdict(p, f);
    LookupIsTable(f.opcode);
    hide Verdict, Frame, Lookup;
  }

  /** `boundary_arguments`: one either side of each declared bound, and what must happen. */
  lemma BoundaryArguments(p: Path, f: Fields, cmd: Command)
    requires Lookup(f.opcode) == Some(cmd)
    requires f.sync == SYNC && f.length == FRAME_LEN && !f.corruptSum
    requires f.counter > p.lastCounter && !Q.Full(p.queue.slots)
    requires cmd.critical ==> p.queue.armedOpcode == f.opcode
    ensures Verdict(p, Frame(f.(arg := cmd.argMin))) == ACCEPTED
    ensures Verdict(p, Frame(f.(arg := cmd.argMax))) == ACCEPTED
    ensures Verdict(p, Frame(f.(arg := cmd.argMin + (cmd.argMax - cmd.argMin) / 2))) == ACCEPTED
    ensures cmd.argMin > 0 ==> Verdict(p, Frame(f.(arg := cmd.argMin - 1))) == REJECT_ARG
    ensures cmd.argMax < U32_MAX ==> Verdict(p, Frame(f.(arg := cmd.argMax + 1))) == REJECT_ARG
  {
    ArgumentRange(f.opcode);
    hide Verdict, Frame, Lookup, Q.Full;
    ArgumentDecides(p, f.(arg := cmd.argMin), cmd);
    ArgumentDecides(p, f.(arg := cmd.argMax), cmd);
    ArgumentDecides(p, f.(arg := cmd.argMin + (cmd.argMax - cmd.argMin) / 2), cmd);
    if cmd.argMin > 0 { ArgumentDecides(p, f.(arg := cmd.argMin - 1), cmd); }
    if cmd.argMax < U32_MAX { ArgumentDecides(p, f.(arg := cmd.argMax + 1), cmd); }
  }

  lemma ArgumentRange(opcode: uint8)
    requires Lookup(opcode).Some?
    ensures Lookup(opcode).value.argMin <= Lookup(opcode).value.argMax
  {
  }

  /**
    Change any one byte of a well-formed frame and it is refused, in every state: for its
    sync, its length or its sum, according to where the byte was.
  */
  lemma SingleByteChangeRefused(p: Path, b: seq<uint8>, at: nat, byte: uint8)
    requires |b| == FRAME_LEN && Word32(b, O_SYNC) == SYNC && b[O_LENGTH] == FRAME_LEN
    requires Word16(b, O_SUM) == IntegrityWord(b[..O_SUM])
    requires at < FRAME_LEN && byte != b[at]
    ensures Verdict(p, b[at := byte])
         == if at < O_COUNTER then REJECT_SYNC else if at == O_LENGTH then REJECT_LENGTH else REJECT_SUM
  {
    var c := b[at := byte];
    hide LittleEndian, FromLittleEndian, IntegrityWord;
    if at < 4 {
      assert c[0..4] == b[0..4][at := byte];
      FieldChanges(b[0..4], at, byte);
    } else {
      assert c[0..4] == b[0..4];
      if at < O_SUM {
        assert c[..O_SUM] == b[..O_SUM][at := byte];
        SingleByteChangesWord(b[..O_SUM], at, byte);
        assert c[18..20] == b[18..20];
      } else {
        assert c[..O_SUM] == b[..O_SUM];
        assert c[18..20] == b[18..20][at - 18 := byte];
        FieldChanges(b[18..20], at - 18, byte);
      }
    }
  }

  lemma FieldChanges(bytes: seq<uint8>, at: nat, byte: uint8)
    requires at < |bytes| && byte != bytes[at]
    ensures FromLittleEndian(bytes[at := byte]) != FromLittleEndian(bytes)
  {
    hide LittleEndian, FromLittleEndian;
    PackUnpack(bytes);
    PackUnpack(bytes[at := byte]);
    assert bytes[at := byte][at] != bytes[at];
  }
}
