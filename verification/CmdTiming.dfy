/** When commands run, which are armed, and how bytes become frames, over every run. */
module CmdTiming {
  import opened Words
  import opened CmdTable
  import opened CmdFrame
  import opened Q = CmdQueue
  import opened CmdRuns

  // ---- framing ----------------------------------------------------------------------

  function Frames(exams: seq<Exam>): seq<seq<uint8>> {
    seq(|exams|, i requires 0 <= i < |exams| => exams[i].frame)
  }

  /** A burst cut into successive frames; bytes left over make one last short block. */
  function Blocks(burst: seq<uint8>): seq<seq<uint8>>
    decreases |burst|
  {
    if burst == [] then []
    else if |burst| <= FRAME_LEN then [burst]
    else [burst[..FRAME_LEN]] + Blocks(burst[FRAME_LEN..])
  }

  /** The frames a burst completes, and what stays in the buffer, so far. */
  function Whole(burst: seq<uint8>): seq<seq<uint8>>
    decreases |burst|
  {
    if |burst| < FRAME_LEN then [] else [burst[..FRAME_LEN]] + Whole(burst[FRAME_LEN..])
  }

  function Rest(burst: seq<uint8>): (r: seq<uint8>)
    ensures |r| < FRAME_LEN
    decreases |burst|
  {
    if |burst| < FRAME_LEN then burst else Rest(burst[FRAME_LEN..])
  }

  lemma {:induction false} NextByte(burst: seq<uint8>, b: uint8)
    ensures |Rest(burst)| + 1 < FRAME_LEN ==>
              Whole(burst + [b]) == Whole(burst) && Rest(burst + [b]) == Rest(burst) + [b]
    ensures |Rest(burst)| + 1 == FRAME_LEN ==>
              Whole(burst + [b]) == Whole(burst) + [Rest(burst) + [b]] && Rest(burst + [b]) == []
    decreases |burst|
  {
    if |burst| < FRAME_LEN {
      if |burst| + 1 == FRAME_LEN {
        assert (burst + [b])[..FRAME_LEN] == burst + [b] && (burst + [b])[FRAME_LEN..] == [];
      }
    } else {
      NextByte(burst[FRAME_LEN..], b);
      assert (burst + [b])[..FRAME_LEN] == burst[..FRAME_LEN];
      assert (burst + [b])[FRAME_LEN..] == burst[FRAME_LEN..] + [b];
    }
  }

  lemma {:induction false} BlocksAreWholeAndRest(burst: seq<uint8>)
    ensures Blocks(burst) == Whole(burst) + if Rest(burst) == [] then [] else [Rest(burst)]
    ensures |Blocks(burst)| == (|burst| + FRAME_LEN - 1) / FRAME_LEN
    decreases |burst|
  {
    if burst == [] {
    } else if |burst| <= FRAME_LEN {
      if |burst| == FRAME_LEN {
        assert burst[..FRAME_LEN] == burst && burst[FRAME_LEN..] == [];
      }
    } else {
      BlocksAreWholeAndRest(burst[FRAME_LEN..]);
    }
  }

  /** The receiver is this far into a burst that began with `before` already examined. */
  predicate Framed(p: Path, before: seq<seq<uint8>>, burst: seq<uint8>) {
    |p.rejected| == REJECT_COUNT && p.rx == Rest(burst) && Frames(p.exams) == before + Whole(burst)
  }

  lemma IngestFrames(p: Path, frame: seq<uint8>)
    requires |p.rejected| == REJECT_COUNT
    ensures Frames(AfterIngest(p, frame).exams) == Frames(p.exams) + [frame]
  {
    hide Verdict, AfterPut;
  }

  lemma ByteFramed(p: Path, before: seq<seq<uint8>>, burst: seq<uint8>, b: uint8)
    requires Framed(p, before, burst)
    ensures Framed(AfterByte(p, b), before, burst + [b])
  {
    hide AfterIngest, Whole, Rest, Frames;
    NextByte(burst, b);
    var rx := p.rx + [b];
    if |rx| == FRAME_LEN {
      IngestFrames(p.(rx := []), rx);
    }
  }

  lemma {:induction false} BytesFramed(p: Path, before: seq<seq<uint8>>, burst: seq<uint8>, bytes: seq<uint8>)
    requires Framed(p, before, burst)
    ensures Framed(AfterBytes(p, bytes), before, burst + bytes)
  {
    if bytes == [] {
      assert burst + bytes == burst;
    } else {
      var n := |bytes| - 1;
      BytesFramed(p, before, burst, bytes[..n]);
      assert (burst + bytes[..n]) + [bytes[n]] == burst + bytes;
      ByteFramed(AfterBytes(p, bytes[..n]), before, burst + bytes[..n], bytes[n]);
    }
  }

  /** The bytes a run of dispatches received, in order. */
  function Received(es: seq<Event>): seq<uint8> {
    if es == [] then []
    else Received(es[..|es| - 1]) + if es[|es| - 1].Dispatch? then es[|es| - 1].bytes else []
  }

  predicate NonEmptyPolls(es: seq<Event>) {
    forall i :: 0 <= i < |es| && es[i].Dispatch? ==> es[i].bytes != []
  }

  lemma {:induction false} BurstFramed(p: Path, es: seq<Event>)
    requires |p.rejected| == REJECT_COUNT && p.rx == [] && NonEmptyPolls(es)
    ensures Framed(Run(p, es), Frames(p.exams), Received(es))
  {
    if es == [] {
      assert Frames(p.exams) + Whole([]) == Frames(p.exams);
    } else {
      var prefix, last := es[..|es| - 1], es[|es| - 1];
      BurstFramed(p, prefix);
      if last.Dispatch? {
        BytesFramed(Run(p, prefix), Frames(p.exams), Received(prefix), last.bytes);
      } else {
        assert Received(es) == Received(prefix);
      }
    }
  }

  /**
    Framing does not depend on how bytes fall across dispatches.  Between two empty polls,
    however the burst was split and whatever ran or was reset in between, the frames
    examined are its successive 20-byte blocks, plus one short block if bytes were left
    over; so their number is the burst's length over twenty, rounded up.
  */
  lemma FramingIgnoresDispatches(p: Path, es: seq<Event>, now: uint32, frame: uint32)
    requires |p.rejected| == REJECT_COUNT && p.rx == [] && NonEmptyPolls(es)
    ensures var end := Run(p, es + [Dispatch([], now, frame)]);
            && end.rx == []
            && Frames(end.exams) == Frames(p.exams) + Blocks(Received(es))
            && |end.exams| == |p.exams| + (|Received(es)| + FRAME_LEN - 1) / FRAME_LEN
            && (|Received(es)| % FRAME_LEN != 0 ==> end.exams[|end.exams| - 1].reason == REJECT_LENGTH)
  {
    var whole := es + [Dispatch([], now, frame)];
    assert whole[..|es|] == es;
    BurstFramed(p, es);
    BlocksAreWholeAndRest(Received(es));
    RestLength(Received(es));
    var mid := Run(p, es);
    EmptyPollFrames(mid);
    hide AfterPoll, AfterRun, Blocks, Whole, Rest;
    assert |Frames(Run(p, whole).exams)| == |Run(p, whole).exams|;
  }

  lemma EmptyPollFrames(p: Path)
    requires |p.rejected| == REJECT_COUNT && |p.rx| < FRAME_LEN
    ensures var end := AfterPoll(p, []);
            && end.rx == []
            && Frames(end.exams) == Frames(p.exams) + (if p.rx == [] then [] else [p.rx])
            && (p.rx != [] ==> end.exams == p.exams + [Exam(p.rx, REJECT_LENGTH)])
  {
  }

  lemma {:induction false} RestLength(burst: seq<uint8>)
    ensures |Rest(burst)| == |burst| % FRAME_LEN
    decreases |burst|
  {
    if |burst| >= FRAME_LEN {
      RestLength(burst[FRAME_LEN..]);
    }
  }

  // ---- replay ---------------------------------------------------------------------------

  /** The counters of accepted frames, in order of acceptance, all rise, up to `last`. */
  ghost predicate CountersRise(p: Path) {
    && (forall i :: 0 <= i < |p.exams| && p.exams[i].reason == ACCEPTED ==>
          |p.exams[i].frame| == FRAME_LEN && EntryOf(p.exams[i].frame).counter <= p.lastCounter)
    && (forall i, j :: 0 <= i < j < |p.exams| && p.exams[i].reason == ACCEPTED && p.exams[j].reason == ACCEPTED ==>
          EntryOf(p.exams[i].frame).counter < EntryOf(p.exams[j].frame).counter)
  }

  lemma IngestCounters(p: Path, frame: seq<uint8>)
    requires |p.rejected| == REJECT_COUNT && CountersRise(p)
    ensures CountersRise(AfterIngest(p, frame))
  {
    if Verdict(p, frame) == ACCEPTED {
      AcceptedEntry(p, frame);
    }
    hide Verdict, AfterPut, EntryOf, Lookup;
  }

  lemma {:induction false} BytesCounters(p: Path, bytes: seq<uint8>)
    requires |p.rejected| == REJECT_COUNT && |p.rx| < FRAME_LEN && CountersRise(p)
    ensures CountersRise(AfterBytes(p, bytes))
  {
    hide AfterIngest, CountersRise;
    if bytes == [] {
    } else {
      var n := |bytes| - 1;
      BytesCounters(p, bytes[..n]);
      var q := AfterBytes(p, bytes[..n]);
      RisePerState(q, q.(rx := []));
      RisePerState(q, q.(rx := q.rx + [bytes[n]]));
      IngestCounters(q.(rx := []), q.rx + [bytes[n]]);
    }
  }

  lemma RisePerState(p: Path, q: Path)
    requires CountersRise(p) && q.exams == p.exams && q.lastCounter == p.lastCounter
    ensures CountersRise(q)
  {
  }

  /** A replayed or repeated counter is never accepted twice in one boot. */
  lemma {:induction false} AcceptedCountersRise(es: seq<Event>)
    ensures CountersRise(Run(BOOT, es))
  {
    hide CountersRise, AfterBytes, AfterRun, AfterReset;
    if es == [] {
      NothingExamined(BOOT);
    } else {
      var p := Run(BOOT, es[..|es| - 1]);
      AcceptedCountersRise(es[..|es| - 1]);
      match es[|es| - 1] {
        case Dispatch(bytes, now, frame) =>
          BytesCounters(p, bytes);
          RisePerState(p, p.(rx := []));
          RefusalCounters(p.(rx := []), p.rx);
          RisePerState(AfterPoll(p, bytes), Run(BOOT, es));
        case QueueReset =>
          RisePerState(p, Run(BOOT, es));
      }
    }
  }

  lemma NothingExamined(p: Path)
    requires p.exams == []
    ensures CountersRise(p)
  {
  }

  lemma RefusalCounters(p: Path, frame: seq<uint8>)
    requires |p.rejected| == REJECT_COUNT && CountersRise(p)
    ensures CountersRise(Refused(p, frame, REJECT_LENGTH))
  {
    hide EntryOf;
  }
}
