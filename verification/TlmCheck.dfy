/**
  The ground's sequence check (harness/runner/tlm_check.py, `check_sequence`) against
  every run of emissions, and the whole downlink from emission to decoded capture.
*/
module TlmCheck {
  import opened Words
  import opened TlmLayout
  import opened TlmDecode
  import opened TlmEmit
  import S = Sensor

  /** The two numbers of a decoded frame that the check reads. */
  datatype Report = Report(number: nat, dropped: nat)

  /** The next frame follows, restarts from zero, or leaves a gap the drop counter accounts for. */
  predicate PairOk(previous: Report, current: Report) {
    var gap: int := current.number - previous.number - 1;
    || gap == 0
    || current.number == 0
    || (gap > 0 && current.dropped - previous.dropped == gap)
  }

  predicate SequenceOk(frames: seq<Report>) {
    forall k :: 0 < k < |frames| ==> PairOk(frames[k - 1], frames[k])
  }

  predicate IsRestart(previous: Report, current: Report) {
    current.number != previous.number + 1 && current.number == 0
  }

  function Restarts(frames: seq<Report>): nat {
    if |frames| < 2 then 0
    else
      var n := |frames| - 1;
      Restarts(frames[..n]) + if IsRestart(frames[n - 1], frames[n]) then 1 else 0
  }

  lemma RestartsOfFew(frames: seq<Report>)
    requires |frames| < 2
    ensures Restarts(frames) == 0
  {
  }

  lemma RestartsStep(frames: seq<Report>, k: nat)
    requires 0 < k < |frames|
    ensures Restarts(frames[..k + 1]) ==
            Restarts(frames[..k]) + if IsRestart(frames[k - 1], frames[k]) then 1 else 0
  {
    assert frames[..k + 1][..k] == frames[..k];
  }

  /** One turn of the loop: whether the pair is accepted, and whether it is a reset. */
  method CheckPair(previous: Report, current: Report) returns (ok: bool, reset: bool)
    ensures ok <==> PairOk(previous, current)
    ensures reset <==> IsRestart(previous, current)
  {
    if current.number == previous.number + 1 {
      return true, false;
    }
    if current.number == 0 {
      return true, true;
    }
    var gap: int := current.number - previous.number - 1;
    var dropped: int := current.dropped - previous.dropped;
    return gap > 0 && dropped == gap, false;
  }

  lemma PairsInFull(frames: seq<Report>)
    ensures SequenceOk(frames) <==>
            forall k :: 0 < k < |frames| ==>
              || frames[k].number == frames[k - 1].number + 1 || frames[k].number == 0
              || (frames[k].number > frames[k - 1].number + 1
                  && frames[k].number - frames[k - 1].number - 1 == frames[k].dropped - frames[k - 1].dropped)
  {
  }

  /** The restarts are the zeros after the first frame. */
  lemma {:induction false} RestartsAreZeros(frames: seq<Report>)
    ensures Restarts(frames) == |set k | 0 < k < |frames| && frames[k].number == 0|
  {
    var zeros := set k | 0 < k < |frames| && frames[k].number == 0;
    if |frames| < 2 {
      assert zeros == {};
    } else {
      var n := |frames| - 1;
      RestartsAreZeros(frames[..n]);
      var before := set k | 0 < k < n && frames[..n][k].number == 0;
      assert zeros == before + if frames[n].number == 0 then {n} else {};
    }
  }

  /**
    `check_sequence`: the resets observed, or nothing where the Python raises.  Each frame
    carries the next number, or zero, or one further by as many as were dropped since.
  */
  method CheckSequence(frames: seq<Report>) returns (r: Option<nat>)
    ensures r.Some? <==>
            forall k :: 0 < k < |frames| ==>
              || frames[k].number == frames[k - 1].number + 1 || frames[k].number == 0
              || (frames[k].number > frames[k - 1].number + 1
                  && frames[k].number - frames[k - 1].number - 1 == frames[k].dropped - frames[k - 1].dropped)
    ensures r.Some? ==> r.value == |set k | 0 < k < |frames| && frames[k].number == 0|
    ensures r.Some? <==> SequenceOk(frames)
    ensures r.Some? ==> r.value == Restarts(frames)
  {
    RestartsAreZeros(frames);
    PairsInFull(frames);
    hide PairOk, IsRestart, Restarts;
    var resets, k := 0, 1;
    assert Restarts(frames[..Min(1, |frames|)]) == 0 by { RestartsOfFew(frames[..Min(1, |frames|)]); }
    while k < |frames|
      invariant 1 <= k
      invariant forall j :: 0 < j < k && j < |frames| ==> PairOk(frames[j - 1], frames[j])
      invariant resets == Restarts(frames[..Min(k, |frames|)])
    {
      RestartsStep(frames, k);
      var ok, reset := CheckPair(frames[k - 1], frames[k]);
      if !ok {
        return None;
      }
      resets := resets + if reset then 1 else 0;
      k := k + 1;
    }
    assert frames[..|frames|] == frames;
    return Some(resets);
  }

  // ---- runs of emissions --------------------------------------------------------------

  /** What can happen to the telemetry subsystem: an emission, sent whole or dropped, or rung 2. */
  datatype Event = Emission(sentAll: bool) | SubsystemReset

  datatype Counters = Counters(number: uint32, drops: uint32)

  /** `obc_tlm_emit` and `obc_tlm_subsystem_reset` on the two counters. */
  function Step(c: Counters, e: Event): Counters {
    match e
    case Emission(sentAll) => Counters(Inc(c.number), if sentAll then c.drops else Inc(c.drops))
    case SubsystemReset => c.(number := 0)
  }

  function Run(c: Counters, es: seq<Event>): Counters {
    if es == [] then c else Step(Run(c, es[..|es| - 1]), es[|es| - 1])
  }

  /** What a frame emitted in this state reports. */
  function Reported(c: Counters): Report {
    Report(c.number, Sat16(c.drops))
  }

  /** The reports of the frames that went out whole. */
  function SentReports(c: Counters, es: seq<Event>): seq<Report> {
    if es == [] then []
    else
      var prefix := es[..|es| - 1];
      SentReports(c, prefix) + if es[|es| - 1] == Emission(true) then [Reported(Run(c, prefix))] else []
  }

  /** Neither counter reaches its ceiling during the run. */
  predicate Unsaturated(c: Counters, n: nat) {
    c.number + n < 0x1_0000_0000 && c.drops + n < 0xFFFF
  }

  predicate NoReset(es: seq<Event>) {
    forall k :: 0 <= k < |es| ==> es[k].Emission?
  }

  /** What separates two sent frames: exactly as many numbers as the drop counter grew by. */
  predicate GapIsDrops(previous: Report, current: Report) {
    current.number - previous.number - 1 == current.dropped - previous.dropped
  }

  predicate GapsEqualDrops(frames: seq<Report>) {
    forall k :: 0 < k < |frames| ==> GapIsDrops(frames[k - 1], frames[k])
  }

  /** Where the counters are after a run of emissions, and what its last sent frame said. */
  predicate Accounted(c: Counters, n: nat, end: Counters, sent: seq<Report>) {
    && end.number == c.number + n && c.drops <= end.drops <= c.drops + n
    && (sent != [] ==>
          var last := sent[|sent| - 1];
          && last.number < end.number && last.dropped <= end.drops
          && end.number - last.number - 1 == end.drops - last.dropped)
  }

  lemma EmissionKeepsAccount(c: Counters, n: nat, end: Counters, sent: seq<Report>, sentAll: bool)
    requires Accounted(c, n, end, sent) && Unsaturated(c, n + 1)
    ensures Accounted(c, n + 1, Step(end, Emission(sentAll)), if sentAll then sent + [Reported(end)] else sent)
    ensures sent != [] && sentAll ==>
              var last := sent[|sent| - 1];
              PairOk(last, Reported(end)) && !IsRestart(last, Reported(end)) && GapIsDrops(last, Reported(end))
  {
  }

  lemma AppendKeepsPairs(sent: seq<Report>, now: Report)
    requires SequenceOk(sent) && GapsEqualDrops(sent)
    requires sent != [] ==> PairOk(sent[|sent| - 1], now) && GapIsDrops(sent[|sent| - 1], now)
    ensures SequenceOk(sent + [now]) && GapsEqualDrops(sent + [now])
  {
    hide PairOk, GapIsDrops;
    var s := sent + [now];
    forall k | 0 < k < |s| ensures PairOk(s[k - 1], s[k]) && GapIsDrops(s[k - 1], s[k]) {
      if k < |sent| {
        assert s[k - 1] == sent[k - 1] && s[k] == sent[k];
      }
    }
  }

  lemma AppendKeepsSequence(sent: seq<Report>, now: Report)
    requires SequenceOk(sent) && Restarts(sent) == 0 && GapsEqualDrops(sent)
    requires sent != [] ==>
               var last := sent[|sent| - 1];
               PairOk(last, now) && !IsRestart(last, now) && GapIsDrops(last, now)
    ensures SequenceOk(sent + [now]) && Restarts(sent + [now]) == 0 && GapsEqualDrops(sent + [now])
  {
    hide PairOk, IsRestart, GapIsDrops, SequenceOk, GapsEqualDrops;
    AppendKeepsPairs(sent, now);
    assert (sent + [now])[..|sent|] == sent;
  }

  lemma {:induction false} GapsAreDrops(c: Counters, es: seq<Event>)
    requires Unsaturated(c, |es|) && NoReset(es)
    ensures Accounted(c, |es|, Run(c, es), SentReports(c, es))
    ensures var sent := SentReports(c, es); SequenceOk(sent) && Restarts(sent) == 0 && GapsEqualDrops(sent)
  {
    hide SequenceOk, PairOk, IsRestart, Reported, Step, GapsEqualDrops, GapIsDrops;
    if es == [] {
      NothingSent();
    } else {
      var prefix, last := es[..|es| - 1], es[|es| - 1];
      GapsAreDrops(c, prefix);
      var end, sent := Run(c, prefix), SentReports(c, prefix);
      EmissionKeepsAccount(c, |prefix|, end, sent, last.sentAll);
      if last.sentAll {
        AppendKeepsSequence(sent, Reported(end));
        assert SentReports(c, es) == sent + [Reported(end)];
      } else {
        assert SentReports(c, es) == sent;
      }
    }
  }

  lemma NothingSent()
    ensures SequenceOk([]) && Restarts([]) == 0 && GapsEqualDrops([])
  {
  }

  /**
    Between consecutive fully sent frames with no subsystem reset and no saturation the gap
    in the numbers is exactly the growth of the drop counter; so the check passes and counts
    no reset.
  */
  lemma NoFrameLostUnaccounted(c: Counters, es: seq<Event>)
    requires Unsaturated(c, |es|) && NoReset(es)
    ensures var s := SentReports(c, es);
            && (forall k :: 0 < k < |s| ==> s[k].number - s[k - 1].number - 1 == s[k].dropped - s[k - 1].dropped)
            && SequenceOk(s) && Restarts(s) == 0
  {
    GapsAreDrops(c, es);
    hide SequenceOk, Restarts, SentReports, Accounted;
  }

  predicate NoneSent(es: seq<Event>) {
    forall k :: 0 <= k < |es| ==> es[k] != Emission(true)
  }

  /** Frames dropped since the last reset; all of them if there was none. */
  function DroppedSinceReset(es: seq<Event>): nat {
    if es == [] || es[|es| - 1].SubsystemReset? then 0
    else DroppedSinceReset(es[..|es| - 1]) + 1
  }

  /** Where the counters are after a run in which no frame got out whole. */
  predicate AllDropped(c: Counters, es: seq<Event>, end: Counters) {
    && DroppedSinceReset(es) <= end.drops - c.drops <= |es|
    && (if NoReset(es) then end.number == c.number + |es| && end.drops == c.drops + |es|
        else end.number == DroppedSinceReset(es))
  }

  lemma NoResetAppend(es: seq<Event>, e: Event)
    ensures NoReset(es + [e]) <==> NoReset(es) && e.Emission?
  {
    if NoReset(es + [e]) {
      assert (es + [e])[|es|] == e;
      forall k | 0 <= k < |es| ensures es[k].Emission? {
        assert (es + [e])[k] == es[k];
      }
    }
  }

  lemma DropKeeps(c: Counters, es: seq<Event>, end: Counters, e: Event)
    requires AllDropped(c, es, end) && Unsaturated(c, |es| + 1) && e != Emission(true)
    ensures AllDropped(c, es + [e], Step(end, e))
  {
    assert (es + [e])[..|es|] == es;
    NoResetAppend(es, e);
    hide NoReset;
  }

  lemma {:induction false} AcrossReset(c: Counters, es: seq<Event>)
    requires Unsaturated(c, |es|) && NoneSent(es)
    ensures AllDropped(c, es, Run(c, es))
  {
    if es == [] {
    } else {
      hide AllDropped, Step;
      var prefix, last := es[..|es| - 1], es[|es| - 1];
      AcrossReset(c, prefix);
      DropKeeps(c, prefix, Run(c, prefix), last);
      assert prefix + [last] == es;
    }
  }

  lemma PairCases(c: Counters, between: seq<Event>, end: Counters)
    requires Unsaturated(c, |between| + 2) && AllDropped(Step(c, Emission(true)), between, end)
    ensures PairOk(Reported(c), Reported(end)) <==>
            NoReset(between) || DroppedSinceReset(between) == 0 || DroppedSinceReset(between) == c.number + 1
    ensures IsRestart(Reported(c), Reported(end)) <==> !NoReset(between) && DroppedSinceReset(between) == 0
  {
    hide NoReset, DroppedSinceReset;
  }

  /** A reset with no drop since is a reset that came last. */
  lemma ResetCameLast(es: seq<Event>)
    ensures !NoReset(es) && DroppedSinceReset(es) == 0 <==> es != [] && es[|es| - 1].SubsystemReset?
  {
  }

  /**
    Exactly when the check accepts two consecutively sent frames, whatever came between.
    It accepts unless a subsystem reset was followed by dropped frames: then the next
    frame to get through has a number above zero, and its gap, counted from before the
    reset, matches no drop count.  So a congested link right after rung 2 reads as a loss.
    It counts a restart exactly when a reset came directly before the second frame.
  */
  lemma PairAcceptedExactlyWhen(c: Counters, between: seq<Event>)
    requires Unsaturated(c, |between| + 2) && NoneSent(between)
    ensures var first := Reported(c);
            var second := Reported(Run(Step(c, Emission(true)), between));
            && (PairOk(first, second) <==>
                NoReset(between) || DroppedSinceReset(between) == 0 || DroppedSinceReset(between) == c.number + 1)
            && (IsRestart(first, second) <==> between != [] && between[|between| - 1].SubsystemReset?)
  {
    ResetCameLast(between);
    hide Run, PairOk, IsRestart, Reported, NoReset, DroppedSinceReset, AllDropped;
    AcrossReset(Step(c, Emission(true)), between);
    PairCases(c, between, Run(Step(c, Emission(true)), between));
  }

  /** Frame 5 goes out, the subsystem is reset, the next frame is dropped, and the one after reads as a loss. */
  lemma CongestedResetLooksLost()
    ensures var c, between := Counters(5, 0), [SubsystemReset, Emission(false)];
            && Unsaturated(c, |between| + 2) && NoneSent(between)
            && !PairOk(Reported(c), Reported(Run(Step(c, Emission(true)), between)))
  {
    var between := [SubsystemReset, Emission(false)];
    assert between[..1] == [SubsystemReset] && between[..1][..0] == [];
    var c1 := Step(Counters(5, 0), Emission(true));
    assert Run(c1, []) == c1;
    assert Run(c1, between[..1]) == Counters(0, 0);
    assert Run(c1, between) == Counters(1, 1);
  }

  // ---- from emission to decoded capture ---------------------------------------------------

  /** One emission with what it reported and how many of its bytes the port took. */
  datatype Emitted = Emitted(hk: Housekeeping, number: uint32, drops: uint32, taken: nat)

  predicate Plausible(e: Emitted) {
    Shaped(e.hk) && e.taken <= FRAME_LEN
  }

  /** What one emission leaves on the line: a whole frame, or a piece of one. */
  function OnTheLine(e: Emitted): Segment
    requires Plausible(e)
  {
    FrameShape(e.hk, e.number, e.drops);
    var frame := Frame(e.hk, e.number, e.drops);
    if e.taken == FRAME_LEN then Sent(frame) else Noise(frame[..e.taken])
  }

  function Line(es: seq<Emitted>): (segs: seq<Segment>)
    requires forall k :: 0 <= k < |es| ==> Plausible(es[k])
    ensures |segs| == |es|
  {
    seq(|es|, k requires 0 <= k < |es| => OnTheLine(es[k]))
  }

  /** The emissions that went out whole, in order. */
  function Whole(es: seq<Emitted>): seq<Emitted> {
    if es == [] then [] else (if es[0].taken == FRAME_LEN then [es[0]] else []) + Whole(es[1..])
  }

  lemma {:induction false} WholeAreSent(es: seq<Emitted>)
    requires forall k :: 0 <= k < |es| ==> Plausible(es[k])
    ensures |SentFrames(Line(es))| == |Whole(es)|
    ensures forall k :: 0 <= k < |Whole(es)| ==>
              Shaped(Whole(es)[k].hk)
              && SentFrames(Line(es))[k] == Frame(Whole(es)[k].hk, Whole(es)[k].number, Whole(es)[k].drops)
  {
    hide Frame, Shaped;
    if es != [] {
      WholeAreSent(es[1..]);
      assert Line(es)[1..] == Line(es[1..]);
      assert SentFrames(Line(es))
          == (if Line(es)[0].Sent? then [Line(es)[0].frame] else []) + SentFrames(Line(es[1..]));
    }
  }

  /**
    The downlink, end to end.  Whatever the pattern of refusals, as long as no piece of a
    dropped frame passes for a frame, the ground's search over the captured bytes returns
    exactly the frames that went out whole, in order, and decodes each to the saturated or
    masked state it was emitted from.
  */
  lemma CaptureTellsWhatWasSent(es: seq<Emitted>)
    requires forall k :: 0 <= k < |es| ==> Plausible(es[k])
    requires NoiseIsQuiet(Stream(Line(es)), Line(es), 0, ShippedLayout(), SUM_FIELD)
    ensures var stream := Stream(Line(es));
            var found := FoundAll(stream, Scan(stream, 0, ShippedLayout(), SUM_FIELD), ShippedLayout());
            && |found| == |Whole(es)|
            && forall k :: 0 <= k < |found| ==> DecodedAs(found[k].values, Whole(es)[k])
  {
    hide Shaped, Frame, WellFormed, Scan, NoiseIsQuiet, Stream;
    var stream, segs := Stream(Line(es)), Line(es);
    forall k | 0 <= k < |segs| && segs[k].Sent? ensures WellFormed(segs[k].frame, ShippedLayout(), SUM_FIELD) {
      assert Plausible(es[k]);
      EmittedFrameDecodes(es[k].hk, es[k].number, es[k].drops);
    }
    assert stream[0..] == stream;
    CaptureDecodes(stream, segs, 0, ShippedLayout(), SUM_FIELD);
    WholeAreSent(es);
    var offsets := SentOffsets(segs, 0);
    forall k | 0 <= k < |offsets| ensures DecodedAs(FoundAt(stream, offsets[k], ShippedLayout()).values, Whole(es)[k]) {
      var w := Whole(es)[k];
      var frame := SentFrames(segs)[k];
      assert Slice(stream, offsets[k], offsets[k] + FRAME_LEN) == frame;
      EmittedFrameDecodes(w.hk, w.number, w.drops);
    }
  }

  /** These decoded values are the state that emission reported. */
  predicate DecodedAs(values: seq<seq<nat>>, e: Emitted) {
    exists sum: uint16 :: values == Values(e.hk, e.number, e.drops, sum)
  }

  // ---- flagged, not propagated ---------------------------------------------------------------

  /** What a decoded frame says of the sensors. */
  datatype SensorReport = SensorReport(flags: nat, readings: seq<nat>)

  function Weight(sensor: nat, bit: nat): (w: nat)
    ensures w > 0
  {
    if sensor == 0 then if bit == 0 then 1 else if bit == 1 then 2 else 4
    else if bit == 0 then 8 else if bit == 1 then 16 else 32
  }

  predicate FlagUp(flags: nat, sensor: nat, bit: nat) {
    flags / Weight(sensor, bit) % 2 == 1
  }

  predicate Flagged(flags: nat, sensor: nat) {
    FlagUp(flags, sensor, 0) || FlagUp(flags, sensor, 1) || FlagUp(flags, sensor, 2)
  }

  /** A flagged sensor carries the invalid marker, and an unflagged one a value inside its range. */
  predicate Honest(r: SensorReport, sensor: nat)
    requires sensor < S.COUNT && |r.readings| == S.COUNT
  {
    if Flagged(r.flags, sensor) then r.readings[sensor] == S.INVALID
    else S.Desc(sensor).min <= r.readings[sensor] <= S.Desc(sensor).max
  }

  /** `check_both_directions`. */
  method CheckBothDirections(frames: seq<SensorReport>) returns (ok: bool)
    requires forall k :: 0 <= k < |frames| ==> |frames[k].readings| == S.COUNT
    ensures ok <==>
            forall k, i: nat :: 0 <= k < |frames| && i < 2 ==>
              if frames[k].flags / (if i == 0 then 1 else 8) % 8 != 0 then frames[k].readings[i] == 0xFFFF
              else (if i == 0 then 200 else 100) <= frames[k].readings[i] <= (if i == 0 then 3800 else 900)
  {
    forall k, i: nat | 0 <= k < |frames| && i < 2
      ensures Honest(frames[k], i) <==>
              if frames[k].flags / (if i == 0 then 1 else 8) % 8 != 0 then frames[k].readings[i] == 0xFFFF
              else (if i == 0 then 200 else 100) <= frames[k].readings[i] <= (if i == 0 then 3800 else 900)
    {
      FlaggedMeans(frames[k].flags, i);
    }
    hide Flagged;
    for k := 0 to |frames|
      invariant forall j, i: nat :: 0 <= j < k && i < S.COUNT ==> Honest(frames[j], i)
    {
      var r := frames[k];
      for sensor := 0 to S.COUNT
        invariant forall i: nat :: i < sensor ==> Honest(r, i)
      {
        var flagged := Flagged(r.flags, sensor);
        assert Honest(r, sensor) <==> if flagged then r.readings[sensor] == S.INVALID
                                      else S.Desc(sensor).min <= r.readings[sensor] <= S.Desc(sensor).max;
        if flagged && r.readings[sensor] != S.INVALID {
          return false;
        }
        if !flagged && !(S.Desc(sensor).min <= r.readings[sensor] <= S.Desc(sensor).max) {
          return false;
        }
      }
    }
    return true;
  }

  /** One sensor's bits as a number. */
  lemma OwnFlags(i: nat, h: seq<uint16>)
    requires i < S.COUNT
    ensures var f := S.Flags(i, h);
            if i == 0 then f == 0 || f == 1 || f == 2 || f == 3 || f == 4
            else f == 0 || f == 8 || f == 16 || f == 24 || f == 32
  {
    hide S.Stuck, S.OutOfRange;
  }

  lemma WordIsSum(a: bv8, b: bv8)
    requires a == 0 || a == 1 || a == 2 || a == 3 || a == 4
    requires b == 0 || b == 8 || b == 16 || b == 24 || b == 32
    ensures (a | b) as int == a as int + b as int
  {
  }

  lemma ThreeBits(x: nat)
    ensures x % 2 == 1 || x / 2 % 2 == 1 || x / 4 % 2 == 1 <==> x % 8 != 0
  {
    var b0, b1, b2 := x % 2, x / 2 % 2, x / 4 % 2;
    assert x / 2 / 2 == x / 4 && x / 4 / 2 == x / 8;
    assert x == 2 * (x / 2) + b0 && x / 2 == 2 * (x / 4) + b1 && x / 4 == 2 * (x / 8) + b2;
    assert x % 8 == 4 * b2 + 2 * b1 + b0;
  }

  lemma FlaggedMeans(flags: nat, sensor: nat)
    ensures Flagged(flags, sensor) <==> (if sensor == 0 then flags else flags / 8) % 8 != 0
  {
    ThreeBits(flags);
    ThreeBits(flags / 8);
    assert flags / 16 == flags / 8 / 2 && flags / 32 == flags / 8 / 4;
  }

  lemma FlagsInNumbers(a: nat, b: nat)
    requires a <= 4 && (b == 0 || b == 8 || b == 16 || b == 24 || b == 32)
    ensures Flagged(a + b, 0) <==> a != 0
    ensures Flagged(a + b, 1) <==> b != 0
  {
    hide Flagged;
    FlaggedMeans(a + b, 0);
    FlaggedMeans(a + b, 1);
    assert (a + b) / 8 == b / 8;
  }

  /** What the vehicle's sampling left, read back from the frame it was packed in. */
  predicate FromHistory(hk: Housekeeping, history: seq<seq<uint16>>) {
    && |history| == S.COUNT && hk.sensorFlags == S.FlagWord(history) as int
    && hk.sensors == [S.Published(0, history[0]), S.Published(1, history[1])]
  }

  function SensorReportOf(values: seq<seq<nat>>): SensorReport
    requires |values| == FIELD_COUNT && |values[15]| == 1
  {
    SensorReport(values[15][0], values[16])
  }

  lemma FlagWordReads(history: seq<seq<uint16>>, sensor: nat)
    requires |history| == S.COUNT && sensor < S.COUNT
    ensures S.FlagWord(history) as int < 256
    ensures Flagged(S.FlagWord(history) as int, sensor) <==> S.Flags(sensor, history[sensor]) != 0
  {
    var a, b := S.Flags(0, history[0]), S.Flags(1, history[1]);
    OwnFlags(0, history[0]);
    OwnFlags(1, history[1]);
    hide S.Flags, Flagged;
    WordIsSum(a, b);
    FlagsInNumbers(a as int, b as int);
  }

  /**
    The ground's two directions hold of every decoded frame, whatever the sensors read: a
    flagged sensor carries the marker and an unflagged one a reading inside its range.
  */
  lemma DecodedFramesAreHonest(values: seq<seq<nat>>, e: Emitted, history: seq<seq<uint16>>, sensor: nat)
    requires DecodedAs(values, e) && FromHistory(e.hk, history) && sensor < S.COUNT
    ensures |values| == FIELD_COUNT && |values[15]| == 1 && |values[16]| == S.COUNT
    ensures Honest(SensorReportOf(values), sensor)
  {
    SensorFields(values, e, history);
    PublishedHonest(S.FlagWord(history) as int, history, sensor) by { hide *; FlagWordReads(history, sensor); }
  }

  /** The two fields of a decoded frame that speak of the sensors. */
  lemma SensorFields(values: seq<seq<nat>>, e: Emitted, history: seq<seq<uint16>>)
    requires DecodedAs(values, e) && FromHistory(e.hk, history)
    ensures |values| == FIELD_COUNT && |history| == S.COUNT
    ensures values[15] == [S.FlagWord(history) as int]
    ensures values[16] == [S.Published(0, history[0]), S.Published(1, history[1])]
  {
    hide S.FlagWord, S.Published;
    var sum: uint16 :| values == Values(e.hk, e.number, e.drops, sum);
    assert values[15] == ValueAt(e.hk, e.number, e.drops, sum, 15);
    assert values[16] == ValueAt(e.hk, e.number, e.drops, sum, 16);
    ByteOfFlags(S.FlagWord(history));
  }

  lemma ByteOfFlags(w: bv8)
    ensures (w as int) % 256 == w as int
  {
  }

  lemma PublishedHonest(flags: nat, history: seq<seq<uint16>>, sensor: nat)
    requires |history| == S.COUNT && sensor < S.COUNT
    requires Flagged(flags, sensor) <==> S.Flags(sensor, history[sensor]) != 0
    ensures Honest(SensorReport(flags, [S.Published(0, history[0]), S.Published(1, history[1])]), sensor)
  {
    hide S.Flags, S.Published, S.OutOfRange, S.Stuck, Flagged;
    S.BothDirections(sensor, history[sensor]);
    InRange(sensor, S.Published(sensor, history[sensor]));
  }

  lemma InRange(i: nat, raw: uint16)
    requires i < S.COUNT
    ensures S.OutOfRange(i, raw) <==> !(S.Desc(i).min <= raw <= S.Desc(i).max)
  {
  }
}
