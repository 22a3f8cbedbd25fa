/** Recovering frames from a capture (harness/runner/tlm_decode.py, `find_frames`). */
module TlmDecode {
  import opened Words
  import opened FrameSum
  import opened TlmLayout

  datatype Layout = Layout(fields: seq<Field>, frameLen: nat, sync: uint32)

  datatype Found = Found(offset: nat, values: seq<seq<nat>>)

  /** The first field of kind sum, which the decoder needs. */
  function SumField(fields: seq<Field>): (r: Option<Field>)
    ensures r.Some? ==> r.value in fields && r.value.kind == KindSum
    ensures r.None? <==> forall i :: 0 <= i < |fields| ==> fields[i].kind != KindSum
  {
    if fields == [] then None
    else if fields[0].kind == KindSum then Some(fields[0])
    else
      assert forall i :: 0 < i < |fields| ==> fields[i] == fields[1..][i - 1];
      SumField(fields[1..])
  }

  lemma {:induction false} SumFieldIs(fields: seq<Field>, k: nat)
    requires k < |fields| && fields[k].kind == KindSum && forall j :: 0 <= j < k ==> fields[j].kind != KindSum
    ensures SumField(fields) == Some(fields[k])
  {
    if k > 0 {
      SumFieldIs(fields[1..], k - 1);
    }
  }

  predicate SyncAt(stream: seq<uint8>, at: nat, sync: uint32) {
    at + 4 <= |stream| && stream[at..at + 4] == LittleEndian(sync, 4)
  }

  /** These bytes carry the right word in their sum field. */
  predicate SumChecks(raw: seq<uint8>, sum: Field) {
    FromLittleEndian(Slice(raw, sum.offset, sum.offset + sum.width)) == IntegrityWord(Slice(raw, 0, sum.offset))
  }

  /** A frame starts at this offset: there is room, the sync is there and the sum checks. */
  predicate ValidAt(stream: seq<uint8>, at: nat, l: Layout, sum: Field) {
    at + l.frameLen <= |stream| && SyncAt(stream, at, l.sync) && SumChecks(stream[at..at + l.frameLen], sum)
  }

  lemma EmptyNeverChecks(sum: Field)
    ensures !SumChecks([], sum)
  {
    assert Slice([], sum.offset, sum.offset + sum.width) == [] && Slice([], 0, sum.offset) == [];
  }

  lemma ValidNeedsLength(stream: seq<uint8>, at: nat, l: Layout, sum: Field)
    requires at + l.frameLen <= |stream|
    ensures ValidAt(stream, at, l, sum) ==> l.frameLen > 0
  {
    hide SumChecks, SyncAt;
    var raw := stream[at..at + l.frameLen];
    EmptyNeverChecks(sum);
    if l.frameLen == 0 {
      assert raw == [];
    }
  }

  /**
    The plain reading of the job: try every offset from left to right; a valid one is a
    frame and the search goes on behind it.
  */
  function Scan(stream: seq<uint8>, from: nat, l: Layout, sum: Field): (offsets: seq<nat>)
    decreases |stream| - from
  {
    if from >= |stream| || from + l.frameLen > |stream| then []
    else if ValidAt(stream, from, l, sum) then
      ValidNeedsLength(stream, from, l, sum);
      [from] + Scan(stream, from + l.frameLen, l, sum)
    else Scan(stream, from + 1, l, sum)
  }

  function FoundAt(stream: seq<uint8>, at: nat, l: Layout): Found {
    Found(at, Decode(l.fields, Slice(stream, at, at + l.frameLen)))
  }

  function FoundAll(stream: seq<uint8>, offsets: seq<nat>, l: Layout): (r: seq<Found>)
    ensures |r| == |offsets|
  {
    seq(|offsets|, k requires 0 <= k < |offsets| => FoundAt(stream, offsets[k], l))
  }

  /** `stream.find(sync, i)`. */
  method FindSync(stream: seq<uint8>, sync: uint32, i: nat) returns (at: Option<nat>)
    ensures at.Some? ==> i <= at.value && SyncAt(stream, at.value, sync)
                         && forall k: nat :: i <= k < at.value ==> !SyncAt(stream, k, sync)
    ensures at.None? ==> forall k: nat :: i <= k ==> !SyncAt(stream, k, sync)
  {
    var pattern := LittleEndian(sync, 4);
    var k := i;
    while k + 4 <= |stream|
      invariant i <= k && forall m: nat :: i <= m < k ==> !SyncAt(stream, m, sync)
    {
      if stream[k..k + 4] == pattern {
        return Some(k);
      }
      k := k + 1;
    }
    return None;
  }

  /** `find_frames`; nothing at all when the layout has no sum field. */
  method FindFrames(stream: seq<uint8>, l: Layout) returns (r: Option<seq<Found>>)
    ensures r.Some? <==> SumField(l.fields).Some?
    ensures r.Some? ==> r.value == FoundAll(stream, Scan(stream, 0, l, SumField(l.fields).value), l)
  {
    hide SyncAt, SumChecks, LittleEndian;
    if SumField(l.fields).None? {
      return None;
    }
    var sum := SumField(l.fields).value;
    var frames: seq<Found> := [];
    ghost var offsets: seq<nat> := [];
    var i := 0;
    while i + l.frameLen <= |stream|
      invariant frames == FoundAll(stream, offsets, l)
      invariant Scan(stream, 0, l, sum) == offsets + Scan(stream, i, l, sum)
      decreases |stream| - i
    {
      var found := FindSync(stream, l.sync, i);
      if found.None? || found.value + l.frameLen > |stream| {
        NothingLeft(stream, i, found, l, sum);
        return Some(frames);
      }
      var at := found.value;
      SkipTo(stream, i, at, l, sum);
      var checks := CheckSum(stream[at..at + l.frameLen], sum);
      AtCandidate(stream, at, l, sum);
      if checks {
        frames := frames + [FoundAt(stream, at, l)];
        offsets := offsets + [at];
        i := at + l.frameLen;
      } else {
        i := at + 1;
      }
    }
    ScanEnds(stream, i, l, sum);
    return Some(frames);
  }

  lemma NothingLeft(stream: seq<uint8>, i: nat, found: Option<nat>, l: Layout, sum: Field)
    requires found.None? ==> forall k: nat :: i <= k ==> !SyncAt(stream, k, l.sync)
    requires found.Some? ==> found.value + l.frameLen > |stream|
                             && forall k: nat :: i <= k < found.value ==> !SyncAt(stream, k, l.sync)
    ensures Scan(stream, i, l, sum) == []
  {
    hide SyncAt, SumChecks, Scan;
    ScanEnds(stream, i, l, sum);
  }

  /** One step of the plain reading, at an offset where the sync matched. */
  lemma AtCandidate(stream: seq<uint8>, at: nat, l: Layout, sum: Field)
    requires SyncAt(stream, at, l.sync) && at + l.frameLen <= |stream|
    ensures SumChecks(stream[at..at + l.frameLen], sum) ==>
              l.frameLen > 0 && Scan(stream, at, l, sum) == [at] + Scan(stream, at + l.frameLen, l, sum)
    ensures !SumChecks(stream[at..at + l.frameLen], sum) ==>
              Scan(stream, at, l, sum) == Scan(stream, at + 1, l, sum)
  {
    hide SumChecks, LittleEndian;
    EmptyNeverChecks(sum);
    assert l.frameLen == 0 ==> stream[at..at + l.frameLen] == [];
  }

  /** The sum comparison at a candidate. */
  method CheckSum(raw: seq<uint8>, sum: Field) returns (ok: bool)
    ensures ok <==> SumChecks(raw, sum)
  {
    var want := FromLittleEndian(Slice(raw, sum.offset, sum.offset + sum.width));
    var got := GroundSum(raw, sum.offset);
    assert raw[..Min(sum.offset, |raw|)] == Slice(raw, 0, sum.offset);
    ok := want == got;
  }

  lemma {:induction false} SkipTo(stream: seq<uint8>, i: nat, at: nat, l: Layout, sum: Field)
    requires i <= at && at + l.frameLen <= |stream| && at < |stream|
    requires forall k: nat :: i <= k < at ==> !ValidAt(stream, k, l, sum)
    ensures Scan(stream, i, l, sum) == Scan(stream, at, l, sum)
    decreases at - i
  {
    hide ValidAt;
    if i < at {
      SkipTo(stream, i + 1, at, l, sum);
    }
  }

  lemma {:induction false} ScanEnds(stream: seq<uint8>, i: nat, l: Layout, sum: Field)
    requires forall k: nat :: i <= k ==> !ValidAt(stream, k, l, sum)
    ensures Scan(stream, i, l, sum) == []
    decreases |stream| - i
  {
    hide ValidAt;
    if i < |stream| && i + l.frameLen <= |stream| {
      ScanEnds(stream, i + 1, l, sum);
    }
  }

  // ---- what the scan finds ------------------------------------------------------------

  /**
    The offsets a search from `from` may return: each valid, in order, not overlapping,
    and no valid offset skipped between them or after the last.
  */
  ghost predicate Greedy(stream: seq<uint8>, from: nat, l: Layout, sum: Field, os: seq<nat>)
    decreases |os|
  {
    if os == [] then forall k: nat :: from <= k ==> !ValidAt(stream, k, l, sum)
    else
      && from <= os[0] && ValidAt(stream, os[0], l, sum)
      && (forall k: nat :: from <= k < os[0] ==> !ValidAt(stream, k, l, sum))
      && Greedy(stream, os[0] + l.frameLen, l, sum, os[1..])
  }

  /** And the scan is the only list of offsets like that. */
  lemma {:induction false} ScanIsGreedy(stream: seq<uint8>, from: nat, l: Layout, sum: Field, os: seq<nat>)
    ensures Scan(stream, from, l, sum) == os <==> Greedy(stream, from, l, sum, os)
    decreases |stream| - from
  {
    hide ValidAt;
    ValidHasRoom(stream, l, sum);
    if from >= |stream| || from + l.frameLen > |stream| {
    } else if ValidAt(stream, from, l, sum) {
      if os != [] {
        if os[0] == from {
          ScanIsGreedy(stream, from + l.frameLen, l, sum, os[1..]);
        }
        assert os == [os[0]] + os[1..];
      }
    } else {
      ScanIsGreedy(stream, from + 1, l, sum, os);
    }
  }

  lemma ValidHasRoom(stream: seq<uint8>, l: Layout, sum: Field)
    ensures forall k: nat :: ValidAt(stream, k, l, sum) ==>
              l.frameLen > 0 && k < |stream| && k + l.frameLen <= |stream|
  {
    hide SumChecks, LittleEndian;
    forall k: nat | k + l.frameLen <= |stream| ensures ValidAt(stream, k, l, sum) ==> l.frameLen > 0 {
      ValidNeedsLength(stream, k, l, sum);
    }
  }

  /** A capture as it was made: whole frames, and bytes that are not frames. */
  datatype Segment = Sent(frame: seq<uint8>) | Noise(bytes: seq<uint8>)

  function BytesOf(seg: Segment): seq<uint8> {
    match seg
    case Sent(frame) => frame
    case Noise(bytes) => bytes
  }

  function Stream(segs: seq<Segment>): seq<uint8> {
    if segs == [] then [] else BytesOf(segs[0]) + Stream(segs[1..])
  }

  /** Where the whole frames start, the first segment being at `base`. */
  function SentOffsets(segs: seq<Segment>, base: nat): seq<nat> {
    if segs == [] then []
    else (if segs[0].Sent? then [base] else []) + SentOffsets(segs[1..], base + |BytesOf(segs[0])|)
  }

  function SentFrames(segs: seq<Segment>): seq<seq<uint8>> {
    if segs == [] then []
    else (if segs[0].Sent? then [segs[0].frame] else []) + SentFrames(segs[1..])
  }

  predicate WellFormed(frame: seq<uint8>, l: Layout, sum: Field) {
    |frame| == l.frameLen >= 4 && ValidAt(frame, 0, l, sum)
  }

  /** No offset inside a noise segment passes for the start of a frame. */
  ghost predicate NoiseIsQuiet(stream: seq<uint8>, segs: seq<Segment>, base: nat, l: Layout, sum: Field)
    decreases |segs|
  {
    segs != [] ==>
      && (segs[0].Noise? ==> forall k: nat :: base <= k < base + |segs[0].bytes| ==> !ValidAt(stream, k, l, sum))
      && NoiseIsQuiet(stream, segs[1..], base + |BytesOf(segs[0])|, l, sum)
  }

  /**
    A capture of well-formed frames with quiet noise between them decodes to exactly those
    frames, at the places where they were sent.
  */
  lemma {:induction false} CaptureDecodes(stream: seq<uint8>, segs: seq<Segment>, base: nat, l: Layout, sum: Field)
    requires base <= |stream| && stream[base..] == Stream(segs)
    requires forall k :: 0 <= k < |segs| && segs[k].Sent? ==> WellFormed(segs[k].frame, l, sum)
    requires NoiseIsQuiet(stream, segs, base, l, sum)
    ensures Decoded(stream, segs, base, l, sum)
    decreases |segs|
  {
    hide ValidAt, Decoded, WellFormed, Stream;
    if segs == [] {
      assert Stream([]) == [] && base == |stream| by { EmptyStream(); }
      AtTheEnd(stream, base, l, sum);
    } else {
      StreamUnfolds(segs);
      var next := base + |BytesOf(segs[0])|;
      CutSegment(stream, base, BytesOf(segs[0]), Stream(segs[1..]));
      CaptureDecodes(stream, segs[1..], next, l, sum);
      if segs[0].Sent? {
        SentStep(stream, segs, base, l, sum);
      } else {
        NoiseStep(stream, segs, base, l, sum);
      }
    }
  }

  /** The scan from `base` finds the frames sent, where they were sent. */
  ghost predicate Decoded(stream: seq<uint8>, segs: seq<Segment>, base: nat, l: Layout, sum: Field) {
    && Scan(stream, base, l, sum) == SentOffsets(segs, base)
    && FramesAt(stream, SentOffsets(segs, base), SentFrames(segs), l)
  }

  lemma EmptyStream()
    ensures Stream([]) == []
  {
  }

  lemma StreamUnfolds(segs: seq<Segment>)
    requires segs != []
    ensures Stream(segs) == BytesOf(segs[0]) + Stream(segs[1..])
  {
  }

  lemma SentStep(stream: seq<uint8>, segs: seq<Segment>, base: nat, l: Layout, sum: Field)
    requires segs != [] && segs[0].Sent? && WellFormed(segs[0].frame, l, sum)
    requires base + |segs[0].frame| <= |stream| && stream[base..base + |segs[0].frame|] == segs[0].frame
    requires Decoded(stream, segs[1..], base + |segs[0].frame|, l, sum)
    ensures Decoded(stream, segs, base, l, sum)
  {
    hide ValidAt, Scan, FramesAt;
    var frame := segs[0].frame;
    var next := base + |frame|;
    ValidMoves(stream, base, frame, l, sum);
    FramesAtExtends(stream, SentOffsets(segs[1..], next), SentFrames(segs[1..]), l, base, frame);
  }

  lemma NoiseStep(stream: seq<uint8>, segs: seq<Segment>, base: nat, l: Layout, sum: Field)
    requires segs != [] && segs[0].Noise? && base + |segs[0].bytes| <= |stream|
    requires forall k: nat :: base <= k < base + |segs[0].bytes| ==> !ValidAt(stream, k, l, sum)
    requires Decoded(stream, segs[1..], base + |segs[0].bytes|, l, sum)
    ensures Decoded(stream, segs, base, l, sum)
  {
    hide ValidAt, Scan, FramesAt;
    var next := base + |segs[0].bytes|;
    QuietSkipped(stream, base, next, l, sum);
    assert [] + SentOffsets(segs[1..], next) == SentOffsets(segs[1..], next);
    assert [] + SentFrames(segs[1..]) == SentFrames(segs[1..]);
  }

  /** These frames stand at these offsets of the stream. */
  predicate FramesAt(stream: seq<uint8>, offsets: seq<nat>, frames: seq<seq<uint8>>, l: Layout) {
    && |offsets| == |frames|
    && forall k :: 0 <= k < |frames| ==>
         offsets[k] + l.frameLen <= |stream| && stream[offsets[k]..offsets[k] + l.frameLen] == frames[k]
  }

  lemma FramesAtExtends(stream: seq<uint8>, offsets: seq<nat>, frames: seq<seq<uint8>>, l: Layout, at: nat,
                        frame: seq<uint8>)
    requires FramesAt(stream, offsets, frames, l)
    requires at + l.frameLen <= |stream| && stream[at..at + l.frameLen] == frame
    ensures FramesAt(stream, [at] + offsets, [frame] + frames, l)
  {
  }

  lemma AtTheEnd(stream: seq<uint8>, base: nat, l: Layout, sum: Field)
    requires base == |stream|
    ensures Decoded(stream, [], base, l, sum)
  {
  }

  lemma CutSegment(stream: seq<uint8>, base: nat, head: seq<uint8>, rest: seq<uint8>)
    requires base <= |stream| && stream[base..] == head + rest
    ensures base + |head| <= |stream| && stream[base..base + |head|] == head && stream[base + |head|..] == rest
  {
    assert stream[base..][..|head|] == head && stream[base..][|head|..] == rest;
  }

  lemma ValidMoves(stream: seq<uint8>, base: nat, frame: seq<uint8>, l: Layout, sum: Field)
    requires WellFormed(frame, l, sum) && base + |frame| <= |stream| && stream[base..base + |frame|] == frame
    ensures base + l.frameLen <= |stream| && stream[base..base + l.frameLen] == frame
    ensures Scan(stream, base, l, sum) == [base] + Scan(stream, base + |frame|, l, sum)
  {
    hide SumChecks, LittleEndian;
    assert frame[0..0 + l.frameLen] == frame;
    assert stream[base..base + 4] == frame[0..4] by {
      assert stream[base..base + |frame|][0..4] == stream[base..base + 4];
    }
  }

  lemma {:induction false} QuietSkipped(stream: seq<uint8>, from: nat, until: nat, l: Layout, sum: Field)
    requires from <= until <= |stream|
    requires forall k: nat :: from <= k < until ==> !ValidAt(stream, k, l, sum)
    ensures Scan(stream, from, l, sum) == Scan(stream, until, l, sum)
    decreases until - from
  {
    hide ValidAt;
    if from < until {
      QuietSkipped(stream, from + 1, until, l, sum);
      if from + l.frameLen > |stream| {
        assert Scan(stream, from + 1, l, sum) == [];
      }
    }
  }

  /** In particular, frames sent back to back decode to exactly themselves. */
  lemma BackToBackDecodes(segs: seq<Segment>, l: Layout, sum: Field)
    requires forall k :: 0 <= k < |segs| ==> segs[k].Sent? && WellFormed(segs[k].frame, l, sum)
    ensures Decoded(Stream(segs), segs, 0, l, sum)
    ensures |SentFrames(segs)| == |segs| && forall k :: 0 <= k < |segs| ==> SentFrames(segs)[k] == segs[k].frame
  {
    hide WellFormed, Decoded;
    var stream := Stream(segs);
    assert stream[0..] == stream;
    AllSentIsQuiet(stream, segs, 0, l, sum);
    CaptureDecodes(stream, segs, 0, l, sum);
  }

  lemma {:induction false} AllSentIsQuiet(stream: seq<uint8>, segs: seq<Segment>, base: nat, l: Layout, sum: Field)
    requires forall k :: 0 <= k < |segs| ==> segs[k].Sent?
    ensures NoiseIsQuiet(stream, segs, base, l, sum)
    ensures |SentFrames(segs)| == |segs| && forall k :: 0 <= k < |segs| ==> SentFrames(segs)[k] == segs[k].frame
    decreases |segs|
  {
    if segs != [] {
      AllSentIsQuiet(stream, segs[1..], base + |BytesOf(segs[0])|, l, sum);
    }
  }
}
