/**
  Whole runs of the telemetry task (flight/tlm/frame.c), emissions and subsystem resets in
  any order, against the ground's sequence check of what was captured.
*/
module TlmRuns {
  import opened Words
  import opened TlmDecode
  import opened TlmEmit
  import opened TlmCheck
  import D = Downlink

  // ---- the sequence check of a whole run --------------------------------------------------------

  /** Emissions `i` and `j` were sent and none between them was. */
  predicate NextSent(es: seq<Event>, i: nat, j: nat) {
    i < j < |es| && es[i] == Emission(true) && es[j] == Emission(true) && NoneSent(es[i + 1..j])
  }

  /**
    What the check can follow between two sent frames: no reset, or no drop since the last
    one, or by chance as many as the number of the first frame asks for.
  */
  predicate Explained(c: Counters, es: seq<Event>, i: nat, j: nat)
    requires i < j < |es|
  {
    var between := es[i + 1..j];
    || NoReset(between) || DroppedSinceReset(between) == 0
    || DroppedSinceReset(between) == Run(c, es[..i]).number + 1
  }

  predicate AllExplained(c: Counters, es: seq<Event>) {
    forall i, j :: 0 <= i < j < |es| && NextSent(es, i, j) ==> Explained(c, es, i, j)
  }

  lemma {:induction false} RunSplit(c: Counters, a: seq<Event>, b: seq<Event>)
    ensures Run(Run(c, a), b) == Run(c, a + b)
  {
    hide Step;
    if b == [] {
      assert a + b == a;
    } else {
      var shorter := b[..|b| - 1];
      assert (a + b)[..|a + b| - 1] == a + shorter;
      RunSplit(c, a, shorter);
    }
  }

  lemma {:induction false} RunBounds(c: Counters, es: seq<Event>)
    requires Unsaturated(c, |es|)
    ensures Run(c, es).number <= c.number + |es| && Run(c, es).drops <= c.drops + |es|
  {
    if es == [] {
    } else {
      var prefix := es[..|es| - 1];
      RunBounds(c, prefix);
      assert Run(c, es) == Step(Run(c, prefix), es[|es| - 1]);
      hide Run;
      StepBounds(Run(c, prefix), es[|es| - 1]);
    }
  }

  lemma StepBounds(c: Counters, e: Event)
    ensures Step(c, e).number <= c.number + 1 && Step(c, e).drops <= c.drops + 1
  {
  }

  lemma PairFacts(c: Counters, es: seq<Event>, i: nat, j: nat)
    requires Unsaturated(c, |es|) && i < j < |es| && NextSent(es, i, j)
    requires Run(c, es[..i]).number <= c.number + i && Run(c, es[..i]).drops <= c.drops + i
    ensures es[i] == Emission(true) && NoneSent(es[i + 1..j])
    ensures Unsaturated(Run(c, es[..i]), |es[i + 1..j]| + 2)
    ensures es[j - 1].SubsystemReset? <==> i + 1 < j && es[i + 1..j][j - i - 2].SubsystemReset?
  {
    hide Run, NoneSent;
  }

  lemma ExplainedMeans(c: Counters, es: seq<Event>, i: nat, j: nat)
    requires i < j < |es|
    ensures var between := es[i + 1..j];
            Explained(c, es, i, j) <==>
            || NoReset(between) || DroppedSinceReset(between) == 0
            || DroppedSinceReset(between) == Run(c, es[..i]).number + 1
  {
    hide Run, NoReset, DroppedSinceReset;
  }

  lemma ShorterRun(c: Counters, n: nat, m: nat)
    requires Unsaturated(c, n) && m <= n
    ensures Unsaturated(c, m)
  {
  }

  /** Two sent frames with none between them, anywhere in a run. */
  lemma SentPair(c: Counters, es: seq<Event>, i: nat, j: nat)
    requires Unsaturated(c, |es|) && i < j < |es| && NextSent(es, i, j)
    ensures PairOk(Reported(Run(c, es[..i])), Reported(Run(c, es[..j]))) <==> Explained(c, es, i, j)
    ensures IsRestart(Reported(Run(c, es[..i])), Reported(Run(c, es[..j]))) <==> es[j - 1].SubsystemReset?
  {
    hide *;
    var between := es[i + 1..j];
    ShorterRun(c, |es|, i);
    RunBounds(c, es[..i]);
    PairFacts(c, es, i, j);
    ExplainedMeans(c, es, i, j);
    assert es[..j] == es[..i] + [es[i]] + between;
    RunSplit(c, es[..i], [es[i]]);
    RunSplit(c, es[..i] + [es[i]], between);
    OneStep(Run(c, es[..i]), es[i]);
    PairAcceptedExactlyWhen(Run(c, es[..i]), between);
  }

  lemma OneStep(c: Counters, e: Event)
    ensures Run(c, [e]) == Step(c, e)
  {
    assert [e][..0] == [];
    assert Run(c, [e][..0]) == c;
  }

  /** The last frame a run sent, if it sent any. */
  lemma {:induction false} LastSent(c: Counters, es: seq<Event>) returns (i: int)
    ensures -1 <= i < |es|
    ensures i == -1 ==> SentReports(c, es) == [] && NoneSent(es)
    ensures i >= 0 ==>
              && es[i] == Emission(true) && NoneSent(es[i + 1..]) && SentReports(c, es) != []
              && SentReports(c, es)[|SentReports(c, es)| - 1] == Reported(Run(c, es[..i]))
  {
    hide Run, Reported;
    if es == [] {
      i := -1;
    } else {
      var n := |es| - 1;
      if es[n] == Emission(true) {
        i := n;
      } else {
        i := LastSent(c, es[..n]);
        if i >= 0 {
          assert es[..n][..i] == es[..i];
          NoneSentSnoc(es[..n][i + 1..], es[n]);
          assert es[..n][i + 1..] + [es[n]] == es[i + 1..];
        } else {
          NoneSentSnoc(es[..n], es[n]);
          assert es[..n] + [es[n]] == es;
        }
      }
    }
  }

  lemma NoneSentSnoc(es: seq<Event>, e: Event)
    ensures NoneSent(es + [e]) <==> NoneSent(es) && e != Emission(true)
  {
    if NoneSent(es + [e]) {
      assert (es + [e])[|es|] == e;
      forall k | 0 <= k < |es| ensures es[k] != Emission(true) {
        assert (es + [e])[k] == es[k];
      }
    }
  }

  lemma PairsOfPrefix(c: Counters, es: seq<Event>, n: nat, i: nat, j: nat)
    requires i < j < n <= |es|
    ensures NextSent(es[..n], i, j) <==> NextSent(es, i, j)
    ensures Explained(c, es[..n], i, j) <==> Explained(c, es, i, j)
  {
    assert es[..n][i + 1..j] == es[i + 1..j] && es[..n][..i] == es[..i];
  }

  /** Only the frame sent just before makes a pair with a sent frame. */
  lemma OnePair(es: seq<Event>, n: nat, i: int)
    requires n < |es| && es[n] == Emission(true) && -1 <= i < n
    requires if i == -1 then NoneSent(es[..n]) else es[i] == Emission(true) && NoneSent(es[..n][i + 1..])
    ensures forall k: nat :: k < n ==> (NextSent(es, k, n) <==> k == i)
  {
    forall k: nat | k < n ensures NextSent(es, k, n) <==> k == i {
      if i == -1 {
        assert es[..n][k] != Emission(true);
      } else if k < i {
        assert es[k + 1..n][i - k - 1] == es[i];
      } else if k > i {
        assert es[..n][i + 1..][k - i - 1] == es[k];
      } else {
        assert es[..n][i + 1..] == es[i + 1..n];
      }
    }
  }

  lemma AppendSequence(sent: seq<Report>, now: Report)
    ensures SequenceOk(sent + [now]) <==> SequenceOk(sent) && (sent != [] ==> PairOk(sent[|sent| - 1], now))
  {
    hide PairOk;
    var s := sent + [now];
    if SequenceOk(s) {
      forall k | 0 < k < |sent| ensures PairOk(sent[k - 1], sent[k]) {
        assert PairOk(s[k - 1], s[k]);
      }
      if sent != [] {
        assert PairOk(s[|sent| - 1], s[|sent|]);
      }
    }
  }

  lemma ExplainedPrefix(c: Counters, es: seq<Event>, n: nat, i: int)
    requires n == |es| - 1 && -1 <= i < n
    requires es[n] == Emission(true)
    requires forall k: nat :: k < n ==> (NextSent(es, k, n) <==> k == i)
    ensures AllExplained(c, es) <==> AllExplained(c, es[..n]) && (i >= 0 ==> Explained(c, es, i, n))
  {
    hide NextSent, Explained;
    forall k: nat, j: nat | k < j < n
      ensures NextSent(es[..n], k, j) <==> NextSent(es, k, j)
      ensures Explained(c, es[..n], k, j) <==> Explained(c, es, k, j)
    {
      PairsOfPrefix(c, es, n, k, j);
    }
    if AllExplained(c, es) {
      forall k, j | 0 <= k < j < |es[..n]| && NextSent(es[..n], k, j) ensures Explained(c, es[..n], k, j) {
        assert NextSent(es, k, j);
      }
    }
  }

  lemma ExplainedUnsent(c: Counters, es: seq<Event>, n: nat)
    requires n == |es| - 1 && es[n] != Emission(true)
    ensures AllExplained(c, es) <==> AllExplained(c, es[..n])
  {
    assert forall k: nat :: !NextSent(es, k, n);
    hide NextSent, Explained;
    forall k: nat, j: nat | k < j < n
      ensures NextSent(es[..n], k, j) <==> NextSent(es, k, j)
      ensures Explained(c, es[..n], k, j) <==> Explained(c, es, k, j)
    {
      PairsOfPrefix(c, es, n, k, j);
    }
    if AllExplained(c, es) {
      forall k, j | 0 <= k < j < |es[..n]| && NextSent(es[..n], k, j) ensures Explained(c, es[..n], k, j) {
        assert NextSent(es, k, j);
      }
    }
  }

  lemma Shorter(c: Counters, n: nat)
    requires Unsaturated(c, n) && n > 0
    ensures Unsaturated(c, n - 1)
  {
  }

  lemma NothingYet(c: Counters)
    ensures SequenceOk(SentReports(c, [])) && AllExplained(c, [])
  {
  }

  lemma SentUnfolds(c: Counters, es: seq<Event>)
    requires es != []
    ensures var n := |es| - 1;
            SentReports(c, es) == if es[n] == Emission(true) then SentReports(c, es[..n]) + [Reported(Run(c, es[..n]))]
                                  else SentReports(c, es[..n])
  {
    hide Run, Reported;
  }

  /**
    The sequence check of a whole run, with resets and drops anywhere: it passes exactly
    when every two frames sent one after the other are explained by what lay between them.
  */
  lemma {:induction false} SequenceAcceptedExactlyWhen(c: Counters, es: seq<Event>)
    requires Unsaturated(c, |es|)
    ensures SequenceOk(SentReports(c, es)) <==> AllExplained(c, es)
  {
    hide *;
    if es == [] {
      NothingYet(c);
    } else {
      var n := |es| - 1;
      Shorter(c, |es|);
      SequenceAcceptedExactlyWhen(c, es[..n]);
      SentUnfolds(c, es);
      if es[n] == Emission(true) {
        var i := LastSent(c, es[..n]);
        AppendSequence(SentReports(c, es[..n]), Reported(Run(c, es[..n])));
        OnePair(es, n, i);
        ExplainedPrefix(c, es, n, i);
        if i >= 0 {
          assert es[..n][..i] == es[..i];
          SentPair(c, es, i, n);
        }
      } else {
        ExplainedUnsent(c, es, n);
      }
    }
  }

  /** How many frames were sent directly after a reset, the first frame sent aside. */
  function SentAfterReset(es: seq<Event>): nat {
    if es == [] then 0
    else
      var n := |es| - 1;
      SentAfterReset(es[..n])
      + if es[n] == Emission(true) && n > 0 && es[n - 1].SubsystemReset? && !NoneSent(es[..n]) then 1 else 0
  }

  lemma AfterResetUnfolds(es: seq<Event>)
    requires es != []
    ensures var n := |es| - 1;
            SentAfterReset(es) == SentAfterReset(es[..n])
            + if es[n] == Emission(true) && n > 0 && es[n - 1].SubsystemReset? && !NoneSent(es[..n]) then 1 else 0
  {
    hide NoneSent;
  }

  lemma RestartsSnoc(sent: seq<Report>, now: Report)
    ensures Restarts(sent + [now])
         == Restarts(sent) + if sent != [] && IsRestart(sent[|sent| - 1], now) then 1 else 0
  {
    hide IsRestart;
    assert (sent + [now])[..|sent|] == sent;
  }

  lemma NoneBefore(c: Counters)
    ensures Restarts(SentReports(c, [])) == 0 == SentAfterReset([])
  {
  }

  lemma SentMeansSome(es: seq<Event>, i: nat)
    requires i < |es| && es[i] == Emission(true)
    ensures !NoneSent(es)
  {
  }

  /**
    The resets the check counts over a whole run are the frames sent directly after one; a
    reset whose next frames were dropped, or that came before every sent frame, goes uncounted.
  */
  lemma {:induction false} RestartsCountResets(c: Counters, es: seq<Event>)
    requires Unsaturated(c, |es|)
    ensures Restarts(SentReports(c, es)) == SentAfterReset(es)
  {
    hide *;
    if es == [] {
      NoneBefore(c);
    } else {
      var n := |es| - 1;
      Shorter(c, |es|);
      RestartsCountResets(c, es[..n]);
      SentUnfolds(c, es);
      AfterResetUnfolds(es);
      if es[n] == Emission(true) {
        var i := LastSent(c, es[..n]);
        RestartsSnoc(SentReports(c, es[..n]), Reported(Run(c, es[..n])));
        OnePair(es, n, i);
        if i >= 0 {
          SentMeansSome(es[..n], i);
          assert es[..n][..i] == es[..i];
          SentPair(c, es, i, n);
        }
      }
    }
  }

  // ---- the telemetry object ------------------------------------------------------------------------

  /** These emissions are the run's, each with the counters it found and sent whole or not as the run says. */
  predicate FromRun(c: Counters, events: seq<Event>, es: seq<Emitted>) {
    if events == [] then es == []
    else
      var n := |events| - 1;
      if events[n].SubsystemReset? then FromRun(c, events[..n], es)
      else
        && es != [] && FromRun(c, events[..n], es[..|es| - 1])
        && var last := es[|es| - 1];
           && Counters(last.number, last.drops) == Run(c, events[..n])
           && (events[n].sentAll <==> last.taken == FRAME_LEN)
  }

  lemma RunOfReset(c: Counters, events: seq<Event>, es: seq<Emitted>)
    requires FromRun(c, events, es)
    ensures FromRun(c, events + [SubsystemReset], es)
    ensures Run(c, events + [SubsystemReset]) == Step(Run(c, events), SubsystemReset)
  {
    assert (events + [SubsystemReset])[..|events|] == events;
  }

  lemma RunOfEmission(c: Counters, events: seq<Event>, es: seq<Emitted>, e: Emitted)
    requires FromRun(c, events, es) && Counters(e.number, e.drops) == Run(c, events)
    ensures var sent := Emission(e.taken == FRAME_LEN);
            && FromRun(c, events + [sent], es + [e])
            && Run(c, events + [sent]) == Step(Run(c, events), sent)
  {
    var sent := Emission(e.taken == FRAME_LEN);
    assert (events + [sent])[..|events|] == events && (es + [e])[..|es|] == es;
  }

  lemma {:induction false} StreamSnoc(segs: seq<Segment>, s: Segment)
    ensures Stream(segs + [s]) == Stream(segs) + BytesOf(s)
  {
    hide BytesOf;
    if segs == [] {
      assert [s][1..] == [] && Stream([]) == [];
      assert Stream([s]) == BytesOf(s) + Stream([]);
    } else {
      assert (segs + [s])[1..] == segs[1..] + [s];
      StreamSnoc(segs[1..], s);
    }
  }

  predicate AllPlausible(es: seq<Emitted>) {
    forall k :: 0 <= k < |es| ==> Plausible(es[k])
  }

  /** One more emission puts the prefix the port took on the line. */
  lemma LineSnoc(es: seq<Emitted>, e: Emitted)
    requires AllPlausible(es) && Plausible(e)
    ensures AllPlausible(es + [e]) && |Frame(e.hk, e.number, e.drops)| == FRAME_LEN
    ensures Stream(Line(es + [e])) == Stream(Line(es)) + Frame(e.hk, e.number, e.drops)[..e.taken]
  {
    hide Frame, Shaped, Stream;
    FrameShape(e.hk, e.number, e.drops);
    assert Line(es + [e]) == Line(es) + [OnTheLine(e)];
    StreamSnoc(Line(es), OnTheLine(e));
    var frame := Frame(e.hk, e.number, e.drops);
    assert frame[..FRAME_LEN] == frame;
  }

  /** What calls the telemetry object: its task, with the state of that moment, or rung 2. */
  datatype Call = Emit(hk: Housekeeping) | Reset

  lemma LineOfNone()
    ensures AllPlausible([]) && Stream(Line([])) == []
  {
  }

  lemma RunOfNone(c: Counters)
    ensures FromRun(c, [], []) && Run(c, []) == c
  {
  }

  /**
    Any series of calls, on any port: the counters move as the run of events says, each
    frame carries the counters it found, and the line holds the emissions one after the
    other, cut where the port refused.
  */
  method Serve(t: Telemetry, calls: seq<Call>) returns (ghost events: seq<Event>, ghost es: seq<Emitted>)
    requires t.Valid() && t.layoutOk
    requires forall k :: 0 <= k < |calls| && calls[k].Emit? ==> Shaped(calls[k].hk)
    modifies t, t.frame, t.port, t.sensors, t.sensors.channels
    ensures |events| == |calls| && forall k :: 0 <= k < |calls| ==> (events[k].SubsystemReset? <==> calls[k].Reset?)
    ensures AllPlausible(es) && FromRun(Counters(old(t.number), old(t.drops)), events, es)
    ensures Counters(t.number, t.drops) == Run(Counters(old(t.number), old(t.drops)), events)
    ensures t.port.sent == old(t.port.sent) + Stream(Line(es))
  {
    hide Frame, Shaped, Stream, Line, Run, FromRun, Plausible;
    ghost var c := Counters(t.number, t.drops);
    ghost var before := t.port.sent;
    events, es := [], [];
    RunOfNone(c);
    LineOfNone();
    assert before + [] == before;
    for k := 0 to |calls|
      invariant t.Valid() && t.layoutOk
      invariant |events| == k && forall j :: 0 <= j < k ==> (events[j].SubsystemReset? <==> calls[j].Reset?)
      invariant AllPlausible(es) && FromRun(c, events, es) && Counters(t.number, t.drops) == Run(c, events)
      invariant t.port.sent == before + Stream(Line(es))
    {
      if calls[k].Reset? {
        RunOfReset(c, events, es);
        t.SubsystemReset();
        events := events + [SubsystemReset];
      } else {
        ghost var number, drops, sent := t.number, t.drops, t.port.sent;
        var ok, sentAll := t.Emit(calls[k].hk);
        ghost var e := Emitted(calls[k].hk, number, drops, |t.port.sent| - |sent|);
        Took(e);
        LineSnoc(es, e);
        RunOfEmission(c, events, es, e);
        assert t.port.sent == before + (Stream(Line(es)) + Frame(e.hk, number, drops)[..e.taken]);
        events, es := events + [Emission(e.taken == FRAME_LEN)], es + [e];
      }
    }
  }

  lemma Took(e: Emitted)
    requires Shaped(e.hk) && e.taken <= FRAME_LEN
    ensures Plausible(e)
    ensures Step(Counters(e.number, e.drops), Emission(e.taken == FRAME_LEN))
         == Counters(Inc(e.number), if e.taken == FRAME_LEN then e.drops else Inc(e.drops))
  {
  }

  // ---- from the line to the sequence check -----------------------------------------------------------

  function ReportOf(e: Emitted): Report {
    Reported(Counters(e.number, e.drops))
  }

  function ReportsOf(es: seq<Emitted>): (r: seq<Report>)
    ensures |r| == |es|
  {
    seq(|es|, k requires 0 <= k < |es| => ReportOf(es[k]))
  }

  lemma {:induction false} WholeSnoc(es: seq<Emitted>, e: Emitted)
    ensures Whole(es + [e]) == Whole(es) + if e.taken == FRAME_LEN then [e] else []
  {
    if es == [] {
      assert [] + [e] == [e] && [e][1..] == [];
    } else {
      WholeSnoc(es[1..], e);
      assert (es + [e])[1..] == es[1..] + [e];
    }
  }

  lemma FromRunUnfolds(c: Counters, events: seq<Event>, es: seq<Emitted>)
    requires FromRun(c, events, es) && events != []
    ensures var n := |events| - 1;
            if events[n].SubsystemReset? then FromRun(c, events[..n], es)
            else
              && es != [] && FromRun(c, events[..n], es[..|es| - 1])
              && ReportOf(es[|es| - 1]) == Reported(Run(c, events[..n]))
              && (events[n] == Emission(true) <==> es[|es| - 1].taken == FRAME_LEN)
  {
    hide Run;
  }

  lemma FromNothing(c: Counters, es: seq<Emitted>)
    requires FromRun(c, [], es)
    ensures ReportsOf(Whole(es)) == SentReports(c, [])
  {
  }

  /** The frames that went out whole report what the run says the sent frames report. */
  lemma {:induction false} WholeReports(c: Counters, events: seq<Event>, es: seq<Emitted>)
    requires FromRun(c, events, es)
    ensures ReportsOf(Whole(es)) == SentReports(c, events)
  {
    hide *;
    if events == [] {
      FromNothing(c, es);
    } else {
      var n := |events| - 1;
      FromRunUnfolds(c, events, es);
      SentUnfolds(c, events);
      if events[n].SubsystemReset? {
        WholeReports(c, events[..n], es);
      } else {
        var prefix, last := es[..|es| - 1], es[|es| - 1];
        assert prefix + [last] == es;
        WholeReports(c, events[..n], prefix);
        WholeSnoc(prefix, last);
        WholeOne(Whole(prefix), last);
      }
    }
  }

  lemma WholeOne(ws: seq<Emitted>, e: Emitted)
    ensures ReportsOf(ws + [e]) == ReportsOf(ws) + [ReportOf(e)] && ReportsOf(ws + []) == ReportsOf(ws)
  {
    hide ReportOf;
    assert ws + [] == ws;
  }

  /** What the sequence check reads of a decoded frame: `seq` and `frames_dropped`. */
  predicate ReadsAs(values: seq<seq<nat>>, r: Report) {
    |values| == FIELD_COUNT && values[1] == [r.number] && values[10] == [r.dropped]
  }

  lemma DecodedReadsAs(values: seq<seq<nat>>, e: Emitted)
    requires DecodedAs(values, e)
    ensures ReadsAs(values, ReportOf(e))
  {
    var sum: uint16 :| values == Values(e.hk, e.number, e.drops, sum);
    assert values[1] == ValueAt(e.hk, e.number, e.drops, sum, 1);
    assert values[10] == ValueAt(e.hk, e.number, e.drops, sum, 10);
  }

  /**
    The whole downlink against the sequence check, for any run short of saturation, with
    resets and refusals anywhere, as long as no piece of a dropped frame passes for a
    frame: the frames found in the capture read as reports, and the check accepts them
    exactly when every two sent one after the other are explained, and counts the frames
    sent directly after a reset; with no reset it accepts them always and counts none.
  */
  lemma CaptureAcceptedExactlyWhen(c: Counters, events: seq<Event>, es: seq<Emitted>)
    requires FromRun(c, events, es) && Unsaturated(c, |events|) && AllPlausible(es)
    requires NoiseIsQuiet(Stream(Line(es)), Line(es), 0, ShippedLayout(), SUM_FIELD)
    ensures var stream, reports := Stream(Line(es)), ReportsOf(Whole(es));
            var found := FoundAll(stream, Scan(stream, 0, ShippedLayout(), SUM_FIELD), ShippedLayout());
            && |found| == |reports|
            && (forall k :: 0 <= k < |found| ==> ReadsAs(found[k].values, reports[k]))
            && (SequenceOk(reports) <==> AllExplained(c, events))
            && Restarts(reports) == SentAfterReset(events)
            && (NoReset(events) ==> SequenceOk(reports) && Restarts(reports) == 0)
  {
    hide Plausible, NoiseIsQuiet, Stream, Line, Scan, FoundAll, Whole, DecodedAs, ReadsAs, SequenceOk, Restarts,
         FromRun, SentReports, GapsEqualDrops, Accounted, AllExplained, NoReset, SentAfterReset, ReportOf;
    CaptureTellsWhatWasSent(es);
    WholeReports(c, events, es);
    SequenceAcceptedExactlyWhen(c, events);
    RestartsCountResets(c, events);
    if NoReset(events) {
      GapsAreDrops(c, events);
    }
    var stream := Stream(Line(es));
    var found := FoundAll(stream, Scan(stream, 0, ShippedLayout(), SUM_FIELD), ShippedLayout());
    forall k | 0 <= k < |found| ensures ReadsAs(found[k].values, ReportsOf(Whole(es))[k]) {
      DecodedReadsAs(found[k].values, Whole(es)[k]);
    }
  }
}
