/**
  The executive drives the command path: a finished window supplies the hypotheses under
  which arming and time tags are proved.
*/
module CmdSchedule {
  import opened Words
  import opened TraceCheck
  import opened Ladder
  import opened Window
  import opened Sched
  import Replay
  import SchedRuns
  import CmdRuns
  import CmdArming
  import CmdQueue

  /** What one task was told, dispatch by dispatch. */
  function Of(told: seq<Stamp>, i: nat): seq<Stamp> {
    if told == [] then []
    else Of(told[..|told| - 1], i) + if told[|told| - 1].task == i then [told[|told| - 1]] else []
  }

  lemma {:induction false} OfConcat(a: seq<Stamp>, b: seq<Stamp>, i: nat)
    ensures Of(a + b, i) == Of(a, i) + Of(b, i)
  {
    if b == [] {
      assert a + b == a;
    } else {
      var c := b[..|b| - 1];
      assert (a + b)[..|a + b| - 1] == a + c;
      OfConcat(a, c, i);
    }
  }

  lemma OfOne(told: seq<Stamp>, s: Stamp, i: nat)
    ensures Of(told + [s], i) == Of(told, i) + if s.task == i then [s] else []
  {
    assert (told + [s])[..|told|] == told;
  }

  lemma StampsSnoc(tasks: seq<nat>, task: nat, frame: nat, time: uint32)
    ensures Stamps(tasks + [task], frame, time) == Stamps(tasks, frame, time) + [Stamp(task, frame, time)]
  {
  }

  lemma FrameUnfolds(table: seq<Task>, withheld: set<Slot>, from: Option<nat>, frame: nat, n: nat)
    ensures FrameTrace(table, withheld, from, frame, 0) == []
    ensures FrameTrace(table, withheld, from, frame, n + 1)
         == FrameTrace(table, withheld, from, frame, n)
            + if Dictated(table, withheld, from, Slot(frame, n)) then [n] else []
  {
    hide Dictated;
  }

  lemma OfNothing(frame: nat, time: uint32, i: nat)
    ensures Of([], i) == [] && Stamps([], frame, time) == []
  {
  }

  lemma {:induction false} OfFrame(table: seq<Task>, withheld: set<Slot>, from: Option<nat>, frame: nat, n: nat,
                                   time: uint32, i: nat)
    ensures Of(Stamps(FrameTrace(table, withheld, from, frame, n), frame, time), i)
         == if i < n && Dictated(table, withheld, from, Slot(frame, i)) then [Stamp(i, frame, time)] else []
  {
    hide *;
    OfNothing(frame, time, i);
    if n == 0 {
      FrameUnfolds(table, withheld, from, frame, 0);
    } else {
      var was := FrameTrace(table, withheld, from, frame, n - 1);
      FrameUnfolds(table, withheld, from, frame, n - 1);
      OfFrame(table, withheld, from, frame, n - 1, time, i);
      if Dictated(table, withheld, from, Slot(frame, n - 1)) {
        StampsSnoc(was, n - 1, frame, time);
        OfOne(Stamps(was, frame, time), Stamp(n - 1, frame, time), i);
      } else {
        assert was + [] == was;
      }
    }
  }

  /** One dispatch in every frame, each told its frame and that frame's time on the schedule. */
  function OncePerFrame(i: nat, start: nat, frames: nat): (r: seq<Stamp>)
    ensures |r| == frames
    ensures forall m :: 0 <= m < frames ==> r[m] == Stamp(i, m, Wrap32(start + Ticks(m)))
  {
    if frames == 0 then []
    else OncePerFrame(i, start, frames - 1) + [Stamp(i, frames - 1, Wrap32(start + Ticks(frames - 1)))]
  }

  /** Essential, due in every frame, and never withheld. */
  ghost predicate RunsAlways(table: seq<Task>, withheld: set<Slot>, i: nat) {
    && i < |table| && table[i].period == 1 && table[i].essential
    && forall s :: s in withheld ==> s.task != i
  }

  lemma AlwaysDictated(table: seq<Task>, withheld: set<Slot>, from: Option<nat>, frame: nat, i: nat)
    requires RunsAlways(table, withheld, i)
    ensures i < |table| && Dictated(table, withheld, from, Slot(frame, i))
  {
    assert frame % 1 == 0;
  }

  lemma TimedUnfolds(table: seq<Task>, withheld: set<Slot>, from: Option<nat>, start: nat, frame: nat, i: nat)
    ensures Of(Timed(table, withheld, from, start, 0), i) == OncePerFrame(i, start, 0)
    ensures Timed(table, withheld, from, start, frame + 1)
         == Timed(table, withheld, from, start, frame)
            + Stamps(FrameTrace(table, withheld, from, frame, |table|), frame, Wrap32(start + Ticks(frame)))
    ensures OncePerFrame(i, start, frame + 1)
         == OncePerFrame(i, start, frame) + [Stamp(i, frame, Wrap32(start + Ticks(frame)))]
  {
    hide FrameTrace, Stamps, Ticks;
  }

  lemma {:induction false} TimedOncePerFrame(table: seq<Task>, withheld: set<Slot>, from: Option<nat>, start: nat,
                                             frames: nat, i: nat)
    requires RunsAlways(table, withheld, i)
    ensures Of(Timed(table, withheld, from, start, frames), i) == OncePerFrame(i, start, frames)
  {
    hide *;
    if frames == 0 {
      TimedUnfolds(table, withheld, from, start, 0, i);
    } else {
      var f := frames - 1;
      var time := Wrap32(start + Ticks(f));
      AlwaysDictated(table, withheld, from, f, i);
      TimedUnfolds(table, withheld, from, start, f, i);
      TimedOncePerFrame(table, withheld, from, start, f, i);
      OfFrame(table, withheld, from, f, |table|, time, i);
      OfConcat(Timed(table, withheld, from, start, f),
               Stamps(FrameTrace(table, withheld, from, f, |table|), f, time), i);
    }
  }

  /**
    In a finished window an essential task of period 1 that was never withheld was
    dispatched exactly once in every frame, degraded or not, and each time it could read that
    frame's number and a time 1024 ticks after the last.
  */
  lemma EssentialRunsEveryFrame(e: Executive, start: uint64, frames: nat, i: nat)
    requires e.Between(start, frames) && e.Ideal() && RunsAlways(e.table, e.withheld, i)
    ensures Of(e.told, i) == OncePerFrame(i, start, frames)
  {
    hide *;
    SchedRuns.StageOfWindow(e, start, frames);
    e.HistoryBefore(start, frames);
    TimedOncePerFrame(e.table, e.withheld, e.From(), start, frames, i);
  }

  lemma {:induction false} NotCounted(es: seq<Overrun>, i: nat, k: nat)
    requires k < |es| && Count(es, i) == 0
    ensures es[k].task != i
  {
    if k < |es| - 1 {
      NotCounted(es[..|es| - 1], i, k);
    }
  }

  /** A task that never overran its budget was never withheld. */
  lemma NeverOverranNeverWithheld(e: Executive, start: uint64, frames: nat, i: nat)
    requires e.Between(start, frames) && e.Ideal() && Count(e.overruns, i) == 0
    ensures forall s :: s in e.withheld ==> s.task != i
  {
    SchedRuns.WindowIsReplay(e, start, frames);
    hide e.Between, Replay.Play, SchedRuns.ModeOf;
    assert Decided(e.table, e.From(), e.overruns, e.withheld, Slot(frames, 0));
    hide WithheldAt, InTable, Count, NamedBy;
    forall s | s in e.withheld ensures s.task != i {
      var l := SchedRuns.WithheldWasNamed(e.table, e.From(), e.overruns, s);
      SchedRuns.NamedByTask(e.table, e.overruns, l);
      NotCounted(e.overruns, i, l);
    }
  }

  /** The dispatches of the command task as the command path sees them, with the bytes each found waiting. */
  function Events(stamps: seq<Stamp>, bytes: nat -> seq<uint8>): (es: seq<CmdRuns.Event>)
    ensures |es| == |stamps|
  {
    seq(|stamps|, m requires 0 <= m < |stamps| => CmdRuns.Dispatch(bytes(m), stamps[m].time, Wrap32(stamps[m].frame)))
  }

  lemma NextPublished(start: uint64, m: nat)
    requires m > 0 && Wrap32(start) + Ticks(m) < 0x1_0000_0000
    ensures Wrap32(start + Ticks(m)) == Wrap32(start + Ticks(m - 1)) + CmdQueue.LATE_TICKS
  {
  }

  lemma {:induction false} DispatchPerFrame(es: seq<CmdRuns.Event>)
    requires |es| < 0xFFFF_FF00
    requires forall m :: 0 <= m < |es| ==> es[m].Dispatch? && es[m].frame == m
    ensures CmdArming.Dispatches(es) == |es| && CmdArming.EveryFrame(es)
  {
    if es != [] {
      DispatchPerFrame(es[..|es| - 1]);
    }
  }

  /**
    So the command task's dispatches in a finished window are what `CmdArming` asks for,
    whatever bytes they find: one in every frame, with the frame's number, at times one
    frame apart as long as the tick counter does not go round in the window.
  */
  lemma WindowDrivesTheQueue(e: Executive, start: uint64, frames: nat, i: nat, bytes: nat -> seq<uint8>)
    requires e.Between(start, frames) && e.Ideal() && RunsAlways(e.table, e.withheld, i)
    requires Wrap32(start) + Ticks(frames) < 0x1_0000_0000
    ensures var es := Events(Of(e.told, i), bytes);
            && |es| == frames
            && CmdArming.AllDispatches(es) && CmdArming.EveryFrame(es) && CmdArming.FrameTicks(es)
  {
    hide *;
    EssentialRunsEveryFrame(e, start, frames, i);
    OncePerFrameDrives(i, start, frames, bytes);
  }

  lemma EventsOf(i: nat, start: uint64, frames: nat, bytes: nat -> seq<uint8>)
    ensures var es := Events(OncePerFrame(i, start, frames), bytes);
            && |es| == frames
            && forall m: nat :: m < frames ==>
                 es[m].Dispatch? && es[m].frame == Wrap32(m) && es[m].now == Wrap32(start + Ticks(m))
  {
    hide OncePerFrame, Wrap32, Ticks;
  }

  lemma OncePerFrameDrives(i: nat, start: uint64, frames: nat, bytes: nat -> seq<uint8>)
    requires Wrap32(start) + Ticks(frames) < 0x1_0000_0000
    ensures var es := Events(OncePerFrame(i, start, frames), bytes);
            && |es| == frames
            && CmdArming.AllDispatches(es) && CmdArming.EveryFrame(es) && CmdArming.FrameTicks(es)
  {
    var es := Events(OncePerFrame(i, start, frames), bytes);
    EventsOf(i, start, frames, bytes);
    hide OncePerFrame, CmdArming.EveryFrame, Wrap32, Events;
    FrameNumbers(es, frames);
    DispatchPerFrame(es);
    forall m | 0 < m < |es| ensures es[m].now == es[m - 1].now + CmdQueue.LATE_TICKS {
      TimesApart(start, frames, m);
    }
  }

  lemma TimesApart(start: uint64, frames: nat, m: nat)
    requires Wrap32(start) + Ticks(frames) < 0x1_0000_0000 && 0 < m < frames
    ensures Wrap32(start + Ticks(m)) == Wrap32(start + Ticks(m - 1)) + CmdQueue.LATE_TICKS
  {
    assert Wrap32(start) + Ticks(m) < 0x1_0000_0000;
    hide Wrap32;
    NextPublished(start, m);
  }

  lemma FrameNumbers(es: seq<CmdRuns.Event>, frames: nat)
    requires |es| == frames && Ticks(frames) < 0x1_0000_0000
    requires forall m :: 0 <= m < |es| ==> es[m].Dispatch? && es[m].frame == Wrap32(m)
    ensures forall m :: 0 <= m < |es| ==> es[m].frame == m
    ensures frames < 0xFFFF_FF00
  {
  }
}
