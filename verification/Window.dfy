/**
  One window of the executive, slot by slot: what has been dispatched, what was withheld
  and what has been announced, and the steps that keep them in agreement with the table.
*/
module Window {
  import opened Words
  import opened TraceCheck
  import opened Ladder

  /** The dispatches so far are what the table dictates up to this slot, less what was withheld. */
  ghost predicate TraceAt(table: seq<Task>, from: Option<nat>, withheld: set<Slot>, at: Slot, dispatched: seq<nat>) {
    dispatched == Expected(table, withheld, from, at.frame) + FrameTrace(table, withheld, from, at.frame, at.task)
  }

  /** The table dictates a dispatch here, and the suspension remembered when the slot comes names it. */
  predicate WithheldAt(table: seq<Task>, from: Option<nat>, es: seq<Overrun>, s: Slot)
    requires InTable(table, es)
  {
    Live(table, from, s) && Pending(Announced(table, Until(es, s))) == Some(s)
  }

  /** What was withheld so far is decided by the overruns before each slot. */
  ghost predicate Decided(table: seq<Task>, from: Option<nat>, es: seq<Overrun>, withheld: set<Slot>, at: Slot)
    requires InTable(table, es)
  {
    forall s :: s in withheld <==> Precedes(s, at) && WithheldAt(table, from, es, s)
  }

  /** Every overrun happened in a slot that was dispatched. */
  ghost predicate OverrunsRan(table: seq<Task>, from: Option<nat>, es: seq<Overrun>, withheld: set<Slot>, at: Slot) {
    forall k :: 0 <= k < |es| ==>
      Precedes(SlotOf(es[k]), at) && Live(table, from, SlotOf(es[k])) && SlotOf(es[k]) !in withheld
  }

  ghost predicate Tracked(table: seq<Task>, from: Option<nat>, es: seq<Overrun>, withheld: set<Slot>, at: Slot,
                          dispatched: seq<nat>) {
    && InTable(table, es) && Ordered(es)
    && TraceAt(table, from, withheld, at, dispatched)
    && Decided(table, from, es, withheld, at)
    && OverrunsRan(table, from, es, withheld, at)
  }

  // ---- one slot ------------------------------------------------------------------------------

  lemma NothingYet(table: seq<Task>, from: Option<nat>)
    ensures Tracked(table, from, [], {}, Slot(0, 0), [])
  {
  }

  function Next(at: Slot): Slot {
    Slot(at.frame, at.task + 1)
  }

  lemma NextSlot(at: Slot)
    ensures forall s :: Precedes(s, Next(at)) <==> Precedes(s, at) || s == at
  {
  }

  lemma NoneAfter(table: seq<Task>, from: Option<nat>, es: seq<Overrun>, withheld: set<Slot>, at: Slot)
    requires OverrunsRan(table, from, es, withheld, at)
    ensures Until(es, at) == es
  {
  }

  lemma DecidedNext(table: seq<Task>, from: Option<nat>, es: seq<Overrun>, withheld: set<Slot>, at: Slot)
    requires InTable(table, es) && Decided(table, from, es, withheld, at)
    ensures Decided(table, from, es, if WithheldAt(table, from, es, at) then withheld + {at} else withheld, Next(at))
    ensures at !in withheld
  {
    assert !Precedes(at, at);
    NextSlot(at);
    hide WithheldAt, Precedes, Next, InTable;
  }

  lemma RanNext(table: seq<Task>, from: Option<nat>, es: seq<Overrun>, withheld: set<Slot>, at: Slot)
    requires OverrunsRan(table, from, es, withheld, at)
    ensures OverrunsRan(table, from, es, withheld, Next(at))
    ensures OverrunsRan(table, from, es, withheld + {at}, Next(at))
  {
    assert !Precedes(at, at);
    NextSlot(at);
    hide Live, Precedes, Next, SlotOf;
  }

  /** A row that is not due, or not essential in a degraded frame. */
  lemma SkipKeeps(table: seq<Task>, from: Option<nat>, es: seq<Overrun>, withheld: set<Slot>, at: Slot,
                  dispatched: seq<nat>)
    requires Tracked(table, from, es, withheld, at, dispatched) && !Live(table, from, at)
    ensures Tracked(table, from, es, withheld, Next(at), dispatched)
  {
    assert !WithheldAt(table, from, es, at);
    hide Live, WithheldAt, Expected, Ordered, Precedes, InTable, Decided, OverrunsRan;
    DecidedNext(table, from, es, withheld, at);
    RanNext(table, from, es, withheld, at);
    assert FrameTrace(table, withheld, from, at.frame, at.task + 1)
        == FrameTrace(table, withheld, from, at.frame, at.task);
  }

  lemma WithholdTrace(table: seq<Task>, from: Option<nat>, withheld: set<Slot>, at: Slot, dispatched: seq<nat>)
    requires TraceAt(table, from, withheld, at, dispatched) && at.task < |table|
    ensures TraceAt(table, from, withheld + {at}, Next(at), dispatched)
  {
    hide Live, Expected;
    var w := withheld + {at};
    assert AgreeBefore(table, withheld, w, from, at);
    assert AgreeBefore(table, withheld, w, from, Slot(at.frame, 0)) by {
      assert forall s :: Precedes(s, Slot(at.frame, 0)) ==> Precedes(s, at);
    }
    ExpectedAgrees(table, withheld, w, from, at.frame);
    FrameAgrees(table, withheld, w, from, at.frame, at.task);
  }

  /** A live slot the pending suspension names is withheld. */
  lemma WithholdKeeps(table: seq<Task>, from: Option<nat>, es: seq<Overrun>, withheld: set<Slot>, at: Slot,
                      dispatched: seq<nat>)
    requires Tracked(table, from, es, withheld, at, dispatched) && Live(table, from, at)
    requires Pending(Announced(table, es)) == Some(at)
    ensures Tracked(table, from, es, withheld + {at}, Next(at), dispatched)
  {
    assert at.task < |table|;
    hide Announced, Pending, TraceAt, Ordered, Precedes, Decided, Until, Due;
    NoneAfter(table, from, es, withheld, at);
    assert WithheldAt(table, from, es, at);
    hide Live, WithheldAt, InTable, OverrunsRan, Next;
    WithholdTrace(table, from, withheld, at, dispatched);
    DecidedNext(table, from, es, withheld, at);
    RanNext(table, from, es, withheld, at);
  }

  lemma RunTrace(table: seq<Task>, from: Option<nat>, withheld: set<Slot>, at: Slot, dispatched: seq<nat>)
    requires TraceAt(table, from, withheld, at, dispatched) && Live(table, from, at) && at !in withheld
    ensures TraceAt(table, from, withheld, Next(at), dispatched + [at.task])
  {
    hide Live, Expected;
  }

  /** Any other live slot is dispatched. */
  lemma RunKeeps(table: seq<Task>, from: Option<nat>, es: seq<Overrun>, withheld: set<Slot>, at: Slot,
                 dispatched: seq<nat>)
    requires Tracked(table, from, es, withheld, at, dispatched) && Live(table, from, at)
    requires Pending(Announced(table, es)) != Some(at)
    ensures Tracked(table, from, es, withheld, Next(at), dispatched + [at.task])
    ensures at !in withheld
  {
    hide Announced, Pending, TraceAt, Ordered, Precedes, Decided, Until, Due;
    NoneAfter(table, from, es, withheld, at);
    assert !WithheldAt(table, from, es, at);
    hide Live, WithheldAt, InTable, OverrunsRan, Next;
    DecidedNext(table, from, es, withheld, at);
    RanNext(table, from, es, withheld, at);
    RunTrace(table, from, withheld, at, dispatched);
  }

  lemma LaterOverrun(es: seq<Overrun>, e: Overrun, s: Slot)
    requires !Precedes(SlotOf(e), s)
    ensures Until(es + [e], s) == Until(es, s)
  {
    assert (es + [e])[..|es|] == es;
  }

  lemma InTableAppend(table: seq<Task>, es: seq<Overrun>, e: Overrun)
    requires InTable(table, es) && e.task < |table|
    ensures InTable(table, es + [e])
  {
  }

  /** An overrun decides only slots still to come. */
  lemma OverrunDecides(table: seq<Task>, from: Option<nat>, es: seq<Overrun>, withheld: set<Slot>, e: Overrun)
    requires InTable(table, es) && e.task < |table| && InTable(table, es + [e])
    requires Decided(table, from, es, withheld, Next(SlotOf(e)))
    ensures Decided(table, from, es + [e], withheld, Next(SlotOf(e)))
  {
    hide Live, Announced, Pending, Until, InTable;
    forall s | Precedes(s, Next(SlotOf(e)))
      ensures WithheldAt(table, from, es + [e], s) <==> WithheldAt(table, from, es, s)
    {
      LaterOverrun(es, e, s);
    }
  }

  lemma OverrunRan(table: seq<Task>, from: Option<nat>, es: seq<Overrun>, withheld: set<Slot>, e: Overrun)
    requires OverrunsRan(table, from, es, withheld, Next(SlotOf(e)))
    requires Live(table, from, SlotOf(e)) && SlotOf(e) !in withheld
    ensures OverrunsRan(table, from, es + [e], withheld, Next(SlotOf(e)))
  {
    hide Live;
  }

  lemma OverrunInOrder(es: seq<Overrun>, e: Overrun)
    requires Ordered(es) && forall k :: 0 <= k < |es| ==> Precedes(SlotOf(es[k]), SlotOf(e))
    ensures Ordered(es + [e])
  {
    hide Precedes, SlotOf;
  }

  /** Climbing the ladder after a dispatch keeps everything in agreement. */
  lemma OverrunKeeps(table: seq<Task>, from: Option<nat>, es: seq<Overrun>, withheld: set<Slot>,
                     dispatched: seq<nat>, e: Overrun)
    requires Tracked(table, from, es, withheld, SlotOf(e), dispatched)
    requires Live(table, from, SlotOf(e)) && Pending(Announced(table, es)) != Some(SlotOf(e))
    ensures Tracked(table, from, es + [e], withheld, Next(SlotOf(e)), dispatched + [e.task])
  {
    assert e.task < |table|;
    RunKeeps(table, from, es, withheld, SlotOf(e), dispatched);
    hide Live, Announced, Pending, TraceAt, WithheldAt, Precedes, SlotOf, Next;
    InTableAppend(table, es, e);
    assert Ordered(es + [e]) by { OverrunInOrder(es, e); }
    hide InTable, Ordered;
    OverrunDecides(table, from, es, withheld, e);
    OverrunRan(table, from, es, withheld, e);
    assert SlotOf(e).task == e.task;
  }

  // ---- one frame -------------------------------------------------------------------------------

  lemma FrameEndTrace(table: seq<Task>, from: Option<nat>, withheld: set<Slot>, frame: nat, dispatched: seq<nat>)
    requires TraceAt(table, from, withheld, Slot(frame, |table|), dispatched)
    ensures TraceAt(table, from, withheld, Slot(frame + 1, 0), dispatched)
  {
    hide Dictated;
  }

  lemma FrameEndKeeps(table: seq<Task>, from: Option<nat>, es: seq<Overrun>, withheld: set<Slot>, frame: nat,
                      dispatched: seq<nat>)
    requires Tracked(table, from, es, withheld, Slot(frame, |table|), dispatched)
    ensures Tracked(table, from, es, withheld, Slot(frame + 1, 0), dispatched)
  {
    hide Announced, Pending, TraceAt, Until, Ordered, Due;
    FrameEndTrace(table, from, withheld, frame, dispatched);
    assert forall s :: Precedes(s, Slot(frame, |table|)) ==> Precedes(s, Slot(frame + 1, 0));
    assert forall s :: Precedes(s, Slot(frame + 1, 0)) && s.task < |table| ==> Precedes(s, Slot(frame, |table|));
    assert forall s :: WithheldAt(table, from, es, s) ==> s.task < |table|;
  }

  // ---- what each dispatch was told ---------------------------------------------------------------

  /** A dispatch with the frame count and the time its task could read. */
  datatype Stamp = Stamp(task: nat, frame: nat, time: uint32)

  function Stamps(tasks: seq<nat>, frame: nat, time: uint32): seq<Stamp> {
    seq(|tasks|, k requires 0 <= k < |tasks| => Stamp(tasks[k], frame, time))
  }

  /** The table's dispatches, each with its frame and that frame's time on the absolute schedule. */
  function Timed(table: seq<Task>, withheld: set<Slot>, from: Option<nat>, start: nat, frames: nat): seq<Stamp> {
    if frames == 0 then []
    else
      Timed(table, withheld, from, start, frames - 1)
      + Stamps(FrameTrace(table, withheld, from, frames - 1, |table|), frames - 1, Wrap32(start + Ticks(frames - 1)))
  }

  /** The mode of a run seen one frame later: unchanged, or degraded from there on. */
  predicate ModeMoves(from: Option<nat>, later: Option<nat>, frame: nat) {
    later == from || (from == None && later == Some(frame))
  }

  lemma FrameSame(table: seq<Task>, a: set<Slot>, b: set<Slot>, from: Option<nat>, later: Option<nat>, frames: nat,
                  frame: nat)
    requires AgreeBefore(table, a, b, from, Slot(frames, 0)) && frame < frames && ModeMoves(from, later, frames + 1)
    ensures FrameTrace(table, a, from, frame, |table|) == FrameTrace(table, b, later, frame, |table|)
  {
    hide Live, FrameTrace;
    assert AgreeBefore(table, a, b, from, Slot(frame, |table|)) by {
      assert forall s :: Precedes(s, Slot(frame, |table|)) ==> Precedes(s, Slot(frames, 0));
    }
    FrameAgrees(table, a, b, from, frame, |table|);
    SameMode(table, b, from, later, frame, |table|);
  }

  /** Later slots and a later degradation leave the earlier frames as they were. */
  lemma {:induction false} FramesSame(table: seq<Task>, a: set<Slot>, b: set<Slot>, from: Option<nat>,
                                      later: Option<nat>, start: nat, frames: nat, n: nat)
    requires AgreeBefore(table, a, b, from, Slot(frames, 0)) && n <= frames && ModeMoves(from, later, frames + 1)
    ensures Expected(table, a, from, n) == Expected(table, b, later, n)
    ensures Timed(table, a, from, start, n) == Timed(table, b, later, start, n)
  {
    if n == 0 {
    } else {
      hide AgreeBefore, FrameTrace, ModeMoves, Stamps, Ticks;
      FramesSame(table, a, b, from, later, start, frames, n - 1);
      FrameSame(table, a, b, from, later, frames, n - 1);
    }
  }

  /** Adding a frame's dispatches with its stamp keeps the stamps on the schedule. */
  lemma TimedGrows(table: seq<Task>, a: set<Slot>, b: set<Slot>, from: Option<nat>, later: Option<nat>, start: nat,
                   frame: nat, was: seq<nat>, more: seq<nat>)
    requires AgreeBefore(table, a, b, from, Slot(frame, 0)) && ModeMoves(from, later, frame + 1)
    requires was == Expected(table, a, from, frame) && was + more == Expected(table, b, later, frame + 1)
    ensures Timed(table, a, from, start, frame) + Stamps(more, frame, Wrap32(start + Ticks(frame)))
         == Timed(table, b, later, start, frame + 1)
  {
    hide AgreeBefore, FrameTrace, ModeMoves, Stamps, Ticks;
    FramesSame(table, a, b, from, later, start, frame, frame);
    var tasks := FrameTrace(table, b, later, frame, |table|);
    assert was + more == was + tasks;
    assert (was + more)[|was|..] == more && (was + tasks)[|was|..] == tasks;
  }

  /** Since then these dispatches were made, each told this frame and time. */
  predicate StampedBy(told: seq<Stamp>, ran: seq<nat>, told': seq<Stamp>, ran': seq<nat>, frame: nat, time: uint32) {
    ran <= ran' && told' == told + Stamps(ran'[|ran|..], frame, time)
  }

  lemma StampsChain(t0: seq<Stamp>, r0: seq<nat>, t1: seq<Stamp>, r1: seq<nat>, t2: seq<Stamp>, r2: seq<nat>,
                    frame: nat, time: uint32)
    requires StampedBy(t0, r0, t1, r1, frame, time) && StampedBy(t1, r1, t2, r2, frame, time)
    ensures StampedBy(t0, r0, t2, r2, frame, time)
  {
    assert r2[|r0|..] == r1[|r0|..] + r2[|r1|..];
    assert Stamps(r2[|r0|..], frame, time) == Stamps(r1[|r0|..], frame, time) + Stamps(r2[|r1|..], frame, time);
  }

  lemma StampsNone(told: seq<Stamp>, ran: seq<nat>, frame: nat, time: uint32)
    ensures StampedBy(told, ran, told, ran, frame, time)
  {
  }

  lemma StampsOne(told: seq<Stamp>, ran: seq<nat>, task: nat, frame: nat, time: uint32)
    ensures StampedBy(told, ran, told + [Stamp(task, frame, time)], ran + [task], frame, time)
  {
    assert (ran + [task])[|ran|..] == [task];
  }

  // ---- the frames in which the watchdog is fed ------------------------------------------------------

  /** The suspension remembered when frame `f` ends is for that frame, and for a task due in it. */
  predicate EndsSuspended(table: seq<Task>, es: seq<Overrun>, f: nat)
    requires InTable(table, es)
  {
    var p := Pending(Announced(table, Until(es, Slot(f + 1, 0))));
    p.Some? && p.value.frame == f && p.value.task < |table| && Due(table[p.value.task], f)
  }

  ghost predicate Withholds(withheld: set<Slot>, f: nat) {
    exists s :: s in withheld && s.frame == f
  }

  /** A frame earns its feed exactly when it withheld a task if and only if it ends with that still remembered. */
  ghost predicate Earns(table: seq<Task>, es: seq<Overrun>, withheld: set<Slot>, f: nat)
    requires InTable(table, es)
  {
    Withholds(withheld, f) <==> EndsSuspended(table, es, f)
  }

  ghost function FedFrames(table: seq<Task>, es: seq<Overrun>, withheld: set<Slot>, frames: nat): seq<nat>
    requires InTable(table, es)
  {
    if frames == 0 then []
    else FedFrames(table, es, withheld, frames - 1)
         + if Earns(table, es, withheld, frames - 1) then [frames - 1] else []
  }

  /** The history has only grown, and only by overruns of this frame. */
  predicate GrewIn(es: seq<Overrun>, later: seq<Overrun>, frame: nat) {
    es <= later && forall k :: |es| <= k < |later| ==> later[k].frame == frame
  }

  lemma {:induction false} UntilGrown(es: seq<Overrun>, later: seq<Overrun>, frame: nat, s: Slot)
    requires GrewIn(es, later, frame) && s.frame <= frame && s.task == 0
    ensures Until(later, s) == Until(es, s)
  {
    if |later| > |es| {
      var shorter := later[..|later| - 1];
      UntilGrown(es, shorter, frame, s);
      assert later[|later| - 1].frame == frame;
    } else {
      assert later == es;
    }
  }

  /** Only slots of this frame were withheld since. */
  ghost predicate WithheldIn(a: set<Slot>, b: set<Slot>, frame: nat) {
    a <= b && forall s :: s in b && s !in a ==> s.frame == frame
  }

  lemma WithheldAgrees(table: seq<Task>, a: set<Slot>, b: set<Slot>, from: Option<nat>, frame: nat)
    requires WithheldIn(a, b, frame)
    ensures AgreeBefore(table, a, b, from, Slot(frame, 0))
  {
  }

  lemma EarnsSame(table: seq<Task>, es: seq<Overrun>, later: seq<Overrun>, a: set<Slot>, b: set<Slot>, frame: nat,
                  f: nat)
    requires InTable(table, es) && InTable(table, later) && GrewIn(es, later, frame) && WithheldIn(a, b, frame)
    requires f < frame
    ensures Earns(table, es, a, f) <==> Earns(table, later, b, f)
  {
    assert Withholds(a, f) <==> Withholds(b, f);
    hide GrewIn, Until, Announced, Pending, Due, InTable, Withholds, WithheldIn;
    UntilGrown(es, later, frame, Slot(f + 1, 0));
  }

  lemma FedUnfolds(table: seq<Task>, es: seq<Overrun>, withheld: set<Slot>, n: nat)
    requires InTable(table, es)
    ensures FedFrames(table, es, withheld, 0) == []
    ensures FedFrames(table, es, withheld, n + 1)
         == FedFrames(table, es, withheld, n) + if Earns(table, es, withheld, n) then [n] else []
  {
    hide Earns;
  }

  lemma {:induction false} FedSame(table: seq<Task>, es: seq<Overrun>, later: seq<Overrun>, a: set<Slot>, b: set<Slot>,
                                   frame: nat, n: nat)
    requires InTable(table, es) && InTable(table, later) && GrewIn(es, later, frame) && WithheldIn(a, b, frame)
    requires n <= frame
    ensures FedFrames(table, es, a, n) == FedFrames(table, later, b, n)
  {
    hide *;
    if n == 0 {
      FedUnfolds(table, es, a, n);
      FedUnfolds(table, later, b, n);
    } else {
      FedSame(table, es, later, a, b, frame, n - 1);
      EarnsSame(table, es, later, a, b, frame, n - 1);
      FedUnfolds(table, es, a, n - 1);
      FedUnfolds(table, later, b, n - 1);
    }
  }

  lemma GrewOn(a: seq<Overrun>, b: seq<Overrun>, c: seq<Overrun>, frame: nat)
    requires GrewIn(a, b, frame) && GrewIn(b, c, frame)
    ensures GrewIn(a, c, frame)
  {
  }

  /** Before its first slot a frame has withheld nothing. */
  lemma NoneWithheldYet(table: seq<Task>, from: Option<nat>, es: seq<Overrun>, withheld: set<Slot>, frame: nat,
                        dispatched: seq<nat>)
    requires Tracked(table, from, es, withheld, Slot(frame, 0), dispatched)
    ensures !Withholds(withheld, frame)
  {
    hide WithheldAt, Ordered, TraceAt;
  }

  lemma OneWithheld(before: set<Slot>, withheld: set<Slot>, gap: Option<nat>, frame: nat)
    requires !Withholds(before, frame)
    requires withheld == before + if gap.Some? then {Slot(frame, gap.value)} else {}
    ensures Withholds(withheld, frame) <==> gap.Some?
    ensures WithheldIn(before, withheld, frame)
  {
    if gap.Some? {
      assert Slot(frame, gap.value) in withheld;
    }
  }

  lemma UntilFrameEnd(table: seq<Task>, from: Option<nat>, es: seq<Overrun>, withheld: set<Slot>, frame: nat,
                      dispatched: seq<nat>)
    requires Tracked(table, from, es, withheld, Slot(frame, |table|), dispatched)
    ensures Until(es, Slot(frame + 1, 0)) == es
  {
    hide WithheldAt, Ordered, TraceAt, Decided, Live;
  }

  /** One more frame on the schedule, with the feed it earned. */
  lemma HistoryKept(table: seq<Task>, from: Option<nat>, later: Option<nat>, es: seq<Overrun>, es': seq<Overrun>,
                    w: set<Slot>, w': set<Slot>, start: nat, frame: nat, ran: seq<nat>, ran': seq<nat>,
                    told: seq<Stamp>, told': seq<Stamp>)
    requires Tracked(table, from, es, w, Slot(frame, 0), ran)
    requires Tracked(table, later, es', w', Slot(frame + 1, 0), ran')
    requires ModeMoves(from, later, frame + 1) && GrewIn(es, es', frame) && WithheldIn(w, w', frame)
    requires StampedBy(told, ran, told', ran', frame, Wrap32(start + Ticks(frame)))
    requires told == Timed(table, w, from, start, frame)
    ensures told' == Timed(table, w', later, start, frame + 1)
    ensures FedFrames(table, es', w', frame + 1)
         == FedFrames(table, es, w, frame) + if Earns(table, es', w', frame) then [frame] else []
  {
    assert ran == Expected(table, w, from, frame) && ran' == Expected(table, w', later, frame + 1) by {
      hide Expected, Decided, OverrunsRan, Ordered;
    }
    hide *;
    WithheldAgrees(table, w, w', from, frame);
    HistoryStamps(table, from, later, w, w', start, frame, ran, ran', told, told');
    assert InTable(table, es) && InTable(table, es') by {
      InTableOf(table, from, es, w, Slot(frame, 0), ran);
      InTableOf(table, later, es', w', Slot(frame + 1, 0), ran');
    }
    FedSame(table, es, es', w, w', frame, frame);
    FedUnfolds(table, es', w', frame);
  }

  lemma HistoryStamps(table: seq<Task>, from: Option<nat>, later: Option<nat>, w: set<Slot>, w': set<Slot>,
                      start: nat, frame: nat, ran: seq<nat>, ran': seq<nat>, told: seq<Stamp>, told': seq<Stamp>)
    requires AgreeBefore(table, w, w', from, Slot(frame, 0)) && ModeMoves(from, later, frame + 1)
    requires ran == Expected(table, w, from, frame) && ran' == Expected(table, w', later, frame + 1)
    requires StampedBy(told, ran, told', ran', frame, Wrap32(start + Ticks(frame)))
    requires told == Timed(table, w, from, start, frame)
    ensures told' == Timed(table, w', later, start, frame + 1)
  {
    hide AgreeBefore, Expected, Timed, Stamps, Ticks, ModeMoves;
    assert ran' == ran + ran'[|ran|..];
    TimedGrows(table, w, w', from, later, start, frame, ran, ran'[|ran|..]);
  }

  lemma InTableOf(table: seq<Task>, from: Option<nat>, es: seq<Overrun>, withheld: set<Slot>, at: Slot,
                  dispatched: seq<nat>)
    requires Tracked(table, from, es, withheld, at, dispatched)
    ensures InTable(table, es)
  {
  }
}
