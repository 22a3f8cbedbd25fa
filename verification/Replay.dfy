/**
  The run a task table, the cost of each dispatch and the mode lead to, slot by slot: what is
  dispatched, which dispatches overrun their budget and what is withheld.  Nothing else the
  environment does enters into it.
*/
module Replay {
  import opened Words
  import opened TraceCheck
  import opened Ladder
  import opened Window

  datatype Played = Played(ran: seq<nat>, es: seq<Overrun>, withheld: set<Slot>)

  /** The overruns of a dispatch that costs this much. */
  function Charged(t: Task, used: uint32, at: Slot): seq<Overrun> {
    if used > t.budget then [Overrun(at.task, Wrap32(at.frame))] else []
  }

  /** One slot: skipped, withheld, or dispatched at the next cost. */
  function PlaySlot(table: seq<Task>, cost: nat -> uint32, from: Option<nat>, p: Played, at: Slot): (q: Played)
    requires InTable(table, p.es)
    ensures InTable(table, q.es)
  {
    if !Live(table, from, at) then p
    else if Pending(Announced(table, p.es)) == Some(at) then p.(withheld := p.withheld + {at})
    else
      Played(p.ran + [at.task], p.es + Charged(table[at.task], cost(|p.ran|), at), p.withheld)
  }

  /** The first `n` slots of a frame. */
  function PlayFrame(table: seq<Task>, cost: nat -> uint32, from: Option<nat>, p: Played, frame: nat, n: nat)
    : (q: Played)
    requires InTable(table, p.es)
    ensures InTable(table, q.es)
  {
    if n == 0 then p
    else PlaySlot(table, cost, from, PlayFrame(table, cost, from, p, frame, n - 1), Slot(frame, n - 1))
  }

  /** The run of a whole window. */
  function Play(table: seq<Task>, cost: nat -> uint32, from: Option<nat>, frames: nat): (q: Played)
    ensures InTable(table, q.es)
  {
    if frames == 0 then Played([], [], {})
    else PlayFrame(table, cost, from, Play(table, cost, from, frames - 1), frames - 1, |table|)
  }

  /** The run as far as this slot. */
  function PlayTo(table: seq<Task>, cost: nat -> uint32, from: Option<nat>, at: Slot): (q: Played)
    ensures InTable(table, q.es)
  {
    PlayFrame(table, cost, from, Play(table, cost, from, at.frame), at.frame, at.task)
  }

  // ---- the steps --------------------------------------------------------------------------------

  lemma PlayStarts(table: seq<Task>, cost: nat -> uint32, from: Option<nat>)
    ensures PlayTo(table, cost, from, Slot(0, 0)) == Played([], [], {})
  {
  }

  lemma PlayNext(table: seq<Task>, cost: nat -> uint32, from: Option<nat>, at: Slot)
    ensures PlayTo(table, cost, from, Next(at)) == PlaySlot(table, cost, from, PlayTo(table, cost, from, at), at)
  {
    hide PlaySlot;
    assert Next(at).task - 1 == at.task;
  }

  lemma PlayEndsFrame(table: seq<Task>, cost: nat -> uint32, from: Option<nat>, frame: nat)
    ensures PlayTo(table, cost, from, Slot(frame, |table|)) == Play(table, cost, from, frame + 1)
    ensures PlayTo(table, cost, from, Slot(frame, 0)) == Play(table, cost, from, frame)
    ensures PlayTo(table, cost, from, Slot(frame + 1, 0)) == Play(table, cost, from, frame + 1)
  {
    hide PlaySlot;
  }

  lemma Skipped(table: seq<Task>, cost: nat -> uint32, from: Option<nat>, p: Played, at: Slot)
    requires InTable(table, p.es) && !Live(table, from, at)
    ensures PlaySlot(table, cost, from, p, at) == p
  {
  }

  lemma WithheldHere(table: seq<Task>, cost: nat -> uint32, from: Option<nat>, p: Played, at: Slot)
    requires InTable(table, p.es) && Live(table, from, at) && Pending(Announced(table, p.es)) == Some(at)
    ensures PlaySlot(table, cost, from, p, at) == Played(p.ran, p.es, p.withheld + {at})
  {
  }

  lemma RanHere(table: seq<Task>, cost: nat -> uint32, from: Option<nat>, p: Played, at: Slot)
    requires InTable(table, p.es) && Live(table, from, at) && Pending(Announced(table, p.es)) != Some(at)
    ensures at.task < |table|
    ensures PlaySlot(table, cost, from, p, at) ==
            Played(p.ran + [at.task], p.es + Charged(table[at.task], cost(|p.ran|), at), p.withheld)
  {
  }

  // ---- the replay keeps the table ------------------------------------------------------------------

  lemma SlotTracked(table: seq<Task>, cost: nat -> uint32, from: Option<nat>, p: Played, at: Slot)
    requires at.frame <= U32_MAX && InTable(table, p.es) && Tracked(table, from, p.es, p.withheld, at, p.ran)
    ensures var q := PlaySlot(table, cost, from, p, at); Tracked(table, from, q.es, q.withheld, Next(at), q.ran)
  {
    hide *;
    if !Live(table, from, at) {
      Skipped(table, cost, from, p, at);
      SkipKeeps(table, from, p.es, p.withheld, at, p.ran);
    } else if Pending(Announced(table, p.es)) == Some(at) {
      WithheldHere(table, cost, from, p, at);
      WithholdKeeps(table, from, p.es, p.withheld, at, p.ran);
    } else {
      RanHere(table, cost, from, p, at);
      ChargedIs(table[at.task], cost(|p.ran|), at);
      RunKeeps(table, from, p.es, p.withheld, at, p.ran);
      var e := Overrun(at.task, at.frame);
      SlotAgain(at, e);
      OverrunKeeps(table, from, p.es, p.withheld, p.ran, e);
      assert p.es + [] == p.es;
    }
  }

  lemma ChargedIs(t: Task, used: uint32, at: Slot)
    requires at.frame <= U32_MAX
    ensures Charged(t, used, at) == if used > t.budget then [Overrun(at.task, at.frame)] else []
  {
  }

  lemma SlotAgain(at: Slot, e: Overrun)
    requires e.task == at.task && e.frame == at.frame
    ensures SlotOf(e) == at
  {
  }

  lemma {:induction false} FrameTracked(table: seq<Task>, cost: nat -> uint32, from: Option<nat>, p: Played, frame: nat,
                                        n: nat)
    requires frame <= U32_MAX && InTable(table, p.es) && Tracked(table, from, p.es, p.withheld, Slot(frame, 0), p.ran)
    ensures var q := PlayFrame(table, cost, from, p, frame, n);
            Tracked(table, from, q.es, q.withheld, Slot(frame, n), q.ran)
  {
    hide Tracked, PlaySlot, InTable;
    if n == 0 {
    } else {
      FrameTracked(table, cost, from, p, frame, n - 1);
      SlotTracked(table, cost, from, PlayFrame(table, cost, from, p, frame, n - 1), Slot(frame, n - 1));
    }
  }

  /**
    Whatever the table, the costs and the mode: what is dispatched is what the table dictates
    less what is withheld, and what is withheld is decided by the overruns before each slot.
  */
  lemma {:induction false} PlayTracked(table: seq<Task>, cost: nat -> uint32, from: Option<nat>, frames: nat)
    requires frames <= 0x1_0000_0000
    ensures var q := Play(table, cost, from, frames);
            Tracked(table, from, q.es, q.withheld, Slot(frames, 0), q.ran)
  {
    hide Tracked, PlayFrame, InTable;
    if frames == 0 {
      NothingYet(table, from);
    } else {
      var p := Play(table, cost, from, frames - 1);
      PlayTracked(table, cost, from, frames - 1);
      FrameTracked(table, cost, from, p, frames - 1, |table|);
      var q := PlayFrame(table, cost, from, p, frames - 1, |table|);
      FrameEndKeeps(table, from, q.es, q.withheld, frames - 1, q.ran);
    }
  }

  lemma PlayToTracked(table: seq<Task>, cost: nat -> uint32, from: Option<nat>, at: Slot)
    requires at.frame <= U32_MAX
    ensures var q := PlayTo(table, cost, from, at); Tracked(table, from, q.es, q.withheld, at, q.ran)
  {
    hide Tracked, PlayFrame, Play, InTable;
    PlayTracked(table, cost, from, at.frame);
    FrameTracked(table, cost, from, Play(table, cost, from, at.frame), at.frame, at.task);
  }

  // ---- the mode ---------------------------------------------------------------------------------

  lemma {:induction false} SameModeFrame(table: seq<Task>, cost: nat -> uint32, a: Option<nat>, b: Option<nat>,
                                         p: Played, frame: nat, n: nat)
    requires InTable(table, p.es) && (Degraded(a, frame) <==> Degraded(b, frame))
    ensures PlayFrame(table, cost, a, p, frame, n) == PlayFrame(table, cost, b, p, frame, n)
  {
    if n == 0 {
    } else {
      hide InTable, Pending, Announced, Charged;
      SameModeFrame(table, cost, a, b, p, frame, n - 1);
      assert Live(table, a, Slot(frame, n - 1)) <==> Live(table, b, Slot(frame, n - 1));
    }
  }

  /** Entering safe mode at a frame boundary changes nothing about the run before it. */
  lemma {:induction false} DegradeKeeps(table: seq<Task>, cost: nat -> uint32, frame: nat, frames: nat)
    requires frames <= frame
    ensures Play(table, cost, Some(frame), frames) == Play(table, cost, None, frames)
  {
    hide PlayFrame;
    if frames == 0 {
    } else {
      DegradeKeeps(table, cost, frame, frames - 1);
      SameModeFrame(table, cost, Some(frame), None, Play(table, cost, None, frames - 1), frames - 1, |table|);
    }
  }

  // ---- a run only grows ---------------------------------------------------------------------------

  lemma SlotGrows(table: seq<Task>, cost: nat -> uint32, from: Option<nat>, p: Played, at: Slot)
    requires InTable(table, p.es)
    ensures p.es <= PlaySlot(table, cost, from, p, at).es
  {
    hide InTable, Live, Pending, Announced;
  }

  lemma {:induction false} FrameGrows(table: seq<Task>, cost: nat -> uint32, from: Option<nat>, p: Played, frame: nat,
                                      m: nat, n: nat)
    requires InTable(table, p.es) && m <= n
    ensures PlayFrame(table, cost, from, p, frame, m).es <= PlayFrame(table, cost, from, p, frame, n).es
  {
    hide PlaySlot, InTable;
    if m == n {
    } else {
      FrameGrows(table, cost, from, p, frame, m, n - 1);
      SlotGrows(table, cost, from, PlayFrame(table, cost, from, p, frame, n - 1), Slot(frame, n - 1));
    }
  }

  lemma {:induction false} PlayGrows(table: seq<Task>, cost: nat -> uint32, from: Option<nat>, frame: nat, frames: nat)
    requires frame <= frames
    ensures Play(table, cost, from, frame).es <= Play(table, cost, from, frames).es
  {
    hide PlayFrame, InTable;
    if frame == frames {
    } else {
      PlayGrows(table, cost, from, frame, frames - 1);
      FrameGrows(table, cost, from, Play(table, cost, from, frames - 1), frames - 1, 0, |table|);
      FrameOfNone(table, cost, from, Play(table, cost, from, frames - 1), frames - 1);
    }
  }

  lemma FrameOfNone(table: seq<Task>, cost: nat -> uint32, from: Option<nat>, p: Played, frame: nat)
    requires InTable(table, p.es)
    ensures PlayFrame(table, cost, from, p, frame, 0) == p
  {
  }

  /** The overruns up to a slot of a window are the first of the window's. */
  lemma PlayToGrows(table: seq<Task>, cost: nat -> uint32, from: Option<nat>, at: Slot, frames: nat)
    requires at.frame < frames && at.task <= |table|
    ensures PlayTo(table, cost, from, at).es <= Play(table, cost, from, frames).es
  {
    hide PlayFrame, InTable;
    FrameGrows(table, cost, from, Play(table, cost, from, at.frame), at.frame, at.task, |table|);
    PlayGrows(table, cost, from, at.frame + 1, frames);
  }

  // ---- the overruns and the costs ---------------------------------------------------------------------

  /** The dispatches, among these, that cost more than their budget. */
  function OverBudget(table: seq<Task>, cost: nat -> uint32, told: seq<Stamp>): seq<Overrun> {
    if told == [] then []
    else
      var n := |told| - 1;
      var s := told[n];
      OverBudget(table, cost, told[..n])
      + if s.task < |table| then Charged(table[s.task], cost(n), Slot(s.frame, s.task)) else []
  }

  lemma OneMoreStamp(table: seq<Task>, cost: nat -> uint32, told: seq<Stamp>, s: Stamp)
    requires s.task < |table| && s.frame <= U32_MAX
    ensures OverBudget(table, cost, told + [s]) ==
            OverBudget(table, cost, told)
            + if cost(|told|) > table[s.task].budget then [Overrun(s.task, s.frame)] else []
  {
    hide Charged;
    assert (told + [s])[..|told|] == told;
    ChargedIs(table[s.task], cost(|told|), Slot(s.frame, s.task));
  }

  /** Every dispatch the table dictates in this order stays within its task's budget. */
  predicate Affordable(table: seq<Task>, cost: nat -> uint32, ran: seq<nat>) {
    forall k :: 0 <= k < |ran| && ran[k] < |table| ==> cost(k) <= table[ran[k]].budget
  }

  lemma AffordableNext(table: seq<Task>, cost: nat -> uint32, ran: seq<nat>, task: nat)
    requires task < |table|
    ensures Affordable(table, cost, ran + [task])
            <==> Affordable(table, cost, ran) && cost(|ran|) <= table[task].budget
  {
    if Affordable(table, cost, ran + [task]) {
      assert forall k :: 0 <= k < |ran| ==> ran[k] == (ran + [task])[k];
      assert (ran + [task])[|ran|] == task;
    }
  }

  /** Without an overrun so far, the run is the whole table's. */
  ghost predicate CleanSoFar(table: seq<Task>, cost: nat -> uint32, p: Played, full: seq<nat>) {
    && (p.es == [] <==> Affordable(table, cost, full))
    && (p.es == [] ==> p.ran == full && p.withheld == {})
  }

  lemma CleanSlot(table: seq<Task>, cost: nat -> uint32, from: Option<nat>, p: Played, at: Slot, full: seq<nat>)
    requires InTable(table, p.es) && CleanSoFar(table, cost, p, full)
    ensures CleanSoFar(table, cost, PlaySlot(table, cost, from, p, at),
                       full + if Dictated(table, {}, from, at) then [at.task] else [])
  {
    assert Pending(Announced(table, [])) == None;
    hide Due, Degraded, Pending, Announced, Affordable, InTable;
    if Live(table, from, at) {
      AffordableNext(table, cost, full, at.task);
    } else {
      assert full + [] == full;
    }
  }

  lemma {:induction false} CleanFrame(table: seq<Task>, cost: nat -> uint32, from: Option<nat>, p: Played, frame: nat,
                                      n: nat, full: seq<nat>)
    requires InTable(table, p.es) && CleanSoFar(table, cost, p, full)
    ensures CleanSoFar(table, cost, PlayFrame(table, cost, from, p, frame, n),
                       full + FrameTrace(table, {}, from, frame, n))
  {
    hide CleanSoFar, PlaySlot, InTable, Dictated;
    if n == 0 {
      assert full + [] == full;
    } else {
      CleanFrame(table, cost, from, p, frame, n - 1, full);
      var before := FrameTrace(table, {}, from, frame, n - 1);
      CleanSlot(table, cost, from, PlayFrame(table, cost, from, p, frame, n - 1), Slot(frame, n - 1), full + before);
      var more := if Dictated(table, {}, from, Slot(frame, n - 1)) then [n - 1] else [];
      assert full + before + more == full + (before + more);
    }
  }

  /**
    A window sees no overrun exactly when every dispatch of the table's own sequence, in its
    place in that sequence, costs no more than its budget.
  */
  lemma {:induction false} CleanExactlyWhen(table: seq<Task>, cost: nat -> uint32, from: Option<nat>, frames: nat)
    ensures var p, full := Play(table, cost, from, frames), Expected(table, {}, from, frames);
            && (p.es == [] <==> Affordable(table, cost, full))
            && (p.es == [] ==> p.ran == full && p.withheld == {})
  {
    hide PlayFrame, FrameTrace, InTable, Affordable;
    if frames == 0 {
      assert Affordable(table, cost, []) by { NothingToPay(table, cost); }
    } else {
      CleanExactlyWhen(table, cost, from, frames - 1);
      var p, full := Play(table, cost, from, frames - 1), Expected(table, {}, from, frames - 1);
      assert CleanSoFar(table, cost, p, full);
      CleanFrame(table, cost, from, p, frames - 1, |table|, full);
    }
  }

  lemma NothingToPay(table: seq<Task>, cost: nat -> uint32)
    ensures Affordable(table, cost, [])
  {
  }
}
