/**
  The frames in which a window feeds the hardware watchdog, whose timeout is four frames
  (flight/core/recover.c): told from the overruns, and how many of them it takes to leave
  four frames in a row unfed.
*/
module Feeds {
  import opened Words
  import opened TraceCheck
  import opened Ladder
  import opened Window
  import opened Replay
  import opened Sched
  import opened SchedRuns

  lemma {:induction false} FedAre(table: seq<Task>, es: seq<Overrun>, withheld: set<Slot>, frames: nat, f: nat)
    requires InTable(table, es)
    ensures f in FedFrames(table, es, withheld, frames) <==> f < frames && Earns(table, es, withheld, f)
  {
    hide Earns;
    if frames == 0 {
    } else {
      FedAre(table, es, withheld, frames - 1, f);
    }
  }

  /** The overruns before it withhold some slot of this frame. */
  ghost predicate FrameWithholds(table: seq<Task>, from: Option<nat>, es: seq<Overrun>, f: nat)
    requires InTable(table, es)
  {
    exists s :: WithheldAt(table, from, es, s) && s.frame == f
  }

  /** The frame withheld a task exactly if it ended with a suspension for a task due in it. */
  ghost predicate FedIn(table: seq<Task>, from: Option<nat>, es: seq<Overrun>, f: nat)
    requires InTable(table, es)
  {
    FrameWithholds(table, from, es, f) <==> EndsSuspended(table, es, f)
  }

  lemma WithholdsSame(table: seq<Task>, from: Option<nat>, es: seq<Overrun>, withheld: set<Slot>, frames: nat,
                      dispatched: seq<nat>, f: nat)
    requires Tracked(table, from, es, withheld, Slot(frames, 0), dispatched) && f < frames
    ensures InTable(table, es)
    ensures Withholds(withheld, f) <==> FrameWithholds(table, from, es, f)
  {
    hide WithheldAt, TraceAt, OverrunsRan, Ordered, InTable;
    assert forall s: Slot :: s.frame == f ==> Precedes(s, Slot(frames, 0));
  }

  /**
    The frames in which the watchdog was fed, told from the table, the costs and the mode:
    all but those that withheld a task whose suspension was then replaced within the frame,
    and those that ended with a suspension for a due task safe mode would not run.
  */
  lemma FedExactlyWhen(e: Executive, start: uint64, frames: nat, f: nat)
    requires e.Between(start, frames) && e.Ideal() && f < frames
    ensures f in e.fed <==>
            FedIn(e.table, ModeOf(e, start), Play(e.table, e.cost, ModeOf(e, start), frames).es, f)
  {
    hide *;
    WindowIsReplay(e, start, frames);
    StageOfWindow(e, start, frames);
    e.HistoryBefore(start, frames);
    FedAre(e.table, e.overruns, e.withheld, frames, f);
    EarnsMeans(e.table, e.From(), e.overruns, e.withheld, frames, e.dispatched, f);
  }

  lemma EarnsMeans(table: seq<Task>, from: Option<nat>, es: seq<Overrun>, withheld: set<Slot>, frames: nat,
                   dispatched: seq<nat>, f: nat)
    requires Tracked(table, from, es, withheld, Slot(frames, 0), dispatched) && f < frames
    ensures InTable(table, es)
    ensures Earns(table, es, withheld, f) <==> FedIn(table, from, es, f)
  {
    WithholdsSame(table, from, es, withheld, frames, dispatched, f);
    hide Tracked, Withholds, FrameWithholds, EndsSuspended, InTable;
  }

  /** Four frames in a row, from `f` on, without a feed. */
  predicate UnfedFrom(fed: seq<nat>, frames: nat, f: nat) {
    f + 4 <= frames && f !in fed && f + 1 !in fed && f + 2 !in fed && f + 3 !in fed
  }

  ghost predicate LosesFrom(table: seq<Task>, from: Option<nat>, es: seq<Overrun>, frames: nat, f: nat)
    requires InTable(table, es)
  {
    && f + 4 <= frames
    && !FedIn(table, from, es, f) && !FedIn(table, from, es, f + 1)
    && !FedIn(table, from, es, f + 2) && !FedIn(table, from, es, f + 3)
  }

  /** A window leaves four frames in a row unfed exactly where the run its environment leads to loses four feeds. */
  lemma FourUnfedExactlyWhen(e: Executive, start: uint64, frames: nat, f: nat)
    requires e.Between(start, frames) && e.Ideal()
    ensures UnfedFrom(e.fed, frames, f) <==>
            LosesFrom(e.table, ModeOf(e, start), Play(e.table, e.cost, ModeOf(e, start), frames).es, frames, f)
  {
    hide FedIn, Play, ModeOf, e.Between, e.Ideal;
    if f + 4 <= frames {
      FedExactlyWhen(e, start, frames, f);
      FedExactlyWhen(e, start, frames, f + 1);
      FedExactlyWhen(e, start, frames, f + 2);
      FedExactlyWhen(e, start, frames, f + 3);
    }
  }

  // ---- what it takes to lose a feed ---------------------------------------------------------------

  /** Every task due in this frame may run in it. */
  predicate AllMayRun(table: seq<Task>, from: Option<nat>, f: nat) {
    forall i :: 0 <= i < |table| && Due(table[i], f) ==> Live(table, from, Slot(f, i))
  }

  /** The latest suspension before a slot. */
  lemma LatestBefore(table: seq<Task>, es: seq<Overrun>, s: Slot) returns (k: int)
    requires InTable(table, es) && Ordered(es)
    ensures -1 <= k < |es|
    ensures k == -1 ==> Pending(Announced(table, Until(es, s))) == None
    ensures k >= 0 ==>
              && Suspends(table, es, k) && Precedes(SlotOf(es[k]), s)
              && Pending(Announced(table, Until(es, s))) == Some(NamedBy(table, es, k))
    ensures forall j :: k < j < |es| && Suspends(table, es, j) ==> !Precedes(SlotOf(es[j]), s)
  {
    hide *;
    var m := |Until(es, s)|;
    assert Until(es, s) == es[..m];
    UntilCuts(es, s);
    InTablePrefix(table, es, m);
    k := PendingIsLatest(table, es[..m]);
    forall j | 0 <= j < m
      ensures Suspends(table, es[..m], j) <==> Suspends(table, es, j)
      ensures NamedBy(table, es[..m], j) == NamedBy(table, es, j)
    {
      SuspendsPrefix(table, es, m, j);
    }
  }

  lemma EndsMeans(table: seq<Task>, es: seq<Overrun>, f: nat)
    requires InTable(table, es)
    ensures EndsSuspended(table, es, f) <==>
            var p := Pending(Announced(table, Until(es, Slot(f + 1, 0))));
            p.Some? && p.value.frame == f && p.value.task < |table| && Due(table[p.value.task], f)
  {
    hide Pending, Announced, Until, Due;
  }

  lemma WithheldMeans(table: seq<Task>, from: Option<nat>, es: seq<Overrun>, s: Slot)
    requires InTable(table, es)
    ensures WithheldAt(table, from, es, s) <==>
            Live(table, from, s) && Pending(Announced(table, Until(es, s))) == Some(s)
    ensures Live(table, from, s) ==> s.task < |table| && Due(table[s.task], s.frame)
  {
    hide Pending, Announced, Until, Due;
  }

  /** A suspension names a frame other than its own, for its own task. */
  lemma NamesAnother(table: seq<Task>, es: seq<Overrun>, k: nat)
    requires InTable(table, es) && k < |es|
    ensures NamedBy(table, es, k).task == es[k].task
    ensures table[es[k].task].period != 0 ==> NamedBy(table, es, k).frame != es[k].frame
    ensures SlotOf(es[k]) == Slot(es[k].frame, es[k].task)
  {
  }

  lemma InFrame(a: Slot, f: nat, i: nat)
    ensures Precedes(a, Slot(f + 1, 0)) <==> a.frame <= f
    ensures a.task == i && a.frame < f ==> Precedes(a, Slot(f, i))
    ensures Precedes(a, Slot(f, i)) ==> a.frame <= f && (a.task == i ==> a.frame < f)
    ensures !Precedes(a, Slot(f, i)) ==> a.frame >= f
  {
  }

  /** An honoured suspension that is no longer remembered when the frame ends was replaced in it. */
  lemma ReplacedIn(table: seq<Task>, from: Option<nat>, es: seq<Overrun>, f: nat, s: Slot) returns (k: nat, j: nat)
    requires InTable(table, es) && Ordered(es) && WithheldAt(table, from, es, s) && s.frame == f
    requires !EndsSuspended(table, es, f)
    ensures k < |es| && j < |es| && Suspends(table, es, k) && Suspends(table, es, j)
    ensures es[k].frame < f == es[j].frame && es[k].task == s.task
  {
    hide *;
    WithheldMeans(table, from, es, s);
    EndsMeans(table, es, f);
    var a := LatestBefore(table, es, s);
    var b := LatestBefore(table, es, Slot(f + 1, 0));
    assert s == Slot(f, s.task);
    k := a;
    NamesAnother(table, es, k);
    InFrame(SlotOf(es[k]), f, s.task);
    j := b;
    NamesAnother(table, es, j);
    InFrame(SlotOf(es[j]), f, s.task);
  }

  /** A frame all of whose due tasks may run loses its feed only if a suspension in it replaces an earlier one. */
  lemma UnfedMeans(table: seq<Task>, from: Option<nat>, es: seq<Overrun>, f: nat) returns (k: nat, j: nat)
    requires InTable(table, es) && Ordered(es) && WhereDue(table, es)
    requires AllMayRun(table, from, f) && !FedIn(table, from, es, f)
    ensures k < |es| && j < |es| && Suspends(table, es, k) && Suspends(table, es, j)
    ensures es[k].frame < f == es[j].frame && es[k].task < |table| && Due(table[es[k].task], f)
  {
    hide WithheldAt, EndsSuspended, Ordered, WhereDue, InTable, AllMayRun, Due;
    if FrameWithholds(table, from, es, f) {
      var s :| WithheldAt(table, from, es, s) && s.frame == f;
      k, j := ReplacedIn(table, from, es, f, s);
      WithheldMeans(table, from, es, s);
    } else {
      NoGapNoneLeft(table, from, es, f);
    }
  }

  /** Without a gap such a frame ends with no suspension left for it. */
  lemma NoGapNoneLeft(table: seq<Task>, from: Option<nat>, es: seq<Overrun>, f: nat)
    requires InTable(table, es) && Ordered(es) && WhereDue(table, es)
    requires AllMayRun(table, from, f) && !FrameWithholds(table, from, es, f)
    ensures !EndsSuspended(table, es, f)
  {
    hide Precedes, Pending, Announced, Until, Ordered, InTable, Live, Due, Suspends, NamedBy, EndsSuspended, WithheldAt,
         SlotOf;
    EndsMeans(table, es, f);
    if EndsSuspended(table, es, f) {
      var b := LatestBefore(table, es, Slot(f + 1, 0));
      var s := NamedBy(table, es, b);
      DueWhere(table, es, b);
      DueHasPeriod(table[es[b].task], es[b].frame);
      NamesAnother(table, es, b);
      InFrame(SlotOf(es[b]), f, s.task);
      var a := LatestBefore(table, es, s);
      assert s == Slot(f, s.task);
      assert Live(table, from, s);
      if a != b {
        if a > b {
          InFrame(SlotOf(es[a]), f, s.task);
        }
      }
      WithheldMeans(table, from, es, s);
    }
  }

  lemma DueHasPeriod(t: Task, f: nat)
    requires Due(t, f)
    ensures t.period != 0
  {
  }

  /** Four unfed frames in a row, all of whose due tasks may run, take suspensions of five different tasks. */
  lemma FourUnfedTakesFive(table: seq<Task>, from: Option<nat>, es: seq<Overrun>, frames: nat, f: nat)
    returns (js: seq<nat>)
    requires InTable(table, es) && Ordered(es) && WhereDue(table, es) && BelowWrap(table, es)
    requires LosesFrom(table, from, es, frames, f)
    requires AllMayRun(table, from, f) && AllMayRun(table, from, f + 1)
    requires AllMayRun(table, from, f + 2) && AllMayRun(table, from, f + 3)
    ensures |js| == 5
    ensures forall a :: 0 <= a < |js| ==> js[a] < |es| && Suspends(table, es, js[a])
    ensures forall a, b :: 0 <= a < b < |js| ==> es[js[a]].task != es[js[b]].task
  {
    hide InTable, Ordered, WhereDue, BelowWrap, AllMayRun, FedIn, Suspends, Due;
    var k, j0 := UnfedMeans(table, from, es, f);
    var k1, j1 := UnfedMeans(table, from, es, f + 1);
    var k2, j2 := UnfedMeans(table, from, es, f + 2);
    var k3, j3 := UnfedMeans(table, from, es, f + 3);
    js := [k, j0, j1, j2, j3];
    forall a, b | 0 <= a < b < |js| ensures es[js[a]].task != es[js[b]].task {
      assert es[js[a]].frame < es[js[b]].frame;
      if es[js[a]].task == es[js[b]].task {
        SuspendsOnce(table, es, js[a], js[b]);
      }
    }
  }

  lemma NominalMayRun(table: seq<Task>, f: nat)
    ensures AllMayRun(table, None, f)
  {
  }

  /**
    So a nominal window leaves four frames in a row unfed only if five of its tasks overran,
    and with at most four tasks never.
  */
  lemma NominalFourUnfed(e: Executive, start: uint64, frames: nat, f: nat) returns (js: seq<nat>)
    requires e.Between(start, frames) && e.Ideal() && ModeOf(e, start) == None && UnfedFrom(e.fed, frames, f)
    ensures |e.table| >= 5 && |js| == 5
    ensures forall a :: 0 <= a < |js| ==> js[a] < |e.overruns|
    ensures forall a, b :: 0 <= a < b < |js| ==> e.overruns[js[a]].task != e.overruns[js[b]].task
  {
    hide *;
    var es := e.overruns;
    WindowFacts(e, start, frames);
    FourUnfedExactlyWhen(e, start, frames, f);
    NominalMayRun(e.table, f);
    NominalMayRun(e.table, f + 1);
    NominalMayRun(e.table, f + 2);
    NominalMayRun(e.table, f + 3);
    js := FourUnfedTakesFive(e.table, None, es, frames, f);
    forall a | 0 <= a < |js| ensures es[js[a]].task < |e.table| {
      TaskOf(e.table, es, js[a]);
    }
    FiveApart(es[js[0]].task, es[js[1]].task, es[js[2]].task, es[js[3]].task, es[js[4]].task, |e.table|);
  }

  lemma TaskOf(table: seq<Task>, es: seq<Overrun>, k: nat)
    requires InTable(table, es) && k < |es|
    ensures es[k].task < |table|
  {
  }

  lemma FiveApart(a: nat, b: nat, c: nat, d: nat, e: nat, n: nat)
    requires a < n && b < n && c < n && d < n && e < n
    requires a != b && a != c && a != d && a != e && b != c && b != d && b != e && c != d && c != e && d != e
    ensures n >= 5
  {
  }

  lemma WindowFacts(e: Executive, start: uint64, frames: nat)
    requires e.Between(start, frames) && e.Ideal()
    ensures InTable(e.table, e.overruns) && Ordered(e.overruns)
    ensures WhereDue(e.table, e.overruns) && BelowWrap(e.table, e.overruns)
    ensures e.overruns == Play(e.table, e.cost, ModeOf(e, start), frames).es
  {
    WindowIsReplay(e, start, frames);
    StageOfWindow(e, start, frames);
    assert OverrunsRan(e.table, e.From(), e.overruns, e.withheld, Slot(frames, 0)) && Ordered(e.overruns) by {
      hide OverrunsRan, Ordered, Decided, TraceAt, Play, e.Between, e.Ideal;
    }
    hide *;
    OverrunsInWindow(e.table, e.From(), e.overruns, e.withheld, frames);
    TrackedHappened(e.table, e.From(), e.overruns, e.withheld, Slot(frames, 0), e.dispatched);
    WindowBelowWrap(e.table, e.overruns, frames);
  }

  // ---- the shipped table ------------------------------------------------------------------------------

  /** The shipped rows (flight/core/tasks.c), whatever their budgets. */
  function Shipped(b0: uint32, b1: uint32, b2: uint32, b3: uint32, b4: uint32): seq<Task> {
    [Task(1, b0, true, true, false), Task(2, b1, true, true, true), Task(4, b2, false, true, false),
     Task(8, b3, false, true, false), Task(1, b4, true, true, true)]
  }

  /** In an odd frame only the two rows of period 1 are due, and both are essential. */
  ghost predicate TwoInOddFrames(table: seq<Task>) {
    && |table| == 5
    && forall i, f: nat :: 0 <= i < 5 && Due(table[i], f) && f % 2 == 1 ==> table[i].essential && (i == 0 || i == 4)
  }

  lemma OddFrame(f: nat)
    requires f % 2 == 1
    ensures f % 4 != 0 && f % 8 != 0
  {
  }

  lemma ShippedInOddFrames(b0: uint32, b1: uint32, b2: uint32, b3: uint32, b4: uint32)
    ensures TwoInOddFrames(Shipped(b0, b1, b2, b3, b4))
  {
    var t := Shipped(b0, b1, b2, b3, b4);
    forall i, f: nat | 0 <= i < 5 && Due(t[i], f) && f % 2 == 1 ensures t[i].essential && (i == 0 || i == 4) {
      OddFrame(f);
    }
  }

  lemma OddMayRun(table: seq<Task>, from: Option<nat>, f: nat)
    requires TwoInOddFrames(table) && f % 2 == 1
    ensures AllMayRun(table, from, f)
  {
    hide Due;
  }

  lemma OddTask(table: seq<Task>, i: nat, f: nat)
    requires TwoInOddFrames(table) && f % 2 == 1 && i < |table| && Due(table[i], f)
    ensures i == 0 || i == 4
  {
    hide Due;
  }

  lemma DueWhere(table: seq<Task>, es: seq<Overrun>, k: nat)
    requires InTable(table, es) && WhereDue(table, es) && k < |es|
    ensures es[k].task < |table| && Due(table[es[k].task], es[k].frame)
  {
    hide Due;
  }

  /** An odd frame that loses its feed uses up the suspensions of both tasks due in odd frames. */
  lemma OddUnfed(table: seq<Task>, from: Option<nat>, es: seq<Overrun>, f: nat) returns (k: nat, j: nat)
    requires TwoInOddFrames(table) && f % 2 == 1
    requires InTable(table, es) && Ordered(es) && WhereDue(table, es) && BelowWrap(table, es)
    requires !FedIn(table, from, es, f)
    ensures k < |es| && j < |es| && Suspends(table, es, k) && Suspends(table, es, j)
    ensures es[k].frame < f == es[j].frame
    ensures (es[k].task == 0 && es[j].task == 4) || (es[k].task == 4 && es[j].task == 0)
  {
    hide *;
    OddMayRun(table, from, f);
    k, j := UnfedMeans(table, from, es, f);
    OddTask(table, es[k].task, f);
    DueWhere(table, es, j);
    OddTask(table, es[j].task, f);
    if es[k].task == es[j].task {
      SuspendsOnce(table, es, k, j);
    }
  }

  /** So at most one odd frame of a window ever goes unfed. */
  lemma OneOddUnfed(table: seq<Task>, from: Option<nat>, es: seq<Overrun>, f: nat, g: nat)
    requires TwoInOddFrames(table) && f % 2 == 1 && g % 2 == 1
    requires InTable(table, es) && Ordered(es) && WhereDue(table, es) && BelowWrap(table, es)
    requires !FedIn(table, from, es, f) && !FedIn(table, from, es, g)
    ensures f == g
  {
    hide *;
    var k, j := OddUnfed(table, from, es, f);
    var l, m := OddUnfed(table, from, es, g);
    if es[j].task == es[m].task {
      SuspendsOnce(table, es, j, m);
    } else {
      SuspendsOnce(table, es, k, m);
      SuspendsOnce(table, es, j, l);
    }
  }

  lemma FourInARow(fed: seq<nat>, frames: nat, f: nat)
    requires UnfedFrom(fed, frames, f)
    ensures exists g: nat, h: nat :: g < h < frames && g % 2 == 1 && h % 2 == 1 && g !in fed && h !in fed
  {
    var g := if f % 2 == 1 then f else f + 1;
    assert g % 2 == 1 && (g + 2) % 2 == 1 && g !in fed && g + 2 !in fed;
  }

  /**
    With the shipped table, whatever the budgets, the costs, the clock and the mode, no
    finished window leaves more than one odd frame unfed, and so never four in a row.
  */
  lemma ShippedFedInTime(e: Executive, start: uint64, frames: nat, f: nat, b0: uint32, b1: uint32, b2: uint32,
                         b3: uint32, b4: uint32)
    requires e.Between(start, frames) && e.Ideal() && e.table == Shipped(b0, b1, b2, b3, b4)
    ensures forall g: nat, h: nat :: g < h < frames && g % 2 == 1 && h % 2 == 1 ==> g in e.fed || h in e.fed
    ensures !UnfedFrom(e.fed, frames, f)
  {
    ShippedInOddFrames(b0, b1, b2, b3, b4);
    WindowFacts(e, start, frames);
    hide *;
    forall g: nat, h: nat | g < h < frames && g % 2 == 1 && h % 2 == 1 ensures g in e.fed || h in e.fed {
      FedExactlyWhen(e, start, frames, g);
      FedExactlyWhen(e, start, frames, h);
      if g !in e.fed && h !in e.fed {
        OneOddUnfed(e.table, ModeOf(e, start), e.overruns, g, h);
      }
    }
    if UnfedFrom(e.fed, frames, f) {
      FourInARow(e.fed, frames, f);
    }
  }
}
