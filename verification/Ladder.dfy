/**
  The escalation ladder of one boot (flight/core/recover.c, and the climb in `dispatch` of
  flight/core/sched.c), as a function of the budget overruns in the order they happened.
*/
module Ladder {
  import opened Words
  import opened TraceCheck

  const RUNG_SUSPEND_TASK: nat := 1
  const RUNG_RESET_SUBSYSTEM: nat := 2
  const RUNG_RESET_MACHINE: nat := 3
  const SUSPEND_LOG_LEN: nat := 16

  /** A dispatch that used more than its budget. */
  datatype Overrun = Overrun(task: nat, frame: uint32)

  /** A suspension-log entry, before the log narrows its frame to a byte. */
  datatype Entry = Entry(task: nat, frame: uint32, rung: nat)

  predicate InTable(table: seq<Task>, es: seq<Overrun>) {
    forall k :: 0 <= k < |es| ==> es[k].task < |table|
  }

  function Count(es: seq<Overrun>, task: nat): (n: nat)
    ensures n <= |es|
  {
    if es == [] then 0
    else Count(es[..|es| - 1], task) + if es[|es| - 1].task == task then 1 else 0
  }

  /** The rung for a task whose overrun counter now reads `overruns`. */
  function RungFor(t: Task, overruns: uint32): (r: nat)
    ensures 1 <= r <= 3
  {
    if overruns == 1 then RUNG_SUSPEND_TASK
    else if overruns == 2 && t.hasReset then RUNG_RESET_SUBSYSTEM
    else RUNG_RESET_MACHINE
  }

  function NextDue(t: Task, frame: uint32): uint32 {
    Wrap32(frame + if t.period == 0 then 1 else t.period)
  }

  lemma MultiplesApart(frame: nat, p: nat, f: nat)
    requires p > 0 && frame % p == 0 && frame <= f <= frame + p
    ensures f % p == 0 <==> f == frame || f == frame + p
  {
    var q := frame / p;
    assert frame == q * p;
    OneMore(q, p);
    if f < frame + p {
      DivisionIsUnique(f, p, q, f - frame);
    } else {
      DivisionIsUnique(f, p, q + 1, 0);
    }
  }

  /** Below wrap, a task due in this frame is due again in that one and in none between. */
  lemma NextDueIsNext(t: Task, frame: uint32)
    requires Due(t, frame) && frame + t.period < 0x1_0000_0000
    ensures frame < NextDue(t, frame) && Due(t, NextDue(t, frame))
    ensures forall f :: frame < f < NextDue(t, frame) ==> !Due(t, f)
  {
    assert NextDue(t, frame) == frame + t.period;
    MultiplesApart(frame, t.period, frame + t.period);
    forall f | frame < f < NextDue(t, frame) ensures !Due(t, f) {
      MultiplesApart(frame, t.period, f);
    }
  }

  /** What escalating writes to the log. */
  function Announce(t: Task, task: nat, frame: uint32, rung: nat): seq<Entry> {
    if rung == RUNG_SUSPEND_TASK then [Entry(task, NextDue(t, frame), rung)]
    else if rung == RUNG_RESET_SUBSYSTEM && t.hasReset then [Entry(task, frame, rung)]
    else []
  }

  /** The rung taken at the last overrun of a run. */
  function LastRung(table: seq<Task>, es: seq<Overrun>): (r: nat)
    requires es != [] && InTable(table, es)
    ensures 1 <= r <= 3
  {
    var e := es[|es| - 1];
    RungFor(table[e.task], Wrap32(Count(es, e.task)))
  }

  function LastEntries(table: seq<Task>, es: seq<Overrun>): seq<Entry>
    requires es != [] && InTable(table, es)
  {
    var e := es[|es| - 1];
    Announce(table[e.task], e.task, e.frame, LastRung(table, es))
  }

  /** Everything announced over a run of overruns. */
  function Announced(table: seq<Task>, es: seq<Overrun>): seq<Entry>
    requires InTable(table, es)
  {
    if es == [] then [] else Announced(table, es[..|es| - 1]) + LastEntries(table, es)
  }

  // ---- the pending suspension --------------------------------------------------------------

  /** The suspension the executive remembers: only the most recent. */
  function Pending(ann: seq<Entry>): Option<Slot> {
    if ann == [] then None
    else
      var e := ann[|ann| - 1];
      if e.rung == RUNG_SUSPEND_TASK then Some(Slot(e.frame, e.task)) else Pending(ann[..|ann| - 1])
  }

  /** Every slot a rung-1 entry names. */
  function Suspended(ann: seq<Entry>): set<Slot> {
    if ann == [] then {}
    else
      var e := ann[|ann| - 1];
      Suspended(ann[..|ann| - 1]) + if e.rung == RUNG_SUSPEND_TASK then {Slot(e.frame, e.task)} else {}
  }

  lemma PendingAppend(ann: seq<Entry>, e: Entry)
    ensures Pending(ann + [e]) == if e.rung == RUNG_SUSPEND_TASK then Some(Slot(e.frame, e.task)) else Pending(ann)
    ensures Suspended(ann + [e]) ==
            Suspended(ann) + if e.rung == RUNG_SUSPEND_TASK then {Slot(e.frame, e.task)} else {}
  {
    assert (ann + [e])[..|ann|] == ann;
  }

  lemma AnnouncedAppend(table: seq<Task>, es: seq<Overrun>, e: Overrun)
    requires InTable(table, es) && e.task < |table|
    ensures InTable(table, es + [e])
    ensures Announced(table, es + [e]) ==
            Announced(table, es)
            + Announce(table[e.task], e.task, e.frame, RungFor(table[e.task], Wrap32(Count(es, e.task) + 1)))
    ensures Count(es + [e], e.task) == Count(es, e.task) + 1
    ensures forall i :: i != e.task ==> Count(es + [e], i) == Count(es, i)
  {
    assert (es + [e])[..|es|] == es;
  }

  lemma {:induction false} PendingIsSuspended(ann: seq<Entry>)
    requires Pending(ann).Some?
    ensures Pending(ann).value in Suspended(ann)
  {
    if ann[|ann| - 1].rung != RUNG_SUSPEND_TASK {
      PendingIsSuspended(ann[..|ann| - 1]);
    }
  }

  // ---- the ladder only goes up, and the log is big enough --------------------------------------

  function RungAt(table: seq<Task>, es: seq<Overrun>, k: nat): nat
    requires InTable(table, es) && k < |es|
  {
    LastRung(table, es[..k + 1])
  }

  lemma {:induction false} CountGrows(es: seq<Overrun>, task: nat, k: nat, l: nat)
    requires k <= l <= |es|
    ensures Count(es[..k], task) <= Count(es[..l], task)
  {
    if k == l {
    } else {
      CountGrows(es, task, k, l - 1);
      assert es[..l][..l - 1] == es[..l - 1];
    }
  }

  lemma CountOwn(es: seq<Overrun>, k: nat)
    requires k < |es|
    ensures Count(es[..k + 1], es[k].task) == Count(es[..k], es[k].task) + 1
  {
    assert es[..k + 1][..k] == es[..k];
  }

  lemma CountsApart(es: seq<Overrun>, k: nat, l: nat)
    requires k < l < |es| && es[k].task == es[l].task
    ensures 1 <= Count(es[..k + 1], es[k].task) < Count(es[..l + 1], es[k].task) <= Count(es, es[k].task)
  {
    hide Count;
    assert es[..|es|] == es;
    CountOwn(es, k);
    CountOwn(es, l);
    CountGrows(es, es[k].task, k + 1, l);
    CountGrows(es, es[k].task, l + 1, |es|);
  }

  lemma RungAtIs(table: seq<Task>, es: seq<Overrun>, k: nat)
    requires InTable(table, es) && k < |es|
    ensures RungAt(table, es, k) == RungFor(table[es[k].task], Wrap32(Count(es[..k + 1], es[k].task)))
  {
    hide Count, RungFor;
    assert es[..k + 1][k] == es[k];
  }

  /** Below overrun wrap, a task's rungs never go down. */
  lemma RungsNeverGoDown(table: seq<Task>, es: seq<Overrun>, k: nat, l: nat)
    requires InTable(table, es) && k < l < |es| && es[k].task == es[l].task
    requires Count(es, es[k].task) < 0x1_0000_0000
    ensures RungAt(table, es, k) <= RungAt(table, es, l)
  {
    hide Count, RungAt, InTable;
    CountsApart(es, k, l);
    RungAtIs(table, es, k);
    RungAtIs(table, es, l);
  }

  /** How often a task is logged at a rung. */
  function Times(ann: seq<Entry>, task: nat, rung: nat): nat {
    if ann == [] then 0
    else
      var e := ann[|ann| - 1];
      Times(ann[..|ann| - 1], task, rung) + if e.task == task && e.rung == rung then 1 else 0
  }

  lemma TimesAppend(ann: seq<Entry>, more: seq<Entry>, task: nat, rung: nat)
    requires |more| <= 1
    ensures Times(ann + more, task, rung) ==
            Times(ann, task, rung) + if |more| == 1 && more[0].task == task && more[0].rung == rung then 1 else 0
  {
    if more == [] {
      assert ann + more == ann;
    } else {
      assert (ann + more)[..|ann|] == ann;
    }
  }

  /** What an overrun adds to one task's entries. */
  lemma LastEntryAt(table: seq<Task>, es: seq<Overrun>, task: nat, rung: nat)
    requires InTable(table, es) && es != [] && task < |table| && Count(es, task) < 0x1_0000_0000
    ensures var n, more, mine := Count(es, task), LastEntries(table, es), es[|es| - 1].task == task;
            && |more| <= 1 && n == Count(es[..|es| - 1], task) + (if mine then 1 else 0)
            && (|more| == 1 && more[0].task == task && more[0].rung == rung <==>
                mine && ((rung == RUNG_SUSPEND_TASK && n == 1)
                         || (rung == RUNG_RESET_SUBSYSTEM && n == 2 && table[task].hasReset)))
  {
  }

  lemma TimesStep(table: seq<Task>, es: seq<Overrun>, task: nat, rung: nat)
    requires InTable(table, es) && es != [] && task < |table| && Count(es, task) < 0x1_0000_0000
    ensures var n, mine := Count(es, task), es[|es| - 1].task == task;
            Times(Announced(table, es), task, rung) ==
            Times(Announced(table, es[..|es| - 1]), task, rung)
            + if mine && ((rung == RUNG_SUSPEND_TASK && n == 1)
                          || (rung == RUNG_RESET_SUBSYSTEM && n == 2 && table[task].hasReset)) then 1 else 0
  {
    hide Times, LastEntries, Count, InTable;
    InTablePrefix(table, es, |es| - 1);
    LastEntryAt(table, es, task, rung);
    TimesAppend(Announced(table, es[..|es| - 1]), LastEntries(table, es), task, rung);
  }

  lemma NoEntries(table: seq<Task>, task: nat, rung: nat)
    ensures InTable(table, []) && Times(Announced(table, []), task, rung) == 0 && Count([], task) == 0
  {
  }

  lemma InTablePrefix(table: seq<Task>, es: seq<Overrun>, n: nat)
    requires InTable(table, es) && n <= |es|
    ensures InTable(table, es[..n])
  {
  }

  /** Below overrun wrap each task logs at most one entry at each rung, exactly when it got that far. */
  lemma {:induction false} EachRungOnce(table: seq<Task>, es: seq<Overrun>, task: nat)
    requires InTable(table, es) && task < |table| && Count(es, task) < 0x1_0000_0000
    ensures Times(Announced(table, es), task, RUNG_SUSPEND_TASK) == if Count(es, task) >= 1 then 1 else 0
    ensures Times(Announced(table, es), task, RUNG_RESET_SUBSYSTEM)
            == if Count(es, task) >= 2 && table[task].hasReset then 1 else 0
    ensures Times(Announced(table, es), task, RUNG_RESET_MACHINE) == 0
  {
    hide Times, Announced, Count, InTable;
    if es == [] {
      NoEntries(table, task, RUNG_SUSPEND_TASK);
      NoEntries(table, task, RUNG_RESET_SUBSYSTEM);
      NoEntries(table, task, RUNG_RESET_MACHINE);
    } else {
      InTablePrefix(table, es, |es| - 1);
      LastEntryAt(table, es, task, RUNG_SUSPEND_TASK);
      TimesStep(table, es, task, RUNG_SUSPEND_TASK);
      TimesStep(table, es, task, RUNG_RESET_SUBSYSTEM);
      TimesStep(table, es, task, RUNG_RESET_MACHINE);
      EachRungOnce(table, es[..|es| - 1], task);
    }
  }

  /** What a task with this many overruns has in the log. */
  function EntriesFor(t: Task, overruns: nat): (n: nat)
    ensures n <= 2
  {
    (if overruns >= 1 then 1 else 0) + (if overruns >= 2 && t.hasReset then 1 else 0)
  }

  function TotalEntries(table: seq<Task>, es: seq<Overrun>, n: nat): (total: nat)
    requires n <= |table|
    ensures total <= 2 * n
  {
    if n == 0 then 0 else TotalEntries(table, es, n - 1) + EntriesFor(table[n - 1], Count(es, n - 1))
  }

  /** No task's overrun counter has gone round. */
  predicate BelowWrap(table: seq<Task>, es: seq<Overrun>) {
    forall i :: 0 <= i < |table| ==> Count(es, i) < 0x1_0000_0000
  }

  lemma WrapPrefix(table: seq<Task>, es: seq<Overrun>)
    requires es != [] && BelowWrap(table, es)
    ensures BelowWrap(table, es[..|es| - 1])
  {
    var prefix := es[..|es| - 1];
    forall i | 0 <= i < |table| ensures Count(prefix, i) < 0x1_0000_0000 {
      assert Count(es, i) < 0x1_0000_0000;
    }
  }

  lemma OneMoreEntry(table: seq<Task>, es: seq<Overrun>)
    requires InTable(table, es) && es != [] && BelowWrap(table, es)
    ensures var task, prefix := es[|es| - 1].task, es[..|es| - 1];
            |LastEntries(table, es)| ==
            EntriesFor(table[task], Count(es, task)) - EntriesFor(table[task], Count(prefix, task))
  {
    assert Count(es, es[|es| - 1].task) < 0x1_0000_0000;
  }

  lemma {:induction false} TotalStep(table: seq<Task>, es: seq<Overrun>, n: nat)
    requires InTable(table, es) && es != [] && BelowWrap(table, es) && n <= |table|
    ensures TotalEntries(table, es, n) == TotalEntries(table, es[..|es| - 1], n)
                                          + if es[|es| - 1].task < n then |LastEntries(table, es)| else 0
  {
    if n == 0 {
    } else {
      hide EntriesFor, LastEntries, BelowWrap;
      TotalStep(table, es, n - 1);
      OneMoreEntry(table, es);
    }
  }

  lemma {:induction false} NoOverrunsNoEntries(table: seq<Task>, n: nat)
    requires n <= |table|
    ensures TotalEntries(table, [], n) == 0
  {
    if n == 0 {
    } else {
      NoOverrunsNoEntries(table, n - 1);
    }
  }

  lemma {:induction false} AnnouncedLength(table: seq<Task>, es: seq<Overrun>)
    requires InTable(table, es) && BelowWrap(table, es)
    ensures |Announced(table, es)| == TotalEntries(table, es, |table|)
  {
    if es == [] {
      NoOverrunsNoEntries(table, |table|);
    } else {
      hide BelowWrap, TotalEntries;
      WrapPrefix(table, es);
      AnnouncedLength(table, es[..|es| - 1]);
      TotalStep(table, es, |table|);
    }
  }

  /** With at most eight tasks, none past its counter's wrap, the sixteen-entry log never overflows. */
  lemma LogNeverOverflows(table: seq<Task>, es: seq<Overrun>)
    requires InTable(table, es) && |table| <= MAX_TASKS && BelowWrap(table, es)
    ensures |Announced(table, es)| <= SUSPEND_LOG_LEN
  {
    AnnouncedLength(table, es);
  }

  // ---- which overrun an announcement is for --------------------------------------------------

  lemma RungAtPrefix(table: seq<Task>, es: seq<Overrun>, n: nat, k: nat)
    requires InTable(table, es) && k < n <= |es|
    ensures InTable(table, es[..n]) && RungAt(table, es[..n], k) == RungAt(table, es, k)
  {
    assert es[..n][..k + 1] == es[..k + 1];
  }

  /** The entry an overrun adds to the log, if its rung adds one. */
  function EntryOf(table: seq<Task>, es: seq<Overrun>, k: nat): Entry
    requires InTable(table, es) && k < |es|
  {
    var e, rung := es[k], RungAt(table, es, k);
    Entry(e.task, if rung == RUNG_SUSPEND_TASK then NextDue(table[e.task], e.frame) else e.frame, rung)
  }

  lemma LastEntryOf(table: seq<Task>, es: seq<Overrun>)
    requires InTable(table, es) && es != []
    ensures LastEntries(table, es) ==
            if RungAt(table, es, |es| - 1) == RUNG_RESET_MACHINE then [] else [EntryOf(table, es, |es| - 1)]
  {
    assert es[..|es|] == es;
  }

  /** Every announcement is the entry of an overrun that did not reach rung 3. */
  lemma {:induction false} AnnouncedFrom(table: seq<Task>, es: seq<Overrun>, k: nat) returns (j: nat)
    requires InTable(table, es) && k < |Announced(table, es)|
    ensures j < |es| && RungAt(table, es, j) != RUNG_RESET_MACHINE
    ensures Announced(table, es)[k] == EntryOf(table, es, j)
  {
    hide RungAt, LastEntries;
    var n := |es| - 1;
    LastEntryOf(table, es);
    if k < |Announced(table, es[..n])| {
      j := AnnouncedFrom(table, es[..n], k);
      RungAtPrefix(table, es, n, j);
    } else {
      j := n;
    }
  }

  /** And every such overrun is announced. */
  lemma {:induction false} AnnouncedBy(table: seq<Task>, es: seq<Overrun>, j: nat) returns (k: nat)
    requires InTable(table, es) && j < |es| && RungAt(table, es, j) != RUNG_RESET_MACHINE
    ensures k < |Announced(table, es)| && Announced(table, es)[k] == EntryOf(table, es, j)
  {
    hide RungAt, LastEntries;
    var n := |es| - 1;
    LastEntryOf(table, es);
    if j < n {
      RungAtPrefix(table, es, n, j);
      k := AnnouncedBy(table, es[..n], j);
    } else {
      k := |Announced(table, es[..n])|;
    }
  }

  /** Some overrun took the last rung. */
  predicate ReachedTop(table: seq<Task>, es: seq<Overrun>)
    requires InTable(table, es)
  {
    exists k :: 0 <= k < |es| && RungAt(table, es, k) == RUNG_RESET_MACHINE
  }

  lemma TopPrefix(table: seq<Task>, es: seq<Overrun>, n: nat)
    requires InTable(table, es) && n <= |es|
    ensures InTable(table, es[..n])
    ensures ReachedTop(table, es[..n]) ==> ReachedTop(table, es)
    ensures n == |es| - 1 ==>
              (ReachedTop(table, es) <==> ReachedTop(table, es[..n]) || LastRung(table, es) == RUNG_RESET_MACHINE)
  {
    hide LastRung, RungAt;
    if k :| 0 <= k < n && RungAt(table, es[..n], k) == RUNG_RESET_MACHINE {
      RungAtPrefix(table, es, n, k);
    }
    if n == |es| - 1 {
      RungAtLast(table, es);
      forall k | 0 <= k < n ensures RungAt(table, es[..n], k) == RungAt(table, es, k) {
        RungAtPrefix(table, es, n, k);
      }
    }
  }

  lemma RungAtLast(table: seq<Task>, es: seq<Overrun>)
    requires InTable(table, es) && es != []
    ensures RungAt(table, es, |es| - 1) == LastRung(table, es)
  {
    assert es[..|es|] == es;
  }

  // ---- which suspensions stand ------------------------------------------------------------------

  function SlotOf(e: Overrun): Slot {
    Slot(e.frame, e.task)
  }

  /** The overruns are in the order of the slots they happened in. */
  predicate Ordered(es: seq<Overrun>) {
    forall j, k :: 0 <= j < k < |es| ==> Precedes(SlotOf(es[j]), SlotOf(es[k]))
  }

  /** They came in that order, and all before this slot. */
  predicate Happened(es: seq<Overrun>, at: Slot) {
    Ordered(es) && forall k :: 0 <= k < |es| ==> Precedes(SlotOf(es[k]), at)
  }

  lemma Later(s: Slot, at: Slot)
    requires Precedes(s, at) || s == at
    ensures Precedes(s, Slot(at.frame, at.task + 1)) && Precedes(s, Slot(at.frame + 1, 0))
  {
  }

  lemma HappenedNext(es: seq<Overrun>, at: Slot)
    requires Happened(es, at) && at.frame <= U32_MAX
    ensures Happened(es, Slot(at.frame, at.task + 1))
    ensures Happened(es + [Overrun(at.task, at.frame)], Slot(at.frame, at.task + 1))
  {
    var more := es + [Overrun(at.task, at.frame)];
    assert SlotOf(more[|es|]) == at;
    hide Precedes, SlotOf;
    forall k | 0 <= k < |more| ensures Precedes(SlotOf(more[k]), Slot(at.frame, at.task + 1)) {
      Later(SlotOf(more[k]), at);
    }
    forall k | 0 <= k < |es| ensures Precedes(SlotOf(es[k]), Slot(at.frame, at.task + 1)) {
      assert more[k] == es[k];
    }
  }

  lemma HappenedFrame(es: seq<Overrun>, frame: nat, n: nat)
    requires Happened(es, Slot(frame, n))
    ensures Happened(es, Slot(frame + 1, 0))
  {
    hide Precedes, SlotOf;
    forall k | 0 <= k < |es| ensures Precedes(SlotOf(es[k]), Slot(frame + 1, 0)) {
      Later(SlotOf(es[k]), Slot(frame, n));
    }
  }

  /** The overruns before a slot. */
  function Until(es: seq<Overrun>, s: Slot): (r: seq<Overrun>)
    ensures r <= es
  {
    if es == [] || Precedes(SlotOf(es[|es| - 1]), s) then es else Until(es[..|es| - 1], s)
  }

  lemma {:induction false} UntilCuts(es: seq<Overrun>, s: Slot)
    requires Ordered(es)
    ensures forall k :: 0 <= k < |es| ==> (k < |Until(es, s)| <==> Precedes(SlotOf(es[k]), s))
  {
    var n := |es| - 1;
    if es != [] && !Precedes(SlotOf(es[n]), s) {
      UntilCuts(es[..n], s);
      forall k | 0 <= k < n ensures k < |Until(es, s)| <==> Precedes(SlotOf(es[k]), s) {
        assert es[..n][k] == es[k];
      }
    }
  }

  predicate Suspends(table: seq<Task>, es: seq<Overrun>, k: nat)
    requires InTable(table, es) && k < |es|
  {
    RungAt(table, es, k) == RUNG_SUSPEND_TASK
  }

  /** The slot a rung-1 overrun names: its task's next due frame. */
  function NamedBy(table: seq<Task>, es: seq<Overrun>, k: nat): Slot
    requires InTable(table, es) && k < |es|
  {
    Slot(NextDue(table[es[k].task], es[k].frame), es[k].task)
  }

  /**
    The suspension made at overrun `k` is still the one remembered when its slot comes: the
    slot lies ahead, and no later rung-1 overrun comes before it.
  */
  predicate Stands(table: seq<Task>, es: seq<Overrun>, k: nat)
    requires InTable(table, es) && k < |es|
  {
    && Precedes(SlotOf(es[k]), NamedBy(table, es, k))
    && forall j :: k < j < |es| && Suspends(table, es, j) ==> !Precedes(SlotOf(es[j]), NamedBy(table, es, k))
  }

  /** No next due frame goes round the 32-bit counter. */
  predicate NoDueWrap(table: seq<Task>, es: seq<Overrun>)
    requires InTable(table, es)
  {
    forall k :: 0 <= k < |es| && Suspends(table, es, k) ==>
      es[k].frame + table[es[k].task].period < 0x1_0000_0000
  }

  /** Never two suspensions pending: each rung-1 overrun comes after the slot every earlier one named. */
  predicate OneAtATime(table: seq<Task>, es: seq<Overrun>)
    requires InTable(table, es)
  {
    && NoDueWrap(table, es)
    && forall j, k :: 0 <= j < k < |es| && Suspends(table, es, j) && Suspends(table, es, k) ==>
         Precedes(NamedBy(table, es, j), SlotOf(es[k]))
  }

  lemma NamedAhead(table: seq<Task>, es: seq<Overrun>, k: nat)
    requires InTable(table, es) && k < |es|
    requires table[es[k].task].period != 0 && es[k].frame + table[es[k].task].period < 0x1_0000_0000
    ensures Precedes(SlotOf(es[k]), NamedBy(table, es, k))
  {
  }

  /** Then every suspension stands. */
  lemma OneAtATimeStands(table: seq<Task>, es: seq<Overrun>, k: nat)
    requires InTable(table, es) && OneAtATime(table, es) && k < |es| && Suspends(table, es, k)
    requires table[es[k].task].period != 0
    ensures Stands(table, es, k)
  {
    hide Suspends, NamedBy;
    NamedAhead(table, es, k);
  }

  lemma SuspendsLast(table: seq<Task>, es: seq<Overrun>)
    requires InTable(table, es) && es != []
    ensures var n, ann := |es| - 1, Announced(table, es[..|es| - 1]);
            if Suspends(table, es, n)
            then Pending(Announced(table, es)) == Some(NamedBy(table, es, n))
                 && Suspended(Announced(table, es)) == Suspended(ann) + {NamedBy(table, es, n)}
            else Pending(Announced(table, es)) == Pending(ann) && Suspended(Announced(table, es)) == Suspended(ann)
  {
    hide RungAt, LastEntries, Pending, Suspended;
    var n := |es| - 1;
    var ann := Announced(table, es[..n]);
    LastEntryOf(table, es);
    if LastEntries(table, es) == [] {
      assert ann + [] == ann;
    } else {
      PendingAppend(ann, EntryOf(table, es, n));
    }
  }

  lemma SuspendsPrefix(table: seq<Task>, es: seq<Overrun>, n: nat, j: nat)
    requires InTable(table, es) && j < n <= |es|
    ensures InTable(table, es[..n])
    ensures Suspends(table, es[..n], j) <==> Suspends(table, es, j)
    ensures NamedBy(table, es[..n], j) == NamedBy(table, es, j)
  {
    hide RungAt;
    RungAtPrefix(table, es, n, j);
  }

  /** What is remembered is what the latest rung-1 overrun named. */
  lemma {:induction false} PendingIsLatest(table: seq<Task>, es: seq<Overrun>) returns (k: int)
    requires InTable(table, es)
    ensures -1 <= k < |es|
    ensures k == -1 ==> Pending(Announced(table, es)) == None
    ensures k >= 0 ==> Suspends(table, es, k) && Pending(Announced(table, es)) == Some(NamedBy(table, es, k))
    ensures forall j :: k < j < |es| ==> !Suspends(table, es, j)
  {
    hide *;
    if es == [] {
      k := -1;
      NothingSuspended(table);
    } else {
      var n := |es| - 1;
      SuspendsLast(table, es);
      if Suspends(table, es, n) {
        k := n;
      } else {
        InTablePrefix(table, es, n);
        k := PendingIsLatest(table, es[..n]);
        forall j | 0 <= j < n
          ensures Suspends(table, es[..n], j) <==> Suspends(table, es, j)
          ensures NamedBy(table, es[..n], j) == NamedBy(table, es, j)
        {
          SuspendsPrefix(table, es, n, j);
        }
      }
    }
  }

  lemma NothingSuspended(table: seq<Task>)
    ensures InTable(table, [])
    ensures Suspended(Announced(table, [])) == {} && Pending(Announced(table, [])) == None
  {
  }

  /** The log's rung-1 entries name exactly the slots the rung-1 overruns named. */
  lemma {:induction false} SuspendedAreNamed(table: seq<Task>, es: seq<Overrun>, s: Slot)
    requires InTable(table, es)
    ensures s in Suspended(Announced(table, es)) <==>
            exists k :: 0 <= k < |es| && Suspends(table, es, k) && NamedBy(table, es, k) == s
  {
    hide *;
    if es == [] {
      NothingSuspended(table);
    } else {
      var n := |es| - 1;
      InTablePrefix(table, es, n);
      SuspendsLast(table, es);
      SuspendedAreNamed(table, es[..n], s);
      forall j | 0 <= j < n
        ensures Suspends(table, es[..n], j) <==> Suspends(table, es, j)
        ensures NamedBy(table, es[..n], j) == NamedBy(table, es, j)
      {
        SuspendsPrefix(table, es, n, j);
      }
    }
  }

  /** Below wrap a task is suspended at most once. */
  lemma SuspendsOnce(table: seq<Task>, es: seq<Overrun>, j: nat, k: nat)
    requires InTable(table, es) && BelowWrap(table, es) && j < |es| && k < |es|
    requires Suspends(table, es, j) && Suspends(table, es, k) && es[j].task == es[k].task
    ensures j == k
  {
    hide Count, BelowWrap;
    var a, b := if j < k then j else k, if j < k then k else j;
    if a < b {
      CountsApart(es, a, b);
      assert Count(es, es[a].task) < 0x1_0000_0000 by { WrapOf(table, es, es[a].task); }
      RungAtIs(table, es, a);
      RungAtIs(table, es, b);
    }
  }

  lemma WrapOf(table: seq<Task>, es: seq<Overrun>, i: nat)
    requires BelowWrap(table, es) && i < |table|
    ensures Count(es, i) < 0x1_0000_0000
  {
  }

  /** When its slot comes, what is remembered is that slot exactly when the suspension stands. */
  lemma StandsIsPending(table: seq<Task>, es: seq<Overrun>, k: nat)
    requires InTable(table, es) && Ordered(es) && BelowWrap(table, es) && k < |es| && Suspends(table, es, k)
    ensures var s := NamedBy(table, es, k);
            Pending(Announced(table, Until(es, s))) == Some(s) <==> Stands(table, es, k)
  {
    var s := NamedBy(table, es, k);
    var m := |Until(es, s)|;
    UntilCuts(es, s);
    assert Until(es, s) == es[..m];
    hide Announced, Pending, RungAt, Until, Precedes, BelowWrap, NextDue, Ordered;
    var l := PendingIsLatest(table, es[..m]);
    forall j | 0 <= j < m ensures Suspends(table, es[..m], j) <==> Suspends(table, es, j) {
      RungAtPrefix(table, es, m, j);
    }
    if l >= 0 && NamedBy(table, es[..m], l) == s {
      SuspendsOnce(table, es, l, k);
    }
  }

  /** Overruns in order before frame `n` leave no task more than `n` of them. */
  lemma {:induction false} CountInWindow(es: seq<Overrun>, task: nat, n: nat)
    requires Ordered(es) && forall k :: 0 <= k < |es| && es[k].task == task ==> es[k].frame < n
    ensures Count(es, task) <= n
  {
    if es == [] {
    } else {
      var last := es[|es| - 1];
      CountInWindow(es[..|es| - 1], task, if last.task == task then last.frame else n);
    }
  }

  // ---- every announcement names a slot the table has ---------------------------------------------

  /** The overrun happened where the table had its task due. */
  predicate WhereDue(table: seq<Task>, es: seq<Overrun>)
    requires InTable(table, es)
  {
    forall k :: 0 <= k < |es| ==> Due(table[es[k].task], es[k].frame)
  }

  lemma PeriodLater(frame: nat, period: nat)
    requires period > 0 && frame % period == 0
    ensures (frame + period) % period == 0
  {
    var q := frame / period;
    assert frame == q * period;
    OneMore(q, period);
    NoRemainder(q + 1, period);
  }

  /** Short of the counter's wrap an announcement names a task of the table and a frame in which it is due. */
  lemma EntriesNameDueSlots(table: seq<Task>, es: seq<Overrun>, k: nat)
    requires InTable(table, es) && WhereDue(table, es) && NoDueWrap(table, es)
    requires k < |Announced(table, es)|
    ensures var e := Announced(table, es)[k]; e.task < |table| && Due(table[e.task], e.frame)
  {
    hide Announced, RungAt;
    var j := AnnouncedFrom(table, es, k);
    var e := es[j];
    assert Due(table[e.task], e.frame);
    PeriodLater(e.frame, table[e.task].period);
  }
}
