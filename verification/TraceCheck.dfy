/**
  What the task table dictates (harness/runner/trace_check.py): the dispatch sequence of a
  window, and the checks the host makes of a finished run against it.
*/
module TraceCheck {
  import opened Words

  const SAFE_ENTRY_NONE: uint32 := 0xFFFF_FFFF
  const MAX_TASKS: nat := 8
  const TRACE_CAPACITY: nat := 256

  /** A task as the table declares it. */
  datatype Task = Task(period: uint32, budget: uint32, essential: bool, hasFn: bool, hasReset: bool)

  /** One place in the schedule: a frame and a row of the table. */
  datatype Slot = Slot(frame: nat, task: nat)

  predicate Due(t: Task, frame: nat) {
    t.period != 0 && frame % t.period == 0
  }

  /** `from` is the first frame in which only the essential subset runs, if there is one. */
  predicate Degraded(from: Option<nat>, frame: nat) {
    from.Some? && frame >= from.value
  }

  /** The table dictates a dispatch here, unless one was announced as withheld. */
  predicate Live(table: seq<Task>, from: Option<nat>, s: Slot) {
    && s.task < |table|
    && Due(table[s.task], s.frame)
    && (table[s.task].essential || !Degraded(from, s.frame))
  }

  predicate Dictated(table: seq<Task>, withheld: set<Slot>, from: Option<nat>, s: Slot) {
    Live(table, from, s) && s !in withheld
  }

  /** The dispatches of one frame among the first `n` rows, in table order. */
  function FrameTrace(table: seq<Task>, withheld: set<Slot>, from: Option<nat>, frame: nat, n: nat): seq<nat> {
    if n == 0 then []
    else FrameTrace(table, withheld, from, frame, n - 1)
         + if Dictated(table, withheld, from, Slot(frame, n - 1)) then [n - 1] else []
  }

  /** `expected_trace`: the one correct sequence of a window. */
  function Expected(table: seq<Task>, withheld: set<Slot>, from: Option<nat>, frames: nat): seq<nat> {
    if frames == 0 then []
    else Expected(table, withheld, from, frames - 1) + FrameTrace(table, withheld, from, frames - 1, |table|)
  }

  /** The checker degrades from the frame after the recorded entry. */
  function CheckerFrom(entry: uint32): Option<nat> {
    if entry == SAFE_ENTRY_NONE then None else Some(entry + 1)
  }

  // ---- the checks, as the host makes them ----------------------------------------------

  method ExpectedTrace(table: seq<Task>, withheld: set<Slot>, entry: uint32, frames: nat) returns (sequence: seq<nat>)
    ensures sequence == Expected(table, withheld, CheckerFrom(entry), frames)
  {
    ghost var from := CheckerFrom(entry);
    sequence := [];
    for frame := 0 to frames
      invariant sequence == Expected(table, withheld, from, frame)
    {
      var degraded := entry != SAFE_ENTRY_NONE && frame > entry;
      ghost var before := sequence;
      for i := 0 to |table|
        invariant sequence == before + FrameTrace(table, withheld, from, frame, i)
      {
        var task := table[i];
        if task.period == 0 {
          continue;
        }
        if degraded && !task.essential {
          continue;
        }
        if frame % task.period != 0 {
          continue;
        }
        if Slot(frame, i) in withheld {
          continue;
        }
        sequence := sequence + [i];
      }
    }
  }

  datatype OrderFinding = InOrder | WrongLength | Diverges(position: nat)

  /** `check_order`: position by position. */
  method CheckOrder(trace: seq<nat>, expected: seq<nat>) returns (f: OrderFinding)
    ensures f.InOrder? <==> trace == expected
    ensures f.WrongLength? <==> |trace| != |expected|
    ensures f.Diverges? ==>
              && f.position < |trace| == |expected| && trace[f.position] != expected[f.position]
              && trace[..f.position] == expected[..f.position]
  {
    if trace == expected {
      return InOrder;
    }
    if |trace| != |expected| {
      return WrongLength;
    }
    for position := 0 to |trace|
      invariant forall k :: 0 <= k < position ==> trace[k] == expected[k]
    {
      if trace[position] != expected[position] {
        return Diverges(position);
      }
    }
    return InOrder;
  }

  function Occurrences(trace: seq<nat>, i: nat): nat {
    if trace == [] then 0
    else Occurrences(trace[..|trace| - 1], i) + if trace[|trace| - 1] == i then 1 else 0
  }

  lemma {:induction false} OccurrencesCounts(trace: seq<nat>, i: nat)
    ensures Occurrences(trace, i) == multiset(trace)[i]
  {
    if trace == [] {
    } else {
      var n := |trace| - 1;
      OccurrencesCounts(trace[..n], i);
      assert trace == trace[..n] + [trace[n]];
    }
  }

  /** The host's picture of a finished run. */
  datatype Dump = Dump(frames: nat, framesRun: uint32, trace: seq<nat>, traceOverflow: uint32,
                       windowStart: uint32, windowEnd: uint32, runs: seq<uint32>, safeEntry: uint32)

  /** Minor frames as timer ticks. */
  function Ticks(frames: nat): nat {
    1024 * frames
  }

  predicate Conforms(d: Dump, expected: seq<nat>) {
    && d.traceOverflow == 0
    && d.framesRun == d.frames
    && Wrap32(d.windowEnd - d.windowStart) == Ticks(d.frames)
    && forall i :: 0 <= i < |d.runs| ==> d.runs[i] == Occurrences(expected, i)
  }

  method CountIn(trace: seq<nat>, i: nat) returns (n: nat)
    ensures n == Occurrences(trace, i)
  {
    n := 0;
    for k := 0 to |trace|
      invariant n == Occurrences(trace[..k], i)
    {
      assert trace[..k + 1][..k] == trace[..k];
      if trace[k] == i {
        n := n + 1;
      }
    }
    assert trace[..|trace|] == trace;
  }

  /** `check_conformance`: the window, its span, and every count, with no tolerance. */
  method CheckConformance(d: Dump, expected: seq<nat>) returns (ok: bool)
    ensures ok <==>
            && d.traceOverflow == 0 && d.framesRun == d.frames
            && (d.windowEnd - d.windowStart) % 0x1_0000_0000 == 1024 * d.frames
            && forall i: nat :: i < |d.runs| ==> d.runs[i] == multiset(expected)[i]
    ensures ok <==> Conforms(d, expected)
  {
    forall i: nat ensures Occurrences(expected, i) == multiset(expected)[i] {
      OccurrencesCounts(expected, i);
    }
    hide Occurrences;
    ok := d.traceOverflow == 0 && d.framesRun == d.frames
          && Wrap32(d.windowEnd - d.windowStart) == Ticks(d.frames);
    for i := 0 to |d.runs|
      invariant ok <==>
                && d.traceOverflow == 0 && d.framesRun == d.frames
                && Wrap32(d.windowEnd - d.windowStart) == Ticks(d.frames)
                && forall j :: 0 <= j < i ==> d.runs[j] == Occurrences(expected, j)
    {
      var n := CountIn(expected, i);
      ok := ok && d.runs[i] == n;
    }
  }

  /** An announcement has a gap behind it: a known task, inside the window, in a frame where it was due. */
  predicate Announceable(table: seq<Task>, frames: nat, s: Slot) {
    s.task < |table| && s.frame < frames && Due(table[s.task], s.frame)
  }

  /**
    `check_suspensions`: whether the log overflowed, and the entries without a gap behind
    them.  An entry inside the window for a row of period 0 divides by zero in the Python.
  */
  method CheckSuspensions(table: seq<Task>, frames: nat, log: seq<Slot>, overflow: uint32)
    returns (overflowed: bool, failures: seq<nat>)
    requires forall k :: 0 <= k < |log| && log[k].task < |table| && log[k].frame < frames ==>
               table[log[k].task].period != 0
    ensures overflowed <==> overflow != 0
    ensures forall k :: k in failures <==>
              0 <= k < |log| && !(log[k].task < |table| && log[k].frame < frames
                                  && log[k].frame % table[log[k].task].period == 0)
    ensures forall k :: k in failures <==> 0 <= k < |log| && !Announceable(table, frames, log[k])
    ensures failures == [] <==> forall k :: 0 <= k < |log| ==> Announceable(table, frames, log[k])
  {
    overflowed := overflow != 0;
    failures := [];
    for k := 0 to |log|
      invariant forall j :: j in failures <==> 0 <= j < k && !Announceable(table, frames, log[j])
    {
      var s := log[k];
      if s.task >= |table| {
        failures := failures + [k];
        continue;
      }
      if s.frame >= frames {
        failures := failures + [k];
      } else if s.frame % table[s.task].period != 0 {
        failures := failures + [k];
      }
    }
    if failures != [] {
      assert failures[0] in failures;
    }
  }

  // ---- what the expected sequence depends on ---------------------------------------------

  predicate Precedes(s: Slot, t: Slot) {
    s.frame < t.frame || (s.frame == t.frame && s.task < t.task)
  }

  /** The two agree on every live slot before this one. */
  ghost predicate AgreeBefore(table: seq<Task>, a: set<Slot>, b: set<Slot>, from: Option<nat>, end: Slot) {
    forall s :: Live(table, from, s) && Precedes(s, end) ==> (s in a <==> s in b)
  }

  lemma {:induction false} FrameAgrees(table: seq<Task>, a: set<Slot>, b: set<Slot>, from: Option<nat>, frame: nat,
                                       n: nat)
    requires AgreeBefore(table, a, b, from, Slot(frame, n))
    ensures FrameTrace(table, a, from, frame, n) == FrameTrace(table, b, from, frame, n)
  {
    if n == 0 {
    } else {
      FrameAgrees(table, a, b, from, frame, n - 1);
      assert Precedes(Slot(frame, n - 1), Slot(frame, n));
    }
  }

  lemma AgreeSooner(table: seq<Task>, a: set<Slot>, b: set<Slot>, from: Option<nat>, frame: nat, n: nat)
    requires AgreeBefore(table, a, b, from, Slot(frame + 1, 0))
    ensures AgreeBefore(table, a, b, from, Slot(frame, n))
  {
    hide Live;
    forall s | Live(table, from, s) && Precedes(s, Slot(frame, n)) ensures s in a <==> s in b {
      assert Precedes(s, Slot(frame + 1, 0));
    }
  }

  /** Only the announcements for live slots inside the window matter. */
  lemma {:induction false} ExpectedAgrees(table: seq<Task>, a: set<Slot>, b: set<Slot>, from: Option<nat>, frames: nat)
    requires AgreeBefore(table, a, b, from, Slot(frames, 0))
    ensures Expected(table, a, from, frames) == Expected(table, b, from, frames)
  {
    hide Live, FrameTrace, AgreeBefore;
    if frames == 0 {
    } else {
      AgreeSooner(table, a, b, from, frames - 1, 0);
      ExpectedAgrees(table, a, b, from, frames - 1);
      AgreeSooner(table, a, b, from, frames - 1, |table|);
      FrameAgrees(table, a, b, from, frames - 1, |table|);
    }
  }

  lemma {:induction false} FrameShrinks(table: seq<Task>, a: set<Slot>, b: set<Slot>, from: Option<nat>, frame: nat,
                                        n: nat)
    requires a <= b
    ensures |FrameTrace(table, b, from, frame, n)| <= |FrameTrace(table, a, from, frame, n)|
    ensures (exists j :: 0 <= j < n && Dictated(table, a, from, Slot(frame, j)) && Slot(frame, j) in b) ==>
              |FrameTrace(table, b, from, frame, n)| < |FrameTrace(table, a, from, frame, n)|
  {
    if n == 0 {
    } else {
      FrameShrinks(table, a, b, from, frame, n - 1);
    }
  }

  /** Announcing one more slot the table dictates makes the expected sequence shorter. */
  lemma {:induction false} ExtraAnnouncementShortens(table: seq<Task>, a: set<Slot>, b: set<Slot>, from: Option<nat>,
                                                     frames: nat, s: Slot)
    requires a <= b
    ensures |Expected(table, b, from, frames)| <= |Expected(table, a, from, frames)|
    ensures s.frame < frames && Dictated(table, a, from, s) && s in b ==>
              |Expected(table, b, from, frames)| < |Expected(table, a, from, frames)|
  {
    if frames == 0 {
    } else {
      hide Dictated, FrameTrace;
      ExtraAnnouncementShortens(table, a, b, from, frames - 1, s);
      FrameShrinks(table, a, b, from, frames - 1, |table|);
      if s.frame == frames - 1 && Dictated(table, a, from, s) && s in b {
        assert s == Slot(frames - 1, s.task);
        assert s.task < |table| by { DictatedInTable(table, a, from, s); }
      }
    }
  }

  lemma DictatedInTable(table: seq<Task>, a: set<Slot>, from: Option<nat>, s: Slot)
    requires Dictated(table, a, from, s)
    ensures s.task < |table|
  {
  }

  /**
    A log that names everything withheld gives the right expectation exactly when it names
    nothing else that was live: a rung-2 entry, or one for a truncated frame, that falls on a
    slot which did run makes the expectation too short.
  */
  lemma LargerLogAgreesExactlyWhen(table: seq<Task>, withheld: set<Slot>, log: set<Slot>, from: Option<nat>,
                                   frames: nat)
    requires withheld <= log
    ensures Expected(table, log, from, frames) == Expected(table, withheld, from, frames)
            <==> forall s :: s in log && s.frame < frames && Live(table, from, s) ==> s in withheld
  {
    hide Live, Expected, FrameTrace;
    if s :| s in log && s.frame < frames && Live(table, from, s) && s !in withheld {
      ExtraAnnouncementShortens(table, withheld, log, from, frames, s);
    } else {
      ExpectedAgrees(table, withheld, log, from, frames);
    }
  }

  // ---- counts ------------------------------------------------------------------------------

  /** How many of the first `frames` frames a period divides. */
  function DueCount(period: nat, frames: nat): nat {
    if frames == 0 then 0
    else DueCount(period, frames - 1) + if period != 0 && (frames - 1) % period == 0 then 1 else 0
  }

  lemma Multiples(a: int, b: int, p: nat)
    requires a <= b
    ensures a * p <= b * p
  {
  }

  lemma OneMore(a: int, p: nat)
    ensures (a + 1) * p == a * p + p
  {
  }

  lemma Between(c: nat, k: nat, p: nat, w: nat)
    requires p > 0 && w == k * p && (c - 1) * p < w <= c * p
    ensures k == c
  {
    if k < c {
      Multiples(k, c - 1, p);
    } else if k > c {
      Multiples(c + 1, k, p);
      OneMore(c, p);
    }
  }

  lemma DueCountStep(period: nat, frames: nat)
    requires period > 0
    ensures DueCount(period, 0) == 0
    ensures DueCount(period, frames + 1) == DueCount(period, frames) + if frames % period == 0 then 1 else 0
  {
  }

  /** Just above the last multiple counted, only the next one is a multiple. */
  lemma AtMultiple(c: nat, w: nat, p: nat)
    requires p > 0 && (c - 1) * p < w <= c * p
    ensures w % p == 0 <==> w == c * p
  {
    if w % p == 0 {
      var k := w / p;
      assert w == k * p;
      Between(c, k, p, w);
    }
    if w == c * p {
      NoRemainder(c, p);
    }
  }

  /** The count is the window over the period, rounded up. */
  lemma {:induction false} DueCountIsQuotient(period: nat, frames: nat)
    requires period > 0
    ensures (DueCount(period, frames) - 1) * period < frames <= DueCount(period, frames) * period
  {
    hide DueCount;
    DueCountStep(period, 0);
    if frames == 0 {
    } else {
      var c, w := DueCount(period, frames - 1), frames - 1;
      DueCountIsQuotient(period, w);
      DueCountStep(period, w);
      AtMultiple(c, w, period);
      OneMore(c, period);
    }
  }

  lemma DivisionIsUnique(x: nat, p: nat, q: nat, r: nat)
    requires p > 0 && x == q * p + r && r < p
    ensures x % p == r
  {
    var q', r' := x / p, x % p;
    assert x == q' * p + r' && 0 <= r' < p;
    SameQuotient(p, q, r, q', r');
  }

  lemma SameQuotient(p: nat, q: nat, r: nat, q': nat, r': nat)
    requires p > 0 && r < p && r' < p && q * p + r == q' * p + r'
    ensures r == r'
  {
    if q < q' {
      Multiples(q + 1, q', p);
      OneMore(q, p);
    } else if q' < q {
      Multiples(q' + 1, q, p);
      OneMore(q', p);
    }
  }

  lemma NoRemainder(k: nat, p: nat)
    requires p > 0
    ensures (k * p) % p == 0
  {
    DivisionIsUnique(k * p, p, k, 0);
  }

  lemma {:induction false} OccurrencesAppend(a: seq<nat>, b: seq<nat>, i: nat)
    ensures Occurrences(a + b, i) == Occurrences(a, i) + Occurrences(b, i)
  {
    if b == [] {
      assert a + b == a;
    } else {
      assert (a + b)[..|a + b| - 1] == a + b[..|b| - 1];
      OccurrencesAppend(a, b[..|b| - 1], i);
    }
  }

  lemma {:induction false} FrameOccurrences(table: seq<Task>, withheld: set<Slot>, from: Option<nat>, frame: nat,
                                            n: nat, i: nat)
    ensures Occurrences(FrameTrace(table, withheld, from, frame, n), i)
            == if i < n && Dictated(table, withheld, from, Slot(frame, i)) then 1 else 0
  {
    if n == 0 {
    } else {
      hide Dictated;
      FrameOccurrences(table, withheld, from, frame, n - 1, i);
      OccurrencesAppend(FrameTrace(table, withheld, from, frame, n - 1),
                        if Dictated(table, withheld, from, Slot(frame, n - 1)) then [n - 1] else [], i);
    }
  }

  lemma CleanSlot(table: seq<Task>, frame: nat, i: nat)
    requires i < |table|
    ensures Dictated(table, {}, None, Slot(frame, i)) <==> Due(table[i], frame)
  {
  }

  lemma {:induction false} CleanOccurrences(table: seq<Task>, frames: nat, i: nat)
    requires i < |table|
    ensures Occurrences(Expected(table, {}, None, frames), i) == DueCount(table[i].period, frames)
  {
    hide Dictated, FrameTrace;
    if frames == 0 {
    } else {
      CleanOccurrences(table, frames - 1, i);
      FrameOccurrences(table, {}, None, frames - 1, |table|, i);
      CleanSlot(table, frames - 1, i);
      OccurrencesAppend(Expected(table, {}, None, frames - 1), FrameTrace(table, {}, None, frames - 1, |table|), i);
    }
  }

  /** A clean window runs task i exactly `frames / period` times when the period divides it. */
  lemma CleanRunCounts(table: seq<Task>, frames: nat, i: nat, times: nat)
    requires i < |table| && table[i].period > 0 && frames == times * table[i].period
    ensures Occurrences(Expected(table, {}, None, frames), i) == times
  {
    CleanOccurrences(table, frames, i);
    DueCountIsQuotient(table[i].period, frames);
    Between(DueCount(table[i].period, frames), times, table[i].period, frames);
  }

  /** How many dispatches a window dictates at most: each row's window over its period, rounded up. */
  function TotalDue(table: seq<Task>, n: nat, frames: nat): nat
    requires n <= |table|
  {
    if n == 0 then 0 else TotalDue(table, n - 1, frames) + DueCount(table[n - 1].period, frames)
  }

  lemma {:induction false} FrameLength(table: seq<Task>, withheld: set<Slot>, from: Option<nat>, frame: nat, n: nat)
    requires n <= |table|
    ensures TotalDue(table, n, frame) + |FrameTrace(table, withheld, from, frame, n)| <= TotalDue(table, n, frame + 1)
  {
    if n == 0 {
    } else {
      FrameLength(table, withheld, from, frame, n - 1);
    }
  }

  /** No window can dispatch more. */
  lemma {:induction false} ExpectedFits(table: seq<Task>, withheld: set<Slot>, from: Option<nat>, frames: nat)
    ensures |Expected(table, withheld, from, frames)| <= TotalDue(table, |table|, frames)
  {
    if frames == 0 {
    } else {
      ExpectedFits(table, withheld, from, frames - 1);
      FrameLength(table, withheld, from, frames - 1, |table|);
    }
  }

  /** A row's share of the window, rounded down. */
  function Share(period: nat, frames: nat): nat {
    if period == 0 then 0 else frames / period
  }

  /** The sum the build compares with the trace capacity. */
  function QuotientSum(table: seq<Task>, n: nat, frames: nat): nat
    requires n <= |table|
  {
    if n == 0 then 0 else QuotientSum(table, n - 1, frames) + Share(table[n - 1].period, frames)
  }

  /** The build also demands that every period divide the window. */
  predicate PeriodsDivide(table: seq<Task>, frames: nat) {
    forall i :: 0 <= i < |table| && table[i].period != 0 ==> frames % table[i].period == 0
  }

  lemma {:induction false} NeverDue(frames: nat)
    ensures DueCount(0, frames) == 0
  {
    if frames == 0 {
    } else {
      NeverDue(frames - 1);
    }
  }

  lemma DueCountDivides(period: nat, frames: nat)
    requires period > 0 && frames % period == 0
    ensures DueCount(period, frames) == frames / period
  {
    var q := frames / period;
    assert frames == q * period;
    DueCountIsQuotient(period, frames);
    Between(DueCount(period, frames), q, period, frames);
  }

  lemma {:induction false} SumsAgree(table: seq<Task>, n: nat, frames: nat)
    requires n <= |table| && PeriodsDivide(table, frames)
    ensures TotalDue(table, n, frames) == QuotientSum(table, n, frames)
  {
    if n == 0 {
    } else {
      SumsAgree(table, n - 1, frames);
      if table[n - 1].period == 0 {
        NeverDue(frames);
      } else {
        DueCountDivides(table[n - 1].period, frames);
      }
    }
  }

  /** So what the build checks keeps every window inside the trace. */
  lemma BuildSumSuffices(table: seq<Task>, withheld: set<Slot>, from: Option<nat>, frames: nat)
    requires PeriodsDivide(table, frames) && QuotientSum(table, |table|, frames) <= TRACE_CAPACITY
    ensures |Expected(table, withheld, from, frames)| <= TRACE_CAPACITY
  {
    hide Expected;
    ExpectedFits(table, withheld, from, frames);
    SumsAgree(table, |table|, frames);
  }

  // ---- a boot that starts safe ---------------------------------------------------------------

  /** In frame 0 the essential subset is all the table dictates. */
  predicate FirstFrameEssential(table: seq<Task>, withheld: set<Slot>, n: nat)
    requires n <= |table|
  {
    forall j :: 0 <= j < n && table[j].period != 0 && !table[j].essential ==> Slot(0, j) in withheld
  }

  lemma {:induction false} SameMode(table: seq<Task>, withheld: set<Slot>, a: Option<nat>, b: Option<nat>, frame: nat,
                                    n: nat)
    requires Degraded(a, frame) <==> Degraded(b, frame)
    ensures FrameTrace(table, withheld, a, frame, n) == FrameTrace(table, withheld, b, frame, n)
  {
    if n == 0 {
    } else {
      SameMode(table, withheld, a, b, frame, n - 1);
    }
  }

  lemma {:induction false} SafeStartGap(table: seq<Task>, withheld: set<Slot>, frames: nat)
    requires frames > 0
    ensures |Expected(table, withheld, Some(1), frames)| - |Expected(table, withheld, Some(0), frames)|
            == |FrameTrace(table, withheld, Some(1), 0, |table|)| - |FrameTrace(table, withheld, Some(0), 0, |table|)|
    ensures FrameTrace(table, withheld, Some(1), 0, |table|) == FrameTrace(table, withheld, Some(0), 0, |table|) ==>
              Expected(table, withheld, Some(1), frames) == Expected(table, withheld, Some(0), frames)
  {
    hide FrameTrace;
    if frames == 1 {
      assert Expected(table, withheld, Some(1), 0) == [] == Expected(table, withheld, Some(0), 0);
    } else {
      SafeStartGap(table, withheld, frames - 1);
      SameMode(table, withheld, Some(1), Some(0), frames - 1, |table|);
    }
  }

  lemma {:induction false} FirstFrame(table: seq<Task>, withheld: set<Slot>, n: nat)
    requires n <= |table|
    ensures var safe, full := FrameTrace(table, withheld, Some(0), 0, n), FrameTrace(table, withheld, Some(1), 0, n);
            |safe| <= |full| && if FirstFrameEssential(table, withheld, n) then safe == full else |safe| < |full|
  {
    if n == 0 {
    } else {
      FirstFrame(table, withheld, n - 1);
    }
  }

  /**
    A boot that starts safe runs the essential subset from frame 0 and records entry frame
    0, for which the checker expects the full table in frame 0.  The two agree exactly
    when every task the table dictates in frame 0 is essential, or the window is empty.
  */
  lemma SafeStartAgreesExactlyWhen(table: seq<Task>, withheld: set<Slot>, frames: nat)
    ensures Expected(table, withheld, CheckerFrom(0), frames) == Expected(table, withheld, Some(0), frames)
            <==> frames == 0 || FirstFrameEssential(table, withheld, |table|)
  {
    hide FrameTrace, Expected, FirstFrameEssential;
    if frames == 0 {
      NoFrames(table, withheld, CheckerFrom(0));
      NoFrames(table, withheld, Some(0));
    } else {
      SafeStartGap(table, withheld, frames);
      FirstFrame(table, withheld, |table|);
    }
  }

  lemma NoFrames(table: seq<Task>, withheld: set<Slot>, from: Option<nat>)
    ensures Expected(table, withheld, from, 0) == []
  {
  }

  predicate AllEssential(table: seq<Task>) {
    forall i :: 0 <= i < |table| && table[i].period != 0 ==> table[i].essential
  }

  /** With nothing withheld in frame 0 that is a matter of the table alone. */
  lemma SafeStartByTable(table: seq<Task>, withheld: set<Slot>, frames: nat)
    requires forall s :: s in withheld ==> s.frame != 0
    ensures Expected(table, withheld, CheckerFrom(0), frames) == Expected(table, withheld, Some(0), frames)
            <==> frames == 0 || AllEssential(table)
  {
    hide Expected;
    SafeStartAgreesExactlyWhen(table, withheld, frames);
    assert FirstFrameEssential(table, withheld, |table|) <==> AllEssential(table) by {
      forall j: nat ensures Slot(0, j) !in withheld {
        assert Slot(0, j).frame == 0;
      }
    }
  }
}
