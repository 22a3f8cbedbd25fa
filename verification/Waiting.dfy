/**
  The clock readings of a window: one opens it, and each frame takes one when its work is
  done and then as many as it needs to reach its boundary.
*/
module Waiting {
  import opened Words
  import opened TraceCheck

  /**
    What one frame showed: the time it published, its slack, and which readings of the clock
    measured that slack and ended the wait.
  */
  datatype FrameRecord = FrameRecord(published: uint32, slack: uint32, checked: nat, closed: nat)

  /** Where frame `f` of a window that opened at `start` ends. */
  function Deadline(start: nat, f: nat): uint64 {
    Wrap64(start + Ticks(f + 1))
  }

  function Slack(now: uint64, deadline: uint64): uint32 {
    if now >= deadline then 0 else Wrap32(deadline - now)
  }

  /** This reading is short of the deadline. */
  predicate Short(clock: nat -> Option<uint64>, k: nat, deadline: uint64) {
    clock(k).Some? && clock(k).value < deadline
  }

  /** This reading is at the deadline or past it. */
  predicate Reaches(clock: nat -> Option<uint64>, k: nat, deadline: uint64) {
    clock(k).Some? && clock(k).value >= deadline
  }

  /**
    The frame measured its slack at reading `checked`, and then waited: every later reading
    up to `closed` was short of the deadline, and `closed` reached it.
  */
  predicate Waited(clock: nat -> Option<uint64>, deadline: uint64, r: FrameRecord) {
    && clock(r.checked).Some? && r.slack == Slack(clock(r.checked).value, deadline)
    && r.checked < r.closed && Reaches(clock, r.closed, deadline)
    && forall k :: r.checked < k < r.closed ==> Short(clock, k, deadline)
  }

  lemma WaitedHere(clock: nat -> Option<uint64>, deadline: uint64, r: FrameRecord)
    requires clock(r.checked).Some? && r.slack == Slack(clock(r.checked).value, deadline) && r.checked < r.closed
    requires clock(r.closed).Some? && clock(r.closed).value >= deadline
    requires forall k :: r.checked < k < r.closed ==> Short(clock, k, deadline)
    ensures Waited(clock, deadline, r)
  {
    hide Slack, Short;
  }

  lemma ReachesMeans(clock: nat -> Option<uint64>, k: nat, deadline: uint64)
    ensures Reaches(clock, k, deadline) <==> clock(k).Some? && clock(k).value >= deadline
  {
  }

  function NextReading(records: seq<FrameRecord>): nat {
    if records == [] then 1 else records[|records| - 1].closed + 1
  }

  /** Every frame published the absolute schedule and was waited out, reading by reading. */
  predicate Kept(clock: nat -> Option<uint64>, start: nat, records: seq<FrameRecord>) {
    && clock(0) == Some(start)
    && forall f :: 0 <= f < |records| ==>
         && records[f].published == Wrap32(start + Ticks(f))
         && records[f].checked == NextReading(records[..f])
         && Waited(clock, Deadline(start, f), records[f])
  }

  lemma KeptGrows(clock: nat -> Option<uint64>, start: nat, was: seq<FrameRecord>, r: FrameRecord)
    requires Kept(clock, start, was)
    requires r.published == Wrap32(start + Ticks(|was|)) && r.checked == NextReading(was)
    requires Waited(clock, Deadline(start, |was|), r)
    ensures Kept(clock, start, was + [r])
  {
    hide Ticks, Wrap32, Wrap64, Waited, NextReading;
    var records := was + [r];
    forall f | 0 <= f < |records|
      ensures && records[f].published == Wrap32(start + Ticks(f))
              && records[f].checked == NextReading(records[..f])
              && Waited(clock, Deadline(start, f), records[f])
    {
      assert records[..f] == was[..f];
      assert was[..|was|] == was;
    }
  }

  function LeastSlack(records: seq<FrameRecord>): int {
    if records == [] then 1024
    else Min(LeastSlack(records[..|records| - 1]), records[|records| - 1].slack)
  }

  /** The frames whose work ended at their deadline or past it. */
  function LateFrames(clock: nat -> Option<uint64>, start: nat, records: seq<FrameRecord>): nat {
    if records == [] then 0
    else
      var f := |records| - 1;
      LateFrames(clock, start, records[..f]) + if Reaches(clock, records[f].checked, Deadline(start, f)) then 1 else 0
  }

  function FirstLate(clock: nat -> Option<uint64>, start: nat, records: seq<FrameRecord>): Option<nat> {
    if records == [] then None
    else
      var f := |records| - 1;
      var earlier := FirstLate(clock, start, records[..f]);
      if earlier.Some? then earlier
      else if Reaches(clock, records[f].checked, Deadline(start, f)) then Some(f) else None
  }

  lemma {:induction false} FirstLateMeans(clock: nat -> Option<uint64>, start: nat, records: seq<FrameRecord>)
    ensures match FirstLate(clock, start, records)
            case None => forall f: nat :: f < |records| ==> !Reaches(clock, records[f].checked, Deadline(start, f))
            case Some(l) =>
              && l < |records| && Reaches(clock, records[l].checked, Deadline(start, l))
              && forall f: nat :: f < l ==> !Reaches(clock, records[f].checked, Deadline(start, f))
    ensures LateFrames(clock, start, records) == 0 <==> FirstLate(clock, start, records) == None
  {
    hide Reaches, Deadline;
    if records == [] {
    } else {
      FirstLateMeans(clock, start, records[..|records| - 1]);
    }
  }

  lemma FirstLateExactlyWhen(clock: nat -> Option<uint64>, start: nat, records: seq<FrameRecord>, f: nat)
    requires f < |records|
    ensures FirstLate(clock, start, records) == Some(f) <==>
            && Reaches(clock, records[f].checked, Deadline(start, f))
            && forall g: nat :: g < f ==> !Reaches(clock, records[g].checked, Deadline(start, g))
  {
    hide *;
    FirstLateMeans(clock, start, records);
    if forall g: nat :: g < f ==> !Reaches(clock, records[g].checked, Deadline(start, g)) {
      if FirstLate(clock, start, records).Some? && FirstLate(clock, start, records).value < f {
        assert false;
      }
    }
  }

  lemma OneMoreFrame(clock: nat -> Option<uint64>, start: nat, was: seq<FrameRecord>, r: FrameRecord)
    ensures var late := Reaches(clock, r.checked, Deadline(start, |was|));
            && LeastSlack(was + [r]) == Min(LeastSlack(was), r.slack)
            && LateFrames(clock, start, was + [r]) == LateFrames(clock, start, was) + (if late then 1 else 0)
            && FirstLate(clock, start, was + [r])
               == if FirstLate(clock, start, was) == None && late then Some(|was|) else FirstLate(clock, start, was)
  {
    hide Reaches, Deadline;
    assert (was + [r])[..|was|] == was;
  }

  /** The slack is what is left to the deadline, and nothing at it or past it. */
  lemma SlackMeans(now: uint64, deadline: uint64)
    ensures now >= deadline ==> Slack(now, deadline) == 0
    ensures now < deadline && deadline - now < 0x1_0000_0000 ==> now + Slack(now, deadline) == deadline
  {
  }

  /** The least slack of a window: no frame had less, and it is one frame's or the whole minor frame. */
  lemma {:induction false} LeastSlackMeans(records: seq<FrameRecord>)
    ensures LeastSlack(records) <= 1024 && forall k :: 0 <= k < |records| ==> LeastSlack(records) <= records[k].slack
    ensures LeastSlack(records) == 1024 || exists k :: 0 <= k < |records| && records[k].slack == LeastSlack(records)
  {
    if records == [] {
    } else {
      var n := |records| - 1;
      LeastSlackMeans(records[..n]);
      if LeastSlack(records) == LeastSlack(records[..n]) < 1024 {
        var k :| 0 <= k < n && records[..n][k].slack == LeastSlack(records[..n]);
        assert records[k].slack == LeastSlack(records);
      } else if LeastSlack(records) < 1024 {
        assert records[n].slack == LeastSlack(records);
      }
    }
  }

  /** The frames whose reading had reached the deadline, counted. */
  lemma {:induction false} LateFramesCounts(clock: nat -> Option<uint64>, start: nat, records: seq<FrameRecord>)
    ensures LateFrames(clock, start, records)
         == |set f: nat | f < |records| && Reaches(clock, records[f].checked, Deadline(start, f))|
  {
    hide Reaches, Deadline;
    if records == [] {
    } else {
      var n := |records| - 1;
      LateFramesCounts(clock, start, records[..n]);
      var before := set f: nat | f < n && Reaches(clock, records[..n][f].checked, Deadline(start, f));
      var all := set f: nat | f < |records| && Reaches(clock, records[f].checked, Deadline(start, f));
      assert all == before + if Reaches(clock, records[n].checked, Deadline(start, n)) then {n} else {};
    }
  }

  /** The clock alone decides the record. */
  lemma {:induction false} KeptByOne(clock: nat -> Option<uint64>, start: nat, a: seq<FrameRecord>,
                                     b: seq<FrameRecord>)
    requires Kept(clock, start, a) && Kept(clock, start, b) && |a| == |b|
    ensures a == b
  {
    if a == [] {
    } else {
      hide *;
      var f := |a| - 1;
      KeptShorter(clock, start, a);
      KeptShorter(clock, start, b);
      KeptByOne(clock, start, a[..f], b[..f]);
      WaitedOnce(clock, Deadline(start, f), a[f], b[f]);
      SameLast(a, b, f);
    }
  }

  lemma SameLast(a: seq<FrameRecord>, b: seq<FrameRecord>, f: nat)
    requires |a| == |b| == f + 1 && a[..f] == b[..f] && a[f] == b[f]
    ensures a == b
  {
    assert a == a[..f] + [a[f]] && b == b[..f] + [b[f]];
  }

  lemma KeptShorter(clock: nat -> Option<uint64>, start: nat, records: seq<FrameRecord>)
    requires Kept(clock, start, records) && records != []
    ensures Kept(clock, start, records[..|records| - 1])
    ensures var f := |records| - 1;
            && records[f].published == Wrap32(start + Ticks(f)) && records[f].checked == NextReading(records[..f])
            && Waited(clock, Deadline(start, f), records[f])
  {
    hide Wrap32, Wrap64, Ticks, Waited, NextReading;
    var shorter := records[..|records| - 1];
    forall f | 0 <= f < |shorter| ensures shorter[..f] == records[..f] {}
  }

  lemma WaitedOnce(clock: nat -> Option<uint64>, deadline: uint64, a: FrameRecord, b: FrameRecord)
    requires Waited(clock, deadline, a) && Waited(clock, deadline, b) && a.checked == b.checked
    requires a.published == b.published
    ensures a == b
  {
    hide Slack;
    assert !Short(clock, a.closed, deadline) && !Short(clock, b.closed, deadline);
  }

  // ---- the schedule and the word sizes ------------------------------------------------------------

  /** Going round before a step changes nothing about where the step ends. */
  lemma WrapStep(x: nat, step: nat)
    ensures Wrap64(Wrap64(x) + step) == Wrap64(x + step)
  {
    var q, r := x / 0x1_0000_0000_0000_0000, x % 0x1_0000_0000_0000_0000;
    assert x + step == r + step + 0x1_0000_0000_0000_0000 * q;
    SameRemainder64(r + step, q);
  }

  lemma {:induction false} SameRemainder64(y: nat, q: nat)
    ensures (y + 0x1_0000_0000_0000_0000 * q) % 0x1_0000_0000_0000_0000 == y % 0x1_0000_0000_0000_0000
  {
    if q == 0 {
    } else {
      SameRemainder64(y, q - 1);
    }
  }

  lemma {:induction false} SameRemainder32(y: nat, q: nat)
    ensures (y + 0x1_0000_0000 * q) % 0x1_0000_0000 == y % 0x1_0000_0000
  {
    if q == 0 {
    } else {
      SameRemainder32(y, q - 1);
    }
  }

  /** The low half of a word that went round is the low half of the exact sum. */
  lemma LowHalf(x: nat)
    ensures Wrap32(Wrap64(x)) == Wrap32(x)
  {
    var q, r := x / 0x1_0000_0000_0000_0000, x % 0x1_0000_0000_0000_0000;
    assert x == r + 0x1_0000_0000 * (0x1_0000_0000 * q);
    SameRemainder32(r, 0x1_0000_0000 * q);
  }
}
