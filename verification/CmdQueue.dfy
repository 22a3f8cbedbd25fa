/** The time-tagged command queue and the arming state (flight/cmd/queue.c). */
module CmdQueue {
  import opened Words
  import opened CmdTable

  const LEN := 4
  const LATE_TICKS := 1024
  const ARM_FRAMES := 4
  const ARM_NONE: uint32 := 0xFFFF

  datatype Slot = Slot(when: uint32, arg: uint32, counter: uint32, opcode: uint8, occupied: bool)

  /** What has left the queue: a command run, an entry of an unknown opcode dropped, or a reset. */
  datatype Departure =
    | Ran(slot: Slot, frame: uint32, now: uint32)
    | Unknown(slot: Slot)
    | Reset(dropped: nat)

  /** The module's state, with the history of departures beside it. */
  datatype Queue = Queue(slots: seq<Slot>, queued: uint32, executed: uint32, late: uint32,
                         armedOpcode: uint32, armedUntil: uint32, fx: Effects, log: seq<Departure>)

  // ---- placing and resetting --------------------------------------------------

  predicate Full(slots: seq<Slot>) {
    forall i :: 0 <= i < |slots| ==> slots[i].occupied
  }

  function FirstFree(slots: seq<Slot>): (k: nat)
    ensures k <= |slots| && (k == |slots| <==> Full(slots))
    ensures k < |slots| ==> !slots[k].occupied
    ensures forall i :: 0 <= i < k ==> slots[i].occupied
  {
    if slots == [] then 0
    else if !slots[0].occupied then 0
    else
      var k := FirstFree(slots[1..]);
      assert forall i :: 0 <= i < k ==> slots[1..][i] == slots[i + 1];
      assert k == |slots| - 1 ==> forall i :: 0 < i < |slots| ==> slots[i] == slots[1..][i - 1];
      k + 1
  }

  function AfterPut(q: Queue, entry: Slot): Queue {
    if Full(q.slots) then q
    else q.(slots := q.slots[FirstFree(q.slots) := entry], queued := Inc(q.queued))
  }

  const EMPTY_SLOT := Slot(0, 0, 0, 0, false)

  function Occupied(slots: seq<Slot>): nat {
    if slots == [] then 0 else Occupied(slots[..|slots| - 1]) + if slots[|slots| - 1].occupied then 1 else 0
  }

  /** `obc_cmd_queue_init`: the boot's and rung 2's. */
  function AfterReset(q: Queue): Queue {
    q.(slots := [EMPTY_SLOT, EMPTY_SLOT, EMPTY_SLOT, EMPTY_SLOT], queued := 0,
       armedOpcode := ARM_NONE, armedUntil := 0, log := q.log + [Reset(Occupied(q.slots))])
  }

  // ---- running ------------------------------------------------------------------

  predicate Due(s: Slot, now: uint32) {
    s.occupied && s.when <= now
  }

  /** Slot `k` is due and no due slot goes before it: earlier tag, ties to the lower slot. */
  predicate IsOldest(slots: seq<Slot>, now: uint32, k: nat) {
    && k < |slots| && Due(slots[k], now)
    && forall i :: 0 <= i < |slots| && Due(slots[i], now) ==> Before(slots, k, i) || i == k
  }

  predicate Before(slots: seq<Slot>, i: nat, j: nat)
    requires i < |slots| && j < |slots|
  {
    slots[i].when < slots[j].when || (slots[i].when == slots[j].when && i < j)
  }

  function Oldest(slots: seq<Slot>, now: uint32, upto: nat): (k: nat)
    requires upto <= |slots|
    ensures k < upto || k == |slots|
    ensures k == |slots| <==> forall i :: 0 <= i < upto ==> !Due(slots[i], now)
    ensures k < upto ==> Due(slots[k], now)
    ensures k < upto ==> forall i :: 0 <= i < upto && Due(slots[i], now) ==> Before(slots, k, i) || i == k
  {
    if upto == 0 then |slots|
    else
      var o := Oldest(slots, now, upto - 1);
      if Due(slots[upto - 1], now) && (o == |slots| || slots[upto - 1].when < slots[o].when) then upto - 1 else o
  }

  /** Later than one frame past its tag, in the wrapping arithmetic of the comparison. */
  predicate CountsLate(s: Slot, now: uint32) {
    now > Wrap32(s.when + LATE_TICKS)
  }

  /** An executed arm command establishes the arming; any other leaves it. */
  function Arming(q: Queue, frame: uint32): Queue {
    if q.fx.armTarget != 0 then
      q.(armedOpcode := q.fx.armTarget, armedUntil := Wrap32(frame + ARM_FRAMES), fx := q.fx.(armTarget := 0))
    else q
  }

  function Execute(q: Queue, k: nat, now: uint32, frame: uint32): Queue
    requires k < |q.slots|
  {
    var s := q.slots[k];
    var out := q.(slots := q.slots[k := s.(occupied := false)], queued := if q.queued > 0 then q.queued - 1 else 0);
    match Lookup(s.opcode)
    case None => out.(log := q.log + [Unknown(s)])
    case Some(cmd) =>
      Arming(out.(late := if CountsLate(s, now) then Bump(q.late) else q.late,
                  executed := Bump(q.executed),
                  fx := Handle(cmd.handler, s.arg, q.fx),
                  log := q.log + [Ran(s, frame, now)]), frame)
  }

  /** An arm expires at its frame, before anything runs. */
  function Expire(q: Queue, frame: uint32): Queue {
    if q.armedOpcode != ARM_NONE && frame >= q.armedUntil then q.(armedOpcode := ARM_NONE) else q
  }

  function Passes(q: Queue, now: uint32, frame: uint32, passes: nat): Queue
    decreases passes
  {
    if passes == 0 || Oldest(q.slots, now, |q.slots|) == |q.slots| then q
    else Passes(Execute(q, Oldest(q.slots, now, |q.slots|), now, frame), now, frame, passes - 1)
  }

  function AfterRun(q: Queue, now: uint32, frame: uint32): Queue {
    Passes(Expire(q, frame), now, frame, LEN)
  }

  // ---- the module -----------------------------------------------------------------

  class CommandQueue {
    const slots: array<Slot>
    var queued: uint32
    var executed: uint32
    var late: uint32
    var armedOpcode: uint32
    var armedUntil: uint32
    var fx: Effects
    ghost var log: seq<Departure>

    ghost predicate Valid() {
      slots.Length == LEN
    }

    ghost function View(): Queue
      reads this, slots
    {
      Queue(slots[..], queued, executed, late, armedOpcode, armedUntil, fx, log)
    }

    constructor ()
      ensures Valid() && fresh(slots)
      ensures View() == Queue([EMPTY_SLOT, EMPTY_SLOT, EMPTY_SLOT, EMPTY_SLOT], 0, 0, 0, ARM_NONE, 0,
                              Effects(0, 0, 0, false), [])
    {
      slots := new Slot[4](_ => EMPTY_SLOT);
      queued, executed, late, armedOpcode, armedUntil := 0, 0, 0, ARM_NONE, 0;
      fx := Effects(0, 0, 0, false);
      log := [];
      new;
      assert slots[..] == [EMPTY_SLOT, EMPTY_SLOT, EMPTY_SLOT, EMPTY_SLOT];
    }

    /** `obc_cmd_queue_init`. */
    method Init()
      requires Valid()
      modifies this, slots
      ensures View() == AfterReset(old(View()))
    {
      for i := 0 to LEN
        invariant unchanged(this)
        invariant forall k :: 0 <= k < i ==> slots[k] == EMPTY_SLOT
      {
        slots[i] := EMPTY_SLOT;
      }
      queued, armedOpcode, armedUntil := 0, ARM_NONE, 0;
      log := log + [Reset(Occupied(old(slots[..])))];
      assert slots[..] == [EMPTY_SLOT, EMPTY_SLOT, EMPTY_SLOT, EMPTY_SLOT];
    }

    /** `obc_cmd_queue_put`: the first free slot, or a refusal that leaves every entry as it was. */
    method Put(opcode: uint8, when: uint32, arg: uint32, counter: uint32) returns (ok: bool)
      requires Valid()
      modifies this, slots
      ensures ok <==> !Full(old(slots[..]))
      ensures View() == AfterPut(old(View()), Slot(when, arg, counter, opcode, true))
    {
      for i := 0 to LEN
        invariant View() == old(View())
        invariant forall k :: 0 <= k < i ==> slots[k].occupied
      {
        if slots[i].occupied {
          continue;
        }
        assert !slots[..][i].occupied && FirstFree(slots[..]) == i;
        slots[i] := Slot(when, arg, counter, opcode, true);
        queued := Inc(queued);
        return true;
      }
      return false;
    }

    /** The inner search of a pass. */
    method FindOldest(now: uint32) returns (oldest: nat)
      requires Valid()
      ensures oldest == Oldest(slots[..], now, LEN)
    {
      oldest := LEN;
      for i := 0 to LEN
        invariant oldest == Oldest(slots[..], now, i)
      {
        if !slots[i].occupied || slots[i].when > now {
          continue;
        }
        if oldest == LEN || slots[i].when < slots[oldest].when {
          oldest := i;
        }
      }
    }

    /** The rest of a pass: free the slot, count, run the handler, arm. */
    method RunSlot(k: nat, now: uint32, frame: uint32)
      requires Valid() && k < LEN
      modifies this, slots
      ensures View() == Execute(old(View()), k, now, frame)
    {
      var cmd := FindRow(slots[k].opcode);
      ghost var was := slots[k];
      slots[k] := slots[k].(occupied := false);
      assert slots[..] == old(slots[..])[k := was.(occupied := false)];
      if queued > 0 {
        queued := queued - 1;
      }
      if cmd.None? {
        log := log + [Unknown(was)];
        return;
      }
      if now > Wrap32(slots[k].when + LATE_TICKS) {
        late := Bump(late);
      }
      fx := Handle(cmd.value.handler, slots[k].arg, fx);
      executed := Bump(executed);
      log := log + [Ran(was, frame, now)];
      if fx.armTarget != 0 {
        armedOpcode := fx.armTarget;
        armedUntil := Wrap32(frame + ARM_FRAMES);
        fx := fx.(armTarget := 0);
      }
    }

    /** The check before anything runs. */
    method ExpireArm(frame: uint32)
      requires Valid()
      modifies this`armedOpcode
      ensures View() == Expire(old(View()), frame)
    {
      if armedOpcode != ARM_NONE && frame >= armedUntil {
        armedOpcode := ARM_NONE;
      }
    }

    /** `obc_cmd_queue_run`. */
    method Run(now: uint32, frame: uint32)
      requires Valid()
      modifies this, slots
      ensures View() == AfterRun(old(View()), now, frame)
    {
      hide Oldest, Execute, Passes, Expire, Due;
      ExpireArm(frame);
      ghost var goal := Passes(View(), now, frame, LEN);
      for pass := 0 to LEN
        invariant Passes(View(), now, frame, LEN - pass) == goal
      {
        var oldest := FindOldest(now);
        PassUnfolds(View(), now, frame, LEN - pass);
        if oldest == LEN {
          return;
        }
        RunSlot(oldest, now, frame);
      }
      PassUnfolds(View(), now, frame, 0);
    }
  }

  // ---- exactly the due entries, in order ---------------------------------------

  function DueCount(slots: seq<Slot>, now: uint32): nat {
    if slots == [] then 0 else DueCount(slots[..|slots| - 1], now) + if Due(slots[|slots| - 1], now) then 1 else 0
  }

  lemma {:induction false} DueCountUpdate(slots: seq<Slot>, now: uint32, k: nat, s: Slot)
    requires k < |slots|
    ensures DueCount(slots[k := s], now)
         == DueCount(slots, now) - (if Due(slots[k], now) then 1 else 0) + (if Due(s, now) then 1 else 0)
  {
    var n := |slots| - 1;
    if k == n {
      assert slots[k := s][..n] == slots[..n];
    } else {
      assert slots[k := s][..n] == slots[..n][k := s];
      DueCountUpdate(slots[..n], now, k, s);
    }
  }

  lemma {:induction false} DueCountZero(slots: seq<Slot>, now: uint32)
    ensures DueCount(slots, now) <= |slots|
    ensures DueCount(slots, now) == 0 <==> forall i :: 0 <= i < |slots| ==> !Due(slots[i], now)
  {
    if slots == [] {
    } else {
      DueCountZero(slots[..|slots| - 1], now);
      assert forall i :: 0 <= i < |slots| - 1 ==> slots[..|slots| - 1][i] == slots[i];
    }
  }

  /** The slots after every due entry has been freed and nothing else touched. */
  predicate DueFreed(before: seq<Slot>, after: seq<Slot>, now: uint32) {
    && |after| == |before|
    && forall i :: 0 <= i < |before| ==>
         after[i] == if Due(before[i], now) then before[i].(occupied := false) else before[i]
  }

  /** `order` is the due slots, each once, by tag and then by slot. */
  predicate DueOrder(slots: seq<Slot>, now: uint32, order: seq<nat>) {
    && (forall n :: 0 <= n < |order| ==> order[n] < |slots| && Due(slots[order[n]], now))
    && (forall m, n :: 0 <= m < n < |order| ==> Before(slots, order[m], order[n]))
    && (forall i :: 0 <= i < |slots| && Due(slots[i], now) ==> i in order)
  }

  /** The departures of a run in this order: known commands run, unknown ones dropped. */
  function Departures(slots: seq<Slot>, order: seq<nat>, now: uint32, frame: uint32): seq<Departure>
    requires forall n :: 0 <= n < |order| ==> order[n] < |slots|
  {
    seq(|order|, n requires 0 <= n < |order| =>
      var s := slots[order[n]]; if Lookup(s.opcode).Some? then Ran(s, frame, now) else Unknown(s))
  }

  /** A run executes exactly the due entries, in non-decreasing tag order, ties by slot. */
  lemma {:induction false} RunsExactlyTheDue(q: Queue, now: uint32, frame: uint32,
                                             passes: nat)
    returns (order: seq<nat>)
    requires DueCount(q.slots, now) <= passes
    ensures DueOrder(q.slots, now, order)
    ensures forall n :: 0 <= n < |order| ==> order[n] < |q.slots|
    ensures DueFreed(q.slots, Passes(q, now, frame, passes).slots, now)
    ensures Passes(q, now, frame, passes).log == q.log + Departures(q.slots, order, now, frame)
    decreases passes
  {
    hide *;
    var k := Oldest(q.slots, now, |q.slots|);
    if k == |q.slots| {
      order := [];
      NothingDue(q, now, frame, passes);
    } else {
      PassTakesOldest(q, now, frame, passes);
      var next := Execute(q, k, now, frame);
      ExecuteFrees(q, k, now, frame);
      var rest := RunsExactlyTheDue(next, now, frame, passes - 1);
      order := [k] + rest;
      OrderExtends(q.slots, now, k, rest);
      FreedExtends(q.slots, Passes(next, now, frame, passes - 1).slots, now, k);
      DeparturesExtend(q.slots, now, frame, k, rest);
      ConcatAssociates(q.log, Departures(q.slots, [k], now, frame), Departures(next.slots, rest, now, frame));
    }
  }

  lemma NothingDue(q: Queue, now: uint32, frame: uint32, passes: nat)
    requires Oldest(q.slots, now, |q.slots|) == |q.slots|
    ensures Passes(q, now, frame, passes) == q && DueFreed(q.slots, q.slots, now) && DueOrder(q.slots, now, [])
    ensures q.log + Departures(q.slots, [], now, frame) == q.log
  {
  }

  lemma PassUnfolds(q: Queue, now: uint32, frame: uint32, passes: nat)
    ensures var k := Oldest(q.slots, now, |q.slots|);
            Passes(q, now, frame, passes) ==
            if passes == 0 || k == |q.slots| then q
            else Passes(Execute(q, k, now, frame), now, frame, passes - 1)
  {
    hide Execute;
  }

  lemma PassTakesOldest(q: Queue, now: uint32, frame: uint32, passes: nat)
    requires Oldest(q.slots, now, |q.slots|) != |q.slots| && DueCount(q.slots, now) <= passes
    ensures var k := Oldest(q.slots, now, |q.slots|);
            && passes > 0 && IsOldest(q.slots, now, k)
            && Passes(q, now, frame, passes) == Passes(Execute(q, k, now, frame), now, frame, passes - 1)
            && DueCount(q.slots[k := q.slots[k].(occupied := false)], now) <= passes - 1
  {
    hide Execute;
    var k := Oldest(q.slots, now, |q.slots|);
    DueCountZero(q.slots, now);
    DueCountUpdate(q.slots, now, k, q.slots[k].(occupied := false));
  }

  lemma ConcatAssociates<T>(a: seq<T>, b: seq<T>, c: seq<T>)
    ensures (a + b) + c == a + (b + c)
  {
  }

  lemma FreedExtends(slots: seq<Slot>, after: seq<Slot>, now: uint32, k: nat)
    requires IsOldest(slots, now, k)
    requires DueFreed(slots[k := slots[k].(occupied := false)], after, now)
    ensures DueFreed(slots, after, now)
  {
  }

  /** What one pass does to the slots and to the history. */
  lemma ExecuteFrees(q: Queue, k: nat, now: uint32, frame: uint32)
    requires k < |q.slots|
    ensures var next := Execute(q, k, now, frame);
            && next.slots == q.slots[k := q.slots[k].(occupied := false)]
            && next.log == q.log + Departures(q.slots, [k], now, frame)
  {
    hide Lookup;
    assert Departures(q.slots, [k], now, frame)
        == [if Lookup(q.slots[k].opcode).Some? then Ran(q.slots[k], frame, now) else Unknown(q.slots[k])];
  }

  lemma DeparturesExtend(slots: seq<Slot>, now: uint32, frame: uint32, k: nat, rest: seq<nat>)
    requires k < |slots|
    requires DueOrder(slots[k := slots[k].(occupied := false)], now, rest)
    ensures forall n :: 0 <= n < |rest| ==> rest[n] < |slots|
    ensures Departures(slots, [k] + rest, now, frame)
         == Departures(slots, [k], now, frame)
            + Departures(slots[k := slots[k].(occupied := false)], rest, now, frame)
  {
    hide Lookup;
    var next := slots[k := slots[k].(occupied := false)];
    forall n | 0 <= n < |rest| ensures rest[n] < |slots| && slots[rest[n]] == next[rest[n]] {
      assert Due(next[rest[n]], now);
    }
  }

  lemma OrderExtends(slots: seq<Slot>, now: uint32, k: nat, rest: seq<nat>)
    requires IsOldest(slots, now, k)
    requires DueOrder(slots[k := slots[k].(occupied := false)], now, rest)
    ensures DueOrder(slots, now, [k] + rest)
    ensures k < |slots| && forall n :: 0 <= n < |rest| ==> rest[n] < |slots|
  {
    var next := slots[k := slots[k].(occupied := false)];
    var order := [k] + rest;
    forall n | 0 <= n < |rest| ensures rest[n] != k && slots[rest[n]] == next[rest[n]] {
      assert Due(next[rest[n]], now);
    }
    forall i | 0 <= i < |slots| && Due(slots[i], now) ensures i in order {
      if i == k {
        assert order[0] == k;
      } else {
        assert Due(next[i], now);
        var n :| 0 <= n < |rest| && rest[n] == i;
        assert order[n + 1] == i;
      }
    }
    forall m, n | 0 <= m < n < |order| ensures Before(slots, order[m], order[n]) {
      if m == 0 {
        assert Due(slots[order[n]], now);
      } else {
        assert Before(next, rest[m - 1], rest[n - 1]);
      }
    }
  }
}
