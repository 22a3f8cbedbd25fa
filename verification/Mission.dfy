/**
  A mission: boot after boot over the records that survive a reset.

  `Vehicle` runs the persistent part of one boot in the order of `obc_main`
  (flight/core/main.c) with the record stores of recover.c, mode.c and fault.c, and can
  die between any two of them.  `BootStep` is what one boot guarantees, and the theorems
  are about every sequence of boots.
*/
module Mission {
  import opened Words
  import opened BootRecords
  import F = FaultRecord

  const REASON_TRAP: uint32 := 1
  const REASON_RESET_LOOP: uint32 := 4
  const REASON_TELEMETRY: uint32 := 5

  /** What the next boot can learn: the streak, the reason of a recorded safe entry, a recorded trap. */
  datatype View = View(streak: Option<Streak>, recorded: Option<uint32>, trapRecorded: bool)

  predicate SaysTrap(f: F.Record) {
    F.Validate(f) == F.Authentic(F.TRAP) || F.Validate(f) == F.Authentic(F.DOUBLE_FAULT)
  }

  /** What the executive does to the mode and to the ladder, in order. */
  datatype ExecEvent = EntersSafe(reason: uint32) | ReachesRung3

  /**
    The environment of one boot.  `preStores` and `execStores` say how many record stores
    are made before a death in that phase, if one comes.  Before the executive only a trap
    can kill; inside it the watchdog can as well.
  */
  datatype Script = Script(preStores: Option<nat>, auditOk: bool, exec: seq<ExecEvent>,
                           execStores: Option<nat>, execTrap: bool, frames: uint32,
                           csr: F.Csr, nested: bool)

  /**
    What happened in one boot.  `finished` says that the executive came back, after
    `frames` frames, with `left` record stores to go before a death, if one comes.
  */
  datatype Outcome = Outcome(count: uint32, auditFailed: bool, reachedExecutive: bool, startedSafe: bool,
                             safeCompleted: bool, rung3: bool, healthy: bool, trapped: bool,
                             finished: bool, frames: uint32, left: Option<nat>)

  /** The count a boot starts with: `obc_recover_boot_begins`. */
  function CountAtBoot(streak: Option<Streak>): uint32 {
    match streak
    case None => 0
    case Some(s) => if s.raised then Inc(s.count) else s.count
  }

  /** Why a boot started safe: the trap before it, the entry on record, the streak, or its own audit. */
  function StartReason(v: View, count: uint32): uint32 {
    if v.trapRecorded then REASON_TRAP
    else if v.recorded.Some? then v.recorded.value
    else if count >= SHORT_BOOT_LIMIT then REASON_RESET_LOOP else REASON_TELEMETRY
  }

  /** What one boot, started over `v`, is guaranteed to have done when it ends over `v'`. */
  predicate BootStep(v: View, o: Outcome, v': View) {
    && o.count == CountAtBoot(v.streak)
    && (if o.healthy then v'.streak.None? || v'.streak == Some(Streak(0, false))
        else v'.streak == Some(Streak(o.count, true)))
    && (o.healthy <==> o.finished && o.frames >= HEALTHY_FRAMES && o.left != Some(0))
    && (o.reachedExecutive ==>
          (o.startedSafe <==> v.trapRecorded || v.recorded.Some? || o.count >= SHORT_BOOT_LIMIT || o.auditFailed))
    && (o.rung3 ==> o.reachedExecutive && o.count < SHORT_BOOT_LIMIT && !o.healthy)
    && (!o.reachedExecutive ==> o.trapped)
    && (o.trapped <==> v'.trapRecorded)
    && (o.finished ==> o.reachedExecutive && !o.rung3)
    && (o.reachedExecutive && o.startedSafe ==> v'.recorded == Some(StartReason(v, o.count)))
    && (o.reachedExecutive && !o.startedSafe ==> (v'.recorded.Some? <==> o.safeCompleted))
    && (o.safeCompleted ==> v'.recorded.Some? || v'.trapRecorded)
  }

  class Vehicle {
    // .noinit memory
    var boot: BootRecord
    var modeRecord: ModeRecord
    const fault: F.Memory
    // .bss, cleared by every boot
    var safe: bool
    var safeReason: uint32
    var announced: bool
    // the moment of death
    var alive: bool
    var storesLeft: Option<nat>
    // observation only: this boot wrote a complete mode record
    var safeCompleted: bool

    constructor (boot: BootRecord, modeRecord: ModeRecord, fault: F.Memory)
      ensures this.boot == boot && this.modeRecord == modeRecord && this.fault == fault
    {
      this.boot, this.modeRecord, this.fault := boot, modeRecord, fault;
      safe, safeReason, announced, alive, storesLeft, safeCompleted := false, 0, false, true, None, false;
    }

    ghost function Records(): View
      reads this, fault
    {
      View(ReadBoot(boot), ReadMode(modeRecord), SaysTrap(fault.record))
    }

    /** How many of the next `n` record stores reach memory. */
    method Reach(n: nat) returns (cut: nat)
      modifies this`alive, this`storesLeft
      ensures cut <= n && (alive <==> old(alive) && cut == n)
      ensures !old(alive) ==> cut == 0
      ensures old(alive) ==> cut == match old(storesLeft) case None => n case Some(left) => Min(left, n)
    {
      if !alive {
        return 0;
      }
      match storesLeft
      case None => return n;
      case Some(left) =>
        if left < n {
          alive := false;
          return left;
        }
        storesLeft := Some(left - n);
        return n;
    }

    /** `obc_mode_enter_safe`: latched, so the first reason stays and the record is written once. */
    method EnterSafe(reason: uint32)
      requires safe <==> announced
      modifies this`safe, this`safeReason, this`announced, this`alive, this`storesLeft,
               this`modeRecord, this`safeCompleted
      ensures safe && announced
      ensures old(announced) ==> unchanged(this)
      ensures !old(alive) ==> !alive && modeRecord == old(modeRecord) && safeCompleted == old(safeCompleted)
      ensures safeReason == if old(announced) then old(safeReason) else reason
      ensures old(alive) && alive && !old(announced) ==> ReadMode(modeRecord) == Some(reason) && safeCompleted
      ensures !old(announced) && !safeCompleted ==> modeRecord == old(modeRecord) || ReadMode(modeRecord) == None
      ensures alive ==> old(alive)
      ensures safeCompleted && !old(safeCompleted) ==> ReadMode(modeRecord).Some?
      ensures old(safeCompleted) ==> safeCompleted
    {
      if announced {
        return;
      }
      announced, safe, safeReason := true, true, reason;
      var cut := Reach(4);
      modeRecord := WriteMode(modeRecord, reason, cut);
      if cut == 4 {
        safeCompleted := true;
      }
    }

    /** `obc_mode_restore`: nominal, unless a trap or a safe entry was left behind. */
    method Restore(previous: uint32)
      requires alive
      modifies this`safe, this`safeReason, this`announced, this`alive, this`storesLeft,
               this`modeRecord, this`safeCompleted
      ensures safe == announced
      ensures safe == (previous == F.TRAP || previous == F.DOUBLE_FAULT || ReadMode(old(modeRecord)).Some?)
      ensures !safe ==> modeRecord == old(modeRecord) && alive
      ensures safe ==>
                var reason := if previous == F.TRAP || previous == F.DOUBLE_FAULT then REASON_TRAP
                              else ReadMode(old(modeRecord)).value;
                safeReason == reason && (alive ==> ReadMode(modeRecord) == Some(reason))
      ensures !safe ==> safeReason == 0
      ensures safeCompleted && !old(safeCompleted) ==> safe
      ensures safeCompleted && !old(safeCompleted) ==> ReadMode(modeRecord).Some?
      ensures old(safeCompleted) ==> safeCompleted
    {
      safe, safeReason, announced := false, 0, false;
      if previous == F.TRAP || previous == F.DOUBLE_FAULT {
        EnterSafe(REASON_TRAP);
        return;
      }
      if ReadMode(modeRecord).Some? {
        EnterSafe(ReadMode(modeRecord).value);
      }
    }

    /** `obc_recover_escalate` at rung 3: safe mode once the streak is at its limit, a reset before. */
    method EscalateRung3() returns (reset: bool)
      requires alive && ReadBoot(boot).Some? && (safe <==> announced)
      modifies this`safe, this`safeReason, this`announced, this`alive, this`storesLeft,
               this`modeRecord, this`safeCompleted
      ensures reset <==> ReadBoot(boot).value.count < SHORT_BOOT_LIMIT
      ensures reset ==> !alive && unchanged(this`modeRecord) && safe == old(safe) && announced == old(announced)
                        && safeCompleted == old(safeCompleted)
      ensures !reset ==> safe && announced && (old(announced) ==> unchanged(this))
      ensures !reset && alive && !old(announced) ==> ReadMode(modeRecord) == Some(REASON_RESET_LOOP) && safeCompleted
      ensures !old(announced) && !safeCompleted ==> modeRecord == old(modeRecord) || ReadMode(modeRecord) == None
      ensures safeCompleted && !old(safeCompleted) ==> ReadMode(modeRecord).Some?
      ensures old(safeCompleted) ==> safeCompleted
    {
      if ReadBoot(boot).value.count >= SHORT_BOOT_LIMIT {
        EnterSafe(REASON_RESET_LOOP);
        return false;
      }
      alive := false;
      return true;
    }

    /** A trap: the handler runs to its end, or is itself trapped and leaves the double-fault marker. */
    method Die(csr: F.Csr, nested: bool)
      requires fault.record.inHandler == 0
      modifies fault
      ensures SaysTrap(fault.record)
    {
      fault.TrapEntry(csr, 7);
      if nested {
        fault.TrapEntry(csr, 1);
      }
    }

    /**
      From `obc_recover_boot_begins` to the point where the executive would start.  Any
      death here is a trap, and by then the handler has left its record.
    */
    method PreExecutive(s: Script) returns (count: uint32)
      modifies this, fault
      ensures count == CountAtBoot(old(ReadBoot(boot)))
      ensures ReadBoot(boot) == Some(Streak(count, true))
      ensures !alive ==> SaysTrap(fault.record)
      ensures alive ==> fault.record.inHandler == 0 && safe == announced
      ensures alive && safe ==> ReadMode(modeRecord) == Some(StartReason(old(Records()), count))
      ensures alive ==> (safeCompleted ==> safe)
      ensures alive ==> !SaysTrap(fault.record)
      ensures alive ==> (safe <==> old(SaysTrap(fault.record) || ReadMode(modeRecord).Some?)
                                   || count >= SHORT_BOOT_LIMIT || !s.auditOk)
      ensures alive && !safe ==> !ReadMode(modeRecord).Some?
      ensures safeCompleted ==> !alive || ReadMode(modeRecord).Some?
    {
      hide ReadMode, ReadBoot, CountAtBoot, F.Validate;
      alive, storesLeft, safeCompleted := true, None, false;
      assert F.Validate(fault.record.(inHandler := 0)) == F.Validate(fault.record) by { F.FlagIsNotRead(fault.record); }
      fault.ClearReentryFlag();
      count := CountAtBoot(ReadBoot(boot));
      boot := WriteBoot(boot, count, 1, 5);
      var ladderExhausted := count >= SHORT_BOOT_LIMIT;

      storesLeft := s.preStores;
      var reading := F.Validate(fault.record);
      var previous := if reading.Authentic? then reading.resetCause else F.UNKNOWN;
      Restore(previous);
      var cut := Reach(6);
      fault.Consume(cut);
      if ladderExhausted && alive {
        var reset := EscalateRung3();
      }
      if !s.auditOk && alive {
        EnterSafe(REASON_TELEMETRY);
      }
      if !alive {
        Die(s.csr, s.nested);
      }
    }

    /** One event inside the executive. */
    method ExecStep(e: ExecEvent) returns (rung3: bool)
      requires alive && ReadBoot(boot).Some? && safe == announced
      requires safe ==> ReadMode(modeRecord).Some?
      requires safeCompleted ==> safe
      modifies this`safe, this`safeReason, this`announced, this`alive, this`storesLeft,
               this`modeRecord, this`safeCompleted
      ensures safe == announced && (old(safe) ==> safe && modeRecord == old(modeRecord))
      ensures !old(safe) && !safe ==> modeRecord == old(modeRecord) && safeCompleted == old(safeCompleted)
      ensures !old(safe) && safe && !safeCompleted ==> !alive
      ensures old(safeCompleted) ==> safeCompleted
      ensures !old(safe) && !safeCompleted && !ReadMode(old(modeRecord)).Some? ==> !ReadMode(modeRecord).Some?
      ensures rung3 ==> !alive && ReadBoot(boot).value.count < SHORT_BOOT_LIMIT
      ensures alive && safe ==> ReadMode(modeRecord).Some?
      ensures safeCompleted ==> safe && ReadMode(modeRecord).Some?
    {
      hide ReadMode, ReadBoot;
      rung3 := false;
      match e
      case EntersSafe(reason) => EnterSafe(reason);
      case ReachesRung3 => rung3 := EscalateRung3();
    }

    /** The executive's effect on the records: events until the window closes or the machine dies. */
    method Executive(s: Script) returns (rung3: bool)
      requires alive && ReadBoot(boot).Some? && safe == announced
      requires safe ==> ReadMode(modeRecord).Some?
      requires safeCompleted ==> safe
      modifies this`safe, this`safeReason, this`announced, this`alive, this`storesLeft,
               this`modeRecord, this`safeCompleted
      ensures rung3 ==> !alive && ReadBoot(boot).value.count < SHORT_BOOT_LIMIT
      ensures safeCompleted ==> ReadMode(modeRecord).Some?
      ensures old(safe) ==> modeRecord == old(modeRecord)
      ensures !old(safe) && !safeCompleted && !ReadMode(old(modeRecord)).Some? ==> !ReadMode(modeRecord).Some?
    {
      hide ReadMode, ReadBoot;
      rung3 := false;
      storesLeft := s.execStores;
      for i := 0 to |s.exec|
        invariant safe == announced && (alive ==> !rung3)
        invariant rung3 ==> ReadBoot(boot).value.count < SHORT_BOOT_LIMIT
        invariant alive && safe ==> ReadMode(modeRecord).Some?
        invariant old(safe) ==> safe && modeRecord == old(modeRecord)
        invariant safeCompleted ==> safe && ReadMode(modeRecord).Some?
        invariant !old(safe) && !safeCompleted && !ReadMode(old(modeRecord)).Some? ==> !ReadMode(modeRecord).Some?
        invariant !old(safe) && safe && alive ==> safeCompleted
      {
        if !alive {
          break;
        }
        rung3 := ExecStep(s.exec[i]);
      }
    }

    /** The health verdict, and a late trap if one comes. */
    method EndOfBoot(s: Script, rung3: bool) returns (healthy: bool)
      requires fault.record.inHandler == 0 && !SaysTrap(fault.record) && (rung3 ==> !alive)
      modifies this`boot, this`alive, this`storesLeft, fault
      ensures SaysTrap(fault.record) <==> s.execTrap && !rung3
      ensures healthy <==> old(alive) && s.frames >= HEALTHY_FRAMES && old(storesLeft) != Some(0)
      ensures if healthy then ReadBoot(boot) == None || ReadBoot(boot) == Some(Streak(0, false))
              else boot == old(boot)
    {
      hide ReadBoot;
      healthy := false;
      if alive && s.frames >= HEALTHY_FRAMES {
        var cut := Reach(5);
        healthy := cut >= 1;
        boot := WriteBoot(boot, 0, 0, cut);
      }
      if s.execTrap && !rung3 {
        Die(s.csr, s.nested);
      }
    }

    /** One boot, from the first statement that counts it to its death or its idle park. */
    method Boot(s: Script) returns (o: Outcome)
      modifies this, fault
      ensures BootStep(old(Records()), o, Records())
    {
      hide ReadBoot, ReadMode, SaysTrap, CountAtBoot;
      var count := PreExecutive(s);
      if !alive {
        return Outcome(count, !s.auditOk, false, false, safeCompleted, false, false, true, false, 0, None);
      }
      var startedSafe := safe;
      var rung3 := Executive(s);
      var finished, left := alive, storesLeft;
      var healthy := EndOfBoot(s, rung3);
      o := Outcome(count, !s.auditOk, true, startedSafe, safeCompleted, rung3, healthy, s.execTrap && !rung3,
                   finished, s.frames, left);
    }
  }

  // ---- every sequence of boots -----------------------------------------------

  /** Boot `i` runs over `vs[i]` and leaves `vs[i + 1]`. */
  ghost predicate IsMission(vs: seq<View>, os: seq<Outcome>) {
    |vs| == |os| + 1 && forall i :: 0 <= i < |os| ==> BootStep(vs[i], os[i], vs[i + 1])
  }

  /** How many boots in a row, up to now, were not healthy. */
  function UnhealthyStreak(os: seq<Outcome>): nat {
    if os == [] then 0
    else if os[|os| - 1].healthy then 0 else UnhealthyStreak(os[..|os| - 1]) + 1
  }

  lemma BootCounts(v: View, o: Outcome, v': View)
    requires BootStep(v, o, v')
    ensures o.count == CountAtBoot(v.streak)
    ensures CountAtBoot(v'.streak) == if o.healthy then 0 else Inc(o.count)
  {
    hide StartReason;
  }

  /**
    From a first boot with no intact record, the count a boot starts with is the length
    of the streak of unhealthy boots before it, however each of them died.
  */
  lemma {:induction false} CountIsStreak(vs: seq<View>, os: seq<Outcome>, n: nat)
    requires IsMission(vs, os) && vs[0].streak == None && n < |os|
    ensures os[n].count == Wrap32(UnhealthyStreak(os[..n]))
  {
    hide BootStep, Inc, Wrap32;
    NoBoots();
    BootCounts(vs[n], os[n], vs[n + 1]);
    if n == 0 {
    } else {
      BootCounts(vs[n - 1], os[n - 1], vs[n]);
      CountIsStreak(vs, os, n - 1);
      assert os[..n][..n - 1] == os[..n - 1];
      IncOfSum(0, UnhealthyStreak(os[..n - 1]));
    }
  }

  lemma NoBoots()
    ensures UnhealthyStreak([]) == 0 && Wrap32(0) == 0
  {
  }

  /**
    The record after any boot, in terms of frames and stores: the next boot starts the count
    again exactly if this one's executive came back after eight frames at least and the
    verdict's first store was made, and finds it one higher otherwise.
  */
  lemma NextCount(vs: seq<View>, os: seq<Outcome>, n: nat)
    requires IsMission(vs, os) && n + 1 < |os|
    ensures os[n + 1].count ==
            if os[n].finished && os[n].frames >= 8 && os[n].left != Some(0) then 0 else Wrap32(os[n].count + 1)
  {
    assert BootStep(vs[n], os[n], vs[n + 1]);
    assert BootStep(vs[n + 1], os[n + 1], vs[n + 2]);
  }

  /** A boot of fewer than eight frames always lengthens the streak by one. */
  lemma ShortBootLengthens(vs: seq<View>, os: seq<Outcome>, n: nat)
    requires IsMission(vs, os) && n < |os| && os[n].frames < 8
    ensures UnhealthyStreak(os[..n + 1]) == UnhealthyStreak(os[..n]) + 1
  {
    assert BootStep(vs[n], os[n], vs[n + 1]);
    assert os[..n + 1][..n] == os[..n];
  }

  lemma {:induction false} ShortBootsAddUp(vs: seq<View>, os: seq<Outcome>, a: nat, b: nat)
    requires IsMission(vs, os) && a <= b <= |os| && forall i :: a <= i < b ==> os[i].frames < 8
    ensures UnhealthyStreak(os[..b]) == UnhealthyStreak(os[..a]) + (b - a)
    decreases b
  {
    if a < b {
      hide BootStep, UnhealthyStreak;
      ShortBootsAddUp(vs, os, a, b - 1);
      ShortBootLengthens(vs, os, b - 1);
    }
  }

  /** Five boots in a row that each stop short of eight frames, and the next one starts safe. */
  lemma FiveShortOfEightFrames(vs: seq<View>, os: seq<Outcome>, n: nat)
    requires IsMission(vs, os) && vs[0].streak == None && 5 <= n < |os| < 0x1_0000_0000
    requires forall i :: n - 5 <= i < n ==> os[i].frames < 8
    ensures os[n].reachedExecutive ==> os[n].startedSafe && !os[n].rung3
  {
    hide BootStep, UnhealthyStreak;
    ShortBootsAddUp(vs, os, n - 5, n);
    if os[n].reachedExecutive {
      FiveShortBootsStartSafe(vs, os, n);
    }
  }

  function Rung3Resets(os: seq<Outcome>): nat {
    if os == [] then 0 else Rung3Resets(os[..|os| - 1]) + if os[|os| - 1].rung3 then 1 else 0
  }

  /** The ladder runs out: with no healthy boot in between, rung 3 resets at most five times. */
  lemma AtMostFiveRung3Resets(vs: seq<View>, os: seq<Outcome>, a: nat, b: nat)
    requires IsMission(vs, os) && vs[0].streak == None && |os| < 0x1_0000_0000
    requires a <= b <= |os| && forall i :: a <= i < b ==> !os[i].healthy
    ensures Rung3Resets(os[a..b]) <= 5
  {
    Rung3ResetsWithinStreak(vs, os, a, b);
  }

  lemma {:induction false} Rung3ResetsWithinStreak(vs: seq<View>, os: seq<Outcome>, a: nat, b: nat)
    requires IsMission(vs, os) && vs[0].streak == None && |os| < 0x1_0000_0000
    requires a <= b <= |os| && forall i :: a <= i < b ==> !os[i].healthy
    ensures Rung3Resets(os[a..b]) <= Min(UnhealthyStreak(os[..b]), SHORT_BOOT_LIMIT)
    decreases b
  {
    if a < b {
      hide BootStep;
      Rung3ResetsWithinStreak(vs, os, a, b - 1);
      assert os[a..b][..b - 1 - a] == os[a..b - 1];
      assert os[..b][..b - 1] == os[..b - 1];
      Rung3OnlyBelowLimit(vs, os, b - 1);
    }
  }

  lemma Rung3OnlyBelowLimit(vs: seq<View>, os: seq<Outcome>, n: nat)
    requires IsMission(vs, os) && vs[0].streak == None && n < |os| < 0x1_0000_0000
    ensures os[n].rung3 ==> UnhealthyStreak(os[..n]) < SHORT_BOOT_LIMIT
  {
    assert BootStep(vs[n], os[n], vs[n + 1]);
    CountIsStreak(vs, os, n);
    StreakBelow(os[..n]);
  }

  lemma {:induction false} StreakBelow(os: seq<Outcome>)
    ensures UnhealthyStreak(os) <= |os|
  {
    if os != [] {
      StreakBelow(os[..|os| - 1]);
    }
  }

  /** After five unhealthy boots in a row, a boot that reaches the executive is already safe. */
  lemma FiveShortBootsStartSafe(vs: seq<View>, os: seq<Outcome>, n: nat)
    requires IsMission(vs, os) && vs[0].streak == None && n < |os| < 0x1_0000_0000
    requires UnhealthyStreak(os[..n]) >= 5 && os[n].reachedExecutive
    ensures os[n].startedSafe && !os[n].rung3
  {
    CountIsStreak(vs, os, n);
    StreakBelow(os[..n]);
    assert BootStep(vs[n], os[n], vs[n + 1]);
  }

  /** Safe mode is never lost: after a boot that completed safe entry, every later one starts safe. */
  lemma {:induction false} SafeModeSurvives(vs: seq<View>, os: seq<Outcome>, i: nat, j: nat)
    requires IsMission(vs, os) && i < j <= |os| && os[i].safeCompleted
    ensures vs[j].recorded.Some? || vs[j].trapRecorded
    ensures j < |os| && os[j].reachedExecutive ==> os[j].startedSafe
  {
    assert BootStep(vs[j - 1], os[j - 1], vs[j]);
    if j < |os| {
      assert BootStep(vs[j], os[j], vs[j + 1]);
    }
    if j > i + 1 {
      SafeModeSurvives(vs, os, i, j - 1);
    }
  }

  /**
    Why a boot started safe, as the next one will read it: a trap counts before the entry
    already on record, that before five short boots, and those before this boot's own audit.
  */
  lemma ReasonTells(vs: seq<View>, os: seq<Outcome>, n: nat)
    requires IsMission(vs, os) && vs[0].streak == None && n < |os| < 0x1_0000_0000
    requires os[n].reachedExecutive && os[n].startedSafe
    ensures vs[n].trapRecorded ==> vs[n + 1].recorded == Some(1)
    ensures !vs[n].trapRecorded && vs[n].recorded.Some? ==> vs[n + 1].recorded == vs[n].recorded
    ensures !vs[n].trapRecorded && vs[n].recorded.None? ==>
              vs[n + 1].recorded == Some(if UnhealthyStreak(os[..n]) >= 5 then 4 else 5)
              && (UnhealthyStreak(os[..n]) >= 5 || os[n].auditFailed)
  {
    CountIsStreak(vs, os, n);
    StreakBelow(os[..n]);
    assert BootStep(vs[n], os[n], vs[n + 1]);
    hide UnhealthyStreak;
  }

  /** And its first reason is kept: until a trap overwrites it, the entry on record is the one first recorded. */
  lemma {:induction false} ReasonSurvives(vs: seq<View>, os: seq<Outcome>, i: nat, j: nat, reason: uint32)
    requires IsMission(vs, os) && i <= j <= |os|
    requires vs[i].recorded == Some(reason) && !vs[i].trapRecorded
    requires forall k :: i <= k < j ==> !os[k].trapped
    ensures vs[j].recorded == Some(reason) && !vs[j].trapRecorded
    ensures forall k :: i <= k < j ==> os[k].reachedExecutive && os[k].startedSafe
    decreases j
  {
    if i < j {
      ReasonSurvives(vs, os, i, j - 1, reason);
      assert BootStep(vs[j - 1], os[j - 1], vs[j]);
    }
  }

  /**
    And safe mode always has a cause: over records that say nothing, a boot starts safe only
    if it or an earlier one trapped, completed a safe entry or failed its audit, or the last
    five boots at least were unhealthy.
  */
  lemma {:induction false} SafeStartHasACause(vs: seq<View>, os: seq<Outcome>, n: nat)
    requires IsMission(vs, os) && n < |os| < 0x1_0000_0000
    requires vs[0] == View(None, None, false)
    requires forall i :: 0 <= i < n ==> !os[i].trapped && !os[i].safeCompleted && !os[i].auditFailed
    requires !os[n].auditFailed && UnhealthyStreak(os[..n]) < SHORT_BOOT_LIMIT
    requires forall i :: 0 <= i < n ==> UnhealthyStreak(os[..i]) < SHORT_BOOT_LIMIT
    ensures vs[n].recorded == None && !vs[n].trapRecorded
    ensures os[n].reachedExecutive ==> !os[n].startedSafe
  {
    assert BootStep(vs[n], os[n], vs[n + 1]);
    CountIsStreak(vs, os, n);
    if n > 0 {
      SafeStartHasACause(vs, os, n - 1);
      assert BootStep(vs[n - 1], os[n - 1], vs[n]);
    }
  }
}
