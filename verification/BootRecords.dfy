/**
  The boot record (flight/core/recover.c) and the mode record (flight/core/mode.c),
  store by store.  `cut` is the number of a writer's stores that reach memory.
*/
module BootRecords {
  import opened Words
  import opened Bits

  // ---- consecutive short boots ---------------------------------------------

  const BOOT_MAGIC: uint32 := 0x0BC8007A
  const BOOT_SEED: uint32 := 0x7A00BC0B
  const SHORT_BOOT_LIMIT := 5
  const HEALTHY_FRAMES := 8

  datatype BootRecord = BootRecord(magic: uint32, checksum: uint32, shortBoots: uint32, inProgress: uint32)

  function BootChecksum(r: BootRecord): uint32 {
    Xor32(Xor32(BOOT_SEED, r.shortBoots), Wrap32(r.inProgress * 0x9E3779B9))
  }

  predicate BootIntact(r: BootRecord) {
    r.magic == BOOT_MAGIC && r.checksum == BootChecksum(r)
  }

  /** What the next boot can believe: a count and whether the flag is still raised. */
  datatype Streak = Streak(count: uint32, raised: bool)

  function ReadBoot(r: BootRecord): Option<Streak> {
    if BootIntact(r) then Some(Streak(r.shortBoots, r.inProgress != 0)) else None
  }

  /** `boot_record_write`: untouched, unreadable, or complete. */
  method WriteBoot(was: BootRecord, count: uint32, inProgress: uint32, cut: nat) returns (r: BootRecord)
    ensures cut == 0 ==> r == was
    ensures 1 <= cut < 5 ==> ReadBoot(r) == None
    ensures cut >= 5 ==> ReadBoot(r) == Some(Streak(count, inProgress != 0))
  {
    hide BootChecksum;
    r := was;
    if cut == 0 { return; }
    r := r.(magic := 0);
    if cut == 1 { return; }
    r := r.(shortBoots := count);
    if cut == 2 { return; }
    r := r.(inProgress := inProgress);
    if cut == 3 { return; }
    r := r.(checksum := BootChecksum(r));
    if cut == 4 { return; }
    assert BootChecksum(r.(magic := BOOT_MAGIC)) == BootChecksum(r) == r.checksum by { ChecksumIgnoresHeader(r); }
    r := r.(magic := BOOT_MAGIC);
  }

  lemma ChecksumIgnoresHeader(r: BootRecord)
    ensures BootChecksum(r.(magic := BOOT_MAGIC)) == BootChecksum(r)
    ensures forall c :: BootChecksum(r.(checksum := c)) == BootChecksum(r)
  {
  }

  /** A changed count or a flag raised or lowered in place is never read as a record. */
  lemma OneBootWordShows(r: BootRecord, count: uint32, flag: uint32)
    requires BootIntact(r) && (r.inProgress == 0 || r.inProgress == 1) && (flag == 0 || flag == 1)
    ensures count != r.shortBoots ==> ReadBoot(r.(shortBoots := count)) == None
    ensures flag != r.inProgress ==> ReadBoot(r.(inProgress := flag)) == None
  {
    FlagWords();
    hide Xor;
    var a, b := Xor32(BOOT_SEED, r.shortBoots), Wrap32(r.inProgress * 0x9E3779B9);
    var a', b' := Xor32(BOOT_SEED, count), Wrap32(flag * 0x9E3779B9);
    if count != r.shortBoots {
      if a == a' {
        XorInjective(BOOT_SEED, r.shortBoots, count);
      }
      XorPairs(a, a', b, b);
      XorSelf(b);
      XorZero(Xor(a, a'));
      XorNone(a, a');
      XorNone(Xor(a, b), Xor(a', b));
    }
    if flag != r.inProgress && Xor32(a, b) == Xor32(a, b') {
      XorInjective(a, b, b');
    }
  }

  lemma FlagWords()
    ensures Wrap32(0 * 0x9E3779B9) != Wrap32(1 * 0x9E3779B9)
  {
  }

  // ---- safe mode on a previous boot ------------------------------------------

  const MODE_MAGIC: uint32 := 0x0BC5AFE1
  const MODE_SEED: uint32 := 0x3C3CA5A5

  datatype ModeRecord = ModeRecord(magic: uint32, checksum: uint32, reason: uint32)

  function ModeChecksum(r: ModeRecord): uint32 {
    Xor32(MODE_SEED, r.reason)
  }

  /** The reason safe mode was entered, if a record of it survives. */
  function ReadMode(r: ModeRecord): Option<uint32> {
    if r.magic == MODE_MAGIC && r.checksum == ModeChecksum(r) then Some(r.reason) else None
  }

  /** Nor is a record whose reason was changed in place. */
  lemma OneModeWordShows(r: ModeRecord, reason: uint32)
    requires ReadMode(r).Some? && reason != r.reason
    ensures ReadMode(r.(reason := reason)) == None
  {
    hide Xor;
    if Xor32(MODE_SEED, r.reason) == Xor32(MODE_SEED, reason) {
      XorInjective(MODE_SEED, r.reason, reason);
    }
  }

  /** The record stores of `obc_mode_enter_safe`. */
  method WriteMode(was: ModeRecord, reason: uint32, cut: nat) returns (r: ModeRecord)
    ensures cut == 0 ==> r == was
    ensures 1 <= cut < 4 ==> ReadMode(r) == None
    ensures cut >= 4 ==> ReadMode(r) == Some(reason)
  {
    r := was;
    if cut == 0 { return; }
    r := r.(magic := 0);
    if cut == 1 { return; }
    r := r.(reason := reason);
    if cut == 2 { return; }
    r := r.(checksum := ModeChecksum(r));
    if cut == 3 { return; }
    r := r.(magic := MODE_MAGIC);
  }
}
