/**
  The fault record that survives a reset: its reader and its two ordinary writers
  (flight/core/fault.c), and the trap handler (flight/boot/trap.S) as the stores it makes.

  Power can go, or the watchdog can bite, after any store.  Every writer therefore takes
  `cut`, the number of its stores that reach memory; a `cut` beyond the last one is a
  writer that finished.
*/
module FaultRecord {
  import opened Words
  import opened Bits

  const MAGIC: uint32 := 0x0BCFA017
  const MAGIC_DOUBLE: uint32 := 0x0BCDEAD2
  const SEED: uint32 := 0x5A5AC3C3

  const UNKNOWN: uint32 := 0
  const TRAP: uint32 := 1
  const DOUBLE_FAULT: uint32 := 2

  datatype Record = Record(magic: uint32, checksum: uint32, cause: uint32, epc: uint32, tval: uint32,
                           resetCause: uint32, inHandler: uint32)

  function PayloadXor(cause: uint32, epc: uint32, tval: uint32, resetCause: uint32): uint32 {
    Xor32(Xor32(Xor32(Xor32(SEED, cause), epc), tval), resetCause)
  }

  function ChecksumOf(r: Record): uint32 {
    PayloadXor(r.cause, r.epc, r.tval, r.resetCause)
  }

  /** The statuses of `obc_fault_validate`: no record, a corrupted one, or an authentic cause. */
  datatype Reading = NoRecord | Corrupted | Authentic(resetCause: uint32)

  function Validate(r: Record): Reading {
    if r.magic == MAGIC_DOUBLE then Authentic(DOUBLE_FAULT)
    else if r.magic != MAGIC then NoRecord
    else if r.checksum != ChecksumOf(r) then Corrupted
    else Authentic(r.resetCause)
  }

  /** The re-entry flag is no part of what the record says. */
  lemma FlagIsNotRead(r: Record)
    ensures Validate(r.(inHandler := 0)) == Validate(r)
  {
  }

  class Memory {
    var record: Record

    constructor (record: Record)
      ensures this.record == record
    {
      this.record := record;
    }

    /** `obc_fault_reset_with_cause`, up to the reset. */
    method ResetWithCause(cause: uint32, cut: nat)
      modifies this
      ensures cut == 0 ==> record == old(record)
      ensures 1 <= cut < 7 ==> Validate(record) == NoRecord
      ensures cut >= 7 ==> Validate(record) == Authentic(cause)
                           && record.cause == record.epc == record.tval == 0
      ensures record.inHandler == old(record.inHandler)
    {
      hide PayloadXor;
      if cut == 0 { return; }
      record := record.(magic := 0);
      if cut == 1 { return; }
      record := record.(cause := 0);
      if cut == 2 { return; }
      record := record.(epc := 0);
      if cut == 3 { return; }
      record := record.(tval := 0);
      if cut == 4 { return; }
      record := record.(resetCause := cause);
      if cut == 5 { return; }
      record := record.(checksum := ChecksumOf(record));
      if cut == 6 { return; }
      record := record.(magic := MAGIC);
    }

    /** `obc_fault_consume`: from its first store on there is no record. */
    method Consume(cut: nat)
      modifies this
      ensures cut == 0 ==> record == old(record)
      ensures cut >= 1 ==> Validate(record) == NoRecord && record.magic == 0
      ensures cut >= 6 ==> record == Record(0, 0, 0, 0, 0, UNKNOWN, old(record.inHandler))
      ensures record.inHandler == old(record.inHandler)
    {
      if cut == 0 { return; }
      record := record.(magic := 0);
      if cut == 1 { return; }
      record := record.(checksum := 0);
      if cut == 2 { return; }
      record := record.(cause := 0);
      if cut == 3 { return; }
      record := record.(epc := 0);
      if cut == 4 { return; }
      record := record.(tval := 0);
      if cut == 5 { return; }
      record := record.(resetCause := UNKNOWN);
    }

    /** The store the startup code makes before any trap can be taken. */
    method ClearReentryFlag()
      modifies this
      ensures record == old(record).(inHandler := 0)
    {
      record := record.(inHandler := 0);
    }

    /**
      `obc_trap_entry` from the point where mscratch holds the record again: the re-entry
      check, then the stores of one of the two paths.  `csr` is what the trap left in
      mcause, mepc and mtval.
    */
    method TrapEntry(csr: Csr, cut: nat)
      modifies this
      ensures record == Handled(old(record), csr, cut)
    {
      hide PayloadXor;
      if record.inHandler != 0 {
        if cut == 0 { return; }
        record := record.(magic := MAGIC_DOUBLE);
        return;
      }
      if cut == 0 { return; }
      record := record.(inHandler := 1);
      if cut == 1 { return; }
      record := record.(cause := csr.cause);
      if cut == 2 { return; }
      record := record.(epc := csr.epc);
      if cut == 3 { return; }
      record := record.(tval := csr.tval);
      if cut == 4 { return; }
      record := record.(resetCause := TRAP);
      if cut == 5 { return; }
      record := record.(checksum := ChecksumOf(record));
      if cut == 6 { return; }
      record := record.(magic := MAGIC);
    }
  }

  // ---- the handler, interrupted and nested ---------------------------------

  datatype Csr = Csr(cause: uint32, epc: uint32, tval: uint32)

  /** The record after the first `cut` stores of a handler entered with `csr`. */
  function Handled(r: Record, csr: Csr, cut: nat): Record {
    if cut == 0 then r
    else if r.inHandler != 0 then r.(magic := MAGIC_DOUBLE)
    else
      var payload := Record(r.magic, r.checksum,
                            if cut >= 2 then csr.cause else r.cause,
                            if cut >= 3 then csr.epc else r.epc,
                            if cut >= 4 then csr.tval else r.tval,
                            if cut >= 5 then TRAP else r.resetCause, 1);
      if cut <= 5 then payload
      else if cut == 6 then payload.(checksum := ChecksumOf(payload))
      else payload.(checksum := ChecksumOf(payload), magic := MAGIC)
  }

  /** One entry into the handler, and how many of its stores it made before the next
      trap, or the reset, took the processor away. */
  datatype Entry = Entry(csr: Csr, stores: nat)

  function AfterEntries(r: Record, entries: seq<Entry>): Record {
    if entries == [] then r
    else Handled(AfterEntries(r, entries[..|entries| - 1]), entries[|entries| - 1].csr, entries[|entries| - 1].stores)
  }

  /** The first entry that got as far as raising the re-entry flag, if any. */
  function FirstStoring(entries: seq<Entry>): (k: nat)
    ensures k <= |entries|
    ensures forall i :: 0 <= i < k ==> entries[i].stores == 0
    ensures k < |entries| ==> entries[k].stores > 0
  {
    if entries == [] then 0
    else
      var k := FirstStoring(entries[..|entries| - 1]);
      if k < |entries| - 1 then k
      else if entries[|entries| - 1].stores > 0 then |entries| - 1 else |entries|
  }

  predicate NestedStores(entries: seq<Entry>, k: nat) {
    exists i :: k < i < |entries| && entries[i].stores > 0
  }

  lemma {:induction false} EntriesShape(r: Record, entries: seq<Entry>)
    requires r.inHandler == 0
    ensures var k := FirstStoring(entries);
            var end := AfterEntries(r, entries);
            if k == |entries| then end == r
            else
              var first := Handled(r, entries[k].csr, entries[k].stores);
              first.inHandler == 1 &&
              end == if NestedStores(entries, k) then first.(magic := MAGIC_DOUBLE) else first
  {
    hide ChecksumOf, Handled;
    if entries == [] {
    } else {
      var prefix, last := entries[..|entries| - 1], entries[|entries| - 1];
      EntriesShape(r, prefix);
      EntryShape(r, last);
      var k := FirstStoring(entries);
      if k < |prefix| {
        NestedStoresGrow(prefix, last, k);
        EntryShape(AfterEntries(r, prefix), last);
      }
    }
  }

  lemma NestedStoresGrow(prefix: seq<Entry>, last: Entry, k: nat)
    requires k < |prefix|
    ensures NestedStores(prefix + [last], k) <==> NestedStores(prefix, k) || last.stores > 0
  {
    var entries := prefix + [last];
    if NestedStores(prefix, k) {
      var i :| k < i < |prefix| && prefix[i].stores > 0;
      assert entries[i].stores > 0;
    }
    if last.stores > 0 {
      assert entries[|prefix|].stores > 0;
    }
  }

  lemma EntryShape(r: Record, e: Entry)
    ensures e.stores == 0 ==> Handled(r, e.csr, e.stores) == r
    ensures e.stores > 0 && r.inHandler == 0 ==> Handled(r, e.csr, e.stores).inHandler == 1
    ensures e.stores > 0 && r.inHandler != 0 ==> Handled(r, e.csr, e.stores) == r.(magic := MAGIC_DOUBLE)
  {
    hide PayloadXor;
  }

  /**
    From a consumed record and a clear flag, under any sequence of handler entries each
    cut anywhere: nothing is readable until some entry finishes; a nested entry that
    stores leaves the double-fault marker; otherwise the record is the complete, original
    cause of the first entry.  A corrupted record is never seen.
  */
  lemma TrapLeavesNoneOrTheOriginal(r: Record, entries: seq<Entry>)
    requires r.inHandler == 0 && r.magic != MAGIC && r.magic != MAGIC_DOUBLE
    ensures var k := FirstStoring(entries);
            var end := AfterEntries(r, entries);
            if k == |entries| then Validate(end) == NoRecord
            else if NestedStores(entries, k) then Validate(end) == Authentic(DOUBLE_FAULT)
            else if entries[k].stores >= 7 then
              Validate(end) == Authentic(TRAP) && Csr(end.cause, end.epc, end.tval) == entries[k].csr
            else Validate(end) == NoRecord
  {
    EntriesShape(r, entries);
    var k := FirstStoring(entries);
    if k < |entries| {
      FirstEntryReads(r, entries[k]);
    }
    hide ChecksumOf, Handled;
  }

  lemma FirstEntryReads(r: Record, e: Entry)
    requires r.inHandler == 0 && r.magic != MAGIC && r.magic != MAGIC_DOUBLE
    ensures var first := Handled(r, e.csr, e.stores);
            if e.stores >= 7 then
              Validate(first) == Authentic(TRAP) && Csr(first.cause, first.epc, first.tval) == e.csr
            else Validate(first) == NoRecord
  {
    hide PayloadXor;
  }

  function Changes(a: uint32, b: uint32, c: uint32, d: uint32, a': uint32, b': uint32, c': uint32, d': uint32): uint32 {
    Xor32(Xor32(Xor32(Xor32(a, a'), Xor32(b, b')), Xor32(c, c')), Xor32(d, d'))
  }

  /** The exclusive-or of old and new over the payload; a word not replaced adds nothing. */
  function Disturbance(r: Record, t: Record): uint32 {
    Changes(r.cause, r.epc, r.tval, r.resetCause, t.cause, t.epc, t.tval, t.resetCause)
  }

  lemma XorOfChanges(a: uint32, b: uint32, c: uint32, d: uint32, a': uint32, b': uint32, c': uint32, d': uint32)
    ensures Xor32(PayloadXor(a, b, c, d), PayloadXor(a', b', c', d')) == Changes(a, b, c, d, a', b', c', d')
  {
    hide Xor;
    var x, x' := Xor32(SEED, a), Xor32(SEED, a');
    XorPairs(SEED, SEED, a, a');
    XorSelf(SEED);
    XorZeroLeft(Xor(a, a'));
    var y, y' := Xor32(x, b), Xor32(x', b');
    XorPairs(x, x', b, b');
    var z, z' := Xor32(y, c), Xor32(y', c');
    XorPairs(y, y', c, c');
    XorPairs(z, z', d, d');
  }

  lemma DisturbanceMovesChecksum(r: Record, t: Record)
    ensures Disturbance(r, t) == 0 <==> ChecksumOf(r) == ChecksumOf(t)
  {
    hide PayloadXor, Changes, Xor;
    XorOfChanges(r.cause, r.epc, r.tval, r.resetCause, t.cause, t.epc, t.tval, t.resetCause);
    XorNone(ChecksumOf(r), ChecksumOf(t));
  }

  /** Two records that differ in one payload word have different checksums, whichever word it is. */
  lemma OneWordShows(r: Record, t: Record)
    requires r.cause == t.cause || (r.epc == t.epc && r.tval == t.tval && r.resetCause == t.resetCause)
    requires r.epc == t.epc || (r.cause == t.cause && r.tval == t.tval && r.resetCause == t.resetCause)
    requires r.tval == t.tval || (r.cause == t.cause && r.epc == t.epc && r.resetCause == t.resetCause)
    requires r.resetCause == t.resetCause || (r.cause == t.cause && r.epc == t.epc && r.tval == t.tval)
    ensures ChecksumOf(r) == ChecksumOf(t) <==>
            r.cause == t.cause && r.epc == t.epc && r.tval == t.tval && r.resetCause == t.resetCause
  {
    hide Xor, PayloadXor;
    XorNone(r.cause, t.cause);
    XorNone(r.epc, t.epc);
    XorNone(r.tval, t.tval);
    XorNone(r.resetCause, t.resetCause);
    OneOfFour(Xor32(r.cause, t.cause), Xor32(r.epc, t.epc), Xor32(r.tval, t.tval), Xor32(r.resetCause, t.resetCause));
    DisturbanceMovesChecksum(r, t);
  }

  lemma OneOfFour(a: uint32, b: uint32, c: uint32, d: uint32)
    requires a == 0 || (b == 0 && c == 0 && d == 0)
    requires b == 0 || (c == 0 && d == 0)
    requires c == 0 || d == 0
    ensures Xor32(Xor32(Xor32(a, b), c), d) == 0 <==> a == 0 && b == 0 && c == 0 && d == 0
  {
    hide Xor;
    XorZero(a);
    XorZeroLeft(b);
    XorZero(b);
    XorZeroLeft(c);
    XorZero(c);
    XorZeroLeft(d);
    XorZero(0);
  }

  /**
    The handler does not clear the magic first, so over a record that was not yet
    consumed a cut can leave a mixture of two faults.  Until the new checksum is stored
    it is believed exactly when the disturbance cancels out, and corrupted otherwise.
  */
  lemma TornOverUnconsumed(r: Record, csr: Csr, cut: nat)
    requires r.inHandler == 0 && r.magic == MAGIC && r.checksum == ChecksumOf(r)
    ensures var torn := Handled(r, csr, cut);
            && (cut <= 5 && Disturbance(r, torn) == 0 ==> Validate(torn) == Authentic(torn.resetCause))
            && (cut <= 5 && Disturbance(r, torn) != 0 ==> Validate(torn) == Corrupted)
            && (cut >= 6 ==> Validate(torn) == Authentic(TRAP) && Csr(torn.cause, torn.epc, torn.tval) == csr)
  {
    hide PayloadXor, Changes, Xor;
    if 1 <= cut <= 5 {
      var torn := Handled(r, csr, cut);
      assert torn.magic == MAGIC && torn.checksum == r.checksum;
      DisturbanceMovesChecksum(r, torn);
    } else if cut == 0 {
      DisturbanceMovesChecksum(r, r);
    }
  }

  /** Such a mixture always exists: any record, any new cause, and one fault address to match. */
  lemma TornRecordCanBeBelieved(r: Record, cause: uint32, tval: uint32)
    requires r.inHandler == 0 && r.magic == MAGIC && r.checksum == ChecksumOf(r) && cause != r.cause
    ensures var torn := Handled(r, Csr(cause, Xor32(Xor32(r.cause, cause), r.epc), tval), 3);
            && Validate(torn) == Authentic(r.resetCause)
            && torn.cause == cause != r.cause && torn.epc != r.epc && torn.tval == r.tval
  {
    hide Xor, PayloadXor;
    var d := Xor32(r.cause, cause);
    var epc := Xor32(d, r.epc);
    var csr := Csr(cause, epc, tval);
    var torn := Handled(r, csr, 3);
    XorNone(r.cause, cause);
    XorZeroLeft(r.epc);
    XorPairs(0, d, r.epc, r.epc);
    XorSelf(r.epc);
    XorZeroLeft(d);
    XorZero(d);
    assert Xor(r.epc, epc) == d;
    XorNone(r.epc, epc);
    XorSelf(d);
    XorSelf(r.tval);
    XorSelf(r.resetCause);
    XorZero(0);
    assert Disturbance(r, torn) == 0;
    TornOverUnconsumed(r, csr, 3);
  }
}
