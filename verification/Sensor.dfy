/** Sensor sampling and validation (flight/tlm/sensor.c). */
module Sensor {
  import opened Words

  const COUNT := 2
  const INVALID: uint16 := 0xFFFF
  const STUCK_LIMIT := 8

  datatype Range = Range(min: uint16, max: uint16)

  function Desc(i: nat): Range
    requires i < COUNT
  {
    if i == 0 then Range(200, 3800) else Range(100, 900)
  }

  // Three flag bits per sensor in one word.

  function RangeBit(i: nat): bv8
    requires i < COUNT
  {
    if i == 0 then 0x01 else 0x08
  }

  function StuckBit(i: nat): bv8
    requires i < COUNT
  {
    if i == 0 then 0x02 else 0x10
  }

  function NoDataBit(i: nat): bv8
    requires i < COUNT
  {
    if i == 0 then 0x04 else 0x20
  }

  function Mask(i: nat): bv8
    requires i < COUNT
  {
    RangeBit(i) | StuckBit(i) | NoDataBit(i)
  }

  // ---- what the flags mean, from the readings alone ------------------------

  predicate OutOfRange(i: nat, raw: uint16)
    requires i < COUNT
  {
    raw < Desc(i).min || raw > Desc(i).max
  }

  /** The last `STUCK_LIMIT` readings exist and are all the same. */
  predicate Stuck(history: seq<uint16>) {
    |history| >= STUCK_LIMIT &&
    forall k :: |history| - STUCK_LIMIT <= k < |history| ==> history[k] == history[|history| - 1]
  }

  // The same two faults, in the table's own numbers.

  /** Sensor 0 reads 200 to 3800 and sensor 1 reads 100 to 900, both ends in. */
  predicate InRange(i: nat, raw: uint16) {
    if i == 0 then 200 <= raw <= 3800 else 100 <= raw <= 900
  }

  /** There are eight readings and the last eight are the same. */
  predicate EightEqual(history: seq<uint16>) {
    |history| >= 8 &&
    var h := history[|history| - 8..];
    h[0] == h[1] == h[2] == h[3] == h[4] == h[5] == h[6] == h[7]
  }

  lemma InOtherWords()
    ensures forall history :: Stuck(history) <==> EightEqual(history)
    ensures forall i: nat, raw: uint16 :: i < COUNT ==> (OutOfRange(i, raw) <==> !InRange(i, raw))
    ensures forall c: uint32, yes :: CountIf(c, yes) == (c + if yes then 1 else 0) % 0x1_0000_0000
  {
  }

  /** The flag bits sensor `i` must show after these readings. */
  function Flags(i: nat, history: seq<uint16>): bv8
    requires i < COUNT
  {
    if history == [] then NoDataBit(i)
    else
      (if OutOfRange(i, history[|history| - 1]) then RangeBit(i) else 0) |
      (if Stuck(history) then StuckBit(i) else 0)
  }

  /** What may be published after these readings: the last one, or the invalid marker. */
  function Published(i: nat, history: seq<uint16>): uint16
    requires i < COUNT
  {
    if Flags(i, history) == 0 then history[|history| - 1] else INVALID
  }

  /** How many of the latest readings are equal, exactly. */
  function RunLength(history: seq<uint16>): nat {
    if history == [] then 0
    else
      var n := |history| - 1;
      if n > 0 && history[n - 1] == history[n] then RunLength(history[..n]) + 1 else 1
  }

  lemma {:induction false} RunLengthMeaning(history: seq<uint16>)
    ensures RunLength(history) <= |history|
    ensures forall k :: |history| - RunLength(history) <= k < |history| ==> history[k] == history[|history| - 1]
    ensures RunLength(history) < |history| ==>
              history[|history| - RunLength(history) - 1] != history[|history| - 1]
  {
    if history == [] {
    } else {
      RunLengthMeaning(history[..|history| - 1]);
    }
  }

  /** A run of eight is what the stuck flag reports, whatever the saturating counter does above it. */
  lemma StuckIsLongRun(history: seq<uint16>)
    ensures Stuck(history) <==> RunLength(history) >= STUCK_LIMIT
  {
    RunLengthMeaning(history);
  }

  /** One sensor's row of the module's arrays. */
  datatype Channel = Channel(value: uint16, lastRaw: uint16, run: uint8, seen: bool,
                             rejectsRange: uint32, rejectsStuck: uint32)

  /**
    The row is what the readings say it must be; in particular the value published is
    the last raw reading exactly when no flag is up.
  */
  predicate Tracks(i: nat, c: Channel, h: seq<uint16>)
    requires i < COUNT
  {
    && (c.seen <==> h != [])
    && c.run == Min(RunLength(h), 0xFF)
    && (h != [] ==> c.lastRaw == h[|h| - 1])
    && c.value == Published(i, h)
  }

  class Sensors {
    const channels: array<Channel>
    var flags: bv8
    /** The readings of each sensor since the last init, oldest first. */
    ghost var history: seq<seq<uint16>>

    ghost predicate Valid()
      reads this, channels
    {
      && channels.Length == |history| == COUNT
      && Tracks(0, channels[0], history[0])
      && Tracks(1, channels[1], history[1])
      && flags == FlagWord(history)
    }

    constructor ()
      ensures Valid() && history == [[], []] && fresh(channels)
    {
      channels := new Channel[2](_ => Channel(INVALID, 0, 0, false, 0, 0));
      flags := NoDataBit(0) | NoDataBit(1);
      history := [[], []];
    }

    /** `obc_sensor_init`: history and flags go, the rejection counters stay. */
    method Init()
      requires channels.Length == COUNT
      modifies this, channels
      ensures Valid() && history == [[], []]
      ensures forall i: nat :: i < COUNT ==>
                channels[i].rejectsRange == old(channels[i].rejectsRange)
                && channels[i].rejectsStuck == old(channels[i].rejectsStuck)
    {
      flags := 0;
      history := [[], []];
      for i := 0 to COUNT
        invariant history == [[], []]
        invariant forall k: nat :: k < i ==> Tracks(k, channels[k], [])
        invariant forall k: nat :: k < COUNT ==>
                    channels[k].rejectsRange == old(channels[k].rejectsRange)
                    && channels[k].rejectsStuck == old(channels[k].rejectsStuck)
        invariant flags == (if i > 0 then NoDataBit(0) else 0) | (if i > 1 then NoDataBit(1) else 0)
      {
        channels[i] := channels[i].(value := INVALID, lastRaw := 0, run := 0, seen := false);
        flags := flags | NoDataBit(i);
      }
      assert FlagWord(history) == NoDataBit(0) | NoDataBit(1);
    }

    /** One turn of the sampling loop: sensor `i` reads `raw`. */
    method SampleOne(i: nat, raw: uint16) returns (rejected: bool)
      requires Valid() && i < COUNT
      modifies this, channels
      ensures Valid()
      ensures history == old(history)[i := old(history[i]) + [raw]]
      ensures rejected <==> Flags(i, history[i]) != 0
      ensures channels[i].rejectsRange == CountIf(old(channels[i].rejectsRange), OutOfRange(i, raw))
      ensures channels[i].rejectsStuck == CountIf(old(channels[i].rejectsStuck), Stuck(history[i]))
      ensures channels[1 - i] == old(channels[1 - i])
    {
      hide Flags, Tracks, Stuck, OutOfRange, RunLength, CountIf, FlagWord, Merge;
      ghost var h := history[i] + [raw];
      var c, bad := Judge(i, channels[i], raw, history[i]);
      OnlyOwnBits(i, flags, bad, history, h);
      channels[i] := c;
      flags := Merge(flags, i, bad);
      history := history[i := h];
      rejected := bad != 0;
    }

    /** `obc_sensor_sample` over one reading of every sensor: true when all were accepted. */
    method Sample(raw: seq<uint16>) returns (ok: bool)
      requires Valid() && |raw| == COUNT
      modifies this, channels
      ensures Valid()
      ensures history == old([history[0] + [raw[0]], history[1] + [raw[1]]])
      ensures ok <==> flags == 0
      ensures forall i: nat :: i < COUNT ==>
                && channels[i].rejectsRange
                   == (old(channels[i].rejectsRange) + if InRange(i, raw[i]) then 0 else 1) % 0x1_0000_0000
                && channels[i].rejectsStuck
                   == (old(channels[i].rejectsStuck) + if EightEqual(history[i]) then 1 else 0) % 0x1_0000_0000
    {
      InOtherWords();
      hide InRange, EightEqual;
      hide Flags, Tracks, Stuck, OutOfRange, CountIf, FlagWord;
      ok := true;
      var i := 0;
      while i < COUNT
        invariant 0 <= i <= COUNT && Valid()
        invariant history[0] == if i > 0 then old(history[0]) + [raw[0]] else old(history[0])
        invariant history[1] == if i > 1 then old(history[1]) + [raw[1]] else old(history[1])
        invariant ok <==> forall k: nat :: k < i ==> Flags(k, history[k]) == 0
        invariant forall k: nat :: i <= k < COUNT ==> channels[k] == old(channels[k])
        invariant forall k: nat :: k < i ==>
                    channels[k].rejectsRange == CountIf(old(channels[k].rejectsRange), OutOfRange(k, raw[k]))
                    && channels[k].rejectsStuck == CountIf(old(channels[k].rejectsStuck), Stuck(history[k]))
      {
        var rejected := SampleOne(i, raw[i]);
        if rejected {
          ok := false;
        }
        i := i + 1;
      }
      FlagsClear(history);
    }
  }

  function CountIf(c: uint32, yes: bool): uint32 {
    if yes then Inc(c) else c
  }

  /** The history part of a sample: accepted or not, the reading lengthens the run or starts a new one. */
  method CountRun(was: Channel, raw: uint16, ghost h: seq<uint16>) returns (c: Channel)
    requires (was.seen <==> h != []) && was.run == Min(RunLength(h), 0xFF)
    requires h != [] ==> was.lastRaw == h[|h| - 1]
    ensures c == was.(run := c.run, lastRaw := raw, seen := true)
    ensures c.run == Min(RunLength(h + [raw]), 0xFF)
    ensures c.run >= STUCK_LIMIT <==> Stuck(h + [raw])
  {
    c := was;
    if c.seen && raw == c.lastRaw {
      if c.run < 0xFF {
        c := c.(run := c.run + 1);
      }
    } else {
      c := c.(run := 1);
    }
    c := c.(lastRaw := raw, seen := true);
    assert (h + [raw])[..|h|] == h;
    StuckIsLongRun(h + [raw]);
  }

  /** The body of the sampling loop on one sensor's row: its new row and its flag bits. */
  method Judge(i: nat, was: Channel, raw: uint16, ghost h: seq<uint16>) returns (c: Channel, bad: bv8)
    requires i < COUNT && Tracks(i, was, h)
    ensures Tracks(i, c, h + [raw]) && bad == Flags(i, h + [raw])
    ensures c.rejectsRange == CountIf(was.rejectsRange, OutOfRange(i, raw))
    ensures c.rejectsStuck == CountIf(was.rejectsStuck, Stuck(h + [raw]))
  {
    hide RunLength, Stuck;
    bad := 0;
    c := CountRun(was, raw, h);
    if raw < Desc(i).min || raw > Desc(i).max {
      bad := bad | RangeBit(i);
      c := c.(rejectsRange := Inc(c.rejectsRange));
    }
    if c.run >= STUCK_LIMIT {
      bad := bad | StuckBit(i);
      c := c.(rejectsStuck := Inc(c.rejectsStuck));
    }
    assert bad == Flags(i, h + [raw]);
    c := c.(value := if bad != 0 then INVALID else raw);
  }

  /** The flag word both sensors' readings call for. */
  function FlagWord(history: seq<seq<uint16>>): bv8
    requires |history| == COUNT
  {
    Flags(0, history[0]) | Flags(1, history[1])
  }

  /** The two assignments to the flag word: clear the sensor's bits, then raise the bad ones. */
  function Merge(flags: bv8, i: nat, bad: bv8): bv8
    requires i < COUNT
  {
    (flags & !Mask(i)) | bad
  }

  /** Rewriting one sensor's three bits leaves the other's as they were. */
  lemma OnlyOwnBits(i: nat, flags: bv8, bad: bv8, history: seq<seq<uint16>>, h: seq<uint16>)
    requires i < COUNT == |history| && flags == FlagWord(history) && bad == Flags(i, h)
    ensures Merge(flags, i, bad) == FlagWord(history[i := h])
  {
    hide Flags;
    OwnBits(0, history[0]);
    OwnBits(1, history[1]);
    OwnBits(i, h);
  }

  lemma OwnBits(i: nat, h: seq<uint16>)
    requires i < COUNT
    ensures Flags(i, h) & !Mask(i) == 0
  {
  }

  lemma FlagsClear(history: seq<seq<uint16>>)
    requires |history| == COUNT
    ensures FlagWord(history) == 0 <==> Flags(0, history[0]) == 0 && Flags(1, history[1]) == 0
  {
    hide Flags;
  }

  /** Reading the flags back: each bit of the word says what it claims about its own sensor. */
  lemma FlagsSay(history: seq<seq<uint16>>, i: nat)
    requires i < COUNT == |history|
    ensures var flags, h := FlagWord(history), history[i];
            && (flags & (if i == 0 then 0x01 else 0x08) != 0 <==> h != [] && !InRange(i, h[|h| - 1]))
            && (flags & (if i == 0 then 0x02 else 0x10) != 0 <==> EightEqual(h))
            && (flags & (if i == 0 then 0x04 else 0x20) != 0 <==> h == [])
            && (flags & (if i == 0 then 0x07 else 0x38) == 0 <==> Flags(i, h) == 0)
  {
    InOtherWords();
    OwnBits(0, history[0]);
    OwnBits(1, history[1]);
    hide Stuck, OutOfRange, InRange, EightEqual;
  }

  /**
    The ground's two directions (`check_both_directions`), for every history: a sensor whose
    last reading is inside its range and not one of eight equal ones is unflagged and carries
    that reading; any other is flagged and carries the invalid marker.
  */
  lemma BothDirections(i: nat, h: seq<uint16>)
    requires i < COUNT
    ensures var good := h != [] && InRange(i, h[|h| - 1]) && !EightEqual(h);
            && (Flags(i, h) == 0 <==> good)
            && Published(i, h) == if good then h[|h| - 1] else 0xFFFF
  {
    InOtherWords();
    hide Stuck, InRange, EightEqual;
  }
}
