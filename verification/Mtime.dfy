/**
  The 64-bit machine timer behind a high and a low register (flight/hal/mtime.c).

  The device is a counter sampled once per register access: access `k` sees `timer(k)`.
  The timer may advance by anything between two accesses, but it never goes back.
*/
module Mtime {
  import opened Words

  const READ_ATTEMPTS := 4

  function High(t: uint64): uint32 {
    t / 0x1_0000_0000
  }

  function Low(t: uint64): uint32 {
    t % 0x1_0000_0000
  }

  ghost predicate NeverGoesBack(timer: nat -> uint64) {
    forall i: nat, j: nat :: i <= j ==> timer(i) <= timer(j)
  }

  /** Attempt `a` of a call starting at access `first` sees the high word move. */
  predicate Torn(timer: nat -> uint64, first: nat, a: nat) {
    High(timer(first + 3 * a)) != High(timer(first + 3 * a + 2))
  }

  ghost predicate FirstUntorn(timer: nat -> uint64, first: nat, a: nat) {
    a < READ_ATTEMPTS && !Torn(timer, first, a) && forall b: nat :: b < a ==> Torn(timer, first, b)
  }

  class Timer {
    const timer: nat -> uint64
    var accesses: nat
    var unstableCount: uint32

    constructor (timer: nat -> uint64)
      ensures this.timer == timer && accesses == 0 && unstableCount == 0
    {
      this.timer, accesses, unstableCount := timer, 0, 0;
    }

    method ReadHigh() returns (w: uint32)
      modifies this`accesses
      ensures accesses == old(accesses) + 1 && w == High(timer(old(accesses)))
    {
      w := High(timer(accesses));
      accesses := accesses + 1;
    }

    method ReadLow() returns (w: uint32)
      modifies this`accesses
      ensures accesses == old(accesses) + 1 && w == Low(timer(old(accesses)))
    {
      w := Low(timer(accesses));
      accesses := accesses + 1;
    }

    /**
      `obc_mtime_read`.  A success is, for a timer that never goes back, exactly the timer
      at the access that read the low word of the first attempt that was not torn; a
      failure means all four were.
    */
    method Read() returns (r: Option<uint64>)
      modifies this
      ensures r.Some? ==> exists a: nat :: FirstUntorn(timer, old(accesses), a)
                                           && accesses == old(accesses) + 3 * a + 3
                                           && (NeverGoesBack(timer) ==> r.value == timer(old(accesses) + 3 * a + 1))
      ensures r.Some? ==> unstableCount == old(unstableCount)
      ensures r.None? <==> forall a: nat :: a < READ_ATTEMPTS ==> Torn(timer, old(accesses), a)
      ensures r.None? ==> accesses == old(accesses) + 12 && unstableCount == Inc(old(unstableCount))
    {
      hide High, Low;
      for attempt := 0 to READ_ATTEMPTS
        invariant accesses == old(accesses) + 3 * attempt && unstableCount == old(unstableCount)
        invariant forall a: nat :: a < attempt ==> Torn(timer, old(accesses), a)
      {
        var hi := ReadHigh();
        var lo := ReadLow();
        var hiAgain := ReadHigh();
        if hi == hiAgain {
          assert FirstUntorn(timer, old(accesses), attempt);
          if NeverGoesBack(timer) {
            Untorn(timer, old(accesses) + 3 * attempt);
          }
          return Some((hi as nat) * 0x1_0000_0000 + lo);
        }
      }
      unstableCount := Inc(unstableCount);
      return None;
    }

    /** Two reads in a row: the second is never earlier than the first. */
    method ReadTwice() returns (r: Option<uint64>, s: Option<uint64>)
      requires NeverGoesBack(timer)
      modifies this
      ensures r.Some? && s.Some? ==> r.value <= s.value
    {
      r := Read();
      s := Read();
    }
  }

  /** Two equal high words around the low read: both halves belong to the instant of that read. */
  lemma Untorn(timer: nat -> uint64, k: nat)
    requires NeverGoesBack(timer) && High(timer(k)) == High(timer(k + 2))
    ensures (High(timer(k)) as nat) * 0x1_0000_0000 + Low(timer(k + 1)) == timer(k + 1)
  {
    assert timer(k) <= timer(k + 1) <= timer(k + 2);
    HighGrows(timer, k, k + 1);
    HighGrows(timer, k + 1, k + 2);
  }

  lemma HighGrows(timer: nat -> uint64, i: nat, j: nat)
    requires NeverGoesBack(timer) && i <= j
    ensures High(timer(i)) <= High(timer(j))
  {
    assert timer(i) <= timer(j);
  }

  /** Every torn attempt carries the high word at least one further. */
  lemma {:induction false} TornAttemptsCarry(timer: nat -> uint64, first: nat, a: nat)
    requires NeverGoesBack(timer) && forall b: nat :: b < a ==> Torn(timer, first, b)
    ensures a > 0 ==> High(timer(first + 3 * a - 1)) >= High(timer(first)) + a
  {
    hide High;
    if a > 0 {
      var start := first + 3 * (a - 1);
      assert Torn(timer, first, a - 1);
      HighGrows(timer, start, start + 2);
      if a > 1 {
        TornAttemptsCarry(timer, first, a - 1);
        HighGrows(timer, start - 1, start);
      }
    }
  }

  /** While the timer moves less than 2^32 over the first two attempts, one of them succeeds. */
  lemma TwoAttemptsSuffice(timer: nat -> uint64, first: nat)
    requires NeverGoesBack(timer) && timer(first + 5) - timer(first) < 0x1_0000_0000
    ensures !Torn(timer, first, 0) || !Torn(timer, first, 1)
  {
    HighGrows(timer, first, first + 2);
    HighGrows(timer, first + 2, first + 3);
    HighGrows(timer, first + 3, first + 5);
    assert timer(first) <= timer(first + 5);
  }

  /** An unstable result means the timer advanced by more than 3 * 2^32 during the call. */
  lemma UnstableMeansImpossiblySlow(timer: nat -> uint64, first: nat)
    requires NeverGoesBack(timer) && forall a: nat :: a < READ_ATTEMPTS ==> Torn(timer, first, a)
    ensures timer(first + 11) - timer(first) > 3 * 0x1_0000_0000
  {
    TornAttemptsCarry(timer, first, 4);
  }
}
