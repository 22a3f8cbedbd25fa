/**
  The polled downlink with its shared retry allowance (flight/hal/uart.c).

  The device is arbitrary: status read number `k` finds the transmit FIFO full exactly
  when `full(k)`.
*/
module Downlink {
  import opened Words

  const RETRY_TOTAL := 256

  /** How many of the status polls `from .. upto` found the FIFO full. */
  function FullReads(full: nat -> bool, from: nat, upto: nat): nat
    requires from <= upto
  {
    if from == upto then 0 else FullReads(full, from, upto - 1) + if full(upto - 1) then 1 else 0
  }

  class Port {
    const full: nat -> bool
    var polls: nat
    var sent: seq<uint8>

    constructor (full: nat -> bool)
      ensures this.full == full && polls == 0 && sent == []
    {
      this.full, polls, sent := full, 0, [];
    }

    /**
      `port_putc`: polls until the port takes the byte or the allowance is gone.  Every
      poll but the last is a refusal paid for; the last is the one that took the byte, or
      a refusal there was nothing left to pay for.
    */
    method PutByte(byte: uint8, allowance: nat) returns (ok: bool, left: nat)
      modifies this
      ensures left <= allowance && polls == old(polls) + (allowance - left) + 1
      ensures FullReads(full, old(polls), polls - 1) == allowance - left
      ensures ok <==> !full(polls - 1)
      ensures sent == if ok then old(sent) + [byte] else old(sent)
      ensures !ok ==> left == 0
    {
      left := allowance;
      while true
        invariant left <= allowance && polls == old(polls) + (allowance - left)
        invariant FullReads(full, old(polls), polls) == allowance - left
        invariant sent == old(sent)
        decreases left
      {
        var isFull := full(polls);
        polls := polls + 1;
        if !isFull {
          sent := sent + [byte];
          return true, left;
        }
        if left == 0 {
          return false, 0;
        }
        left := left - 1;
      }
    }

    /**
      `obc_uart_downlink_write`.  What goes out is a prefix; it is all of it exactly when
      the call saw no more refusals than the one allowance covers, whatever the length of
      the frame; and a call that gives up has spent the whole allowance.
    */
    method Write(bytes: seq<uint8>) returns (ok: bool)
      modifies this
      ensures |old(sent)| <= |sent| <= |old(sent)| + |bytes|
      ensures sent == old(sent) + bytes[..|sent| - |old(sent)|]
      ensures ok <==> |sent| == |old(sent)| + |bytes|
      ensures old(polls) <= polls
      ensures ok ==> FullReads(full, old(polls), polls) <= 256
      ensures !ok ==> FullReads(full, old(polls), polls) == 257 && full(polls - 1)
      ensures polls == old(polls) + FullReads(full, old(polls), polls) + (|sent| - |old(sent)|)
    {
      var allowance: nat := RETRY_TOTAL;
      for i := 0 to |bytes|
        invariant allowance <= RETRY_TOTAL && sent == old(sent) + bytes[..i]
        invariant old(polls) <= polls && FullReads(full, old(polls), polls) == RETRY_TOTAL - allowance
        invariant polls == old(polls) + (RETRY_TOTAL - allowance) + i
      {
        label before:
        var taken, left := PutByte(bytes[i], allowance);
        FullReadsSplit(full, old(polls), old@before(polls), polls - 1);
        if !taken {
          return false;
        }
        allowance := left;
      }
      return true;
    }
  }

  lemma {:induction false} FullReadsSplit(full: nat -> bool, a: nat, b: nat, c: nat)
    requires a <= b <= c
    ensures FullReads(full, a, c) == FullReads(full, a, b) + FullReads(full, b, c)
    decreases c
  {
    if b < c {
      FullReadsSplit(full, a, b, c - 1);
    }
  }
}
