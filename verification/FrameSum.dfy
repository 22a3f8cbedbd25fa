/**
  The integrity word of both links (flight/cmd/frame.c, flight/tlm/frame.c) and the
  ground's own second implementation of it (harness/runner/tlm_decode.py, uplink.py).

  The loops fold the carry back in after every byte.  The specification has no loop
  and no carry: it is the complement of the byte total taken modulo 65535, with 65535
  itself standing for every nonzero multiple.
*/
module FrameSum {
  import opened Words

  function Total(bytes: seq<uint8>): nat {
    if bytes == [] then 0 else Total(bytes[..|bytes| - 1]) + bytes[|bytes| - 1]
  }

  /** The representative of `total` modulo 65535 that end-around carry produces. */
  function Residue(total: nat): (r: uint16)
    ensures r % 0xFFFF == total % 0xFFFF
    ensures r == 0 <==> total == 0
  {
    if total == 0 then 0 else (total - 1) % 0xFFFF + 1
  }

  function IntegrityWord(bytes: seq<uint8>): uint16 {
    0xFFFF - Residue(Total(bytes))
  }

  /** One turn of the loop: add a byte, fold the carry, keep sixteen bits. */
  lemma FoldStep(total: nat, byte: uint8)
    ensures var sum := Residue(total) + byte; (sum + sum / 0x1_0000) % 0x1_0000 == Residue(total + byte)
  {
    var sum := Residue(total) + byte;
    if sum >= 0x1_0000 {
      assert sum / 0x1_0000 == 1;
    } else {
      assert sum / 0x1_0000 == 0;
    }
    if total > 0 && byte > 0 {
      assert (total + byte - 1) % 0xFFFF == ((total - 1) % 0xFFFF + byte) % 0xFFFF;
    }
  }

  /** `obc_cmd_sum` and the telemetry `frame_sum`: the flight loop over a buffer. */
  method FlightSum(frame: array<uint8>, upto: nat) returns (word: uint16)
    requires upto <= frame.Length
    ensures word == IntegrityWord(frame[..upto])
  {
    var sum: uint32 := 0;
    for i := 0 to upto
      invariant sum == Residue(Total(frame[..i]))
    {
      assert frame[..i + 1][..i] == frame[..i];
      FoldStep(Total(frame[..i]), frame[i]);
      sum := sum + frame[i];
      sum := (sum + sum / 0x1_0000) % 0x1_0000;
    }
    word := 0xFFFF - sum;
  }

  /** The ground's `frame_sum`: a Python slice clips at the end of the data. */
  method GroundSum(data: seq<uint8>, upto: nat) returns (word: uint16)
    ensures word == IntegrityWord(data[..Min(upto, |data|)])
  {
    var total: nat := 0;
    var end := Min(upto, |data|);
    var i := 0;
    while i < end
      invariant 0 <= i <= end
      invariant total == Residue(Total(data[..i]))
    {
      assert data[..i + 1][..i] == data[..i];
      FoldStep(Total(data[..i]), data[i]);
      total := total + data[i];
      total := (total + total / 0x1_0000) % 0x1_0000;
      i := i + 1;
    }
    word := 0xFFFF - total;
  }

  lemma {:induction false} TotalIsZero(bytes: seq<uint8>)
    ensures Total(bytes) == 0 <==> forall k :: 0 <= k < |bytes| ==> bytes[k] == 0
  {
    if bytes == [] {
    } else {
      var front := bytes[..|bytes| - 1];
      TotalIsZero(front);
      assert forall k :: 0 <= k < |front| ==> front[k] == bytes[k];
    }
  }

  /**
    What the word is for: added to the bytes it makes a multiple of 65535.  Of the two words
    that stand for zero, the all-ones one is kept for a buffer of nothing but zeros.
  */
  lemma WordCompletes(bytes: seq<uint8>)
    ensures (Total(bytes) + IntegrityWord(bytes) as nat) % 0xFFFF == 0
    ensures IntegrityWord(bytes) == 0xFFFF <==> forall k :: 0 <= k < |bytes| ==> bytes[k] == 0
  {
    TotalIsZero(bytes);
    var t := Total(bytes);
    hide Total;
    var r := Residue(t);
    assert r <= 0xFFFF && r % 0xFFFF == t % 0xFFFF;
    Complement(t, r);
  }

  lemma Complement(t: nat, r: nat)
    requires r <= 0xFFFF && r % 0xFFFF == t % 0xFFFF
    ensures (t + (0xFFFF - r)) % 0xFFFF == 0
  {
    assert t == 0xFFFF * (t / 0xFFFF) + t % 0xFFFF;
  }

  lemma {:induction false} TotalUpdate(bytes: seq<uint8>, at: nat, b: uint8)
    requires at < |bytes|
    ensures Total(bytes[at := b]) == Total(bytes) - bytes[at] + b
  {
    var n := |bytes| - 1;
    if at == n {
      assert bytes[at := b][..n] == bytes[..n];
    } else {
      assert bytes[at := b][..n] == bytes[..n][at := b];
      TotalUpdate(bytes[..n], at, b);
    }
  }

  /** Changing one byte always changes the word, whatever the length. */
  lemma SingleByteChangesWord(bytes: seq<uint8>, at: nat, b: uint8)
    requires at < |bytes| && b != bytes[at]
    ensures IntegrityWord(bytes[at := b]) != IntegrityWord(bytes)
  {
    TotalUpdate(bytes, at, b);
    var t, u := Total(bytes), Total(bytes[at := b]);
    assert t % 0xFFFF != u % 0xFFFF;
  }
}
