/** Exclusive-or and single-bit flips on machine words, as arithmetic. */
module Bits {
  import opened Words

  function Pow2(n: nat): (p: nat)
    ensures p > 0
  {
    if n == 0 then 1 else 2 * Pow2(n - 1)
  }

  lemma Pow2Word()
    ensures Pow2(32) == 0x1_0000_0000
  {
    Pow2Double(2, 4);
    Pow2Double(4, 0x10);
    Pow2Double(8, 0x100);
    Pow2Double(16, 0x1_0000);
  }

  lemma Pow2Double(n: nat, p: nat)
    requires Pow2(n) == p
    ensures Pow2(n + n) == p * p
  {
    Pow2Add(n, n);
  }

  lemma {:induction false} Pow2Below(m: nat, n: nat)
    requires m < n
    ensures Pow2(m) < Pow2(n)
  {
    if m + 1 < n {
      Pow2Below(m, n - 1);
    }
  }

  lemma {:induction false} Pow2Add(m: nat, n: nat)
    ensures Pow2(m + n) == Pow2(m) * Pow2(n)
  {
    if m == 0 {
    } else {
      Pow2Add(m - 1, n);
      assert Pow2(m + n) == 2 * (Pow2(m - 1) * Pow2(n));
    }
  }

  function Xor(a: nat, b: nat): nat
    decreases a + b
  {
    if a == 0 && b == 0 then 0 else (if a % 2 == b % 2 then 0 else 1) + 2 * Xor(a / 2, b / 2)
  }

  lemma {:induction false} XorBound(a: nat, b: nat, n: nat)
    requires a < Pow2(n) && b < Pow2(n)
    ensures Xor(a, b) < Pow2(n)
  {
    if n == 0 {
    } else {
      XorBound(a / 2, b / 2, n - 1);
    }
  }

  lemma XorWord(a: uint32, b: uint32)
    ensures Xor(a, b) < 0x1_0000_0000
  {
    Pow2Word();
    XorBound(a, b, 32);
  }

  /** The C `^` on two words. */
  function Xor32(a: uint32, b: uint32): uint32 {
    XorWord(a, b);
    Xor(a, b)
  }

  lemma {:induction false} XorInjective(v: nat, a: nat, b: nat)
    requires Xor(v, a) == Xor(v, b)
    ensures a == b
    decreases v + a + b
  {
    if v == 0 && a == 0 && b == 0 {
    } else {
      XorUnfold(v, a);
      XorUnfold(v, b);
      hide Xor;
      XorInjective(v / 2, a / 2, b / 2);
    }
  }

  lemma XorUnfold(a: nat, b: nat)
    ensures Xor(a, b) % 2 == (if a % 2 == b % 2 then 0 else 1) && Xor(a, b) / 2 == Xor(a / 2, b / 2)
  {
  }

  lemma SameHalves(a: nat, b: nat)
    requires a % 2 == b % 2 && a / 2 == b / 2
    ensures a == b
  {
  }

  lemma {:induction false} XorPairs(x: nat, y: nat, a: nat, b: nat)
    ensures Xor(Xor(x, a), Xor(y, b)) == Xor(Xor(x, y), Xor(a, b))
    decreases x + y + a + b
  {
    if x == 0 && y == 0 && a == 0 && b == 0 {
    } else {
      hide Xor;
      XorUnfold(x, a);
      XorUnfold(y, b);
      XorUnfold(x, y);
      XorUnfold(a, b);
      var left, right := Xor(Xor(x, a), Xor(y, b)), Xor(Xor(x, y), Xor(a, b));
      XorUnfold(Xor(x, a), Xor(y, b));
      XorUnfold(Xor(x, y), Xor(a, b));
      XorPairs(x / 2, y / 2, a / 2, b / 2);
      SameHalves(left, right);
    }
  }

  lemma {:induction false} XorSelf(a: nat)
    ensures Xor(a, a) == 0
  {
    if a == 0 {
    } else {
      XorSelf(a / 2);
    }
  }

  lemma {:induction false} XorNone(a: nat, b: nat)
    ensures Xor(a, b) == 0 <==> a == b
    decreases a + b
  {
    if a == 0 && b == 0 {
    } else {
      XorUnfold(a, b);
      hide Xor;
      XorNone(a / 2, b / 2);
    }
  }

  lemma {:induction false} XorZeroLeft(v: nat)
    ensures Xor(0, v) == v
  {
    if v == 0 {
    } else {
      XorZeroLeft(v / 2);
    }
  }

  /** Whether bit `k` of `v` is set. */
  predicate Bit(v: nat, k: nat) {
    if k == 0 then v % 2 == 1 else Bit(v / 2, k - 1)
  }

  /** `v ^ (1 << k)`. */
  function FlipBit(v: nat, k: nat): nat {
    if k == 0 then (if v % 2 == 1 then v - 1 else v + 1) else v % 2 + 2 * FlipBit(v / 2, k - 1)
  }

  lemma {:induction false} FlipMoves(v: nat, k: nat)
    ensures FlipBit(v, k) == if Bit(v, k) then v - Pow2(k) else v + Pow2(k)
  {
    if k == 0 {
    } else {
      FlipMoves(v / 2, k - 1);
    }
  }

  lemma {:induction false} XorZero(v: nat)
    ensures Xor(v, 0) == v
  {
    if v == 0 {
    } else {
      XorZero(v / 2);
    }
  }

  /** A flip is an exclusive-or with the bit's own word. */
  lemma {:induction false} FlipIsXor(v: nat, k: nat)
    ensures FlipBit(v, k) == Xor(v, Pow2(k))
  {
    if k == 0 {
      assert Pow2(0) == 1;
      XorUnfold(v, 1);
      XorZero(v / 2);
    } else {
      FlipIsXor(v / 2, k - 1);
      XorUnfold(v, Pow2(k));
      hide Xor;
    }
  }

  lemma FlipUnfold(v: nat, k: nat)
    requires k > 0
    ensures FlipBit(v, k) / 2 == FlipBit(v / 2, k - 1) && FlipBit(v, k) % 2 == v % 2
  {
  }

  /** Flipping a bit of one operand flips that bit of the result. */
  lemma {:induction false} XorFlip(v: nat, s: nat, k: nat)
    ensures Xor(FlipBit(v, k), s) == FlipBit(Xor(v, s), k)
  {
    XorUnfold(v, s);
    XorUnfold(FlipBit(v, k), s);
    hide Xor;
    if k == 0 {
      assert FlipBit(v, 0) / 2 == v / 2;
    } else {
      FlipUnfold(v, k);
      XorFlip(v / 2, s / 2, k - 1);
    }
  }

  /** An odd multiple of 2^n is no multiple of a higher power. */
  lemma {:induction false} OddMultiple(n: nat, m: nat, odd: int, z: int)
    requires n < m && odd % 2 == 1
    ensures Pow2(n) * odd != Pow2(m) * z
  {
    assert Pow2(m) * z == 2 * (Pow2(m - 1) * z);
    if n == 0 {
      assert Pow2(0) * odd == odd;
    } else {
      OddMultiple(n - 1, m - 1, odd, z);
      assert Pow2(n) * odd == 2 * (Pow2(n - 1) * odd);
    }
  }

  /** It therefore changes any word it is added to, modulo 2^32. */
  lemma OddMultipleShows(n: nat, odd: int, before: int, after: int)
    requires n < 32 && odd % 2 == 1 && after - before == Pow2(n) * odd
    ensures Wrap32(after) != Wrap32(before)
  {
    Pow2Word();
    OddMultiple(n, 32, odd, after / 0x1_0000_0000 - before / 0x1_0000_0000);
  }
}
