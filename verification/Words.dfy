/** Machine words, powers of two and the low bits a prefix mask clears. */
module Words {

  const UINT32: nat := 0x1_0000_0000

  /** The index Go computes for k-1 on a 64-bit uint. */
  function UintPred(k: nat): nat {
    if k == 0 then 0xFFFF_FFFF_FFFF_FFFF else k - 1
  }

  function Pow2(n: nat): (p: nat)
    ensures p >= 1
  {
    if n == 0 then 1 else 2 * Pow2(n - 1)
  }

  /** The h low bits of b are zero. */
  predicate LowZero(b: nat, h: nat) {
    h == 0 || (b % 2 == 0 && LowZero(b / 2, h - 1))
  }

  /** b with its h low bits cleared. */
  function ClearLow(b: nat, h: nat): nat {
    if h == 0 then b else 2 * ClearLow(b / 2, h - 1)
  }

  lemma Pow2Values()
    ensures Pow2(8) == 0x100 && Pow2(16) == 0x1_0000 && Pow2(24) == 0x100_0000 && Pow2(32) == UINT32
  {
    Pow2Doubles(0);
    Pow2Doubles(8);
    Pow2Doubles(16);
    Pow2Doubles(24);
  }

  lemma Pow2Doubles(n: nat)
    ensures Pow2(n + 8) == 256 * Pow2(n)
  {
    assert Pow2(n + 2) == 4 * Pow2(n);
    assert Pow2(n + 4) == 4 * Pow2(n + 2);
    assert Pow2(n + 6) == 4 * Pow2(n + 4);
    assert Pow2(n + 8) == 4 * Pow2(n + 6);
  }

  lemma {:induction false} Pow2Monotone(a: nat, b: nat)
    requires a <= b
    ensures Pow2(a) <= Pow2(b)
  {
    if a < b {
      Pow2Monotone(a, b - 1);
    }
  }

  /** A number and its block: clearing the low bits of anything in an aligned block gives
      the block's base. */
  lemma {:induction false} ClearLowInBlock(base: nat, x: nat, h: nat)
    requires LowZero(base, h) && base <= x < base + Pow2(h)
    ensures ClearLow(x, h) == base
  {
    if h > 0 {
      ClearLowInBlock(base / 2, x / 2, h - 1);
    }
  }

  lemma {:induction false} ClearLowAligned(x: nat, h: nat)
    ensures LowZero(ClearLow(x, h), h) && ClearLow(x, h) <= x
  {
    if h > 0 {
      ClearLowAligned(x / 2, h - 1);
    }
  }

  /** Clearing low bits twice clears the larger number of them. */
  lemma {:induction false} ClearLowTwice(x: nat, h: nat, k: nat)
    ensures ClearLow(ClearLow(x, h), k) == ClearLow(x, if h < k then k else h)
  {
    if h > 0 && k > 0 {
      ClearLowTwice(x / 2, h - 1, k - 1);
    }
  }

  /** x and y have the same leading bits exactly when y lies in x's block. */
  lemma {:induction false} ClearLowIsBlock(x: nat, y: nat, h: nat)
    ensures ClearLow(x, h) == ClearLow(y, h) <==> ClearLow(x, h) <= y < ClearLow(x, h) + Pow2(h)
  {
    if h > 0 {
      ClearLowIsBlock(x / 2, y / 2, h - 1);
    }
  }

  /** Low bits are cleared in the part that has any. */
  lemma {:induction false} ClearLowSum(m: nat, r: nat, h: nat)
    requires LowZero(m, h)
    ensures ClearLow(m + r, h) == m + ClearLow(r, h)
  {
    if h > 0 {
      assert (m + r) / 2 == m / 2 + r / 2;
      ClearLowSum(m / 2, r / 2, h - 1);
    }
  }

  lemma ClearLowNibble(x: nat, h: nat)
    ensures ClearLow(x, h + 4) == 16 * ClearLow(x / 16, h)
  {
    assert ClearLow(x, h + 4) == 2 * ClearLow(x / 2, h + 3);
    assert ClearLow(x / 2, h + 3) == 2 * ClearLow(x / 2 / 2, h + 2);
    assert ClearLow(x / 2 / 2, h + 2) == 2 * ClearLow(x / 2 / 2 / 2, h + 1);
    assert ClearLow(x / 2 / 2 / 2, h + 1) == 2 * ClearLow(x / 2 / 2 / 2 / 2, h);
    assert x / 2 / 2 / 2 / 2 == x / 16;
  }

  /** Clearing a whole byte and more. */
  lemma ClearLowByte(x: nat, h: nat)
    ensures ClearLow(x, h + 8) == 256 * ClearLow(x / 256, h)
  {
    ClearLowNibble(x, h + 4);
    ClearLowNibble(x / 16, h);
    assert x / 16 / 16 == x / 256;
  }

  lemma {:induction false} LowZeroFewer(b: nat, h: nat, k: nat)
    requires LowZero(b, h) && k <= h
    ensures LowZero(b, k)
  {
    if k > 0 {
      LowZeroFewer(b / 2, h - 1, k - 1);
    }
  }

  lemma ShiftedByte(q: nat)
    ensures LowZero(256 * q, 8)
  {
    Doubled(q, 0);
    Doubled(2 * q, 1);
    Doubled(4 * q, 2);
    Doubled(8 * q, 3);
    Doubled(16 * q, 4);
    Doubled(32 * q, 5);
    Doubled(64 * q, 6);
    Doubled(128 * q, 7);
  }

  /** An aligned block that starts below 2^m ends at 2^m or before. */
  lemma {:induction false} BlockFits(base: nat, h: nat, m: nat)
    requires LowZero(base, h) && h <= m && base < Pow2(m)
    ensures base + Pow2(h) <= Pow2(m)
  {
    if h > 0 {
      BlockFits(base / 2, h - 1, m - 1);
    }
  }

  lemma Doubled(b: nat, h: nat)
    requires LowZero(b, h)
    ensures LowZero(2 * b, h + 1)
  {
    assert 2 * b / 2 == b;
  }

  /** a * 2^h. */
  function Shifted(a: nat, h: nat): nat {
    if h == 0 then a else 2 * Shifted(a, h - 1)
  }

  lemma {:induction false} ShiftedZeros(a: nat, h: nat)
    ensures LowZero(Shifted(a, h), h)
  {
    if h > 0 {
      ShiftedZeros(a, h - 1);
      Doubled(Shifted(a, h - 1), h - 1);
    }
  }

  lemma LowNibbleZero(base: nat, h: nat)
    requires LowZero(base, h) && h >= 4
    ensures base % 16 == 0 && LowZero(base / 16, h - 4)
  {
    assert LowZero(base / 2, h - 1);
    assert LowZero(base / 2 / 2, h - 2);
    assert LowZero(base / 2 / 2 / 2, h - 3);
    assert LowZero(base / 2 / 2 / 2 / 2, h - 4);
    assert base / 2 / 2 / 2 / 2 == base / 16;
  }

  lemma LowByteZero(base: nat, h: nat)
    requires LowZero(base, h) && h >= 8
    ensures base % 256 == 0
  {
    LowNibbleZero(base, h);
    LowNibbleZero(base / 16, h - 4);
    SixteenTwice(base);
  }

  lemma SixteenTwice(b: nat)
    requires b % 16 == 0 && b / 16 % 16 == 0
    ensures b % 256 == 0
  {
  }
}
