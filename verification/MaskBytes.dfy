/** The mask bytes of NetworkRange: what `and` with a mask byte and `or` with its complement do
    to a byte, as bit operations and as arithmetic. */
module MaskBytes {
  import opened Words
  import opened Bitmaps

  /** A byte whose h low bits are clear and all others set. */
  function MaskByte(h: nat): bv8
    requires h <= 8
  {
    if h == 0 then 0xFF else if h == 1 then 0xFE else if h == 2 then 0xFC else if h == 3 then 0xF8
    else if h == 4 then 0xF0 else if h == 5 then 0xE0 else if h == 6 then 0xC0 else if h == 7 then 0x80 else 0x00
  }

  lemma MaskAnd(x: bv8, h: nat, i: nat)
    requires h <= 8 && i < 8
    ensures Has(x & MaskByte(h), i) <==> i >= h && Has(x, i)
  {
  }

  lemma MaskOr(x: bv8, h: nat, i: nat)
    requires h <= 8 && i < 8
    ensures Has(x | !MaskByte(h), i) <==> i < h || Has(x, i)
  {
  }

  // ---- the number that bits spell

  /** The bits of a byte, the least significant first. */
  function Bits(x: bv8): (b: seq<bool>)
    ensures |b| == 8
  {
    [Has(x, 0), Has(x, 1), Has(x, 2), Has(x, 3), Has(x, 4), Has(x, 5), Has(x, 6), Has(x, 7)]
  }

  function BitsValue(b: seq<bool>): (v: nat)
    ensures v < Pow2(|b|)
  {
    if b == [] then 0 else (if b[0] then 1 else 0) + 2 * BitsValue(b[1..])
  }

  function Value(x: bv8): (v: nat)
    ensures v < 256
  {
    Pow2Values();
    BitsValue(Bits(x))
  }

  /** The h first bits of b cleared, and set. */
  predicate AreCleared(b: seq<bool>, c: seq<bool>, h: nat) {
    |c| == |b| && forall i :: 0 <= i < |b| ==> c[i] == (i >= h && b[i])
  }

  predicate AreSet(b: seq<bool>, c: seq<bool>, h: nat) {
    |c| == |b| && forall i :: 0 <= i < |b| ==> c[i] == (i < h || b[i])
  }

  lemma {:induction false} ClearedValue(b: seq<bool>, c: seq<bool>, h: nat)
    requires AreCleared(b, c, h)
    ensures BitsValue(c) == ClearLow(BitsValue(b), h)
    decreases |b|
  {
    if h == 0 {
      assert c == b;
    } else if b == [] {
      ClearLowZero(h);
    } else {
      assert forall i :: 0 <= i < |b| - 1 ==> c[1..][i] == c[i + 1] && b[1..][i] == b[i + 1];
      ClearedValue(b[1..], c[1..], h - 1);
    }
  }

  lemma {:induction false} ClearLowZero(h: nat)
    ensures ClearLow(0, h) == 0
  {
    if h > 0 {
      ClearLowZero(h - 1);
    }
  }

  lemma {:induction false} SetValue(b: seq<bool>, c: seq<bool>, h: nat)
    requires AreSet(b, c, h) && h <= |b|
    ensures BitsValue(c) == ClearLow(BitsValue(b), h) + (Pow2(h) - 1)
    decreases |b|
  {
    if h == 0 {
      assert c == b;
    } else {
      assert forall i :: 0 <= i < |b| - 1 ==> c[1..][i] == c[i + 1] && b[1..][i] == b[i + 1];
      SetValue(b[1..], c[1..], h - 1);
    }
  }

  // ---- bytes

  lemma BitsAt(x: bv8, i: nat)
    requires i < 8
    ensures Bits(x)[i] == Has(x, i)
  {
  }

  lemma AndClears(x: bv8, y: bv8, h: nat)
    requires h <= 8 && y == x & MaskByte(h)
    ensures AreCleared(Bits(x), Bits(y), h)
  {
    forall i | 0 <= i < 8
      ensures Bits(y)[i] == (i >= h && Bits(x)[i])
    {
      AndBit(x, y, h, i);
    }
  }

  lemma AndBit(x: bv8, y: bv8, h: nat, i: nat)
    requires h <= 8 && i < 8 && y == x & MaskByte(h)
    ensures Bits(y)[i] == (i >= h && Bits(x)[i])
  {
    MaskAnd(x, h, i);
    BitsAt(x, i);
    BitsAt(y, i);
  }

  lemma OrSets(x: bv8, y: bv8, h: nat)
    requires h <= 8 && y == x | !MaskByte(h)
    ensures AreSet(Bits(x), Bits(y), h)
  {
    forall i | 0 <= i < 8
      ensures Bits(y)[i] == (i < h || Bits(x)[i])
    {
      OrBit(x, y, h, i);
    }
  }

  lemma OrBit(x: bv8, y: bv8, h: nat, i: nat)
    requires h <= 8 && i < 8 && y == x | !MaskByte(h)
    ensures Bits(y)[i] == (i < h || Bits(x)[i])
  {
    MaskOr(x, h, i);
    BitsAt(x, i);
    BitsAt(y, i);
  }

  /** A byte `and` its mask byte is the byte with its low bits cleared; a byte `or` the
      complement of its mask byte is the byte with them set. */
  lemma MaskValues(x: bv8, h: nat)
    requires h <= 8
    ensures Value(x & MaskByte(h)) == ClearLow(Value(x), h)
    ensures Value(x | !MaskByte(h)) == ClearLow(Value(x), h) + (Pow2(h) - 1)
  {
    AndClears(x, x & MaskByte(h), h);
    OrSets(x, x | !MaskByte(h), h);
    ClearedValue(Bits(x), Bits(x & MaskByte(h)), h);
    SetValue(Bits(x), Bits(x | !MaskByte(h)), h);
  }
}
