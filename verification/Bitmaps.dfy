/** The byte-level bitmap of util/util.go and the set of naturals it stands for. */
module Bitmaps {
  import opened Words

  /** A byte slice as it is stored under a Consul key. */
  type Bitmap = seq<bv8>

  /** 1 << i. */
  function Bit(i: nat): bv8
    requires i < 8
  {
    if i == 0 then 1 else if i == 1 then 2 else if i == 2 then 4 else if i == 3 then 8
    else if i == 4 then 16 else if i == 5 then 32 else if i == 6 then 64 else 128
  }

  predicate Has(x: bv8, i: nat)
    requires i < 8
  {
    x & Bit(i) != 0
  }

  function Raised(x: bv8, i: nat): bv8
    requires i < 8
  {
    x | Bit(i)
  }

  function Lowered(x: bv8, i: nat): bv8
    requires i < 8
  {
    x & !Bit(i)
  }

  predicate Test(s: Bitmap, k: nat)
    requires k < 8 * |s|
  {
    Has(s[k / 8], k % 8)
  }

  /** The bits that are 1: the set of naturals a bitmap refines. */
  function Members(s: Bitmap): set<nat> {
    set k: nat | k < 8 * |s| && Test(s, k)
  }

  function Zeros(n: nat): Bitmap {
    seq(n, _ => 0)
  }

  function WithBit(s: Bitmap, k: nat): Bitmap
    requires k < 8 * |s|
  {
    s[k / 8 := Raised(s[k / 8], k % 8)]
  }

  function WithoutBit(s: Bitmap, k: nat): Bitmap
    requires k < 8 * |s|
  {
    s[k / 8 := Lowered(s[k / 8], k % 8)]
  }

  /** The number of bits TestAndSet looks at: uint32(len(a)*8). */
  function Bound(s: Bitmap): nat {
    8 * |s| % UINT32
  }

  /** What one call of TestAndSet leaves in the slice and returns. */
  datatype Taken = Taken(bitmap: Bitmap, ret: nat)

  /** The first clear bit at or after i among the first n bits, or n. */
  function FirstClear(s: Bitmap, i: nat, n: nat): (k: nat)
    requires i <= n <= 8 * |s|
    ensures i <= k <= n
    ensures k < n ==> !Test(s, k)
    ensures forall j: nat :: i <= j < k ==> Test(s, j)
    decreases n - i
  {
    if i == n || !Test(s, i) then i else FirstClear(s, i + 1, n)
  }

  function Take(s: Bitmap): Taken {
    var k := FirstClear(s, 0, Bound(s));
    Taken(if k < Bound(s) then WithBit(s, k) else s, k + 1)
  }

  // ---- single bits

  lemma BitIsShift(i: nat)
    requires i < 8
    ensures Bit(i) == 1 << i
  {
  }

  lemma RaisedHas(x: bv8, i: nat, j: nat)
    requires i < 8 && j < 8
    ensures Has(Raised(x, i), j) <==> i == j || Has(x, j)
  {
  }

  lemma LoweredHas(x: bv8, i: nat, j: nat)
    requires i < 8 && j < 8
    ensures Has(Lowered(x, i), j) <==> i != j && Has(x, j)
  {
  }

  lemma ByteEquality(x: bv8, y: bv8)
    requires forall j: nat :: j < 8 ==> (Has(x, j) <==> Has(y, j))
    ensures x == y
  {
    assert Has(x, 0) == Has(y, 0) && Has(x, 1) == Has(y, 1) && Has(x, 2) == Has(y, 2) && Has(x, 3) == Has(y, 3);
    assert Has(x, 4) == Has(y, 4) && Has(x, 5) == Has(y, 5) && Has(x, 6) == Has(y, 6) && Has(x, 7) == Has(y, 7);
  }

  // ---- the set of naturals

  lemma SamePlace(j: nat, k: nat)
    ensures j == k <==> j / 8 == k / 8 && j % 8 == k % 8
  {
  }

  lemma ByteUpdated(s: Bitmap, b: nat, c: nat, v: bv8)
    requires b < |s| && c < |s|
    ensures s[b := v][c] == if b == c then v else s[c]
  {
  }

  /** A flip by byte and bit number. */
  lemma FlipByte(s: Bitmap, b: nat, i: nat, c: nat, j: nat)
    requires b < |s| && c < |s| && i < 8 && j < 8
    ensures Has(s[b := Raised(s[b], i)][c], j) <==> (b == c && i == j) || Has(s[c], j)
    ensures Has(s[b := Lowered(s[b], i)][c], j) <==> !(b == c && i == j) && Has(s[c], j)
  {
    ByteUpdated(s, b, c, Raised(s[b], i));
    ByteUpdated(s, b, c, Lowered(s[b], i));
    if b == c {
      RaisedHas(s[b], i, j);
      LoweredHas(s[b], i, j);
    }
  }

  lemma TestAfterFlip(s: Bitmap, k: nat, j: nat)
    requires k < 8 * |s| && j < 8 * |s|
    ensures Test(WithBit(s, k), j) <==> j == k || Test(s, j)
    ensures Test(WithoutBit(s, k), j) <==> j != k && Test(s, j)
  {
    SamePlace(j, k);
    FlipByte(s, k / 8, k % 8, j / 8, j % 8);
  }

  /** Set inserts, Clear removes, and neither touches any other bit. */
  lemma BitsAreASet(s: Bitmap, k: nat)
    requires k < 8 * |s|
    ensures |WithBit(s, k)| == |WithoutBit(s, k)| == |s|
    ensures Members(WithBit(s, k)) == Members(s) + {k}
    ensures Members(WithoutBit(s, k)) == Members(s) - {k}
  {
    forall j: nat | j < 8 * |s|
      ensures Test(WithBit(s, k), j) <==> j == k || Test(s, j)
      ensures Test(WithoutBit(s, k), j) <==> j != k && Test(s, j)
    {
      TestAfterFlip(s, k, j);
    }
  }

  lemma ZerosAreEmpty(n: nat)
    ensures Members(Zeros(n)) == {}
  {
    forall k: nat | k < 8 * n
      ensures !Test(Zeros(n), k)
    {
      assert !Has(0, k % 8);
    }
  }

  /** A bitmap is determined by its length and its set. */
  lemma MembersInjective(s: Bitmap, t: Bitmap)
    requires |s| == |t| && Members(s) == Members(t)
    ensures s == t
  {
    forall b | 0 <= b < |s|
      ensures s[b] == t[b]
    {
      forall j: nat | j < 8
        ensures Has(s[b], j) <==> Has(t[b], j)
      {
        var k: nat := 8 * b + j;
        assert k / 8 == b && k % 8 == j;
        assert k in Members(s) <==> Test(s, k);
        assert k in Members(t) <==> Test(t, k);
      }
      ByteEquality(s[b], t[b]);
    }
  }

  ghost predicate Full(s: Bitmap) {
    forall k: nat :: k < 8 * |s| ==> k in Members(s)
  }

  ghost predicate LeastMissing(m: set<nat>, k: nat) {
    k !in m && forall j: nat :: j < k ==> j in m
  }

  /** For a slice of fewer than 2^32 bits, TestAndSet inserts the least missing
      natural and returns it plus one, or returns 8*len+1 and changes nothing,
      exactly when the bitmap is full. */
  lemma TakeIsLeastMissing(s: Bitmap)
    requires 8 * |s| < UINT32
    ensures |Take(s).bitmap| == |s|
    ensures 1 <= Take(s).ret <= 8 * |s| + 1
    ensures Full(s) <==> Take(s).ret == 8 * |s| + 1
    ensures Full(s) ==> Take(s).bitmap == s
    ensures !Full(s) ==> LeastMissing(Members(s), Take(s).ret - 1)
    ensures !Full(s) ==> Members(Take(s).bitmap) == Members(s) + {Take(s).ret - 1}
  {
    var k := FirstClear(s, 0, Bound(s));
    if k < Bound(s) {
      BitsAreASet(s, k);
      assert k !in Members(s);
    }
  }

  /** From 2^32 bits on the loop bound wraps. The call still takes the least missing
      bit exactly when one of the first 8*len mod 2^32 bits is clear. */
  lemma TakeUnderWrap(s: Bitmap)
    ensures (exists k: nat :: k < Bound(s) && k !in Members(s))
       <==> Take(s).bitmap != s
    ensures Take(s).bitmap != s ==> LeastMissing(Members(s), Take(s).ret - 1)
    ensures Take(s).bitmap != s ==> Members(Take(s).bitmap) == Members(s) + {Take(s).ret - 1}
  {
    var k := FirstClear(s, 0, Bound(s));
    if k < Bound(s) {
      BitsAreASet(s, k);
      assert k !in Members(s) && k in Members(Take(s).bitmap);
    }
  }

  /** The bitmap of a /0 subnet has 2^29 bytes: every call returns 1 and marks nothing. */
  lemma WrappedBitmapNeverFills()
    ensures var s := Zeros(0x2000_0000); Take(s) == Taken(s, 1) && !Full(s)
  {
    var s := Zeros(0x2000_0000);
    ZerosAreEmpty(0x2000_0000);
    assert 0 !in Members(s);
  }

  // ---- the in-place operations

  method Set(a: array<bv8>, k: nat)
    requires k < 8 * a.Length
    modifies a
    ensures a[..] == WithBit(old(a[..]), k)
    ensures Members(a[..]) == Members(old(a[..])) + {k}
  {
    BitsAreASet(a[..], k);
    a[k / 8] := Raised(a[k / 8], k % 8);
  }

  method Clear(a: array<bv8>, k: nat)
    requires k < 8 * a.Length
    modifies a
    ensures a[..] == WithoutBit(old(a[..]), k)
    ensures Members(a[..]) == Members(old(a[..])) - {k}
  {
    BitsAreASet(a[..], k);
    a[k / 8] := Lowered(a[k / 8], k % 8);
  }

  method TestAndSet(a: array<bv8>) returns (r: nat)
    modifies a
    ensures Taken(a[..], r) == Take(old(a[..]))
  {
    var i := 0;
    var n := 8 * a.Length % UINT32;
    while i < n
      invariant 0 <= i <= n
      invariant a[..] == old(a[..])
      invariant forall j: nat :: j < i ==> Test(a[..], j)
    {
      if !Test(a[..], i) {
        Set(a, i);
        return i + 1;
      }
      i := i + 1;
    }
    return i + 1;
  }
}
