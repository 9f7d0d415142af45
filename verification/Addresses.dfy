/** IPv4 numbers, subnets and the text the daemons build store keys from. */
module Addresses {
  import opened Store
  import opened Words

  /** net.IPNet as ParseCIDR returns it: the base address is masked. */
  datatype Subnet = Subnet(base: nat, ones: nat) {
    predicate Valid() {
      ones <= 32 && base < UINT32 && LowZero(base, 32 - ones)
    }

    /** 2^(32-ones) addresses; exact in the float64 that util.IPCount returns. */
    function Size(): (size: nat)
      ensures size >= 1
    {
      if ones <= 32 then Pow2(32 - ones) else 1
    }

    predicate Contains(addr: nat) {
      base <= addr < base + Size()
    }

    /** The number of bytes RequestIP makes for a fresh bitmap. */
    function Bytes(): nat {
      Size() / 8 + if Size() % 8 != 0 then 1 else 0
    }

    function Text(): string {
      Dotted(base) + "/" + Decimal(ones)
    }
  }

  /** net.IP.Mask with a prefix mask. */
  function Masked(addr: nat, ones: nat): nat
    requires ones <= 32
  {
    ClearLow(addr, 32 - ones)
  }

  // ---- decimal text

  function Digit(d: nat): char
    requires d < 10
  {
    ('0' as int + d) as char
  }

  function Decimal(n: nat): string {
    if n < 10 then [Digit(n)] else Decimal(n / 10) + [Digit(n % 10)]
  }

  predicate Digits(s: string) {
    forall i :: 0 <= i < |s| ==> '0' <= s[i] <= '9'
  }

  function Number(s: string): nat
    requires Digits(s)
  {
    if s == [] then 0 else 10 * Number(s[..|s| - 1]) + (s[|s| - 1] as int - '0' as int)
  }

  /** One decimal field of the address parser: digits only, leading zeros allowed. */
  function ParseField(s: string, limit: nat): Option<nat> {
    if s != [] && Digits(s) && Number(s) <= limit then Some(Number(s)) else None
  }

  lemma {:induction false} DecimalIsNumber(n: nat)
    ensures Decimal(n) != [] && Digits(Decimal(n)) && Number(Decimal(n)) == n
  {
    if n >= 10 {
      DecimalIsNumber(n / 10);
      assert Decimal(n)[..|Decimal(n)| - 1] == Decimal(n / 10);
    }
  }

  // ---- dotted quads

  /** Byte i of four, the most significant first. */
  function Octet(addr: nat, i: nat): (o: nat)
    requires i < 4
    ensures o <= 255
    decreases 3 - i, addr
  {
    if i == 3 then addr % 256 else Octet(addr / 256, i + 1)
  }

  /** One byte more. */
  function Join(x: nat, y: nat): nat {
    256 * x + y
  }

  function FromOctets(a: nat, b: nat, c: nat, d: nat): nat {
    Join(Join(Join(a, b), c), d)
  }

  function Quad(a: string, b: string, c: string, d: string): string {
    a + "." + (b + "." + (c + "." + d))
  }

  /** net.IP.String on four bytes. */
  function Dotted(addr: nat): string {
    Quad(Decimal(Octet(addr, 0)), Decimal(Octet(addr, 1)), Decimal(Octet(addr, 2)), Decimal(Octet(addr, 3)))
  }

  function IndexOf(s: string, c: char): (i: nat)
    ensures i <= |s|
    ensures i < |s| ==> s[i] == c
    ensures forall j :: 0 <= j < i ==> s[j] != c
  {
    if s == [] || s[0] == c then 0 else 1 + IndexOf(s[1..], c)
  }

  function Split(s: string, c: char): seq<string>
    decreases |s|
  {
    var i := IndexOf(s, c);
    if i == |s| then [s] else [s[..i]] + Split(s[i + 1..], c)
  }

  /** The four fields of a dotted quad. */
  function FromFields(f: seq<string>): Option<nat> {
    if |f| != 4 then None
    else
      match (ParseField(f[0], 255), ParseField(f[1], 255), ParseField(f[2], 255), ParseField(f[3], 255))
      case (Some(a), Some(b), Some(c), Some(d)) => Some(FromOctets(a, b, c, d))
      case _ => None
  }

  /** net.ParseIP on dotted quads, as Go 1.5 reads them. */
  function ParseIPv4(s: string): Option<nat> {
    FromFields(Split(s, '.'))
  }

  /** The subnet half of net.ParseCIDR. */
  function ParseCIDR(s: string): Option<Subnet> {
    var i := IndexOf(s, '/');
    if i == |s| then None
    else
      match (ParseIPv4(s[..i]), ParseField(s[i + 1..], 32))
      case (Some(ip), Some(ones)) => Some(Subnet(Masked(ip, ones), ones))
      case _ => None
  }

  /** Its address half, which netlink.ParseIPNet keeps. */
  function ParseCIDRAddr(s: string): Option<nat> {
    var i := IndexOf(s, '/');
    if i == |s| then None
    else
      match (ParseIPv4(s[..i]), ParseField(s[i + 1..], 32))
      case (Some(ip), Some(_)) => Some(ip)
      case _ => None
  }

  lemma IndexAfter(a: string, c: char, b: string)
    requires c !in a
    ensures IndexOf(a + [c] + b, c) == |a|
    ensures (a + [c] + b)[..|a|] == a && (a + [c] + b)[|a| + 1..] == b
  {
    var s := a + [c] + b;
    assert s[|a|] == c && forall j :: 0 <= j < |a| ==> s[j] == a[j];
  }

  lemma SplitStep(a: string, c: char, b: string)
    requires c !in a
    ensures Split(a + [c] + b, c) == [a] + Split(b, c)
  {
    IndexAfter(a, c, b);
  }

  lemma PairSplits(c: string, d: string)
    requires Digits(c) && Digits(d)
    ensures Split(c + "." + d, '.') == [c, d]
  {
    SplitStep(c, '.', d);
  }

  lemma TripleSplits(b: string, c: string, d: string)
    requires Digits(b) && Digits(c) && Digits(d)
    ensures Split(b + "." + (c + "." + d), '.') == [b, c, d]
  {
    SplitStep(b, '.', c + "." + d);
    PairSplits(c, d);
  }

  /** Four decimal fields joined by dots are read back as those four fields. */
  lemma QuadSplits(a: string, b: string, c: string, d: string)
    requires Digits(a) && Digits(b) && Digits(c) && Digits(d)
    ensures Split(Quad(a, b, c, d), '.') == [a, b, c, d]
  {
    SplitStep(a, '.', b + "." + (c + "." + d));
    TripleSplits(b, c, d);
  }

  lemma OctetValues(addr: nat, q: nat, r: nat, p: nat)
    requires q == addr / 256 && r == q / 256 && p == r / 256
    ensures Octet(addr, 2) == q % 256 && Octet(addr, 1) == r % 256 && Octet(addr, 0) == p % 256
  {
    assert Octet(addr, 2) == Octet(q, 3);
    assert Octet(addr, 1) == Octet(q, 2) == Octet(r, 3);
    assert Octet(addr, 0) == Octet(q, 1) == Octet(r, 2) == Octet(p, 3);
  }

  lemma JoinQuotient(x: nat)
    ensures Join(x / 256, x % 256) == x
  {
  }

  lemma SmallQuotient(x: nat)
    requires x < UINT32
    ensures x / 256 / 256 / 256 < 256
  {
  }

  lemma OctetsJoin(addr: nat)
    requires addr < UINT32
    ensures Join(Join(Octet(addr, 0), Octet(addr, 1)), Octet(addr, 2)) == addr / 256
  {
    var q := addr / 256;
    var r := q / 256;
    SmallQuotient(addr);
    OctetValues(addr, q, r, r / 256);
    JoinQuotient(r);
    JoinQuotient(q);
  }

  lemma OctetsRebuild(addr: nat, d: nat)
    requires addr < UINT32
    ensures FromOctets(Octet(addr, 0), Octet(addr, 1), Octet(addr, 2), d) == addr - addr % 256 + d
  {
    OctetsJoin(addr);
    JoinQuotient(addr);
  }

  /** The four octets of an address make the address. */
  lemma OctetsExact(addr: nat)
    requires addr < UINT32
    ensures FromOctets(Octet(addr, 0), Octet(addr, 1), Octet(addr, 2), Octet(addr, 3)) == addr
  {
    OctetsRebuild(addr, Octet(addr, 3));
  }

  lemma FieldsRebuild(x: string, y: string, z: string, last: string, a: nat, b: nat, c: nat)
    requires Digits(x) && Digits(y) && Digits(z) && Digits(last) && last != []
    requires ParseField(x, 255) == Some(a) && ParseField(y, 255) == Some(b) && ParseField(z, 255) == Some(c)
    ensures ParseIPv4(Quad(x, y, z, last))
         == if Number(last) <= 255 then Some(FromOctets(a, b, c, Number(last))) else None
  {
    QuadSplits(x, y, z, last);
  }

  /** Three octets in decimal and any digits as the last field. */
  lemma QuadParses(a: nat, b: nat, c: nat, last: string)
    requires a <= 255 && b <= 255 && c <= 255 && Digits(last) && last != []
    ensures ParseIPv4(Quad(Decimal(a), Decimal(b), Decimal(c), last))
         == if Number(last) <= 255 then Some(FromOctets(a, b, c, Number(last))) else None
  {
    DecimalIsNumber(a);
    DecimalIsNumber(b);
    DecimalIsNumber(c);
    FieldsRebuild(Decimal(a), Decimal(b), Decimal(c), last, a, b, c);
  }

  lemma DottedRoundTrip(addr: nat)
    requires addr < UINT32
    ensures ParseIPv4(Dotted(addr)) == Some(addr)
  {
    OctetsExact(addr);
    QuadTextParses(Dotted(addr), Octet(addr, 0), Octet(addr, 1), Octet(addr, 2), Octet(addr, 3), addr);
  }

  lemma QuadTextParses(text: string, a: nat, b: nat, c: nat, d: nat, addr: nat)
    requires a <= 255 && b <= 255 && c <= 255 && d <= 255 && FromOctets(a, b, c, d) == addr
    requires text == Quad(Decimal(a), Decimal(b), Decimal(c), Decimal(d))
    ensures ParseIPv4(text) == Some(addr)
  {
    QuadRoundTrip(a, b, c, d);
  }

  lemma QuadRoundTrip(a: nat, b: nat, c: nat, d: nat)
    requires a <= 255 && b <= 255 && c <= 255 && d <= 255
    ensures ParseIPv4(Quad(Decimal(a), Decimal(b), Decimal(c), Decimal(d))) == Some(FromOctets(a, b, c, d))
  {
    DecimalIsNumber(d);
    QuadParses(a, b, c, Decimal(d));
  }

  lemma QuadHasNoSlash(addr: nat)
    ensures '/' !in Dotted(addr)
  {
    DecimalIsNumber(Octet(addr, 0));
    DecimalIsNumber(Octet(addr, 1));
    DecimalIsNumber(Octet(addr, 2));
    DecimalIsNumber(Octet(addr, 3));
  }

  /** Masking any address of a subnet gives back its base. */
  lemma MaskedInside(n: Subnet, addr: nat)
    requires n.Valid() && n.Contains(addr)
    ensures Masked(addr, n.ones) == n.base
  {
    ClearLowInBlock(n.base, addr, 32 - n.ones);
  }

  /** The block an address lies in is a subnet. */
  lemma MaskedSubnet(addr: nat, ones: nat)
    requires addr < UINT32 && ones <= 32
    ensures var m := Subnet(Masked(addr, ones), ones); m.Valid() && m.Contains(addr)
  {
    ClearLowAligned(addr, 32 - ones);
    ClearLowIsBlock(addr, addr, 32 - ones);
  }

  /** Masking an address gives the base of exactly the subnet it lies in. */
  lemma MaskedExactly(n: Subnet, addr: nat)
    requires n.Valid() && addr < UINT32
    ensures Masked(addr, n.ones) == n.base <==> n.Contains(addr)
  {
    MaskedSubnet(addr, n.ones);
    if n.Contains(addr) {
      MaskedInside(n, addr);
    }
  }
}
