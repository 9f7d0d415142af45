/** CIDR overlap (section 3.1 of RFC 4632) and the choice of a subnet no route touches:
    util/util.go and GetAvailableSubnet of server/network.go. */
module Routes {
  import opened Words
  import opened MaskBytes
  import opened Store
  import opened Addresses
  import opened Keys

  /** A net.IPNet whose address need not be masked, as netlink may report it. */
  datatype IPNet = IPNet(ip: nat, ones: nat) {
    predicate Valid() {
      ones <= 32
    }

    /** NetworkRange: the address with the host bits cleared, and with them all set. */
    function First(): nat
      requires Valid()
    {
      Masked(ip, ones)
    }

    function Last(): nat
      requires Valid()
    {
      First() + (Pow2(32 - ones) - 1)
    }

    /** The subnet ParseCIDR makes of address and prefix. */
    function Network(): Subnet
      requires Valid()
    {
      Subnet(First(), ones)
    }

    /** net.IPNet.Contains, which masks both sides. */
    predicate Contains(x: nat)
      requires Valid()
    {
      Masked(ip, ones) == Masked(x, ones)
    }
  }

  predicate NetworkOverlaps(x: IPNet, y: IPNet)
    requires x.Valid() && y.Valid()
  {
    y.Contains(x.First()) || x.Contains(y.First())
  }

  ghost predicate ShareAddress(x: IPNet, y: IPNet)
    requires x.Valid() && y.Valid()
  {
    exists a :: x.Contains(a) && y.Contains(a)
  }

  // ---- range and overlap

  /** NetworkRange gives the bounds: an address is in the network exactly when it lies
      between the first and the last. */
  lemma RangeIsNetwork(n: IPNet, x: nat)
    requires n.Valid()
    ensures n.Contains(x) <==> n.First() <= x <= n.Last()
  {
    ClearLowIsBlock(n.ip, x, 32 - n.ones);
  }

  /** How many of the first k bytes' low bits a prefix mask leaves clear. */
  function HostBits(ones: nat, k: nat): nat {
    if ones >= 8 * k then 0 else 8 * k - ones
  }

  /** The host bits of one more byte. */
  function ByteBits(ones: nat, k: nat): (h: nat)
    ensures h <= 8
  {
    if HostBits(ones, k + 1) < 8 then HostBits(ones, k + 1) else 8
  }

  lemma WithinByte(q: nat, r: nat, h: nat)
    requires h <= 8
    ensures ClearLow(256 * q + r, h) == 256 * q + ClearLow(r, h)
  {
    ShiftedByte(q);
    LowZeroFewer(256 * q, 8, h);
    ClearLowSum(256 * q, r, h);
  }

  lemma BeyondByte(q: nat, r: nat, h: nat)
    requires r < 256
    ensures ClearLow(256 * q + r, 8 + h) == 256 * ClearLow(q, h)
  {
    ClearLowByte(256 * q + r, h);
  }

  /** One more byte of the masked address. */
  lemma NextByte(q: nat, r: nat, ones: nat, k: nat)
    requires r < 256
    ensures ClearLow(256 * q + r, HostBits(ones, k + 1))
         == 256 * ClearLow(q, HostBits(ones, k)) + ClearLow(r, ByteBits(ones, k))
  {
    var h := HostBits(ones, k + 1);
    if h <= 8 {
      WithinByte(q, r, h);
      assert HostBits(ones, k) == 0;
    } else {
      BeyondByte(q, r, h - 8);
      BeyondByte(0, r, 0);
      assert ClearLow(r, 8) == 0;
    }
  }

  lemma NextSpan(ones: nat, k: nat)
    ensures 256 * (Pow2(HostBits(ones, k)) - 1) + Pow2(ByteBits(ones, k)) == Pow2(HostBits(ones, k + 1))
  {
    var h := HostBits(ones, k + 1);
    if h <= 8 {
      assert Pow2(HostBits(ones, k)) == 1;
    } else {
      Pow2Values();
      Pow2Doubles(h - 8);
    }
  }

  /** Byte i of the range: with its host bits cleared, and with them set. */
  function FirstByte(x: nat, ones: nat, i: nat): nat {
    ClearLow(x, ByteBits(ones, i))
  }

  function LastByte(x: nat, ones: nat, i: nat): nat {
    ClearLow(x, ByteBits(ones, i)) + (Pow2(ByteBits(ones, i)) - 1)
  }

  /** first and last are the range of the first k bytes, which spell value. */
  predicate IsRange(value: nat, first: nat, last: nat, ones: nat, k: nat) {
    first == ClearLow(value, HostBits(ones, k)) && last == first + (Pow2(HostBits(ones, k)) - 1)
  }

  lemma RangeStep(value: nat, first: nat, last: nat, x: nat, ones: nat, k: nat)
    requires x < 256 && IsRange(value, first, last, ones, k)
    ensures IsRange(Join(value, x), Join(first, FirstByte(x, ones, k)), Join(last, LastByte(x, ones, k)), ones, k + 1)
  {
    NextByte(value, x, ones, k);
    NextSpan(ones, k);
  }

  /** The four bytes of each end of the range. */
  lemma RangeOfFour(a: nat, b: nat, c: nat, d: nat, ones: nat)
    requires a < 256 && b < 256 && c < 256 && d < 256
    ensures IsRange(FromOctets(a, b, c, d),
                    FromOctets(FirstByte(a, ones, 0), FirstByte(b, ones, 1),
                               FirstByte(c, ones, 2), FirstByte(d, ones, 3)),
                    FromOctets(LastByte(a, ones, 0), LastByte(b, ones, 1), LastByte(c, ones, 2), LastByte(d, ones, 3)),
                    ones, 4)
  {
    assert IsRange(0, 0, 0, ones, 0);
    RangeStep(0, 0, 0, a, ones, 0);
    var f1, l1 := FirstByte(a, ones, 0), LastByte(a, ones, 0);
    RangeStep(a, f1, l1, b, ones, 1);
    var f2, l2 := Join(f1, FirstByte(b, ones, 1)), Join(l1, LastByte(b, ones, 1));
    RangeStep(Join(a, b), f2, l2, c, ones, 2);
    RangeStep(Join(Join(a, b), c), Join(f2, FirstByte(c, ones, 2)), Join(l2, LastByte(c, ones, 2)), d, ones, 3);
  }

  /** The number that four bytes spell. */
  function Spelled(b: seq<bv8>): nat
    requires |b| == 4
  {
    FromOctets(Value(b[0]), Value(b[1]), Value(b[2]), Value(b[3]))
  }

  lemma RangeEnds(value: nat, first: nat, last: nat, ones: nat)
    requires ones <= 32 && IsRange(value, first, last, ones, 4)
    ensures first == IPNet(value, ones).First() && last == IPNet(value, ones).Last()
  {
    assert HostBits(ones, 4) == 32 - ones;
  }

  /** Masked bytes are bytes with their host bits cleared and set. */
  predicate IsMasked(x: bv8, first: bv8, last: bv8, ones: nat, i: nat) {
    first == x & MaskByte(ByteBits(ones, i)) && last == x | !MaskByte(ByteBits(ones, i))
  }

  lemma MaskedByteEnds(x: bv8, first: bv8, last: bv8, ones: nat, i: nat)
    requires IsMasked(x, first, last, ones, i)
    ensures Value(first) == FirstByte(Value(x), ones, i) && Value(last) == LastByte(Value(x), ones, i)
  {
    MaskValues(x, ByteBits(ones, i));
  }

  lemma BytesSpelled(ip: seq<bv8>, first: seq<bv8>, last: seq<bv8>, ones: nat)
    requires |ip| == |first| == |last| == 4 && ones <= 32
    requires forall k :: 0 <= k < 4 ==> IsMasked(ip[k], first[k], last[k], ones, k)
    ensures Spelled(first) == IPNet(Spelled(ip), ones).First() && Spelled(last) == IPNet(Spelled(ip), ones).Last()
  {
    MaskedByteEnds(ip[0], first[0], last[0], ones, 0);
    MaskedByteEnds(ip[1], first[1], last[1], ones, 1);
    MaskedByteEnds(ip[2], first[2], last[2], ones, 2);
    MaskedByteEnds(ip[3], first[3], last[3], ones, 3);
    RangeOfFour(Value(ip[0]), Value(ip[1]), Value(ip[2]), Value(ip[3]), ones);
    RangeEnds(Spelled(ip), Spelled(first), Spelled(last), ones);
  }

  /** NetworkRange on the four bytes of the address: each byte and its mask byte, each byte or
      the complement of its mask byte. */
  method NetworkRange(ip: seq<bv8>, ones: nat) returns (firstIP: array<bv8>, lastIP: array<bv8>)
    requires |ip| == 4 && ones <= 32
    ensures fresh(firstIP) && fresh(lastIP) && firstIP.Length == lastIP.Length == 4
    ensures Spelled(firstIP[..]) == IPNet(Spelled(ip), ones).First()
    ensures Spelled(lastIP[..]) == IPNet(Spelled(ip), ones).Last()
  {
    firstIP := new bv8[4];
    lastIP := new bv8[4];
    var i := 0;
    while i < 4
      invariant 0 <= i <= 4
      invariant forall k :: 0 <= k < i ==> IsMasked(ip[k], firstIP[k], lastIP[k], ones, k)
    {
      firstIP[i] := ip[i] & MaskByte(ByteBits(ones, i));
      lastIP[i] := ip[i] | !MaskByte(ByteBits(ones, i));
      i := i + 1;
    }
    BytesSpelled(ip, firstIP[..], lastIP[..], ones);
  }

  lemma FirstInside(n: IPNet)
    requires n.Valid()
    ensures n.Contains(n.First())
  {
    ClearLowTwice(n.ip, 32 - n.ones, 32 - n.ones);
  }

  /** If a common address exists, the block with the longer prefix starts in the other. */
  lemma LongerPrefixStartsInside(x: IPNet, y: IPNet, a: nat)
    requires x.Valid() && y.Valid() && x.ones <= y.ones && x.Contains(a) && y.Contains(a)
    ensures x.Contains(y.First())
  {
    ClearLowTwice(y.ip, 32 - y.ones, 32 - x.ones);
    ClearLowTwice(a, 32 - y.ones, 32 - x.ones);
  }

  /** NetworkOverlaps holds exactly when the two blocks have an address in common. */
  lemma OverlapIsSharing(x: IPNet, y: IPNet)
    requires x.Valid() && y.Valid()
    ensures NetworkOverlaps(x, y) <==> ShareAddress(x, y)
  {
    FirstInside(x);
    FirstInside(y);
    if ShareAddress(x, y) {
      var a :| x.Contains(a) && y.Contains(a);
      if x.ones <= y.ones {
        LongerPrefixStartsInside(x, y, a);
      } else {
        LongerPrefixStartsInside(y, x, a);
      }
    }
  }

  // ---- the choice of a subnet

  /** The answer of netlink.RouteList: an error, or routes that may lack a destination. */
  type Routing = Option<seq<Option<IPNet>>>

  ghost predicate ValidRoutes(routes: Routing) {
    routes.Some? ==> forall r :: r in routes.value && r.Some? ==> r.value.Valid()
  }

  /** A readable route list none of whose destinations has an address in the network. */
  ghost predicate Clear(n: IPNet, routes: Routing)
    requires n.Valid() && ValidRoutes(routes)
  {
    routes.Some? && forall r :: r in routes.value && r.Some? ==> !ShareAddress(n, r.value)
  }

  method Overlaps(x: IPNet, y: IPNet) returns (r: bool)
    requires x.Valid() && y.Valid()
    ensures r <==> ShareAddress(x, y)
  {
    OverlapIsSharing(x, y);
    r := NetworkOverlaps(x, y);
  }

  method CheckRouteOverlaps(n: IPNet, routes: Routing) returns (ok: bool)
    requires n.Valid() && ValidRoutes(routes)
    ensures ok <==> Clear(n, routes)
  {
    if routes.None? {
      return false;
    }
    var i := 0;
    while i < |routes.value|
      invariant 0 <= i <= |routes.value|
      invariant forall k :: 0 <= k < i && routes.value[k].Some? ==> !ShareAddress(n, routes.value[k].value)
    {
      var dst := routes.value[i];
      if dst.Some? {
        var overlap := Overlaps(n, dst.value);
        if overlap {
          return false;
        }
      }
      i := i + 1;
    }
    return true;
  }

  /** The gatewayAddrs, ... */
  const GATEWAY_ADDRS: seq<string> := [
    "10.1.42.1/16", "10.42.42.1/16", "172.16.42.1/24", "172.16.43.1/24",
    "172.16.44.1/24", "10.0.42.1/24", "10.0.43.1/24", "172.17.42.1/16",
    "10.0.42.1/16", "192.168.42.1/24", "192.168.43.1/24", "192.168.44.1/24"]

  /** ... and the networks they are to stand for: 10.1.0.0/16, 10.42.0.0/16, and so on. */
  const CANDIDATES: seq<Subnet> := [
    Subnet(0x0A01_0000, 16), Subnet(0x0A2A_0000, 16), Subnet(0xAC10_2A00, 24), Subnet(0xAC10_2B00, 24),
    Subnet(0xAC10_2C00, 24), Subnet(0x0A00_2A00, 24), Subnet(0x0A00_2B00, 24), Subnet(0xAC11_0000, 16),
    Subnet(0x0A00_0000, 16), Subnet(0xC0A8_2A00, 24), Subnet(0xC0A8_2B00, 24), Subnet(0xC0A8_2C00, 24)]

  /** A text is the dotted quad a.b.c.d and a prefix length. */
  predicate Spells(text: string, a: nat, b: nat, c: nat, d: nat, ones: nat) {
    text == Quad(Decimal(a), Decimal(b), Decimal(c), Decimal(d)) + "/" + Decimal(ones)
  }

  lemma NoSlash(a: nat, b: nat, c: nat, d: nat)
    ensures '/' !in Quad(Decimal(a), Decimal(b), Decimal(c), Decimal(d))
  {
    DecimalIsNumber(a);
    DecimalIsNumber(b);
    DecimalIsNumber(c);
    DecimalIsNumber(d);
  }

  lemma MaskedByte(q: nat, r: nat)
    requires r < 256
    ensures Masked(Join(q, r), 24) == Join(q, 0)
    ensures Masked(Join(q, r), 16) == 256 * Masked(q, 24)
  {
    BeyondByte(q, r, 0);
    BeyondByte(q, r, 8);
  }

  /** Two mask lengths of whole bytes. */
  lemma MaskedQuad(a: nat, b: nat, c: nat, d: nat)
    requires a <= 255 && b <= 255 && c <= 255 && d <= 255
    ensures Masked(FromOctets(a, b, c, d), 24) == FromOctets(a, b, c, 0)
    ensures Masked(FromOctets(a, b, c, d), 16) == FromOctets(a, b, 0, 0)
  {
    MaskedByte(Join(Join(a, b), c), d);
    MaskedByte(Join(a, b), c);
  }

  /** What such a text is read as. */
  lemma Reads(text: string, a: nat, b: nat, c: nat, d: nat, ones: nat)
    requires a <= 255 && b <= 255 && c <= 255 && d <= 255 && (ones == 16 || ones == 24)
    requires Spells(text, a, b, c, d, ones)
    ensures ParseCIDR(text) == Some(Subnet(FromOctets(a, b, if ones == 16 then 0 else c, 0), ones))
  {
    var quad := Quad(Decimal(a), Decimal(b), Decimal(c), Decimal(d));
    NoSlash(a, b, c, d);
    QuadRoundTrip(a, b, c, d);
    CIDRParses(quad, ones);
    MaskedQuad(a, b, c, d);
  }

  lemma SmallDecimals()
    ensures Decimal(0) == "0" && Decimal(1) == "1" && Decimal(10) == "10"
    ensures Decimal(16) == "16" && Decimal(17) == "17" && Decimal(24) == "24"
    ensures Decimal(42) == "42" && Decimal(43) == "43" && Decimal(44) == "44"
    ensures Decimal(168) == "168" && Decimal(172) == "172" && Decimal(192) == "192"
  {
  }

  /** The text is read as the network. */
  lemma ReadsAs(text: string, n: Subnet, a: nat, b: nat, c: nat, d: nat, ones: nat)
    requires a <= 255 && b <= 255 && c <= 255 && d <= 255 && (ones == 16 || ones == 24)
    requires Spells(text, a, b, c, d, ones) && n == Subnet(FromOctets(a, b, if ones == 16 then 0 else c, 0), ones)
    ensures ParseCIDR(text) == Some(n)
  {
    Reads(text, a, b, c, d, ones);
  }

  lemma FirstThree(text: string, n: Subnet, k: nat)
    requires k < 3 && text == GATEWAY_ADDRS[k] && n == CANDIDATES[k]
    ensures ParseCIDR(text) == Some(n)
  {
    SmallDecimals();
    if k == 0 {
      ReadsAs(text, n, 10, 1, 42, 1, 16);
    } else if k == 1 {
      ReadsAs(text, n, 10, 42, 42, 1, 16);
    } else {
      ReadsAs(text, n, 172, 16, 42, 1, 24);
    }
  }

  lemma SecondThree(text: string, n: Subnet, k: nat)
    requires 3 <= k < 6 && text == GATEWAY_ADDRS[k] && n == CANDIDATES[k]
    ensures ParseCIDR(text) == Some(n)
  {
    SmallDecimals();
    if k == 3 {
      ReadsAs(text, n, 172, 16, 43, 1, 24);
    } else if k == 4 {
      ReadsAs(text, n, 172, 16, 44, 1, 24);
    } else {
      ReadsAs(text, n, 10, 0, 42, 1, 24);
    }
  }

  lemma ThirdThree(text: string, n: Subnet, k: nat)
    requires 6 <= k < 9 && text == GATEWAY_ADDRS[k] && n == CANDIDATES[k]
    ensures ParseCIDR(text) == Some(n)
  {
    SmallDecimals();
    if k == 6 {
      ReadsAs(text, n, 10, 0, 43, 1, 24);
    } else if k == 7 {
      ReadsAs(text, n, 172, 17, 42, 1, 16);
    } else {
      ReadsAs(text, n, 10, 0, 42, 1, 16);
    }
  }

  lemma LastThree(text: string, n: Subnet, k: nat)
    requires 9 <= k < 12 && text == GATEWAY_ADDRS[k] && n == CANDIDATES[k]
    ensures ParseCIDR(text) == Some(n)
  {
    SmallDecimals();
    if k == 9 {
      ReadsAs(text, n, 192, 168, 42, 1, 24);
    } else if k == 10 {
      ReadsAs(text, n, 192, 168, 43, 1, 24);
    } else {
      ReadsAs(text, n, 192, 168, 44, 1, 24);
    }
  }

  /** net.ParseCIDR makes the candidates of the texts, in their order. */
  lemma CandidatesParsed()
    ensures |GATEWAY_ADDRS| == |CANDIDATES| == 12
    ensures forall k :: 0 <= k < |GATEWAY_ADDRS| ==> ParseCIDR(GATEWAY_ADDRS[k]) == Some(CANDIDATES[k])
  {
    forall k | 0 <= k < |GATEWAY_ADDRS|
      ensures ParseCIDR(GATEWAY_ADDRS[k]) == Some(CANDIDATES[k])
    {
      CandidateParsed(GATEWAY_ADDRS[k], CANDIDATES[k], k);
    }
  }

  lemma CandidateParsed(text: string, n: Subnet, k: nat)
    requires k < |GATEWAY_ADDRS| && text == GATEWAY_ADDRS[k] && n == CANDIDATES[k]
    ensures ParseCIDR(text) == Some(n)
  {
    if k < 3 {
      FirstThree(text, n, k);
    } else if k < 6 {
      SecondThree(text, n, k);
    } else if k < 9 {
      ThirdThree(text, n, k);
    } else {
      LastThree(text, n, k);
    }
  }

  /** The text stands for a network that is clear of the routes. */
  ghost predicate ClearText(text: string, routes: Routing)
    requires ValidRoutes(routes)
  {
    ParseCIDR(text).Some? && Clear(IPNet(ParseCIDR(text).value.base, ParseCIDR(text).value.ones), routes)
  }

  ghost predicate IsFirstClear(texts: seq<string>, routing: seq<Routing>, i: nat)
    requires |routing| == |texts| && forall k :: 0 <= k < |routing| ==> ValidRoutes(routing[k])
  {
    && i < |texts| && ClearText(texts[i], routing[i])
    && forall k :: 0 <= k < i ==> !ClearText(texts[k], routing[k])
  }

  /** GetAvailableSubnet asks for the routes once per candidate. It returns the network of the
      first text that is clear of the routes it then saw, and fails at a text that is no subnet
      or if none is clear. */
  method FirstClear(texts: seq<string>, routing: seq<Routing>) returns (r: Option<Subnet>)
    requires |routing| == |texts| && forall k :: 0 <= k < |routing| ==> ValidRoutes(routing[k])
    ensures r.Some? ==> exists i: nat :: IsFirstClear(texts, routing, i) && r == ParseCIDR(texts[i])
    ensures (forall k :: 0 <= k < |texts| ==> ParseCIDR(texts[k]).Some?) ==>
              (r.None? <==> forall k :: 0 <= k < |texts| ==> !ClearText(texts[k], routing[k]))
  {
    for i := 0 to |texts|
      invariant forall k :: 0 <= k < i ==> !ClearText(texts[k], routing[k])
    {
      var network := ParseCIDR(texts[i]);
      if network.None? {
        return None;
      }
      var ok := CheckRouteOverlaps(IPNet(network.value.base, network.value.ones), routing[i]);
      if ok {
        assert IsFirstClear(texts, routing, i);
        return network;
      }
    }
    return None;
  }

  /** Network k is clear of the routes seen when its turn comes. */
  ghost predicate Available(nets: seq<Subnet>, routing: seq<Routing>, k: nat)
    requires k < |routing| == |nets| && ValidRoutes(routing[k])
  {
    nets[k].ones <= 32 && Clear(IPNet(nets[k].base, nets[k].ones), routing[k])
  }

  /** r is the first network that is available, or none; the first of all on a node without
      routes. */
  ghost predicate Chosen(nets: seq<Subnet>, routing: seq<Routing>, r: Option<Subnet>)
    requires |routing| == |nets| && forall k :: 0 <= k < |routing| ==> ValidRoutes(routing[k])
  {
    && (r.None? <==> forall k :: 0 <= k < |nets| ==> !Available(nets, routing, k))
    && (r.Some? ==> exists i: nat :: FirstAvailable(nets, routing, i) && r.value == nets[i])
    && (nets != [] && (forall k :: 0 <= k < |nets| ==> routing[k] == Some([])) ==> r == Some(nets[0]))
  }

  ghost predicate FirstAvailable(nets: seq<Subnet>, routing: seq<Routing>, i: nat)
    requires |routing| == |nets| && forall k :: 0 <= k < |routing| ==> ValidRoutes(routing[k])
  {
    i < |nets| && Available(nets, routing, i) && forall k :: 0 <= k < i ==> !Available(nets, routing, k)
  }

  lemma TextClear(text: string, n: Subnet, routes: Routing)
    requires ValidRoutes(routes) && ParseCIDR(text) == Some(n)
    ensures n.ones <= 32 && (ClearText(text, routes) <==> Clear(IPNet(n.base, n.ones), routes))
  {
  }

  /** Choosing among the texts is choosing among their networks. */
  lemma ChosenByText(texts: seq<string>, nets: seq<Subnet>, routing: seq<Routing>, r: Option<Subnet>)
    requires |routing| == |nets| == |texts| && forall k :: 0 <= k < |routing| ==> ValidRoutes(routing[k])
    requires forall k :: 0 <= k < |texts| ==> ParseCIDR(texts[k]) == Some(nets[k])
    requires r.Some? ==> exists i: nat :: IsFirstClear(texts, routing, i) && r == ParseCIDR(texts[i])
    requires r.None? <==> forall k :: 0 <= k < |texts| ==> !ClearText(texts[k], routing[k])
    ensures Chosen(nets, routing, r)
  {
    forall k | 0 <= k < |texts|
      ensures ClearText(texts[k], routing[k]) <==> Available(nets, routing, k)
    {
      TextClear(texts[k], nets[k], routing[k]);
    }
    if r.Some? {
      var i: nat :| IsFirstClear(texts, routing, i) && r == ParseCIDR(texts[i]);
      assert FirstAvailable(nets, routing, i);
    }
    if nets != [] && routing[0] == Some([]) {
      TextClear(texts[0], nets[0], routing[0]);
      assert Available(nets, routing, 0);
    }
  }

  /** The first candidate that is clear, or none; on a node without routes 10.1.0.0/16. */
  method GetAvailableSubnet(routing: seq<Routing>) returns (r: Option<Subnet>)
    requires |routing| == |CANDIDATES| && forall k :: 0 <= k < |routing| ==> ValidRoutes(routing[k])
    ensures Chosen(CANDIDATES, routing, r)
    ensures (forall k :: 0 <= k < |routing| ==> routing[k] == Some([])) ==>
              r.Some? && r.value == Subnet(0x0A01_0000, 16) && r.value.Text() == "10.1.0.0/16"
  {
    CandidatesParsed();
    r := FirstClear(GATEWAY_ADDRS, routing);
    ChosenByText(GATEWAY_ADDRS, CANDIDATES, routing, r);
    if forall k :: 0 <= k < |routing| ==> routing[k] == Some([]) {
      NodeWithoutRoutes(CANDIDATES, routing, r);
    }
  }

  lemma SixteenBits(q: nat)
    ensures Octet(65536 * q, 3) == 0 && Octet(65536 * q, 2) == 0
    ensures Octet(65536 * q, 1) == q % 256 && Octet(65536 * q, 0) == q / 256 % 256
  {
    OctetValues(65536 * q, 256 * q, q, q / 256);
  }

  lemma TextOfSixteen(n: Subnet, a: nat, b: nat)
    requires a <= 255 && b <= 255 && n.ones == 16
    requires Octet(n.base, 0) == a && Octet(n.base, 1) == b && Octet(n.base, 2) == 0 && Octet(n.base, 3) == 0
    ensures Spells(n.Text(), a, b, 0, 0, 16)
  {
  }

  lemma FirstOctets(base: nat)
    requires base == 0x0A01_0000
    ensures Octet(base, 0) == 10 && Octet(base, 1) == 1 && Octet(base, 2) == 0 && Octet(base, 3) == 0
  {
    SixteenBits(0x0A01);
  }

  /** The network of the first text, as text. */
  lemma FirstText(n: Subnet)
    requires n == Subnet(0x0A01_0000, 16)
    ensures n.Text() == "10.1.0.0/16"
  {
    FirstOctets(n.base);
    TextOfSixteen(n, 10, 1);
    SmallDecimals();
  }

  /** What that choice is on a node whose route lists are readable and empty. */
  lemma NodeWithoutRoutes(nets: seq<Subnet>, routing: seq<Routing>, r: Option<Subnet>)
    requires nets == CANDIDATES && |routing| == |nets| && forall k :: 0 <= k < |routing| ==> routing[k] == Some([])
    requires Chosen(nets, routing, r)
    ensures r.Some? && r.value == Subnet(0x0A01_0000, 16) && r.value.Text() == "10.1.0.0/16"
  {
    assert r == Some(nets[0]);
    FirstText(r.value);
  }

  /** The key of its address bitmap under the first VNI. */
  lemma FirstKey(slot: Slot)
    requires slot == Ips(1, Subnet(0x0A01_0000, 16))
    ensures slot.Text() == "ipStore/1-10.1.0.0/16" && Vlans.Text() == "vlanStore/vlan"
  {
    FirstText(slot.subnet);
    KeyText(slot, "1", "10.1.0.0/16");
  }

  lemma KeyText(slot: Slot, vni: string, subnet: string)
    requires slot.Ips? && Decimal(slot.vni) == vni && slot.subnet.Text() == subnet
    ensures slot.Text() == "ipStore/" + (vni + "-" + subnet)
  {
  }
}
