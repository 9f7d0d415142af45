/** The keys of the ipStore, and the way a connection finds its key again from text. */
module Keys {
  import opened Store
  import opened Addresses
  import opened Words

  const VLAN_KEY := "vlanStore/vlan"

  /** ipStore/<VNI>-<subnet>. */
  function IpKey(vni: nat, n: Subnet): string {
    "ipStore/" + (Decimal(vni) + "-" + n.Text())
  }

  const VLAN_COUNT: nat := 1_000_000
  const VLAN_BYTES: nat := 125_000

  /** One bitmap of the store. Text gives its key. */
  datatype Slot = Vlans | Ips(vni: nat, subnet: Subnet) {
    function Bytes(): nat {
      match this
      case Vlans => VLAN_BYTES
      case Ips(_, n) => n.Bytes()
    }

    /** The bits TestAndSet can hand out: 8*len, cut to 32 bits. */
    function Bound(): nat {
      8 * Bytes() % UINT32
    }

    predicate Valid() {
      Ips? ==> subnet.Valid()
    }

    function Text(): string {
      match this
      case Vlans => VLAN_KEY
      case Ips(v, n) => IpKey(v, n)
    }
  }

  /** The least free bit of a slot, or its bound. */
  function FreeBit(taken: set<(Slot, nat)>, slot: Slot, k: nat): (r: nat)
    requires k <= slot.Bound()
    ensures k <= r <= slot.Bound()
    ensures r < slot.Bound() ==> (slot, r) !in taken
    ensures forall j: nat :: k <= j < r ==> (slot, j) in taken
    decreases slot.Bound() - k, taken
  {
    if k == slot.Bound() || (slot, k) !in taken then k else FreeBit(taken, slot, k + 1)
  }

  /** There is only one least free bit. */
  lemma FreeBitIs(taken: set<(Slot, nat)>, slot: Slot, k: nat)
    requires k <= slot.Bound() && (k < slot.Bound() ==> (slot, k) !in taken)
    requires forall j: nat :: j < k ==> (slot, j) in taken
    ensures FreeBit(taken, slot, 0) == k
  {
  }

  /** The three characters addConnection keeps of the subnet text. */
  function Suffix(n: Subnet): string
    requires n.Valid()
  {
    TextLength(n);
    n.Text()[|n.Text()| - 3..]
  }

  /** The subnet deleteConnection parses from the address text and the kept suffix. */
  function RebuiltSubnet(addr: nat, suffix: string): Option<Subnet> {
    ParseCIDR(Dotted(addr) + suffix)
  }

  /** The address the interface gets: SetInterfaceIp parses the same text. */
  function InterfaceAddr(addr: nat, suffix: string): Option<nat> {
    ParseCIDRAddr(Dotted(addr) + suffix)
  }

  // ---- subnet text

  lemma TextLength(n: Subnet)
    ensures |n.Text()| >= 9
  {
    DecimalIsNumber(Octet(n.base, 0));
    DecimalIsNumber(Octet(n.base, 1));
    DecimalIsNumber(Octet(n.base, 2));
    DecimalIsNumber(Octet(n.base, 3));
    DecimalIsNumber(n.ones);
  }

  /** A quad text that parses, followed by a prefix length, parses to the masked subnet. */
  lemma CIDRParses(quad: string, ones: nat)
    requires '/' !in quad && ones <= 32
    ensures ParseCIDR(quad + "/" + Decimal(ones))
         == match ParseIPv4(quad)
            case Some(ip) => Some(Subnet(Masked(ip, ones), ones))
            case None => None
  {
    IndexAfter(quad, '/', Decimal(ones));
    DecimalIsNumber(ones);
  }

  lemma SubnetRoundTrip(n: Subnet)
    requires n.Valid()
    ensures ParseCIDR(n.Text()) == Some(n)
  {
    QuadHasNoSlash(n.base);
    DottedRoundTrip(n.base);
    CIDRParses(Dotted(n.base), n.ones);
    MaskedInside(n, n.base);
  }

  /** Distinct networks never share an address bitmap, and none shares the VNI bitmap. */
  lemma IpKeyInjective(v: nat, n: Subnet, w: nat, m: Subnet)
    requires n.Valid() && m.Valid()
    ensures IpKey(v, n) == IpKey(w, m) <==> v == w && n == m
    ensures IpKey(v, n) != VLAN_KEY
  {
    assert IpKey(v, n)[0] != VLAN_KEY[0];
    if IpKey(v, n) == IpKey(w, m) {
      var s, t := Decimal(v) + "-" + n.Text(), Decimal(w) + "-" + m.Text();
      assert s == IpKey(v, n)[8..] && t == IpKey(w, m)[8..];
      DecimalIsNumber(v);
      DecimalIsNumber(w);
      IndexAfter(Decimal(v), '-', n.Text());
      IndexAfter(Decimal(w), '-', m.Text());
      SubnetRoundTrip(n);
      SubnetRoundTrip(m);
    }
  }

  /** Slots and store keys correspond one to one. */
  lemma SlotTextInjective(a: Slot, b: Slot)
    requires a.Valid() && b.Valid()
    ensures a.Text() == b.Text() <==> a == b
  {
    match (a, b)
    case (Ips(v, n), Ips(w, m)) => IpKeyInjective(v, n, w, m);
    case (Ips(v, n), Vlans) => IpKeyInjective(v, n, v, n);
    case (Vlans, Ips(w, m)) => IpKeyInjective(w, m, w, m);
    case (Vlans, Vlans) =>
  }

  // ---- finding the key again

  lemma SuffixTwoDigits(n: Subnet)
    requires n.Valid() && n.ones >= 10
    ensures Suffix(n) == "/" + Decimal(n.ones)
  {
    assert Decimal(n.ones) == [Digit(n.ones / 10), Digit(n.ones % 10)];
  }

  /** With one digit the cut reaches the last digit of the base address, which is a zero. */
  lemma SuffixOneDigit(n: Subnet)
    requires n.Valid() && n.ones < 10
    ensures Suffix(n) == "0/" + Decimal(n.ones)
  {
    BaseEndsInZero(n);
    var a, b, c := Decimal(Octet(n.base, 0)), Decimal(Octet(n.base, 1)), Decimal(Octet(n.base, 2));
    var front := a + "." + (b + "." + (c + "."));
    assert Decimal(Octet(n.base, 3)) == "0";
    assert n.Text() == front + "0" + "/" + Decimal(n.ones);
  }

  lemma BaseEndsInZero(n: Subnet)
    requires n.Valid() && n.ones < 10
    ensures n.base % 256 == 0
    ensures n.Size() % 256 == 0
  {
    LowByteZero(n.base, 32 - n.ones);
    WholeBytes(24 - n.ones);
  }

  lemma WholeBytes(h: nat)
    ensures Pow2(h + 8) % 256 == 0
  {
    Pow2Doubles(h);
    Multiple(Pow2(h));
  }

  lemma Multiple(x: nat)
    ensures 256 * x % 256 == 0
  {
  }

  /** Changing the last octet stays inside a block of whole 256-address runs. */
  lemma LastOctetFree(base: nat, size: nat, addr: nat, d: nat)
    requires base % 256 == 0 && size % 256 == 0 && base <= addr < base + size && d <= 255
    ensures base <= addr - addr % 256 + d < base + size
  {
  }

  lemma QuadExtends(a: string, b: string, c: string, d: string, x: string)
    ensures Quad(a, b, c, d + x) == Quad(a, b, c, d) + x
  {
    assert c + "." + (d + x) == (c + "." + d) + x;
    assert b + "." + ((c + "." + d) + x) == (b + "." + (c + "." + d)) + x;
  }

  lemma TimesTen(d: nat)
    ensures Digits(Decimal(d) + "0") && Number(Decimal(d) + "0") == 10 * d
  {
    DecimalIsNumber(d);
    assert (Decimal(d) + "0")[..|Decimal(d)|] == Decimal(d);
  }

  /** Appending a zero to the text multiplies the last octet by ten. */
  lemma AppendedZero(addr: nat)
    requires addr < UINT32
    ensures ParseIPv4(Dotted(addr) + "0")
         == if 10 * (addr % 256) <= 255 then Some(addr - addr % 256 + 10 * (addr % 256)) else None
  {
    OctetsRebuild(addr, 10 * (addr % 256));
    QuadZero(Octet(addr, 0), Octet(addr, 1), Octet(addr, 2), Octet(addr, 3));
  }

  lemma QuadZero(a: nat, b: nat, c: nat, d: nat)
    requires a <= 255 && b <= 255 && c <= 255
    ensures ParseIPv4(Quad(Decimal(a), Decimal(b), Decimal(c), Decimal(d)) + "0")
         == if 10 * d <= 255 then Some(FromOctets(a, b, c, 10 * d)) else None
  {
    TimesTen(d);
    QuadParses(a, b, c, Decimal(d) + "0");
    QuadExtends(Decimal(a), Decimal(b), Decimal(c), Decimal(d), "0");
  }

  /** The text deleteConnection builds is a subnet: the prefix length has two digits, or ten
      times the last octet still fits in an octet. */
  predicate Legible(n: Subnet, addr: nat) {
    n.ones >= 10 || 10 * (addr % 256) <= 255
  }

  lemma RebuiltTwoDigits(n: Subnet, addr: nat)
    requires n.Valid() && addr < UINT32 && n.ones >= 10
    ensures RebuiltSubnet(addr, Suffix(n)) == Some(Subnet(Masked(addr, n.ones), n.ones))
  {
    SuffixTwoDigits(n);
    QuadHasNoSlash(addr);
    DottedRoundTrip(addr);
    CIDRParses(Dotted(addr), n.ones);
    assert Dotted(addr) + Suffix(n) == Dotted(addr) + "/" + Decimal(n.ones);
  }

  /** A rebuilt text that is a quad and a prefix length. */
  lemma RebuiltParses(n: Subnet, addr: nat, quad: string, ip: Option<nat>)
    requires n.Valid() && Dotted(addr) + Suffix(n) == quad + "/" + Decimal(n.ones)
    requires '/' !in quad && ParseIPv4(quad) == ip
    ensures RebuiltSubnet(addr, Suffix(n)) == if ip.Some? then Some(Subnet(Masked(ip.value, n.ones), n.ones)) else None
  {
    CIDRParses(quad, n.ones);
  }

  lemma OneDigitText(n: Subnet, addr: nat)
    requires n.Valid() && n.ones < 10
    ensures Dotted(addr) + Suffix(n) == Dotted(addr) + "0" + "/" + Decimal(n.ones)
    ensures '/' !in Dotted(addr) + "0"
  {
    SuffixOneDigit(n);
    QuadHasNoSlash(addr);
  }

  /** A short prefix does not look at the last octet. */
  lemma OctetFreeMasks(addr: nat, ones: nat, d: nat)
    requires addr < UINT32 && ones < 10 && d <= 255
    ensures Masked(addr - addr % 256 + d, ones) == Masked(addr, ones)
  {
    var m := Subnet(Masked(addr, ones), ones);
    MaskedSubnet(addr, ones);
    BaseEndsInZero(m);
    LastOctetFree(m.base, m.Size(), addr, d);
    MaskedInside(m, addr - addr % 256 + d);
  }

  lemma RebuiltOneDigit(n: Subnet, addr: nat, ip: nat)
    requires n.Valid() && addr < UINT32 && n.ones < 10
    requires ip == addr - addr % 256 + 10 * (addr % 256) && 10 * (addr % 256) <= 255
    ensures RebuiltSubnet(addr, Suffix(n)) == Some(Subnet(Masked(ip, n.ones), n.ones))
  {
    OneDigitText(n, addr);
    AppendedZero(addr);
    RebuiltParses(n, addr, Dotted(addr) + "0", Some(ip));
  }

  lemma RebuiltIllegible(n: Subnet, addr: nat)
    requires n.Valid() && addr < UINT32 && !Legible(n, addr)
    ensures RebuiltSubnet(addr, Suffix(n)) == None
  {
    OneDigitText(n, addr);
    AppendedZero(addr);
    RebuiltParses(n, addr, Dotted(addr) + "0", None);
  }

  lemma RebuiltLegible(n: Subnet, addr: nat, d: nat)
    requires n.Valid() && addr < UINT32 && n.ones < 10 && d == 10 * (addr % 256) <= 255
    ensures RebuiltSubnet(addr, Suffix(n)) == Some(Subnet(Masked(addr, n.ones), n.ones))
  {
    RebuiltOneDigit(n, addr, addr - addr % 256 + d);
    OctetFreeMasks(addr, n.ones, d);
  }

  lemma InterfaceParses(n: Subnet, addr: nat, quad: string, ip: Option<nat>)
    requires n.Valid() && Dotted(addr) + Suffix(n) == quad + "/" + Decimal(n.ones)
    requires '/' !in quad && ParseIPv4(quad) == ip
    ensures InterfaceAddr(addr, Suffix(n)) == ip
  {
    IndexAfter(quad, '/', Decimal(n.ones));
    DecimalIsNumber(n.ones);
  }

  lemma TwoDigitText(n: Subnet, addr: nat)
    requires n.Valid() && n.ones >= 10
    ensures Dotted(addr) + Suffix(n) == Dotted(addr) + "/" + Decimal(n.ones) && '/' !in Dotted(addr)
  {
    SuffixTwoDigits(n);
    QuadHasNoSlash(addr);
  }

  /** The interface gets the recorded address if and only if the prefix length has two digits
      or the last octet is zero; with one digit a legible last octet d becomes ten times d. */
  lemma InterfaceAddrExactly(n: Subnet, addr: nat)
    requires n.Valid() && addr < UINT32
    ensures InterfaceAddr(addr, Suffix(n)).Some? <==> Legible(n, addr)
    ensures Legible(n, addr) ==>
              InterfaceAddr(addr, Suffix(n)) == Some(if n.ones >= 10 then addr else addr + 9 * (addr % 256))
    ensures InterfaceAddr(addr, Suffix(n)) == Some(addr) <==> n.ones >= 10 || addr % 256 == 0
  {
    if n.ones >= 10 {
      TwoDigitText(n, addr);
      DottedRoundTrip(addr);
      InterfaceParses(n, addr, Dotted(addr), Some(addr));
    } else {
      OneDigitText(n, addr);
      AppendedZero(addr);
      InterfaceParses(n, addr, Dotted(addr) + "0", ParseIPv4(Dotted(addr) + "0"));
    }
  }

  /** What deleteConnection parses, for every address: the block of that prefix length around
      the address, or nothing. */
  lemma RebuiltText(n: Subnet, addr: nat)
    requires n.Valid() && addr < UINT32
    ensures RebuiltSubnet(addr, Suffix(n))
         == if Legible(n, addr) then Some(Subnet(Masked(addr, n.ones), n.ones)) else None
  {
    if n.ones >= 10 {
      RebuiltTwoDigits(n, addr);
    } else if Legible(n, addr) {
      RebuiltLegible(n, addr, 10 * (addr % 256));
    } else {
      RebuiltIllegible(n, addr);
    }
  }

  /** deleteConnection finds the subnet addConnection used exactly when the address lies in
      that subnet and its text is legible. */
  lemma RebuiltExactly(n: Subnet, addr: nat)
    requires n.Valid() && addr < UINT32
    ensures RebuiltSubnet(addr, Suffix(n)) == Some(n) <==> n.Contains(addr) && Legible(n, addr)
    ensures RebuiltSubnet(addr, Suffix(n)) == None <==> !Legible(n, addr)
  {
    RebuiltText(n, addr);
    MaskedExactly(n, addr);
  }

  lemma ShiftedValue()
    ensures Shifted(10, 24) == 0x0A00_0000
  {
    assert Shifted(10, 8) == 0xA00 && Shifted(10, 16) == 0xA_0000;
  }

  /** 10.0.0.0/8 with address 10.1.2.30 is lost: "10.1.2.30" + "0/8" is no address. */
  lemma OneDigitPrefixLosesAddress()
    ensures var n := Subnet(0x0A00_0000, 8); var addr := 0x0A01_021E;
            n.Valid() && n.Contains(addr) && RebuiltSubnet(addr, Suffix(n)) == None
  {
    var n := Subnet(0x0A00_0000, 8);
    Pow2Values();
    ShiftedZeros(10, 24);
    ShiftedValue();
    RebuiltExactly(n, 0x0A01_021E);
  }

  // ---- bit positions and addresses

  /** The address RequestIP makes of TestAndSet's answer; uint32 addition. */
  function AddressOf(n: Subnet, ret: nat): nat {
    (n.base + ret) % UINT32
  }

  /** The bit MarkUsed and ReleaseIP compute from an address; uint32 subtraction. */
  function PositionOf(n: Subnet, addr: nat): nat {
    (addr - n.base - 1) % UINT32
  }

  /** Releasing an address names exactly the bit that requesting it had set. */
  lemma PositionInverse(n: Subnet, ret: nat)
    requires 1 <= ret <= UINT32
    ensures PositionOf(n, AddressOf(n, ret)) == ret - 1
  {
  }

  lemma AddressInverse(n: Subnet, addr: nat)
    requires n.Valid() && addr < UINT32
    ensures AddressOf(n, PositionOf(n, addr) + 1) == addr
  {
  }

  lemma SubnetInAddressSpace(n: Subnet)
    requires n.Valid()
    ensures n.base + n.Size() <= UINT32
    ensures n.ones >= 1 ==> n.Size() <= UINT32 / 2
  {
    Pow2Values();
    BlockFits(n.base, 32 - n.ones, 32);
    if n.ones >= 1 {
      Pow2Monotone(32 - n.ones, 31);
    }
  }

  /** The n-th answer of TestAndSet is an address of the subnet exactly when n < 2^(32-m),
      and then the uint32 addition does not wrap. */
  lemma AddressInside(n: Subnet, ret: nat)
    requires n.Valid() && n.ones >= 1 && 1 <= ret <= n.Size() + 8
    ensures n.Contains(AddressOf(n, ret)) <==> ret < n.Size()
    ensures ret < n.Size() ==> AddressOf(n, ret) == n.base + ret
  {
    SubnetInAddressSpace(n);
  }
}
