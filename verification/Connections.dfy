/** The connections of all nodes: connHandler, addConnection and deleteConnection of
    server/connection.go, with the address steps and the map updates interleaved. */
module Connections {
  import opened Words
  import opened Store
  import opened Addresses
  import opened Keys
  import L = Lifecycle

  type Network = L.Network

  /** Adding: the address is taken, the interface is not ready. Registered: in the node's
      connections map. Releasing: the address is given back, the map entry still there.
      Gone: not in the map any more, though a queued deletion may still carry the record.
      Failed: the request was answered with an error, and never was in the map. */
  datatype Phase = Adding | Registered | Releasing | Gone | Failed

  /** `place` is the node and container ID it is registered under, `bit` the bitmap position
      of the address. A connection's record keeps the address text, the three-character suffix
      of the subnet text and the MAC; `parsed` is what the two texts together parse to. */
  datatype Conn = Conn(
    phase: Phase, place: nat, network: string, vni: nat, subnet: Subnet, bit: nat, parsed: Option<Subnet>)
  {
    predicate Live() {
      phase.Adding? || phase.Registered?
    }

    predicate InMap() {
      phase.Registered? || phase.Releasing?
    }

    function Slot(): Slot {
      Ips(vni, subnet)
    }

    function Addr(): nat {
      AddressOf(subnet, bit + 1)
    }

    function Mac(): seq<nat> {
      MacOf(Addr())
    }
  }

  /** What address and suffix parse to, as deleteConnection and SetInterfaceIp join them: the
      block around the address, or nothing. TextParsed shows that it is. */
  function ParsedText(n: Subnet, bit: nat): Option<Subnet> {
    var addr := AddressOf(n, bit + 1);
    if n.Valid() && Legible(n, addr) then Some(Subnet(Masked(addr, n.ones), n.ones)) else None
  }

  /** The text itself, for every subnet and every address. */
  lemma TextParsed(n: Subnet, bit: nat)
    requires n.Valid()
    ensures RebuiltSubnet(AddressOf(n, bit + 1), Suffix(n)) == ParsedText(n, bit)
    ensures InterfaceAddr(AddressOf(n, bit + 1), Suffix(n)).Some? <==> ParsedText(n, bit).Some?
  {
    RebuiltText(n, AddressOf(n, bit + 1));
    InterfaceAddrExactly(n, AddressOf(n, bit + 1));
  }

  /** A connection that has just got its address. */
  function NewConn(place: nat, network: string, net: Network, bit: nat): Conn {
    Conn(Adding, place, network, net.vni, net.subnet, bit, ParsedText(net.subnet, bit))
  }

  /** `taken` are the set bits of all address bitmaps, `slots` the keys that exist; `conns`
      are the connections by request. */
  datatype State = State(nets: map<string, Network>, slots: set<Slot>, taken: set<(Slot, nat)>, conns: map<nat, Conn>)

  datatype Event =
    | Take(id: nat, place: nat, network: string, request: Option<nat>)
    | Fail(id: nat)
    | Register(id: nat)
    | Release(id: nat)
    | Unread(id: nat)
    | Pass
    | Unregister(id: nat)
    | Create(name: string, vni: nat, subnet: Subnet)
    | Destroy(name: string)

  // ---- MAC addresses

  function Octets(addr: nat): seq<nat> {
    [Octet(addr, 0), Octet(addr, 1), Octet(addr, 2), Octet(addr, 3)]
  }

  function MacOf(addr: nat): seq<nat> {
    [0x02, 0x42] + Octets(addr)
  }

  /** generateMacAddr: a six-byte buffer, its last four bytes copied from the address; an
      address that is not IPv4 (no octets) leaves them zero. */
  method GenerateMacAddr(ip: seq<nat>) returns (hw: array<nat>)
    requires |ip| == 4 || ip == []
    ensures fresh(hw) && hw[..] == [0x02, 0x42] + (if ip == [] then [0, 0, 0, 0] else ip)
    ensures forall addr: nat :: ip == Octets(addr) ==> hw[..] == MacOf(addr)
  {
    hw := new nat[6](_ => 0);
    hw[0] := 0x02;
    hw[1] := 0x42;
    var i := 0;
    while i < |ip|
      invariant 0 <= i <= |ip|
      invariant hw[0] == 0x02 && hw[1] == 0x42
      invariant forall k :: 2 <= k < 6 ==> hw[k] == if k - 2 < i then ip[k - 2] else 0
    {
      hw[2 + i] := ip[i];
      i := i + 1;
    }
    assert hw[..] == [hw[0], hw[1], hw[2], hw[3], hw[4], hw[5]];
  }

  lemma MacInjective(a: nat, b: nat)
    requires a < UINT32 && b < UINT32 && MacOf(a) == MacOf(b)
    ensures a == b
  {
    OctetsExact(a);
    OctetsExact(b);
    assert MacOf(a)[2] == MacOf(b)[2] && MacOf(a)[3] == MacOf(b)[3];
    assert MacOf(a)[4] == MacOf(b)[4] && MacOf(a)[5] == MacOf(b)[5];
  }

  // ---- steps

  /** RequestIP. A full bitmap answers the position past its end and takes nothing. */
  function Requested(s: State, id: nat, place: nat, name: string, net: Network): State {
    var slot := net.Slot();
    var k := FreeBit(s.taken, slot, 0);
    s.(slots := s.slots + {slot},
       taken := if k < slot.Bound() then s.taken + {(slot, k)} else s.taken,
       conns := s.conns[id := NewConn(place, name, net, k)])
  }

  /** MarkUsed. Its result is ignored, so a missing key only means that no bit is set; a
      position outside the bitmap panics. */
  function Marked(s: State, id: nat, place: nat, name: string, net: Network, addr: nat): State {
    var slot, k := net.Slot(), PositionOf(net.subnet, addr);
    var conn := NewConn(place, name, net, k);
    if slot !in s.slots then s.(conns := s.conns[id := conn])
    else if k >= 8 * slot.Bytes() then s
    else s.(taken := s.taken + {(slot, k)}, conns := s.conns[id := conn])
  }

  /** What deleteConnection does to the bitmaps. */
  datatype Deletion = Crash | Nothing | Clears(slot: Slot, bit: nat)

  /** A missing network returns before the subnet is used, text that is no subnet and a position
      outside the bitmap panic, a missing key is ignored. The VNI comes from the stored
      network. */
  function DeletionOf(s: State, c: Conn): Deletion {
    if c.network !in s.nets then Nothing
    else if c.parsed.None? then Crash
    else
      var slot, k := Ips(s.nets[c.network].vni, c.parsed.value), PositionOf(c.parsed.value, c.Addr());
      if slot !in s.slots then Nothing else if k >= 8 * slot.Bytes() then Crash else Clears(slot, k)
  }

  function Released(s: State, id: nat, c: Conn): State {
    var t := s.(conns := s.conns[id := c.(phase := if c.phase.Gone? then Gone else Releasing)]);
    match DeletionOf(s, c)
    case Crash => s
    case Nothing => t
    case Clears(slot, k) => t.(taken := s.taken - {(slot, k)})
  }

  /** A queued deletion may carry a record that has left the map. */
  predicate Deletable(s: State, id: nat) {
    id in s.conns && (s.conns[id].phase.Registered? || s.conns[id].phase.Gone?)
  }

  /** The step panics, which ends the daemon that takes it. */
  predicate Crashes(s: State, e: Event) {
    match e
    case Take(id, _, name, Some(addr)) =>
      && id !in s.conns && name in s.nets && s.nets[name].Slot() in s.slots
      && PositionOf(s.nets[name].subnet, addr) >= 8 * s.nets[name].Slot().Bytes()
    case Release(id) => Deletable(s, id) && DeletionOf(s, s.conns[id]).Crash?
    case _ => false
  }

  /** The map entry of a place is overwritten or deleted. */
  function Vacated(conns: map<nat, Conn>, place: nat): map<nat, Conn> {
    map i | i in conns :: if conns[i].place == place && conns[i].InMap() then conns[i].(phase := Gone) else conns[i]
  }

  /** Register comes after the interface steps, of which SetInterfaceIp has to parse the text, so
      that text which does not parse fails the request. Pass is addConnection and Unread is deleteConnection
      returning early because the network could not be read. */
  function Step(s: State, e: Event): State {
    match e
    case Take(id, place, name, request) =>
      if id in s.conns || name !in s.nets then s
      else if request.None? then Requested(s, id, place, name, s.nets[name])
      else Marked(s, id, place, name, s.nets[name], request.value)
    case Fail(id) =>
      if id in s.conns && s.conns[id].phase.Adding?
      then s.(conns := s.conns[id := s.conns[id].(phase := Failed)]) else s
    case Register(id) =>
      if !(id in s.conns && s.conns[id].phase.Adding?) then s
      else if s.conns[id].parsed.None? then s.(conns := s.conns[id := s.conns[id].(phase := Failed)])
      else s.(conns := Vacated(s.conns, s.conns[id].place)[id := s.conns[id].(phase := Registered)])
    case Release(id) =>
      if Deletable(s, id) then Released(s, id, s.conns[id]) else s
    case Pass => s
    case Unread(id) =>
      if id in s.conns && s.conns[id].phase.Registered?
      then s.(conns := s.conns[id := s.conns[id].(phase := Releasing)]) else s
    case Unregister(id) =>
      if id in s.conns && (s.conns[id].phase.Releasing? || s.conns[id].phase.Gone?)
      then s.(conns := Vacated(s.conns, s.conns[id].place)) else s
    case Create(name, vni, subnet) =>
      var slot := Ips(vni, subnet);
      var k := FreeBit(s.taken, slot, 0);
      State(s.nets[name := L.Built(name, subnet, vni, k, None)], s.slots + {slot},
            if k < slot.Bound() then s.taken + {(slot, k)} else s.taken, s.conns)
    case Destroy(name) => s.(nets := s.nets - {name})
  }

  /** A connection keeps its identity through its phases. */
  lemma IdentityKept(s: State, e: Event, id: nat)
    requires id in Step(s, e).conns && id in s.conns
    ensures Step(s, e).conns[id] == s.conns[id].(phase := Step(s, e).conns[id].phase)
  {
  }

  /** A new one is that of a request. */
  lemma NewIdentity(s: State, e: Event, id: nat)
    requires id in Step(s, e).conns && id !in s.conns
    ensures e.Take? && e.id == id && e.network in s.nets
    ensures Step(s, e).conns[id] == NewConn(e.place, e.network, s.nets[e.network], Step(s, e).conns[id].bit)
  {
  }

  const START := State(map[], {}, {}, map[])

  function Run(events: seq<Event>): State {
    if events == [] then START else Step(Run(events[..|events| - 1]), events[|events| - 1])
  }

  // ---- the invariant

  ghost predicate NetsInv(s: State) {
    && (forall n :: n in s.nets ==>
          && s.nets[n].subnet.Valid() && s.nets[n].subnet.ones >= 1
          && s.nets[n].Slot() in s.slots
          && (s.nets[n].gate.Some? ==> (s.nets[n].Slot(), s.nets[n].gate.value) in s.taken))
    && (forall n, m :: n in s.nets && m in s.nets && s.nets[n].vni == s.nets[m].vni ==> n == m)
  }

  /** Every connection in use belongs to a stored network; the bit of a live one is set and
      is not the gateway's. */
  ghost predicate ConnsInv(s: State) {
    forall i :: i in s.conns ==>
      var c := s.conns[i];
      && c.bit < UINT32
      && (c.InMap() || c.phase.Gone? ==> c.parsed.Some?)
      && (c.Live() || c.phase.Releasing? ==>
            c.network in s.nets && s.nets[c.network].vni == c.vni && s.nets[c.network].subnet == c.subnet)
      && (c.Live() ==> (c.Slot(), c.bit) in s.taken && s.nets[c.network].gate != Some(c.bit))
  }

  /** Two live connections on one network. */
  predicate Rivals(c: Conn, d: Conn) {
    c.Live() && d.Live() && c.vni == d.vni
  }

  ghost predicate Distinct(s: State) {
    forall i, j :: i in s.conns && j in s.conns && i != j && Rivals(s.conns[i], s.conns[j]) ==>
      s.conns[i].bit != s.conns[j].bit
  }

  ghost predicate Inv(s: State) {
    NetsInv(s) && ConnsInv(s) && Distinct(s)
  }

  /** No live connection and no gateway has this bit. */
  ghost predicate Unclaimed(s: State, b: (Slot, nat)) {
    && (forall i :: i in s.conns && s.conns[i].Live() ==> (s.conns[i].Slot(), s.conns[i].bit) != b)
    && (forall n :: n in s.nets && s.nets[n].gate.Some? ==> (s.nets[n].Slot(), s.nets[n].gate.value) != b)
  }

  /** What the callers have to see to: bitmaps that are not full, static addresses inside
      the bitmap that nobody holds, no second deletion of a connection, fresh VNIs, and no
      deletion of a network in use. */
  ghost predicate Admissible(s: State, e: Event) {
    match e
    case Take(id, _, name, request) =>
      name in s.nets && id !in s.conns ==>
        var net := s.nets[name];
        if request.None? then FreeBit(s.taken, net.Slot(), 0) < net.Slot().Bound()
        else
          var k := PositionOf(net.subnet, request.value);
          k < 8 * net.Slot().Bytes() && Unclaimed(s, (net.Slot(), k))
    case Create(name, vni, subnet) =>
      && subnet.Valid() && subnet.ones >= 1 && name !in s.nets
      && forall n :: n in s.nets ==> s.nets[n].vni != vni
    case Release(id) => id in s.conns ==> !s.conns[id].phase.Gone?
    case Destroy(name) =>
      forall i :: i in s.conns && (s.conns[i].Live() || s.conns[i].phase.Releasing?) ==> s.conns[i].network != name
    case _ => true
  }
}
