/** Addresses and MACs of live connections never collide, and releasing a connection gives
    back exactly the bit it took. */
module ConnectionTheorems {
  import opened Words
  import opened Store
  import opened Addresses
  import opened Keys
  import opened Connections
  import L = Lifecycle

  // ---- every step keeps the invariant

  lemma JoinKeepsInv(s: State, t: State, id: nat, c: Conn)
    requires Inv(s) && id !in s.conns && t.nets == s.nets && s.slots <= t.slots
    requires t.conns == s.conns[id := c] && t.taken == s.taken + {(c.Slot(), c.bit)}
    requires c.network in s.nets && s.nets[c.network].vni == c.vni && s.nets[c.network].subnet == c.subnet
    requires c.phase.Adding? && c.bit < UINT32 && Unclaimed(s, (c.Slot(), c.bit))
    ensures Inv(t)
  {
    forall i | i in s.conns && Rivals(s.conns[i], c)
      ensures s.conns[i].bit != c.bit
    {
      assert s.conns[i].network == c.network;
      assert s.conns[i].Slot() == c.Slot();
    }
  }

  lemma TakeKeepsInv(s: State, id: nat, place: nat, name: string, request: Option<nat>)
    requires Inv(s) && Admissible(s, Take(id, place, name, request))
    ensures Inv(Step(s, Take(id, place, name, request)))
  {
    if id !in s.conns && name in s.nets {
      var t := Step(s, Take(id, place, name, request));
      JoinKeepsInv(s, t, id, t.conns[id]);
    }
  }

  /** b is a later phase of the connection a that makes it no more alive. */
  predicate Later(a: Conn, b: Conn) {
    && b == a.(phase := b.phase) && (b.Live() ==> a.Live())
    && (b.phase.Releasing? ==> a.InMap()) && (b.InMap() || b.phase.Gone? ==> b.parsed.Some?)
  }

  lemma LaterKeepsInv(s: State, t: State)
    requires Inv(s) && t == s.(conns := t.conns)
    requires forall i :: i in t.conns ==> i in s.conns && Later(s.conns[i], t.conns[i])
    ensures Inv(t)
  {
  }

  lemma LeaveIsLater(s: State, e: Event) returns (t: State)
    requires e.Fail? || e.Register? || e.Unregister? || e.Unread? || e.Pass?
    requires forall i :: i in s.conns && (s.conns[i].InMap() || s.conns[i].phase.Gone?) ==> s.conns[i].parsed.Some?
    ensures t == Step(s, e) && t == s.(conns := t.conns)
    ensures forall i :: i in t.conns ==> i in s.conns && Later(s.conns[i], t.conns[i])
  {
    t := Step(s, e);
  }

  lemma LeaveKeepsInv(s: State, e: Event)
    requires Inv(s) && (e.Fail? || e.Register? || e.Unregister? || e.Unread? || e.Pass?)
    ensures Inv(Step(s, e))
  {
    var t := LeaveIsLater(s, e);
    LaterKeepsInv(s, t);
  }

  /** A bit may be cleared exactly when neither a gateway nor a live connection has it. */
  lemma ClearedExact(s: State, b: (Slot, nat))
    requires Inv(s)
    ensures Inv(s.(taken := s.taken - {b})) <==> Unclaimed(s, b)
  {
    var t := s.(taken := s.taken - {b});
    if Inv(t) {
      forall i | i in s.conns && s.conns[i].Live()
        ensures (s.conns[i].Slot(), s.conns[i].bit) != b
      {
        assert (t.conns[i].Slot(), t.conns[i].bit) in t.taken;
      }
    }
  }

  /** What a release clears belongs to nobody else: on its own subnet it is the connection's
      own bit, and no other subnet is in use under its VNI. */
  lemma ReleaseClearsNothingElse(s: State, id: nat, m: Subnet)
    requires Inv(s) && id in s.conns && s.conns[id].Live()
    ensures var c := s.conns[id];
            Unclaimed(s.(conns := s.conns[id := c.(phase := Releasing)]), (Ips(c.vni, m), PositionOf(m, c.Addr())))
  {
    PositionInverse(s.conns[id].subnet, s.conns[id].bit + 1);
  }

  /** ... whatever subnet the text led to. */
  lemma ReleaseKeepsInv(s: State, id: nat)
    requires Inv(s) && id in s.conns && s.conns[id].phase.Registered?
    ensures Inv(Released(s, id, s.conns[id]))
  {
    var c := s.conns[id];
    var t := s.(conns := s.conns[id := c.(phase := Releasing)]);
    LaterKeepsInv(s, t);
    ReleaseClearsNothingElse(s, id, c.parsed.value);
    ClearedExact(t, (Ips(c.vni, c.parsed.value), PositionOf(c.parsed.value, c.Addr())));
  }

  lemma CreateKeepsInv(s: State, name: string, vni: nat, subnet: Subnet)
    requires Inv(s) && Admissible(s, Create(name, vni, subnet))
    ensures Inv(Step(s, Create(name, vni, subnet)))
  {
  }

  lemma DestroyKeepsInv(s: State, name: string)
    requires Inv(s) && Admissible(s, Destroy(name))
    ensures Inv(Step(s, Destroy(name)))
  {
  }

  lemma StepKeepsInv(s: State, e: Event)
    requires Inv(s) && Admissible(s, e)
    ensures Inv(Step(s, e))
  {
    match e
    case Take(id, place, name, request) => TakeKeepsInv(s, id, place, name, request);
    case Release(id) =>
      if id in s.conns && s.conns[id].phase.Registered? {
        ReleaseKeepsInv(s, id);
      }
    case Create(name, vni, subnet) => CreateKeepsInv(s, name, vni, subnet);
    case Destroy(name) => DestroyKeepsInv(s, name);
    case _ => LeaveKeepsInv(s, e);
  }

  ghost predicate AdmissibleRun(events: seq<Event>) {
    forall i :: 0 <= i < |events| ==> Admissible(Run(events[..i]), events[i])
  }

  lemma {:induction false} RunKeepsInv(events: seq<Event>)
    requires AdmissibleRun(events)
    ensures Inv(Run(events))
  {
    if events != [] {
      var before := events[..|events| - 1];
      forall i | 0 <= i < |before|
        ensures Admissible(Run(before[..i]), before[i])
      {
        assert before[..i] == events[..i];
      }
      RunKeepsInv(before);
      assert events[..|events| - 1] == before;
      StepKeepsInv(Run(before), events[|events| - 1]);
    }
  }

  // ---- the main result

  lemma DifferentBitsDifferentAddresses(n: Subnet, a: nat, b: nat)
    requires a < UINT32 && b < UINT32 && a != b
    ensures AddressOf(n, a + 1) != AddressOf(n, b + 1)
  {
    PositionInverse(n, a + 1);
    PositionInverse(n, b + 1);
  }

  lemma RivalsApart(s: State, i: nat, j: nat)
    requires Inv(s) && i in s.conns && j in s.conns && i != j && Rivals(s.conns[i], s.conns[j])
    ensures var c, d := s.conns[i], s.conns[j];
            && c.Addr() != d.Addr() && c.Mac() != d.Mac()
            && (c.Slot(), c.bit) in s.taken && c.network in s.nets && s.nets[c.network].gate != Some(c.bit)
  {
    var c, d := s.conns[i], s.conns[j];
    assert s.nets[c.network].vni == s.nets[d.network].vni;
    assert c.subnet == d.subnet;
    DifferentBitsDifferentAddresses(c.subnet, c.bit, d.bit);
    if c.Mac() == d.Mac() {
      MacInjective(c.Addr(), d.Addr());
    }
  }

  /** In every admissible run on all nodes, two live connections of one VNI have different
      addresses and different MACs, the bit of each is set, and neither has the gateway's. */
  lemma LiveConnectionsDistinct(events: seq<Event>, i: nat, j: nat)
    requires AdmissibleRun(events)
    requires i in Run(events).conns && j in Run(events).conns && i != j
    requires Rivals(Run(events).conns[i], Run(events).conns[j])
    ensures var s := Run(events); var c, d := s.conns[i], s.conns[j];
            && c.Addr() != d.Addr() && c.Mac() != d.Mac()
            && (c.Slot(), c.bit) in s.taken && c.network in s.nets && s.nets[c.network].gate != Some(c.bit)
  {
    RunKeepsInv(events);
    RivalsApart(Run(events), i, j);
  }

  // ---- release undoes take

  lemma BytesCover(n: Subnet)
    requires n.Valid() && n.ones >= 1
    ensures n.Size() <= 8 * n.Bytes() < UINT32 && 8 * n.Bytes() < n.Size() + 8
    ensures forall v :: Ips(v, n).Bound() == 8 * n.Bytes()
  {
    SubnetInAddressSpace(n);
  }

  /** The block of the connection's prefix length around its address. */
  function Block(c: Conn): Subnet
    requires c.subnet.Valid()
  {
    Subnet(Masked(c.Addr(), c.subnet.ones), c.subnet.ones)
  }

  /** In its own block an address has a bit unless it is the base. */
  lemma PositionInBlock(m: Subnet, addr: nat)
    requires m.Valid() && m.ones >= 1 && m.Contains(addr)
    ensures PositionOf(m, addr) < 8 * m.Bytes() <==> addr != m.base
  {
    BytesCover(m);
    SubnetInAddressSpace(m);
  }

  /** The record's texts are those of its address and its subnet. */
  predicate Faithful(c: Conn) {
    c.parsed == ParsedText(c.subnet, c.bit)
  }

  lemma StepKeepsFaithful(s: State, e: Event)
    requires forall i :: i in s.conns ==> Faithful(s.conns[i])
    ensures forall i :: i in Step(s, e).conns ==> Faithful(Step(s, e).conns[i])
  {
    forall i | i in Step(s, e).conns
      ensures Faithful(Step(s, e).conns[i])
    {
      if i in s.conns {
        IdentityKept(s, e, i);
      } else {
        NewIdentity(s, e, i);
      }
    }
  }

  /** In every run. */
  lemma {:induction false} RunKeepsFaithful(events: seq<Event>)
    ensures forall i :: i in Run(events).conns ==> Faithful(Run(events).conns[i])
  {
    if events != [] {
      RunKeepsFaithful(events[..|events| - 1]);
      StepKeepsFaithful(Run(events[..|events| - 1]), events[|events| - 1]);
    }
  }

  /** A record that is not illegible parses to the block around its address. */
  lemma ParsedBlock(c: Conn)
    requires Faithful(c) && c.subnet.Valid()
    ensures c.parsed == if Legible(c.subnet, c.Addr()) then Some(Block(c)) else None
  {
  }

  ghost predicate MapParses(s: State) {
    forall i :: i in s.conns && (s.conns[i].InMap() || s.conns[i].phase.Gone?) ==> s.conns[i].parsed.Some?
  }

  /** In every run every connection that is or was in the map has text that parses, so no
      deletion crashes on it: a request whose text does not was never registered. */
  lemma {:induction false} RegisteredParses(events: seq<Event>)
    ensures MapParses(Run(events))
  {
    if events != [] {
      RegisteredParses(events[..|events| - 1]);
      StepKeepsParsed(Run(events[..|events| - 1]), events[|events| - 1]);
    }
  }

  lemma StepKeepsParsed(s: State, e: Event)
    requires MapParses(s)
    ensures MapParses(Step(s, e))
  {
  }

  /** What the deletion of a connection does, whatever its address. */
  lemma DeletionExactly(s: State, c: Conn)
    requires Faithful(c) && c.parsed.Some? && c.subnet.Valid() && c.subnet.ones >= 1
    ensures DeletionOf(s, c)
         == if c.network !in s.nets || Ips(s.nets[c.network].vni, Block(c)) !in s.slots then Nothing
            else if c.Addr() == Block(c).base then Crash
            else Clears(Ips(s.nets[c.network].vni, Block(c)), PositionOf(Block(c), c.Addr()))
  {
    ParsedBlock(c);
    MaskedSubnet(c.Addr(), c.subnet.ones);
    PositionInBlock(Block(c), c.Addr());
  }

  /** The address lies in the subnet and is not its base. */
  predicate Restorable(c: Conn) {
    c.subnet.Contains(c.Addr()) && c.Addr() != c.subnet.base
  }

  /** The bit a connection took is cleared exactly when it is restorable. */
  lemma OwnBitCleared(s: State, c: Conn)
    requires Faithful(c) && c.parsed.Some? && c.subnet.Valid() && c.subnet.ones >= 1 && c.bit < UINT32
    requires c.network in s.nets && s.nets[c.network].vni == c.vni && c.Slot() in s.slots
    ensures DeletionOf(s, c) == Clears(c.Slot(), c.bit) <==> Restorable(c)
    ensures DeletionOf(s, c).Clears? && !Restorable(c) ==> DeletionOf(s, c).slot != c.Slot()
  {
    DeletionExactly(s, c);
    if c.subnet.Contains(c.Addr()) {
      OwnBlock(c);
    } else {
      OtherBlock(c);
    }
  }

  lemma OwnBlock(c: Conn)
    requires c.subnet.Valid() && c.bit < UINT32 && c.subnet.Contains(c.Addr())
    ensures Block(c) == c.subnet && PositionOf(Block(c), c.Addr()) == c.bit
  {
    MaskedExactly(c.subnet, c.Addr());
    PositionInverse(c.subnet, c.bit + 1);
  }

  lemma OtherBlock(c: Conn)
    requires c.subnet.Valid() && !c.subnet.Contains(c.Addr())
    ensures Block(c) != c.subnet
  {
    MaskedExactly(c.subnet, c.Addr());
  }

  /** deleteConnection of a registered connection clears exactly the bit its address took, if
      and only if the address lies in the subnet and is not its base. In every other case that
      bit stays set. */
  lemma ReleaseIsExact(s: State, id: nat) returns (t: State)
    requires Inv(s) && id in s.conns && s.conns[id].phase.Registered? && Faithful(s.conns[id])
    ensures t == Step(s, Release(id))
    ensures var c := s.conns[id];
            && (t.taken == s.taken - {(c.Slot(), c.bit)} <==> Restorable(c))
            && (Restorable(c) ==> t == s.(taken := t.taken, conns := s.conns[id := c.(phase := Releasing)]))
            && (!Restorable(c) ==> (c.Slot(), c.bit) in t.taken)
  {
    var c := s.conns[id];
    t := Step(s, Release(id));
    OwnBitCleared(s, c);
    assert (c.Slot(), c.bit) in s.taken;
  }

  /** A dynamic request on a network with a legible next address. */
  lemma TakeAndRegister(s: State, id: nat, place: nat, name: string) returns (t: State)
    requires Inv(s) && id !in s.conns && name in s.nets && Vacant(s, place)
    requires FreeBit(s.taken, s.nets[name].Slot(), 0) < s.nets[name].Slot().Bound()
    requires NewConn(place, name, s.nets[name], FreeBit(s.taken, s.nets[name].Slot(), 0)).parsed.Some?
    ensures t == Step(Step(s, Take(id, place, name, None)), Register(id)) && Inv(t) && t.nets == s.nets
    ensures var net, k := s.nets[name], FreeBit(s.taken, s.nets[name].Slot(), 0);
            && t.conns == s.conns[id := NewConn(place, name, net, k).(phase := Registered)]
            && t.taken == s.taken + {(net.Slot(), k)} && t.slots == s.slots
  {
    t := TakeDynamic(s, id, place, name);
    t := RegisterVacant(s, t, id);
  }

  lemma TakeDynamic(s: State, id: nat, place: nat, name: string) returns (t: State)
    requires Inv(s) && id !in s.conns && name in s.nets
    requires FreeBit(s.taken, s.nets[name].Slot(), 0) < s.nets[name].Slot().Bound()
    ensures t == Step(s, Take(id, place, name, None)) && Inv(t) && t.nets == s.nets && t.slots == s.slots
    ensures var net, k := s.nets[name], FreeBit(s.taken, s.nets[name].Slot(), 0);
            t.conns == s.conns[id := NewConn(place, name, net, k)] && t.taken == s.taken + {(net.Slot(), k)}
  {
    t := Step(s, Take(id, place, name, None));
    TakeKeepsInv(s, id, place, name, None);
  }

  lemma RegisterVacant(s: State, t: State, id: nat) returns (u: State)
    requires Inv(t) && id !in s.conns && id in t.conns && t.conns[id].phase.Adding? && Vacant(s, t.conns[id].place)
    requires t.conns == s.conns[id := t.conns[id]] && t.conns[id].parsed.Some?
    ensures u == Step(t, Register(id)) && Inv(u)
    ensures u == t.(conns := s.conns[id := t.conns[id].(phase := Registered)])
  {
    LeaveKeepsInv(t, Register(id));
    u := Step(t, Register(id));
    assert u.conns == s.conns[id := t.conns[id].(phase := Registered)];
  }

  /** An answer that is not legible fails the request after its bit was set. */
  lemma RegisterIllegible(s: State, id: nat) returns (t: State)
    requires id in s.conns && s.conns[id].phase.Adding? && s.conns[id].parsed.None?
    ensures t == Step(s, Register(id)) && t == s.(conns := s.conns[id := s.conns[id].(phase := Failed)])
    ensures Step(Step(t, Release(id)), Unregister(id)) == t
  {
    t := Step(s, Register(id));
  }

  /** The map has no entry at the place. */
  ghost predicate Vacant(s: State, place: nat) {
    forall i :: i in s.conns && s.conns[i].InMap() ==> s.conns[i].place != place
  }

  /** No other entry at the place of a connection. */
  ghost predicate Alone(conns: map<nat, Conn>, id: nat)
    requires id in conns
  {
    forall i :: i in conns && i != id && conns[i].InMap() ==> conns[i].place != conns[id].place
  }

  lemma UnregisterAlone(s: State, id: nat) returns (t: State)
    requires id in s.conns && s.conns[id].phase.Releasing? && Alone(s.conns, id)
    ensures t == Step(s, Unregister(id)) && t == s.(conns := s.conns[id := s.conns[id].(phase := Gone)])
  {
    t := Step(s, Unregister(id));
    assert t.conns == s.conns[id := s.conns[id].(phase := Gone)];
  }

  lemma UnregisterKeepsBits(s: State, id: nat)
    ensures Step(s, Unregister(id)).taken == s.taken && Step(s, Unregister(id)).nets == s.nets
  {
  }

  /** A whole deletion: exactly for a restorable connection its bit is clear again. */
  lemma ReleaseAndUnregister(s: State, id: nat) returns (t: State)
    requires Inv(s) && id in s.conns && s.conns[id].phase.Registered? && Alone(s.conns, id) && Faithful(s.conns[id])
    ensures t == Step(Step(s, Release(id)), Unregister(id))
    ensures var c := s.conns[id];
            && (Restorable(c) ==> t.taken == s.taken - {(c.Slot(), c.bit)} && t.nets == s.nets
                                  && t.conns == s.conns[id := c.(phase := Gone)])
            && (!Restorable(c) ==> (c.Slot(), c.bit) in t.taken)
  {
    var u := ReleaseIsExact(s, id);
    UnregisterKeepsBits(u, id);
    if Restorable(s.conns[id]) {
      t := UnregisterAlone(u, id);
    }
    t := Step(u, Unregister(id));
  }

  /** Adding a connection with a dynamic address for a new container and deleting it again
      leaves every bitmap as it was if and only if the answer lies in the subnet and is
      legible. An answer that is not legible fails the request; in both other cases the bit
      stays set. */
  lemma TakeReleaseRoundTrip(s: State, id: nat, place: nat, name: string) returns (t: State, u: State)
    requires Inv(s) && id !in s.conns && name in s.nets && Vacant(s, place)
    requires FreeBit(s.taken, s.nets[name].Slot(), 0) < s.nets[name].Slot().Bound()
    ensures t == Step(Step(s, Take(id, place, name, None)), Register(id))
    ensures u == Step(Step(t, Release(id)), Unregister(id))
    ensures var n, ret := s.nets[name].subnet, FreeBit(s.taken, s.nets[name].Slot(), 0) + 1;
            && (u.taken == s.taken <==> ret < n.Size() && Legible(n, AddressOf(n, ret)))
            && (id in t.conns && t.conns[id].phase.Registered? <==> Legible(n, AddressOf(n, ret)))
    ensures u.taken == s.taken ==>
              u.nets == s.nets && id in u.conns && u.conns[id].phase.Gone? && u.conns == s.conns[id := u.conns[id]]
  {
    var net, k := s.nets[name], FreeBit(s.taken, s.nets[name].Slot(), 0);
    var c := NewConn(place, name, net, k);
    ParsedBlock(c);
    AnswerRestorable(c);
    if c.parsed.Some? {
      t := TakeAndRegister(s, id, place, name);
      u := NewDeleted(s, t, id);
    } else {
      t, u := IllegibleRoundTrip(s, id, place, name);
    }
  }

  lemma IllegibleRoundTrip(s: State, id: nat, place: nat, name: string) returns (t: State, u: State)
    requires Inv(s) && id !in s.conns && name in s.nets
    requires FreeBit(s.taken, s.nets[name].Slot(), 0) < s.nets[name].Slot().Bound()
    requires NewConn(place, name, s.nets[name], FreeBit(s.taken, s.nets[name].Slot(), 0)).parsed.None?
    ensures t == Step(Step(s, Take(id, place, name, None)), Register(id))
    ensures u == Step(Step(t, Release(id)), Unregister(id))
    ensures u.taken != s.taken && id in t.conns && t.conns[id].phase.Failed?
  {
    var a := TakeDynamic(s, id, place, name);
    t := RegisterIllegible(a, id);
    u := Step(Step(t, Release(id)), Unregister(id));
    OneBitMore(s.taken, t.taken, (s.nets[name].Slot(), FreeBit(s.taken, s.nets[name].Slot(), 0)));
  }

  /** The deletion of a connection that was not there before. */
  lemma NewDeleted(s: State, t: State, id: nat) returns (u: State)
    requires Inv(t) && id !in s.conns && id in t.conns && t.conns[id].phase.Registered? && Alone(t.conns, id)
    requires t.nets == s.nets && t.conns == s.conns[id := t.conns[id]] && Faithful(t.conns[id])
    requires var b := (t.conns[id].Slot(), t.conns[id].bit); b !in s.taken && t.taken == s.taken + {b}
    ensures u == Step(Step(t, Release(id)), Unregister(id))
    ensures u.taken == s.taken <==> Restorable(t.conns[id])
    ensures u.taken == s.taken ==>
              u.nets == s.nets && id in u.conns && u.conns[id].phase.Gone? && u.conns == s.conns[id := u.conns[id]]
  {
    u := ReleaseAndUnregister(t, id);
    OneBitMore(s.taken, t.taken, (t.conns[id].Slot(), t.conns[id].bit));
  }

  /** An answer of RequestIP leads back to its bit when it lies in the subnet. */
  lemma AnswerRestorable(c: Conn)
    requires c.subnet.Valid() && c.subnet.ones >= 1 && c.bit < c.Slot().Bound()
    ensures Restorable(c) <==> c.bit + 1 < c.subnet.Size()
  {
    BytesCover(c.subnet);
    AddressInside(c.subnet, c.bit + 1);
  }

  lemma OneBitMore(s: set<(Slot, nat)>, t: set<(Slot, nat)>, b: (Slot, nat))
    requires b !in s && t == s + {b}
    ensures t - {b} == s && forall u: set<(Slot, nat)> :: b in u ==> u != s
  {
  }

  /** A deletion that finds no bitmap for the block of the address clears nothing. */
  lemma OutsideRelease(s: State, id: nat) returns (t: State)
    requires Inv(s) && id in s.conns && s.conns[id].phase.Registered? && Faithful(s.conns[id])
    requires s.conns[id].subnet.Valid() && Ips(s.conns[id].vni, Block(s.conns[id])) !in s.slots
    ensures t == Step(s, Release(id)) && !Crashes(s, Release(id))
    ensures t == s.(conns := s.conns[id := s.conns[id].(phase := Releasing)])
  {
    DeletionExactly(s, s.conns[id]);
    t := Step(s, Release(id));
  }

  lemma OutsideDeletion(s: State, id: nat) returns (t: State)
    requires Inv(s) && id in s.conns && s.conns[id].phase.Registered? && Alone(s.conns, id) && Faithful(s.conns[id])
    requires s.conns[id].subnet.Valid() && Ips(s.conns[id].vni, Block(s.conns[id])) !in s.slots
    ensures t == Step(Step(s, Release(id)), Unregister(id)) && !Crashes(s, Release(id))
    ensures t.taken == s.taken && t.conns == s.conns[id := s.conns[id].(phase := Gone)]
  {
    var u := OutsideRelease(s, id);
    t := UnregisterAlone(u, id);
  }

  /** The block after a subnet, where the address of its last bit lies. */
  function NextBlock(n: Subnet): Subnet
    requires n.Valid()
  {
    Subnet(Masked(AddressOf(n, n.Size()), n.ones), n.ones)
  }

  lemma LastBitOutside(n: Subnet)
    requires n.Valid() && n.ones >= 1
    ensures !n.Contains(AddressOf(n, n.Size() - 1 + 1))
    ensures forall v :: n.Size() - 1 < Ips(v, n).Bound()
  {
    BytesCover(n);
    AddressInside(n, n.Size());
  }

  lemma LastBitTaken(s: State, id: nat, place: nat, name: string) returns (t: State)
    requires Inv(s) && id !in s.conns && name in s.nets && Vacant(s, place)
    requires FreeBit(s.taken, s.nets[name].Slot(), 0) == s.nets[name].subnet.Size() - 1
    requires s.nets[name].subnet.ones >= 10
    ensures t == Step(Step(s, Take(id, place, name, None)), Register(id)) && Inv(t) && t.slots == s.slots
    ensures t.taken == s.taken + {(s.nets[name].Slot(), s.nets[name].subnet.Size() - 1)} && t.taken != s.taken
    ensures id in t.conns && t.conns == s.conns[id := t.conns[id]] && Alone(t.conns, id)
    ensures t.conns[id].phase.Registered? && Faithful(t.conns[id])
    ensures t.conns[id].vni == s.nets[name].vni && t.conns[id].subnet == s.nets[name].subnet
    ensures t.conns[id].subnet.Valid() && Block(t.conns[id]) == NextBlock(s.nets[name].subnet)
  {
    LastBitOutside(s.nets[name].subnet);
    ParsedBlock(NewConn(place, name, s.nets[name], s.nets[name].subnet.Size() - 1));
    t := TakeAndRegister(s, id, place, name);
    assert (s.nets[name].Slot(), s.nets[name].subnet.Size() - 1) !in s.taken;
  }

  /** The last bit of a bitmap names the address after the subnet. Where the next block was
      never used under the VNI, the connection that gets it is deleted without complaint, and
      its bit stays set. */
  lemma LastBitLeaks(s: State, id: nat, place: nat, name: string) returns (t: State, u: State)
    requires Inv(s) && id !in s.conns && name in s.nets && Vacant(s, place) && s.nets[name].subnet.ones >= 10
    requires FreeBit(s.taken, s.nets[name].Slot(), 0) == s.nets[name].subnet.Size() - 1
    requires s.nets[name].subnet.Valid() && Ips(s.nets[name].vni, NextBlock(s.nets[name].subnet)) !in s.slots
    ensures t == Step(Step(s, Take(id, place, name, None)), Register(id))
    ensures u == Step(Step(t, Release(id)), Unregister(id)) && !Crashes(t, Release(id))
    ensures id in t.conns && u.conns == s.conns[id := t.conns[id].(phase := Gone)]
    ensures u.taken == s.taken + {(s.nets[name].Slot(), s.nets[name].subnet.Size() - 1)} && u.taken != s.taken
  {
    t := LastBitTaken(s, id, place, name);
    u := OutsideDeletion(t, id);
  }

  // ---- what the side conditions are for

  /** A static address keeps the invariant exactly when it panics or nobody has it, the
      gateway included: MarkUsed sets the bit again without looking. */
  lemma StaticAddressExact(s: State, id: nat, place: nat, name: string, addr: nat)
    requires Inv(s) && id !in s.conns && name in s.nets
    ensures var net, e := s.nets[name], Take(id, place, name, Some(addr));
            Inv(Step(s, e)) <==> Crashes(s, e) || Unclaimed(s, (net.Slot(), PositionOf(net.subnet, addr)))
  {
    var net, t := s.nets[name], Step(s, Take(id, place, name, Some(addr)));
    var k := PositionOf(net.subnet, addr);
    if k < 8 * net.Slot().Bytes() {
      if Unclaimed(s, (net.Slot(), k)) {
        JoinKeepsInv(s, t, id, t.conns[id]);
      } else if Inv(t) {
        StaticAddressTaken(s, t, id, net, k);
      }
    }
  }

  /** A static request for the gateway's address is granted, and deleting that connection gives
      the gateway's bit back under the network that still uses it. */
  lemma StaticGatewayFreed(s: State, id: nat, place: nat, name: string) returns (t: State, u: State)
    requires Inv(s) && id !in s.conns && name in s.nets && s.nets[name].Valid() && s.nets[name].gate.Some?
    requires s.nets[name].subnet.ones >= 10 && s.nets[name].gate.value + 1 < s.nets[name].subnet.Size()
    ensures t == Step(Step(s, Take(id, place, name, Some(s.nets[name].gateway))), Register(id))
    ensures u == Step(t, Release(id)) && u.nets == s.nets
    ensures s.nets[name].Gate().value in t.taken && s.nets[name].Gate().value !in u.taken
  {
    var net := s.nets[name];
    var c := NewConn(place, name, net, net.gate.value);
    L.GatewayNamesItsBit(s.slots, net);
    BytesCover(net.subnet);
    ParsedBlock(c);
    AnswerRestorable(c);
    var a := Step(s, Take(id, place, name, Some(net.gateway)));
    assert a == s.(taken := s.taken + {net.Gate().value}, conns := s.conns[id := c]);
    t := Step(a, Register(id));
    assert t.conns[id] == c.(phase := Registered) && t.nets == s.nets && t.slots == s.slots;
    OwnBitCleared(t, t.conns[id]);
    u := Step(t, Release(id));
  }

  lemma StaticAddressTaken(s: State, t: State, id: nat, net: Network, k: nat)
    requires Inv(s) && Inv(t) && id !in s.conns && t.nets == s.nets
    requires id in t.conns && t.conns == s.conns[id := t.conns[id]] && t.conns[id].Live()
    requires t.conns[id].Slot() == net.Slot() && t.conns[id].bit == k
    ensures Unclaimed(s, (net.Slot(), k))
  {
    forall i | i in s.conns && s.conns[i].Live()
      ensures (s.conns[i].Slot(), s.conns[i].bit) != (net.Slot(), k)
    {
      assert Rivals(t.conns[i], t.conns[id]) ==> t.conns[i].bit != t.conns[id].bit;
    }
    forall n | n in s.nets && s.nets[n].gate.Some?
      ensures (s.nets[n].Slot(), s.nets[n].gate.value) != (net.Slot(), k)
    {
      assert t.nets[n].vni == t.conns[id].vni ==> t.conns[id].network == n;
    }
  }

  /** Deleting a connection a second time keeps the invariant exactly when it crashes, clears
      nothing, or clears a bit that neither a gateway nor a live connection has. */
  lemma SecondDeletionExact(s: State, id: nat)
    requires Inv(s) && Deletable(s, id) && s.conns[id].phase.Gone?
    ensures var x := DeletionOf(s, s.conns[id]);
            Inv(Step(s, Release(id))) <==> !x.Clears? || Unclaimed(s, (x.slot, x.bit))
  {
    var x := DeletionOf(s, s.conns[id]);
    assert s.conns[id := s.conns[id]] == s.conns;
    if x.Clears? {
      ClearedExact(s, (x.slot, x.bit));
    }
  }

  /** A deletion clears no other bit of its own bitmap, and none of another VNI. */
  lemma DeletionSpares(s: State, id: nat, b: (Slot, nat)) returns (t: State)
    requires Inv(s) && id in s.conns && s.conns[id].phase.Registered? && Faithful(s.conns[id])
    requires b in s.taken && b.0.Ips? && b != (s.conns[id].Slot(), s.conns[id].bit)
    requires b.0.vni == s.conns[id].vni ==> b.0 == s.conns[id].Slot()
    ensures t == Step(Step(s, Release(id)), Unregister(id)) && b in t.taken
  {
    OwnBitCleared(s, s.conns[id]);
    DeletionExactly(s, s.conns[id]);
    UnregisterKeepsBits(Step(s, Release(id)), id);
    t := Step(Step(s, Release(id)), Unregister(id));
  }

  lemma RegisterOverwrites(s: State, id: nat, k: nat) returns (t: State)
    requires Inv(s) && id in s.conns && s.conns[id].phase.Adding? && s.conns[id].parsed.Some? && Faithful(s.conns[id])
    requires k in s.conns && s.conns[k].phase.Registered? && s.conns[k].place == s.conns[id].place
    ensures t == Step(s, Register(id)) && Inv(t) && t.taken == s.taken
    ensures k in t.conns && t.conns[k] == s.conns[k].(phase := Gone)
    ensures id in t.conns && t.conns[id] == s.conns[id].(phase := Registered)
  {
    t := Step(s, Register(id));
    LeaveKeepsInv(s, Register(id));
  }

  /** A request for a container that already has an entry overwrites it. Deleting the
      container then gives back at most the second address: the first bit stays set. */
  lemma OverwritingLeaksBit(s: State, id: nat, k: nat) returns (t: State, u: State)
    requires Inv(s) && id in s.conns && s.conns[id].phase.Adding? && s.conns[id].parsed.Some? && Faithful(s.conns[id])
    requires k in s.conns && s.conns[k].phase.Registered? && s.conns[k].place == s.conns[id].place
    ensures t == Step(s, Register(id)) && u == Step(Step(t, Release(id)), Unregister(id))
    ensures k in t.conns && t.conns[k].phase.Gone? && (s.conns[k].Slot(), s.conns[k].bit) in u.taken
  {
    t := RegisterOverwrites(s, id, k);
    assert Rivals(s.conns[k], s.conns[id]) ==> s.conns[k].bit != s.conns[id].bit;
    u := DeletionSpares(t, id, (s.conns[k].Slot(), s.conns[k].bit));
  }

  /** A full bitmap gives every further connection one and the same address. */
  lemma FullBitmapCollides(s: State, name: string, i: nat, j: nat, p: nat, q: nat)
    requires name in s.nets && i !in s.conns && j !in s.conns && i != j
    requires FreeBit(s.taken, s.nets[name].Slot(), 0) == s.nets[name].Slot().Bound()
    ensures var t := Step(Step(s, Take(i, p, name, None)), Take(j, q, name, None));
            t.conns[i].Addr() == t.conns[j].Addr() && t.conns[i].vni == t.conns[j].vni
  {
  }

  /** The next dynamic address may be one that a map entry still carries. */
  lemma NextAddressCollides(s: State, i: nat, j: nat, place: nat) returns (t: State)
    requires Inv(s) && i in s.conns && s.conns[i].InMap() && Faithful(s.conns[i]) && j !in s.conns && Vacant(s, place)
    requires FreeBit(s.taken, s.conns[i].Slot(), 0) == s.conns[i].bit < s.conns[i].Slot().Bound()
    ensures t == Step(Step(s, Take(j, place, s.conns[i].network, None)), Register(j))
    ensures i in t.conns && j in t.conns && t.conns[j].phase.Registered? && t.conns[i].Addr() == t.conns[j].Addr()
  {
    assert s.nets[s.conns[i].network].Slot() == s.conns[i].Slot();
    t := TakeAndRegister(s, j, place, s.conns[i].network);
  }

  /** Between ReleaseIP (state u) and the removal of the map entry another node may register
      the same address: the connections maps then hold it twice. */
  lemma ReleaseWindow(s: State, i: nat, j: nat, place: nat) returns (u: State, t: State)
    requires Inv(s) && i in s.conns && j !in s.conns && s.conns[i].phase.Registered? && Vacant(s, place)
    requires Faithful(s.conns[i]) && Restorable(s.conns[i]) && s.conns[i].bit < s.conns[i].Slot().Bound()
    requires var c := s.conns[i]; FreeBit(s.taken - {(c.Slot(), c.bit)}, c.Slot(), 0) == c.bit
    ensures u == Step(s, Release(i)) && t == Step(Step(u, Take(j, place, s.conns[i].network, None)), Register(j))
    ensures i in t.conns && j in t.conns && t.conns[j].phase.Registered? && t.conns[i].Addr() == t.conns[j].Addr()
  {
    u := ReleaseIsExact(s, i);
    StepKeepsInv(s, Release(i));
    assert u.conns[i].Slot() == s.conns[i].Slot();
    t := NextAddressCollides(u, i, j, place);
  }
}
