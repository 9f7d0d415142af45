/** Networks and connections use the allocator one whole operation per step. This is what
    makes that right: each step names its operation, and the bitmaps are at all times what
    those operations, applied one at a time, make of them. */
module Refinement {
  import opened Words
  import opened Bitmaps
  import opened Store
  import opened Addresses
  import opened Keys
  import opened Allocator
  import opened AllocatorSafety
  import opened AllocatorTheorems
  import C = Connections
  import L = Lifecycle
  import opened Conservation

  /** All set bits of all bitmaps. */
  type Bits = set<(Slot, nat)>

  function BitsOf(taken: Bits, slot: Slot): set<nat> {
    set b | b in taken && b.0 == slot :: b.1
  }

  function ApplyAt(taken: Bits, slot: Slot, e: Effect): Bits {
    match e
    case Insert(k) => taken + {(slot, k)}
    case Erase(k) => taken - {(slot, k)}
    case Keep => taken
  }

  /** What an operation does to the bits it meets. */
  function EffectOf(op: Op, taken: Bits): Effect {
    if op.Allocates() then
      var k := FreeBit(taken, op.Slot(), 0);
      if k < op.Slot().Bound() then Insert(k) else Keep
    else if op.MarkUsed? then Insert(op.Target())
    else Erase(op.Target())
  }

  function AnswerOf(op: Op, taken: Bits): nat {
    if op.Allocates() then FreeBit(taken, op.Slot(), 0) + 1 else 0
  }

  /** The commit of an operation: `client` made the call, in step number `call` of the run. */
  function CommitOf(client: nat, call: nat, op: Op, taken: Bits): Commit {
    Commit(client, call, op, EffectOf(op, taken), AnswerOf(op, taken))
  }

  // ---- bits and histories

  lemma BitsAfter(taken: Bits, slot: Slot, e: Effect, other: Slot)
    ensures BitsOf(ApplyAt(taken, slot, e), other)
         == if other == slot then Apply(BitsOf(taken, slot), e) else BitsOf(taken, other)
  {
    var after := BitsOf(ApplyAt(taken, slot, e), other);
    var want := if other == slot then Apply(BitsOf(taken, slot), e) else BitsOf(taken, other);
    forall k: nat
      ensures k in after <==> k in want
    {
      assert k in after <==> (other, k) in ApplyAt(taken, slot, e);
      assert k in BitsOf(taken, other) <==> (other, k) in taken;
    }
  }

  /** allocateVNI gives up instead of committing when it finds no free VNI. */
  predicate CanCommit(op: Op, taken: Bits) {
    op.AllocateVNI? ==> FreeBit(taken, Vlans, 0) < Vlans.Bound()
  }

  lemma CommitIsLegal(op: Op, taken: Bits)
    requires CanCommit(op, taken)
    ensures Legal(op, BitsOf(taken, op.Slot()), EffectOf(op, taken), AnswerOf(op, taken))
  {
    if op.Allocates() {
      var m, k := BitsOf(taken, op.Slot()), FreeBit(taken, op.Slot(), 0);
      assert forall j: nat :: j in m <==> (op.Slot(), j) in taken;
      if k < op.Slot().Bound() {
        assert k !in m;
      }
    }
  }

  /** The bits are those the history leaves, on every bitmap, and the history is legal. */
  ghost predicate Explains(h: seq<Commit>, taken: Bits) {
    History(h) && forall slot :: BitsOf(taken, slot) == Replay(h, slot)
  }

  lemma ExplainsNone()
    ensures Explains([], {})
  {
    assert forall slot :: BitsOf({}, slot) == {};
  }

  lemma CommitExplains(h: seq<Commit>, taken: Bits, x: Commit)
    requires Explains(h, taken) && CanCommit(x.op, taken)
    requires x == CommitOf(x.client, x.call, x.op, taken)
    ensures Explains(h + [x], ApplyAt(taken, x.op.Slot(), x.effect))
  {
    CommitIsLegal(x.op, taken);
    HistoryGrows(h, x);
    forall slot
      ensures BitsOf(ApplyAt(taken, x.op.Slot(), x.effect), slot) == Replay(h + [x], slot)
    {
      BitsAfter(taken, x.op.Slot(), x.effect, slot);
    }
  }

  /** Commit m gives back the bit that commit j set. */
  predicate GivenBack(T: seq<Commit>, j: nat, m: nat) {
    j < m < |T| && T[j].effect.Insert? && T[m].op.Slot() == T[j].op.Slot() && T[m].effect == Erase(T[j].effect.bit)
  }

  /** A bit set by one commit is set until another gives exactly it back. */
  lemma SetUntilGivenBack(T: seq<Commit>, taken: Bits, j: nat)
    requires Explains(T, taken) && j < |T| && T[j].effect.Insert?
    ensures (T[j].op.Slot(), T[j].effect.bit) in taken || exists m :: GivenBack(T, j, m)
  {
    var slot, bit := T[j].op.Slot(), T[j].effect.bit;
    CommittedBitTaken(T, j);
    if forall m :: j + 1 <= m < |T| && T[m].op.Slot() == slot ==> T[m].effect != Erase(bit) {
      BitStays(T, slot, bit, j + 1);
      assert bit in BitsOf(taken, slot);
    } else {
      var m :| j + 1 <= m < |T| && T[m].op.Slot() == slot && T[m].effect == Erase(bit);
      assert GivenBack(T, j, m);
    }
  }

  /** The bits after a step that calls `op`, if it calls any. */
  function AfterCall(taken: Bits, op: Option<Op>): Bits {
    match op
    case None => taken
    case Some(o) => ApplyAt(taken, o.Slot(), EffectOf(o, taken))
  }

  // ---- connections

  /** The operation a step calls and commits. RequestIP always does; MarkUsed and ReleaseIP
      return without a write on a missing key, and panic outside the bitmap. */
  function ConnOp(s: C.State, e: C.Event): Option<Op> {
    match e
    case Take(id, _, name, request) =>
      if id in s.conns || name !in s.nets then None
      else
        var net := s.nets[name];
        if request.None? then Some(RequestIP(net.vni, net.subnet))
        else OnBitmap(s.slots, MarkUsed(net.vni, request.value, net.subnet))
    case Release(id) =>
      if !C.Deletable(s, id) then None
      else
        var c := s.conns[id];
        if c.network !in s.nets || c.parsed.None? then None
        else OnBitmap(s.slots, ReleaseIP(c.Addr(), c.parsed.value, s.nets[c.network].vni))
    case Create(_, vni, subnet) => Some(RequestIP(vni, subnet))
    case _ => None
  }

  function OnBitmap(slots: set<Slot>, op: Op): Option<Op>
    requires !op.Allocates()
  {
    if op.Slot() in slots && op.Target() < 8 * op.Slot().Bytes() then Some(op) else None
  }

  /** Who calls: the request of a connection; creations are not told apart. */
  function Caller(e: C.Event): nat {
    if e.Take? || e.Release? then e.id else 0
  }

  function ConnTrace(events: seq<C.Event>): seq<Commit> {
    if events == [] then []
    else
      var k := |events| - 1;
      var s := C.Run(events[..k]);
      ConnTrace(events[..k]) +
      match ConnOp(s, events[k])
      case None => []
      case Some(op) => [CommitOf(Caller(events[k]), k, op, s.taken)]
  }

  /** Every step of a connection does to the bitmaps what its operation does, and nothing if
      it calls none. */
  lemma ConnectionStep(s: C.State, e: C.Event)
    ensures C.Step(s, e).taken == AfterCall(s.taken, ConnOp(s, e))
    ensures ConnOp(s, e).Some? ==> CanCommit(ConnOp(s, e).value, s.taken)
  {
    match e
    case Take(id, place, name, request) => TakeStep(s, id, place, name, request);
    case Release(id) => ReleaseStep(s, id);
    case _ =>
  }

  lemma TakeStep(s: C.State, id: nat, place: nat, name: string, request: Option<nat>)
    ensures var e := C.Take(id, place, name, request); C.Step(s, e).taken == AfterCall(s.taken, ConnOp(s, e))
  {
  }

  lemma ReleaseStep(s: C.State, id: nat)
    ensures C.Step(s, C.Release(id)).taken == AfterCall(s.taken, ConnOp(s, C.Release(id)))
  {
  }

  /** In every run on all nodes the address bitmaps are exactly what the run's own RequestIP,
      MarkUsed and ReleaseIP calls, one after the other, make of them. */
  lemma {:induction false} ConnectionsUseAllocator(events: seq<C.Event>)
    ensures Explains(ConnTrace(events), C.Run(events).taken)
  {
    if events == [] {
      ExplainsNone();
    } else {
      var k := |events| - 1;
      var s, h := C.Run(events[..k]), ConnTrace(events[..k]);
      ConnectionsUseAllocator(events[..k]);
      ConnectionStep(s, events[k]);
      match ConnOp(s, events[k])
      case None => assert h + [] == h;
      case Some(op) => CommitExplains(h, s.taken, CommitOf(Caller(events[k]), k, op, s.taken));
    }
  }

  /** In every run on all nodes a bit that a call set, a gateway's among them, is set until a
      later ReleaseIP names exactly it. */
  lemma SetUntilReleased(events: seq<C.Event>, j: nat)
    requires j < |ConnTrace(events)| && ConnTrace(events)[j].effect.Insert?
    ensures var T := ConnTrace(events);
            || (T[j].op.Slot(), T[j].effect.bit) in C.Run(events).taken
            || exists m :: GivenBack(T, j, m)
  {
    ConnectionsUseAllocator(events);
    SetUntilGivenBack(ConnTrace(events), C.Run(events).taken, j);
  }

  /** x is the commit of the request that made connection c. */
  predicate IsCommitOf(events: seq<C.Event>, x: Commit, id: nat, c: C.Conn) {
    && x.client == id && x.call < |events|
    && var e := events[x.call];
       && e.Take? && e.id == id && e.place == c.place && e.network == c.network
       && match e.request
          case None => x.op == RequestIP(c.vni, c.subnet) && x.ret == c.bit + 1
          case Some(addr) => x.op == MarkUsed(c.vni, addr, c.subnet) && x.effect == Insert(c.bit)
  }

  ghost predicate ConnsBacked(events: seq<C.Event>) {
    forall id :: id in C.Run(events).conns ==>
      exists x :: x in ConnTrace(events) && IsCommitOf(events, x, id, C.Run(events).conns[id])
  }

  ghost predicate SlotsKnown(s: C.State) {
    forall n :: n in s.nets ==> s.nets[n].Slot() in s.slots
  }

  lemma StepKeepsSlots(s: C.State, e: C.Event)
    requires SlotsKnown(s)
    ensures SlotsKnown(C.Step(s, e))
  {
  }

  lemma NewConnection(s: C.State, e: C.Event, id: nat)
    requires SlotsKnown(s) && id in C.Step(s, e).conns && id !in s.conns
    ensures e.Take? && e.id == id && ConnOp(s, e).Some?
    ensures var c, x := C.Step(s, e).conns[id], CommitOf(id, 0, ConnOp(s, e).value, s.taken);
            && e.place == c.place && e.network == c.network
            && match e.request
               case None => x.op == RequestIP(c.vni, c.subnet) && x.ret == c.bit + 1
               case Some(addr) => x.op == MarkUsed(c.vni, addr, c.subnet) && x.effect == Insert(c.bit)
  {
  }

  /** In every run the address of every connection is the answer of its own request: the bit
      RequestIP returned to it, or that of the static address it marked. */
  lemma {:induction false} ConnectionsOwnTheirAnswers(events: seq<C.Event>)
    ensures SlotsKnown(C.Run(events)) && ConnsBacked(events)
  {
    if events != [] {
      var k := |events| - 1;
      var s, e := C.Run(events[..k]), events[k];
      ConnectionsOwnTheirAnswers(events[..k]);
      StepKeepsSlots(s, e);
      forall id | id in C.Run(events).conns
        ensures exists x :: x in ConnTrace(events) && IsCommitOf(events, x, id, C.Run(events).conns[id])
      {
        if id in s.conns {
          var x :| x in ConnTrace(events[..k]) && IsCommitOf(events[..k], x, id, s.conns[id]);
          C.IdentityKept(s, e, id);
          assert x in ConnTrace(events) && events[x.call] == events[..k][x.call];
        } else {
          NewConnection(s, e, id);
          var x := CommitOf(id, k, ConnOp(s, e).value, s.taken);
          assert x in ConnTrace(events) && IsCommitOf(events, x, id, C.Run(events).conns[id]);
        }
      }
    }
  }

  // ---- networks

  /** VNI v is bit v-1 of the VNI bitmap. */
  function VniBits(vnis: set<nat>): Bits {
    set v | v in vnis && v >= 1 :: (Vlans, v - 1)
  }

  function NetTaken(s: L.State): Bits {
    VniBits(s.vnis.Keys) + s.ips.Keys
  }

  /** The operation a step of a creation or a deletion calls and commits. */
  function NetOp(s: L.State, e: L.Event): Option<Op> {
    var q := s.At(e.p);
    match e
    case TakeVni(_) => if q.Allocating? && L.FreeVni(s.vnis, 1) <= VLAN_COUNT then Some(AllocateVNI) else None
    case TakeGateway(_, _) => if q.Requesting? then Some(RequestIP(q.vni, q.subnet)) else None
    case UndoVni(_) => if q.Undoing? then Some(ReleaseVNI(q.net.vni)) else None
    case ReleaseVni(_) => if q.Releasing? then Some(ReleaseVNI(q.net.vni)) else None
    case UndoGateway(_) =>
      if q.UndoingGateway? then OnBitmap(s.slots, ReleaseIP(q.net.gateway, q.net.subnet, q.net.vni)) else None
    case _ => None
  }

  function NetCommit(s: L.State, e: L.Event, call: nat): Commit
    requires NetOp(s, e).Some?
  {
    CommitOf(e.p, call, NetOp(s, e).value, NetTaken(s))
  }

  /** The commits after one more step. */
  function Extended(s: L.State, e: L.Event, T: seq<Commit>, call: nat): seq<Commit> {
    if NetOp(s, e).None? then T else T + [NetCommit(s, e, call)]
  }

  function NetTrace(events: seq<L.Event>): seq<Commit> {
    if events == [] then []
    else
      var k := |events| - 1;
      Extended(L.Run(events[..k]), events[k], NetTrace(events[..k]), k)
  }

  lemma VniBit(vnis: set<nat>, b: (Slot, nat))
    ensures b in VniBits(vnis) <==> b.0.Vlans? && b.1 + 1 in vnis
  {
    if b.0.Vlans? && b.1 + 1 in vnis {
      assert b == (Vlans, b.1 + 1 - 1);
    }
  }

  lemma VniBitsChange(vnis: set<nat>, v: nat)
    requires v >= 1
    ensures VniBits(vnis + {v}) == VniBits(vnis) + {(Vlans, v - 1)}
    ensures VniBits(vnis - {v}) == VniBits(vnis) - {(Vlans, v - 1)}
  {
    forall b: (Slot, nat)
      ensures b in VniBits(vnis + {v}) <==> b in VniBits(vnis) + {(Vlans, v - 1)}
      ensures b in VniBits(vnis - {v}) <==> b in VniBits(vnis) - {(Vlans, v - 1)}
    {
      VniBit(vnis, b);
      VniBit(vnis + {v}, b);
      VniBit(vnis - {v}, b);
    }
  }

  lemma VlanBit(s: L.State, k: nat)
    requires NetworkInv(s)
    ensures (Vlans, k) in NetTaken(s) <==> k + 1 in s.vnis
  {
    VniBit(s.vnis.Keys, (Vlans, k));
  }

  /** The first free VNI is the first clear bit of the VNI bitmap, plus one. */
  lemma FirstFreeVni(s: L.State)
    requires NetworkInv(s)
    ensures FreeBit(NetTaken(s), Vlans, 0) + 1 == L.FreeVni(s.vnis, 1)
  {
    forall j: nat
      ensures (Vlans, j) in NetTaken(s) <==> j + 1 in s.vnis
    {
      VlanBit(s, j);
    }
    FreeBitIs(NetTaken(s), Vlans, L.FreeVni(s.vnis, 1) - 1);
  }

  lemma FirstFreeGateway(s: L.State, slot: Slot)
    requires NetworkInv(s) && slot.Ips?
    ensures FreeBit(NetTaken(s), slot, 0) == FreeBit(s.ips.Keys, slot, 0)
  {
    assert forall i: nat :: (slot, i) in NetTaken(s) <==> (slot, i) in s.ips.Keys;
    FreeBitIs(NetTaken(s), slot, FreeBit(s.ips.Keys, slot, 0));
  }

  lemma VniInserted(s: L.State, t: L.State, v: nat)
    requires v >= 1 && t.ips == s.ips && t.vnis.Keys == s.vnis.Keys + {v}
    ensures NetTaken(t) == NetTaken(s) + {(Vlans, v - 1)}
  {
    VniBitsChange(s.vnis.Keys, v);
  }

  lemma AllocationEffect(taken: Bits, k: nat)
    requires FreeBit(taken, Vlans, 0) == k < VLAN_COUNT
    ensures AfterCall(taken, Some(AllocateVNI)) == taken + {(Vlans, k)} && CanCommit(AllocateVNI, taken)
  {
  }

  lemma TakeVniIsAllocation(s: L.State, p: nat)
    requires NetworkInv(s) && s.At(p).Allocating?
    ensures NetTaken(L.DoTakeVni(s, p)) == AfterCall(NetTaken(s), NetOp(s, L.TakeVni(p)))
    ensures NetOp(s, L.TakeVni(p)).Some? ==> CanCommit(AllocateVNI, NetTaken(s))
  {
    var t, v := L.DoTakeVni(s, p), L.FreeVni(s.vnis, 1);
    if v <= VLAN_COUNT {
      FirstFreeVni(s);
      AllocationEffect(NetTaken(s), v - 1);
      assert t.vnis.Keys == s.vnis.Keys + {v};
      VniInserted(s, t, v);
    }
  }

  lemma TakeGatewayIsRequest(s: L.State, p: nat, iface: Option<L.Iface>)
    requires NetworkInv(s) && s.At(p).Requesting?
    ensures NetTaken(L.DoTakeGateway(s, p, iface)) == AfterCall(NetTaken(s), NetOp(s, L.TakeGateway(p, iface)))
  {
    var t, slot := L.DoTakeGateway(s, p, iface), Ips(s.At(p).vni, s.At(p).subnet);
    var k := FreeBit(s.ips.Keys, slot, 0);
    FirstFreeGateway(s, slot);
    assert t.vnis == s.vnis && t.ips.Keys == if k < slot.Bound() then s.ips.Keys + {(slot, k)} else s.ips.Keys;
  }

  lemma VniReleaseIsOperation(s: L.State, t: L.State, v: nat)
    requires NetworkInv(s) && v >= 1 && t.vnis == s.vnis - {v} && t.ips == s.ips
    ensures NetTaken(t) == AfterCall(NetTaken(s), Some(ReleaseVNI(v)))
  {
    VniBitsChange(s.vnis.Keys, v);
    assert t.vnis.Keys == s.vnis.Keys - {v};
    assert (Vlans, v - 1) !in s.ips.Keys;
  }

  lemma GatewayReleaseIsOperation(s: L.State, p: nat)
    requires NetworkInv(s) && s.At(p).UndoingGateway?
    ensures NetTaken(L.DoUndoGateway(s, p)) == AfterCall(NetTaken(s), NetOp(s, L.UndoGateway(p)))
  {
    var net, t := s.At(p).net, L.DoUndoGateway(s, p);
    match L.Undone(s.slots, net)
    case None =>
    case Some(b) =>
      VniBit(s.vnis.Keys, b);
      assert t.vnis == s.vnis && t.ips.Keys == s.ips.Keys - {b};
  }

  /** No other step of a creation or a deletion touches a bitmap. */
  lemma OtherStepsKeepBits(s: L.State, e: L.Event)
    requires !e.TakeVni? && !e.TakeGateway? && !e.UndoVni? && !e.UndoGateway? && !e.ReleaseVni?
    ensures L.Step(s, e).vnis.Keys == s.vnis.Keys && L.Step(s, e).ips.Keys == s.ips.Keys
  {
    OtherStepsKeepGates(s, e);
    OtherStepsKeepVnis(s, e);
  }

  lemma OtherStepsKeepVnis(s: L.State, e: L.Event)
    requires !e.TakeVni? && !e.UndoVni? && !e.ReleaseVni?
    ensures L.Step(s, e).vnis.Keys == s.vnis.Keys
  {
  }

  lemma OtherStepsKeepGates(s: L.State, e: L.Event)
    requires !e.TakeGateway? && !e.UndoGateway?
    ensures L.Step(s, e).ips.Keys == s.ips.Keys
  {
  }

  /** Every step does to the bitmaps what the operation it calls does, and nothing if it calls
      none. */
  lemma NetworkStep(s: L.State, e: L.Event)
    requires NetworkInv(s)
    ensures NetTaken(L.Step(s, e)) == AfterCall(NetTaken(s), NetOp(s, e))
    ensures NetOp(s, e).Some? ==> CanCommit(NetOp(s, e).value, NetTaken(s))
  {
    var t, q := L.Step(s, e), s.At(e.p);
    match e
    case TakeVni(p) => if q.Allocating? { TakeVniIsAllocation(s, p); }
    case TakeGateway(p, iface) => if q.Requesting? { TakeGatewayIsRequest(s, p, iface); }
    case UndoVni(p) => if q.Undoing? { VniReleaseIsOperation(s, t, q.net.vni); }
    case ReleaseVni(p) => if q.Releasing? { VniReleaseIsOperation(s, t, q.net.vni); }
    case UndoGateway(p) => if q.UndoingGateway? { GatewayReleaseIsOperation(s, p); }
    case _ => OtherStepsKeepBits(s, e);
  }

  /** In every run, overlapping deletions and lost requests included, the VNI bitmap and the
      address bitmaps are exactly what the run's own allocateVNI, RequestIP, ReleaseIP and
      releaseVNI calls, one after the other, make of them. */
  lemma {:induction false} NetworksUseAllocator(events: seq<L.Event>)
    ensures Explains(NetTrace(events), NetTaken(L.Run(events)))
  {
    if events == [] {
      ExplainsNone();
      assert NetTaken(L.START) == {};
    } else {
      var k := |events| - 1;
      var s, h := L.Run(events[..k]), NetTrace(events[..k]);
      NetworksUseAllocator(events[..k]);
      RunKeepsRecords(events[..k]);
      NetworkStep(s, events[k]);
      if NetOp(s, events[k]).Some? {
        CommitExplains(h, NetTaken(s), NetCommit(s, events[k], k));
      }
    }
  }
}
