/** Every taken VNI and every taken gateway address has exactly one party that answers
    for it: what every step of CreateNetwork and DeleteNetwork keeps, and exactly when. */
module Conservation {
  import opened Store
  import opened Addresses
  import opened Keys
  import opened Accounts
  import opened Lifecycle

  // ---- what a process holds

  /** The VNI of a creation in progress. */
  function VniOf(q: Proc): Option<nat> {
    match q
    case Requesting(_, _, v) => Some(v)
    case Building(net) => Some(net.vni)
    case Putting(net) => Some(net.vni)
    case Writing(net) => Some(net.vni)
    case Undoing(net) => Some(net.vni)
    case _ => None
  }

  /** The VNI a deletion is about to give back. */
  function ClaimOf(q: Proc): Option<nat> {
    match q
    case Releasing(net) => Some(net.vni)
    case _ => None
  }

  function GateOf(q: Proc): Option<(Slot, nat)> {
    match q
    case Building(net) => net.Gate()
    case Putting(net) => net.Gate()
    case Writing(net) => net.Gate()
    case Undoing(net) => net.Gate()
    case UndoingGateway(net) => net.Gate()
    case _ => None
  }

  // ---- the account

  function StoredVnis(nets: KV<string, Network>): map<string, nat> {
    map name | name in nets.entries :: nets.entries[name].value.vni
  }

  function StoredGates(nets: KV<string, Network>): map<string, (Slot, nat)> {
    map name | name in nets.entries && nets.entries[name].value.Gate().Some? :: nets.entries[name].value.Gate().value
  }

  function HeldVnis(procs: map<nat, Proc>): map<nat, nat> {
    map p | p in procs && VniOf(procs[p]).Some? :: VniOf(procs[p]).value
  }

  function ClaimedVnis(procs: map<nat, Proc>): map<nat, nat> {
    map p | p in procs && ClaimOf(procs[p]).Some? :: ClaimOf(procs[p]).value
  }

  function HeldGates(procs: map<nat, Proc>): map<nat, (Slot, nat)> {
    map p | p in procs && GateOf(procs[p]).Some? :: GateOf(procs[p]).value
  }

  /** Stored networks and running creations own pairwise different VNIs, and no other VNI is
      taken except those a deletion is giving back and those the account calls lost. */
  ghost predicate VniAccount(s: State) {
    Balanced(s.vnis, StoredVnis(s.nets), HeldVnis(s.procs), ClaimedVnis(s.procs))
  }

  /** The same for gateway addresses, which no deletion gives back. */
  ghost predicate GateAccount(s: State) {
    Balanced(s.ips, StoredGates(s.nets), HeldGates(s.procs), map[])
  }

  /** No stored network has this VNI, and no creation in progress holds it. */
  ghost predicate Unowned(s: State, v: nat) {
    && (forall n :: n in s.nets.entries ==> s.nets.entries[n].value.vni != v)
    && (forall q :: q in s.procs ==> VniOf(s.procs[q]) != Some(v))
  }

  /** No stored network and no creation in progress has this gateway bit. */
  ghost predicate UnownedGate(s: State, b: (Slot, nat)) {
    && (forall n :: n in s.nets.entries ==> s.nets.entries[n].value.Gate() != Some(b))
    && (forall q :: q in s.procs ==> GateOf(s.procs[q]) != Some(b))
  }

  /** What the callers have to see to: releaseVNI is called for a VNI nobody owns, ... */
  ghost predicate VniAdmissible(s: State, e: Event) {
    e.ReleaseVni? && s.At(e.p).Releasing? ==> Unowned(s, s.At(e.p).net.vni)
  }

  /** The bit a creation's undo clears although the creation did not take it for its gateway:
      the gateway came from an interface that existed. */
  function StrayBit(s: State, e: Event): Option<(Slot, nat)> {
    if e.UndoGateway? && s.At(e.p).UndoingGateway? && s.At(e.p).net.gate.None?
    then Undone(s.slots, s.At(e.p).net) else None
  }

  /** ... and such a bit is nobody's gateway. */
  ghost predicate GateAdmissible(s: State, e: Event) {
    StrayBit(s, e).Some? ==> UnownedGate(s, StrayBit(s, e).value)
  }

  // ---- what every run keeps of records

  predicate ValidProc(q: Proc) {
    match q
    case Requesting(_, _, v) => v >= 1
    case Building(net) => net.Valid()
    case Putting(net) => net.Valid()
    case Writing(net) => net.Valid()
    case Undoing(net) => net.Valid()
    case UndoingGateway(net) => net.Valid()
    case Deleting(net) => net.Valid()
    case Releasing(net) => net.Valid()
    case _ => true
  }

  /** Gateways name the bits taken for them, and taken bits are of bitmaps that exist. */
  ghost predicate NetworkInv(s: State) {
    && (forall n :: n in s.nets.entries ==> s.nets.entries[n].value.name == n && s.nets.entries[n].value.Valid())
    && (forall p :: p in s.procs ==> ValidProc(s.procs[p]))
    && (forall b :: b in s.ips ==> b.0.Ips? && b.0 in s.slots)
  }

  lemma DeleterValid(s: State, e: Event)
    requires NetworkInv(s) && (e.StartDelete? || e.Find? || e.Delete? || e.ReleaseVni?)
    ensures ValidProc(Step(s, e).At(e.p))
  {
  }

  lemma CreatorValid(s: State, e: Event)
    requires NetworkInv(s) && !e.StartDelete? && !e.Find? && !e.Delete? && !e.ReleaseVni?
    ensures ValidProc(Step(s, e).At(e.p))
  {
  }

  lemma RecordsValid(s: State, e: Event)
    requires NetworkInv(s)
    ensures forall n :: n in Step(s, e).nets.entries ==>
              Step(s, e).nets.entries[n].value.name == n && Step(s, e).nets.entries[n].value.Valid()
  {
    match e
    case Write(p, d) => WriteValid(s, p, d);
    case Delete(p, d) => DeleteValid(s, p, d);
    case _ => QuietSteps(s, e);
  }

  lemma WriteValid(s: State, p: nat, d: Delivery)
    requires NetworkInv(s)
    ensures forall n :: n in DoWrite(s, p, d).nets.entries ==>
              DoWrite(s, p, d).nets.entries[n].value.name == n && DoWrite(s, p, d).nets.entries[n].value.Valid()
  {
  }

  lemma DeleteValid(s: State, p: nat, d: Delivery)
    requires NetworkInv(s)
    ensures forall n :: n in DoDelete(s, p, d).nets.entries ==>
              DoDelete(s, p, d).nets.entries[n].value.name == n && DoDelete(s, p, d).nets.entries[n].value.Valid()
  {
  }

  /** Only TakeGateway adds an address, and it makes the bitmap. */
  lemma OnlyTakesAdd(s: State, e: Event)
    requires !e.TakeGateway?
    ensures Step(s, e).ips.Keys <= s.ips.Keys && Step(s, e).slots == s.slots
  {
    if e.Delete? {
      DeleteAddsNone(s, e.p, e.d);
    }
  }

  lemma DeleteAddsNone(s: State, p: nat, d: Delivery)
    ensures DoDelete(s, p, d).ips.Keys == s.ips.Keys && DoDelete(s, p, d).slots == s.slots
  {
  }

  lemma BitsHaveBitmaps(s: State, e: Event)
    requires NetworkInv(s)
    ensures forall b :: b in Step(s, e).ips ==> b.0.Ips? && b.0 in Step(s, e).slots
  {
    if !e.TakeGateway? {
      OnlyTakesAdd(s, e);
    }
  }

  lemma NetworkStepKeepsInv(s: State, e: Event)
    requires NetworkInv(s)
    ensures NetworkInv(Step(s, e))
  {
    if e.StartDelete? || e.Find? || e.Delete? || e.ReleaseVni? {
      DeleterValid(s, e);
    } else {
      CreatorValid(s, e);
    }
    OthersStay(s, e);
    RecordsValid(s, e);
    BitsHaveBitmaps(s, e);
    var t := Step(s, e);
    forall p | p in t.procs
      ensures ValidProc(t.procs[p])
    {
      assert p == e.p ==> t.procs[p] == t.At(e.p);
    }
  }

  lemma {:induction false} RunKeepsRecords(events: seq<Event>)
    ensures NetworkInv(Run(events))
  {
    if events != [] {
      RunKeepsRecords(events[..|events| - 1]);
      NetworkStepKeepsInv(Run(events[..|events| - 1]), events[|events| - 1]);
    }
  }

  // ---- moving one process

  function Bind<R>(m: map<nat, R>, p: nat, r: Option<R>): map<nat, R> {
    if r.Some? then m[p := r.value] else m - {p}
  }

  /** Moving one process changes only what that process holds and claims. */
  lemma MoveVnis(procs: map<nat, Proc>, p: nat, q: Proc)
    ensures HeldVnis(procs[p := q]) == Bind(HeldVnis(procs), p, VniOf(q))
    ensures ClaimedVnis(procs[p := q]) == Bind(ClaimedVnis(procs), p, ClaimOf(q))
  {
  }

  lemma MoveGates(procs: map<nat, Proc>, p: nat, q: Proc)
    ensures HeldGates(procs[p := q]) == Bind(HeldGates(procs), p, GateOf(q))
  {
  }

  /** What process p holds now. */
  lemma HoldsNow(s: State, p: nat)
    ensures HeldVnis(s.procs) == Bind(HeldVnis(s.procs), p, VniOf(s.At(p)))
    ensures ClaimedVnis(s.procs) == Bind(ClaimedVnis(s.procs), p, ClaimOf(s.At(p)))
    ensures HeldGates(s.procs) == Bind(HeldGates(s.procs), p, GateOf(s.At(p)))
    ensures VniOf(s.At(p)).Some? ==> p in HeldVnis(s.procs) && HeldVnis(s.procs)[p] == VniOf(s.At(p)).value
    ensures GateOf(s.At(p)).Some? ==> p in HeldGates(s.procs) && HeldGates(s.procs)[p] == GateOf(s.At(p)).value
  {
  }

  lemma QuietVnis(s: State, t: State, p: nat)
    requires VniAccount(s) && t.vnis == s.vnis && t.nets == s.nets && t.procs == s.procs[p := t.At(p)]
    requires VniOf(t.At(p)) == VniOf(s.At(p)) && ClaimOf(t.At(p)) == ClaimOf(s.At(p))
    ensures VniAccount(t)
  {
    MoveVnis(s.procs, p, t.At(p));
    HoldsNow(s, p);
  }

  lemma QuietGates(s: State, t: State, p: nat)
    requires GateAccount(s) && t.ips == s.ips && t.nets == s.nets && t.procs == s.procs[p := t.At(p)]
    requires GateOf(t.At(p)) == GateOf(s.At(p))
    ensures GateAccount(t)
  {
    MoveGates(s.procs, p, t.At(p));
    HoldsNow(s, p);
  }

  // ---- records

  lemma StoredAfterInsert(nets: KV<string, Network>, net: Network)
    ensures StoredVnis(nets.Insert(net.name, net)) == StoredVnis(nets)[net.name := net.vni]
    ensures net.gate.Some? ==>
              StoredGates(nets.Insert(net.name, net)) == StoredGates(nets)[net.name := net.Gate().value]
    ensures net.gate.None? ==> StoredGates(nets.Insert(net.name, net)) == StoredGates(nets) - {net.name}
  {
  }

  lemma StoredAfterRemove(nets: KV<string, Network>, name: string)
    ensures StoredVnis(nets.Remove(name)) == StoredVnis(nets) - {name}
    ensures StoredGates(nets.Remove(name)) == StoredGates(nets) - {name}
  {
  }

  // ---- VNIs

  lemma TakeVniKeepsVnis(s: State, p: nat)
    requires VniAccount(s) && s.At(p).Allocating?
    ensures VniAccount(DoTakeVni(s, p))
  {
    var t, v := DoTakeVni(s, p), FreeVni(s.vnis, 1);
    MoveVnis(s.procs, p, t.At(p));
    HoldsNow(s, p);
    if v <= VLAN_COUNT {
      Acquire(s.vnis, StoredVnis(s.nets), HeldVnis(s.procs), ClaimedVnis(s.procs), p, v);
    }
  }

  /** A creation that fails after it took its VNI. */
  lemma LoseKeepsVnis(s: State, p: nat, net: Network)
    requires VniAccount(s) && VniOf(s.At(p)) == Some(net.vni)
    ensures VniAccount(s.Give(net, Lost).To(p, Idle))
  {
    MoveVnis(s.procs, p, Idle);
    HoldsNow(s, p);
    Lose(s.vnis, StoredVnis(s.nets), HeldVnis(s.procs), ClaimedVnis(s.procs), p);
  }

  lemma WriteKeepsVnis(s: State, p: nat, d: Delivery)
    requires VniAccount(s) && s.At(p).Writing?
    ensures VniAccount(DoWrite(s, p, d))
  {
    var net := s.At(p).net;
    if Commits(s.nets, net.name, 0, d) {
      MoveVnis(s.procs, p, Idle);
      HoldsNow(s, p);
      StoredAfterInsert(s.nets, net);
      Deposit(s.vnis, StoredVnis(s.nets), HeldVnis(s.procs), ClaimedVnis(s.procs), p, net.name);
    } else {
      LoseKeepsVnis(s, p, net);
    }
  }

  lemma UndoVniKeepsVnis(s: State, p: nat)
    requires VniAccount(s) && s.At(p).Undoing?
    ensures VniAccount(DoUndoVni(s, p))
  {
    MoveVnis(s.procs, p, UndoingGateway(s.At(p).net));
    HoldsNow(s, p);
    Release(s.vnis, StoredVnis(s.nets), HeldVnis(s.procs), ClaimedVnis(s.procs), p);
  }

  /** A deleter that is told OK: the VNI of the record it dropped passes to it if that is the
      VNI it found, and otherwise nobody answers for it. */
  lemma DropKeepsVnis(s: State, name: string, v: nat, p: nat)
    requires VniAccount(s) && p !in ClaimedVnis(s.procs)
    ensures var t := Dropped(s, name, v, Held(p));
            Balanced(t.vnis, StoredVnis(t.nets), HeldVnis(s.procs), ClaimedVnis(s.procs)[p := v])
  {
    StoredAfterRemove(s.nets, name);
    if name !in s.nets.entries {
      assert StoredVnis(s.nets) - {name} == StoredVnis(s.nets);
      Claim(s.vnis, StoredVnis(s.nets), HeldVnis(s.procs), ClaimedVnis(s.procs), p, v);
    } else if s.nets.entries[name].value.vni == v {
      Withdraw(s.vnis, StoredVnis(s.nets), HeldVnis(s.procs), ClaimedVnis(s.procs), p, name);
    } else {
      var cur := StoredVnis(s.nets)[name];
      Forfeit(s.vnis, StoredVnis(s.nets), HeldVnis(s.procs), ClaimedVnis(s.procs), name, Lost);
      Claim(s.vnis[cur := Lost], StoredVnis(s.nets) - {name}, HeldVnis(s.procs), ClaimedVnis(s.procs), p, v);
    }
  }

  /** A deleter that hears nothing. */
  lemma LostDropKeepsVnis(s: State, name: string, v: nat)
    requires VniAccount(s)
    ensures var t := Dropped(s, name, v, Lost);
            Balanced(t.vnis, StoredVnis(t.nets), HeldVnis(s.procs), ClaimedVnis(s.procs))
  {
    StoredAfterRemove(s.nets, name);
    if name in s.nets.entries {
      Forfeit(s.vnis, StoredVnis(s.nets), HeldVnis(s.procs), ClaimedVnis(s.procs), name, Lost);
    } else {
      assert StoredVnis(s.nets) - {name} == StoredVnis(s.nets);
    }
  }

  lemma ServedKeepsVnis(s: State, p: nat)
    requires VniAccount(s) && s.At(p).Deleting?
    ensures VniAccount(DoDelete(s, p, Delivered))
  {
    var net := s.At(p).net;
    var t := Dropped(s, net.name, net.vni, Held(p));
    assert DoDelete(s, p, Delivered) == t.To(p, Releasing(net)) && t.procs == s.procs;
    MoveVnis(s.procs, p, Releasing(net));
    HoldsNow(s, p);
    DropKeepsVnis(s, net.name, net.vni, p);
  }

  lemma UnheardKeepsVnis(s: State, p: nat)
    requires VniAccount(s) && s.At(p).Deleting?
    ensures VniAccount(DoDelete(s, p, ReplyLost))
  {
    MoveVnis(s.procs, p, Idle);
    HoldsNow(s, p);
    LostDropKeepsVnis(s, s.At(p).net.name, s.At(p).net.vni);
  }

  lemma RefusedKeepsVnis(s: State, p: nat)
    requires VniAccount(s) && s.At(p).Deleting?
    ensures VniAccount(DoDelete(s, p, ServerError))
  {
    MoveVnis(s.procs, p, Releasing(s.At(p).net));
    HoldsNow(s, p);
    Claim(s.vnis, StoredVnis(s.nets), HeldVnis(s.procs), ClaimedVnis(s.procs), p, s.At(p).net.vni);
  }

  lemma DeleteKeepsVnis(s: State, p: nat, d: Delivery)
    requires VniAccount(s) && s.At(p).Deleting?
    ensures VniAccount(DoDelete(s, p, d))
  {
    match d
    case Delivered => ServedKeepsVnis(s, p);
    case ReplyLost => UnheardKeepsVnis(s, p);
    case ServerError => RefusedKeepsVnis(s, p);
    case RequestLost => QuietVnis(s, DoDelete(s, p, d), p);
  }

  lemma UnownedIsFree(s: State, v: nat)
    ensures Unowned(s, v) <==> Free(StoredVnis(s.nets), HeldVnis(s.procs), v)
  {
    assert forall n :: n in s.nets.entries <==> n in StoredVnis(s.nets);
    assert forall q :: q in s.procs && VniOf(s.procs[q]).Some? <==> q in HeldVnis(s.procs);
  }

  /** releaseVNI at the end of a deletion keeps the account exactly if nobody owns the VNI. */
  lemma ReleaseVniExact(s: State, p: nat)
    requires VniAccount(s) && s.At(p).Releasing?
    ensures VniAccount(DoReleaseVni(s, p)) <==> Unowned(s, s.At(p).net.vni)
  {
    MoveVnis(s.procs, p, Idle);
    HoldsNow(s, p);
    UnownedIsFree(s, s.At(p).net.vni);
    Settle(s.vnis, StoredVnis(s.nets), HeldVnis(s.procs), ClaimedVnis(s.procs), p);
  }

  /** Every step keeps the VNI account, except a releaseVNI of a VNI somebody owns. */
  lemma StepKeepsVnis(s: State, e: Event)
    requires VniAccount(s)
    ensures VniAccount(Step(s, e)) <==> VniAdmissible(s, e)
  {
    var q := s.At(e.p);
    match e
    case TakeVni(p) => if q.Allocating? { TakeVniKeepsVnis(s, p); }
    case Setup(p, ok) => if q.Building? && !ok { LoseKeepsVnis(s, p, q.net); } else { OthersKeepVnis(s, e); }
    case Write(p, d) => if q.Writing? { WriteKeepsVnis(s, p, d); }
    case UndoVni(p) => if q.Undoing? { UndoVniKeepsVnis(s, p); }
    case Delete(p, d) => if q.Deleting? { DeleteKeepsVnis(s, p, d); }
    case ReleaseVni(p) => if q.Releasing? { ReleaseVniExact(s, p); }
    case _ => OthersKeepVnis(s, e);
  }

  /** Steps that only look, start or set up. */
  predicate Looks(s: State, e: Event) {
    || e.StartCreate? || e.Lookup? || e.Check? || e.StartDelete? || e.Find?
    || (e.Setup? && (e.ok || !s.At(e.p).Building?))
  }

  lemma LookersMove(s: State, e: Event) returns (t: State)
    requires Looks(s, e)
    ensures t == Step(s, e) && (t == s || t == s.To(e.p, t.At(e.p)))
    ensures VniOf(t.At(e.p)) == VniOf(s.At(e.p)) && ClaimOf(t.At(e.p)) == ClaimOf(s.At(e.p))
    ensures GateOf(t.At(e.p)) == GateOf(s.At(e.p))
  {
    t := Step(s, e);
  }

  lemma OthersKeepVnis(s: State, e: Event)
    requires VniAccount(s) && (Looks(s, e) || e.TakeGateway? || e.UndoGateway?)
    ensures VniAccount(Step(s, e))
  {
    if Looks(s, e) {
      var t := LookersMove(s, e);
      if t != s {
        QuietVnis(s, t, e.p);
      }
    } else if e.TakeGateway? {
      if s.At(e.p).Requesting? {
        QuietVnis(s, DoTakeGateway(s, e.p, e.iface), e.p);
      }
    } else if s.At(e.p).UndoingGateway? {
      QuietVnis(s, DoUndoGateway(s, e.p), e.p);
    }
  }

  // ---- gateway addresses

  lemma TakeGatewayKeepsGates(s: State, p: nat, iface: Option<Iface>)
    requires GateAccount(s) && s.At(p).Requesting?
    ensures GateAccount(DoTakeGateway(s, p, iface))
  {
    var t := DoTakeGateway(s, p, iface);
    var slot := Ips(s.At(p).vni, s.At(p).subnet);
    var k := FreeBit(s.ips.Keys, slot, 0);
    MoveGates(s.procs, p, t.At(p));
    HoldsNow(s, p);
    if t.At(p).net.gate.Some? {
      Acquire(s.ips, StoredGates(s.nets), HeldGates(s.procs), map[], p, (slot, k));
    } else if k < slot.Bound() {
      Stray(s.ips, StoredGates(s.nets), HeldGates(s.procs), map[], (slot, k), Lost);
    }
  }

  lemma LoseKeepsGates(s: State, p: nat, net: Network)
    requires GateAccount(s) && GateOf(s.At(p)) == net.Gate()
    ensures GateAccount(s.Give(net, Lost).To(p, Idle))
  {
    MoveGates(s.procs, p, Idle);
    HoldsNow(s, p);
    if net.gate.Some? {
      Lose(s.ips, StoredGates(s.nets), HeldGates(s.procs), map[], p);
    }
  }

  lemma WriteKeepsGates(s: State, p: nat, d: Delivery)
    requires GateAccount(s) && s.At(p).Writing?
    ensures GateAccount(DoWrite(s, p, d))
  {
    var net := s.At(p).net;
    if Commits(s.nets, net.name, 0, d) {
      MoveGates(s.procs, p, Idle);
      HoldsNow(s, p);
      StoredAfterInsert(s.nets, net);
      if net.gate.Some? {
        Deposit(s.ips, StoredGates(s.nets), HeldGates(s.procs), map[], p, net.name);
      } else {
        assert StoredGates(s.nets) - {net.name} == StoredGates(s.nets);
      }
    } else {
      LoseKeepsGates(s, p, net);
    }
  }

  lemma UnownedGateIsFree(s: State, b: (Slot, nat))
    ensures UnownedGate(s, b) <==> Free(StoredGates(s.nets), HeldGates(s.procs), b)
  {
    assert forall n :: n in s.nets.entries && s.nets.entries[n].value.Gate().Some? <==> n in StoredGates(s.nets);
    assert forall q :: q in s.procs && GateOf(s.procs[q]).Some? <==> q in HeldGates(s.procs);
  }

  /** An undo gives back what the creation took, ... */
  lemma UndoOwnGateway(s: State, p: nat)
    requires NetworkInv(s) && GateAccount(s) && s.At(p).UndoingGateway? && s.At(p).net.gate.Some?
    ensures Undone(s.slots, s.At(p).net) == s.At(p).net.Gate() && GateAccount(DoUndoGateway(s, p))
  {
    var net := s.At(p).net;
    HoldsNow(s, p);
    GatewayNamesItsBit(s.slots, net);
    MoveGates(s.procs, p, Looking(net.name, net.subnet));
    Release(s.ips, StoredGates(s.nets), HeldGates(s.procs), map[], p);
  }

  /** ... or, where the gateway came from an interface, some other bit. */
  lemma UndoOtherGateway(s: State, p: nat)
    requires GateAccount(s) && s.At(p).UndoingGateway? && s.At(p).net.gate.None?
    ensures GateAccount(DoUndoGateway(s, p)) <==> GateAdmissible(s, UndoGateway(p))
  {
    var net := s.At(p).net;
    MoveGates(s.procs, p, DoUndoGateway(s, p).At(p));
    HoldsNow(s, p);
    if Undone(s.slots, net).Some? {
      UnownedGateIsFree(s, Undone(s.slots, net).value);
      Erased(s.ips, StoredGates(s.nets), HeldGates(s.procs), map[], Undone(s.slots, net).value);
    }
  }

  lemma DropKeepsGates(s: State, name: string, v: nat, heir: Owner)
    requires GateAccount(s)
    ensures var t := Dropped(s, name, v, heir); Balanced(t.ips, StoredGates(t.nets), HeldGates(s.procs), map[])
  {
    StoredAfterRemove(s.nets, name);
    if name in StoredGates(s.nets) {
      Forfeit(s.ips, StoredGates(s.nets), HeldGates(s.procs), map[], name, Retired);
    } else {
      assert StoredGates(s.nets) - {name} == StoredGates(s.nets);
    }
  }

  lemma ServedKeepsGates(s: State, p: nat, heir: Owner, q: Proc)
    requires GateAccount(s) && s.At(p).Deleting? && GateOf(q) == None
    ensures GateAccount(Dropped(s, s.At(p).net.name, s.At(p).net.vni, heir).To(p, q))
  {
    MoveGates(s.procs, p, q);
    HoldsNow(s, p);
    DropKeepsGates(s, s.At(p).net.name, s.At(p).net.vni, heir);
  }

  lemma DeleteKeepsGates(s: State, p: nat, d: Delivery)
    requires GateAccount(s) && s.At(p).Deleting?
    ensures GateAccount(DoDelete(s, p, d))
  {
    match d
    case Delivered => ServedKeepsGates(s, p, Held(p), Releasing(s.At(p).net));
    case ReplyLost => ServedKeepsGates(s, p, Lost, Idle);
    case _ => QuietGates(s, DoDelete(s, p, d), p);
  }

  lemma OthersKeepGates(s: State, e: Event)
    requires GateAccount(s) && (Looks(s, e) || e.TakeVni? || e.UndoVni? || e.ReleaseVni?)
    ensures GateAccount(Step(s, e))
  {
    if Looks(s, e) {
      var t := LookersMove(s, e);
      if t != s {
        QuietGates(s, t, e.p);
      }
    } else if e.TakeVni? {
      if s.At(e.p).Allocating? {
        QuietGates(s, DoTakeVni(s, e.p), e.p);
      }
    } else if e.UndoVni? {
      if s.At(e.p).Undoing? {
        QuietGates(s, DoUndoVni(s, e.p), e.p);
      }
    } else if s.At(e.p).Releasing? {
      QuietGates(s, DoReleaseVni(s, e.p), e.p);
    }
  }

  /** Every step keeps the account of the gateways, except an undo that clears a gateway bit
      somebody owns. */
  lemma StepKeepsGates(s: State, e: Event)
    requires NetworkInv(s) && GateAccount(s)
    ensures GateAccount(Step(s, e)) <==> GateAdmissible(s, e)
  {
    var q := s.At(e.p);
    match e
    case TakeGateway(p, iface) => if q.Requesting? { TakeGatewayKeepsGates(s, p, iface); }
    case Setup(p, ok) => if q.Building? && !ok { LoseKeepsGates(s, p, q.net); } else { OthersKeepGates(s, e); }
    case Write(p, d) => if q.Writing? { WriteKeepsGates(s, p, d); }
    case UndoGateway(p) =>
      if q.UndoingGateway? {
        if q.net.gate.Some? { UndoOwnGateway(s, p); } else { UndoOtherGateway(s, p); }
      }
    case Delete(p, d) => if q.Deleting? { DeleteKeepsGates(s, p, d); }
    case _ => OthersKeepGates(s, e);
  }

  // ---- whose VNI and whose address a step touches

  /** The VNI whose bit or owner the step may change. */
  function VniTouched(s: State, e: Event): Option<nat> {
    var q := s.At(e.p);
    match e
    case TakeVni(_) => if q.Allocating? && FreeVni(s.vnis, 1) <= VLAN_COUNT then Some(FreeVni(s.vnis, 1)) else None
    case Setup(_, ok) => if q.Building? && !ok then Some(q.net.vni) else None
    case Write(_, _) => if q.Writing? then Some(q.net.vni) else None
    case UndoVni(_) => if q.Undoing? then Some(q.net.vni) else None
    case ReleaseVni(_) => if q.Releasing? then Some(q.net.vni) else None
    case Delete(_, _) =>
      if q.Deleting? && q.net.name in s.nets.entries then Some(s.nets.entries[q.net.name].value.vni) else None
    case _ => None
  }

  lemma VniUntouched(s: State, e: Event, v: nat)
    requires VniTouched(s, e) != Some(v)
    ensures v in Step(s, e).vnis <==> v in s.vnis
    ensures v in s.vnis ==> Step(s, e).vnis[v] == s.vnis[v]
  {
  }

  /** It is free, the process's own, that of the record being deleted, or claimed. */
  lemma VniTouchedBy(s: State, e: Event, v: nat)
    requires VniAccount(s) && VniTouched(s, e) == Some(v) && v in s.vnis
    ensures match e
            case TakeVni(_) => false
            case Delete(_, _) => s.vnis[v] == Stored(s.At(e.p).net.name)
            case ReleaseVni(_) => true
            case _ => s.vnis[v] == Held(e.p)
  {
    HoldsNow(s, e.p);
    assert e.Delete? ==> s.At(e.p).net.name in StoredVnis(s.nets);
  }

  /** The address whose bit or owner the step may change. */
  function GateTouched(s: State, e: Event): Option<(Slot, nat)> {
    var q := s.At(e.p);
    match e
    case TakeGateway(_, _) =>
      if !q.Requesting? then None
      else
        var slot := Ips(q.vni, q.subnet);
        var k := FreeBit(s.ips.Keys, slot, 0);
        if k < slot.Bound() then Some((slot, k)) else None
    case Setup(_, ok) => if q.Building? && !ok then q.net.Gate() else None
    case Write(_, _) => if q.Writing? then q.net.Gate() else None
    case UndoGateway(_) => if q.UndoingGateway? then Undone(s.slots, q.net) else None
    case Delete(_, _) =>
      if q.Deleting? && q.net.name in s.nets.entries then s.nets.entries[q.net.name].value.Gate() else None
    case _ => None
  }

  lemma GateUntouched(s: State, e: Event, b: (Slot, nat))
    requires GateTouched(s, e) != Some(b)
    ensures b in Step(s, e).ips <==> b in s.ips
    ensures b in s.ips ==> Step(s, e).ips[b] == s.ips[b]
  {
    if e.Delete? {
      DeleteLeavesGates(s, e.p, e.d, b);
    }
  }

  lemma DeleteLeavesGates(s: State, p: nat, d: Delivery, b: (Slot, nat))
    requires GateTouched(s, Event.Delete(p, d)) != Some(b)
    ensures b in DoDelete(s, p, d).ips <==> b in s.ips
    ensures b in s.ips ==> DoDelete(s, p, d).ips[b] == s.ips[b]
  {
  }

  /** It is free, the process's own, that of the record being deleted, or stray. */
  lemma GateTouchedBy(s: State, e: Event, b: (Slot, nat))
    requires NetworkInv(s) && GateAccount(s) && GateTouched(s, e) == Some(b) && b in s.ips
    ensures match e
            case TakeGateway(_, _) => false
            case Delete(_, _) => s.ips[b] == Stored(s.At(e.p).net.name)
            case UndoGateway(_) => s.ips[b] == Held(e.p) || StrayBit(s, e) == Some(b)
            case _ => s.ips[b] == Held(e.p)
  {
    HoldsNow(s, e.p);
    assert e.Delete? ==> s.At(e.p).net.name in StoredGates(s.nets);
    if e.UndoGateway? && s.At(e.p).net.gate.Some? {
      UndoOwnGateway(s, e.p);
    }
  }

  // ---- every run

  /** The two accounts. */
  datatype Kind = Vnis | Gateways

  ghost predicate Account(s: State, kind: Kind) {
    if kind.Vnis? then VniAccount(s) else GateAccount(s)
  }

  ghost predicate Admissible(s: State, e: Event, kind: Kind) {
    if kind.Vnis? then VniAdmissible(s, e) else GateAdmissible(s, e)
  }

  lemma StepKeepsAccount(s: State, e: Event, kind: Kind)
    requires NetworkInv(s) && Account(s, kind)
    ensures Account(Step(s, e), kind) <==> Admissible(s, e, kind)
  {
    if kind.Vnis? {
      StepKeepsVnis(s, e);
    } else {
      StepKeepsGates(s, e);
    }
  }

  ghost predicate AdmissibleRun(events: seq<Event>, kind: Kind) {
    forall i :: 0 <= i < |events| ==> Admissible(Run(events[..i]), events[i], kind)
  }

  lemma AdmissiblePrefix(events: seq<Event>, kind: Kind, k: nat)
    requires AdmissibleRun(events, kind) && k <= |events|
    ensures AdmissibleRun(events[..k], kind)
  {
    forall i | 0 <= i < k
      ensures Admissible(Run(events[..k][..i]), events[..k][i], kind)
    {
      assert events[..k][..i] == events[..i];
    }
  }

  lemma AdmissibleExtends(events: seq<Event>, kind: Kind)
    requires events != [] && AdmissibleRun(events[..|events| - 1], kind)
    requires Admissible(Run(events[..|events| - 1]), events[|events| - 1], kind)
    ensures AdmissibleRun(events, kind)
  {
    var before := events[..|events| - 1];
    forall i | 0 <= i < |events|
      ensures Admissible(Run(events[..i]), events[i], kind)
    {
      assert i < |before| ==> before[..i] == events[..i] && before[i] == events[i];
    }
  }

  lemma {:induction false} RunKeepsAccount(events: seq<Event>, kind: Kind)
    requires AdmissibleRun(events, kind)
    ensures Account(Run(events), kind)
  {
    if events != [] {
      var k := |events| - 1;
      AdmissiblePrefix(events, kind, k);
      RunKeepsAccount(events[..k], kind);
      RunKeepsRecords(events[..k]);
      StepKeepsAccount(Run(events[..k]), events[k], kind);
    }
  }

  lemma AccountedIsAdmissible(events: seq<Event>, kind: Kind, i: nat)
    requires i < |events| && Account(Run(events[..i]), kind) && Account(Run(events[..i + 1]), kind)
    ensures Admissible(Run(events[..i]), events[i], kind)
  {
    var next := events[..i + 1];
    assert next[..|next| - 1] == events[..i];
    RunKeepsRecords(events[..i]);
    StepKeepsAccount(Run(events[..i]), events[i], kind);
  }

  /** Each account balances throughout a run if and only if the run is admissible: every
      releaseVNI was for a VNI that no stored network and no creation owned; every stray bit
      an undo cleared was nobody's gateway. */
  lemma AccountedExactly(events: seq<Event>, kind: Kind)
    ensures (forall k :: 0 <= k <= |events| ==> Account(Run(events[..k]), kind)) <==> AdmissibleRun(events, kind)
  {
    if AdmissibleRun(events, kind) {
      forall k | 0 <= k <= |events|
        ensures Account(Run(events[..k]), kind)
      {
        AdmissiblePrefix(events, kind, k);
        RunKeepsAccount(events[..k], kind);
      }
    }
    if forall k :: 0 <= k <= |events| ==> Account(Run(events[..k]), kind) {
      forall i | 0 <= i < |events|
        ensures Admissible(Run(events[..i]), events[i], kind)
      {
        AccountedIsAdmissible(events, kind, i);
      }
    }
  }
}
