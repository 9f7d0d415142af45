/** Creations, deletions and connections of all nodes on one store: who answers for every
    taken address, what every step keeps, and exactly when. */
module Cluster {
  import opened Words
  import opened Store
  import opened Addresses
  import opened Keys
  import opened Accounts
  import opened Allocator
  import opened Conservation
  import opened Refinement
  import C = Connections
  import L = Lifecycle
  import T = LifecycleTheorems

  /** The networks and bitmaps with the processes at work on them, and the connections. */
  datatype State = State(net: L.State, conns: map<nat, C.Conn>)

  /** A step of a creation or a deletion, or one of a connection. */
  datatype Event = Net(e: L.Event) | Conn(c: C.Event)

  /** What connections see of it. */
  function View(s: State): C.State {
    C.State(map n | n in s.net.nets.entries :: s.net.nets.entries[n].value, s.net.slots, s.net.ips.Keys, s.conns)
  }

  function BitOf(c: C.Conn): (Slot, nat) {
    (c.Slot(), c.bit)
  }

  predicate Live(s: State, i: nat) {
    i in s.conns && s.conns[i].Live()
  }

  /** The bit is clear, or nobody answers for it: no stored network, no creation in progress,
      no live connection. */
  predicate Ownerless(s: State, b: (Slot, nat)) {
    b in s.net.ips ==>
      match s.net.ips[b]
      case Stored(_) => false
      case Held(_) => false
      case Rented(i) => !Live(s, i)
      case _ => true
  }

  // ---- steps

  /** The owners after a new connection got the bit b: it answers for b if nobody did. */
  function Rent(s: State, taken: set<(Slot, nat)>, b: (Slot, nat), id: nat): map<(Slot, nat), Owner> {
    if b in taken && Ownerless(s, b) then s.net.ips[b := Rented(id)] else s.net.ips
  }

  function Kept(ips: map<(Slot, nat), Owner>, taken: set<(Slot, nat)>): map<(Slot, nat), Owner> {
    map b | b in ips && b in taken :: ips[b]
  }

  function ConnStep(s: State, e: C.Event): State {
    var v := C.Step(View(s), e);
    var ips := if e.Take? && e.id !in s.conns && e.id in v.conns then Rent(s, v.taken, BitOf(v.conns[e.id]), e.id)
               else Kept(s.net.ips, v.taken);
    State.State(s.net.(slots := v.slots, ips := ips), v.conns)
  }

  function Step(s: State, e: Event): State {
    match e
    case Net(x) => s.(net := L.Step(s.net, x))
    case Conn(x) => if x.Create? || x.Destroy? then s else ConnStep(s, x)
  }

  const START := State.State(L.START, map[])

  function Run(events: seq<Event>): State {
    if events == [] then START else Step(Run(events[..|events| - 1]), events[|events| - 1])
  }

  // ---- what every run keeps

  /** Every live connection answers for its bit. */
  ghost predicate RentAccount(s: State) {
    forall i :: Live(s, i) ==> BitOf(s.conns[i]) in s.net.ips && s.net.ips[BitOf(s.conns[i])] == Rented(i)
  }

  /** Who is said to rent a bit is a connection with that bit. */
  ghost predicate RentedKnown(s: State) {
    forall b :: b in s.net.ips && s.net.ips[b].Rented? ==>
      s.net.ips[b].id in s.conns && BitOf(s.conns[s.net.ips[b].id]) == b
  }

  /** Stored networks and creations own different VNIs; stored networks, creations and live
      connections own different addresses, and every one of them has its bit set. */
  ghost predicate Balance(s: State) {
    VniAccount(s.net) && GateAccount(s.net) && RentAccount(s)
  }

  ghost predicate Inv(s: State) {
    NetworkInv(s.net) && RentedKnown(s)
  }

  /** The bit a connection's deletion clears. */
  function Cleared(s: State, e: C.Event): Option<(Slot, nat)> {
    if e.Release? && C.Deletable(View(s), e.id) then
      match C.DeletionOf(View(s), s.conns[e.id])
      case Clears(slot, k) => Some((slot, k))
      case _ => None
    else None
  }

  /** What the callers have to see to: no VNI is given back that somebody owns; what an undo
      clears that its creation did not take is nobody's; a request gets a bit, and nobody's;
      and a deletion clears the connection's own bit or nobody's. */
  ghost predicate Proper(s: State, e: Event) {
    match e
    case Net(x) => VniAdmissible(s.net, x) && (StrayBit(s.net, x).Some? ==> Ownerless(s, StrayBit(s.net, x).value))
    case Conn(x) =>
      var v := C.Step(View(s), x);
      && (x.Take? && x.id !in s.conns && x.id in v.conns ==>
            BitOf(v.conns[x.id]) in v.taken && Ownerless(s, BitOf(v.conns[x.id])))
      && (Cleared(s, x).Some? ==>
            || Ownerless(s, Cleared(s, x).value)
            || (Live(s, x.id) && Cleared(s, x) == Some(BitOf(s.conns[x.id]))))
  }

  // ---- owners

  /** Nobody answers for a bit exactly when no network, no creation and no live connection has it. */
  lemma OwnerlessExactly(s: State, b: (Slot, nat))
    requires Inv(s) && Balance(s)
    ensures Ownerless(s, b) <==> UnownedGate(s.net, b) && forall i :: Live(s, i) ==> BitOf(s.conns[i]) != b
  {
    UnownedGateIsFree(s.net, b);
    if !Ownerless(s, b) {
      match s.net.ips[b]
      case Stored(n) => assert n in StoredGates(s.net.nets) && StoredGates(s.net.nets)[n] == b;
      case Held(p) => assert p in HeldGates(s.net.procs) && HeldGates(s.net.procs)[p] == b;
      case Rented(i) => assert Live(s, i) && BitOf(s.conns[i]) == b;
    }
  }

  // ---- steps of creations and deletions

  lemma NetKeepsRent(s: State, e: L.Event)
    requires Inv(s) && Balance(s)
    ensures RentAccount(Step(s, Net(e))) <==>
            (StrayBit(s.net, e).Some? ==> forall i :: Live(s, i) ==> BitOf(s.conns[i]) != StrayBit(s.net, e).value)
  {
    var t := Step(s, Net(e));
    forall i | Live(s, i)
      ensures BitOf(s.conns[i]) in t.net.ips && t.net.ips[BitOf(s.conns[i])] == Rented(i)
              <==> StrayBit(s.net, e) != Some(BitOf(s.conns[i]))
    {
      RentedBitKept(s, e, i);
    }
  }

  lemma RentedBitKept(s: State, e: L.Event, i: nat)
    requires Inv(s) && Balance(s) && Live(s, i)
    ensures var b, t := BitOf(s.conns[i]), L.Step(s.net, e);
            b in t.ips && t.ips[b] == Rented(i) <==> StrayBit(s.net, e) != Some(b)
  {
    var b := BitOf(s.conns[i]);
    if GateTouched(s.net, e) == Some(b) {
      GateTouchedBy(s.net, e, b);
    } else {
      GateUntouched(s.net, e, b);
    }
  }

  lemma NetKeepsKnown(s: State, e: L.Event)
    requires RentedKnown(s)
    ensures RentedKnown(Step(s, Net(e)))
  {
    var t := L.Step(s.net, e);
    forall b | b in t.ips && t.ips[b].Rented?
      ensures t.ips[b].id in s.conns && BitOf(s.conns[t.ips[b].id]) == b
    {
      if GateTouched(s.net, e) == Some(b) {
        T.TouchedGateOwner(s.net, e, b);
      } else {
        GateUntouched(s.net, e, b);
      }
    }
  }

  lemma NetExact(s: State, e: L.Event)
    requires Inv(s) && Balance(s)
    ensures Balance(Step(s, Net(e))) <==> Proper(s, Net(e))
  {
    StepKeepsVnis(s.net, e);
    StepKeepsGates(s.net, e);
    NetKeepsRent(s, e);
    if StrayBit(s.net, e).Some? {
      OwnerlessExactly(s, StrayBit(s.net, e).value);
    }
  }

  // ---- steps of connections

  /** The networks and processes are untouched, so only the owners of addresses count. */
  lemma NetHalf(s: State, t: State)
    requires VniAccount(s.net) && t.net == s.net.(slots := t.net.slots, ips := t.net.ips)
    ensures VniAccount(t.net)
    ensures GateAccount(t.net) <==> Balanced(t.net.ips, StoredGates(s.net.nets), HeldGates(s.net.procs), map[])
  {
  }

  /** A request that gets a new connection. */
  predicate Joins(s: State, e: C.Event) {
    e.Take? && e.id !in s.conns && e.id in C.Step(View(s), e).conns
  }

  lemma JoinShape(s: State, e: C.Event)
    requires Joins(s, e) && NetworkInv(s.net)
    ensures var v := C.Step(View(s), e); var c := v.conns[e.id];
            && v.conns == s.conns[e.id := c] && c.Live()
            && (v.taken == s.net.ips.Keys || v.taken == s.net.ips.Keys + {BitOf(c)})
            && s.net.slots <= v.slots && (BitOf(c) in v.taken ==> c.Slot() in v.slots)
  {
  }

  lemma JoinKeepsInv(s: State, e: C.Event)
    requires Inv(s) && Joins(s, e)
    ensures Inv(ConnStep(s, e))
  {
    JoinShape(s, e);
  }

  /** A request that gets a bit nobody answers for. */
  lemma JoinBalances(s: State, e: C.Event)
    requires Inv(s) && Balance(s) && Joins(s, e) && Proper(s, Conn(e))
    ensures Balance(ConnStep(s, e))
  {
    var v, t := C.Step(View(s), e), ConnStep(s, e);
    var b := BitOf(v.conns[e.id]);
    JoinShape(s, e);
    NetHalf(s, t);
    OwnerlessExactly(s, b);
    UnownedGateIsFree(s.net, b);
    Stray(s.net.ips, StoredGates(s.net.nets), HeldGates(s.net.procs), map[], b, Rented(e.id));
  }

  /** One that does not is a live connection without a bit of its own. */
  lemma JoinUnbalances(s: State, e: C.Event)
    requires Inv(s) && Joins(s, e) && !Proper(s, Conn(e))
    ensures !RentAccount(ConnStep(s, e))
  {
    var v, t := C.Step(View(s), e), ConnStep(s, e);
    JoinShape(s, e);
    assert t.net.ips == s.net.ips && Live(t, e.id);
  }

  lemma JoinExact(s: State, e: C.Event)
    requires Inv(s) && Balance(s) && Joins(s, e)
    ensures Balance(ConnStep(s, e)) <==> Proper(s, Conn(e))
  {
    if Proper(s, Conn(e)) {
      JoinBalances(s, e);
    } else {
      JoinUnbalances(s, e);
    }
  }

  /** Steps that change no bit: connections only get less alive. */
  lemma QuietShape(s: State, e: C.Event)
    requires !Joins(s, e) && Cleared(s, e).None? && !e.Create? && !e.Destroy?
    ensures var v := C.Step(View(s), e);
            && v.taken == s.net.ips.Keys && v.slots == s.net.slots && v.nets == View(s).nets
            && v.conns.Keys == s.conns.Keys
            && forall i :: i in s.conns ==>
                 BitOf(v.conns[i]) == BitOf(s.conns[i]) && (v.conns[i].Live() ==> s.conns[i].Live())
  {
  }

  lemma QuietExact(s: State, e: C.Event)
    requires Inv(s) && Balance(s) && !Joins(s, e) && Cleared(s, e).None? && !e.Create? && !e.Destroy?
    ensures Balance(ConnStep(s, e))
  {
    QuietShape(s, e);
    var t := ConnStep(s, e);
    assert t.net.ips == s.net.ips;
    NetHalf(s, t);
  }

  lemma ClearShape(s: State, e: C.Event)
    requires Cleared(s, e).Some?
    ensures var v := C.Step(View(s), e);
            && v.taken == s.net.ips.Keys - {Cleared(s, e).value} && v.slots == s.net.slots
            && e.id in s.conns && v.conns.Keys == s.conns.Keys && !v.conns[e.id].Live()
            && BitOf(v.conns[e.id]) == BitOf(s.conns[e.id])
            && forall i :: i in s.conns && i != e.id ==> v.conns[i] == s.conns[i]
  {
  }

  lemma ClearExact(s: State, e: C.Event)
    requires Inv(s) && Balance(s) && Cleared(s, e).Some?
    ensures Balance(ConnStep(s, e)) <==> Proper(s, Conn(e))
  {
    var t, b := ConnStep(s, e), Cleared(s, e).value;
    ClearShape(s, e);
    assert t.net.ips == s.net.ips - {b};
    NetHalf(s, t);
    UnownedGateIsFree(s.net, b);
    Erased(s.net.ips, StoredGates(s.net.nets), HeldGates(s.net.procs), map[], b);
    OwnerlessExactly(s, b);
    ClearedRent(s, t, e.id, b);
  }

  /** The other live connections keep their bits, exactly if none of them has b. */
  lemma ClearedRent(s: State, t: State, id: nat, b: (Slot, nat))
    requires Balance(s) && t.net.ips == s.net.ips - {b}
    requires id in s.conns && t.conns.Keys == s.conns.Keys && !t.conns[id].Live()
    requires forall i :: i in s.conns && i != id ==> t.conns[i] == s.conns[i]
    ensures RentAccount(t) <==> forall i :: Live(s, i) && i != id ==> BitOf(s.conns[i]) != b
    ensures Live(s, id) && BitOf(s.conns[id]) == b ==> UnownedGate(s.net, b) && RentAccount(t)
  {
    if RentAccount(t) {
      forall i | Live(s, i) && i != id
        ensures BitOf(s.conns[i]) != b
      {
        assert Live(t, i);
      }
    }
    if Live(s, id) && BitOf(s.conns[id]) == b {
      RentedIsUnowned(s, b);
    }
  }

  lemma RentedIsUnowned(s: State, b: (Slot, nat))
    requires GateAccount(s.net) && b in s.net.ips && s.net.ips[b].Rented?
    ensures UnownedGate(s.net, b)
  {
    UnownedGateIsFree(s.net, b);
  }

  // ---- every step

  /** Every step of every process and every connection keeps the balance if and only if it is
      proper. */
  lemma StepKeepsBalance(s: State, e: Event)
    requires Inv(s) && Balance(s)
    ensures Balance(Step(s, e)) <==> Proper(s, e)
  {
    match e
    case Net(x) => NetExact(s, x);
    case Conn(x) =>
      if !x.Create? && !x.Destroy? {
        if Joins(s, x) {
          JoinExact(s, x);
        } else if Cleared(s, x).Some? {
          ClearExact(s, x);
        } else {
          QuietExact(s, x);
        }
      } else {
        CreationsElsewhere(s, x);
      }
  }

  lemma CreationsElsewhere(s: State, e: C.Event)
    requires e.Create? || e.Destroy?
    ensures Step(s, Conn(e)) == s && Proper(s, Conn(e))
  {
  }

  ghost predicate ProperRun(events: seq<Event>) {
    forall i :: 0 <= i < |events| ==> Proper(Run(events[..i]), events[i])
  }

  lemma ProperPrefix(events: seq<Event>, k: nat)
    requires ProperRun(events) && k <= |events|
    ensures ProperRun(events[..k])
  {
    forall i | 0 <= i < k
      ensures Proper(Run(events[..k][..i]), events[..k][i])
    {
      assert events[..k][..i] == events[..i];
    }
  }

  lemma ConnKeepsInv(s: State, e: C.Event)
    requires Inv(s) && !e.Create? && !e.Destroy?
    ensures Inv(ConnStep(s, e))
  {
    if Joins(s, e) {
      JoinKeepsInv(s, e);
    } else if Cleared(s, e).Some? {
      ClearShape(s, e);
    } else {
      QuietShape(s, e);
    }
  }

  lemma StepKeepsInv(s: State, e: Event)
    requires Inv(s)
    ensures Inv(Step(s, e))
  {
    match e
    case Net(x) =>
      NetworkStepKeepsInv(s.net, x);
      NetKeepsKnown(s, x);
    case Conn(x) =>
      if !x.Create? && !x.Destroy? {
        ConnKeepsInv(s, x);
      }
  }

  /** In every run, proper or not. */
  lemma {:induction false} RunKeepsInv(events: seq<Event>)
    ensures Inv(Run(events))
  {
    if events != [] {
      RunKeepsInv(events[..|events| - 1]);
      StepKeepsInv(Run(events[..|events| - 1]), events[|events| - 1]);
    }
  }

  lemma StartBalanced()
    ensures Balance(START)
  {
  }

  lemma {:induction false} RunKeepsBalance(events: seq<Event>)
    requires ProperRun(events)
    ensures Balance(Run(events))
  {
    if events == [] {
      StartBalanced();
    } else {
      var k := |events| - 1;
      ProperPrefix(events, k);
      RunKeepsBalance(events[..k]);
      RunKeepsInv(events[..k]);
      StepKeepsBalance(Run(events[..k]), events[k]);
    }
  }

  lemma BalancedIsProper(events: seq<Event>, i: nat)
    requires i < |events| && Balance(Run(events[..i])) && Balance(Run(events[..i + 1]))
    ensures Proper(Run(events[..i]), events[i])
  {
    var next := events[..i + 1];
    assert next[..|next| - 1] == events[..i];
    RunKeepsInv(events[..i]);
    StepKeepsBalance(Run(events[..i]), events[i]);
  }

  /** The balance holds throughout a run if and only if every step of the run is proper. */
  lemma BalancedExactly(events: seq<Event>)
    ensures (forall k :: 0 <= k <= |events| ==> Balance(Run(events[..k]))) <==> ProperRun(events)
  {
    if ProperRun(events) {
      forall k | 0 <= k <= |events|
        ensures Balance(Run(events[..k]))
      {
        ProperPrefix(events, k);
        RunKeepsBalance(events[..k]);
      }
    }
    if forall k :: 0 <= k <= |events| ==> Balance(Run(events[..k])) {
      forall i | 0 <= i < |events|
        ensures Proper(Run(events[..i]), events[i])
      {
        BalancedIsProper(events, i);
      }
    }
  }

  // ---- what the balance means

  /** Two live connections on one bitmap have different addresses and different MACs. */
  lemma ConnectionsApart(s: State, i: nat, j: nat)
    requires Balance(s) && Live(s, i) && Live(s, j) && i != j && s.conns[i].Slot() == s.conns[j].Slot()
    requires s.conns[i].bit < UINT32 && s.conns[j].bit < UINT32
    ensures s.conns[i].Addr() != s.conns[j].Addr() && s.conns[i].Mac() != s.conns[j].Mac()
  {
    var c, d := s.conns[i], s.conns[j];
    assert c.bit != d.bit;
    PositionInverse(c.subnet, c.bit + 1);
    PositionInverse(d.subnet, d.bit + 1);
    if c.Mac() == d.Mac() {
      C.MacInjective(c.Addr(), d.Addr());
    }
  }

  /** In every proper run: stored networks have different VNIs; the gateway bit of every stored
      network and of every creation, and the address bit of every live connection, is set; and
      no two of them are the same. */
  lemma EverybodyApart(events: seq<Event>)
    requires ProperRun(events)
    ensures var s := Run(events);
            && (forall n, m :: n in s.net.nets.entries && m in s.net.nets.entries && n != m ==>
                  s.net.nets.entries[n].value.vni != s.net.nets.entries[m].value.vni)
            && (forall i, n :: Live(s, i) && n in s.net.nets.entries ==>
                  s.net.nets.entries[n].value.Gate() != Some(BitOf(s.conns[i])))
            && (forall i, p :: Live(s, i) && p in s.net.procs ==> GateOf(s.net.procs[p]) != Some(BitOf(s.conns[i])))
            && (forall i, j :: Live(s, i) && Live(s, j) && i != j ==> BitOf(s.conns[i]) != BitOf(s.conns[j]))
            && (forall i :: Live(s, i) ==> BitOf(s.conns[i]) in s.net.ips)
            && (forall n :: n in s.net.nets.entries && s.net.nets.entries[n].value.gate.Some? ==>
                  s.net.nets.entries[n].value.Gate().value in s.net.ips)
  {
    RunKeepsBalance(events);
    var s := Run(events);
    assert forall n :: n in s.net.nets.entries ==> n in StoredVnis(s.net.nets);
    assert forall n :: n in s.net.nets.entries && s.net.nets.entries[n].value.gate.Some? ==>
        n in StoredGates(s.net.nets);
    forall i | Live(s, i)
      ensures UnownedGate(s.net, BitOf(s.conns[i]))
    {
      RentedIsUnowned(s, BitOf(s.conns[i]));
    }
  }

  // ---- the allocator calls of a run

  function CallOf(s: State, e: Event): Option<Op> {
    match e
    case Net(x) => NetOp(s.net, x)
    case Conn(x) => if x.Create? || x.Destroy? then None else ConnOp(View(s), x)
  }

  function CallerOf(e: Event): nat {
    match e
    case Net(x) => x.p
    case Conn(x) => Caller(x)
  }

  function Trace(events: seq<Event>): seq<Commit> {
    if events == [] then []
    else
      var k := |events| - 1;
      var s := Run(events[..k]);
      Trace(events[..k]) +
      match CallOf(s, events[k])
      case None => []
      case Some(op) => [CommitOf(CallerOf(events[k]), k, op, NetTaken(s.net))]
  }

  /** An address operation does not look at the VNI bitmap. */
  lemma AddressEffect(s: L.State, op: Op)
    requires NetworkInv(s) && op.Slot().Ips?
    ensures EffectOf(op, NetTaken(s)) == EffectOf(op, s.ips.Keys)
  {
    FirstFreeGateway(s, op.Slot());
  }

  lemma AddressTaken(s: L.State, t: L.State, slot: Slot, e: Effect)
    requires slot.Ips? && t.vnis == s.vnis && t.ips.Keys == ApplyAt(s.ips.Keys, slot, e)
    ensures NetTaken(t) == ApplyAt(NetTaken(s), slot, e)
  {
    if e != Keep {
      VniBit(s.vnis.Keys, (slot, e.bit));
    }
  }

  lemma ConnStepTaken(s: State, e: C.Event)
    requires NetworkInv(s.net) && !e.Create? && !e.Destroy?
    ensures ConnStep(s, e).net.ips.Keys == C.Step(View(s), e).taken
  {
    if Joins(s, e) {
      JoinShape(s, e);
    } else if Cleared(s, e).Some? {
      ClearShape(s, e);
    } else {
      QuietShape(s, e);
    }
  }

  lemma ConnStepEmbeds(s: State, x: C.Event)
    requires NetworkInv(s.net) && !x.Create? && !x.Destroy?
    ensures View(ConnStep(s, x)) == C.Step(View(s), x)
  {
    ConnStepTaken(s, x);
    assert C.Step(View(s), x).nets == View(s).nets;
  }

  /** In every run a step of a connection is, seen from the connections, exactly that step on its
      own, so what is proved of it there holds here; and it touches no process, no VNI and no
      record. */
  lemma ConnectionsEmbed(events: seq<Event>, x: C.Event)
    requires !x.Create? && !x.Destroy?
    ensures var s, t := Run(events), Run(events + [Conn(x)]);
            && View(t) == C.Step(View(s), x)
            && t.net.nets == s.net.nets && t.net.vnis == s.net.vnis && t.net.procs == s.net.procs
            && t.net.log == s.net.log
  {
    assert (events + [Conn(x)])[..|events|] == events;
    RunKeepsInv(events);
    ConnStepEmbeds(Run(events), x);
  }

  lemma ConnCall(s: State, e: C.Event)
    requires NetworkInv(s.net) && !e.Create? && !e.Destroy?
    ensures NetTaken(ConnStep(s, e).net) == AfterCall(NetTaken(s.net), ConnOp(View(s), e))
    ensures ConnOp(View(s), e).Some? ==> CanCommit(ConnOp(View(s), e).value, NetTaken(s.net))
  {
    ConnStepTaken(s, e);
    ConnectionStep(View(s), e);
    match ConnOp(View(s), e)
    case None =>
    case Some(op) =>
      AddressEffect(s.net, op);
      AddressTaken(s.net, ConnStep(s, e).net, op.Slot(), EffectOf(op, s.net.ips.Keys));
  }

  lemma ClusterStep(s: State, e: Event)
    requires NetworkInv(s.net)
    ensures NetTaken(Step(s, e).net) == AfterCall(NetTaken(s.net), CallOf(s, e))
    ensures CallOf(s, e).Some? ==> CanCommit(CallOf(s, e).value, NetTaken(s.net))
  {
    match e
    case Net(x) => NetworkStep(s.net, x);
    case Conn(x) => if !x.Create? && !x.Destroy? { ConnCall(s, x); }
  }

  lemma CallExplains(h: seq<Commit>, taken: Bits, op: Option<Op>, client: nat, call: nat)
    requires Explains(h, taken) && (op.Some? ==> CanCommit(op.value, taken))
    ensures op.None? ==> Explains(h + [], AfterCall(taken, op))
    ensures op.Some? ==> Explains(h + [CommitOf(client, call, op.value, taken)], AfterCall(taken, op))
  {
    match op
    case None => assert h + [] == h;
    case Some(o) => CommitExplains(h, taken, CommitOf(client, call, o, taken));
  }

  /** In every run of creations, deletions and connections together, proper or not, the VNI
      bitmap and the address bitmaps are exactly what the run's own allocator calls, one after
      the other, make of them. */
  lemma {:induction false} ClusterUsesAllocator(events: seq<Event>)
    ensures Explains(Trace(events), NetTaken(Run(events).net))
  {
    if events == [] {
      ExplainsNone();
      assert NetTaken(L.START) == {};
    } else {
      var k := |events| - 1;
      var s := Run(events[..k]);
      ClusterUsesAllocator(events[..k]);
      RunKeepsInv(events[..k]);
      ClusterStep(s, events[k]);
      CallExplains(Trace(events[..k]), NetTaken(s.net), CallOf(s, events[k]), CallerOf(events[k]), k);
    }
  }

  /** In every run a bit that a call set, a gateway's or a connection's, is set until a later call
      names exactly it. */
  lemma SetUntilReleasedInCluster(events: seq<Event>, j: nat)
    requires j < |Trace(events)| && Trace(events)[j].effect.Insert?
    ensures var T := Trace(events);
            || (T[j].op.Slot(), T[j].effect.bit) in NetTaken(Run(events).net)
            || exists m :: GivenBack(T, j, m)
  {
    ClusterUsesAllocator(events);
    SetUntilGivenBack(Trace(events), NetTaken(Run(events).net), j);
  }
}
