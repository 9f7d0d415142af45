/** What every attempt of CreateNetwork took and gave back, commit by commit: its VNI and its
    gateway are the answers to its own calls, and an attempt that loses its name leaves both
    bitmaps as if it had never run. */
module Attempts {
  import opened Store
  import opened Addresses
  import opened Keys
  import opened Accounts
  import opened Allocator
  import opened AllocatorTheorems
  import L = Lifecycle
  import opened Conservation
  import opened Refinement

  // ---- the commits of an attempt

  /** Commit i is p's allocateVNI, and answered v. */
  predicate Allocated(T: seq<Commit>, p: nat, v: nat, i: nat) {
    i < |T| && T[i].client == p && T[i].op == AllocateVNI && 1 <= v == T[i].ret && T[i].effect == Insert(v - 1)
  }

  /** Commit x is p's RequestIP for net: step x.call of the run E looked for an interface, and
      the record is what that interface and the answer make of it. */
  predicate Sourced(E: seq<L.Event>, x: Commit, p: nat, net: L.Network) {
    && x.client == p && x.op.RequestIP? && x.op.vni == net.vni && x.ret >= 1
    && x.effect == (if x.ret - 1 < x.op.Slot().Bound() then Insert(x.ret - 1) else Keep)
    && x.call < |E| && E[x.call].TakeGateway? && E[x.call].p == p
    && net == L.Built(net.name, x.op.subnet, net.vni, x.ret - 1, E[x.call].iface)
  }

  /** Commits i and j are p's calls for the VNI and the gateway of net. */
  predicate Took(E: seq<L.Event>, T: seq<Commit>, p: nat, net: L.Network, i: nat, j: nat) {
    Allocated(T, p, net.vni, i) && i < j < |T| && Sourced(E, T[j], p, net)
  }

  /** The gateway of a record is the answer of its RequestIP, on the same subnet, if and only if
      there was no interface or the interface has just that address. */
  lemma AnswerIsGateway(E: seq<L.Event>, x: Commit, p: nat, net: L.Network)
    requires Sourced(E, x, p, net)
    ensures var iface, answer := E[x.call].iface, AddressOf(x.op.subnet, x.ret);
            net.subnet == x.op.subnet && net.gateway == answer <==>
            iface.None? || iface.value == L.Iface(answer, x.op.subnet)
    ensures net.gate.Some? ==> x.op == RequestIP(net.vni, net.subnet) && x.effect == Insert(net.gate.value)
  {
  }

  /** The commit sets or clears the bit. */
  predicate Hits(x: Commit, slot: Slot, bit: int) {
    x.op.Slot() == slot && x.effect != Keep && x.effect.bit == bit
  }

  /** No commit from number `from` up to `to` changes the bit. */
  predicate Intact(T: seq<Commit>, from: nat, to: nat, slot: Slot, bit: int)
    requires to <= |T|
  {
    forall m :: from <= m < to ==> !Hits(T[m], slot, bit)
  }

  /** Process p has made no commit from number `from` on but these. */
  predicate Quiet(T: seq<Commit>, p: nat, from: nat, but: set<nat>) {
    forall m :: from <= m < |T| && m !in but ==> T[m].client != p
  }

  predicate GateIntact(T: seq<Commit>, net: L.Network, j: nat, calm: bool) {
    calm && net.gate.Some? ==> Intact(T, j + 1, |T|, net.Slot(), net.gate.value)
  }

  /** `calm` says that the run is admissible. */
  predicate OwnVni(T: seq<Commit>, p: nat, v: nat, i: nat, calm: bool) {
    Allocated(T, p, v, i) && (calm ==> Intact(T, i + 1, |T|, Vlans, v - 1)) && Quiet(T, p, i + 1, {})
  }

  predicate OwnBoth(E: seq<L.Event>, T: seq<Commit>, p: nat, net: L.Network, i: nat, j: nat, calm: bool) {
    && Took(E, T, p, net, i, j) && Quiet(T, p, i + 1, {j})
    && (calm ==> Intact(T, i + 1, |T|, Vlans, net.vni - 1)) && GateIntact(T, net, j, calm)
  }

  /** The VNI was given back by commit k, the gateway not yet. */
  predicate OwnGate(E: seq<L.Event>, T: seq<Commit>, p: nat, net: L.Network, i: nat, j: nat, k: nat, calm: bool) {
    && Took(E, T, p, net, i, j) && j < k < |T| && Quiet(T, p, i + 1, {j, k})
    && T[k].client == p && T[k].op == ReleaseVNI(net.vni) && T[k].effect == Erase(net.vni - 1)
    && (calm ==> Intact(T, i + 1, k, Vlans, net.vni - 1)) && GateIntact(T, net, j, calm)
  }

  ghost predicate Own(E: seq<L.Event>, T: seq<Commit>, p: nat, q: L.Proc, calm: bool) {
    match q
    case Requesting(_, _, v) => exists i :: OwnVni(T, p, v, i, calm)
    case Building(net) => exists i, j :: OwnBoth(E, T, p, net, i, j, calm)
    case Putting(net) => exists i, j :: OwnBoth(E, T, p, net, i, j, calm)
    case Writing(net) => exists i, j :: OwnBoth(E, T, p, net, i, j, calm)
    case Undoing(net) => exists i, j :: OwnBoth(E, T, p, net, i, j, calm)
    case UndoingGateway(net) => exists i, j, k :: OwnGate(E, T, p, net, i, j, k, calm)
    case _ => true
  }

  // ---- a commit of another process

  /** x neither is p's nor sets or clears a bit that p owns. */
  predicate Spares(x: Commit, p: nat, q: L.Proc, calm: bool) {
    && x.client != p
    && (calm && VniOf(q).Some? ==> !Hits(x, Vlans, VniOf(q).value - 1))
    && (calm && GateOf(q).Some? ==> !Hits(x, GateOf(q).value.0, GateOf(q).value.1))
  }

  lemma OwnVniGrows(T: seq<Commit>, x: Commit, p: nat, v: nat, i: nat, calm: bool)
    requires OwnVni(T, p, v, i, calm) && x.client != p
    requires calm ==> !Hits(x, Vlans, v - 1)
    ensures OwnVni(T + [x], p, v, i, calm)
  {
  }

  lemma OwnBothGrows(E: seq<L.Event>, T: seq<Commit>, x: Commit, p: nat, net: L.Network, i: nat, j: nat, calm: bool)
    requires OwnBoth(E, T, p, net, i, j, calm) && Spares(x, p, L.Building(net), calm)
    ensures OwnBoth(E, T + [x], p, net, i, j, calm)
  {
  }

  lemma OwnGateGrows(
    E: seq<L.Event>, T: seq<Commit>, x: Commit, p: nat, net: L.Network, i: nat, j: nat, k: nat, calm: bool)
    requires OwnGate(E, T, p, net, i, j, k, calm) && Spares(x, p, L.UndoingGateway(net), calm)
    ensures OwnGate(E, T + [x], p, net, i, j, k, calm)
  {
  }

  lemma OwnGrows(E: seq<L.Event>, T: seq<Commit>, x: Commit, p: nat, q: L.Proc, calm: bool)
    requires Own(E, T, p, q, calm) && Spares(x, p, q, calm)
    ensures Own(E, T + [x], p, q, calm)
  {
    if q.Requesting? {
      var i :| OwnVni(T, p, q.vni, i, calm);
      OwnVniGrows(T, x, p, q.vni, i, calm);
    } else if q.UndoingGateway? {
      var i, j, k :| OwnGate(E, T, p, q.net, i, j, k, calm);
      OwnGateGrows(E, T, x, p, q.net, i, j, k, calm);
    } else if q.Building? || q.Putting? || q.Writing? || q.Undoing? {
      var i, j :| OwnBoth(E, T, p, q.net, i, j, calm);
      OwnBothGrows(E, T, x, p, q.net, i, j, calm);
    }
  }

  /** The bit a step's commit changes is the one the account says it touches. */
  lemma CommitTouches(s: L.State, e: L.Event, call: nat)
    requires NetworkInv(s) && NetOp(s, e).Some?
    ensures var x := NetCommit(s, e, call);
            && (x.op.Slot() == Vlans && x.effect != Keep ==>
                  VniTouched(s, e) == Some(x.effect.bit + 1) && (e.TakeVni? || e.UndoVni? || e.ReleaseVni?))
            && (x.op.Slot().Ips? && x.effect != Keep ==>
                  GateTouched(s, e) == Some((x.op.Slot(), x.effect.bit)) && (e.TakeGateway? || e.UndoGateway?))
  {
    var q := s.At(e.p);
    if e.TakeVni? {
      FirstFreeVni(s);
    } else if e.TakeGateway? {
      FirstFreeGateway(s, Ips(q.vni, q.subnet));
    }
  }

  /** Both accounts balance, and the step keeps them balanced. */
  ghost predicate Calm(s: L.State, e: L.Event) {
    VniAccount(s) && GateAccount(s) && VniAdmissible(s, e) && GateAdmissible(s, e)
  }

  /** In an admissible run a commit spares what every other process owns. */
  lemma CommitSpares(s: L.State, e: L.Event, call: nat, p: nat, calm: bool)
    requires NetworkInv(s) && NetOp(s, e).Some? && p in s.procs && p != e.p && (calm ==> Calm(s, e))
    ensures Spares(NetCommit(s, e, call), p, s.procs[p], calm)
  {
    var q := s.procs[p];
    CommitTouches(s, e, call);
    if calm && VniOf(q).Some? && VniTouched(s, e) == Some(VniOf(q).value) {
      OthersVniUntouched(s, e, p);
    }
    if calm && GateOf(q).Some? && GateTouched(s, e) == GateOf(q) {
      OthersGateUntouched(s, e, p);
    }
  }

  /** No step but a DELETE touches the VNI of another creation, ... */
  lemma OthersVniUntouched(s: L.State, e: L.Event, p: nat)
    requires VniAccount(s) && VniAdmissible(s, e) && p in s.procs && p != e.p
    requires VniOf(s.procs[p]).Some? && !e.Delete?
    ensures VniTouched(s, e) != VniOf(s.procs[p])
  {
    HoldsNow(s, p);
    if VniTouched(s, e) == VniOf(s.procs[p]) {
      VniTouchedBy(s, e, VniOf(s.procs[p]).value);
    }
  }

  /** ... or its gateway. */
  lemma OthersGateUntouched(s: L.State, e: L.Event, p: nat)
    requires NetworkInv(s) && GateAccount(s) && GateAdmissible(s, e) && p in s.procs && p != e.p
    requires GateOf(s.procs[p]).Some? && !e.Delete?
    ensures GateTouched(s, e) != GateOf(s.procs[p])
  {
    HoldsNow(s, p);
    if GateTouched(s, e) == GateOf(s.procs[p]) {
      GateTouchedBy(s, e, GateOf(s.procs[p]).value);
    }
  }

  // ---- the commits of the process itself

  lemma TookVni(s: L.State, p: nat, E: seq<L.Event>, T: seq<Commit>, calm: bool)
    requires NetworkInv(s) && s.At(p).Allocating? && L.FreeVni(s.vnis, 1) <= VLAN_COUNT
    ensures var t, x := L.DoTakeVni(s, p), NetCommit(s, L.TakeVni(p), |E|);
            Own(E + [L.TakeVni(p)], T + [x], p, t.At(p), calm)
  {
    FirstFreeVni(s);
    var v := L.FreeVni(s.vnis, 1);
    assert OwnVni(T + [NetCommit(s, L.TakeVni(p), |E|)], p, v, |T|, calm);
  }

  lemma RequestSourced(s: L.State, p: nat, E: seq<L.Event>, iface: Option<L.Iface>)
    requires NetworkInv(s) && s.At(p).Requesting?
    ensures var t, e := L.DoTakeGateway(s, p, iface), L.TakeGateway(p, iface);
            (t.At(p).Building? || t.At(p).Putting?) && Sourced(E + [e], NetCommit(s, e, |E|), p, t.At(p).net)
  {
    FirstFreeGateway(s, Ips(s.At(p).vni, s.At(p).subnet));
  }

  lemma TookGateway(s: L.State, p: nat, E: seq<L.Event>, T: seq<Commit>, iface: Option<L.Iface>, calm: bool)
    requires NetworkInv(s) && s.At(p).Requesting? && Own(E, T, p, s.At(p), calm)
    ensures var t, e := L.DoTakeGateway(s, p, iface), L.TakeGateway(p, iface);
            Own(E + [e], T + [NetCommit(s, e, |E|)], p, t.At(p), calm)
  {
    var q, t, e := s.At(p), L.DoTakeGateway(s, p, iface), L.TakeGateway(p, iface);
    var x := NetCommit(s, e, |E|);
    RequestSourced(s, p, E, iface);
    var i :| OwnVni(T, p, q.vni, i, calm);
    assert OwnBoth(E + [e], T + [x], p, t.At(p).net, i, |T|, calm);
  }

  lemma GaveVni(s: L.State, p: nat, E: seq<L.Event>, T: seq<Commit>, calm: bool)
    requires NetworkInv(s) && s.At(p).Undoing? && Own(E, T, p, s.At(p), calm)
    ensures var t, x := L.DoUndoVni(s, p), NetCommit(s, L.UndoVni(p), |E|);
            Own(E + [L.UndoVni(p)], T + [x], p, t.At(p), calm)
  {
    var net, x := s.At(p).net, NetCommit(s, L.UndoVni(p), |E|);
    var i, j :| OwnBoth(E, T, p, net, i, j, calm);
    assert OwnGate(E + [L.UndoVni(p)], T + [x], p, net, i, j, |T|, calm);
  }

  /** What was owned is owned at the next step of the run. */
  lemma OwnLater(E: seq<L.Event>, e: L.Event, T: seq<Commit>, p: nat, q: L.Proc, calm: bool)
    requires Own(E, T, p, q, calm)
    ensures Own(E + [e], T, p, q, calm)
  {
    if q.UndoingGateway? {
      var i, j, k :| OwnGate(E, T, p, q.net, i, j, k, calm);
      assert OwnGate(E + [e], T, p, q.net, i, j, k, calm);
    } else if q.Building? || q.Putting? || q.Writing? || q.Undoing? {
      var i, j :| OwnBoth(E, T, p, q.net, i, j, calm);
      assert OwnBoth(E + [e], T, p, q.net, i, j, calm);
    }
  }

  /** Without a commit a process keeps what it owned or is done with it. */
  lemma OwnMoves(s: L.State, e: L.Event, E: seq<L.Event>, T: seq<Commit>, calm: bool)
    requires NetOp(s, e).None? && Own(E, T, e.p, s.At(e.p), calm)
    ensures Own(E, T, e.p, L.Step(s, e).At(e.p), calm)
  {
  }

  lemma MoverOwns(s: L.State, e: L.Event, E: seq<L.Event>, T: seq<Commit>, calm: bool)
    requires NetworkInv(s) && Own(E, T, e.p, s.At(e.p), calm) && NetOp(s, e).Some?
    ensures Own(E + [e], T + [NetCommit(s, e, |E|)], e.p, L.Step(s, e).At(e.p), calm)
  {
    match e
    case TakeVni(p) => TookVni(s, p, E, T, calm);
    case TakeGateway(p, iface) => TookGateway(s, p, E, T, iface, calm);
    case UndoVni(p) => GaveVni(s, p, E, T, calm);
    case _ =>
  }

  // ---- every run

  ghost predicate AllOwn(s: L.State, E: seq<L.Event>, T: seq<Commit>, calm: bool) {
    forall p :: p in s.procs ==> Own(E, T, p, s.procs[p], calm)
  }

  lemma OneOwns(s: L.State, e: L.Event, E: seq<L.Event>, T: seq<Commit>, calm: bool, p: nat)
    requires NetworkInv(s) && (calm ==> Calm(s, e)) && Own(E, T, p, s.At(p), calm)
    ensures Own(E + [e], Extended(s, e, T, |E|), p, L.Step(s, e).At(p), calm)
  {
    if p != e.p {
      OwnLater(E, e, T, p, s.At(p), calm);
      if NetOp(s, e).Some? && p in s.procs {
        CommitSpares(s, e, |E|, p, calm);
        OwnGrows(E + [e], T, NetCommit(s, e, |E|), p, s.procs[p], calm);
      }
    } else if NetOp(s, e).Some? {
      MoverOwns(s, e, E, T, calm);
    } else {
      OwnMoves(s, e, E, T, calm);
      OwnLater(E, e, T, p, L.Step(s, e).At(p), calm);
    }
  }

  lemma StepKeepsOwn(s: L.State, e: L.Event, E: seq<L.Event>, T: seq<Commit>, calm: bool)
    requires NetworkInv(s) && (calm ==> Calm(s, e)) && AllOwn(s, E, T, calm)
    ensures AllOwn(L.Step(s, e), E + [e], Extended(s, e, T, |E|), calm)
  {
    var t := L.Step(s, e);
    forall p | p in t.procs
      ensures Own(E + [e], Extended(s, e, T, |E|), p, t.procs[p], calm)
    {
      assert p in s.procs ==> Own(E, T, p, s.procs[p], calm);
      OneOwns(s, e, E, T, calm, p);
    }
  }

  /** Both accounts of the run balance. */
  ghost predicate CalmRun(events: seq<L.Event>) {
    AdmissibleRun(events, Vnis) && AdmissibleRun(events, Gateways)
  }

  lemma CalmStep(events: seq<L.Event>, k: nat)
    requires CalmRun(events) && k < |events|
    ensures CalmRun(events[..k]) && Calm(L.Run(events[..k]), events[k])
  {
    AdmissiblePrefix(events, Vnis, k);
    AdmissiblePrefix(events, Gateways, k);
    RunKeepsAccount(events[..k], Vnis);
    RunKeepsAccount(events[..k], Gateways);
    assert Admissible(L.Run(events[..k]), events[k], Vnis) && Admissible(L.Run(events[..k]), events[k], Gateways);
  }

  lemma TraceNext(before: seq<L.Event>, e: L.Event)
    ensures L.Run(before + [e]) == L.Step(L.Run(before), e)
    ensures NetTrace(before + [e]) == Extended(L.Run(before), e, NetTrace(before), |before|)
  {
    assert (before + [e])[..|before|] == before;
  }

  ghost predicate OwnedIn(events: seq<L.Event>, calm: bool) {
    AllOwn(L.Run(events), events, NetTrace(events), calm)
  }

  lemma OwnsNext(before: seq<L.Event>, e: L.Event, calm: bool)
    requires OwnedIn(before, calm) && (calm ==> Calm(L.Run(before), e))
    ensures OwnedIn(before + [e], calm)
  {
    RunKeepsRecords(before);
    StepKeepsOwn(L.Run(before), e, before, NetTrace(before), calm);
    TraceNext(before, e);
  }

  lemma {:induction false} RunOwns(events: seq<L.Event>, calm: bool)
    requires calm ==> CalmRun(events)
    ensures OwnedIn(events, calm)
  {
    if events != [] {
      var k := |events| - 1;
      if calm {
        CalmStep(events, k);
      }
      RunOwns(events[..k], calm);
      OwnsNext(events[..k], events[k], calm);
      assert events[..k] + [events[k]] == events;
    }
  }

  // ---- records

  /** Some process's calls answered the VNI and the gateway of the record. */
  ghost predicate Answered(E: seq<L.Event>, T: seq<Commit>, net: L.Network) {
    exists p, i, j :: Took(E, T, p, net, i, j)
  }

  /** Every record that is stored, and every one that was deleted. */
  ghost predicate RecordsAnswered(s: L.State, E: seq<L.Event>, T: seq<Commit>) {
    && (forall n :: n in s.nets.entries ==> Answered(E, T, s.nets.entries[n].value))
    && (forall x :: x in s.log && x.Deleted? ==> Answered(E, T, x.net))
  }

  ghost predicate AnsweredIn(events: seq<L.Event>) {
    RecordsAnswered(L.Run(events), events, NetTrace(events))
  }

  lemma AnsweredGrows(E: seq<L.Event>, e: L.Event, T: seq<Commit>, U: seq<Commit>, net: L.Network)
    requires Answered(E, T, net)
    ensures Answered(E + [e], T + U, net)
  {
    var p, i, j :| Took(E, T, p, net, i, j);
    assert Took(E + [e], T + U, p, net, i, j);
  }

  /** A record enters the store only from a process that owns what it names. */
  lemma NewRecord(s: L.State, e: L.Event, n: string)
    requires n in L.Step(s, e).nets.entries
    requires n !in s.nets.entries || L.Step(s, e).nets.entries[n] != s.nets.entries[n]
    ensures e.p in s.procs && s.procs[e.p].Writing? && L.Step(s, e).nets.entries[n].value == s.procs[e.p].net
  {
    if !e.Write? && !e.Delete? {
      L.QuietSteps(s, e);
    }
  }

  lemma NewDeletion(s: L.State, e: L.Event, x: L.LogEntry)
    requires x in L.Step(s, e).log && x !in s.log && x.Deleted?
    ensures x.name in s.nets.entries && x.net == s.nets.entries[x.name].value
  {
    if !e.Write? && !e.Delete? {
      L.QuietSteps(s, e);
    }
  }

  lemma StoredAnswered(s: L.State, e: L.Event, E: seq<L.Event>, T: seq<Commit>, n: string)
    requires RecordsAnswered(s, E, T) && AllOwn(s, E, T, false) && n in L.Step(s, e).nets.entries
    ensures Answered(E, T, L.Step(s, e).nets.entries[n].value)
  {
    if n !in s.nets.entries || L.Step(s, e).nets.entries[n] != s.nets.entries[n] {
      NewRecord(s, e, n);
      WriterAnswered(E, T, e.p, s.procs[e.p]);
    }
  }

  lemma WriterAnswered(E: seq<L.Event>, T: seq<Commit>, p: nat, q: L.Proc)
    requires q.Writing? && Own(E, T, p, q, false)
    ensures Answered(E, T, q.net)
  {
    var i, j :| OwnBoth(E, T, p, q.net, i, j, false);
  }

  lemma StepKeepsAnswered(s: L.State, e: L.Event, E: seq<L.Event>, T: seq<Commit>)
    requires RecordsAnswered(s, E, T) && AllOwn(s, E, T, false)
    ensures RecordsAnswered(L.Step(s, e), E + [e], Extended(s, e, T, |E|))
  {
    var t := L.Step(s, e);
    var U := if NetOp(s, e).None? then [] else [NetCommit(s, e, |E|)];
    assert Extended(s, e, T, |E|) == T + U;
    forall n | n in t.nets.entries
      ensures Answered(E + [e], T + U, t.nets.entries[n].value)
    {
      StoredAnswered(s, e, E, T, n);
      AnsweredGrows(E, e, T, U, t.nets.entries[n].value);
    }
    forall x | x in t.log && x.Deleted?
      ensures Answered(E + [e], T + U, x.net)
    {
      if x !in s.log {
        NewDeletion(s, e, x);
      }
      AnsweredGrows(E, e, T, U, x.net);
    }
  }

  /** In every run the VNI of every network, stored or deleted, is the answer of the allocateVNI
      of the call that created it, and its record is what RequestIP's answer and the interface
      found at that time make of it: see AnswerIsGateway. */
  lemma {:induction false} RecordsOwnTheirAnswers(events: seq<L.Event>)
    ensures AnsweredIn(events)
  {
    if events != [] {
      var k := |events| - 1;
      RecordsOwnTheirAnswers(events[..k]);
      RunOwns(events[..k], false);
      AnsweredNext(events[..k], events[k]);
      assert events[..k] + [events[k]] == events;
    }
  }

  lemma AnsweredNext(before: seq<L.Event>, e: L.Event)
    requires AnsweredIn(before) && OwnedIn(before, false)
    ensures AnsweredIn(before + [e])
  {
    StepKeepsAnswered(L.Run(before), e, before, NetTrace(before));
    TraceNext(before, e);
  }

  /** The gateway of every network, stored or deleted, whose creation took a bit for it is taken
      until a ReleaseIP names exactly that bit: DeleteNetwork does not. */
  lemma GatewayTakenUntilReleased(events: seq<L.Event>, net: L.Network) returns (j: nat)
    requires Answered(events, NetTrace(events), net) && net.gate.Some?
    ensures var T := NetTrace(events);
            && j < |T| && T[j].op == RequestIP(net.vni, net.subnet) && T[j].effect == Insert(net.gate.value)
            && (net.Gate().value in L.Run(events).ips || exists m :: GivenBack(T, j, m))
  {
    var T := NetTrace(events);
    var p, i, k :| Took(events, T, p, net, i, k);
    j := k;
    NetworksUseAllocator(events);
    AnswerIsGateway(events, T[j], p, net);
    SetUntilGivenBack(T, NetTaken(L.Run(events)), j);
    VniBit(L.Run(events).vnis.Keys, net.Gate().value);
  }

  // ---- the attempt that loses

  /** The four commits of a losing attempt, in their order. */
  predicate Attempt(p: nat, net: L.Network, x: Commit, g: Commit, y: Commit, z: Commit) {
    && x.client == g.client == y.client == z.client == p
    && x.op == AllocateVNI && x.ret == net.vni
    && g.op == RequestIP(net.vni, net.subnet) && AddressOf(net.subnet, g.ret) == net.gateway
    && y.op == ReleaseVNI(net.vni)
    && z.op == ReleaseIP(net.gateway, net.subnet, net.vni)
  }

  /** What is appended to both sides changes nothing between them. */
  lemma {:induction false} SameReplay(g: seq<Commit>, h: seq<Commit>, c: seq<Commit>, slot: Slot)
    requires Replay(g, slot) == Replay(h, slot)
    ensures Replay(g + c, slot) == Replay(h + c, slot)
  {
    if c == [] {
      assert g + c == g && h + c == h;
    } else {
      var front := c[..|c| - 1];
      SameReplay(g, h, front, slot);
      assert (g + c)[..|g + c| - 1] == g + front && (h + c)[..|h + c| - 1] == h + front;
    }
  }

  /** A pair of commits inside another history. */
  lemma PairCancels(a: seq<Commit>, x: Commit, b: seq<Commit>, y: Commit, c: seq<Commit>, slot: Slot)
    requires x.effect.Insert? && y.op.Slot() == x.op.Slot() && y.effect == Erase(x.effect.bit)
    requires Untouched(b, x.op.Slot(), x.effect.bit) && x.effect.bit !in Replay(a, x.op.Slot())
    ensures Replay(a + [x] + b + [y] + c, slot) == Replay(a + b + c, slot)
  {
    CancelledAllocation(a, x, b, y, slot);
    SameReplay(a + [x] + b + [y], a + b, c, slot);
  }

  /** Both pairs of an attempt, interleaved as they are. */
  lemma BothPairsCancel(
    a: seq<Commit>, x: Commit, b: seq<Commit>, g: Commit, c: seq<Commit>, y: Commit, d: seq<Commit>, z: Commit,
    slot: Slot)
    requires x.effect.Insert? && y.op.Slot() == x.op.Slot() && y.effect == Erase(x.effect.bit)
    requires g.effect.Insert? && z.op.Slot() == g.op.Slot() && z.effect == Erase(g.effect.bit)
    requires g.op.Slot() != x.op.Slot()
    requires x.effect.bit !in Replay(a, x.op.Slot()) && g.effect.bit !in Replay(a + [x] + b, g.op.Slot())
    requires Untouched(b + [g] + c, x.op.Slot(), x.effect.bit) && Untouched(c + [y] + d, g.op.Slot(), g.effect.bit)
    ensures Replay(a + [x] + b + [g] + c + [y] + d + [z], slot) == Replay(a + b + c + d, slot)
  {
    FirstPairCancels(a, x, b, g, c, y, d, z, slot);
    assert forall w :: w in b ==> w in b + [g] + c;
    DetourAddsOneBit(a, x, b, g.op.Slot());
    SecondPairCancels(a + b, g, c, y, d, z, slot);
  }

  lemma FirstPairCancels(
    a: seq<Commit>, x: Commit, b: seq<Commit>, g: Commit, c: seq<Commit>, y: Commit, d: seq<Commit>, z: Commit,
    slot: Slot)
    requires x.effect.Insert? && y.op.Slot() == x.op.Slot() && y.effect == Erase(x.effect.bit)
    requires x.effect.bit !in Replay(a, x.op.Slot()) && Untouched(b + [g] + c, x.op.Slot(), x.effect.bit)
    ensures Replay(a + [x] + b + [g] + c + [y] + d + [z], slot) == Replay(a + b + [g] + (c + d) + [z], slot)
  {
    var mid := b + [g] + c;
    PairCancels(a, x, mid, y, d + [z], slot);
    assert a + [x] + mid + [y] + (d + [z]) == a + [x] + b + [g] + c + [y] + d + [z];
    assert a + mid + (d + [z]) == a + b + [g] + (c + d) + [z];
  }

  lemma SecondPairCancels(
    a: seq<Commit>, g: Commit, c: seq<Commit>, y: Commit, d: seq<Commit>, z: Commit, slot: Slot)
    requires g.effect.Insert? && z.op.Slot() == g.op.Slot() && z.effect == Erase(g.effect.bit)
    requires g.effect.bit !in Replay(a, g.op.Slot()) && Untouched(c + [y] + d, g.op.Slot(), g.effect.bit)
    ensures Replay(a + [g] + (c + d) + [z], slot) == Replay(a + c + d, slot)
  {
    assert forall w :: w in c + d ==> w in c + [y] + d;
    CancelledAllocation(a, g, c + d, z, slot);
    assert a + (c + d) == a + c + d;
  }

  /** Commits between two numbers, as a sequence. */
  lemma IntactSlice(T: seq<Commit>, from: nat, to: nat, slot: Slot, bit: nat)
    requires from <= to <= |T| && Intact(T, from, to, slot, bit)
    ensures Untouched(T[from..to], slot, bit)
  {
  }

  /** The bit an allocation took was clear before it. */
  lemma WasClear(T: seq<Commit>, i: nat)
    requires History(T) && i < |T| && T[i].op.Allocates() && T[i].effect.Insert?
    ensures T[i].effect.bit !in Replay(T[..i], T[i].op.Slot())
  {
    AllocationTakesFreeBit(T[i].op, Replay(T[..i], T[i].op.Slot()), T[i].effect, T[i].ret);
  }

  lemma CutOut(T: seq<Commit>, i: nat, j: nat, k: nat)
    requires i < j < k < |T|
    ensures T == T[..i] + [T[i]] + T[i + 1..j] + [T[j]] + T[j + 1..k] + [T[k]] + T[k + 1..]
    ensures T[..i] + [T[i]] + T[i + 1..j] == T[..j]
    ensures T[i + 1..j] + [T[j]] + T[j + 1..k] == T[i + 1..k]
    ensures T[j + 1..k] + [T[k]] + T[k + 1..] == T[j + 1..]
  {
  }

  lemma AttemptCancels(
    E: seq<L.Event>, T: seq<Commit>, p: nat, net: L.Network, i: nat, j: nat, k: nat, z: Commit, slot: Slot)
    requires History(T) && OwnGate(E, T, p, net, i, j, k, true) && net.Valid() && net.gate.Some?
    requires z.op.Slot() == net.Slot() && z.effect == Erase(net.gate.value)
    ensures Replay(T + [z], slot) == Replay(T[..i] + T[i + 1..j] + T[j + 1..k] + T[k + 1..], slot)
  {
    assert Allocated(T, p, net.vni, i);
    AnswerIsGateway(E, T[j], p, net);
    WasClear(T, i);
    WasClear(T, j);
    IntactSlice(T, i + 1, k, Vlans, net.vni - 1);
    IntactSlice(T, j + 1, |T|, net.Slot(), net.gate.value);
    CutCancels(T, i, j, k, z, slot);
  }

  /** The same for three commits of a history and one more, wherever they stand. */
  lemma CutCancels(T: seq<Commit>, i: nat, j: nat, k: nat, z: Commit, slot: Slot)
    requires i < j < k < |T|
    requires T[i].effect.Insert? && T[k].op.Slot() == T[i].op.Slot() && T[k].effect == Erase(T[i].effect.bit)
    requires T[j].effect.Insert? && z.op.Slot() == T[j].op.Slot() && z.effect == Erase(T[j].effect.bit)
    requires T[j].op.Slot() != T[i].op.Slot()
    requires T[i].effect.bit !in Replay(T[..i], T[i].op.Slot()) && T[j].effect.bit !in Replay(T[..j], T[j].op.Slot())
    requires Untouched(T[i + 1..k], T[i].op.Slot(), T[i].effect.bit)
    requires Untouched(T[j + 1..], T[j].op.Slot(), T[j].effect.bit)
    ensures Replay(T + [z], slot) == Replay(T[..i] + T[i + 1..j] + T[j + 1..k] + T[k + 1..], slot)
  {
    CutOut(T, i, j, k);
    BothPairsCancel(T[..i], T[i], T[i + 1..j], T[j], T[j + 1..k], T[k], T[k + 1..], z, slot);
  }

  /** The last step of an undo and its commit. */
  lemma UndoCommit(events: seq<L.Event>, p: nat) returns (z: Commit)
    requires L.Run(events).At(p).UndoingGateway? && L.Run(events).At(p).net.gate.Some?
    requires L.Run(events).At(p).net.Slot() in L.Run(events).slots
    ensures var net, after := L.Run(events).At(p).net, events + [L.UndoGateway(p)];
            && NetTrace(after) == NetTrace(events) + [z]
            && L.Run(after).At(p).Looking?
            && z.client == p && z.op == ReleaseIP(net.gateway, net.subnet, net.vni)
            && z.effect == Erase(net.gate.value)
  {
    var s, e := L.Run(events), L.UndoGateway(p);
    RunKeepsRecords(events);
    assert ValidProc(s.procs[p]);
    TraceNext(events, e);
    z := UndoStep(s, p, |events|);
  }

  lemma UndoStep(s: L.State, p: nat, call: nat) returns (z: Commit)
    requires s.At(p).UndoingGateway? && s.At(p).net.Valid() && s.At(p).net.gate.Some?
    requires s.At(p).net.Slot() in s.slots
    ensures var net, e := s.At(p).net, L.UndoGateway(p);
            && NetOp(s, e).Some? && z == NetCommit(s, e, call)
            && L.Step(s, e).At(p).Looking?
            && z.client == p && z.op == ReleaseIP(net.gateway, net.subnet, net.vni)
            && z.effect == Erase(net.gate.value)
  {
    GatewayErased(s.At(p).net, NetTaken(s));
    z := NetCommit(s, L.UndoGateway(p), call);
  }

  lemma GatewayErased(net: L.Network, taken: Bits)
    requires net.Valid() && net.gate.Some?
    ensures EffectOf(ReleaseIP(net.gateway, net.subnet, net.vni), taken) == Erase(net.gate.value)
  {
    L.GatewayNamesItsBit({net.Slot()}, net);
  }

  /** The commits of T but these four, in their order; the last one is the fourth. */
  function Others(T: seq<Commit>, i: nat, j: nat, k: nat): seq<Commit>
    requires i < j < k < |T| - 1
  {
    T[..i] + T[i + 1..j] + T[j + 1..k] + T[k + 1..|T| - 1]
  }

  /** Commits i, j, k and the last one are p's attempt to create net, and p made no other
      commit since it began. */
  predicate IsAttempt(T: seq<Commit>, p: nat, net: L.Network, i: nat, j: nat, k: nat) {
    && i < j < k < |T| - 1
    && Attempt(p, net, T[i], T[j], T[k], T[|T| - 1])
    && Quiet(T, p, i + 1, {j, k, |T| - 1})
  }

  lemma AttemptNamed(
    E: seq<L.Event>, T: seq<Commit>, p: nat, net: L.Network, i: nat, j: nat, k: nat, z: Commit)
    requires OwnGate(E, T, p, net, i, j, k, true) && net.gate.Some?
    requires z.client == p && z.op == ReleaseIP(net.gateway, net.subnet, net.vni)
    ensures IsAttempt(T + [z], p, net, i, j, k)
  {
    AnswerIsGateway(E, T[j], p, net);
  }

  lemma OthersAre(T: seq<Commit>, z: Commit, i: nat, j: nat, k: nat)
    requires i < j < k < |T|
    ensures Others(T + [z], i, j, k) == T[..i] + T[i + 1..j] + T[j + 1..k] + T[k + 1..]
  {
    assert (T + [z])[k + 1..|T|] == T[k + 1..];
  }

  lemma CommitsOfAttempt(events: seq<L.Event>, p: nat) returns (i: nat, j: nat, k: nat)
    requires CalmRun(events) && L.Run(events).At(p).UndoingGateway?
    ensures OwnGate(events, NetTrace(events), p, L.Run(events).At(p).net, i, j, k, true)
  {
    RunOwns(events, true);
    assert Own(events, NetTrace(events), p, L.Run(events).procs[p], true);
    i, j, k :| OwnGate(events, NetTrace(events), p, L.Run(events).At(p).net, i, j, k, true);
  }

  lemma UndoFindsBitmap(events: seq<L.Event>, p: nat)
    requires AdmissibleRun(events, Gateways)
    requires L.Run(events).At(p).UndoingGateway? && L.Run(events).At(p).net.gate.Some?
    ensures L.Run(events).At(p).net.Valid() && L.Run(events).At(p).net.Slot() in L.Run(events).slots
  {
    RunKeepsRecords(events);
    RunKeepsAccount(events, Gateways);
    HoldsNow(L.Run(events), p);
    assert ValidProc(L.Run(events).procs[p]);
  }

  /** A creator that finds its name taken gives back its VNI and its gateway. When it has,
      both bitmaps, and every other, are those of the other commits alone, in their order:
      as if this attempt had never run. */
  lemma LosingAttemptUndone(events: seq<L.Event>, p: nat) returns (i: nat, j: nat, k: nat)
    requires CalmRun(events) && L.Run(events).At(p).UndoingGateway? && L.Run(events).At(p).net.gate.Some?
    ensures var after := events + [L.UndoGateway(p)];
            && L.Run(after).At(p).Looking?
            && IsAttempt(NetTrace(after), p, L.Run(events).At(p).net, i, j, k)
            && forall slot :: BitsOf(NetTaken(L.Run(after)), slot) == Replay(Others(NetTrace(after), i, j, k), slot)
  {
    var T, net, after := NetTrace(events), L.Run(events).At(p).net, events + [L.UndoGateway(p)];
    UndoFindsBitmap(events, p);
    var z := UndoCommit(events, p);
    NetworksUseAllocator(events);
    NetworksUseAllocator(after);
    i, j, k := CommitsOfAttempt(events, p);
    AttemptNamed(events, T, p, net, i, j, k, z);
    OthersAre(T, z, i, j, k);
    forall slot
      ensures BitsOf(NetTaken(L.Run(after)), slot) == Replay(Others(NetTrace(after), i, j, k), slot)
    {
      AttemptCancels(events, T, p, net, i, j, k, z, slot);
    }
  }
}
