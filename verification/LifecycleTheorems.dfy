/** What the account means for networks, and the runs that break it. */
module LifecycleTheorems {
  import opened Store
  import opened Addresses
  import opened Keys
  import opened Accounts
  import opened Lifecycle
  import opened Conservation

  /** Stored networks never share a VNI, and so never an address bitmap. */
  lemma NetworksDistinct(events: seq<Event>, a: string, b: string)
    requires AdmissibleRun(events, Vnis)
    requires a in Run(events).nets.entries && b in Run(events).nets.entries && a != b
    ensures var e := Run(events).nets.entries;
            e[a].value.vni != e[b].value.vni && e[a].value.Slot() != e[b].value.Slot()
  {
    RunKeepsAccount(events, Vnis);
    var s := Run(events);
    assert StoredVnis(s.nets)[a] in s.vnis && StoredVnis(s.nets)[b] in s.vnis;
  }

  // ---- which deletions may give their VNI back

  /** After a DELETE that was told OK nobody owns the VNI found if and only if the DELETE was
      served and that VNI was still the stored one's, or nobody owned it before. */
  lemma DeletionFreesVni(s: State, p: nat, d: Delivery)
    requires VniAccount(s) && s.At(p).Deleting? && (d.Delivered? || d.ServerError?)
    ensures var net := s.At(p).net;
            Unowned(DoDelete(s, p, d), net.vni) <==>
            || (d.Delivered? && net.name in s.nets.entries && s.nets.entries[net.name].value.vni == net.vni)
            || Unowned(s, net.vni)
  {
    var net, t := s.At(p).net, DoDelete(s, p, d);
    if d.Delivered? && net.name in s.nets.entries && s.nets.entries[net.name].value.vni == net.vni {
      OwnerIsAlone(s, net.name);
    }
    OthersStillOwn(s, p, d);
  }

  lemma OwnerIsAlone(s: State, name: string)
    requires VniAccount(s) && name in s.nets.entries
    ensures var v := s.nets.entries[name].value.vni;
            && (forall n :: n in s.nets.entries && n != name ==> s.nets.entries[n].value.vni != v)
            && (forall q :: q in s.procs ==> VniOf(s.procs[q]) != Some(v))
  {
    assert StoredVnis(s.nets)[name] in s.vnis;
    assert forall n :: n in s.nets.entries ==> n in StoredVnis(s.nets);
    assert forall q :: q in s.procs && VniOf(s.procs[q]).Some? ==> q in HeldVnis(s.procs);
  }

  /** A DELETE takes the VNI from the record it removes and from nobody else. */
  lemma OthersStillOwn(s: State, p: nat, d: Delivery)
    requires s.At(p).Deleting?
    ensures var net, t := s.At(p).net, DoDelete(s, p, d);
            && (forall n :: n in t.nets.entries <==>
                  n in s.nets.entries && (n != net.name || d.ServerError? || d.RequestLost?))
            && (forall n :: n in t.nets.entries ==> t.nets.entries[n] == s.nets.entries[n])
            && (forall q :: q in t.procs ==> VniOf(t.At(q)) == VniOf(s.At(q)))
            && (forall q :: q in s.procs ==> q in t.procs)
  {
  }

  // ---- deletions one at a time

  /** The name a process is about to delete. */
  function Doomed(q: Proc): Option<string> {
    match q
    case Finding(name) => Some(name)
    case Deleting(net) => Some(net.name)
    case _ => None
  }

  /** Whoever is about to delete a record has seen the stored one, ... */
  ghost predicate FoundIsStored(s: State) {
    forall p :: p in s.procs && s.procs[p].Deleting? ==> s.nets.Lookup(s.procs[p].net.name) == Some(s.procs[p].net)
  }

  /** ... whoever is about to give a VNI back has it, ... */
  ghost predicate ClaimsHeld(s: State) {
    forall p :: p in s.procs && s.procs[p].Releasing? ==>
      s.procs[p].net.vni in s.vnis && s.vnis[s.procs[p].net.vni] == Held(p)
  }

  /** ... and no two processes are about to delete one name. */
  ghost predicate DeletersDistinct(s: State) {
    forall p, q :: p in s.procs && q in s.procs && p != q && Doomed(s.procs[p]).Some? ==>
      Doomed(s.procs[p]) != Doomed(s.procs[q])
  }

  ghost predicate Serial(s: State) {
    FoundIsStored(s) && ClaimsHeld(s) && DeletersDistinct(s)
  }

  /** A deletion starts only when no other deletion of that name is under way, and the server
      does not refuse a DELETE with an error page. */
  ghost predicate SerialStep(s: State, e: Event) {
    && (e.StartDelete? ==> forall q :: q in s.procs ==> Doomed(s.procs[q]) != Some(e.name))
    && (e.Delete? ==> !e.d.ServerError?)
  }

  lemma SerialIsAdmissible(s: State, e: Event)
    requires VniAccount(s) && Serial(s)
    ensures VniAdmissible(s, e)
  {
    if e.ReleaseVni? && s.At(e.p).Releasing? {
      var v := s.At(e.p).net.vni;
      HoldsNow(s, e.p);
      UnownedIsFree(s, v);
      ClaimedIsFree(s.vnis, StoredVnis(s.nets), HeldVnis(s.procs), ClaimedVnis(s.procs), e.p, v);
    }
  }

  /** A step moves one process, and a VNI on its way back stays with its process. */
  lemma KeepsClaims(s: State, e: Event, p: nat)
    requires VniAccount(s) && p in s.procs && s.procs[p].Releasing? && p != e.p
    requires s.procs[p].net.vni in s.vnis && s.vnis[s.procs[p].net.vni] == Held(p)
    requires e.ReleaseVni? && s.At(e.p).Releasing? ==>
               s.At(e.p).net.vni in s.vnis && s.vnis[s.At(e.p).net.vni] == Held(e.p)
    ensures var v := s.procs[p].net.vni; v in Step(s, e).vnis && Step(s, e).vnis[v] == Held(p)
  {
    var v := s.procs[p].net.vni;
    if VniTouched(s, e) == Some(v) {
      VniTouchedBy(s, e, v);
    } else {
      VniUntouched(s, e, v);
    }
  }

  /** A deletion that has just found its record, and one that has just deleted it. */
  lemma FinderSerial(s: State, e: Event)
    requires NetworkInv(s) && Serial(s) && SerialStep(s, e) && e.Find?
    ensures var q, t := Step(s, e).At(e.p), Step(s, e);
            && (q.Deleting? ==> t.nets.Lookup(q.net.name) == Some(q.net)) && !(q.Releasing? && q != s.At(e.p))
            && (Doomed(q).Some? ==> Doomed(q) == Doomed(s.At(e.p)))
  {
  }

  lemma DeleterSerial(s: State, p: nat, d: Delivery)
    requires VniAccount(s) && Serial(s) && s.At(p).Deleting? && !d.ServerError?
    ensures var q, t := DoDelete(s, p, d).At(p), DoDelete(s, p, d);
            Doomed(q) == None && (q.Releasing? ==> q.net.vni in t.vnis && t.vnis[q.net.vni] == Held(p))
  {
    assert s.At(p).net.name in StoredVnis(s.nets);
  }

  /** No other step makes a process a deleter. */
  lemma BystanderSerial(s: State, e: Event)
    requires !e.Find? && !e.Delete? && !e.StartDelete?
    ensures var q := Step(s, e).At(e.p);
            || (q == s.At(e.p) && Step(s, e) == s)
            || (Doomed(q) == None && !q.Releasing?)
  {
  }

  lemma MoverSerial(s: State, e: Event)
    requires VniAccount(s) && NetworkInv(s) && Serial(s) && SerialStep(s, e)
    ensures var q, t := Step(s, e).At(e.p), Step(s, e);
            && (q.Deleting? ==> t.nets.Lookup(q.net.name) == Some(q.net))
            && (q.Releasing? ==> q.net.vni in t.vnis && t.vnis[q.net.vni] == Held(e.p))
            && (Doomed(q).Some? ==> Doomed(q) == Doomed(s.At(e.p)) || e.StartDelete?)
  {
    if e.Find? {
      FinderSerial(s, e);
    } else if e.Delete? {
      if s.At(e.p).Deleting? {
        DeleterSerial(s, e.p, e.d);
      }
    } else if !e.StartDelete? {
      BystanderSerial(s, e);
    }
  }

  lemma OthersSerial(s: State, e: Event, p: nat)
    requires Serial(s) && SerialStep(s, e) && p in s.procs && p != e.p && s.procs[p].Deleting?
    ensures Step(s, e).nets.Lookup(s.procs[p].net.name) == Some(s.procs[p].net)
  {
    if !e.Write? && !e.Delete? {
      QuietSteps(s, e);
    }
  }

  lemma StepKeepsFound(s: State, e: Event)
    requires VniAccount(s) && NetworkInv(s) && Serial(s) && SerialStep(s, e)
    ensures FoundIsStored(Step(s, e))
  {
    var t := Step(s, e);
    forall p | p in t.procs && t.procs[p].Deleting?
      ensures t.nets.Lookup(t.procs[p].net.name) == Some(t.procs[p].net)
    {
      if p == e.p {
        MoverSerial(s, e);
      } else {
        OthersSerial(s, e, p);
      }
    }
  }

  lemma StepKeepsClaims(s: State, e: Event)
    requires VniAccount(s) && NetworkInv(s) && Serial(s) && SerialStep(s, e)
    ensures ClaimsHeld(Step(s, e))
  {
    var t := Step(s, e);
    forall p | p in t.procs && t.procs[p].Releasing?
      ensures t.procs[p].net.vni in t.vnis && t.vnis[t.procs[p].net.vni] == Held(p)
    {
      if p == e.p {
        MoverSerial(s, e);
      } else {
        KeepsClaims(s, e, p);
      }
    }
  }

  lemma StepKeepsDistinct(s: State, e: Event)
    requires VniAccount(s) && NetworkInv(s) && Serial(s) && SerialStep(s, e)
    ensures DeletersDistinct(Step(s, e))
  {
    MoverSerial(s, e);
    var t := Step(s, e);
    forall p, q | p in t.procs && q in t.procs && p != q && Doomed(t.procs[p]).Some?
      ensures Doomed(t.procs[p]) != Doomed(t.procs[q])
    {
      assert Doomed(s.At(e.p)).Some? ==> e.p in s.procs;
    }
  }

  lemma StepKeepsSerial(s: State, e: Event)
    requires VniAccount(s) && NetworkInv(s) && Serial(s) && SerialStep(s, e)
    ensures Serial(Step(s, e))
  {
    StepKeepsFound(s, e);
    StepKeepsClaims(s, e);
    StepKeepsDistinct(s, e);
  }

  ghost predicate SerialRun(events: seq<Event>) {
    forall i :: 0 <= i < |events| ==> SerialStep(Run(events[..i]), events[i])
  }

  lemma SerialPrefix(events: seq<Event>)
    requires SerialRun(events) && events != []
    ensures SerialRun(events[..|events| - 1])
  {
    var before := events[..|events| - 1];
    forall i | 0 <= i < |before|
      ensures SerialStep(Run(before[..i]), before[i])
    {
      assert before[..i] == events[..i];
    }
  }

  /** Deletions of a name one at a time, and no error page, are enough: every such run is
      admissible, so its account balances. */
  lemma {:induction false} SerialRunAdmissible(events: seq<Event>)
    requires SerialRun(events)
    ensures AdmissibleRun(events, Vnis) && Serial(Run(events))
  {
    if events != [] {
      var k := |events| - 1;
      SerialPrefix(events);
      SerialRunAdmissible(events[..k]);
      RunKeepsAccount(events[..k], Vnis);
      RunKeepsRecords(events[..k]);
      SerialIsAdmissible(Run(events[..k]), events[k]);
      StepKeepsSerial(Run(events[..k]), events[k]);
      AdmissibleExtends(events, Vnis);
    }
  }

  // ---- what is lost, and exactly when

  /** No VNI, or no address, was taken by a call that did not finish its work. */
  ghost predicate NoneLost(s: State, kind: Kind) {
    if kind.Vnis? then forall v :: v in s.vnis ==> s.vnis[v] != Lost else forall b :: b in s.ips ==> s.ips[b] != Lost
  }

  /** A setup succeeds, a PUT is accepted and served, and a DELETE that removes a record is
      answered and meets the VNI that was found. */
  predicate KeepsVni(s: State, e: Event) {
    var q := s.At(e.p);
    && (e.Setup? && q.Building? ==> e.ok)
    && (e.Write? && q.Writing? ==> Commits(s.nets, q.net.name, 0, e.d))
    && (e.Delete? && q.Deleting? && (e.d.Delivered? || e.d.ReplyLost?) && q.net.name in s.nets.entries ==>
          e.d.Delivered? && s.nets.entries[q.net.name].value.vni == q.net.vni)
  }

  /** A setup succeeds, a PUT is accepted and served, and an interface that existed has the
      address that RequestIP answers. */
  predicate KeepsGate(s: State, e: Event) {
    var q := s.At(e.p);
    && (e.Setup? && q.Building? && q.net.gate.Some? ==> e.ok)
    && (e.Write? && q.Writing? && q.net.gate.Some? ==> Commits(s.nets, q.net.name, 0, e.d))
    && (e.TakeGateway? && q.Requesting? ==>
          var k := FreeBit(s.ips.Keys, Ips(q.vni, q.subnet), 0);
          k < Ips(q.vni, q.subnet).Bound() ==> Built(q.name, q.subnet, q.vni, k, e.iface).gate.Some?)
  }

  predicate Keeps(s: State, e: Event, kind: Kind) {
    if kind.Vnis? then KeepsVni(s, e) else KeepsGate(s, e)
  }

  lemma OwnVniHeld(s: State, p: nat)
    requires VniAccount(s)
    ensures VniOf(s.At(p)).Some? ==> VniOf(s.At(p)).value in s.vnis && s.vnis[VniOf(s.At(p)).value] == Held(p)
    ensures forall n :: n in s.nets.entries ==> s.nets.entries[n].value.vni in s.vnis
  {
    HoldsNow(s, p);
    assert forall n :: n in s.nets.entries ==> n in StoredVnis(s.nets);
  }

  lemma OwnGateHeld(s: State, p: nat)
    requires GateAccount(s)
    ensures GateOf(s.At(p)).Some? ==> GateOf(s.At(p)).value in s.ips && s.ips[GateOf(s.At(p)).value] == Held(p)
  {
    HoldsNow(s, p);
  }

  /** A step that loses a VNI loses the one it touches. */
  lemma VniLostExactly(s: State, e: Event)
    requires VniAccount(s) && NoneLost(s, Vnis)
    ensures NoneLost(Step(s, e), Vnis) <==> KeepsVni(s, e)
  {
    OwnVniHeld(s, e.p);
    var t := Step(s, e);
    if VniTouched(s, e).Some? {
      var v := VniTouched(s, e).value;
      TouchedVniFate(s, e, v);
    }
    forall v | v in t.vnis && VniTouched(s, e) != Some(v)
      ensures t.vnis[v] != Lost
    {
      VniUntouched(s, e, v);
    }
  }

  lemma TouchedVniFate(s: State, e: Event, v: nat)
    requires VniTouched(s, e) == Some(v) && NoneLost(s, Vnis)
    requires VniOf(s.At(e.p)).Some? ==> VniOf(s.At(e.p)).value in s.vnis
    requires forall n :: n in s.nets.entries ==> s.nets.entries[n].value.vni in s.vnis
    ensures v in Step(s, e).vnis && Step(s, e).vnis[v] == Lost <==> !KeepsVni(s, e)
  {
    if e.Delete? {
      DroppedVniFate(s, e.p, e.d, v);
    }
  }

  lemma DroppedVniFate(s: State, p: nat, d: Delivery, v: nat)
    requires VniTouched(s, Event.Delete(p, d)) == Some(v) && v in s.vnis && s.vnis[v] != Lost
    ensures v in DoDelete(s, p, d).vnis && DoDelete(s, p, d).vnis[v] == Lost <==> !KeepsVni(s, Event.Delete(p, d))
  {
  }

  lemma GateLostExactly(s: State, e: Event)
    requires NetworkInv(s) && GateAccount(s) && NoneLost(s, Gateways)
    ensures NoneLost(Step(s, e), Gateways) <==> KeepsGate(s, e)
  {
    OwnGateHeld(s, e.p);
    var t := Step(s, e);
    if GateTouched(s, e).Some? {
      TouchedGateFate(s, e, GateTouched(s, e).value);
    }
    forall b | b in t.ips && GateTouched(s, e) != Some(b)
      ensures t.ips[b] != Lost
    {
      GateUntouched(s, e, b);
    }
  }

  lemma TouchedGateFate(s: State, e: Event, b: (Slot, nat))
    requires GateTouched(s, e) == Some(b) && NoneLost(s, Gateways)
    requires GateOf(s.At(e.p)).Some? ==> GateOf(s.At(e.p)).value in s.ips
    ensures b in Step(s, e).ips && Step(s, e).ips[b] == Lost <==> !KeepsGate(s, e)
  {
    if e.Delete? {
      DroppedGateFate(s, e.p, e.d, b);
    }
  }

  lemma DroppedGateFate(s: State, p: nat, d: Delivery, b: (Slot, nat))
    requires b in s.ips ==> s.ips[b] != Lost
    ensures b in DoDelete(s, p, d).ips ==> DoDelete(s, p, d).ips[b] != Lost
  {
  }

  lemma LostExactly(s: State, e: Event, kind: Kind)
    requires NetworkInv(s) && Account(s, kind) && NoneLost(s, kind)
    ensures NoneLost(Step(s, e), kind) <==> Keeps(s, e, kind)
  {
    if kind.Vnis? {
      VniLostExactly(s, e);
    } else {
      GateLostExactly(s, e);
    }
  }

  ghost predicate KeepingRun(events: seq<Event>, kind: Kind) {
    forall i :: 0 <= i < |events| ==> Keeps(Run(events[..i]), events[i], kind)
  }

  lemma {:induction false} KeepingRunLosesNone(events: seq<Event>, kind: Kind)
    requires AdmissibleRun(events, kind) && KeepingRun(events, kind)
    ensures NoneLost(Run(events), kind)
  {
    if events != [] {
      var k := |events| - 1;
      var before := events[..k];
      forall i | 0 <= i < k
        ensures Keeps(Run(before[..i]), before[i], kind)
      {
        assert before[..i] == events[..i];
      }
      AdmissiblePrefix(events, kind, k);
      KeepingRunLosesNone(before, kind);
      RunKeepsAccount(before, kind);
      RunKeepsRecords(before);
      LostExactly(Run(before), events[k], kind);
    }
  }

  lemma LossIsNotKept(events: seq<Event>, kind: Kind, i: nat)
    requires AdmissibleRun(events, kind) && i < |events|
    requires NoneLost(Run(events[..i]), kind) && NoneLost(Run(events[..i + 1]), kind)
    ensures Keeps(Run(events[..i]), events[i], kind)
  {
    var next := events[..i + 1];
    assert next[..|next| - 1] == events[..i];
    AdmissiblePrefix(events, kind, i);
    RunKeepsAccount(events[..i], kind);
    RunKeepsRecords(events[..i]);
    LostExactly(Run(events[..i]), events[i], kind);
  }

  lemma PrefixKeeps(events: seq<Event>, kind: Kind, k: nat)
    requires KeepingRun(events, kind) && k <= |events|
    ensures KeepingRun(events[..k], kind)
  {
    forall i | 0 <= i < k
      ensures Keeps(Run(events[..k][..i]), events[..k][i], kind)
    {
      assert events[..k][..i] == events[..i];
    }
  }

  /** Nothing is lost at any time of an admissible run if and only if every step keeps what it
      holds. A PUT that loses a race is a step that does not, and no fault is needed for it. */
  lemma LostInRunExactly(events: seq<Event>, kind: Kind)
    requires AdmissibleRun(events, kind)
    ensures (forall k :: 0 <= k <= |events| ==> NoneLost(Run(events[..k]), kind)) <==> KeepingRun(events, kind)
  {
    if KeepingRun(events, kind) {
      forall k | 0 <= k <= |events|
        ensures NoneLost(Run(events[..k]), kind)
      {
        AdmissiblePrefix(events, kind, k);
        PrefixKeeps(events, kind, k);
        KeepingRunLosesNone(events[..k], kind);
      }
    }
    if forall k :: 0 <= k <= |events| ==> NoneLost(Run(events[..k]), kind) {
      forall i | 0 <= i < |events|
        ensures Keeps(Run(events[..i]), events[i], kind)
      {
        LossIsNotKept(events, kind, i);
      }
    }
  }

  // ---- conservation

  /** Who may answer for what, in runs of creations and deletions alone. */
  ghost predicate PlainOwners(s: State) {
    && (forall v :: v in s.vnis ==> s.vnis[v].Stored? || s.vnis[v].Held? || s.vnis[v].Lost?)
    && (forall b :: b in s.ips ==> !s.ips[b].Rented?)
  }

  /** A step makes an owner of what it touches in one of these ways. */
  lemma TouchedVniOwner(s: State, e: Event, v: nat)
    requires VniTouched(s, e) == Some(v) && v in Step(s, e).vnis
    ensures var o := Step(s, e).vnis[v]; o.Stored? || o.Held? || o.Lost? || (v in s.vnis && o == s.vnis[v])
  {
  }

  lemma TouchedGateOwner(s: State, e: Event, b: (Slot, nat))
    requires GateTouched(s, e) == Some(b) && b in Step(s, e).ips
    ensures var o := Step(s, e).ips[b];
            o.Stored? || o.Held? || o.Lost? || (o.Retired? && e.Delete?) || (b in s.ips && o == s.ips[b])
  {
    if e.Delete? {
      DroppedGateOwner(s, e.p, e.d, b);
    }
  }

  lemma DroppedGateOwner(s: State, p: nat, d: Delivery, b: (Slot, nat))
    requires b in DoDelete(s, p, d).ips
    ensures b in s.ips && (DoDelete(s, p, d).ips[b].Retired? || DoDelete(s, p, d).ips[b] == s.ips[b])
  {
  }

  lemma StepKeepsPlain(s: State, e: Event)
    requires PlainOwners(s)
    ensures PlainOwners(Step(s, e))
  {
    var t := Step(s, e);
    forall v | v in t.vnis
      ensures t.vnis[v].Stored? || t.vnis[v].Held? || t.vnis[v].Lost?
    {
      if VniTouched(s, e) == Some(v) {
        TouchedVniOwner(s, e, v);
      } else {
        VniUntouched(s, e, v);
      }
    }
    forall b | b in t.ips
      ensures !t.ips[b].Rented?
    {
      if GateTouched(s, e) == Some(b) {
        TouchedGateOwner(s, e, b);
      } else {
        GateUntouched(s, e, b);
      }
    }
  }

  lemma {:induction false} RunKeepsPlain(events: seq<Event>)
    ensures PlainOwners(Run(events))
  {
    if events != [] {
      RunKeepsPlain(events[..|events| - 1]);
      StepKeepsPlain(Run(events[..|events| - 1]), events[|events| - 1]);
    }
  }

  ghost predicate AllIdle(s: State) {
    forall p :: p in s.procs ==> s.procs[p].Idle?
  }

  ghost predicate VniStored(s: State, v: nat) {
    exists name :: name in s.nets.entries && s.nets.entries[name].value.vni == v
  }

  lemma IdleVni(s: State, v: nat)
    requires VniAccount(s) && PlainOwners(s) && AllIdle(s)
    ensures VniStored(s, v) <==> v in s.vnis && s.vnis[v] != Lost
  {
    assert HeldVnis(s.procs) == map[] && ClaimedVnis(s.procs) == map[];
    if v in s.vnis && s.vnis[v] != Lost {
      assert s.vnis[v].name in StoredVnis(s.nets);
    }
    if VniStored(s, v) {
      var name :| name in s.nets.entries && s.nets.entries[name].value.vni == v;
      assert name in StoredVnis(s.nets);
    }
  }

  /** Conservation of VNIs: when every process has returned after an admissible run, the taken
      VNIs are exactly the VNIs of the stored networks, if and only if none is lost. */
  lemma VnisConserved(events: seq<Event>)
    requires AdmissibleRun(events, Vnis) && AllIdle(Run(events))
    ensures (forall v :: v in Run(events).vnis <==> VniStored(Run(events), v)) <==> NoneLost(Run(events), Vnis)
  {
    var s := Run(events);
    RunKeepsAccount(events, Vnis);
    RunKeepsPlain(events);
    forall v
      ensures VniStored(s, v) <==> v in s.vnis && s.vnis[v] != Lost
    {
      IdleVni(s, v);
    }
  }

  ghost predicate GateStored(s: State, b: (Slot, nat)) {
    exists name :: name in s.nets.entries && s.nets.entries[name].value.Gate() == Some(b)
  }

  /** The gateway of a network that was deleted. */
  ghost predicate GateDeleted(s: State, b: (Slot, nat)) {
    exists x :: x in s.log && x.Deleted? && x.net.Gate() == Some(b)
  }

  ghost predicate RetiredLogged(s: State) {
    forall b :: b in s.ips && s.ips[b] == Retired ==> GateDeleted(s, b)
  }

  lemma LogOnlyGrows(s: State, e: Event)
    ensures forall x :: x in s.log ==> x in Step(s, e).log
  {
    if !e.Write? && !e.Delete? {
      QuietSteps(s, e);
    }
  }

  lemma RetiredByDeletion(s: State, p: nat, d: Delivery, b: (Slot, nat))
    requires b in DoDelete(s, p, d).ips && DoDelete(s, p, d).ips[b].Retired? && !(b in s.ips && s.ips[b].Retired?)
    ensures GateDeleted(DoDelete(s, p, d), b)
  {
    var name := s.At(p).net.name;
    assert Deleted(name, s.nets.entries[name].value) in DoDelete(s, p, d).log;
  }

  lemma StepKeepsRetired(s: State, e: Event)
    requires RetiredLogged(s)
    ensures RetiredLogged(Step(s, e))
  {
    var t := Step(s, e);
    LogOnlyGrows(s, e);
    forall b | b in t.ips && t.ips[b] == Retired
      ensures GateDeleted(t, b)
    {
      if b in s.ips && s.ips[b] == Retired {
        var x :| x in s.log && x.Deleted? && x.net.Gate() == Some(b);
        assert x in t.log;
      } else if GateTouched(s, e) == Some(b) {
        TouchedGateOwner(s, e, b);
        RetiredByDeletion(s, e.p, e.d, b);
      } else {
        GateUntouched(s, e, b);
      }
    }
  }

  lemma {:induction false} RunKeepsRetired(events: seq<Event>)
    ensures RetiredLogged(Run(events))
  {
    if events != [] {
      RunKeepsRetired(events[..|events| - 1]);
      StepKeepsRetired(Run(events[..|events| - 1]), events[|events| - 1]);
    }
  }

  lemma IdleGate(s: State, b: (Slot, nat))
    requires GateAccount(s) && PlainOwners(s) && RetiredLogged(s) && AllIdle(s)
    ensures b in s.ips && s.ips[b] != Lost ==> GateStored(s, b) || GateDeleted(s, b)
    ensures GateStored(s, b) ==> b in s.ips && s.ips[b] != Lost
  {
    assert HeldGates(s.procs) == map[];
    if b in s.ips && s.ips[b].Stored? {
      assert s.ips[b].name in StoredGates(s.nets);
    }
    if GateStored(s, b) {
      var name :| name in s.nets.entries && s.nets.entries[name].value.Gate() == Some(b);
      assert name in StoredGates(s.nets);
    }
  }

  /** Conservation of addresses, in runs of creations and deletions alone: when every process
      has returned, every taken address that is not lost is the gateway of a stored or of a
      deleted network, and the gateways of the stored ones are taken. */
  lemma GatewaysConserved(events: seq<Event>, b: (Slot, nat))
    requires AdmissibleRun(events, Gateways) && AllIdle(Run(events))
    ensures var s := Run(events);
            && (b in s.ips && s.ips[b] != Lost ==> GateStored(s, b) || GateDeleted(s, b))
            && (GateStored(s, b) ==> b in s.ips && s.ips[b] != Lost)
  {
    RunKeepsAccount(events, Gateways);
    RunKeepsPlain(events);
    RunKeepsRetired(events);
    IdleGate(Run(events), b);
  }

  // ---- an interface that exists

  /** A creation on an interface that exists stores that interface's address. The bit RequestIP
      set is then its gateway's if and only if the interface has just that address; otherwise
      nobody will give it back. */
  lemma ExistingInterface(s: State, p: nat, f: Iface)
    requires s.At(p).Requesting?
    requires var slot := Ips(s.At(p).vni, s.At(p).subnet); FreeBit(s.ips.Keys, slot, 0) < slot.Bound()
    ensures var q, t := s.At(p), DoTakeGateway(s, p, Some(f));
            var k := FreeBit(s.ips.Keys, Ips(q.vni, q.subnet), 0);
            var b, answer := (Ips(q.vni, q.subnet), k), Iface(AddressOf(q.subnet, k + 1), q.subnet);
            && t.At(p).Putting? && t.At(p).net.gateway == f.addr && t.At(p).net.subnet == f.subnet
            && (t.At(p).net.Gate() == Some(b) <==> f == answer)
            && (t.ips[b] == Lost <==> f != answer)
  {
  }
}
