/** Runs of creations and deletions in which VNIs and addresses are shared or lost. */
module LifecycleRuns {
  import opened Store
  import opened Addresses
  import opened Keys
  import opened Accounts
  import opened Lifecycle
  import opened Conservation
  import opened LifecycleTheorems

  // ---- two deletions of one name, and a deletion answered by an error page

  ghost predicate Reachable(s: State) {
    exists events :: Run(events) == s
  }

  lemma Extend(s: State, e: Event)
    requires Reachable(s)
    ensures Reachable(Step(s, e))
  {
    var events :| Run(events) == s;
    var more := events + [e];
    assert more[..|more| - 1] == events;
    assert Run(more) == Step(s, e);
  }

  lemma OpenAlone(s: State, p: nat, name: string, n: Subnet) returns (t: State)
    requires Reachable(s) && s.At(p).Idle? && name !in s.nets.entries
    ensures Reachable(t) && t == s.To(p, Allocating(name, n))
  {
    Extend(s, StartCreate(p, name, n));
    t := s.To(p, Looking(name, n));
    Extend(t, Lookup(p, true));
    t := DoLookup(t, p, true);
  }

  /** p has taken the first free VNI and the first free address under it. */
  ghost predicate Took(s: State, t: State, p: nat, name: string, n: Subnet) {
    var v := FreeVni(s.vnis, 1);
    var k := FreeBit(s.ips.Keys, Ips(v, n), 0);
    && (t.At(p).Building? || t.At(p).Writing?) && t.At(p).net == Built(name, n, v, k, None)
    && t.ips.Keys == (if k < Ips(v, n).Bound() then s.ips.Keys + {(Ips(v, n), k)} else s.ips.Keys)
    && t.slots == s.slots + {Ips(v, n)}
  }

  lemma TakesAlone(s: State, p: nat, name: string, n: Subnet) returns (t: State)
    requires Reachable(s) && s.At(p) == Allocating(name, n) && FreeVni(s.vnis, 1) <= VLAN_COUNT
    ensures Reachable(t) && t.nets == s.nets && t.vnis == s.vnis[FreeVni(s.vnis, 1) := Held(p)]
    ensures t.At(p).Building? && t.At(p).net.name == name && t.At(p).net.vni == FreeVni(s.vnis, 1)
    ensures t.procs == s.procs[p := t.At(p)]
  {
    t := TakesBits(s, p, name, n);
  }

  lemma TakesBits(s: State, p: nat, name: string, n: Subnet) returns (t: State)
    requires Reachable(s) && s.At(p) == Allocating(name, n) && FreeVni(s.vnis, 1) <= VLAN_COUNT
    ensures Reachable(t) && t.nets == s.nets && t.vnis == s.vnis[FreeVni(s.vnis, 1) := Held(p)]
    ensures t.At(p).Building? && t.At(p).net.name == name && t.At(p).net.vni == FreeVni(s.vnis, 1)
    ensures t.procs == s.procs[p := t.At(p)]
    ensures Took(s, t, p, name, n)
  {
    Extend(s, TakeVni(p));
    t := DoTakeVni(s, p);
    Extend(t, TakeGateway(p, None));
    t := DoTakeGateway(t, p, None);
  }

  lemma CheckAlone(s: State, p: nat) returns (t: State)
    requires Reachable(s) && s.At(p).Building? && s.At(p).net.name !in s.nets.entries
    ensures Reachable(t) && t == s.To(p, Writing(s.At(p).net))
  {
    Extend(s, Setup(p, true));
    t := s.To(p, Putting(s.At(p).net));
    Extend(t, Check(p, true));
    t := DoCheck(t, p, true);
    assert t.procs == s.procs[p := Writing(s.At(p).net)];
  }

  lemma CommitAlone(s: State, p: nat) returns (t: State)
    requires Reachable(s) && s.At(p).Writing? && s.At(p).net.name !in s.nets.entries && s.At(p).net.vni in s.vnis
    ensures Reachable(t) && t.nets == s.nets.Insert(s.At(p).net.name, s.At(p).net)
    ensures t.vnis == s.vnis[s.At(p).net.vni := Stored(s.At(p).net.name)] && t.procs == s.procs[p := Idle]
    ensures t.ips.Keys == s.ips.Keys && t.slots == s.slots
  {
    Extend(s, Event.Write(p, Delivered));
    t := DoWrite(s, p, Delivered);
  }

  /** An undisturbed creation stores the name with the least free VNI. */
  lemma CreationAlone(s: State, p: nat, name: string, n: Subnet) returns (t: State)
    requires Reachable(s) && s.At(p).Idle? && name !in s.nets.entries && FreeVni(s.vnis, 1) <= VLAN_COUNT
    ensures Reachable(t)
    ensures t.nets.entries.Keys == s.nets.entries.Keys + {name}
    ensures t.nets.entries[name].value.vni == FreeVni(s.vnis, 1) && t.nets.entries[name].value.name == name
    ensures forall m :: m in s.nets.entries ==> t.nets.entries[m] == s.nets.entries[m]
    ensures t.vnis == s.vnis[FreeVni(s.vnis, 1) := Stored(name)] && t.procs == s.procs[p := Idle]
  {
    t := BuildAlone(s, p, name, n);
    t := CommitAlone(t, p);
  }

  lemma BuildAlone(s: State, p: nat, name: string, n: Subnet) returns (t: State)
    requires Reachable(s) && s.At(p).Idle? && name !in s.nets.entries && FreeVni(s.vnis, 1) <= VLAN_COUNT
    ensures Reachable(t) && t.nets == s.nets && t.vnis == s.vnis[FreeVni(s.vnis, 1) := Held(p)]
    ensures t.At(p).Writing? && t.At(p).net.name == name && t.At(p).net.vni == FreeVni(s.vnis, 1)
    ensures t.procs == s.procs[p := t.At(p)]
  {
    t := BuildTaking(s, p, name, n);
  }

  /** The same, with what was taken. */
  lemma BuildTaking(s: State, p: nat, name: string, n: Subnet) returns (t: State)
    requires Reachable(s) && s.At(p).Idle? && name !in s.nets.entries && FreeVni(s.vnis, 1) <= VLAN_COUNT
    ensures Reachable(t) && t.nets == s.nets && t.vnis == s.vnis[FreeVni(s.vnis, 1) := Held(p)]
    ensures t.At(p).Writing? && t.At(p).net.name == name && t.At(p).net.vni == FreeVni(s.vnis, 1)
    ensures t.procs == s.procs[p := t.At(p)]
    ensures Took(s, t, p, name, n)
  {
    t := OpenAlone(s, p, name, n);
    t := TakesBits(t, p, name, n);
    t := CheckAlone(t, p);
  }

  /** A deletion whose DELETE is told OK, followed by its release. */
  lemma DeletionAlone(s: State, p: nat, d: Delivery) returns (t: State)
    requires Reachable(s) && s.At(p).Deleting? && (d.Delivered? || d.ServerError?)
    ensures Reachable(t) && t.procs == s.procs[p := Idle]
    ensures t.nets.entries == if d.Delivered? then s.nets.entries - {s.At(p).net.name} else s.nets.entries
    ensures t.vnis.Keys == s.vnis.Keys - {s.At(p).net.vni}
  {
    Extend(s, Event.Delete(p, d));
    var s1 := DoDelete(s, p, d);
    Extend(s1, ReleaseVni(p));
    t := DoReleaseVni(s1, p);
  }

  /** A process finds the record it is to delete. */
  lemma FindAlone(s: State, p: nat, name: string) returns (t: State)
    requires Reachable(s) && s.At(p).Idle? && name in s.nets.entries
    ensures Reachable(t) && t == s.To(p, Deleting(s.nets.entries[name].value))
  {
    Extend(s, StartDelete(p, name));
    t := s.To(p, Finding(name));
    Extend(t, Find(p, true));
    t := DoFind(t, p, true);
    assert t.procs == s.procs[p := Deleting(s.nets.entries[name].value)];
  }

  /** Two stored networks with one VNI. */
  ghost predicate Shared(s: State, a: string, b: string) {
    && a != b && a in s.nets.entries && b in s.nets.entries
    && s.nets.entries[a].value.vni == s.nets.entries[b].value.vni == 1
  }

  /** "a" is stored with VNI 1, and processes 1 and 2 have found it. */
  lemma FoundTwice(n: Subnet) returns (s: State)
    ensures Reachable(s) && s.vnis.Keys == {1} && s.nets.entries.Keys == {"a"} && s.At(0).Idle?
    ensures s.At(1).Deleting? && s.At(1) == s.At(2) && s.At(1).net.name == "a" && s.At(1).net.vni == 1
  {
    assert Run([]) == START;
    s := CreationAlone(START, 0, "a", n);
    s := FindAlone(s, 1, "a");
    s := FindAlone(s, 2, "a");
  }

  /** Two overlapping deletions of "a": the second one frees VNI 1 again after "b" took it,
      and "c" gets it too. */
  lemma OverlappingDeletionsShareVni(n: Subnet)
    ensures exists s :: Reachable(s) && Shared(s, "b", "c")
  {
    var s := FoundTwice(n);
    s := DeletionAlone(s, 1, Delivered);
    assert s.vnis == map[] && s.nets.entries == map[];
    s := CreationAlone(s, 0, "b", n);
    s := DeletionAlone(s, 2, Delivered);
    assert s.vnis == map[] && "b" in s.nets.entries && "c" !in s.nets.entries;
    s := CreationAlone(s, 0, "c", n);
    assert Shared(s, "b", "c");
  }

  /** One deletion of "a" that the server answers with an error page: "a" stays, its VNI is
      free, and "b" gets it too. */
  lemma ErrorPageSharesVni(n: Subnet)
    ensures exists s :: Reachable(s) && Shared(s, "a", "b")
  {
    assert Run([]) == START;
    var s := CreationAlone(START, 0, "a", n);
    s := FindAlone(s, 1, "a");
    s := DeletionAlone(s, 1, ServerError);
    assert s.vnis == map[];
    s := CreationAlone(s, 0, "b", n);
    assert Shared(s, "a", "b");
  }

  // ---- what is lost although no request is

  lemma BothBuilt(n: Subnet) returns (s: State)
    ensures Reachable(s) && s.nets.entries == map[] && s.vnis.Keys == {1, 2} && s.procs.Keys == {0, 1}
    ensures s.At(0).Writing? && s.At(0).net.name == "a" && s.At(0).net.vni == 1
    ensures s.At(1).Writing? && s.At(1).net.name == "a"
  {
    assert Run([]) == START;
    s := BuildAlone(START, 0, "a", n);
    assert s.vnis == map[1 := Held(0)];
    s := BuildAlone(s, 1, "a", n);
  }

  /** Two creators of "a" that both check before either writes: every request is served, one
      network is stored, and two VNIs are taken. */
  lemma RaceLosesVni(n: Subnet)
    ensures exists s :: Reachable(s) && AllIdle(s) && s.nets.entries.Keys == {"a"} && s.vnis.Keys == {1, 2}
  {
    var s := BothBuilt(n);
    s := CommitAlone(s, 0);
    s := LateWrite(s, 1);
    assert s.vnis.Keys == {1, 2};
  }

  /** A PUT that finds its name taken is told ERROR, and its creator returns as if all was
      well. */
  lemma LateWrite(s: State, p: nat) returns (t: State)
    requires Reachable(s) && s.At(p).Writing? && s.At(p).net.name in s.nets.entries
    ensures Reachable(t) && t.nets == s.nets && t.vnis.Keys == s.vnis.Keys && t.procs == s.procs[p := Idle]
  {
    Extend(s, Event.Write(p, Delivered));
    t := DoWrite(s, p, Delivered);
  }

  lemma FailSetup(s: State, p: nat) returns (t: State)
    requires Reachable(s) && s.At(p).Building? && s.At(p).net.vni in s.vnis
    ensures Reachable(t) && t.nets == s.nets && t.procs == s.procs[p := Idle]
    ensures t.vnis == s.vnis[s.At(p).net.vni := Lost]
  {
    Extend(s, Setup(p, false));
    t := DoSetup(s, p, false);
  }

  /** A setup that fails leaves the VNI, and the gateway, taken. */
  lemma FailedSetupLeaks(n: Subnet)
    ensures exists s :: Reachable(s) && AllIdle(s) && s.nets.entries == map[] && s.vnis == map[1 := Lost]
  {
    assert Run([]) == START;
    var s := OpenAlone(START, 0, "a", n);
    s := TakesAlone(s, 0, "a", n);
    s := FailSetup(s, 0);
  }

  /** Process 1 creates "a" on an interface with the second address of the subnet: RequestIP
      takes the first one for it. */
  lemma SecondAddressKept(n: Subnet) returns (s: State)
    requires Ips(1, n).Bound() >= 2
    ensures Reachable(s) && s.At(1) == Putting(Network("a", n, 1, AddressOf(n, 2), None))
    ensures s.At(0).Idle? && s.At(2).Idle? && s.nets.entries == map[] && s.vnis.Keys == {1}
    ensures s.ips.Keys == {(Ips(1, n), 0)} && s.slots == {Ips(1, n)}
  {
    assert Run([]) == START;
    s := OpenAlone(START, 1, "a", n);
    Extend(s, TakeVni(1));
    s := DoTakeVni(s, 1);
    s := TakesFirst(s, n);
  }

  lemma TakesFirst(s: State, n: Subnet) returns (t: State)
    requires Reachable(s) && s.At(1) == Requesting("a", n, 1) && s.ips == map[] && Ips(1, n).Bound() >= 2
    ensures Reachable(t) && t.At(1) == Putting(Network("a", n, 1, AddressOf(n, 2), None))
    ensures t == s.(ips := t.ips, slots := t.slots, procs := s.procs[1 := t.At(1)])
    ensures t.ips.Keys == {(Ips(1, n), 0)} && t.slots == s.slots + {Ips(1, n)}
  {
    FreeBitIs(s.ips.Keys, Ips(1, n), 0);
    FirstIsNotSecond(n);
    var f := Some(Iface(AddressOf(n, 2), n));
    Extend(s, TakeGateway(1, f));
    t := DoTakeGateway(s, 1, f);
  }

  lemma FirstIsNotSecond(n: Subnet)
    ensures AddressOf(n, 0 + 1) != AddressOf(n, 2)
  {
    PositionInverse(n, 1);
    PositionInverse(n, 2);
  }

  /** Process 0 stores "a" first, ... */
  lemma NameTaken(n: Subnet) returns (s: State)
    requires Ips(1, n).Bound() >= 2
    ensures Reachable(s) && s.At(1) == Putting(Network("a", n, 1, AddressOf(n, 2), None))
    ensures s.At(2).Idle? && s.nets.entries.Keys == {"a"} && s.vnis.Keys == {1, 2} && Ips(1, n) in s.slots
    ensures forall k: nat :: (Ips(1, n), k) in s.ips <==> k == 0
  {
    s := SecondAddressKept(n);
    s := BuildTaking(s, 0, "a", n);
    s := CommitAlone(s, 0);
  }

  lemma UndoesVni(s: State, p: nat) returns (t: State)
    requires Reachable(s) && s.At(p).Putting? && s.At(p).net.name in s.nets.entries
    ensures Reachable(t) && t == s.(vnis := s.vnis - {s.At(p).net.vni}).To(p, UndoingGateway(s.At(p).net))
  {
    Extend(s, Check(p, true));
    t := s.To(p, Undoing(s.At(p).net));
    Extend(t, UndoVni(p));
    t := DoUndoVni(t, p);
    assert t.procs == s.procs[p := UndoingGateway(s.At(p).net)];
  }

  /** ... so that process 1 undoes its attempt, and "b" gets VNI 1 and the second address. */
  lemma SecondAddressGiven(n: Subnet) returns (s: State)
    requires Ips(1, n).Bound() >= 2
    ensures Reachable(s) && s.At(1) == UndoingGateway(Network("a", n, 1, AddressOf(n, 2), None)) && Ips(1, n) in s.slots
    ensures "b" in s.nets.entries && s.nets.entries["b"].value.Gate() == Some((Ips(1, n), 1))
  {
    s := NameTaken(n);
    s := UndoesVni(s, 1);
    assert s.vnis.Keys == {2};
    FreeBitIs(s.ips.Keys, Ips(1, n), 1);
    s := BuildTaking(s, 2, "b", n);
    s := CommitAlone(s, 2);
  }

  /** An undo on an interface that existed may clear the gateway of another network: "b" loses
      the bit of its gateway. */
  lemma StrayUndoClearsGateway(n: Subnet)
    requires Ips(1, n).Bound() >= 2
    ensures exists s :: Reachable(s) && "b" in s.nets.entries
              && s.nets.entries["b"].value.Gate() == Some((Ips(1, n), 1)) && (Ips(1, n), 1) !in s.ips
  {
    var s := SecondAddressGiven(n);
    s := UndoesSecond(s, n);
  }

  lemma UndoesSecond(s: State, n: Subnet) returns (t: State)
    requires Reachable(s) && s.At(1) == UndoingGateway(Network("a", n, 1, AddressOf(n, 2), None))
    requires Ips(1, n) in s.slots && Ips(1, n).Bound() >= 2
    ensures Reachable(t) && t.nets == s.nets && (Ips(1, n), 1) !in t.ips
  {
    SecondUndone(s.slots, n);
    Extend(s, UndoGateway(1));
    t := DoUndoGateway(s, 1);
  }

  lemma SecondUndone(slots: set<Slot>, n: Subnet)
    requires Ips(1, n) in slots && Ips(1, n).Bound() >= 2
    ensures Undone(slots, Network("a", n, 1, AddressOf(n, 2), None)) == Some((Ips(1, n), 1))
  {
    PositionInverse(n, 2);
  }
}
