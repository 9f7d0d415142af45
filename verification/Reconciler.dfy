/** syncNetwork of server/network.go on one node, round by round. */
module Reconciler {

  /** Where the creation of one interface fails, if anywhere. */
  datatype Fault = Fine | AtPort | AtMtu | AtAddress | AtUp

  /** What GetNetworks makes of the store. It drops the success flag of GetAll, so a failed
      read is an empty list; a record that does not decode skips the round. */
  datatype Reading = Listed | Unread | Undecodable

  /** One round: the names stored when it asks, how the reading goes, where each creation
      fails, and the names whose deletion does nothing (deletePort reports no failure). */
  datatype Round = Round(stored: seq<string>, reading: Reading, faults: seq<Fault>, undeleted: set<string>) {
    predicate Valid() {
      |faults| == |stored|
    }

    /** The list the round works on. */
    function List(): seq<string> {
      if reading.Listed? then stored else []
    }

    function ListFaults(): seq<Fault> {
      if reading.Listed? then faults else []
    }
  }

  /** A node: its OVS ports, those of them that carry an IPv4 address, and d.Gateways, the
      networks whose interface sync itself completed. */
  datatype Node = Node(ports: set<string>, addressed: set<string>, gateways: set<string>) {
    predicate Valid() {
      addressed <= ports
    }

    /** A port left without an address by an earlier failure. */
    predicate Stuck(name: string) {
      name in ports && name !in addressed
    }
  }

  /** The body of the first loop. OVS refuses a second port of the same name. */
  function Ensured(n: Node, name: string, f: Fault): Node {
    if name in n.addressed || f.AtPort? || name in n.ports then n
    else
      var p := n.(ports := n.ports + {name});
      if f.AtMtu? || f.AtAddress? then p
      else
        var q := p.(addressed := p.addressed + {name});
        if f.AtUp? then q else q.(gateways := q.gateways + {name})
  }

  function EnsuredAll(n: Node, names: seq<string>, faults: seq<Fault>): Node
    requires |faults| == |names|
  {
    if names == [] then n
    else
      var k := |names| - 1;
      Ensured(EnsuredAll(n, names[..k], faults[..k]), names[k], faults[k])
  }

  /** The second loop: d.Gateways forgets every name, the port goes if its deletion works. */
  function Cleaned(n: Node, gone: set<string>, undeleted: set<string>): Node {
    Node(n.ports - (gone - undeleted), n.addressed - (gone - undeleted), n.gateways - gone)
  }

  function Names(names: seq<string>): set<string> {
    set x | x in names
  }

  function Synced(n: Node, r: Round): Node
    requires r.Valid()
  {
    if r.reading.Undecodable? then n
    else
      var m := EnsuredAll(n, r.List(), r.ListFaults());
      Cleaned(m, m.gateways - Names(r.List()), r.undeleted)
  }

  // ---- what a round is for

  /** Each name once, as the keys of the store are. */
  predicate Once(names: seq<string>) {
    forall i, j :: 0 <= i < j < |names| ==> names[i] != names[j]
  }

  /** What became of a listed network whose creation had this fault. */
  predicate Reached(n: Node, m: Node, name: string, f: Fault) {
    && (name in m.ports <==> name in n.ports || f != AtPort)
    && (name in m.addressed <==> name in n.addressed || (name !in n.ports && (f == Fine || f == AtUp)))
    && (name in m.gateways <==> name in n.gateways || (name !in n.ports && f == Fine))
  }

  /** What became of a name that is not in the list. */
  predicate Forgotten(n: Node, m: Node, name: string, undeleted: set<string>) {
    && (name in m.ports <==> name in n.ports && (name !in n.gateways || name in undeleted))
    && (name in m.addressed <==> name in n.addressed && (name !in n.gateways || name in undeleted))
    && name !in m.gateways
  }

  /** The whole node after a round whose list was read. */
  ghost predicate Reconciled(n: Node, m: Node, r: Round)
    requires r.Valid()
  {
    && (forall i :: 0 <= i < |r.stored| ==> Reached(n, m, r.stored[i], r.faults[i]))
    && (forall x :: x !in r.stored ==> Forgotten(n, m, x, r.undeleted))
  }

  /** The first loop does not touch a name that it does not meet, ... */
  lemma {:induction false} LoopPasses(n: Node, names: seq<string>, faults: seq<Fault>, x: string)
    requires |faults| == |names| && x !in names
    ensures var m := EnsuredAll(n, names, faults);
            && (x in m.ports <==> x in n.ports)
            && (x in m.addressed <==> x in n.addressed)
            && (x in m.gateways <==> x in n.gateways)
  {
    if names != [] {
      var k := |names| - 1;
      LoopPasses(n, names[..k], faults[..k], x);
      assert names[k] != x;
    }
  }

  /** ... and brings one that it meets once as far as its fault allows. */
  lemma {:induction false} LoopReaches(n: Node, names: seq<string>, faults: seq<Fault>, i: nat)
    requires |faults| == |names| && i < |names| && Once(names) && n.Valid()
    ensures Reached(n, EnsuredAll(n, names, faults), names[i], faults[i])
  {
    var k := |names| - 1;
    var m := EnsuredAll(n, names[..k], faults[..k]);
    if i < k {
      LoopReaches(n, names[..k], faults[..k], i);
      assert names[..k][i] != names[k];
    } else {
      LoopPasses(n, names[..k], faults[..k], names[k]);
    }
  }

  /** Every round whose list is read, whatever fails in it: a listed network has a port exactly
      when it had one or its creation got past that step; an address exactly when it had one, or
      had no port and only bringing the link up failed, if anything; and is in Gateways exactly
      when it was or when it had no port and nothing failed. */
  lemma RoundReconciles(n: Node, r: Round)
    requires r.Valid() && n.Valid() && r.reading.Listed? && Once(r.stored)
    ensures Reconciled(n, Synced(n, r), r)
  {
    var m, t := EnsuredAll(n, r.stored, r.faults), Synced(n, r);
    forall i | 0 <= i < |r.stored|
      ensures Reached(n, t, r.stored[i], r.faults[i])
    {
      LoopReaches(n, r.stored, r.faults, i);
    }
    forall x | x !in r.stored
      ensures Forgotten(n, t, x, r.undeleted)
    {
      LoopPasses(n, r.stored, r.faults, x);
    }
  }

  class Daemon {
    var node: Node

    method Ensure(name: string, f: Fault)
      modifies this
      ensures node == Ensured(old(node), name, f)
    {
      if name !in node.addressed {
        if f.AtPort? || name in node.ports {
          return;
        }
        node := node.(ports := node.ports + {name});
        if f.AtMtu? || f.AtAddress? {
          return;
        }
        node := node.(addressed := node.addressed + {name});
        if f.AtUp? {
          return;
        }
        node := node.(gateways := node.gateways + {name});
      }
    }

    method IsStored(name: string, names: seq<string>) returns (found: bool)
      ensures found <==> name in names
    {
      found := false;
      for i := 0 to |names|
        invariant found <==> name in names[..i]
      {
        if names[i] == name {
          found := true;
        }
      }
      assert names[..|names|] == names;
    }

    method EnsureAll(names: seq<string>, faults: seq<Fault>)
      requires |faults| == |names|
      modifies this
      ensures node == EnsuredAll(old(node), names, faults)
    {
      for i := 0 to |names|
        invariant node == EnsuredAll(old(node), names[..i], faults[..i])
      {
        assert names[..i + 1][..i] == names[..i] && faults[..i + 1][..i] == faults[..i];
        Ensure(names[i], faults[i]);
      }
      assert names[..|names|] == names && faults[..|faults|] == faults;
    }

    method CleanUp(names: seq<string>, undeleted: set<string>)
      modifies this
      ensures node == Cleaned(old(node), old(node).gateways - Names(names), undeleted)
    {
      var todo := node.gateways;
      ghost var m := node;
      ghost var gone: set<string> := {};
      while todo != {}
        invariant todo <= m.gateways && gone == (m.gateways - todo) - Names(names)
        invariant node == Cleaned(m, gone, undeleted)
        decreases todo
      {
        var k :| k in todo;
        var found := IsStored(k, names);
        if !found {
          if k !in undeleted {
            node := Node(node.ports - {k}, node.addressed - {k}, node.gateways);
          }
          node := node.(gateways := node.gateways - {k});
          gone := gone + {k};
        }
        todo := todo - {k};
      }
      assert gone == m.gateways - Names(names);
    }

    method SyncNetwork(r: Round)
      requires r.Valid()
      modifies this
      ensures old(node).Valid() && r.reading.Listed? && Once(r.stored) ==> Reconciled(old(node), node, r)
      ensures r.reading.Undecodable? ==> node == old(node)
      ensures r.reading.Unread? ==> forall x :: Forgotten(old(node), node, x, r.undeleted)
      ensures node == Synced(old(node), r)
    {
      if node.Valid() && r.reading.Listed? && Once(r.stored) {
        RoundReconciles(node, r);
      }
      if r.reading.Undecodable? {
        return;
      }
      EnsureAll(r.List(), r.ListFaults());
      CleanUp(r.List(), r.undeleted);
    }
  }

  // ---- what a round keeps

  lemma LastName(names: seq<string>)
    requires names != []
    ensures Names(names) == Names(names[..|names| - 1]) + {names[|names| - 1]}
  {
    assert names == names[..|names| - 1] + [names[|names| - 1]];
  }

  /** The first loop only adds, and only stored networks. */
  lemma {:induction false} EnsuredAllAdds(n: Node, names: seq<string>, faults: seq<Fault>)
    requires |faults| == |names| && n.Valid()
    ensures var m := EnsuredAll(n, names, faults);
            && m.Valid()
            && n.ports <= m.ports <= n.ports + Names(names)
            && n.addressed <= m.addressed && m.addressed - n.addressed <= m.ports - n.ports
            && n.gateways <= m.gateways <= n.gateways + Names(names) && (m.gateways - n.gateways) !! n.ports
  {
    if names != [] {
      var k := |names| - 1;
      EnsuredAllAdds(n, names[..k], faults[..k]);
      LastName(names);
    }
  }

  /** The ports a round takes away: those sync had completed itself, whose network is not in
      the list it works on, and whose deletion works. */
  function Removable(n: Node, r: Round): set<string> {
    if r.reading.Undecodable? then {} else n.ports * n.gateways - Names(r.List()) - r.undeleted
  }

  /** After every round that is not skipped, whatever failed, Gateways holds only names of the
      list; and the ports that went are exactly the removable ones. */
  lemma RoundIsSafe(n: Node, r: Round)
    requires r.Valid() && n.Valid()
    ensures var m := Synced(n, r);
            && m.Valid()
            && (r.reading.Undecodable? || m.gateways <= Names(r.List()))
            && n.ports - m.ports == Removable(n, r)
            && m.ports <= n.ports + Names(r.stored)
  {
    EnsuredAllAdds(n, r.List(), r.ListFaults());
  }

  /** No network that is still stored loses its port, if and only if the list was read or sync
      has no port of a stored network to take away. */
  lemma StoredKeepPortsExactly(n: Node, r: Round)
    requires r.Valid() && n.Valid()
    ensures (n.ports - Synced(n, r).ports) !! Names(r.stored)
       <==> !r.reading.Unread? || n.ports * n.gateways * Names(r.stored) <= r.undeleted
  {
    RoundIsSafe(n, r);
    var bad := n.ports * n.gateways * Names(r.stored);
    if r.reading.Unread? {
      assert (n.ports - Synced(n, r).ports) * Names(r.stored) == bad - r.undeleted;
    }
  }

  ghost predicate FaultFree(r: Round) {
    r.reading.Listed? && forall f :: f in r.faults ==> f.Fine?
  }

  lemma FineEnsures(n: Node, name: string)
    requires n.Valid()
    ensures var m := Ensured(n, name, Fine);
            && m.ports == n.ports + {name}
            && m.addressed == n.addressed + ({name} - n.ports)
            && m.gateways == n.gateways + ({name} - n.ports)
  {
  }

  lemma {:induction false} FaultFreeLoop(n: Node, names: seq<string>, faults: seq<Fault>)
    requires |faults| == |names| && n.Valid() && forall f :: f in faults ==> f.Fine?
    ensures var m := EnsuredAll(n, names, faults);
            && m.addressed == n.addressed + (Names(names) - n.ports)
            && m.ports == n.ports + Names(names)
            && m.gateways == n.gateways + (Names(names) - n.ports)
  {
    if names != [] {
      var k := |names| - 1;
      var m := EnsuredAll(n, names[..k], faults[..k]);
      assert faults[k] in faults && forall f :: f in faults[..k] ==> f in faults;
      FaultFreeLoop(n, names[..k], faults[..k]);
      EnsuredAllAdds(n, names[..k], faults[..k]);
      FineEnsures(m, names[k]);
      LastName(names);
    }
  }

  /** A fault-free round gives every stored network an addressed interface exactly when no
      stored network has a half-built port from an earlier failure. */
  lemma FaultFreeRoundCompletes(n: Node, r: Round)
    requires r.Valid() && n.Valid() && FaultFree(r)
    ensures Names(r.stored) <= Synced(n, r).addressed <==> forall x :: x in r.stored ==> !n.Stuck(x)
  {
    FaultFreeLoop(n, r.stored, r.faults);
    var m := Synced(n, r);
    forall x | x in r.stored
      ensures x in m.addressed <==> !n.Stuck(x)
    {
      assert x in Names(r.stored);
    }
    if Names(r.stored) <= m.addressed {
      forall x | x in r.stored
        ensures !n.Stuck(x)
      {
        assert x in Names(r.stored);
      }
    }
  }

  /** Repeating a fault-free round on the same snapshot changes nothing, even if deletions
      did nothing. */
  lemma FaultFreeRoundIdempotent(n: Node, r: Round)
    requires r.Valid() && n.Valid() && FaultFree(r)
    ensures Synced(Synced(n, r), r) == Synced(n, r)
  {
    var m := Synced(n, r);
    RoundIsSafe(n, r);
    FaultFreeLoop(n, r.stored, r.faults);
    FaultFreeLoop(m, r.stored, r.faults);
    assert Names(r.stored) <= m.ports;
  }

  // ---- every run

  /** A round, or what CreateNetwork, DeleteNetwork and others do to the ports of the node in
      between; none of them touches d.Gateways. */
  datatype Happening = Sync(r: Round) | Local(ports: set<string>, addressed: set<string>) {
    predicate Valid() {
      if Sync? then r.Valid() else addressed <= ports
    }
  }

  function Next(n: Node, h: Happening): Node
    requires h.Valid()
  {
    match h
    case Sync(r) => Synced(n, r)
    case Local(ports, addressed) => Node(ports, addressed, n.gateways)
  }

  function RunNode(n: Node, run: seq<Happening>): Node
    requires forall h :: h in run ==> h.Valid()
  {
    if run == [] then n
    else
      var k := |run| - 1;
      assert run[k] in run;
      Next(RunNode(n, run[..k]), run[k])
  }

  /** Port x goes in step k of the run: in a round, as one sync completed itself whose network is
      not in the list and whose deletion worked, or by somebody else's hand. */
  ghost predicate GoesIn(n: Node, run: seq<Happening>, k: nat, x: string)
    requires forall h :: h in run ==> h.Valid()
  {
    && k < |run| && (forall h :: h in run[..k] ==> h.Valid())
    && match run[k]
       case Sync(r) => x in Removable(RunNode(n, run[..k]), r)
       case Local(ports, _) => x !in ports
  }

  /** Over every run: after a round Gateways lies inside its list, and a port that was there and
      is gone went in some step as one of those. */
  lemma {:induction false} RunsAreSafe(n: Node, run: seq<Happening>)
    requires n.Valid() && forall h :: h in run ==> h.Valid()
    ensures RunNode(n, run).Valid()
    ensures run != [] && run[|run| - 1].Sync? && !run[|run| - 1].r.reading.Undecodable? ==>
              RunNode(n, run).gateways <= Names(run[|run| - 1].r.List())
    ensures forall x :: x in n.ports && x !in RunNode(n, run).ports ==> exists k: nat :: GoesIn(n, run, k, x)
  {
    if run != [] {
      var k := |run| - 1;
      var before := run[..k];
      assert run[k] in run;
      RunsAreSafe(n, before);
      if run[k].Sync? {
        RoundIsSafe(RunNode(n, before), run[k].r);
      }
      forall x | x in n.ports && x !in RunNode(n, run).ports
        ensures exists i: nat :: GoesIn(n, run, i, x)
      {
        if x in RunNode(n, before).ports {
          assert GoesIn(n, run, k, x);
        } else {
          var i: nat :| GoesIn(n, before, i, x);
          assert before[..i] == run[..i];
          assert GoesIn(n, run, i, x);
        }
      }
    }
  }

  lemma RoundKeepsUnowned(n: Node, r: Round, x: string)
    requires r.Valid() && n.Valid() && x in n.ports && x !in n.gateways
    ensures var m := Synced(n, r);
            m.Valid() && x in m.ports && x !in m.gateways && (x in m.addressed <==> x in n.addressed)
  {
    EnsuredAllAdds(n, r.List(), r.ListFaults());
  }

  /** Nobody else on the node changes port x. */
  predicate Leaves(n: Node, h: Happening, x: string) {
    h.Local? ==> x in h.ports && (x in h.addressed <==> x in n.addressed)
  }

  /** A port that sync did not complete itself is left as it is by every round, however many:
      half-built, it never gets an address; addressed but never brought up, it outlives its
      network. */
  lemma {:induction false} UnownedForever(n: Node, run: seq<Happening>, x: string)
    requires n.Valid() && x in n.ports && x !in n.gateways
    requires forall h :: h in run ==> h.Valid() && Leaves(n, h, x)
    ensures var m := RunNode(n, run);
            m.Valid() && x in m.ports && x !in m.gateways && (x in m.addressed <==> x in n.addressed)
  {
    if run != [] {
      var k := |run| - 1;
      UnownedForever(n, run[..k], x);
      assert run[k] in run;
      if run[k].Sync? {
        RoundKeepsUnowned(RunNode(n, run[..k]), run[k].r, x);
      }
    }
  }

  /** A port whose deletion did nothing is forgotten all the same, and so stays for ever. */
  lemma UndeletedForever(n: Node, r: Round, run: seq<Happening>, x: string)
    requires n.Valid() && r.Valid() && !r.reading.Undecodable?
    requires x in n.ports && x in n.gateways && x !in r.List() && x in r.undeleted
    requires forall h :: h in run ==> h.Valid() && Leaves(Synced(n, r), h, x)
    ensures x in RunNode(Synced(n, r), run).ports && x !in RunNode(Synced(n, r), run).gateways
  {
    RoundIsSafe(n, r);
    assert x !in Names(r.List());
    UnownedForever(Synced(n, r), run, x);
  }
}
