/** CreateNetwork and DeleteNetwork of server/network.go as processes on all nodes. Each
    allocator operation is one step (see AllocatorTheorems.Linearizable); the requests to
    the networkStore are interleaved one by one and may be lost. */
module Lifecycle {
  import opened Store
  import opened Addresses
  import opened Keys
  import opened Accounts

  /** A network record. `gate` is not stored: it is the bit of its own bitmap that its creation
      took for the gateway, or None if that took no bit or the gateway is another address. */
  datatype Network = Network(name: string, subnet: Subnet, vni: nat, gateway: nat, gate: Option<nat>) {
    function Slot(): Slot {
      Ips(vni, subnet)
    }

    /** The gateway names the bit that was taken for it. */
    predicate Valid() {
      vni >= 1 && (gate.Some? ==> gate.value < Slot().Bound() && gateway == AddressOf(subnet, gate.value + 1))
    }

    /** The bitmap position of the gateway. */
    function Gate(): Option<(Slot, nat)> {
      if gate.Some? then Some((Slot(), gate.value)) else None
    }
  }

  /** What GetIfaceAddr finds on an interface: its address and the subnet around it. */
  datatype Iface = Iface(addr: nat, subnet: Subnet)

  /** The record a creation builds from RequestIP's answer k + 1 on subnet n. An interface that
      exists decides gateway and subnet, whatever RequestIP answered. */
  function Built(name: string, n: Subnet, vni: nat, k: nat, iface: Option<Iface>): Network {
    var answer := AddressOf(n, k + 1);
    var gate := if k < Ips(vni, n).Bound() then Some(k) else None;
    match iface
    case None => Network(name, n, vni, answer, gate)
    case Some(f) => Network(name, f.subnet, vni, f.addr, if f == Iface(answer, n) then gate else None)
  }

  /** The creation's undo calls ReleaseIP on the record's gateway and subnet: the bit that
      clears, if the key exists and the position is inside the bitmap. */
  function Undone(slots: set<Slot>, net: Network): Option<(Slot, nat)> {
    var k := PositionOf(net.subnet, net.gateway);
    if net.Slot() in slots && k < 8 * net.Slot().Bytes() then Some((net.Slot(), k)) else None
  }

  /** A gateway that names its bit is given back by the undo. */
  lemma GatewayNamesItsBit(slots: set<Slot>, net: Network)
    requires net.Valid() && net.gate.Some? && net.Slot() in slots
    ensures PositionOf(net.subnet, net.gateway) == net.gate.value && Undone(slots, net) == net.Gate()
  {
    PositionInverse(net.subnet, net.gate.value + 1);
  }

  datatype Proc =
    | Idle
    | Looking(name: string, subnet: Subnet)
    | Allocating(name: string, subnet: Subnet)
    | Requesting(name: string, subnet: Subnet, vni: nat)
    | Building(net: Network)
    | Putting(net: Network)
    | Writing(net: Network)
    | Undoing(net: Network)
    | UndoingGateway(net: Network)
    | Finding(name: string)
    | Deleting(net: Network)
    | Releasing(net: Network)

  datatype LogEntry = Created(name: string, p: nat) | Deleted(name: string, net: Network)

  /** The keys of vnis and ips are what the bitmaps hold; their values, who answers for each
      taken VNI and address, are bookkeeping of the model. `slots` are the address bitmaps
      that exist. */
  datatype State = State(
    nets: KV<string, Network>,
    vnis: map<nat, Owner>,
    ips: map<(Slot, nat), Owner>,
    slots: set<Slot>,
    procs: map<nat, Proc>,
    log: seq<LogEntry>)
  {
    function At(p: nat): Proc {
      if p in procs then procs[p] else Idle
    }

    function To(p: nat, q: Proc): State {
      this.(procs := procs[p := q])
    }

    /** The VNI and the gateway of net change hands. */
    function Give(net: Network, o: Owner): State {
      this.(vnis := Passed(vnis, net.vni, o),
            ips := if net.gate.Some? then Passed(ips, (net.Slot(), net.gate.value), o) else ips)
    }
  }

  datatype Event =
    | StartCreate(p: nat, name: string, subnet: Subnet)
    | Lookup(p: nat, reliable: bool)
    | TakeVni(p: nat)
    | TakeGateway(p: nat, iface: Option<Iface>)
    | Setup(p: nat, ok: bool)
    | Check(p: nat, reliable: bool)
    | Write(p: nat, d: Delivery)
    | UndoVni(p: nat)
    | UndoGateway(p: nat)
    | StartDelete(p: nat, name: string)
    | Find(p: nat, reliable: bool)
    | Delete(p: nat, d: Delivery)
    | ReleaseVni(p: nat)

  /** The least free VNI, or VLAN_COUNT + 1. */
  function FreeVni(m: map<nat, Owner>, v: nat): (r: nat)
    requires 1 <= v <= VLAN_COUNT + 1
    ensures v <= r <= VLAN_COUNT + 1
    ensures r <= VLAN_COUNT ==> r !in m
    ensures forall k: nat :: v <= k < r ==> k in m
    decreases VLAN_COUNT + 1 - v, m.Keys
  {
    if v == VLAN_COUNT + 1 || v !in m then v else FreeVni(m, v + 1)
  }

  /** At most process p moves. */
  predicate Moves(s: State, t: State, p: nat) {
    t.procs == s.procs || t.procs == s.procs[p := t.At(p)]
  }

  // ---- CreateNetwork

  function DoLookup(s: State, p: nat, reliable: bool): (t: State)
    ensures Moves(s, t, p)
  {
    var q := s.At(p);
    if !q.Looking? then s
    else s.To(p, if Read(s.nets, q.name, reliable).value.Some? then Idle else Allocating(q.name, q.subnet))
  }

  function DoTakeVni(s: State, p: nat): (t: State)
    ensures Moves(s, t, p)
  {
    var q := s.At(p);
    var v := FreeVni(s.vnis, 1);
    if !q.Allocating? then s
    else if v > VLAN_COUNT then s.To(p, Idle)
    else s.(vnis := s.vnis[v := Held(p)]).To(p, Requesting(q.name, q.subnet, v))
  }

  /** GetIfaceAddr and RequestIP. An interface that exists needs no setup; a bit that its
      address does not name is one nobody will give back. */
  function DoTakeGateway(s: State, p: nat, iface: Option<Iface>): (t: State)
    ensures Moves(s, t, p)
  {
    var q := s.At(p);
    if !q.Requesting? then s
    else
      var slot := Ips(q.vni, q.subnet);
      var k := FreeBit(s.ips.Keys, slot, 0);
      var net := Built(q.name, q.subnet, q.vni, k, iface);
      s.(slots := s.slots + {slot},
         ips := if k < slot.Bound() then s.ips[(slot, k) := if net.gate.Some? then Held(p) else Lost] else s.ips)
       .To(p, if iface.None? then Building(net) else Putting(net))
  }

  /** Port, MTU, address and link; a failure returns without undoing anything. */
  function DoSetup(s: State, p: nat, ok: bool): (t: State)
    ensures Moves(s, t, p)
  {
    var q := s.At(p);
    if !q.Building? then s
    else if ok then s.To(p, Putting(q.net))
    else s.Give(q.net, Lost).To(p, Idle)
  }

  function DoCheck(s: State, p: nat, reliable: bool): (t: State)
    ensures Moves(s, t, p)
  {
    var q := s.At(p);
    if !q.Putting? then s
    else s.To(p, if Outdated(Read(s.nets, q.net.name, reliable), None) then Undoing(q.net) else Writing(q.net))
  }

  /** An absent or unreadable key made Put name index 0; ERROR is taken for success. */
  function DoWrite(s: State, p: nat, d: Delivery): (t: State)
    ensures Moves(s, t, p)
  {
    var q := s.At(p);
    if !q.Writing? then s
    else if Commits(s.nets, q.net.name, 0, d) then
      s.(nets := s.nets.Insert(q.net.name, q.net), log := s.log + [Created(q.net.name, p)])
       .Give(q.net, Stored(q.net.name)).To(p, Idle)
    else s.Give(q.net, Lost).To(p, Idle)
  }

  function DoUndoVni(s: State, p: nat): (t: State)
    ensures Moves(s, t, p)
  {
    var q := s.At(p);
    if !q.Undoing? then s else s.(vnis := s.vnis - {q.net.vni}).To(p, UndoingGateway(q.net))
  }

  /** ReleaseIP, then CreateNetwork starts over with the record's subnet. A missing key is
      ignored, a gateway outside the bitmap panics. */
  function DoUndoGateway(s: State, p: nat): (t: State)
    ensures Moves(s, t, p)
  {
    var q := s.At(p);
    if !q.UndoingGateway? then s
    else
      match Undone(s.slots, q.net)
      case Some(b) => s.(ips := s.ips - {b}).To(p, Looking(q.net.name, q.net.subnet))
      case None => s.To(p, if q.net.Slot() in s.slots then Idle else Looking(q.net.name, q.net.subnet))
  }

  // ---- DeleteNetwork

  function DoFind(s: State, p: nat, reliable: bool): (t: State)
    ensures Moves(s, t, p)
  {
    var q := s.At(p);
    if !q.Finding? then s
    else
      var r := Read(s.nets, q.name, reliable).value;
      s.To(p, if r.Some? then Deleting(r.value) else Idle)
  }

  /** A served DELETE: whatever is stored under the name goes. Its gateway stays taken; its VNI
      passes to `heir` if it is the VNI the caller is going to give back. */
  function Dropped(s: State, name: string, vni: nat, heir: Owner): State {
    var t := s.(nets := s.nets.Remove(name));
    if name !in s.nets.entries then t
    else
      var cur := s.nets.entries[name].value;
      t.(vnis := Passed(s.vnis, cur.vni, if cur.vni == vni then heir else Lost),
         ips := if cur.gate.Some? then Passed(s.ips, (cur.Slot(), cur.gate.value), Retired) else s.ips,
         log := s.log + [Deleted(name, cur)])
  }

  /** DeleteNetwork gives the VNI back only if told OK, and the gateway never. An error page
      is told as OK, and deletes nothing. */
  function DoDelete(s: State, p: nat, d: Delivery): (t: State)
    ensures Moves(s, t, p)
  {
    var q := s.At(p);
    if !q.Deleting? then s
    else
      match d
      case Delivered => Dropped(s, q.net.name, q.net.vni, Held(p)).To(p, Releasing(q.net))
      case ReplyLost => Dropped(s, q.net.name, q.net.vni, Lost).To(p, Idle)
      case ServerError => s.To(p, Releasing(q.net))
      case RequestLost => s.To(p, Idle)
  }

  function DoReleaseVni(s: State, p: nat): (t: State)
    ensures Moves(s, t, p)
  {
    var q := s.At(p);
    if !q.Releasing? then s else s.(vnis := s.vnis - {q.net.vni}).To(p, Idle)
  }

  function Step(s: State, e: Event): (t: State)
    ensures Moves(s, t, e.p)
  {
    match e
    case StartCreate(p, name, subnet) => if s.At(p).Idle? then s.To(p, Looking(name, subnet)) else s
    case Lookup(p, reliable) => DoLookup(s, p, reliable)
    case TakeVni(p) => DoTakeVni(s, p)
    case TakeGateway(p, iface) => DoTakeGateway(s, p, iface)
    case Setup(p, ok) => DoSetup(s, p, ok)
    case Check(p, reliable) => DoCheck(s, p, reliable)
    case Write(p, d) => DoWrite(s, p, d)
    case UndoVni(p) => DoUndoVni(s, p)
    case UndoGateway(p) => DoUndoGateway(s, p)
    case StartDelete(p, name) => if s.At(p).Idle? then s.To(p, Finding(name)) else s
    case Find(p, reliable) => DoFind(s, p, reliable)
    case Delete(p, d) => DoDelete(s, p, d)
    case ReleaseVni(p) => DoReleaseVni(s, p)
  }

  const START := State(KV(map[], 0), map[], map[], {}, map[], [])

  function Run(events: seq<Event>): State {
    if events == [] then START else Step(Run(events[..|events| - 1]), events[|events| - 1])
  }

  // ---- one creation per name between deletions, in every run

  /** The last log entry about a name says whether it is stored. */
  function LoggedAs(log: seq<LogEntry>, name: string): bool {
    if log == [] then false
    else if log[|log| - 1].name == name then log[|log| - 1].Created?
    else LoggedAs(log[..|log| - 1], name)
  }

  /** Every creation in the log was of a name that was not stored. */
  ghost predicate Alternates(log: seq<LogEntry>) {
    forall i :: 0 <= i < |log| && log[i].Created? ==> !LoggedAs(log[..i], log[i].name)
  }

  ghost predicate LogInv(s: State) {
    && Alternates(s.log)
    && (forall name :: name in s.nets.entries <==> LoggedAs(s.log, name))
  }

  lemma LogGrows(log: seq<LogEntry>, x: LogEntry)
    requires Alternates(log) && (x.Created? ==> !LoggedAs(log, x.name))
    ensures Alternates(log + [x])
    ensures forall name :: LoggedAs(log + [x], name) <==> if name == x.name then x.Created? else LoggedAs(log, name)
  {
    var g := log + [x];
    assert g[..|log|] == log;
    forall i | 0 <= i < |g| && g[i].Created?
      ensures !LoggedAs(g[..i], g[i].name)
    {
      if i < |log| {
        assert g[..i] == log[..i];
      }
    }
  }

  /** Only a committed PUT and a served DELETE change the networkStore. */
  lemma QuietSteps(s: State, e: Event)
    requires !e.Write? && !e.Delete?
    ensures Step(s, e).nets == s.nets && Step(s, e).log == s.log
  {
  }

  /** A step moves one process. */
  lemma OthersStay(s: State, e: Event)
    ensures forall p :: p in Step(s, e).procs && p != e.p ==> p in s.procs && Step(s, e).procs[p] == s.procs[p]
    ensures forall p :: p in s.procs ==> p in Step(s, e).procs
  {
  }

  lemma WriteKeepsLog(s: State, p: nat, d: Delivery)
    requires LogInv(s)
    ensures LogInv(DoWrite(s, p, d))
  {
    if s.At(p).Writing? && Commits(s.nets, s.At(p).net.name, 0, d) {
      LogGrows(s.log, Created(s.At(p).net.name, p));
    }
  }

  lemma DeleteKeepsLog(s: State, p: nat, d: Delivery)
    requires LogInv(s)
    ensures LogInv(DoDelete(s, p, d))
  {
    if s.At(p).Deleting? && (d.Delivered? || d.ReplyLost?) && s.At(p).net.name in s.nets.entries {
      var name := s.At(p).net.name;
      LogGrows(s.log, Deleted(name, s.nets.entries[name].value));
    }
  }

  lemma {:induction false} RunKeepsLog(events: seq<Event>)
    ensures LogInv(Run(events))
  {
    if events != [] {
      var s, e := Run(events[..|events| - 1]), events[|events| - 1];
      RunKeepsLog(events[..|events| - 1]);
      match e
      case Write(p, d) => WriteKeepsLog(s, p, d);
      case Delete(p, d) => DeleteKeepsLog(s, p, d);
      case _ => QuietSteps(s, e);
    }
  }

  lemma {:induction false} StaysLogged(log: seq<LogEntry>, name: string, i: nat)
    requires i < |log| && log[i].Created? && log[i].name == name
    requires forall k :: i < k < |log| && log[k].name == name ==> log[k].Created?
    ensures LoggedAs(log, name)
  {
    if log[|log| - 1].name != name {
      StaysLogged(log[..|log| - 1], name, i);
    }
  }

  /** Between two committed creations of one name there is a committed deletion of it. */
  lemma OneCreationPerName(events: seq<Event>, i: nat, j: nat)
    requires i < j < |Run(events).log|
    requires var log := Run(events).log; log[i].Created? && log[j].Created? && log[i].name == log[j].name
    ensures exists k :: i < k < j && Run(events).log[k].Deleted? && Run(events).log[k].name == Run(events).log[i].name
  {
    RunKeepsLog(events);
    var log := Run(events).log;
    if forall k :: i < k < j && log[k].name == log[i].name ==> log[k].Created? {
      StaysLogged(log[..j], log[i].name, i);
    }
  }
}
