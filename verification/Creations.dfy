/** What stands before the allocations of CreateNetwork, and how whole calls of CreateNetwork and
    DeleteNetwork end. */
module Creations {
  import opened Store
  import opened Addresses
  import opened Keys
  import opened Allocator
  import L = Lifecycle
  import opened Conservation
  import opened Refinement

  // ---- no VNI without a lookup

  /** Where process p was before each step of a run, and where it is at its end. */
  function Past(E: seq<L.Event>, p: nat): (P: seq<L.Proc>)
    ensures |P| == |E| + 1
  {
    if E == [] then [L.Idle] else Past(E[..|E| - 1], p) + [L.Run(E).At(p)]
  }

  lemma {:induction false} PastIs(E: seq<L.Event>, p: nat, m: nat)
    requires m <= |E|
    ensures Past(E, p)[m] == L.Run(E[..m]).At(p) && Past(E[..m], p) == Past(E, p)[..m + 1]
  {
    if m == |E| {
      assert E[..m] == E;
    } else {
      var before := E[..|E| - 1];
      PastIs(before, p, m);
      assert before[..m] == E[..m];
    }
  }

  lemma PastNext(E: seq<L.Event>, e: L.Event, p: nat)
    ensures Past(E + [e], p) == Past(E, p) + [L.Run(E + [e]).At(p)]
    ensures L.Run(E + [e]) == L.Step(L.Run(E), e) && Past(E, p)[|E|] == L.Run(E).At(p)
  {
    assert (E + [e])[..|E|] == E;
    PastIs(E, p, |E|);
    assert E[..|E|] == E;
  }

  /** Before step l the process was about to look the name up, and from then on up to step k it has
      been about to allocate. */
  predicate Sought(P: seq<L.Proc>, l: nat, k: nat, name: string, n: Subnet) {
    l < k < |P| && P[l] == L.Looking(name, n) && forall m :: l < m <= k ==> P[m] == L.Allocating(name, n)
  }

  /** Step l is p's lookup, at which the name was not stored or could not be read. */
  predicate Missed(E: seq<L.Event>, l: nat, p: nat, name: string) {
    && l < |E| && E[l].Lookup? && E[l].p == p
    && (!E[l].reliable || name !in L.Run(E[..l]).nets.entries)
  }

  lemma MissedIn(E: seq<L.Event>, k: nat, l: nat, p: nat, name: string)
    requires k <= |E| && Missed(E[..k], l, p, name)
    ensures Missed(E, l, p, name)
  {
    assert E[..k][..l] == E[..l];
  }

  lemma SoughtGrows(P: seq<L.Proc>, q: L.Proc, l: nat, name: string, n: Subnet)
    requires P != [] && q == L.Allocating(name, n)
    requires Sought(P, l, |P| - 1, name, n) || (l == |P| - 1 && P[l] == L.Looking(name, n))
    ensures Sought(P + [q], l, |P|, name, n)
  {
  }

  lemma OnlyLookupAllocates(s: L.State, e: L.Event, p: nat)
    requires L.Step(s, e).At(p).Allocating?
    ensures var q := L.Step(s, e).At(p);
            || s.At(p) == q
            || (&& e.Lookup? && e.p == p && s.At(p) == L.Looking(q.name, q.subnet)
                && (!e.reliable || q.name !in s.nets.entries))
  {
  }

  lemma MissedNow(E: seq<L.Event>, e: L.Event, p: nat, name: string)
    requires e.Lookup? && e.p == p && (!e.reliable || name !in L.Run(E).nets.entries)
    ensures Missed(E + [e], |E|, p, name)
  {
    assert (E + [e])[..|E|] == E;
  }

  /** In every run a process about to allocate has looked its name up since it last started
      or undid anything, and missed it. */
  lemma {:induction false} AllocatingSought(events: seq<L.Event>, p: nat) returns (l: nat)
    requires L.Run(events).At(p).Allocating?
    ensures var q := L.Run(events).At(p);
            Sought(Past(events, p), l, |events|, q.name, q.subnet) && Missed(events, l, p, q.name)
    decreases |events|, 0
  {
    assert L.Run([]).At(p) == L.Idle;
    var k := |events| - 1;
    assert events[..k] + [events[k]] == events;
    l := LookupBefore(events[..k], events[k], p);
  }

  lemma {:induction false} LookupBefore(before: seq<L.Event>, e: L.Event, p: nat) returns (l: nat)
    requires L.Run(before + [e]).At(p).Allocating?
    ensures var q := L.Run(before + [e]).At(p);
            && Sought(Past(before + [e], p), l, |before| + 1, q.name, q.subnet)
            && Missed(before + [e], l, p, q.name)
    decreases |before|, 1
  {
    var q := L.Run(before + [e]).At(p);
    PastNext(before, e, p);
    OnlyLookupAllocates(L.Run(before), e, p);
    if L.Run(before).At(p) == q {
      l := AllocatingSought(before, p);
      assert (before + [e])[..|before|] == before;
      MissedIn(before + [e], |before|, l, p, q.name);
    } else {
      l := |before|;
      MissedNow(before, e, p, q.name);
    }
    SoughtGrows(Past(before, p), q, l, q.name, q.subnet);
  }

  /** Commit i of a run's trace is the one of step T[i].call. */
  lemma {:induction false} CommitAtStep(events: seq<L.Event>, i: nat)
    requires i < |NetTrace(events)|
    ensures var x := NetTrace(events)[i];
            && x.call < |events| && x.client == events[x.call].p
            && NetOp(L.Run(events[..x.call]), events[x.call]) == Some(x.op)
  {
    var k := |events| - 1;
    if i < |NetTrace(events[..k])| {
      CommitAtStep(events[..k], i);
      var x := NetTrace(events[..k])[i];
      assert events[..k][..x.call] == events[..x.call];
    }
  }

  /** In every run every VNI that was allocated was allocated for a name that its creator had
      looked up, and found not stored or could not read, with nothing of its own between. */
  lemma VniAfterLookup(events: seq<L.Event>, i: nat) returns (l: nat, name: string, n: Subnet)
    requires i < |NetTrace(events)| && NetTrace(events)[i].op.AllocateVNI?
    ensures var x := NetTrace(events)[i];
            Sought(Past(events, x.client), l, x.call, name, n) && Missed(events, l, x.client, name)
  {
    CommitAtStep(events, i);
    var x := NetTrace(events)[i];
    l, name, n := SoughtBefore(events, x.call, x.client);
  }

  lemma SoughtBefore(events: seq<L.Event>, k: nat, p: nat) returns (l: nat, name: string, n: Subnet)
    requires k <= |events| && L.Run(events[..k]).At(p).Allocating?
    ensures Sought(Past(events, p), l, k, name, n) && Missed(events, l, p, name)
  {
    var q := L.Run(events[..k]).At(p);
    name, n := q.name, q.subnet;
    l := AllocatingSought(events[..k], p);
    PastIs(events, p, k);
    MissedIn(events, k, l, p, name);
  }

  /** In every run a creation that finds its name stored returns at once: bitmaps, store and log,
      and every other process, are left alone. */
  lemma StoredNameLeftAlone(events: seq<L.Event>, p: nat)
    requires var s := L.Run(events); s.At(p).Looking? && s.At(p).name in s.nets.entries
    ensures var s, t := L.Run(events), L.Run(events + [L.Lookup(p, true)]);
            && t.At(p) == L.Idle && (forall q :: q != p ==> t.At(q) == s.At(q))
            && t.nets == s.nets && t.vnis == s.vnis && t.ips == s.ips && t.slots == s.slots && t.log == s.log
            && NetTaken(t) == NetTaken(s) && NetTrace(events + [L.Lookup(p, true)]) == NetTrace(events)
  {
    assert (events + [L.Lookup(p, true)])[..|events|] == events;
  }

  // ---- whole calls

  /** Nothing but process p is different. */
  predicate OnlyMoved(s: L.State, t: L.State, p: nat) {
    t == s.(procs := s.procs[p := t.At(p)])
  }

  /** Store and log are as before. */
  predicate SameStore(s: L.State, t: L.State) {
    t.nets == s.nets && t.log == s.log
  }

  /** v is the least VNI that is not taken. */
  predicate LeastVni(s: L.State, v: nat) {
    1 <= v && v !in s.vnis && forall w :: 1 <= w < v ==> w in s.vnis
  }

  /** k is the least clear bit of the bitmap, or the position past its end. */
  predicate LeastBit(s: L.State, slot: Slot, k: nat) {
    && k <= slot.Bound() && (k < slot.Bound() ==> (slot, k) !in s.ips)
    && forall j: nat :: j < k ==> (slot, j) in s.ips
  }

  /** One VNI and one address bit were taken. */
  ghost predicate Takes(s: L.State, t: L.State, v: nat, slot: Slot, k: nat) {
    && t.vnis.Keys == s.vnis.Keys + {v} && t.slots == s.slots + {slot}
    && t.ips.Keys == if k < slot.Bound() then s.ips.Keys + {(slot, k)} else s.ips.Keys
  }

  /** The requests of one call of CreateNetwork up to its Put, with how each of them fares. Those
      that the call does not get to are skipped. */
  function Creation(
    p: nat, name: string, n: Subnet, find: bool, iface: Option<L.Iface>, ok: bool, again: bool, d: Delivery)
    : seq<L.Event>
  {
    Opening(p, name, n, find) + Building(p, iface, ok) + Putting(p, again, d)
  }

  function Opening(p: nat, name: string, n: Subnet, find: bool): seq<L.Event> {
    [L.StartCreate(p, name, n), L.Lookup(p, find), L.TakeVni(p)]
  }

  function Building(p: nat, iface: Option<L.Iface>, ok: bool): seq<L.Event> {
    [L.TakeGateway(p, iface), L.Setup(p, ok)]
  }

  function Putting(p: nat, again: bool, d: Delivery): seq<L.Event> {
    [L.Check(p, again), L.Event.Write(p, d)]
  }

  function Fold<S, E>(f: (S, E) -> S, s: S, es: seq<E>): S {
    if es == [] then s else f(Fold(f, s, es[..|es| - 1]), es[|es| - 1])
  }

  lemma FoldLast<S, E>(f: (S, E) -> S, s: S, es: seq<E>, e: E)
    ensures Fold(f, s, es + [e]) == f(Fold(f, s, es), e)
  {
    assert (es + [e])[..|es|] == es;
  }

  lemma {:induction false} FoldConcat<S, E>(f: (S, E) -> S, s: S, a: seq<E>, b: seq<E>)
    ensures Fold(f, s, a + b) == Fold(f, Fold(f, s, a), b)
  {
    if b == [] {
      assert a + b == a;
    } else {
      var front, e := b[..|b| - 1], b[|b| - 1];
      FoldConcat(f, s, a, front);
      FoldLast(f, s, a + front, e);
      assert a + b == a + front + [e];
    }
  }

  lemma FoldTwo<S, E>(f: (S, E) -> S, s: S, d: E, e: E)
    ensures Fold(f, s, [d, e]) == f(f(s, d), e)
  {
    FoldLast(f, s, [], d);
    FoldLast(f, s, [d], e);
    assert [] + [d] == [d] && [d] + [e] == [d, e];
  }

  lemma FoldThree<S, E>(f: (S, E) -> S, s: S, c: E, d: E, e: E)
    ensures Fold(f, s, [c, d, e]) == f(f(f(s, c), d), e)
  {
    FoldTwo(f, s, c, d);
    FoldLast(f, s, [c, d], e);
    assert [c, d] + [e] == [c, d, e];
  }

  /** The state after some more steps. */
  function Steps(s: L.State, events: seq<L.Event>): L.State {
    Fold(L.Step, s, events)
  }

  lemma {:induction false} RunIsFold(events: seq<L.Event>)
    ensures L.Run(events) == Steps(L.START, events)
  {
    if events != [] {
      RunIsFold(events[..|events| - 1]);
    }
  }

  lemma StepsExtendRun(events: seq<L.Event>, more: seq<L.Event>)
    ensures L.Run(events + more) == Steps(L.Run(events), more)
  {
    RunIsFold(events);
    RunIsFold(events + more);
    FoldConcat(L.Step, L.START, events, more);
  }

  /** CreateNetwork up to the VNI, ... */
  lemma CreationBegins(s: L.State, p: nat, name: string, n: Subnet, find: bool) returns (t: L.State)
    requires s.At(p).Idle?
    ensures t == Steps(s, Opening(p, name, n, find))
    ensures find && name in s.nets.entries ==> OnlyMoved(s, t, p) && t.At(p).Idle?
    ensures (forall w :: 1 <= w <= 1_000_000 ==> w in s.vnis) ==> OnlyMoved(s, t, p) && t.At(p).Idle?
    ensures !(find && name in s.nets.entries) && !(forall w :: 1 <= w <= 1_000_000 ==> w in s.vnis) ==>
              && t.At(p).Requesting? && t.At(p) == L.Requesting(name, n, t.At(p).vni)
              && LeastVni(s, t.At(p).vni) && t.At(p).vni <= 1_000_000
              && SameStore(s, t) && t.vnis.Keys == s.vnis.Keys + {t.At(p).vni} && t.ips == s.ips && t.slots == s.slots
  {
    FoldThree(L.Step, s, L.StartCreate(p, name, n), L.Lookup(p, find), L.TakeVni(p));
    var w := LookedUp(s, p, name, n, find);
    t := TookVni(w, p);
  }

  lemma LookedUp(s: L.State, p: nat, name: string, n: Subnet, find: bool) returns (t: L.State)
    requires s.At(p).Idle?
    ensures t == L.Step(L.Step(s, L.StartCreate(p, name, n)), L.Lookup(p, find)) && OnlyMoved(s, t, p)
    ensures t.At(p) == if find && name in s.nets.entries then L.Idle else L.Allocating(name, n)
  {
    t := L.Step(L.Step(s, L.StartCreate(p, name, n)), L.Lookup(p, find));
  }

  lemma TookVni(s: L.State, p: nat) returns (t: L.State)
    requires s.At(p).Idle? || s.At(p).Allocating?
    ensures t == L.Step(s, L.TakeVni(p))
    ensures s.At(p).Idle? ==> t == s
    ensures s.At(p).Allocating? && (forall w :: 1 <= w <= 1_000_000 ==> w in s.vnis) ==> t == s.To(p, L.Idle)
    ensures s.At(p).Allocating? && !(forall w :: 1 <= w <= 1_000_000 ==> w in s.vnis) ==>
              && t.At(p).Requesting? && t.At(p) == L.Requesting(s.At(p).name, s.At(p).subnet, t.At(p).vni)
              && LeastVni(s, t.At(p).vni) && t.At(p).vni <= 1_000_000
              && SameStore(s, t) && t.vnis.Keys == s.vnis.Keys + {t.At(p).vni} && t.ips == s.ips && t.slots == s.slots
  {
    t := L.Step(s, L.TakeVni(p));
    var v := L.FreeVni(s.vnis, 1);
    assert v <= 1_000_000 ==> v !in s.vnis;
  }

  /** ... its gateway and its interface, ... */
  lemma CreationBuilds(s: L.State, p: nat, iface: Option<L.Iface>, ok: bool) returns (t: L.State, k: nat)
    requires s.At(p).Requesting? && s.At(p).vni in s.vnis
    ensures t == Steps(s, Building(p, iface, ok)) && SameStore(s, t)
    ensures var q := s.At(p); var slot := Ips(q.vni, q.subnet);
            && LeastBit(s, slot, k) && Takes(s, t, q.vni, slot, k)
            && t.At(p) == if iface.None? && !ok then L.Idle
                          else L.Putting(L.Built(q.name, q.subnet, q.vni, k, iface))
  {
    var q := s.At(p);
    FoldTwo(L.Step, s, L.TakeGateway(p, iface), L.Setup(p, ok));
    k := FreeBit(s.ips.Keys, Ips(q.vni, q.subnet), 0);
    var u := L.Step(s, L.TakeGateway(p, iface));
    assert u.vnis == s.vnis;
    t := L.Step(u, L.Setup(p, ok));
  }

  /** ... and its Put. */
  lemma CreationPuts(s: L.State, p: nat, again: bool, d: Delivery) returns (t: L.State)
    requires s.At(p).Putting?
    ensures t == Steps(s, Putting(p, again, d))
    ensures t.vnis.Keys == s.vnis.Keys && t.ips.Keys == s.ips.Keys && t.slots == s.slots
    ensures var net := s.At(p).net;
            if again && net.name in s.nets.entries then t.At(p) == L.Undoing(net) && SameStore(s, t)
            else
              && t.At(p).Idle?
              && if net.name !in s.nets.entries && (d.Delivered? || d.ReplyLost?)
                 then t.nets == s.nets.Insert(net.name, net) && t.log == s.log + [L.Created(net.name, p)]
                 else SameStore(s, t)
  {
    FoldTwo(L.Step, s, L.Check(p, again), L.Event.Write(p, d));
    var u := L.Step(s, L.Check(p, again));
    t := L.Step(u, L.Event.Write(p, d));
  }

  lemma CreationInThree(
    s: L.State, p: nat, name: string, n: Subnet, find: bool, iface: Option<L.Iface>, ok: bool, again: bool,
    d: Delivery)
    ensures Steps(s, Creation(p, name, n, find, iface, ok, again, d))
         == Steps(Steps(Steps(s, Opening(p, name, n, find)), Building(p, iface, ok)), Putting(p, again, d))
  {
    FoldConcat(L.Step, s, Opening(p, name, n, find) + Building(p, iface, ok), Putting(p, again, d));
    FoldConcat(L.Step, s, Opening(p, name, n, find), Building(p, iface, ok));
  }

  /** A process that has returned makes none of the later requests. */
  lemma IdleSkips(s: L.State, p: nat, iface: Option<L.Iface>, ok: bool, again: bool, d: Delivery)
    requires s.At(p).Idle?
    ensures Steps(s, Building(p, iface, ok)) == s && Steps(s, Putting(p, again, d)) == s
  {
    FoldTwo(L.Step, s, L.TakeGateway(p, iface), L.Setup(p, ok));
    FoldTwo(L.Step, s, L.Check(p, again), L.Event.Write(p, d));
  }

  /** The call returned before it took anything. */
  predicate Refused(s: L.State, find: bool, name: string) {
    (find && name in s.nets.entries) || forall w :: 1 <= w <= 1_000_000 ==> w in s.vnis
  }

  /** How a call that was not refused has ended: the record it built from VNI v and bit k is
      stored, or about to be given up because the name is stored after all, or forgotten. */
  predicate Ended(
    s: L.State, t: L.State, p: nat, net: L.Network, built: bool, again: bool, d: Delivery)
  {
    if !built then t.At(p).Idle? && SameStore(s, t)
    else if again && net.name in s.nets.entries then t.At(p) == L.Undoing(net) && SameStore(s, t)
    else
      && t.At(p).Idle?
      && if net.name !in s.nets.entries && (d.Delivered? || d.ReplyLost?)
         then t.nets == s.nets.Insert(net.name, net) && t.log == s.log + [L.Created(net.name, p)]
         else SameStore(s, t)
  }

  /** CreateNetwork, undisturbed, however its requests fare. It takes nothing if it finds the name
      stored or all VNIs taken. Otherwise it takes the least free VNI and the least free bit
      under it, and ends as its setup, its Put's read and its PUT let it. */
  lemma CreationEnds(
    s: L.State, p: nat, name: string, n: Subnet, find: bool, iface: Option<L.Iface>, ok: bool, again: bool,
    d: Delivery)
    returns (t: L.State, v: nat, k: nat)
    requires s.At(p).Idle?
    ensures t == Steps(s, Creation(p, name, n, find, iface, ok, again, d))
    ensures Refused(s, find, name) ==> OnlyMoved(s, t, p) && t.At(p).Idle?
    ensures !Refused(s, find, name) ==>
              && LeastVni(s, v) && v <= 1_000_000 && LeastBit(s, Ips(v, n), k) && Takes(s, t, v, Ips(v, n), k)
              && Ended(s, t, p, L.Built(name, n, v, k, iface), iface.Some? || ok, again, d)
  {
    CreationInThree(s, p, name, n, find, iface, ok, again, d);
    var a := CreationBegins(s, p, name, n, find);
    v, k := 1, 0;
    if Refused(s, find, name) {
      IdleSkips(a, p, iface, ok, again, d);
      t := a;
    } else {
      v := a.At(p).vni;
      t, k := CreationGoesOn(a, p, iface, ok, again, d);
    }
  }

  lemma CreationGoesOn(s: L.State, p: nat, iface: Option<L.Iface>, ok: bool, again: bool, d: Delivery)
    returns (t: L.State, k: nat)
    requires s.At(p).Requesting? && s.At(p).vni in s.vnis
    ensures t == Steps(Steps(s, Building(p, iface, ok)), Putting(p, again, d))
    ensures var q := s.At(p); var slot := Ips(q.vni, q.subnet);
            && LeastBit(s, slot, k) && Takes(s, t, q.vni, slot, k)
            && Ended(s, t, p, L.Built(q.name, q.subnet, q.vni, k, iface), iface.Some? || ok, again, d)
  {
    t, k := CreationBuilds(s, p, iface, ok);
    if t.At(p).Idle? {
      IdleSkips(t, p, iface, ok, again, d);
    } else {
      t := CreationPuts(t, p, again, d);
    }
  }

  /** A creation that found its name taken, and undoes: the VNI goes, and with it the bit that the
      record's gateway names, whoever set it; a position outside the bitmap panics. A missing
      bitmap is ignored. Unless it panicked, the creation starts over with the record's subnet. */
  lemma UndoEnds(s: L.State, p: nat) returns (t: L.State)
    requires s.At(p).Undoing?
    ensures t == L.Step(L.Step(s, L.UndoVni(p)), L.UndoGateway(p)) && SameStore(s, t) && t.slots == s.slots
    ensures var net := s.At(p).net; var slot, k := Ips(net.vni, net.subnet), PositionOf(net.subnet, net.gateway);
            && t.vnis.Keys == s.vnis.Keys - {net.vni}
            && (slot in s.slots && k >= 8 * slot.Bytes() ==> t.At(p) == L.Idle && t.ips == s.ips)
            && (slot in s.slots && k < 8 * slot.Bytes() ==>
                  t.At(p) == L.Looking(net.name, net.subnet) && t.ips.Keys == s.ips.Keys - {(slot, k)})
            && (slot !in s.slots ==> t.At(p) == L.Looking(net.name, net.subnet) && t.ips == s.ips)
  {
    t := L.Step(L.Step(s, L.UndoVni(p)), L.UndoGateway(p));
  }

  /** The requests of one call of DeleteNetwork. */
  function Deletion(p: nat, name: string, find: bool, d: Delivery): seq<L.Event> {
    Finding(p, name, find) + Erasing(p, d)
  }

  function Finding(p: nat, name: string, find: bool): seq<L.Event> {
    [L.StartDelete(p, name), L.Find(p, find)]
  }

  function Erasing(p: nat, d: Delivery): seq<L.Event> {
    [L.Event.Delete(p, d), L.ReleaseVni(p)]
  }

  /** After every run: DeleteNetwork, undisturbed, however its requests fare. It does nothing to a
      name it does not find. The record goes exactly when the DELETE reaches the server, the VNI
      exactly when the caller is told OK, and no address bit at all. */
  lemma DeletionEnds(events: seq<L.Event>, p: nat, name: string, find: bool, d: Delivery) returns (t: L.State)
    requires L.Run(events).At(p).Idle?
    ensures t == L.Run(events + Deletion(p, name, find, d)) && t.At(p).Idle?
    ensures var s := L.Run(events);
            && t.ips.Keys == s.ips.Keys && t.slots == s.slots
            && (!find || name !in s.nets.entries ==> OnlyMoved(s, t, p))
            && (find && name in s.nets.entries ==>
                  var net := s.nets.entries[name].value;
                  && t.vnis.Keys == (if d.Delivered? || d.ServerError? then s.vnis.Keys - {net.vni} else s.vnis.Keys)
                  && if d.Delivered? || d.ReplyLost?
                     then t.nets == s.nets.Remove(name) && t.log == s.log + [L.Deleted(name, net)]
                     else SameStore(s, t))
  {
    RunKeepsRecords(events);
    StepsExtendRun(events, Deletion(p, name, find, d));
    t := DeletionSteps(L.Run(events), p, name, find, d);
  }

  /** The record of the name is stored under it. */
  predicate Named(s: L.State, name: string) {
    name in s.nets.entries ==> s.nets.entries[name].value.name == name
  }

  lemma DeletionSteps(s: L.State, p: nat, name: string, find: bool, d: Delivery) returns (t: L.State)
    requires s.At(p).Idle? && Named(s, name)
    ensures t == Steps(s, Deletion(p, name, find, d)) && t.At(p).Idle?
    ensures t.ips.Keys == s.ips.Keys && t.slots == s.slots
    ensures !find || name !in s.nets.entries ==> OnlyMoved(s, t, p)
    ensures find && name in s.nets.entries ==>
              var net := s.nets.entries[name].value;
              && t.vnis.Keys == (if d.Delivered? || d.ServerError? then s.vnis.Keys - {net.vni} else s.vnis.Keys)
              && if d.Delivered? || d.ReplyLost?
                 then t.nets == s.nets.Remove(name) && t.log == s.log + [L.Deleted(name, net)]
                 else SameStore(s, t)
  {
    FoldConcat(L.Step, s, Finding(p, name, find), Erasing(p, d));
    var w := FindRecord(s, p, name, find);
    t := DeleteAndRelease(w, p, d);
  }

  lemma FindRecord(s: L.State, p: nat, name: string, find: bool) returns (t: L.State)
    requires s.At(p).Idle?
    ensures t == Steps(s, Finding(p, name, find)) && OnlyMoved(s, t, p)
    ensures t.At(p) == if find && name in s.nets.entries then L.Deleting(s.nets.entries[name].value) else L.Idle
  {
    FoldTwo(L.Step, s, L.StartDelete(p, name), L.Find(p, find));
    t := L.Step(L.Step(s, L.StartDelete(p, name)), L.Find(p, find));
  }

  lemma DeleteAndRelease(s: L.State, p: nat, d: Delivery) returns (t: L.State)
    requires s.At(p).Idle? || (s.At(p).Deleting? && s.At(p).net.name in s.nets.entries)
    requires s.At(p).Deleting? ==> s.nets.entries[s.At(p).net.name].value == s.At(p).net
    ensures t == Steps(s, Erasing(p, d)) && t.At(p).Idle?
    ensures t.ips.Keys == s.ips.Keys && t.slots == s.slots
    ensures s.At(p).Idle? ==> t == s
    ensures s.At(p).Deleting? ==>
              var net := s.At(p).net;
              && t.vnis.Keys == (if d.Delivered? || d.ServerError? then s.vnis.Keys - {net.vni} else s.vnis.Keys)
              && if d.Delivered? || d.ReplyLost?
                 then t.nets == s.nets.Remove(net.name) && t.log == s.log + [L.Deleted(net.name, net)]
                 else SameStore(s, t)
  {
    FoldTwo(L.Step, s, L.Event.Delete(p, d), L.ReleaseVni(p));
    var u := L.Step(s, L.Event.Delete(p, d));
    t := L.Step(u, L.ReleaseVni(p));
  }
}
