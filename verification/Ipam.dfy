/** The five allocator operations as server/network.go writes them, on byte slices changed
    in place and retried, among the requests of others; and what histories of them look
    like. */
module Ipam {
  import opened Words
  import opened Bitmaps
  import opened Store
  import opened Addresses
  import opened Keys
  import opened Allocator
  import opened AllocatorSafety
  import opened AllocatorTheorems
  import opened AllocatorProgress

  /** What happens during one attempt of a call: whether its first read succeeds, what the
      others request before Put reads, whether that read succeeds, what they request before
      its write, and how its PUT fares. */
  datatype Turn = Turn(
    first: bool,
    early: seq<Foreign<Slot, Bitmap>>,
    again: bool,
    late: seq<Foreign<Slot, Bitmap>>,
    delivery: Delivery)
  {
    /** Nobody deletes a bitmap. */
    ghost predicate Valid() {
      forall f :: f in early + late ==> f.ForeignWrite?
    }
  }

  const UNDISTURBED := Turn(true, [], true, [], Delivered)

  /** The call wrote what the operation makes of the value it met, and answered `ret`. */
  ghost predicate Wrote(op: Op, at: KV<Slot, Bitmap>, after: KV<Slot, Bitmap>, ret: nat) {
    match PlanOf(op, at.Lookup(op.Slot()))
    case Stop(_) => false
    case Go(f) => ret == f.ret && after == at.Insert(op.Slot(), f.newVal)
  }

  /** How a call may end. `at` is the store at the moment of its last request: whatever the
      others did before, the call took effect on that, in one step, or not at all. `last` is
      what happened during its last attempt. */
  ghost predicate Served(op: Op, at: KV<Slot, Bitmap>, after: KV<Slot, Bitmap>, last: Turn, o: Outcome) {
    match o
    case Finished(OK, ret) => (last.delivery.ServerError? && after == at) || Wrote(op, at, after, ret)
    case Finished(ERROR, ret) => after == at || (last.delivery.ReplyLost? && Wrote(op, at, after, ret))
    case Finished(OUTDATED, _) => op.AllocateVNI? && after == at
    case _ => after == at && PlanOf(op, if last.first then at.Lookup(op.Slot()) else None) == Stop(o)
  }

  /** What the call answers, however it ends: that of its last attempt, computed on the value its
      first read found in the store `seen`. */
  ghost predicate Computed(op: Op, seen: KV<Slot, Bitmap>, last: Turn, o: Outcome) {
    match PlanOf(op, if last.first then seen.Lookup(op.Slot()) else None)
    case Stop(why) => o == why
    case Go(f) => o.Finished? && o.ret == f.ret
  }

  /** The call's very first read finds a value. */
  predicate FirstFinds(kv: KV<Slot, Bitmap>, slot: Slot, turns: seq<Turn>) {
    slot in kv.entries && (turns != [] ==> turns[0].first)
  }

  method CopyOf(s: Bitmap, n: nat) returns (a: array<bv8>)
    ensures fresh(a) && a[..] == Copied(s, n)
  {
    a := new bv8[n](i requires 0 <= i < n => if i < |s| then s[i] else 0);
  }

  /** The length of a fresh bitmap. */
  method ByteCount(n: Subnet) returns (bc: nat)
    ensures bc == n.Bytes()
  {
    bc := n.Size() / 8;
    if n.Size() % 8 != 0 {
      bc := bc + 1;
    }
  }

  /** A Put among the requests of others: the store before it, at its write and after it. */
  ghost predicate Settled(
    before: KV<Slot, Bitmap>, at: KV<Slot, Bitmap>, after: KV<Slot, Bitmap>,
    slot: Slot, value: Bitmap, oldVal: Bitmap, d: Delivery, r: PutResult)
  {
    && at.Valid() && after.Valid() && Evolves(before, at)
    && (slot in before.entries ==> slot in at.entries)
    && (r.OUTDATED? ==> after == at)
    && (after != at ==>
          && after == at.Insert(slot, value) && (at.Lookup(slot) == None || at.Lookup(slot) == Some(oldVal))
          && (r.OK? || d.ReplyLost?))
    && (r.OK? && !d.ServerError? ==> after != at)
  }

  class Allocation {
    const agent: NetAgent<Slot, Bitmap>

    constructor (agent: NetAgent<Slot, Bitmap>)
      ensures this.agent == agent
    {
      this.agent := agent;
    }

    method PutAmong(slot: Slot, value: Bitmap, oldVal: Bitmap, turn: Turn)
      returns (r: PutResult, ghost at: KV<Slot, Bitmap>)
      requires agent.kv.Valid() && turn.Valid()
      modifies agent
      ensures Settled(old(agent.kv), at, agent.kv, slot, value, oldVal, turn.delivery, r)
      ensures r.OUTDATED? ==> turn.early != [] || old(agent.kv).Lookup(slot) !in {None, Some(oldVal)}
    {
      AfterEvolves(agent.kv, turn.early);
      if slot in agent.kv.entries {
        WritesKeepKeys(agent.kv, turn.early, slot);
        WritesKeepKeys(After(agent.kv, turn.early), turn.late, slot);
      }
      agent.kv := After(agent.kv, turn.early);
      AfterEvolves(agent.kv, turn.late);
      EvolvesOn(old(agent.kv), agent.kv, After(agent.kv, turn.late));
      at := After(agent.kv, turn.late);
      r := agent.Put(slot, value, Some(oldVal), turn.again, turn.late, turn.delivery);
      if r.OUTDATED? {
        at := agent.kv;
      }
    }

    method RequestIP(v: nat, n: Subnet, turns: seq<Turn>)
      returns (o: Outcome, ip: nat, ghost seen: KV<Slot, Bitmap>, ghost at: KV<Slot, Bitmap>, ghost last: Turn)
      requires agent.kv.Valid() && forall t :: t in turns ==> t.Valid()
      modifies agent
      ensures agent.kv.Valid() && Evolves(old(agent.kv), seen) && Evolves(seen, at)
      ensures Served(Op.RequestIP(v, n), at, agent.kv, last, o)
      ensures Computed(Op.RequestIP(v, n), seen, last, o)
      ensures o.Finished? && ip == AddressOf(n, o.ret)
      decreases |turns|
    {
      var turn := if turns == [] then UNDISTURBED else turns[0];
      seen := agent.kv;
      var slot := Ips(v, n);
      var bc := ByteCount(n);
      var got := agent.Get(slot, turn.first);
      var oldArray := if got.value.Some? then got.value.value else Zeros(bc);
      var newArray := CopyOf(oldArray, |oldArray|);
      CopiedIsIdentity(oldArray, |oldArray|);
      var pos := TestAndSet(newArray);
      var r;
      r, at := PutAmong(slot, newArray[..], oldArray, turn);
      if r.OUTDATED? {
        ghost var now := agent.kv;
        o, ip, seen, at, last := RequestIP(v, n, turns[1..]);
        EvolvesOn(old(agent.kv), now, seen);
        return;
      }
      last := turn;
      o := Finished(r, pos);
      ip := AddressOf(n, pos);
    }

    method MarkUsed(v: nat, addr: nat, n: Subnet, turns: seq<Turn>)
      returns (o: Outcome, ghost seen: KV<Slot, Bitmap>, ghost at: KV<Slot, Bitmap>, ghost last: Turn)
      requires agent.kv.Valid() && forall t :: t in turns ==> t.Valid()
      modifies agent
      ensures agent.kv.Valid() && Evolves(old(agent.kv), seen) && Evolves(seen, at)
      ensures Served(Op.MarkUsed(v, addr, n), at, agent.kv, last, o)
      ensures Computed(Op.MarkUsed(v, addr, n), seen, last, o)
      ensures !FirstFinds(old(agent.kv), Ips(v, n), turns) ==> o == NotFound && agent.kv == old(agent.kv)
      ensures FirstFinds(old(agent.kv), Ips(v, n), turns) ==>
                (PositionOf(n, addr) >= 8 * |old(agent.kv).entries[Ips(v, n)].value| ==>
                   o == Panic && agent.kv == old(agent.kv))
      ensures o.NotFound? ==> !last.first || Ips(v, n) !in at.entries
      ensures o.Panic? ==>
                last.first && Ips(v, n) in at.entries && PositionOf(n, addr) >= 8 * |at.entries[Ips(v, n)].value|
      ensures !o.Exhausted?
      decreases |turns|
    {
      var turn := if turns == [] then UNDISTURBED else turns[0];
      var slot := Ips(v, n);
      seen, at, last := agent.kv, agent.kv, turn;
      var got := agent.Get(slot, turn.first);
      if got.value.None? {
        return NotFound, seen, at, last;
      }
      var oldArray := got.value.value;
      var newArray := CopyOf(oldArray, |oldArray|);
      CopiedIsIdentity(oldArray, |oldArray|);
      var pos := PositionOf(n, addr);
      if pos >= 8 * newArray.Length {
        return Panic, seen, at, last;
      }
      Set(newArray, pos);
      var r;
      r, at := PutAmong(slot, newArray[..], oldArray, turn);
      if r.OUTDATED? {
        ghost var now := agent.kv;
        o, seen, at, last := MarkUsed(v, addr, n, turns[1..]);
        EvolvesOn(old(agent.kv), now, seen);
        return;
      }
      o := Finished(r, 0);
    }

    method ReleaseIP(addr: nat, n: Subnet, v: nat, turns: seq<Turn>)
      returns (o: Outcome, ghost seen: KV<Slot, Bitmap>, ghost at: KV<Slot, Bitmap>, ghost last: Turn)
      requires agent.kv.Valid() && forall t :: t in turns ==> t.Valid()
      modifies agent
      ensures agent.kv.Valid() && Evolves(old(agent.kv), seen) && Evolves(seen, at)
      ensures Served(Op.ReleaseIP(addr, n, v), at, agent.kv, last, o)
      ensures Computed(Op.ReleaseIP(addr, n, v), seen, last, o)
      ensures !FirstFinds(old(agent.kv), Ips(v, n), turns) ==> o == NotFound && agent.kv == old(agent.kv)
      ensures FirstFinds(old(agent.kv), Ips(v, n), turns) ==>
                (PositionOf(n, addr) >= 8 * |old(agent.kv).entries[Ips(v, n)].value| ==>
                   o == Panic && agent.kv == old(agent.kv))
      ensures o.NotFound? ==> !last.first || Ips(v, n) !in at.entries
      ensures o.Panic? ==>
                last.first && Ips(v, n) in at.entries && PositionOf(n, addr) >= 8 * |at.entries[Ips(v, n)].value|
      ensures !o.Exhausted?
      decreases |turns|
    {
      var turn := if turns == [] then UNDISTURBED else turns[0];
      var slot := Ips(v, n);
      seen, at, last := agent.kv, agent.kv, turn;
      var got := agent.Get(slot, turn.first);
      if got.value.None? {
        return NotFound, seen, at, last;
      }
      var oldArray := got.value.value;
      var newArray := CopyOf(oldArray, |oldArray|);
      CopiedIsIdentity(oldArray, |oldArray|);
      var pos := PositionOf(n, addr);
      if pos >= 8 * newArray.Length {
        return Panic, seen, at, last;
      }
      Clear(newArray, pos);
      var r;
      r, at := PutAmong(slot, newArray[..], oldArray, turn);
      if r.OUTDATED? {
        ghost var now := agent.kv;
        o, seen, at, last := ReleaseIP(addr, n, v, turns[1..]);
        EvolvesOn(old(agent.kv), now, seen);
        return;
      }
      o := Finished(r, 0);
    }

    /** One attempt only: allocateVNI drops Put's result. A stored value that is not 125000
        bytes long never equals the copy Put is given. */
    method AllocateVNI(turn: Turn)
      returns (o: Outcome, ghost seen: KV<Slot, Bitmap>, ghost at: KV<Slot, Bitmap>)
      requires agent.kv.Valid() && turn.Valid()
      modifies agent
      ensures agent.kv.Valid() && Evolves(old(agent.kv), seen) && Evolves(seen, at)
      ensures (Vlans in old(agent.kv).entries ==> |old(agent.kv).entries[Vlans].value| == VLAN_BYTES) ==>
                Served(Op.AllocateVNI, at, agent.kv, turn, o)
      ensures seen == old(agent.kv) && Computed(Op.AllocateVNI, seen, turn, o)
    {
      seen, at := agent.kv, agent.kv;
      var got := agent.Get(Vlans, turn.first);
      var stored := if got.value.Some? then got.value.value else Zeros(VLAN_BYTES);
      var vlanBytes := CopyOf(stored, |stored|);
      CopiedIsIdentity(stored, |stored|);
      var curVal := CopyOf(stored, VLAN_BYTES);
      var vni := TestAndSet(vlanBytes);
      if vni > VLAN_COUNT {
        return Exhausted, seen, at;
      }
      var r;
      r, at := PutAmong(Vlans, vlanBytes[..], curVal[..], turn);
      o := Finished(r, vni);
    }

    method ReleaseVNI(vni: nat, turns: seq<Turn>)
      returns (o: Outcome, ghost seen: KV<Slot, Bitmap>, ghost at: KV<Slot, Bitmap>, ghost last: Turn)
      requires agent.kv.Valid() && forall t :: t in turns ==> t.Valid()
      modifies agent
      ensures agent.kv.Valid() && Evolves(old(agent.kv), seen) && Evolves(seen, at)
      ensures Served(Op.ReleaseVNI(vni), at, agent.kv, last, o)
      ensures Computed(Op.ReleaseVNI(vni), seen, last, o)
      decreases |turns|
    {
      var turn := if turns == [] then UNDISTURBED else turns[0];
      seen, at, last := agent.kv, agent.kv, turn;
      var got := agent.Get(Vlans, turn.first);
      var oldVal := if got.value.Some? then got.value.value else Zeros(VLAN_BYTES);
      var curVal := CopyOf(oldVal, VLAN_BYTES);
      var pos := UintPred(vni);
      if pos >= 8 * curVal.Length {
        return Panic, seen, at, last;
      }
      Clear(curVal, pos);
      var r;
      r, at := PutAmong(Vlans, curVal[..], oldVal, turn);
      if r.OUTDATED? {
        ghost var now := agent.kv;
        o, seen, at, last := ReleaseVNI(vni, turns[1..]);
        EvolvesOn(old(agent.kv), now, seen);
        return;
      }
      o := Finished(r, 0);
    }
  }

  // ---- histories

  /** The bits 0..k-1. */
  function Below(k: nat): (m: set<nat>)
    ensures forall i: nat :: i in m <==> i < k
  {
    if k == 0 then {} else Below(k - 1) + {k - 1}
  }

  function Min(a: nat, b: nat): nat {
    if a < b then a else b
  }

  lemma PrefixHistory(h: seq<Commit>)
    requires h != [] && History(h)
    ensures History(h[..|h| - 1])
  {
    var g := h[..|h| - 1];
    forall i | 0 <= i < |g|
      ensures g[i] == h[i] && g[..i] == h[..i]
    {
    }
  }

  /** Requests alone fill a bitmap from the bottom, of addresses or of VNIs. */
  lemma {:induction false} RequestsFillInOrder(h: seq<Commit>, slot: Slot)
    requires History(h)
    requires forall x :: x in h && x.op.Slot() == slot ==> x.op.Allocates()
    ensures Replay(h, slot) == Below(Min(Touches(h, 0, slot), slot.Bound()))
  {
    if h != [] {
      var g, x := h[..|h| - 1], h[|h| - 1];
      PrefixHistory(h);
      RequestsFillInOrder(g, slot);
      if x.op.Slot() == slot {
        assert x in h;
        assert Legal(x.op, Replay(g, slot), x.effect, x.ret);
        NextInOrder(Touches(g, 0, slot), slot.Bound(), x.effect, x.ret);
      }
    }
  }

  /** The same, bit by bit. */
  lemma FilledInOrder(h: seq<Commit>, slot: Slot)
    requires History(h)
    requires forall x :: x in h && x.op.Slot() == slot ==> x.op.Allocates()
    ensures forall k: nat :: k in Replay(h, slot) <==> k < Touches(h, 0, slot) && k < slot.Bound()
  {
    RequestsFillInOrder(h, slot);
  }

  lemma NextInOrder(t: nat, bound: nat, e: Effect, ret: nat)
    requires TakesLeast(Below(Min(t, bound)), bound, e, ret)
    ensures ret == Min(t, bound) + 1
    ensures Apply(Below(Min(t, bound)), e) == Below(Min(t + 1, bound))
  {
    if t < bound {
      assert t !in Below(t);
    }
  }

  lemma BoundOfSubnet(n: Subnet)
    requires n.Valid() && n.ones >= 1
    ensures 8 * n.Bytes() < UINT32
    ensures n.Size() <= 8 * n.Bytes() < n.Size() + 8
  {
    SubnetInAddressSpace(n);
  }

  lemma RequestsAnswerInOrder(h: seq<Commit>, i: nat)
    requires History(h) && i < |h| && h[i].op.Allocates()
    requires forall x :: x in h && x.op.Slot() == h[i].op.Slot() ==> x.op.Allocates()
    ensures h[i].ret == Min(Touches(h[..i], 0, h[i].op.Slot()), h[i].op.Slot().Bound()) + 1
  {
    var slot, g := h[i].op.Slot(), h[..i];
    forall k | 0 <= k < |g|
      ensures g[k] == h[k] && g[..k] == h[..k]
    {
    }
    RequestsFillInOrder(g, slot);
    assert Legal(h[i].op, Replay(g, slot), h[i].effect, h[i].ret);
    NextInOrder(Touches(g, 0, slot), slot.Bound(), h[i].effect, h[i].ret);
  }

  lemma OrderedAnswer(n: Subnet, v: nat, done: nat, ret: nat)
    requires n.Valid() && n.ones >= 1 && ret == Min(done, Ips(v, n).Bound()) + 1
    ensures ret == Min(done + 1, 8 * n.Bytes() + 1)
    ensures n.Contains(AddressOf(n, ret)) <==> done + 1 < n.Size()
    ensures done + 1 < n.Size() ==> AddressOf(n, ret) == n.base + (done + 1)
  {
    BoundOfSubnet(n);
    AddressInside(n, ret);
  }

  /** On a subnet nobody has released from, the t-th committed request (counting from 1) of
      any history answers base+t until the bitmap is full; the address lies in the subnet
      exactly when t < 2^(32-m), and then nothing wraps. */
  lemma FreshSubnetInOrder(h: seq<Commit>, i: nat)
    requires History(h) && i < |h| && h[i].op.RequestIP? && h[i].op.subnet.Valid() && h[i].op.subnet.ones >= 1
    requires forall x :: x in h && x.op.Slot() == h[i].op.Slot() ==> x.op.RequestIP?
    ensures var n := h[i].op.subnet; var t := Touches(h[..i], 0, h[i].op.Slot()) + 1;
            && h[i].ret == Min(t, 8 * n.Bytes() + 1)
            && (n.Contains(AddressOf(n, h[i].ret)) <==> t < n.Size())
            && (t < n.Size() ==> AddressOf(n, h[i].ret) == n.base + t)
  {
    RequestsAnswerInOrder(h, i);
    OrderedAnswer(h[i].op.subnet, h[i].op.vni, Touches(h[..i], 0, h[i].op.Slot()), h[i].ret);
  }

  /** A committed request answers an address of the subnet exactly when one of the bits
      below 2^(32-m)-1 was still clear. */
  lemma RequestInsideSubnet(h: seq<Commit>, i: nat)
    requires History(h) && i < |h| && h[i].op.RequestIP? && h[i].op.subnet.Valid() && h[i].op.subnet.ones >= 1
    ensures var n := h[i].op.subnet;
            n.Contains(AddressOf(n, h[i].ret)) <==> !AllTaken(Replay(h[..i], h[i].op.Slot()), n.Size() - 1)
  {
    var n, m := h[i].op.subnet, Replay(h[..i], h[i].op.Slot());
    assert Legal(h[i].op, m, h[i].effect, h[i].ret);
    BoundOfSubnet(n);
    AddressInside(n, h[i].ret);
  }

  /** CreateNetwork's undo releases the address it requested exactly when the gateway and the
      subnet it then holds are still the requested ones. With a fresh interface they are;
      with an existing one they come from that interface. */
  lemma UndoNamesRequestedBit(v: nat, n: Subnet, ret: nat, gateway: nat, m: Subnet)
    requires n.Valid() && 1 <= ret <= UINT32 && gateway < UINT32
    ensures var undo := ReleaseIP(gateway, m, v);
            undo.Slot() == RequestIP(v, n).Slot() && undo.Target() == ret - 1 <==>
            m == n && gateway == AddressOf(n, ret)
  {
    PositionInverse(n, ret);
    AddressInverse(n, gateway);
  }

  // ---- VNIs

  /** Every committed VNI is in 1..1000000, free, and every smaller one is live. */
  lemma VniLeastFree(h: seq<Commit>, i: nat)
    requires History(h) && i < |h| && h[i].op.AllocateVNI?
    ensures 1 <= h[i].ret <= 1_000_000 && h[i].effect == Insert(h[i].ret - 1)
    ensures LeastMissing(Replay(h[..i], Vlans), h[i].ret - 1)
  {
    assert Legal(h[i].op, Replay(h[..i], Vlans), h[i].effect, h[i].ret);
  }

  /** VNIs are distinct: two callers that got the same one have a committed releaseVNI of
      exactly that VNI between them. */
  lemma VnisDistinct(h: seq<Commit>, i: nat, j: nat)
    requires History(h) && i < j < |h| && h[i].op.AllocateVNI? && h[j].op.AllocateVNI? && h[i].ret == h[j].ret
    ensures 1 <= h[i].ret <= 1_000_000
    ensures exists k :: i < k < j && h[k].op == ReleaseVNI(h[i].ret)
  {
    VniLeastFree(h, i);
    VniLeastFree(h, j);
    NoDoubleAllocation(h, i, j);
    var k :| i < k < j && h[k].op.Slot() == Vlans && h[k].effect == Erase(h[i].ret - 1);
    ErasedVni(h[k].op, Replay(h[..k], Vlans), h[k].effect, h[k].ret, h[i].ret);
  }

  /** A VNI is given back by a releaseVNI of just that VNI. */
  lemma ErasedVni(op: Op, m: set<nat>, e: Effect, ret: nat, v: nat)
    requires Legal(op, m, e, ret) && op.Slot() == Vlans && 1 <= v <= VLAN_COUNT && e == Erase(v - 1)
    ensures op == ReleaseVNI(v)
  {
  }

  /** In every reachable state a reliable read makes allocateVNI give up exactly when all
      1000000 VNIs are live, and giving up changes nothing in the store. */
  lemma VnisExhausted(s: State, c: nat)
    requires Inv(s) && s.At(c).phase.Reading? && s.At(c).phase.job.op.AllocateVNI?
    ensures var t := Step(s, FirstRead(c, true));
            && t.kv == s.kv && t.commits == s.commits
            && (t.At(c).phase.Idle? <==> AllTaken(Stored(s, Vlans), 1_000_000))
            && (t.At(c).phase.Idle? ==>
                  t.results == s.results + [Return(c, s.At(c).calls, AllocateVNI, Exhausted, None)])
  {
    var plan := PlanOf(AllocateVNI, s.kv.Lookup(Vlans));
    PlanStops(s, AllocateVNI, Exhausted);
    if plan.Stop? {
      PlanStops(s, AllocateVNI, plan.outcome);
    }
  }

  /** In a history without a releaseVNI the t-th committed allocateVNI (counting from 1)
      answers t, and there are no more than 1000000. */
  lemma VnisInOrder(h: seq<Commit>, i: nat)
    requires History(h) && i < |h| && h[i].op.AllocateVNI? && forall x :: x in h ==> !x.op.ReleaseVNI?
    ensures h[i].ret == Touches(h[..i], 0, Vlans) + 1 <= 1_000_000
  {
    RequestsAnswerInOrder(h, i);
    VniLeastFree(h, i);
  }

  /** For every t up to 1000000: in a run with t-1 VNIs taken and none given back, an
      allocateVNI left alone answers t; after 1000000 it gives up. */
  lemma NextVni(events: seq<Event>, c: nat)
    requires var p := Run(events).At(c).phase; p.Reading? && p.job.op.AllocateVNI?
    requires forall x :: x in Run(events).commits ==> !x.op.ReleaseVNI?
    ensures var s, t := Run(events), Run(events + LeftAlone(c));
            var k := Touches(s.commits, 0, Vlans) + 1;
            && t.results != [] && t.results[..|t.results| - 1] == s.results
            && var r := t.results[|s.results|];
               && r.client == c && r.op.AllocateVNI?
               && r.outcome == if k <= 1_000_000 then Finished(OK, k) else Exhausted
  {
    var s := Run(events);
    StoredInOrder(events, Vlans);
    VlansBound(Vlans);
    VniLeftAlone(events, c);
    NextAnswer(s, Run(events + LeftAlone(c)), c, Touches(s.commits, 0, Vlans));
  }

  lemma VlansBound(slot: Slot)
    requires slot.Vlans?
    ensures slot.Bound() == 1_000_000
  {
  }

  lemma StoredInOrder(events: seq<Event>, slot: Slot)
    requires forall x :: x in Run(events).commits && x.op.Slot() == slot ==> x.op.Allocates()
    ensures var s := Run(events);
            forall k: nat :: k in Stored(s, slot) <==> k < Touches(s.commits, 0, slot) && k < slot.Bound()
  {
    Linearizable(events);
    FilledInOrder(Run(events).commits, slot);
  }

  lemma NextAnswer(s: State, t: State, c: nat, done: nat)
    requires forall k: nat :: k in Stored(s, Vlans) <==> k < done && k < 1_000_000
    requires if AllTaken(Stored(s, Vlans), 1_000_000) then Stopped(s, t, c, AllocateVNI, Exhausted)
             else Committed(s, t, c, AllocateVNI)
    ensures |t.results| == |s.results| + 1 && t.results[..|s.results|] == s.results
    ensures var r := t.results[|s.results|];
            && r.client == c && r.op.AllocateVNI?
            && r.outcome == if done < 1_000_000 then Finished(OK, done + 1) else Exhausted
  {
    if done < 1_000_000 {
      var m := Stored(s, Vlans);
      assert done !in m;
      var e, ret: nat :|
        && Legal(AllocateVNI, m, e, ret)
        && t.results
        == s.results + [Return(c, s.At(c).calls, AllocateVNI, Finished(OK, ret), Some(Sent(Delivered, true)))];
      NextFree(m, Vlans.Bound(), e, ret, done);
    }
  }

  lemma NextFree(m: set<nat>, bound: nat, e: Effect, ret: nat, done: nat)
    requires TakesLeast(m, bound, e, ret) && done < bound && forall k: nat :: k < bound ==> (k in m <==> k < done)
    ensures ret == done + 1
  {
    assert done !in m;
  }
}
