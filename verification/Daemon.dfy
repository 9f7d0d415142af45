/** connHandler of server/connection.go: one node's loop over its connection requests. */
module Daemon {
  import opened Words
  import opened Store
  import opened Addresses
  import opened Keys
  import opened Connections
  import opened ConnectionTheorems

  /** A request from the API; `read` says whether its network can be read, `ok` whether the
      interface steps after the address succeed, as far as they do not parse its text. */
  datatype Ctx =
    | AddConn(id: nat, place: nat, network: string, request: Option<nat>, read: bool, ok: bool)
    | DeleteConn(id: nat, read: bool)
  {
    /** The step on the bitmaps, which is the one that may panic. */
    function AddressStep(): Event {
      match this
      case AddConn(id, place, network, request, read, _) => if read then Take(id, place, network, request) else Pass
      case DeleteConn(id, read) => if read then Release(id) else Unread(id)
    }

    /** The step on the connections map. */
    function MapStep(): Event {
      match this
      case AddConn(id, _, _, _, _, ok) => if ok then Register(id) else Fail(id)
      case DeleteConn(id, _) => Unregister(id)
    }
  }

  function Handled(s: State, c: Ctx): State {
    Step(Step(s, c.AddressStep()), c.MapStep())
  }

  /** An added connection is in the map; OvsPortID "-1" reports that it is not. */
  predicate Answer(s: State, c: Ctx) {
    c.AddConn? ==> c.id in Handled(s, c).conns && Handled(s, c).conns[c.id].phase.Registered?
  }

  /** The loop after some requests: what it answered, and whether a panic has ended it. */
  datatype Loop = Loop(state: State, replies: seq<bool>, alive: bool)

  function Next(l: Loop, c: Ctx): Loop {
    if !l.alive then l
    else if Crashes(l.state, c.AddressStep()) then l.(alive := false)
    else Loop(Handled(l.state, c), l.replies + [Answer(l.state, c)], true)
  }

  function HandledAll(s: State, queue: seq<Ctx>): Loop {
    if queue == [] then Loop(s, [], true) else Next(HandledAll(s, queue[..|queue| - 1]), queue[|queue| - 1])
  }

  // ---- what a single request means

  /** The bit a request is given: that of its static address, or the least free one. */
  function BitFor(s: State, c: Ctx): nat
    requires c.AddConn? && c.network in s.nets
  {
    var net := s.nets[c.network];
    match c.request
    case Some(addr) => PositionOf(net.subnet, addr)
    case None => FreeBit(s.taken, net.Slot(), 0)
  }

  /** The request gets as far as an address. */
  predicate Addressed(s: State, c: Ctx) {
    c.AddConn? && c.read && c.id !in s.conns && c.network in s.nets && !Crashes(s, c.AddressStep())
  }

  /** addConnection registers a request exactly when its network is stored and read, a static
      address has a bit, the text of the address parses, and the other steps succeed. */
  predicate Registers(s: State, c: Ctx) {
    Addressed(s, c) && c.ok && ParsedText(s.nets[c.network].subnet, BitFor(s, c)).Some?
  }

  lemma AddRegisters(s: State, c: Ctx)
    requires c.AddConn? && c.id !in s.conns
    ensures Answer(s, c) <==> Registers(s, c)
    ensures Answer(s, c) ==>
              var c' := NewConn(c.place, c.network, s.nets[c.network], BitFor(s, c));
              Handled(s, c).conns[c.id] == c'.(phase := Registered)
    ensures !Answer(s, c) ==>
              forall i :: i in s.conns ==> i in Handled(s, c).conns && Handled(s, c).conns[i] == s.conns[i]
  {
  }

  /** The bit that a request sets and that was not set before. */
  predicate SetsBit(s: State, c: Ctx) {
    && Addressed(s, c)
    && var slot, k := s.nets[c.network].Slot(), BitFor(s, c);
       && (slot, k) !in s.taken && (if c.request.None? then k < slot.Bound() else slot in s.slots)
  }

  /** Of all bits only the request's own changes, and it does exactly when it was clear and the
      request names or finds a bit of a bitmap, whether or not the request succeeds. */
  lemma AddSetsBit(s: State, c: Ctx)
    requires c.AddConn? && c.id !in s.conns
    ensures Handled(s, c).taken
         == if SetsBit(s, c) then s.taken + {(s.nets[c.network].Slot(), BitFor(s, c))} else s.taken
  {
  }

  /** A record as every run makes it: with texts that parse and a bit of the address space. */
  predicate Sound(c: Conn) {
    Faithful(c) && c.parsed.Some? && c.subnet.ones >= 1 && c.bit < UINT32
  }

  /** The bit of the block around c's address, under the VNI its network now has. */
  function BlockBit(s: State, c: Conn): (Slot, nat)
    requires c.subnet.Valid() && c.network in s.nets
  {
    (Ips(s.nets[c.network].vni, Block(c)), PositionOf(Block(c), c.Addr()))
  }

  /** There is a bitmap for that block. */
  predicate HasBlock(s: State, c: Conn)
    requires c.subnet.Valid()
  {
    c.network in s.nets && BlockBit(s, c).0 in s.slots
  }

  /** The network of c is stored as it was when c was added, and c's address is in its subnet. */
  predicate AtHome(s: State, c: Conn) {
    && c.network in s.nets && s.nets[c.network].vni == c.vni && c.Slot() in s.slots
    && Restorable(c)
  }

  /** t is s after a deletion of connection c that did not panic: one bit of a bitmap is clear
      or none has changed, the place has no entry any more, and all else is as before. */
  ghost predicate Deleted(s: State, t: State, c: Conn, read: bool)
    requires c.subnet.Valid()
  {
    && (read && AtHome(s, c) ==> t.taken == s.taken - {(c.Slot(), c.bit)})
    && (read && HasBlock(s, c) ==> t.taken == s.taken - {BlockBit(s, c)})
    && (!read || !HasBlock(s, c) ==> t.taken == s.taken)
    && t.nets == s.nets && t.slots == s.slots && t.conns.Keys == s.conns.Keys
    && Vacant(t, c.place)
    && (forall i :: i in s.conns && (s.conns[i].place != c.place || !s.conns[i].InMap()) ==> t.conns[i] == s.conns[i])
    && (forall i :: i in s.conns && s.conns[i].place == c.place && s.conns[i].InMap() ==>
          t.conns[i] == s.conns[i].(phase := Gone))
  }

  /** The deletion of a connection panics exactly on the base of a block that has a bitmap. */
  predicate Panics(s: State, c: Conn, read: bool)
    requires c.subnet.Valid()
  {
    read && HasBlock(s, c) && c.Addr() == Block(c).base
  }

  lemma HomeIsBlock(s: State, c: Conn)
    requires Sound(c) && AtHome(s, c)
    ensures HasBlock(s, c) && BlockBit(s, c) == (c.Slot(), c.bit) && c.Addr() != Block(c).base
  {
    OwnBlock(c);
  }

  /** The entries of the place go, whichever of them the deletion had marked. */
  lemma Unregistered(s: State, t: State, id: nat)
    requires Deletable(s, id) && id in t.conns && t.conns == s.conns[id := t.conns[id]]
    requires t.conns[id] == s.conns[id].(phase := if s.conns[id].phase.Gone? then Gone else Phase.Releasing)
    requires t.nets == s.nets && t.slots == s.slots
    ensures var u, c := Step(t, Unregister(id)), s.conns[id];
            && u == t.(conns := u.conns) && u.conns.Keys == s.conns.Keys && Vacant(u, c.place)
            && (forall i :: i in s.conns && (s.conns[i].place != c.place || !s.conns[i].InMap()) ==>
                  u.conns[i] == s.conns[i])
            && (forall i :: i in s.conns && s.conns[i].place == c.place && s.conns[i].InMap() ==>
                  u.conns[i] == s.conns[i].(phase := Gone))
  {
  }

  /** Every deletion of a connection that is or was in the map, whatever its address. */
  lemma DeletionMeans(s: State, id: nat, read: bool)
    requires Deletable(s, id) && Sound(s.conns[id])
    ensures var c := s.conns[id]; var t := HandledAll(s, [DeleteConn(id, read)]);
            && c.subnet.Valid()
            && (t.alive <==> !Panics(s, c, read))
            && (t.alive ==> t.replies == [true] && Deleted(s, t.state, c, read))
            && (!t.alive ==> t.replies == [] && t.state == s)
    ensures !Panics(s, s.conns[id], read) ==> Deleted(s, Handled(s, DeleteConn(id, read)), s.conns[id], read)
    ensures read && AtHome(s, s.conns[id]) ==> !Panics(s, s.conns[id], read)
  {
    var c, e := s.conns[id], DeleteConn(id, read);
    assert [e][..0] == [];
    assert HandledAll(s, [e]) == Next(HandledAll(s, []), e);
    DeletionExactly(s, c);
    if AtHome(s, c) {
      HomeIsBlock(s, c);
    }
    if !Panics(s, c, read) {
      Unregistered(s, Step(s, e.AddressStep()), id);
    }
  }

  /** ... and at every point of every queue. */
  lemma QueuedDeletion(s: State, queue: seq<Ctx>, k: nat)
    requires k < |queue| && queue[k].DeleteConn? && HandledAll(s, queue[..k]).alive
    requires var u := HandledAll(s, queue[..k]).state; Deletable(u, queue[k].id) && Sound(u.conns[queue[k].id])
    ensures var u, t := HandledAll(s, queue[..k]).state, HandledAll(s, queue[..k + 1]);
            var c := u.conns[queue[k].id];
            && (t.alive <==> !Panics(u, c, queue[k].read))
            && (t.alive ==> Deleted(u, t.state, c, queue[k].read))
  {
    assert queue[..k + 1][..k] == queue[..k];
    DeletionMeans(HandledAll(s, queue[..k]).state, queue[k].id, queue[k].read);
    assert [queue[k]][..0] == [];
  }

  /** A connection deleted after its network is deleted without complaint, and its bit stays set:
      deleteConnection returns before ReleaseIP. */
  lemma OrphanKeepsBit(s: State, id: nat, read: bool)
    requires Deletable(s, id) && Sound(s.conns[id])
    ensures var c := s.conns[id];
            var t := HandledAll(Step(s, Destroy(c.network)), [DeleteConn(id, read)]);
            t.alive && t.replies == [true] && t.state.taken == s.taken && Vacant(t.state, c.place)
            && t.state.nets.Keys == s.nets.Keys - {c.network}
  {
    DeletionMeans(Step(s, Destroy(s.conns[id].network)), id, read);
  }

  /** In every admissible run the deletion of a registered connection whose network is read gives
      back exactly the connection's own bit, if and only if its address lies in the subnet and is
      not the base; one whose network is not read gives nothing back. Unless it panics, the
      place has no entry afterwards. */
  lemma DeletionInRun(events: seq<Event>, id: nat, read: bool)
    requires AdmissibleRun(events) && id in Run(events).conns && Run(events).conns[id].phase.Registered?
    ensures var s := Run(events); var c := s.conns[id]; var t := HandledAll(s, [DeleteConn(id, read)]);
            && (t.state.taken == s.taken - {(c.Slot(), c.bit)} <==> read && Restorable(c))
            && (!read ==> t.alive && t.state.taken == s.taken)
            && (Restorable(c) ==> t.alive) && (t.alive ==> Vacant(t.state, c.place))
  {
    var s := Run(events);
    var c := s.conns[id];
    RunKeepsInv(events);
    RunKeepsFaithful(events);
    DeletionMeans(s, id, read);
    assert (c.Slot(), c.bit) in s.taken;
    if !Restorable(c) {
      OwnBitCleared(s, c);
      DeletionExactly(s, c);
    }
  }

  class Handler {
    var state: State

    method AddConnection(id: nat, place: nat, network: string, request: Option<nat>, read: bool, ok: bool)
      returns (registered: bool)
      modifies this
      ensures id !in old(state).conns ==>
                (registered <==> Registers(old(state), AddConn(id, place, network, request, read, ok)))
      ensures id !in old(state).conns && registered ==>
                && id in state.conns && state.conns[id].phase.Registered?
                && state.conns[id].bit == BitFor(old(state), AddConn(id, place, network, request, read, ok))
      ensures id !in old(state).conns && !registered ==>
                forall i :: i in old(state).conns ==> i in state.conns && state.conns[i] == old(state).conns[i]
      ensures state == Handled(old(state), AddConn(id, place, network, request, read, ok))
      ensures registered == Answer(old(state), AddConn(id, place, network, request, read, ok))
    {
      if id !in state.conns {
        AddRegisters(state, AddConn(id, place, network, request, read, ok));
      }
      if read {
        state := Step(state, Take(id, place, network, request));
      }
      if ok {
        state := Step(state, Register(id));
      } else {
        state := Step(state, Fail(id));
      }
      registered := id in state.conns && state.conns[id].phase.Registered?;
    }

    method DeleteConnection(id: nat, read: bool)
      modifies this
      ensures Deletable(old(state), id) && Sound(old(state).conns[id]) ==>
                var c := old(state).conns[id]; Panics(old(state), c, read) || Deleted(old(state), state, c, read)
      ensures !Deletable(old(state), id) ==> state.taken == old(state).taken
      ensures state == Handled(old(state), DeleteConn(id, read))
    {
      if Deletable(state, id) && Sound(state.conns[id]) {
        DeletionMeans(state, id, read);
      }
      if read {
        state := Step(state, Release(id));
      } else {
        state := Step(state, Unread(id));
      }
      state := Step(state, Unregister(id));
    }

    /** The loop over the channel; a panic ends it, and with it the daemon. */
    method ConnHandler(queue: seq<Ctx>) returns (replies: seq<bool>, alive: bool)
      modifies this
      ensures Loop(state, replies, alive) == HandledAll(old(state), queue)
      ensures alive ==> |replies| == |queue|
      ensures !alive ==>
                && |replies| < |queue| && Crashes(state, queue[|replies|].AddressStep())
                && Loop(state, replies, true) == HandledAll(old(state), queue[..|replies|])
    {
      replies, alive := [], true;
      var i := 0;
      while i < |queue|
        invariant 0 <= i <= |queue| && |replies| == i && alive
        invariant Loop(state, replies, true) == HandledAll(old(state), queue[..i])
      {
        var c := queue[i];
        assert queue[..i + 1][..i] == queue[..i];
        if Crashes(state, c.AddressStep()) {
          DeadForever(old(state), queue, i);
          return replies, false;
        }
        var r := true;
        match c {
          case AddConn(id, place, network, request, read, ok) =>
            r := AddConnection(id, place, network, request, read, ok);
          case DeleteConn(id, read) =>
            DeleteConnection(id, read);
        }
        replies := replies + [r];
        i := i + 1;
      }
      assert queue[..|queue|] == queue;
    }
  }

  /** After a panic nothing more is handled or answered. */
  lemma {:induction false} DeadForever(s: State, queue: seq<Ctx>, i: nat)
    requires i < |queue| && HandledAll(s, queue[..i]).alive
    requires Crashes(HandledAll(s, queue[..i]).state, queue[i].AddressStep())
    ensures HandledAll(s, queue) == HandledAll(s, queue[..i]).(alive := false)
  {
    var front := queue[..|queue| - 1];
    if i < |front| {
      assert front[..i] == queue[..i];
      DeadForever(s, front, i);
    }
  }

  // ---- every queue

  /** A request is proper if its address step is admissible when it is reached. */
  ghost predicate Proper(s: State, c: Ctx) {
    Admissible(s, c.AddressStep())
  }

  lemma HandledKeepsInv(s: State, c: Ctx)
    requires Inv(s) && Proper(s, c)
    ensures Inv(Handled(s, c))
  {
    StepKeepsInv(s, c.AddressStep());
    StepKeepsInv(Step(s, c.AddressStep()), c.MapStep());
  }

  /** The handler keeps the invariant over every queue of proper requests. */
  lemma {:induction false} QueueKeepsInv(s: State, queue: seq<Ctx>)
    requires Inv(s) && forall i :: 0 <= i < |queue| ==> Proper(HandledAll(s, queue[..i]).state, queue[i])
    ensures Inv(HandledAll(s, queue).state)
  {
    if queue != [] {
      var front := queue[..|queue| - 1];
      forall i | 0 <= i < |front|
        ensures Proper(HandledAll(s, front[..i]).state, front[i])
      {
        assert front[..i] == queue[..i];
      }
      QueueKeepsInv(s, front);
      HandledKeepsInv(HandledAll(s, front).state, queue[|queue| - 1]);
    }
  }

  /** A failed request is not rolled back. Over every failed request, dynamic or static and
      whatever made it fail: no connection and no network changes, and a bit stays set that
      was not, exactly when the request got as far as an address whose bit was clear. */
  lemma FailedAddLeaksBit(s: State, c: Ctx)
    requires c.AddConn? && c.id !in s.conns && !Answer(s, c)
    ensures var t := Handled(s, c);
            && t.nets == s.nets && (forall i :: i in s.conns ==> i in t.conns && t.conns[i] == s.conns[i])
            && (c.id in t.conns ==> t.conns[c.id].phase.Failed?)
            && (t.taken != s.taken <==> SetsBit(s, c))
  {
    AddRegisters(s, c);
    AddSetsBit(s, c);
  }

  /** With a one-digit prefix length a dynamic request whose other steps succeed still fails, and
      leaves its bit set, exactly when ten times the last octet of its address exceeds 255. */
  lemma IllegibleAddFails(s: State, c: Ctx)
    requires Addressed(s, c) && c.ok && c.request.None?
    requires s.nets[c.network].subnet.Valid() && s.nets[c.network].subnet.ones < 10
    requires BitFor(s, c) < s.nets[c.network].Slot().Bound()
    ensures !Answer(s, c) <==> 10 * (AddressOf(s.nets[c.network].subnet, BitFor(s, c) + 1) % 256) > 255
    ensures Handled(s, c).taken == s.taken + {(s.nets[c.network].Slot(), BitFor(s, c))}
    ensures Handled(s, c).taken != s.taken
  {
    AddRegisters(s, c);
    AddSetsBit(s, c);
    assert (s.nets[c.network].Slot(), BitFor(s, c)) !in s.taken;
  }
}
