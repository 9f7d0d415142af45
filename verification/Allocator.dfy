/** The cluster-wide allocator: any number of clients run RequestIP, MarkUsed, ReleaseIP,
    allocateVNI and releaseVNI of server/network.go against one shared store, one request
    at a time, in any interleaving and with any request or answer lost. */
module Allocator {
  import opened Words
  import opened Bitmaps
  import opened Store
  import opened Addresses
  import opened Keys

  datatype Op =
    | RequestIP(vni: nat, subnet: Subnet)
    | MarkUsed(vni: nat, addr: nat, subnet: Subnet)
    | ReleaseIP(addr: nat, subnet: Subnet, vni: nat)
    | AllocateVNI
    | ReleaseVNI(vni: nat)
  {
    function Slot(): Slot {
      match this
      case RequestIP(v, n) => Ips(v, n)
      case MarkUsed(v, _, n) => Ips(v, n)
      case ReleaseIP(_, n, v) => Ips(v, n)
      case AllocateVNI => Vlans
      case ReleaseVNI(_) => Vlans
    }

    predicate Allocates() {
      RequestIP? || AllocateVNI?
    }

    /** The bit a call names itself. */
    function Target(): nat
      requires !Allocates()
    {
      match this
      case MarkUsed(_, a, n) => PositionOf(n, a)
      case ReleaseIP(a, n, _) => PositionOf(n, a)
      case ReleaseVNI(v) => UintPred(v)
    }

    /** allocateVNI drops Put's result; every other operation calls itself on OUTDATED. */
    predicate Retries() {
      !AllocateVNI?
    }
  }

  // ---- the sequential specification

  datatype Effect = Insert(bit: nat) | Erase(bit: nat) | Keep

  function Apply(m: set<nat>, e: Effect): set<nat> {
    match e
    case Insert(k) => m + {k}
    case Erase(k) => m - {k}
    case Keep => m
  }

  /** What op may do to a set m of taken bits, and what it then returns. */
  ghost predicate Legal(op: Op, m: set<nat>, e: Effect, ret: nat) {
    match op
    case RequestIP(_, _) => TakesLeast(m, op.Slot().Bound(), e, ret)
    case AllocateVNI => TakesLeast(m, op.Slot().Bound(), e, ret) && ret <= VLAN_COUNT
    case MarkUsed(_, _, _) => e == Insert(op.Target())
    case ReleaseIP(_, _, _) => e == Erase(op.Target())
    case ReleaseVNI(_) => e == Erase(op.Target())
  }

  ghost predicate AllTaken(m: set<nat>, bound: nat) {
    forall k: nat :: k < bound ==> k in m
  }

  ghost predicate TakesLeast(m: set<nat>, bound: nat, e: Effect, ret: nat) {
    if AllTaken(m, bound)
    then e == Keep && ret == bound + 1
    else 1 <= ret <= bound && e == Insert(ret - 1) && LeastMissing(m, ret - 1)
  }

  // ---- one call, computed on the value its first read returned

  datatype Flip = Flip(oldVal: Bitmap, newVal: Bitmap, effect: Effect, ret: nat)

  datatype Outcome =
    | Finished(result: PutResult, ret: nat)
    | NotFound     // MarkUsed and ReleaseIP return false
    | Exhausted    // allocateVNI returns an error
    | Panic        // index out of range

  datatype Plan = Go(flip: Flip) | Stop(outcome: Outcome)

  /** make([]byte, n) followed by copy. */
  function Copied(s: Bitmap, n: nat): Bitmap {
    seq(n, i requires 0 <= i < n => if i < |s| then s[i] else 0)
  }

  function TakePlan(oldVal: Bitmap, s: Bitmap): Flip {
    var t := Take(s);
    Flip(oldVal, t.bitmap, if t.ret <= Bound(s) then Insert(t.ret - 1) else Keep, t.ret)
  }

  function PlanOf(op: Op, read: Option<Bitmap>): Plan {
    match op
    case RequestIP(_, n) =>
      var s := if read.Some? then read.value else Zeros(n.Bytes());
      Go(TakePlan(s, s))
    case AllocateVNI =>
      var s := if read.Some? then read.value else Zeros(VLAN_BYTES);
      var f := TakePlan(Copied(s, VLAN_BYTES), s);
      if f.ret > VLAN_COUNT then Stop(Exhausted) else Go(f)
    case MarkUsed(_, _, _) =>
      if read.None? then Stop(NotFound)
      else if op.Target() >= 8 * |read.value| then Stop(Panic)
      else Go(Flip(read.value, WithBit(read.value, op.Target()), Insert(op.Target()), 0))
    case ReleaseIP(_, _, _) =>
      if read.None? then Stop(NotFound)
      else if op.Target() >= 8 * |read.value| then Stop(Panic)
      else Go(Flip(read.value, WithoutBit(read.value, op.Target()), Erase(op.Target()), 0))
    case ReleaseVNI(_) =>
      var s := if read.Some? then read.value else Zeros(VLAN_BYTES);
      var c := Copied(s, VLAN_BYTES);
      if op.Target() >= 8 * |c| then Stop(Panic)
      else Go(Flip(s, WithoutBit(c, op.Target()), Erase(op.Target()), 0))
  }

  // ---- the transition system

  /** A call in progress: `start` is the number of commits when it began, `misreads` the
      number of its first reads that failed. */
  datatype Job = Job(op: Op, attempt: nat, misreads: nat, start: nat)

  datatype Phase =
    | Idle
    | Reading(job: Job)
    | Flipped(job: Job, flip: Flip, reliable: bool, tally: nat)
    | Checked(job: Job, flip: Flip, cas: nat)

  datatype Client = Client(calls: nat, phase: Phase)

  datatype Commit = Commit(client: nat, call: nat, op: Op, effect: Effect, ret: nat)

  /** What became of a call's PUT: how it was delivered, and whether the server held the
      index it named. */
  datatype Sent = Sent(delivery: Delivery, accepted: bool)

  /** `sent` is None for a call that returned without a PUT. */
  datatype Return = Return(client: nat, call: nat, op: Op, outcome: Outcome, sent: Option<Sent>)

  datatype State = State(
    kv: KV<Slot, Bitmap>,
    clients: map<nat, Client>,
    commits: seq<Commit>,
    results: seq<Return>)
  {
    function At(c: nat): Client {
      if c in clients then clients[c] else Client(0, Idle)
    }

    function To(c: nat, p: Phase): State {
      this.(clients := clients[c := Client(At(c).calls, p)])
    }

    function Finish(c: nat, op: Op, o: Outcome, sent: Option<Sent>): State {
      this.(clients := clients[c := Client(At(c).calls + 1, Idle)],
            results := results + [Return(c, At(c).calls, op, o, sent)])
    }
  }

  datatype Event =
    | Begin(c: nat, op: Op)
    | FirstRead(c: nat, reliable: bool)
    | ReRead(c: nat, reliable: bool)
    | Write(c: nat, d: Delivery)

  /** The commits on a slot from number `from` on. */
  function Touches(h: seq<Commit>, from: nat, slot: Slot): nat {
    if |h| <= from then 0
    else Touches(h[..|h| - 1], from, slot) + if h[|h| - 1].op.Slot() == slot then 1 else 0
  }

  function Step(s: State, e: Event): State {
    var phase := s.At(e.c).phase;
    match e
    case Begin(c, op) =>
      if phase.Idle? then s.To(c, Reading(Job(op, 1, 0, |s.commits|))) else s
    case FirstRead(c, reliable) =>
      if phase.Reading? then
        var job := phase.job.(misreads := phase.job.misreads + if reliable then 0 else 1);
        match PlanOf(job.op, Store.Read(s.kv, job.op.Slot(), reliable).value)
        case Stop(o) => s.Finish(c, job.op, o, None)
        case Go(f) => s.To(c, Flipped(job, f, reliable, Touches(s.commits, job.start, job.op.Slot())))
      else s
    case ReRead(c, reliable) =>
      if phase.Flipped? then
        var job := phase.job;
        var r := Store.Read(s.kv, job.op.Slot(), reliable);
        if Outdated(r, Some(phase.flip.oldVal)) then
          if job.op.Retries() then s.To(c, Reading(job.(attempt := job.attempt + 1)))
          else s.Finish(c, job.op, Finished(OUTDATED, phase.flip.ret), None)
        else s.To(c, Checked(job, phase.flip, r.index))
      else s
    case Write(c, d) =>
      if phase.Checked? then
        var op, f := phase.job.op, phase.flip;
        var out := Finished(WriteResult(s.kv, op.Slot(), phase.cas, d), f.ret);
        var sent := Some(Sent(d, Accepts(s.kv, op.Slot(), phase.cas)));
        if Commits(s.kv, op.Slot(), phase.cas, d)
        then s.(kv := Store.Write(s.kv, op.Slot(), f.newVal, phase.cas, d),
                commits := s.commits + [Commit(c, s.At(c).calls, op, f.effect, f.ret)]).Finish(c, op, out, sent)
        else s.Finish(c, op, out, sent)
      else s
  }

  const START := State(KV(map[], 0), map[], [], [])

  function Run(events: seq<Event>): State {
    if events == [] then START else Step(Run(events[..|events| - 1]), events[|events| - 1])
  }

  /** The set of taken bits after the commits on one slot, applied one at a time in order. */
  function Replay(h: seq<Commit>, slot: Slot): set<nat> {
    if h == [] then {}
    else
      var m, c := Replay(h[..|h| - 1], slot), h[|h| - 1];
      if c.op.Slot() == slot then Apply(m, c.effect) else m
  }

  ghost predicate History(h: seq<Commit>) {
    forall i :: 0 <= i < |h| ==> Legal(h[i].op, Replay(h[..i], h[i].op.Slot()), h[i].effect, h[i].ret)
  }
}
