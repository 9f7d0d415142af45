/** Runs in which the allocator does not keep what a caller would expect. */
module AllocatorFailures {
  import opened Words
  import opened Bitmaps
  import opened Store
  import opened Addresses
  import opened Keys
  import opened Allocator
  import opened AllocatorSafety
  import opened AllocatorTheorems
  import opened AllocatorProgress

  /** On a slot without an entry an allocation plans to take bit 0. */
  lemma FreshPlan(op: Op) returns (f: Flip)
    requires op.Allocates() && 0 < 8 * op.Slot().Bytes() < UINT32
    ensures PlanOf(op, None) == Go(f) && f.ret == 1
  {
    var n := op.Slot().Bytes();
    ZerosAreEmpty(n);
    TakeIsLeastMissing(Zeros(n));
    assert 0 !in Members(Zeros(n));
    CopiedIsIdentity(Zeros(n), n);
    f := TakePlan(Zeros(n), Zeros(n));
  }

  function Approach(c: nat, op: Op): seq<Event> {
    [Begin(c, op), FirstRead(c, true), ReRead(c, true)]
  }

  /** Three undisturbed steps bring a client on an absent slot to the point of its write. */
  lemma ApproachRuns(s: State, c: nat, op: Op, f: Flip)
    requires s.At(c).phase.Idle? && op.Slot() !in s.kv.entries && s.commits == []
    requires PlanOf(op, None) == Go(f)
    ensures Steps(s, Approach(c, op)) == s.To(c, Checked(Job(op, 1, 0, 0), f, 0))
  {
    var es := Approach(c, op);
    var s1 := Step(s, es[0]);
    var s2 := Step(s1, es[1]);
    var s3 := Step(s2, es[2]);
    assert s1.clients[c] == Client(s.At(c).calls, Reading(Job(op, 1, 0, 0)));
    assert s2.clients[c] == Client(s.At(c).calls, Flipped(Job(op, 1, 0, 0), f, true, 0));
    assert s3.clients[c] == Client(s.At(c).calls, Checked(Job(op, 1, 0, 0), f, 0));
    assert s3.clients == s.To(c, Checked(Job(op, 1, 0, 0), f, 0)).clients;
    assert es[1..][1..] == [es[2]] && es[1..][1..][1..] == [];
    assert Steps(s2, [es[2]]) == s3;
  }

  /** Both clients check before either writes. */
  function Race(op: Op): seq<Event> {
    Approach(0, op) + Approach(1, op) + [Event.Write(0, Delivered), Event.Write(1, Delivered)]
  }

  /** What the two clients of a race return. */
  function Won(op: Op): Return {
    Return(0, 0, op, Finished(OK, 1), Some(Sent(Delivered, true)))
  }

  function LostRace(op: Op): Return {
    Return(1, 0, op, Finished(ERROR, 1), Some(Sent(Delivered, false)))
  }

  /** RequestIP takes ERROR for success: the client whose write lost the race returns the
      same address as the winner, and owns no bit. */
  lemma LostCasReturnsSameAddress(v: nat, n: Subnet)
    requires 0 < 8 * n.Bytes() < UINT32
    ensures var op := RequestIP(v, n); var s := Run(Race(op));
            && s.results == [Won(op), LostRace(op)]
            && |s.commits| == 1
  {
    RaceRuns(RequestIP(v, n));
  }

  /** allocateVNI drops Put's result, so the same race gives two networks one VNI. */
  lemma LostCasReturnsSameVNI()
    ensures var s := Run(Race(AllocateVNI));
            && s.results == [Won(AllocateVNI), LostRace(AllocateVNI)]
            && |s.commits| == 1
  {
    RaceRuns(AllocateVNI);
  }

  lemma RaceRuns(op: Op)
    requires op.Allocates() && 0 < 8 * op.Slot().Bytes() < UINT32
    ensures var s := Run(Race(op));
            && s.results == [Won(op), LostRace(op)]
            && |s.commits| == 1
  {
    var f := FreshPlan(op);
    var p := Checked(Job(op, 1, 0, 0), f, 0);
    ApproachRuns(START, 0, op, f);
    var s1 := START.To(0, p);
    ApproachRuns(s1, 1, op, f);
    var s2 := s1.To(1, p);
    StepsExtendRun([], Approach(0, op));
    StepsExtendRun(Approach(0, op), Approach(1, op));
    StepsExtendRun(Approach(0, op) + Approach(1, op), [Event.Write(0, Delivered), Event.Write(1, Delivered)]);
    assert [] + Approach(0, op) == Approach(0, op);
    WritesCollide(s2, op, p);
  }

  lemma WritesCollide(s: State, op: Op, p: Phase)
    requires p.Checked? && p.job.op == op && p.cas == 0 && p.flip.ret == 1
    requires s.At(0) == s.At(1) == Client(0, p) && op.Slot() !in s.kv.entries && s.commits == [] && s.results == []
    ensures var t := Steps(s, [Event.Write(0, Delivered), Event.Write(1, Delivered)]);
            && t.results == [Won(op), LostRace(op)]
            && |t.commits| == 1
  {
    var t := Step(s, Event.Write(0, Delivered));
    assert op.Slot() in t.kv.entries && t.At(1) == s.At(1);
    var es := [Event.Write(0, Delivered), Event.Write(1, Delivered)];
    assert es[1..] == [Event.Write(1, Delivered)];
    assert Steps(t, es[1..]) == Step(t, Event.Write(1, Delivered));
  }

  /** Put takes every answer but "false" for OK. A client whose write the server refuses with
      an error page returns an address, is told OK, and owns no bit. */
  lemma ErrorPageIsOk(op: Op)
    requires op.Allocates() && 0 < 8 * op.Slot().Bytes() < UINT32
    ensures var s := Run(Approach(0, op) + [Event.Write(0, ServerError)]);
            && s.results == [Return(0, 0, op, Finished(OK, 1), Some(Sent(ServerError, true)))]
            && s.commits == [] && s.kv == START.kv
  {
    var f := FreshPlan(op);
    var p := Checked(Job(op, 1, 0, 0), f, 0);
    ApproachRuns(START, 0, op, f);
    StepsExtendRun([], Approach(0, op));
    assert [] + Approach(0, op) == Approach(0, op);
    var s, write := START.To(0, p), [Event.Write(0, ServerError)];
    StepsExtendRun(Approach(0, op), write);
    assert write[1..] == [] && Steps(s, write) == Steps(Step(s, write[0]), write[1..]);
  }

  /** RequestIP does not test for a full bitmap. */
  lemma FullBitmapTakesNothing(h: seq<Commit>, i: nat)
    requires History(h) && i < |h| && h[i].op.RequestIP?
    ensures h[i].effect == Keep <==> AllTaken(Replay(h[..i], h[i].op.Slot()), h[i].op.Slot().Bound())
    ensures h[i].effect == Keep <==> h[i].ret == h[i].op.Slot().Bound() + 1
  {
    assert Legal(h[i].op, Replay(h[..i], h[i].op.Slot()), h[i].effect, h[i].ret);
  }

  /** Two committed requests on one network, with no release of the address between them,
      return one address if and only if the bitmap was full for both. */
  lemma FullBitmapRepeatsAddress(h: seq<Commit>, i: nat, j: nat)
    requires History(h) && i < j < |h| && h[i].op.RequestIP? && h[i].op == h[j].op
    requires !ReleasedBetween(h, i, j, h[i].op.Slot(), h[i].ret)
    ensures var n, slot := h[i].op.subnet, h[i].op.Slot();
            AddressOf(n, h[i].ret) == AddressOf(n, h[j].ret) <==>
            AllTaken(Replay(h[..i], slot), slot.Bound()) && AllTaken(Replay(h[..j], slot), slot.Bound())
  {
    var n, slot := h[i].op.subnet, h[i].op.Slot();
    FullBitmapTakesNothing(h, i);
    FullBitmapTakesNothing(h, j);
    assert Legal(h[i].op, Replay(h[..i], slot), h[i].effect, h[i].ret);
    assert Legal(h[j].op, Replay(h[..j], slot), h[j].effect, h[j].ret);
    if AddressOf(n, h[i].ret) == AddressOf(n, h[j].ret) {
      SameAddressSameAnswer(n, h[i].ret, h[j].ret);
      if h[i].effect != Keep {
        SameAddressReleased(h, i, j);
      }
    }
  }
}
