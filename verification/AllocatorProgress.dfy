/** When a call of the allocator is tried again, and that it ends. */
module AllocatorProgress {
  import opened Words
  import opened Bitmaps
  import opened Store
  import opened Keys
  import opened Allocator
  import opened AllocatorSafety
  import opened AllocatorTheorems

  // ---- who gives up on a changed value

  /** Only allocateVNI ends with OUTDATED, and only it is never tried again. */
  ghost predicate Persists(s: State) {
    && (forall r :: r in s.results && r.outcome.Finished? && r.outcome.result.OUTDATED? ==> r.op.AllocateVNI?)
    && (forall c :: c in s.clients && !s.clients[c].phase.Idle? && s.clients[c].phase.job.op.AllocateVNI? ==>
          s.clients[c].phase.job.attempt == 1)
  }

  lemma StepPersists(s: State, e: Event)
    requires Persists(s)
    ensures Persists(Step(s, e))
  {
  }

  /** In every run a call that ended with OUTDATED is one of allocateVNI, and a call in progress
      on a second attempt is not. */
  lemma {:induction false} OnlyVnisGiveUp(events: seq<Event>)
    ensures Persists(Run(events))
  {
    if events != [] {
      OnlyVnisGiveUp(events[..|events| - 1]);
      StepPersists(Run(events[..|events| - 1]), events[|events| - 1]);
    }
  }

  /** Put's own read finds a value other than the one the call computed on. */
  predicate MeetsChange(s: State, c: nat)
    requires s.At(c).phase.Flipped?
  {
    var slot := s.At(c).phase.job.op.Slot();
    slot in s.kv.entries && s.kv.entries[slot].value != s.At(c).phase.flip.oldVal
  }

  /** RequestIP, MarkUsed, ReleaseIP and releaseVNI that meet a changed value are in progress
      afterwards, on the same operation with one more attempt; allocateVNI has returned the VNI it
      computed. Without a change every call goes on to its write. Nothing else moves. */
  lemma ChangeIsRetried(s: State, c: nat, reliable: bool)
    requires s.At(c).phase.Flipped?
    ensures var p, t := s.At(c).phase, Step(s, ReRead(c, reliable));
            && t.kv == s.kv && t.commits == s.commits
            && (forall d :: d != c ==> t.At(d) == s.At(d))
            && (reliable && MeetsChange(s, c) && !p.job.op.AllocateVNI? ==>
                  && t.results == s.results
                  && t.At(c) == Client(s.At(c).calls, Reading(p.job.(attempt := p.job.attempt + 1))))
            && (reliable && MeetsChange(s, c) && p.job.op.AllocateVNI? ==>
                  && t.At(c) == Client(s.At(c).calls + 1, Idle)
                  && t.results
                  == s.results + [Return(c, s.At(c).calls, AllocateVNI, Finished(OUTDATED, p.flip.ret), None)])
            && (!reliable || !MeetsChange(s, c) ==>
                  t.results == s.results && t.At(c).calls == s.At(c).calls && t.At(c).phase.Checked?
                  && t.At(c).phase.job == p.job && t.At(c).phase.flip == p.flip)
  {
  }

  /** No first read of client c has failed. */
  predicate ReadsWell(events: seq<Event>, c: nat) {
    forall i :: 0 <= i < |events| && events[i].FirstRead? && events[i].c == c ==> events[i].reliable
  }

  lemma {:induction false} NoMisreads(events: seq<Event>, c: nat)
    requires ReadsWell(events, c)
    ensures !Run(events).At(c).phase.Idle? ==> Run(events).At(c).phase.job.misreads == 0
  {
    if events != [] {
      NoMisreads(events[..|events| - 1], c);
    }
  }

  /** A client whose first reads succeed has made at most one attempt more than others have
      committed to its bitmap since its call began. */
  lemma AttemptsPaidFor(events: seq<Event>, c: nat)
    requires ReadsWell(events, c) && !Run(events).At(c).phase.Idle?
    ensures var s, job := Run(events), Run(events).At(c).phase.job;
            job.attempt <= 1 + Touches(s.commits, job.start, job.op.Slot())
  {
    NoMisreads(events, c);
    RetryBound(events, c);
  }

  // ---- a call that is left alone

  function Steps(s: State, events: seq<Event>): State
    decreases |events|
  {
    if events == [] then s else Steps(Step(s, events[0]), events[1..])
  }

  lemma {:induction false} StepsExtendRun(before: seq<Event>, events: seq<Event>)
    ensures Run(before + events) == Steps(Run(before), events)
    decreases |events|
  {
    if events == [] {
      assert before + events == before;
    } else {
      var next := before + [events[0]];
      assert next[..|next| - 1] == before;
      StepsExtendRun(next, events[1..]);
      assert next + events[1..] == before + events;
    }
  }

  /** The requests of one client, all served: Put's read, and a whole further attempt. Those
      that its phase does not make are skipped. */
  function LeftAlone(c: nat): seq<Event> {
    [ReRead(c, true), FirstRead(c, true), ReRead(c, true), Event.Write(c, Delivered)]
  }

  lemma StepsLeftAlone(s: State, c: nat)
    ensures Steps(s, LeftAlone(c))
         == Step(Step(Step(Step(s, ReRead(c, true)), FirstRead(c, true)), ReRead(c, true)), Event.Write(c, Delivered))
  {
    var es := LeftAlone(c);
    var s1 := Step(s, es[0]);
    var s2 := Step(s1, es[1]);
    var s3 := Step(s2, es[2]);
    assert es[1..][1..] == es[2..] && es[2..][1..] == es[3..] && es[3..][1..] == [];
    assert Steps(s3, es[3..]) == Steps(Step(s3, es[3]), []);
    assert Steps(s2, es[2..]) == Steps(s3, es[3..]);
    assert Steps(s1, es[1..]) == Steps(s2, es[2..]);
  }

  /** MarkUsed and ReleaseIP need a bitmap that exists. */
  predicate NeedsKey(op: Op) {
    op.MarkUsed? || op.ReleaseIP?
  }

  /** A call that needs a bitmap and has read one finds it there from then on. */
  ghost predicate KeysKept(s: State) {
    forall c :: c in s.clients && (s.clients[c].phase.Flipped? || s.clients[c].phase.Checked?) ==>
      NeedsKey(s.clients[c].phase.job.op) ==> s.clients[c].phase.job.op.Slot() in s.kv.entries
  }

  lemma StepKeepsKeys(s: State, e: Event)
    requires KeysKept(s)
    ensures KeysKept(Step(s, e))
  {
  }

  lemma {:induction false} RunKeepsKeys(events: seq<Event>)
    ensures KeysKept(Run(events))
  {
    if events != [] {
      RunKeepsKeys(events[..|events| - 1]);
      StepKeepsKeys(Run(events[..|events| - 1]), events[|events| - 1]);
    }
  }

  /** The call of c has returned in t with this outcome, and changed nothing. */
  predicate Stopped(s: State, t: State, c: nat, op: Op, o: Outcome) {
    && t.kv == s.kv && t.commits == s.commits && t.At(c) == Client(s.At(c).calls + 1, Idle)
    && t.results == s.results + [Return(c, s.At(c).calls, op, o, None)]
  }

  /** The call of c has returned OK in t, with its commit the only one since s: what the operation
      does on the bits that s holds. */
  ghost predicate Committed(s: State, t: State, c: nat, op: Op) {
    && t.At(c) == Client(s.At(c).calls + 1, Idle)
    && exists e, ret ::
         && Legal(op, Stored(s, op.Slot()), e, ret)
         && t.commits == s.commits + [Commit(c, s.At(c).calls, op, e, ret)]
         && t.results
         == s.results + [Return(c, s.At(c).calls, op, Finished(OK, ret), Some(Sent(Delivered, true)))]
         && Stored(t, op.Slot()) == Apply(Stored(s, op.Slot()), e)
  }

  /** A value that is still the stored one is read, checked and written. */
  lemma UnchangedCommits(s: State, c: nat)
    requires Inv(s) && s.At(c).phase.Flipped? && !MeetsChange(s, c)
    ensures var t := Step(Step(s, ReRead(c, true)), Event.Write(c, Delivered));
            Committed(s, t, c, s.At(c).phase.job.op)
  {
    var p, u := s.At(c).phase, Step(s, ReRead(c, true));
    var op, f := p.job.op, p.flip;
    PlanIsLegal(op, f);
    ZerosAreEmpty(op.Slot().Bytes());
    assert Members(f.oldVal) == Stored(s, op.Slot());
    var t := Step(u, Event.Write(c, Delivered));
    assert u.At(c).phase == Checked(p.job, f, u.At(c).phase.cas);
    assert Legal(op, Stored(s, op.Slot()), f.effect, f.ret);
    assert t.commits == s.commits + [Commit(c, s.At(c).calls, op, f.effect, f.ret)];
  }

  /** Why a call does not get as far as its Put. */
  ghost predicate Hopeless(s: State, op: Op, o: Outcome) {
    if NeedsKey(op) && op.Slot() !in s.kv.entries then o == NotFound
    else if op.AllocateVNI? then o == Exhausted && AllTaken(Stored(s, Vlans), 1_000_000)
    else !op.RequestIP? && op.Target() >= 8 * op.Slot().Bytes() && o == Panic
  }

  lemma VniPlan(v: Bitmap)
    requires |v| == VLAN_BYTES
    ensures PlanOf(AllocateVNI, Some(v)) == Stop(Exhausted) <==> AllTaken(Members(v), 1_000_000)
    ensures PlanOf(AllocateVNI, Some(v)) != Stop(Exhausted) ==> PlanOf(AllocateVNI, Some(v)).Go?
  {
    TakePlanLegal(v);
    CopiedIsIdentity(v, VLAN_BYTES);
  }

  lemma PlanStops(s: State, op: Op, o: Outcome)
    requires StoreInv(s.kv, s.commits)
    ensures PlanOf(op, s.kv.Lookup(op.Slot())) == Stop(o) <==> Hopeless(s, op, o)
  {
    if op.AllocateVNI? {
      var v := if Vlans in s.kv.entries then s.kv.entries[Vlans].value else Zeros(VLAN_BYTES);
      ZerosAreEmpty(VLAN_BYTES);
      VniPlan(v);
      assert PlanOf(AllocateVNI, s.kv.Lookup(Vlans)) == PlanOf(AllocateVNI, Some(v));
    }
  }

  /** A call that begins an attempt and is left alone stops where it is hopeless, and otherwise
      commits. */
  lemma AttemptEnds(s: State, c: nat)
    requires Inv(s) && s.At(c).phase.Reading?
    ensures var op := s.At(c).phase.job.op;
            var t := Step(Step(Step(s, FirstRead(c, true)), ReRead(c, true)), Event.Write(c, Delivered));
            && (forall o :: Hopeless(s, op, o) ==> Stopped(s, t, c, op, o))
            && ((forall o :: !Hopeless(s, op, o)) ==> Committed(s, t, c, op))
  {
    var op, u := s.At(c).phase.job.op, Step(s, FirstRead(c, true));
    var plan := PlanOf(op, s.kv.Lookup(op.Slot()));
    assert Store.Read(s.kv, op.Slot(), true).value == s.kv.Lookup(op.Slot());
    forall o
      ensures plan == Stop(o) <==> Hopeless(s, op, o)
    {
      PlanStops(s, op, o);
    }
    if plan.Go? {
      StepKeepsInv(s, FirstRead(c, true));
      PlanOnRead(op, s.kv.Lookup(op.Slot()), plan.flip);
      UnchangedCommits(u, c);
      CommittedSince(s, u, Step(Step(u, ReRead(c, true)), Event.Write(c, Delivered)), c, op);
    } else {
      assert Hopeless(s, op, plan.outcome);
    }
  }

  /** What changed nothing may be left out in front. */
  lemma CommittedSince(s: State, u: State, t: State, c: nat, op: Op)
    requires Committed(u, t, c, op) && u.kv == s.kv && u.commits == s.commits && u.results == s.results
    requires u.At(c).calls == s.At(c).calls
    ensures Committed(s, t, c, op)
  {
  }

  lemma FlippedEnds(s: State, c: nat)
    requires Inv(s) && KeysKept(s) && s.At(c).phase.Flipped? && !s.At(c).phase.job.op.AllocateVNI?
    ensures var op := s.At(c).phase.job.op; Committed(s, Steps(s, LeftAlone(c)), c, op)
  {
    var op, u := s.At(c).phase.job.op, Step(s, ReRead(c, true));
    StepsLeftAlone(s, c);
    ChangeIsRetried(s, c, true);
    if MeetsChange(s, c) {
      StepKeepsInv(s, ReRead(c, true));
      AttemptEnds(u, c);
      CommittedSince(s, u, Steps(s, LeftAlone(c)), c, op);
    } else {
      UnchangedCommits(s, c);
    }
  }

  lemma ReadingEnds(s: State, c: nat)
    requires Inv(s) && s.At(c).phase.Reading?
    ensures var op, t := s.At(c).phase.job.op, Steps(s, LeftAlone(c));
            && (forall o :: Hopeless(s, op, o) ==> Stopped(s, t, c, op, o))
            && ((forall o :: !Hopeless(s, op, o)) ==> Committed(s, t, c, op))
  {
    StepsLeftAlone(s, c);
    AttemptEnds(s, c);
  }

  /** Progress. In every run a call of RequestIP, MarkUsed, ReleaseIP or releaseVNI that is about
      to read, or about to meet whatever value Put's read finds, returns when it is left alone
      and its requests are served: NotFound without the bitmap it needs, Panic for a position
      outside the bitmap, and in all other cases OK, with the commit of its operation on the bits
      then stored. */
  lemma LeftAloneEnds(events: seq<Event>, c: nat)
    requires var p := Run(events).At(c).phase; (p.Reading? || p.Flipped?) && !p.job.op.AllocateVNI?
    ensures var s, t := Run(events), Run(events + LeftAlone(c)); var op := s.At(c).phase.job.op;
            if (op.MarkUsed? || op.ReleaseIP?) && op.Slot() !in s.kv.entries then Stopped(s, t, c, op, NotFound)
            else if !op.RequestIP? && op.Target() >= 8 * op.Slot().Bytes() then Stopped(s, t, c, op, Panic)
            else Committed(s, t, c, op)
  {
    var s := Run(events);
    RunKeepsInv(events);
    RunKeepsKeys(events);
    StepsExtendRun(events, LeftAlone(c));
    if s.At(c).phase.Reading? {
      ReadingEnds(s, c);
    } else {
      FlippedEnds(s, c);
    }
  }

  /** allocateVNI left alone from its first read gives up exactly when all 1000000 VNIs are live,
      and otherwise commits. */
  lemma VniLeftAlone(events: seq<Event>, c: nat)
    requires var p := Run(events).At(c).phase; p.Reading? && p.job.op.AllocateVNI?
    ensures var s, t := Run(events), Run(events + LeftAlone(c));
            if AllTaken(Stored(s, Vlans), 1_000_000) then Stopped(s, t, c, AllocateVNI, Exhausted)
            else Committed(s, t, c, AllocateVNI)
  {
    RunKeepsInv(events);
    StepsExtendRun(events, LeftAlone(c));
    ReadingEnds(Run(events), c);
    assert Hopeless(Run(events), AllocateVNI, Exhausted) <==> AllTaken(Stored(Run(events), Vlans), 1_000_000);
  }
}
