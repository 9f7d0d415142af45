/** What every run of the allocator keeps. */
module AllocatorSafety {
  import opened Words
  import opened Bitmaps
  import opened Store
  import opened Keys
  import opened Allocator

  // ---- the invariant

  /** Every bitmap has the length its slot determines and holds exactly the replay of the
      commits; a slot without an entry has no bit taken. */
  ghost predicate StoreInv(kv: KV<Slot, Bitmap>, h: seq<Commit>) {
    && kv.Valid()
    && (forall slot :: slot in kv.entries ==>
          && |kv.entries[slot].value| == slot.Bytes()
          && Members(kv.entries[slot].value) == Replay(h, slot))
    && (forall slot :: slot !in kv.entries ==> Replay(h, slot) == {})
  }

  ghost predicate JobInv(h: seq<Commit>, c: nat, job: Job) {
    job.start <= |h| && forall i :: job.start <= i < |h| ==> h[i].client != c
  }

  ghost predicate FlipInv(kv: KV<Slot, Bitmap>, op: Op, f: Flip) {
    && |f.oldVal| == op.Slot().Bytes()
    && PlanOf(op, Some(f.oldVal)) == Go(f)
    && (op.Slot() !in kv.entries ==> f.oldVal == Zeros(op.Slot().Bytes()))
  }

  /** The index Put will name still stands for the value Put compared. */
  ghost predicate CasInv(kv: KV<Slot, Bitmap>, slot: Slot, f: Flip, cas: nat) {
    cas > 0 ==>
      && cas <= kv.clock
      && (slot in kv.entries && kv.entries[slot].modifyIndex == cas ==> kv.entries[slot].value == f.oldVal)
  }

  ghost predicate PhaseInv(kv: KV<Slot, Bitmap>, h: seq<Commit>, c: nat, p: Phase) {
    match p
    case Idle => true
    case Reading(job) =>
      && JobInv(h, c, job)
      && job.attempt <= 1 + Touches(h, job.start, job.op.Slot()) + job.misreads
    case Flipped(job, f, reliable, tally) =>
      var slot := job.op.Slot();
      var now := Touches(h, job.start, slot);
      && JobInv(h, c, job)
      && FlipInv(kv, job.op, f)
      && tally <= now
      && (if reliable
          then job.attempt <= 1 + tally + job.misreads && (tally == now ==> kv.Lookup(slot) in {None, Some(f.oldVal)})
          else job.attempt <= now + job.misreads)
    case Checked(job, f, cas) =>
      && JobInv(h, c, job)
      && FlipInv(kv, job.op, f)
      && CasInv(kv, job.op.Slot(), f, cas)
      && job.attempt <= 1 + Touches(h, job.start, job.op.Slot()) + job.misreads
  }

  ghost predicate Inv(s: State) {
    && StoreInv(s.kv, s.commits)
    && History(s.commits)
    && forall c :: c in s.clients ==> PhaseInv(s.kv, s.commits, c, s.clients[c].phase)
  }

  // ---- one call computes what the sequential specification allows

  lemma CopiedIsIdentity(s: Bitmap, n: nat)
    requires |s| == n
    ensures Copied(s, n) == s
  {
  }

  lemma TakePlanLegal(s: Bitmap)
    ensures |TakePlan(s, s).newVal| == |s|
    ensures Members(TakePlan(s, s).newVal) == Apply(Members(s), TakePlan(s, s).effect)
    ensures TakesLeast(Members(s), Bitmaps.Bound(s), TakePlan(s, s).effect, TakePlan(s, s).ret)
  {
    TakeUnderWrap(s);
    var k := FirstClear(s, 0, Bitmaps.Bound(s));
    if k < Bitmaps.Bound(s) {
      assert k !in Members(s);
    }
  }

  lemma PlanIsLegal(op: Op, f: Flip)
    requires |f.oldVal| == op.Slot().Bytes()
    requires PlanOf(op, Some(f.oldVal)) == Go(f)
    ensures |f.newVal| == |f.oldVal|
    ensures Members(f.newVal) == Apply(Members(f.oldVal), f.effect)
    ensures Legal(op, Members(f.oldVal), f.effect, f.ret)
  {
    if op.Allocates() {
      TakePlanLegal(f.oldVal);
    } else {
      BitsAreASet(f.oldVal, op.Target());
    }
    if op.Slot().Vlans? {
      CopiedIsIdentity(f.oldVal, VLAN_BYTES);
    }
  }

  /** A call that found no value plans as if it had found the zero bitmap. */
  lemma PlanOnRead(op: Op, read: Option<Bitmap>, f: Flip)
    requires read.Some? ==> |read.value| == op.Slot().Bytes()
    requires PlanOf(op, read) == Go(f)
    ensures |f.oldVal| == op.Slot().Bytes()
    ensures PlanOf(op, Some(f.oldVal)) == Go(f)
    ensures f.oldVal == if read.Some? then read.value else Zeros(op.Slot().Bytes())
  {
    if op.AllocateVNI? {
      CopiedIsIdentity(if read.Some? then read.value else Zeros(VLAN_BYTES), VLAN_BYTES);
    }
  }

  // ---- steps that only move one client

  lemma MoveKeepsInv(s: State, t: State, c: nat)
    requires Inv(s) && t.kv == s.kv && t.commits == s.commits
    requires t.clients.Keys == s.clients.Keys + {c}
    requires forall d :: d in s.clients && d != c ==> t.clients[d] == s.clients[d]
    requires PhaseInv(t.kv, t.commits, c, t.clients[c].phase)
    ensures Inv(t)
  {
  }

  lemma BeginKeepsInv(s: State, c: nat, op: Op)
    requires Inv(s)
    ensures Inv(Step(s, Begin(c, op)))
  {
    var t := Step(s, Begin(c, op));
    if s.At(c).phase.Idle? {
      MoveKeepsInv(s, t, c);
    }
  }

  lemma FirstReadKeepsInv(s: State, c: nat, reliable: bool)
    requires Inv(s)
    ensures Inv(Step(s, FirstRead(c, reliable)))
  {
    var t := Step(s, FirstRead(c, reliable));
    if s.At(c).phase.Reading? {
      var op := s.At(c).phase.job.op;
      var read := Store.Read(s.kv, op.Slot(), reliable).value;
      if PlanOf(op, read).Go? {
        PlanOnRead(op, read, PlanOf(op, read).flip);
      }
      MoveKeepsInv(s, t, c);
    }
  }

  lemma ReReadKeepsInv(s: State, c: nat, reliable: bool)
    requires Inv(s)
    ensures Inv(Step(s, ReRead(c, reliable)))
  {
    var t := Step(s, ReRead(c, reliable));
    if s.At(c).phase.Flipped? {
      MoveKeepsInv(s, t, c);
    }
  }

  // ---- a commit

  /** At the moment its write is accepted, a call's old value is the stored set. */
  lemma CommitSeesCurrentSet(s: State, c: nat, d: Delivery)
    requires Inv(s) && s.At(c).phase.Checked?
    requires Commits(s.kv, s.At(c).phase.job.op.Slot(), s.At(c).phase.cas, d)
    ensures var p := s.At(c).phase;
            Members(p.flip.oldVal) == Replay(s.commits, p.job.op.Slot())
  {
    var p := s.At(c).phase;
    ZerosAreEmpty(p.job.op.Slot().Bytes());
  }

  lemma PhaseStable(kv: KV<Slot, Bitmap>, h: seq<Commit>, slot: Slot, v: Bitmap, x: Commit, c: nat, p: Phase)
    requires kv.Valid() && x.op.Slot() == slot && x.client != c
    requires PhaseInv(kv, h, c, p)
    ensures PhaseInv(kv.Insert(slot, v), h + [x], c, p)
  {
    assert (h + [x])[..|h|] == h;
  }

  lemma HistoryGrows(h: seq<Commit>, x: Commit)
    requires History(h) && Legal(x.op, Replay(h, x.op.Slot()), x.effect, x.ret)
    ensures History(h + [x])
    ensures forall slot :: Replay(h + [x], slot)
              == if x.op.Slot() == slot then Apply(Replay(h, slot), x.effect) else Replay(h, slot)
  {
    var g := h + [x];
    assert g[..|h|] == h;
    forall i | 0 <= i < |g|
      ensures Legal(g[i].op, Replay(g[..i], g[i].op.Slot()), g[i].effect, g[i].ret)
    {
      if i < |h| {
        assert g[..i] == h[..i];
      }
    }
  }

  lemma CommitKeepsStore(kv: KV<Slot, Bitmap>, h: seq<Commit>, x: Commit, f: Flip)
    requires StoreInv(kv, h)
    requires |f.newVal| == x.op.Slot().Bytes() && Members(f.newVal) == Apply(Replay(h, x.op.Slot()), x.effect)
    ensures StoreInv(kv.Insert(x.op.Slot(), f.newVal), h + [x])
  {
    assert (h + [x])[..|h|] == h;
  }

  lemma WriteKeepsInv(s: State, c: nat, d: Delivery)
    requires Inv(s)
    ensures Inv(Step(s, Event.Write(c, d)))
  {
    var t := Step(s, Event.Write(c, d));
    var p := s.At(c).phase;
    if p.Checked? {
      var slot := p.job.op.Slot();
      if Commits(s.kv, slot, p.cas, d) {
        CommitSeesCurrentSet(s, c, d);
        PlanIsLegal(p.job.op, p.flip);
        var x := Commit(c, s.At(c).calls, p.job.op, p.flip.effect, p.flip.ret);
        CommitKeepsStore(s.kv, s.commits, x, p.flip);
        HistoryGrows(s.commits, x);
        forall o | o in t.clients
          ensures PhaseInv(t.kv, t.commits, o, t.clients[o].phase)
        {
          if o != c {
            PhaseStable(s.kv, s.commits, slot, p.flip.newVal, x, o, s.clients[o].phase);
          }
        }
      } else {
        MoveKeepsInv(s, t, c);
      }
    }
  }

  lemma StepKeepsInv(s: State, e: Event)
    requires Inv(s)
    ensures Inv(Step(s, e))
  {
    match e
    case Begin(c, op) => BeginKeepsInv(s, c, op);
    case FirstRead(c, r) => FirstReadKeepsInv(s, c, r);
    case ReRead(c, r) => ReReadKeepsInv(s, c, r);
    case Write(c, d) => WriteKeepsInv(s, c, d);
  }

  lemma {:induction false} RunKeepsInv(events: seq<Event>)
    ensures Inv(Run(events))
  {
    if events != [] {
      RunKeepsInv(events[..|events| - 1]);
      StepKeepsInv(Run(events[..|events| - 1]), events[|events| - 1]);
    }
  }
}
