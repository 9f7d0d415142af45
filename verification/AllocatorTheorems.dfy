/** The main results about the allocator, for every run. */
module AllocatorTheorems {
  import opened Words
  import opened Bitmaps
  import opened Store
  import opened Addresses
  import opened Keys
  import opened Allocator
  import opened AllocatorSafety

  /** The set of bits the store holds for a slot. */
  function Stored(s: State, slot: Slot): set<nat> {
    if slot in s.kv.entries then Members(s.kv.entries[slot].value) else {}
  }

  /** Every run is linearizable: each stored bitmap is its commits applied one at a time in
      commit order, and each commit did and returned what the operation does on the set it
      found. No committed update is lost, whatever requests or answers are. */
  lemma Linearizable(events: seq<Event>)
    ensures var s := Run(events);
            && History(s.commits)
            && forall slot :: Stored(s, slot) == Replay(s.commits, slot)
  {
    RunKeepsInv(events);
  }

  /** The VNI bitmap is always 125000 bytes long, an address bitmap one bit for every address of
      its subnet, in whole bytes; so a call that names a bit of the slot never panics. */
  lemma LengthsFixed(events: seq<Event>, slot: Slot)
    ensures var s := Run(events);
            slot in s.kv.entries ==>
              |s.kv.entries[slot].value| == if slot.Vlans? then 125_000 else (slot.subnet.Size() + 7) / 8
  {
    RunKeepsInv(events);
  }

  // ---- uniqueness

  /** A taken bit stays taken as long as no commit erases it. */
  lemma {:induction false} BitStays(h: seq<Commit>, slot: Slot, bit: nat, i: nat)
    requires i <= |h| && bit in Replay(h[..i], slot)
    requires forall k :: i <= k < |h| && h[k].op.Slot() == slot ==> h[k].effect != Erase(bit)
    ensures bit in Replay(h, slot)
  {
    if i == |h| {
      assert h[..i] == h;
    } else {
      var g := h[..|h| - 1];
      assert g[..i] == h[..i];
      BitStays(g, slot, bit, i);
    }
  }

  lemma CommittedBitTaken(h: seq<Commit>, i: nat)
    requires i < |h| && h[i].effect.Insert?
    ensures h[i].effect.bit in Replay(h[..i + 1], h[i].op.Slot())
  {
    assert h[..i + 1][..i] == h[..i];
  }

  /** Two allocations that took the same bit have a release of that bit between them. */
  lemma NoDoubleAllocation(h: seq<Commit>, i: nat, j: nat)
    requires History(h) && i < j < |h|
    requires h[i].op.Allocates() && h[j].op.Allocates() && h[i].op.Slot() == h[j].op.Slot()
    requires h[i].effect.Insert? && h[i].effect == h[j].effect
    ensures exists k :: i < k < j && h[k].op.Slot() == h[i].op.Slot() && h[k].effect == Erase(h[i].effect.bit)
  {
    var slot, bit := h[i].op.Slot(), h[i].effect.bit;
    var g := h[..j];
    CommittedBitTaken(h, i);
    assert g[..i + 1] == h[..i + 1];
    assert Legal(h[j].op, Replay(g, slot), h[j].effect, h[j].ret);
    AllocationTakesFreeBit(h[j].op, Replay(g, slot), h[j].effect, h[j].ret);
    if forall k :: i < k < j && h[k].op.Slot() == slot ==> h[k].effect != Erase(bit) {
      BitStays(g, slot, bit, i + 1);
    }
  }

  // ---- results and commits

  predicate Confirms(x: Commit, r: Return) {
    && x.client == r.client && x.call == r.call && x.op == r.op
    && r.outcome.Finished? && x.ret == r.outcome.ret
  }

  predicate Succeeded(r: Return) {
    r.outcome.Finished? && r.outcome.result.OK?
  }

  /** The server answered the call's PUT with a page that is not the word "false". */
  predicate ErrorPage(r: Return) {
    r.sent.Some? && r.sent.value.delivery.ServerError?
  }

  /** The server accepted the call's PUT, and its answer never arrived. */
  predicate Unheard(r: Return) {
    r.sent.Some? && r.sent.value.delivery.ReplyLost? && r.sent.value.accepted
  }

  /** What a caller would take for "my bit is set". */
  predicate Effective(r: Return) {
    (Succeeded(r) && !ErrorPage(r)) || Unheard(r)
  }

  ghost predicate HasCommit(h: seq<Commit>, r: Return) {
    exists x :: x in h && Confirms(x, r)
  }

  ghost predicate HasResult(rs: seq<Return>, x: Commit) {
    exists r :: r in rs && Confirms(x, r)
  }

  /** A client's calls are numbered, and no call has two commits or two results. */
  ghost predicate Numbered(s: State) {
    && (forall x :: x in s.commits ==> x.call < s.At(x.client).calls)
    && (forall r :: r in s.results ==> r.call < s.At(r.client).calls)
    && (forall i, j :: 0 <= i < j < |s.commits| ==>
          s.commits[i].client != s.commits[j].client || s.commits[i].call != s.commits[j].call)
    && (forall q, r :: q in s.results && r in s.results && q.client == r.client && q.call == r.call ==> q == r)
  }

  /** Exactly the effective calls have a commit, and every commit has its result. */
  ghost predicate Paired(s: State) {
    && Numbered(s)
    && (forall r :: r in s.results ==> (HasCommit(s.commits, r) <==> Effective(r)))
    && (forall x :: x in s.commits ==> HasResult(s.results, x))
  }

  lemma MovePaired(s: State, c: nat, p: Phase)
    requires Paired(s)
    ensures Paired(s.To(c, p))
  {
  }

  lemma ResultGrows(rs: seq<Return>, r: Return, x: Commit)
    requires HasResult(rs, x)
    ensures HasResult(rs + [r], x)
  {
    var q :| q in rs && Confirms(x, q);
    assert q in rs + [r];
  }

  /** A call that returns without a commit is not effective. */
  lemma FinishPaired(s: State, c: nat, op: Op, o: Outcome, sent: Option<Sent>)
    requires Paired(s) && !Effective(Return(c, s.At(c).calls, op, o, sent))
    ensures Paired(s.Finish(c, op, o, sent))
  {
    var t := s.Finish(c, op, o, sent);
    assert !HasCommit(s.commits, Return(c, s.At(c).calls, op, o, sent));
    forall x | x in s.commits
      ensures HasResult(t.results, x)
    {
      ResultGrows(s.results, t.results[|s.results|], x);
    }
  }

  /** A commit under a fresh call number confirms no earlier result. */
  lemma CommitGrows(s: State, x: Commit, r: Return)
    requires Paired(s) && x.call == s.At(x.client).calls && r in s.results
    ensures HasCommit(s.commits + [x], r) <==> HasCommit(s.commits, r)
  {
    if HasCommit(s.commits, r) {
      var y :| y in s.commits && Confirms(y, r);
      assert y in s.commits + [x];
    }
  }

  /** A call returns together with its commit. */
  lemma CommitPaired(s: State, kv: KV<Slot, Bitmap>, x: Commit, o: Outcome, sent: Option<Sent>)
    requires Paired(s) && x.call == s.At(x.client).calls
    requires var r := Return(x.client, x.call, x.op, o, sent); Confirms(x, r) && Effective(r)
    ensures Paired(s.(kv := kv, commits := s.commits + [x]).Finish(x.client, x.op, o, sent))
  {
    var t := s.(kv := kv, commits := s.commits + [x]).Finish(x.client, x.op, o, sent);
    var r := Return(x.client, x.call, x.op, o, sent);
    assert r in t.results && x in t.commits;
    forall q | q in s.results
      ensures HasCommit(t.commits, q) <==> Effective(q)
    {
      CommitGrows(s, x, q);
    }
    forall y | y in s.commits
      ensures HasResult(t.results, y)
    {
      ResultGrows(s.results, r, y);
    }
  }

  lemma WritePaired(s: State, c: nat, d: Delivery)
    requires Paired(s) && s.At(c).phase.Checked?
    ensures Paired(Step(s, Event.Write(c, d)))
  {
    var p := s.At(c).phase;
    var op, out := p.job.op, Finished(WriteResult(s.kv, p.job.op.Slot(), p.cas, d), p.flip.ret);
    var sent := Some(Sent(d, Accepts(s.kv, op.Slot(), p.cas)));
    if Commits(s.kv, op.Slot(), p.cas, d) {
      CommitPaired(s, Store.Write(s.kv, op.Slot(), p.flip.newVal, p.cas, d),
                   Commit(c, s.At(c).calls, op, p.flip.effect, p.flip.ret), out, sent);
    } else {
      FinishPaired(s, c, op, out, sent);
    }
  }

  lemma StepKeepsPaired(s: State, e: Event)
    requires Paired(s)
    ensures Paired(Step(s, e))
  {
    var t, p := Step(s, e), s.At(e.c).phase;
    if e.Write? {
      if p.Checked? {
        WritePaired(s, e.c, e.d);
      }
    } else if |t.results| > |s.results| {
      var r := t.results[|s.results|];
      FinishPaired(s, e.c, r.op, r.outcome, None);
    } else if t != s {
      MovePaired(s, e.c, t.At(e.c).phase);
    }
  }

  lemma {:induction false} RunPaired(events: seq<Event>)
    ensures Paired(Run(events))
  {
    if events != [] {
      RunPaired(events[..|events| - 1]);
      StepKeepsPaired(Run(events[..|events| - 1]), events[|events| - 1]);
    }
  }

  /** In every run, for every call: it changed the bitmap if and only if it was told OK by
      anything but an error page, or its write was accepted and the answer lost. */
  lemma CommitExactly(events: seq<Event>, r: Return)
    requires r in Run(events).results
    ensures HasCommit(Run(events).commits, r) <==> Effective(r)
  {
    RunPaired(events);
  }

  /** A call never commits twice, however often it retried. */
  lemma OneCommitPerCall(events: seq<Event>, r: Return, i: nat, j: nat)
    requires i < |Run(events).commits| && j < |Run(events).commits|
    requires Confirms(Run(events).commits[i], r) && Confirms(Run(events).commits[j], r)
    ensures i == j
  {
    RunPaired(events);
  }

  /** Every commit belongs to a call that returned, told OK unless the answer was lost. */
  lemma CommitHasCall(events: seq<Event>, x: Commit)
    requires x in Run(events).commits
    ensures exists r :: r in Run(events).results && Confirms(x, r) && (Succeeded(r) || Unheard(r))
  {
    RunPaired(events);
    var s := Run(events);
    var r :| r in s.results && Confirms(x, r);
    assert HasCommit(s.commits, r);
  }

  /** i and j are the commits of two calls, with a release of the bit behind ret between. */
  predicate ReleasedBetween(h: seq<Commit>, i: nat, j: nat, slot: Slot, ret: nat) {
    exists k :: i < k < j < |h| && h[k].op.Slot() == slot && h[k].effect.Erase? && h[k].effect.bit + 1 == ret
  }

  lemma SameAddressReleased(h: seq<Commit>, i: nat, j: nat)
    requires History(h) && i < |h| && j < |h| && i != j
    requires h[i].op.RequestIP? && h[i].op == h[j].op
    requires h[i].ret <= h[i].op.Slot().Bound() && h[j].ret <= h[i].op.Slot().Bound()
    requires AddressOf(h[i].op.subnet, h[i].ret) == AddressOf(h[i].op.subnet, h[j].ret)
    ensures ReleasedBetween(h, i, j, h[i].op.Slot(), h[i].ret) || ReleasedBetween(h, j, i, h[i].op.Slot(), h[i].ret)
  {
    LegalRequest(h, i);
    LegalRequest(h, j);
    SameAddressSameAnswer(h[i].op.subnet, h[i].ret, h[j].ret);
    if i < j {
      NoDoubleAllocation(h, i, j);
    } else {
      NoDoubleAllocation(h, j, i);
    }
  }

  /** Two calls of RequestIP on one network that were both told OK, not by an error page and
      while the bitmap was not full, and got the same address, have a committed release of
      it between their commits; whatever happened to any other call. */
  lemma AddressesDistinct(events: seq<Event>, a: Return, b: Return)
    requires a in Run(events).results && b in Run(events).results
    requires a.op.RequestIP? && a.op == b.op && a.outcome.Finished? && b.outcome.Finished?
    requires Effective(a) && Effective(b)
    requires a.client != b.client || a.call != b.call
    requires a.outcome.ret <= a.op.Slot().Bound() && b.outcome.ret <= a.op.Slot().Bound()
    requires AddressOf(a.op.subnet, a.outcome.ret) == AddressOf(b.op.subnet, b.outcome.ret)
    ensures var h := Run(events).commits;
            exists i, j :: 0 <= i < |h| && 0 <= j < |h| && Confirms(h[i], a) && Confirms(h[j], b)
              && (|| ReleasedBetween(h, i, j, a.op.Slot(), a.outcome.ret)
                  || ReleasedBetween(h, j, i, a.op.Slot(), a.outcome.ret))
  {
    var h := Run(events).commits;
    RunKeepsInv(events);
    var i := CommitIndex(events, a);
    var j := CommitIndex(events, b);
    SameAddressReleased(h, i, j);
  }

  lemma CommitIndex(events: seq<Event>, r: Return) returns (i: nat)
    requires r in Run(events).results && Effective(r)
    ensures i < |Run(events).commits| && Confirms(Run(events).commits[i], r)
  {
    RunPaired(events);
    var h := Run(events).commits;
    var x :| x in h && Confirms(x, r);
    i :| 0 <= i < |h| && h[i] == x;
  }

  lemma LegalRequest(h: seq<Commit>, i: nat)
    requires History(h) && i < |h| && h[i].op.RequestIP? && h[i].ret <= h[i].op.Slot().Bound()
    ensures h[i].ret >= 1 && h[i].effect == Insert(h[i].ret - 1)
  {
    assert Legal(h[i].op, Replay(h[..i], h[i].op.Slot()), h[i].effect, h[i].ret);
  }

  lemma SameAddressSameAnswer(n: Subnet, a: nat, b: nat)
    requires 1 <= a <= UINT32 && 1 <= b <= UINT32 && AddressOf(n, a) == AddressOf(n, b)
    ensures a == b
  {
  }

  // ---- an allocation that is taken back

  /** No commit of b sets or clears the bit. */
  ghost predicate Untouched(b: seq<Commit>, slot: Slot, bit: nat) {
    forall x :: x in b && x.op.Slot() == slot ==> x.effect != Insert(bit) && x.effect != Erase(bit)
  }

  /** An effect on another bit. */
  lemma ApplyElsewhere(m: set<nat>, e: Effect, bit: nat)
    requires e != Insert(bit) && e != Erase(bit)
    ensures Apply(m + {bit}, e) == Apply(m, e) + {bit}
    ensures bit !in m ==> bit !in Apply(m, e)
  {
  }

  lemma ReplayLast(h: seq<Commit>, y: Commit, slot: Slot)
    ensures Replay(h + [y], slot) == if y.op.Slot() == slot then Apply(Replay(h, slot), y.effect) else Replay(h, slot)
  {
    assert (h + [y])[..|h|] == h;
  }

  lemma {:induction false} BitStaysClear(a: seq<Commit>, b: seq<Commit>, slot: Slot, bit: nat)
    requires Untouched(b, slot, bit) && bit !in Replay(a, slot)
    ensures bit !in Replay(a + b, slot)
  {
    if b == [] {
      assert a + b == a;
    } else {
      var front, y := b[..|b| - 1], b[|b| - 1];
      assert y in b && forall z :: z in front ==> z in b;
      BitStaysClear(a, front, slot, bit);
      assert a + b == a + front + [y];
      ReplayLast(a + front, y, slot);
    }
  }

  /** A bit set and not touched again is one more bit, on its own bitmap only. */
  lemma {:induction false} DetourAddsOneBit(a: seq<Commit>, x: Commit, b: seq<Commit>, slot: Slot)
    requires x.effect.Insert? && Untouched(b, x.op.Slot(), x.effect.bit)
    ensures Replay(a + [x] + b, slot) == Replay(a + b, slot) + if slot == x.op.Slot() then {x.effect.bit} else {}
  {
    if b == [] {
      assert a + b == a && a + [x] + b == a + [x];
      ReplayLast(a, x, slot);
    } else {
      var front, y := b[..|b| - 1], b[|b| - 1];
      assert y in b && forall z :: z in front ==> z in b;
      DetourAddsOneBit(a, x, front, slot);
      assert a + b == a + front + [y] && a + [x] + b == a + [x] + front + [y];
      ReplayLast(a + front, y, slot);
      ReplayLast(a + [x] + front, y, slot);
      if y.op.Slot() == slot == x.op.Slot() {
        ApplyElsewhere(Replay(a + front, slot), y.effect, x.effect.bit);
      }
    }
  }

  /** Taking a free bit and giving it back, whatever other clients commit in between on other
      bits, leaves every bitmap as if neither had happened. */
  lemma CancelledAllocation(a: seq<Commit>, x: Commit, b: seq<Commit>, y: Commit, slot: Slot)
    requires x.effect.Insert? && y.op.Slot() == x.op.Slot() && y.effect == Erase(x.effect.bit)
    requires Untouched(b, x.op.Slot(), x.effect.bit) && x.effect.bit !in Replay(a, x.op.Slot())
    ensures Replay(a + [x] + b + [y], slot) == Replay(a + b, slot)
  {
    BitStaysClear(a, b, x.op.Slot(), x.effect.bit);
    DetourAddsOneBit(a, x, b, slot);
    ReplayLast(a + [x] + b, y, slot);
  }

  // ---- retries

  /** Lock-freedom: each further attempt of a call is paid for by a commit another client
      made on the same bitmap since the call began, or by a first read of its own that
      failed. With k such commits and reliable reads it makes at most k+1 attempts. */
  lemma RetryBound(events: seq<Event>, c: nat)
    ensures var s := Run(events); var p := s.At(c).phase;
            !p.Idle? ==>
              && p.job.start <= |s.commits|
              && p.job.attempt <= 1 + Touches(s.commits, p.job.start, p.job.op.Slot()) + p.job.misreads
              && forall i :: p.job.start <= i < |s.commits| ==> s.commits[i].client != c
  {
    RunKeepsInv(events);
  }

  // ---- holders

  /** Who holds which bit: a client from its own allocation to its own release. */
  function Holds(h: seq<Commit>, slot: Slot): set<(nat, nat)> {
    if h == [] then {}
    else
      var m, x := Holds(h[..|h| - 1], slot), h[|h| - 1];
      if x.op.Slot() != slot then m
      else match x.effect
           case Insert(k) => m + {(x.client, k)}
           case Erase(k) => m - {(x.client, k)}
           case Keep => m
  }

  /** Only a holder releases, and a static address is marked only while nobody holds it. */
  ghost predicate Disciplined(h: seq<Commit>) {
    forall i :: 0 <= i < |h| ==>
      var m := Holds(h[..i], h[i].op.Slot());
      && (h[i].effect.Erase? ==> (h[i].client, h[i].effect.bit) in m)
      && (h[i].op.MarkUsed? ==> forall c :: (c, h[i].op.Target()) !in m)
  }

  ghost predicate Exclusive(held: set<(nat, nat)>, taken: set<nat>) {
    && (forall p :: p in held ==> p.1 in taken)
    && (forall p, q :: p in held && q in held && p.1 == q.1 ==> p == q)
  }

  lemma DisciplinePrefix(h: seq<Commit>)
    requires h != [] && History(h) && Disciplined(h)
    ensures History(h[..|h| - 1]) && Disciplined(h[..|h| - 1])
  {
    var g := h[..|h| - 1];
    forall i | 0 <= i < |g|
      ensures g[i] == h[i] && g[..i] == h[..i]
    {
    }
  }

  lemma AllocationTakesFreeBit(op: Op, m: set<nat>, e: Effect, ret: nat)
    requires Legal(op, m, e, ret) && op.Allocates() && e.Insert?
    ensures e.bit !in m
  {
  }

  /** Held bits are taken bits, and no bit is held by two clients. */
  lemma {:induction false} HoldersExclusive(h: seq<Commit>, slot: Slot)
    requires History(h) && Disciplined(h)
    ensures Exclusive(Holds(h, slot), Replay(h, slot))
  {
    if h != [] {
      var g, x := h[..|h| - 1], h[|h| - 1];
      DisciplinePrefix(h);
      HoldersExclusive(g, slot);
      if x.op.Slot() == slot {
        assert Legal(x.op, Replay(g, slot), x.effect, x.ret);
        if x.op.Allocates() && x.effect.Insert? {
          AllocationTakesFreeBit(x.op, Replay(g, slot), x.effect, x.ret);
        }
      }
    }
  }

  /** In every run whose commits keep the discipline, no bit has two holders. */
  lemma RunHoldersExclusive(events: seq<Event>, slot: Slot)
    requires Disciplined(Run(events).commits)
    ensures var s := Run(events);
            Exclusive(Holds(s.commits, slot), Stored(s, slot))
  {
    RunKeepsInv(events);
    HoldersExclusive(Run(events).commits, slot);
  }
}
