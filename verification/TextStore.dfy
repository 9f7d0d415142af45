/** The store as Consul sees it, keyed by text: the allocator's slots lose nothing. */
module TextStore {
  import opened Store
  import opened Keys
  import opened Bitmaps
  import A = Allocator

  /** The text store holds exactly the entries of the slot store, under their keys. */
  ghost predicate Mirrors<V(!new)>(kv: KV<Slot, V>, text: KV<string, V>) {
    && kv.clock == text.clock
    && (forall slot :: slot in kv.entries ==> slot.Valid())
    && (forall slot: Slot :: slot.Valid() ==>
          (slot in kv.entries <==> slot.Text() in text.entries)
          && (slot in kv.entries ==> kv.entries[slot] == text.entries[slot.Text()]))
  }

  /** A request on a slot is answered as the request on its key is. */
  lemma SameAnswers<V(!new)>(kv: KV<Slot, V>, text: KV<string, V>, slot: Slot, reliable: bool, cas: nat, d: Delivery)
    requires Mirrors(kv, text) && slot.Valid()
    ensures Read(kv, slot, reliable) == Read(text, slot.Text(), reliable)
    ensures Commits(kv, slot, cas, d) == Commits(text, slot.Text(), cas, d)
    ensures WriteResult(kv, slot, cas, d) == WriteResult(text, slot.Text(), cas, d)
  {
  }

  /** A write under one key changes the bitmap of that slot and of no other. */
  lemma WriteKeepsMirror<V(!new)>(kv: KV<Slot, V>, text: KV<string, V>, slot: Slot, v: V, cas: nat, d: Delivery)
    requires Mirrors(kv, text) && slot.Valid()
    ensures Mirrors(Write(kv, slot, v, cas, d), Write(text, slot.Text(), v, cas, d))
    ensures forall other: Slot :: other.Valid() && other != slot ==>
              Write(text, slot.Text(), v, cas, d).Lookup(other.Text()) == text.Lookup(other.Text())
  {
    forall other: Slot | other.Valid()
      ensures other.Text() == slot.Text() <==> other == slot
    {
      SlotTextInjective(other, slot);
    }
  }

  // ---- every run

  /** The store keyed by text after a run: every PUT of the run, sent under its key. */
  function TextRun(events: seq<A.Event>): KV<string, Bitmap> {
    if events == [] then KV(map[], 0)
    else
      var before, e := events[..|events| - 1], events[|events| - 1];
      var phase := A.Run(before).At(e.c).phase;
      if e.Write? && phase.Checked?
      then Write(TextRun(before), phase.job.op.Slot().Text(), phase.flip.newVal, phase.cas, e.d)
      else TextRun(before)
  }

  /** Every call of the run names a subnet as ParseCIDR returns it. */
  ghost predicate ValidCalls(events: seq<A.Event>) {
    forall e :: e in events && e.Begin? ==> e.op.Slot().Valid()
  }

  ghost predicate ValidJobs(s: A.State) {
    forall c :: c in s.clients && !s.clients[c].phase.Idle? ==> s.clients[c].phase.job.op.Slot().Valid()
  }

  lemma StepKeepsJobs(s: A.State, e: A.Event)
    requires ValidJobs(s) && (e.Begin? ==> e.op.Slot().Valid())
    ensures ValidJobs(A.Step(s, e))
  {
  }

  /** In every run the store keyed by text holds exactly what the store keyed by bitmap
      holds, entry for entry and index for index. */
  lemma {:induction false} RunMirrored(events: seq<A.Event>)
    requires ValidCalls(events)
    ensures ValidJobs(A.Run(events))
    ensures Mirrors(A.Run(events).kv, TextRun(events))
  {
    if events != [] {
      var before, e := events[..|events| - 1], events[|events| - 1];
      RunMirrored(before);
      StepKeepsJobs(A.Run(before), e);
      var phase := A.Run(before).At(e.c).phase;
      if e.Write? && phase.Checked? {
        WriteKeepsMirror(A.Run(before).kv, TextRun(before), phase.job.op.Slot(), phase.flip.newVal, phase.cas, e.d);
      }
    }
  }

  /** So every read and every write of every client is answered as Consul answers it. */
  lemma RunAnsweredAlike(events: seq<A.Event>, c: nat, reliable: bool, cas: nat, d: Delivery)
    requires ValidCalls(events) && !A.Run(events).At(c).phase.Idle?
    ensures var s, slot := A.Run(events), A.Run(events).At(c).phase.job.op.Slot();
            && Read(s.kv, slot, reliable) == Read(TextRun(events), slot.Text(), reliable)
            && WriteResult(s.kv, slot, cas, d) == WriteResult(TextRun(events), slot.Text(), cas, d)
  {
    RunMirrored(events);
    SameAnswers(A.Run(events).kv, TextRun(events), A.Run(events).At(c).phase.job.op.Slot(), reliable, cas, d);
  }
}
