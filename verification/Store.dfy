/** The Consul key/value store as netAgent/netAgent.go uses it: every entry carries a
    modify index, and a write names the index it expects to replace. */
module Store {

  datatype Option<+T> = None | Some(value: T)

  datatype Entry<+V> = Entry(value: V, modifyIndex: nat)

  datatype KV<!K, V> = KV(entries: map<K, Entry<V>>, clock: nat) {
    /** Index 0 is never used, so that cas=0 can mean "only if absent". */
    ghost predicate Valid() {
      forall k :: k in entries ==> 1 <= entries[k].modifyIndex <= clock
    }

    function Lookup(key: K): Option<V> {
      if key in entries then Some(entries[key].value) else None
    }

    function Insert(key: K, v: V): KV<K, V> {
      KV(entries[key := Entry(v, clock + 1)], clock + 1)
    }

    function Remove(key: K): KV<K, V> {
      KV(entries - {key}, clock + 1)
    }
  }

  /** The answer of Get: the value if the key was found, and its index or 0. */
  datatype Reply<V> = Reply(value: Option<V>, index: nat)

  /** What happens to the PUT request: it is answered; it never arrives; its answer
      never arrives; or the server refuses it with a body other than "false". */
  datatype Delivery = Delivered | RequestLost | ReplyLost | ServerError

  datatype PutResult = OK | OUTDATED | ERROR

  /** Get, where an unreliable read is reported like a missing key. */
  function Read<K, V>(s: KV<K, V>, key: K, reliable: bool): Reply<V> {
    if reliable && key in s.entries
    then Reply(Some(s.entries[key].value), s.entries[key].modifyIndex)
    else Reply(None, 0)
  }

  /** Put's comparison by value, made on its own read. */
  predicate Outdated<V(==)>(r: Reply<V>, oldVal: Option<V>) {
    r.value.Some? && r.value != oldVal
  }

  predicate Accepts<K, V>(s: KV<K, V>, key: K, cas: nat) {
    if cas == 0 then key !in s.entries
    else key in s.entries && s.entries[key].modifyIndex == cas
  }

  /** The PUT request takes effect. */
  predicate Commits<K, V>(s: KV<K, V>, key: K, cas: nat, d: Delivery) {
    (d.Delivered? || d.ReplyLost?) && Accepts(s, key, cas)
  }

  function Write<K, V>(s: KV<K, V>, key: K, v: V, cas: nat, d: Delivery): KV<K, V> {
    if Commits(s, key, cas, d) then s.Insert(key, v) else s
  }

  /** Put reports OK for every answer that is not the word "false". */
  function WriteResult<K, V>(s: KV<K, V>, key: K, cas: nat, d: Delivery): PutResult {
    match d
    case Delivered => if Accepts(s, key, cas) then OK else ERROR
    case RequestLost => ERROR
    case ReplyLost => ERROR
    case ServerError => OK
  }

  // ---- how the store may change between two requests of one client

  /** A write or a delete by some other client. */
  datatype Foreign<K, V> = ForeignWrite(key: K, value: V) | ForeignDelete(key: K)

  function After<K, V>(s: KV<K, V>, others: seq<Foreign<K, V>>): KV<K, V> {
    if others == [] then s
    else
      var t := After(s, others[..|others| - 1]);
      match others[|others| - 1]
      case ForeignWrite(k, v) => t.Insert(k, v)
      case ForeignDelete(k) => t.Remove(k)
  }

  /** t is a later state of s: an entry whose index is not newer than s was in s. */
  ghost predicate Evolves<K(!new), V(!new)>(s: KV<K, V>, t: KV<K, V>) {
    && s.clock <= t.clock
    && forall k :: k in t.entries && t.entries[k].modifyIndex <= s.clock ==>
         k in s.entries && s.entries[k] == t.entries[k]
  }

  lemma {:induction false} AfterEvolves<K(!new), V(!new)>(s: KV<K, V>, others: seq<Foreign<K, V>>)
    requires s.Valid()
    ensures After(s, others).Valid() && Evolves(s, After(s, others))
  {
    if others != [] {
      AfterEvolves(s, others[..|others| - 1]);
    }
  }

  lemma EvolvesOn<K(!new), V(!new)>(s: KV<K, V>, t: KV<K, V>, u: KV<K, V>)
    requires Evolves(s, t) && Evolves(t, u)
    ensures Evolves(s, u)
  {
  }

  /** Only a delete makes a key go away. */
  lemma {:induction false} WritesKeepKeys<K(!new), V(!new)>(s: KV<K, V>, others: seq<Foreign<K, V>>, key: K)
    requires key in s.entries && forall f :: f in others ==> f.ForeignWrite?
    ensures key in After(s, others).entries
  {
    if others != [] {
      WritesKeepKeys(s, others[..|others| - 1], key);
      assert others[|others| - 1] in others;
    }
  }

  /** Put is two requests, yet it is one compare-and-swap by value at the moment of its
      write: it takes effect exactly when its PUT reaches the server and either the key
      was reported missing and is missing, or the entry it compared is still there. */
  lemma PutIsAtomicCas<K(!new), V(!new)>(
    s: KV<K, V>, t: KV<K, V>, key: K, oldVal: Option<V>, reliable: bool, d: Delivery)
    requires s.Valid() && t.Valid() && Evolves(s, t)
    requires !Outdated(Read(s, key, reliable), oldVal)
    ensures var cas := Read(s, key, reliable).index;
            && (Commits(t, key, cas, d) <==>
                  && (d.Delivered? || d.ReplyLost?)
                  && (key !in t.entries ==> !reliable || key !in s.entries)
                  && (key in t.entries ==> reliable && key in s.entries && s.entries[key] == t.entries[key]))
            && (Commits(t, key, cas, d) ==> t.Lookup(key) == None || t.Lookup(key) == oldVal)
            && (WriteResult(t, key, cas, d).OK? && !d.ServerError? ==> Commits(t, key, cas, d))
            && (Commits(t, key, cas, d) && !d.ReplyLost? ==> WriteResult(t, key, cas, d).OK?)
  {
    if key in s.entries && key in t.entries {
      assert t.entries[key].modifyIndex == s.entries[key].modifyIndex ==> s.entries[key] == t.entries[key];
    }
  }

  /** The agent of one node, talking to the store that all nodes share. */
  class NetAgent<K(==, !new), V(==, !new)> {
    var kv: KV<K, V>

    method Get(key: K, reliable: bool) returns (r: Reply<V>)
      ensures r.value == if reliable then kv.Lookup(key) else None
      ensures r.value.None? ==> r.index == 0
      ensures r.value.Some? ==>
                key in kv.entries && r == Reply(Some(kv.entries[key].value), kv.entries[key].modifyIndex)
    {
      r := Read(kv, key, reliable);
    }

    /** `others` are the requests of other clients served between Put's read and write. */
    method Put(key: K, value: V, oldVal: Option<V>, reliable: bool, others: seq<Foreign<K, V>>, d: Delivery)
      returns (r: PutResult)
      requires kv.Valid()
      modifies this
      ensures kv.Valid()
      ensures r.OUTDATED? <==> reliable && key in old(kv).entries && old(kv).Lookup(key) != oldVal
      ensures r.OUTDATED? ==> kv == old(kv)
      ensures !r.OUTDATED? ==> kv == After(old(kv), others) || kv == After(old(kv), others).Insert(key, value)
      ensures r.OK? && !d.ServerError? ==>
                && kv == After(old(kv), others).Insert(key, value)
                && (After(old(kv), others).Lookup(key) == None || After(old(kv), others).Lookup(key) == oldVal)
      ensures !r.OUTDATED? && kv != After(old(kv), others) ==>
                && (d.Delivered? || d.ReplyLost?) && !(d.Delivered? && r.ERROR?)
                && (After(old(kv), others).Lookup(key) == None || After(old(kv), others).Lookup(key) == oldVal)
      ensures !r.OUTDATED? && d.Delivered? ==>
                (r.OK? <==> if key in After(old(kv), others).entries
                            then && reliable && key in old(kv).entries
                                 && After(old(kv), others).entries[key] == old(kv).entries[key]
                            else !reliable || key !in old(kv).entries)
      ensures !r.OUTDATED? && (d.RequestLost? || d.ReplyLost?) ==> r.ERROR?
      ensures !r.OUTDATED? && d.ServerError? ==> r.OK? && kv == After(old(kv), others)
      ensures !r.OUTDATED? && d.RequestLost? ==> kv == After(old(kv), others)
      ensures !r.OUTDATED? && d.ReplyLost? ==>
                (kv != After(old(kv), others) <==> if key in After(old(kv), others).entries
                                                   then && reliable && key in old(kv).entries
                                                        && After(old(kv), others).entries[key] == old(kv).entries[key]
                                                   else !reliable || key !in old(kv).entries)
    {
      var seen := Get(key, reliable);
      if Outdated(seen, oldVal) {
        return OUTDATED;
      }
      AfterEvolves(kv, others);
      PutIsAtomicCas(kv, After(kv, others), key, oldVal, reliable, d);
      kv := After(kv, others);
      r := WriteResult(kv, key, seen.index, d);
      kv := Write(kv, key, value, seen.index, d);
    }

    method Delete(key: K, d: Delivery) returns (r: PutResult)
      requires kv.Valid()
      modifies this
      ensures kv.Valid()
      ensures r.OK? && !d.ServerError? ==> kv == old(kv).Remove(key)
      ensures kv == if d.Delivered? || d.ReplyLost? then old(kv).Remove(key) else old(kv)
      ensures r.OK? <==> d.Delivered? || d.ServerError?
    {
      if d.Delivered? || d.ReplyLost? {
        kv := kv.Remove(key);
      }
      r := if d.Delivered? || d.ServerError? then OK else ERROR;
    }
  }
}
