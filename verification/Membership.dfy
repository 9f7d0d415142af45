/** Cluster snapshots and the tunnels they drive: compare and updateNodeListeners of
    netAgent/netAgent.go, NotifyNodeUpdate of server/backend.go. */
module Membership {

  function Addresses(nodes: seq<string>): set<string> {
    set a | a in nodes
  }

  /** X-Y on addresses, in X's order and with X's repetitions. */
  function Minus(X: seq<string>, Y: seq<string>): seq<string> {
    if X == [] then []
    else Minus(X[..|X| - 1], Y) + if X[|X| - 1] in Y then [] else [X[|X| - 1]]
  }

  lemma {:induction false} MinusIsDifference(X: seq<string>, Y: seq<string>)
    ensures Addresses(Minus(X, Y)) == Addresses(X) - Addresses(Y)
  {
    if X != [] {
      var W, x := X[..|X| - 1], X[|X| - 1];
      MinusIsDifference(W, Y);
      assert X == W + [x];
      assert Addresses(X) == Addresses(W) + {x};
      assert Minus(W, Y) + [] == Minus(W, Y);
      assert x !in Y ==> Addresses(Minus(X, Y)) == Addresses(Minus(W, Y)) + {x};
    }
  }

  /** Part by part, so in X's order ... */
  lemma {:induction false} MinusInOrder(X: seq<string>, Z: seq<string>, Y: seq<string>)
    ensures Minus(X + Z, Y) == Minus(X, Y) + Minus(Z, Y)
  {
    if Z == [] {
      assert X + Z == X;
    } else {
      var front := Z[..|Z| - 1];
      MinusInOrder(X, front, Y);
      assert (X + Z)[..|X + Z| - 1] == X + front;
    }
  }

  /** ... and with its repetitions. */
  lemma {:induction false} MinusCounts(X: seq<string>, Y: seq<string>, a: string)
    ensures multiset(Minus(X, Y))[a] == if a in Y then 0 else multiset(X)[a]
  {
    if X != [] {
      var front, x := X[..|X| - 1], X[|X| - 1];
      MinusCounts(front, Y, a);
      assert X == front + [x];
    }
  }

  method Compare(X: seq<string>, Y: seq<string>) returns (ret: seq<string>)
    ensures ret == Minus(X, Y)
    ensures Addresses(ret) == Addresses(X) - Addresses(Y)
  {
    var m: map<string, bool> := map[];
    for i := 0 to |Y|
      invariant forall a :: a in m <==> a in Y[..i]
    {
      m := m[Y[i] := true];
    }
    ret := [];
    for i := 0 to |X|
      invariant ret == Minus(X[..i], Y)
    {
      assert X[..i + 1][..i] == X[..i];
      if X[i] !in m {
        ret := ret + [X[i]];
      }
    }
    assert X[..|X|] == X;
    MinusIsDifference(X, Y);
  }

  /** What a node knows and has built: the last snapshot, its tunnel ports, whether it has
      signalled that the store is ready, and how often. */
  datatype View = View(nodeCache: seq<string>, peers: set<string>, isReady: bool, signals: nat)

  /** NotifyNodeUpdate, with tunnel operations that succeed. */
  function Notified(v: View, me: string, add: bool, addr: string): View {
    var w := if v.isReady then v else v.(isReady := true, signals := v.signals + 1);
    if !add then w.(peers := w.peers - {addr})
    else if addr != me then w.(peers := w.peers + {addr})
    else w
  }

  function NotifiedAll(v: View, me: string, add: bool, addrs: seq<string>): View {
    if addrs == [] then v
    else Notified(NotifiedAll(v, me, add, addrs[..|addrs| - 1]), me, add, addrs[|addrs| - 1])
  }

  /** updateNodeListeners; `listening` says whether the listener is registered. */
  function Updated(v: View, me: string, listening: bool, nodes: seq<string>): View {
    var w := v.(nodeCache := nodes);
    if !listening then w
    else NotifiedAll(NotifiedAll(w, me, false, Minus(v.nodeCache, nodes)), me, true, Minus(nodes, v.nodeCache))
  }

  class Listener {
    var view: View
    const me: string

    constructor (me: string)
      ensures this.me == me && view == View([], {}, false, 0)
    {
      this.me := me;
      view := View([], {}, false, 0);
    }

    method NotifyNodeUpdate(add: bool, addr: string)
      modifies this`view
      ensures view.isReady && view.nodeCache == old(view).nodeCache
      ensures view.signals == old(view).signals + if old(view).isReady then 0 else 1
      ensures addr != me ==> (addr in view.peers <==> add)
      ensures addr == me ==> view.peers == if add then old(view).peers else old(view).peers - {me}
      ensures forall a :: a != addr ==> (a in view.peers <==> a in old(view).peers)
      ensures view == Notified(old(view), me, add, addr)
    {
      if !view.isReady {
        view := view.(isReady := true, signals := view.signals + 1);
      }
      if add {
        if addr != me {
          view := view.(peers := view.peers + {addr});
        }
      } else {
        view := view.(peers := view.peers - {addr});
      }
    }

    method UpdateNodeListeners(listening: bool, nodes: seq<string>)
      modifies this`view
      ensures view == Updated(old(view), me, listening, nodes)
    {
      var toDelete := Compare(view.nodeCache, nodes);
      var toAdd := Compare(nodes, view.nodeCache);
      view := view.(nodeCache := nodes);
      if !listening {
        return;
      }
      NotifyEach(false, toDelete);
      NotifyEach(true, toAdd);
    }

    /** One of the two loops over the deltas. */
    method NotifyEach(add: bool, addrs: seq<string>)
      modifies this`view
      ensures view == NotifiedAll(old(view), me, add, addrs)
    {
      for i := 0 to |addrs|
        invariant view == NotifiedAll(old(view), me, add, addrs[..i])
      {
        assert addrs[..i + 1][..i] == addrs[..i];
        NotifyNodeUpdate(add, addrs[i]);
      }
      assert addrs[..|addrs|] == addrs;
    }
  }

  // ---- every sequence of snapshots

  lemma {:induction false} NotifiedAllPeers(v: View, me: string, add: bool, addrs: seq<string>)
    ensures var w := NotifiedAll(v, me, add, addrs);
            && w.nodeCache == v.nodeCache
            && w.peers == (if add then v.peers + (Addresses(addrs) - {me}) else v.peers - Addresses(addrs))
            && w.isReady == (v.isReady || addrs != [])
            && w.signals == v.signals + (if v.isReady || addrs == [] then 0 else 1)
  {
    if addrs != [] {
      var front, a := addrs[..|addrs| - 1], addrs[|addrs| - 1];
      NotifiedAllPeers(v, me, add, front);
      assert addrs == front + [a];
      assert Addresses(addrs) == Addresses(front) + {a};
    }
  }

  /** The deltas of one update have no address in common. */
  lemma DeltasDisjoint(before: seq<string>, after: seq<string>)
    ensures Addresses(Minus(before, after)) !! Addresses(Minus(after, before))
  {
    MinusIsDifference(before, after);
    MinusIsDifference(after, before);
  }

  /** The view after a run of snapshots, the listener registered before snapshot r. */
  function RunViews(me: string, r: nat, snapshots: seq<seq<string>>): View {
    if snapshots == [] then View([], {}, false, 0)
    else
      var k := |snapshots| - 1;
      Updated(RunViews(me, r, snapshots[..k]), me, k >= r, snapshots[k])
  }

  function Latest(snapshots: seq<seq<string>>): seq<string> {
    if snapshots == [] then [] else snapshots[|snapshots| - 1]
  }

  /** The nodes no delta has announced: those of the last snapshot before registration that
      have been in every snapshot since. */
  function Unannounced(r: nat, snapshots: seq<seq<string>>): set<string> {
    if |snapshots| <= r then Addresses(Latest(snapshots))
    else Unannounced(r, snapshots[..|snapshots| - 1]) * Addresses(Latest(snapshots))
  }

  lemma {:induction false} UnannouncedPresent(r: nat, snapshots: seq<seq<string>>)
    ensures Unannounced(r, snapshots) <= Addresses(Latest(snapshots))
    ensures r == 0 ==> Unannounced(r, snapshots) == {}
  {
    if |snapshots| > r {
      UnannouncedPresent(r, snapshots[..|snapshots| - 1]);
    }
  }

  lemma UpdateKeepsTunnels(v: View, me: string, listening: bool, nodes: seq<string>, u: set<string>)
    requires u <= Addresses(v.nodeCache) && v.peers == Addresses(v.nodeCache) - {me} - u
    requires v.signals == if v.isReady then 1 else 0
    requires !listening ==> v.peers == {}
    ensures var w := Updated(v, me, listening, nodes);
            && w.nodeCache == nodes && w.signals == (if w.isReady then 1 else 0)
            && w.peers == (if listening then Addresses(nodes) - {me} - (u * Addresses(nodes)) else {})
            && (listening ==> (w.isReady <==> v.isReady || Addresses(v.nodeCache) != Addresses(nodes)))
            && (!listening ==> w.isReady == v.isReady)
  {
    if listening {
      var gone, new_ := Minus(v.nodeCache, nodes), Minus(nodes, v.nodeCache);
      var w := v.(nodeCache := nodes);
      NotifiedAllPeers(w, me, false, gone);
      NotifiedAllPeers(NotifiedAll(w, me, false, gone), me, true, new_);
      MinusIsDifference(v.nodeCache, nodes);
      MinusIsDifference(nodes, v.nodeCache);
      EmptyAddresses(gone);
      EmptyAddresses(new_);
    }
  }

  lemma EmptyAddresses(nodes: seq<string>)
    ensures nodes == [] <==> Addresses(nodes) == {}
  {
    if nodes != [] {
      assert nodes[0] in Addresses(nodes);
    }
  }

  /** After every sequence of snapshots the tunnel peers are the latest addresses, minus this
      node, minus what was never announced; and the ready signal was sent at most once. */
  lemma {:induction false} TunnelsExact(me: string, r: nat, snapshots: seq<seq<string>>)
    ensures var v := RunViews(me, r, snapshots);
            && v.nodeCache == Latest(snapshots)
            && v.peers == Addresses(Latest(snapshots)) - {me} - Unannounced(r, snapshots)
            && v.signals == (if v.isReady then 1 else 0)
  {
    if snapshots != [] {
      var k := |snapshots| - 1;
      var v := RunViews(me, r, snapshots[..k]);
      TunnelsExact(me, r, snapshots[..k]);
      UnannouncedPresent(r, snapshots[..k]);
      UpdateKeepsTunnels(v, me, k >= r, snapshots[k], Unannounced(r, snapshots[..k]));
    }
  }

  /** So they are exactly the other nodes of the latest snapshot if and only if no other
      node was there before registration and never left; always, with r = 0. */
  lemma TunnelsFollowSnapshots(me: string, r: nat, snapshots: seq<seq<string>>)
    ensures RunViews(me, r, snapshots).peers == Addresses(Latest(snapshots)) - {me}
       <==> Unannounced(r, snapshots) <= {me}
    ensures r == 0 ==> RunViews(me, r, snapshots).peers == Addresses(Latest(snapshots)) - {me}
  {
    TunnelsExact(me, r, snapshots);
    UnannouncedPresent(r, snapshots);
    if RunViews(me, r, snapshots).peers == Addresses(Latest(snapshots)) - {me} {
      forall a | a in Unannounced(r, snapshots)
        ensures a == me
      {
        assert a in Addresses(Latest(snapshots));
      }
    }
  }
}
