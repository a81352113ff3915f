/** MPR flooding: in a static network whose MPR sets cover the 2-hop
    neighbourhoods, one message reaches every node, although a node relays it
    only when the first copy it heard came from an MPR selector. */
module MprFlooding {
  import opened Common
  import opened OlsrRepositories
  import opened MprSelection
  import opened MprComputation
  import opened OlsrForwarding

  /** Who hears whom, and whom each node selected as MPRs. */
  datatype Net = Net(nodes: set<Addr>, adj: map<Addr, set<Addr>>, mpr: map<Addr, set<Addr>>)

  ghost predicate Symmetric(n: Net) {
    && n.adj.Keys == n.nodes && n.mpr.Keys == n.nodes
    && (forall u :: u in n.nodes ==> n.adj[u] <= n.nodes && u !in n.adj[u])
    && (forall u, v :: u in n.nodes && v in n.adj[u] ==> u in n.adj[v])
  }

  /** Node `u`'s MPRs are neighbours and reach its strict 2-hop nodes. */
  ghost predicate CoversTwoHops(n: Net, u: Addr)
    requires Symmetric(n) && u in n.nodes
  {
    && n.mpr[u] <= n.adj[u]
    && forall v, w :: v in n.adj[u] && w in n.adj[v] && w != u && w !in n.adj[u] ==>
         exists m :: m in n.mpr[u] && w in n.adj[m]
  }

  ghost predicate WellSelected(n: Net) {
    Symmetric(n) && forall u {:trigger CoversTwoHops(n, u)} :: u in n.nodes ==> CoversTwoHops(n, u)
  }

  /** The MPR selector set that mirrors the MPR sets. */
  function Selectors(n: Net, v: Addr): set<Addr>
    requires v in n.adj
  {
    set u | u in n.adj[v] && u in n.mpr && v in n.mpr[u]
  }

  function EnvOf(n: Net, v: Addr): Env
    requires v in n.adj
  {
    Env(v, n.adj[v], Selectors(n, v))
  }

  /** A path along links. */
  ghost predicate Path(n: Net, p: seq<Addr>) {
    && p != [] && (forall i :: 0 <= i < |p| ==> p[i] in n.adj)
    && forall i :: 0 <= i < |p| - 1 ==> p[i + 1] in n.adj[p[i]]
  }

  ghost predicate Reachable(n: Net, origin: Addr, v: Addr) {
    exists p :: Path(n, p) && p[0] == origin && p[|p| - 1] == v
  }

  ghost predicate Connected(n: Net, origin: Addr) {
    forall v {:trigger Reachable(n, origin, v)} :: v in n.nodes ==> Reachable(n, origin, v)
  }

  // ---------------------------------------------------------------------
  // From accurate repositories to coverage
  // ---------------------------------------------------------------------

  /** Node `u`'s repositories describe the network: all neighbours symmetric
      and none of willingness WILL_NEVER, and all 2-hop links known. */
  ghost predicate Accurate(n: Net, u: Addr, nbset: seq<NbTuple>, nb2hop: seq<Nb2HopTuple>)
    requires Symmetric(n) && u in n.nodes
  {
    && (forall a :: HasSymNb(nbset, a) <==> a in n.adj[u])
    && (forall a :: a in n.adj[u] ==> !HasNeverNb(nbset, a))
    && (forall t :: t in nb2hop <==> t.nb in n.adj[u] && t.twoHop in n.adj[t.nb] && t.twoHop != u)
  }

  /** Any of the selection algorithms then yields the coverage flooding needs. */
  lemma SelectionSuffices(n: Net, u: Addr, rule: Rule, nbset: seq<NbTuple>, nb2hop: seq<Nb2HopTuple>)
    requires Symmetric(n) && u in n.nodes
    requires Accurate(n, u, nbset, nb2hop) && Selected(rule, nbset, nb2hop, n.mpr[u])
    ensures CoversTwoHops(n, u)
  {
    var n2 := StrictTwoHop(nbset, nb2hop);
    SelectionCovers(rule, nbset, nb2hop, n.mpr[u]);
    forall m | m in n.mpr[u] ensures m in n.adj[u] {
      SelectionSound(rule, nbset, nb2hop, n.mpr[u], m);
    }
    forall v, w | v in n.adj[u] && w in n.adj[v] && w != u && w !in n.adj[u]
      ensures exists m :: m in n.mpr[u] && w in n.adj[m]
    {
      var t := Nb2HopTuple(v, w);
      assert t in n2;
      var m :| m in Providers(n2, w) * n.mpr[u];
      var t' :| t' in n2 && t'.twoHop == w && t'.nb == m;
    }
  }

  // ---------------------------------------------------------------------
  // The flood
  // ---------------------------------------------------------------------

  /** The nodes' message states, and the transmitters in order. */
  datatype Flood = Flood(nodes: map<Addr, State>, order: seq<Addr>)

  function Start(n: Net, first: Msg): Flood {
    Flood(map v | v in n.nodes :: State(map[], if v == first.orig then [first] else [], []), [])
  }

  predicate Pending(f: Flood, v: Addr) {
    v in f.nodes && f.nodes[v].msgs != []
  }

  /** Node `v` transmits what it has queued; every neighbour hears it. */
  function Transmit(n: Net, f: Flood, v: Addr, now: real): Flood
    requires v in f.nodes && f.nodes.Keys == n.adj.Keys
  {
    Flood(map w | w in f.nodes ::
            if w == v then f.nodes[w].(msgs := [])
            else if w in n.adj[v] then ReceiveAll(EnvOf(n, w), f.nodes[w], f.nodes[v].msgs, v, now)
            else f.nodes[w],
          f.order + [v])
  }

  /** A schedule of retransmissions, each by a node that has something queued. */
  ghost predicate Schedule(n: Net, first: Msg, s: seq<(Addr, real)>)
    requires n.adj.Keys == n.nodes
    decreases |s|, 0
  {
    s != [] ==>
      && Schedule(n, first, s[..|s| - 1])
      && Pending(After(n, first, s[..|s| - 1]), s[|s| - 1].0)
  }

  ghost function After(n: Net, first: Msg, s: seq<(Addr, real)>): (f: Flood)
    requires n.adj.Keys == n.nodes && Schedule(n, first, s)
    ensures f.nodes.Keys == n.nodes
    decreases |s|, 1
  {
    if s == [] then Start(n, first)
    else Transmit(n, After(n, first, s[..|s| - 1]), s[|s| - 1].0, s[|s| - 1].1)
  }

  /** The first of the transmitters that `w` hears. */
  ghost function FirstHeard(n: Net, order: seq<Addr>, w: Addr): Option<Addr> {
    if order == [] then None
    else
      var before := FirstHeard(n, order[..|order| - 1], w);
      var v := order[|order| - 1];
      if before.Some? then before
      else if v in n.adj && w in n.adj[v] then Some(v)
      else None
  }

  /** Node `w` heard the message and will relay, or has relayed, it. */
  ghost predicate RelaysIt(n: Net, order: seq<Addr>, w: Addr) {
    var h := FirstHeard(n, order, w);
    h.Some? && h.value in n.mpr && w in n.mpr[h.value]
  }

  ghost predicate NodeInv(n: Net, first: Msg, f: Flood, w: Addr)
    requires w in f.nodes
  {
    StateInv(n, first, f.order, w, f.nodes[w])
  }

  /** The state of node `w` after the transmissions in `order`. */
  ghost predicate StateInv(n: Net, first: Msg, order: seq<Addr>, w: Addr, s: State) {
    var id := Id(first);
    && (w == first.orig ==> s.dups == map[] && s.msgs == (if w in order then [] else [first]))
    && (w != first.orig ==>
          && (id in s.dups <==> FirstHeard(n, order, w).Some?)
          && (id in s.dups ==> w in s.dups[id].ifaces)
          && (w in order ==> RelaysIt(n, order, w))
          && (RelaysIt(n, order, w) && w !in order ==> |s.msgs| == 1)
          && (!RelaysIt(n, order, w) || w in order ==> s.msgs == []))
    && (forall m :: m in s.msgs ==>
          && Id(m) == id && m.kind == first.kind && m.ttl + m.hops == first.ttl + first.hops
          && first.ttl - |order| <= m.ttl && m.ttl >= 1)
  }

  ghost predicate Inv(n: Net, first: Msg, f: Flood) {
    && f.nodes.Keys == n.nodes
    && Distinct(f.order) && (forall v :: v in f.order ==> v in n.nodes)
    && forall w {:trigger NodeInv(n, first, f, w)} :: w in n.nodes ==> NodeInv(n, first, f, w)
  }

  /** The message has enough hops for any chain of distinct relays. */
  ghost predicate AmpleTtl(n: Net, first: Msg) {
    first.orig in n.nodes && !first.kind.Hello? && first.ttl >= |n.nodes| && first.ttl >= 1
  }

  lemma {:induction false} DistinctBound(s: seq<Addr>, all: set<Addr>)
    requires Distinct(s) && forall x :: x in s ==> x in all
    ensures |s| <= |all|
  {
    if s != [] {
      var last := s[|s| - 1];
      DistinctBound(s[..|s| - 1], all - {last});
    }
  }

  lemma HeardNext(n: Net, order: seq<Addr>, v: Addr, w: Addr)
    ensures FirstHeard(n, order + [v], w) ==
            if FirstHeard(n, order, w).Some? then FirstHeard(n, order, w)
            else if v in n.adj && w in n.adj[v] then Some(v)
            else None
  {
    assert (order + [v])[..|order|] == order;
  }

  /** What a queued node has queued. */
  lemma PendingOne(n: Net, first: Msg, f: Flood, v: Addr)
    requires Symmetric(n) && Inv(n, first, f) && Pending(f, v)
    ensures v !in f.order && |f.nodes[v].msgs| == 1 && v in n.nodes
  {
    assert NodeInv(n, first, f, v);
  }

  /** The effect of a transmission on one node. */
  lemma TransmitAt(n: Net, f: Flood, v: Addr, w: Addr, now: real)
    requires v in f.nodes && f.nodes.Keys == n.adj.Keys && w in f.nodes && |f.nodes[v].msgs| == 1
    ensures Transmit(n, f, v, now).nodes[w] ==
            if w == v then f.nodes[w].(msgs := [])
            else if w in n.adj[v] then Receive(EnvOf(n, w), f.nodes[w], f.nodes[v].msgs[0], v, now)
            else f.nodes[w]
  {
    var m := f.nodes[v].msgs[0];
    assert f.nodes[v].msgs == [m];
    if w in n.adj[v] {
      assert ReceiveAll(EnvOf(n, w), f.nodes[w], [], v, now) == f.nodes[w];
      assert [m][..0] == [];
    }
  }

  /** A copy at a node that never heard the message. */
  lemma FirstCopy(n: Net, first: Msg, f: Flood, v: Addr, w: Addr, now: real)
    requires Symmetric(n) && AmpleTtl(n, first) && Inv(n, first, f) && Pending(f, v)
    requires w in n.adj[v] && w != first.orig && FirstHeard(n, f.order, w).None?
    ensures NodeInv(n, first, Transmit(n, f, v, now), w)
  {
    PendingOne(n, first, f, v);
    assert NodeInv(n, first, f, v) && NodeInv(n, first, f, w);
    var m, s := f.nodes[v].msgs[0], f.nodes[w];
    assert m in f.nodes[v].msgs;
    assert w !in f.order && s.msgs == [] && Id(first) !in s.dups;
    DistinctBound(f.order + [v] + [w], n.nodes);
    assert m.ttl > 1;
    TransmitAt(n, f, v, w, now);
    FirstCopyState(n, first, f.order, v, w, s, m, now);
  }

  /** The state it leaves there. */
  lemma FirstCopyState(n: Net, first: Msg, order: seq<Addr>, v: Addr, w: Addr, s: State, m: Msg, now: real)
    requires Symmetric(n) && !first.kind.Hello? && v in n.nodes && w in n.adj[v] && w != first.orig
    requires FirstHeard(n, order, w).None? && w !in order && s.msgs == [] && Id(first) !in s.dups
    requires Id(m) == Id(first) && m.kind == first.kind && m.ttl + m.hops == first.ttl + first.hops
    requires first.ttl - |order| <= m.ttl && m.ttl > 1
    ensures StateInv(n, first, order + [v], w, Receive(EnvOf(n, w), s, m, v, now))
  {
    var e := EnvOf(n, w);
    ReceiveFirst(e, s, m, v, now);
    HeardNext(n, order, v, w);
    assert v in e.selectors <==> RelaysIt(n, order + [v], w);
    assert [] + [Relayed(m)] == [Relayed(m)];
  }

  lemma OtherNode(n: Net, first: Msg, f: Flood, v: Addr, w: Addr, now: real)
    requires Symmetric(n) && AmpleTtl(n, first) && Inv(n, first, f) && Pending(f, v) && w in n.nodes
    requires w in n.adj[v] ==> w == first.orig || FirstHeard(n, f.order, w).Some?
    ensures NodeInv(n, first, Transmit(n, f, v, now), w)
  {
    PendingOne(n, first, f, v);
    assert NodeInv(n, first, f, v) && NodeInv(n, first, f, w);
    var m, e, s := f.nodes[v].msgs[0], EnvOf(n, w), f.nodes[w];
    assert m in f.nodes[v].msgs;
    TransmitAt(n, f, v, w, now);
    HeardNext(n, f.order, v, w);
    var s' := Transmit(n, f, v, now).nodes[w];
    if w in n.adj[v] && w != first.orig {
      ReceiveOnce(e, s, m, v, now);
    }
    assert w != v ==> s' == s;
    assert w != first.orig ==> (RelaysIt(n, f.order + [v], w) <==> RelaysIt(n, f.order, w));
  }

  lemma TransmitKeeps(n: Net, first: Msg, f: Flood, v: Addr, now: real)
    requires Symmetric(n) && AmpleTtl(n, first) && Inv(n, first, f) && Pending(f, v)
    ensures Inv(n, first, Transmit(n, f, v, now))
  {
    PendingOne(n, first, f, v);
    forall w | w in n.nodes ensures NodeInv(n, first, Transmit(n, f, v, now), w) {
      if w in n.adj[v] && w != first.orig && FirstHeard(n, f.order, w).None? {
        FirstCopy(n, first, f, v, w, now);
      } else {
        OtherNode(n, first, f, v, w, now);
      }
    }
    var after := f.order + [v];
    assert Distinct(after) && forall x :: x in after ==> x in n.nodes;
  }

  /** In every run: whoever is not the originator has a duplicate tuple exactly
      if it heard a transmitter, relays exactly if the first one selected it,
      relays once, and the TTL plus the hop count stay what they were. */
  lemma {:induction false} FloodInvariant(n: Net, first: Msg, s: seq<(Addr, real)>)
    requires Symmetric(n) && AmpleTtl(n, first) && first.hops >= 0 && Schedule(n, first, s)
    ensures Inv(n, first, After(n, first, s))
    ensures |After(n, first, s).order| == |s| <= |n.nodes|
  {
    var f := After(n, first, s);
    if s != [] {
      var before := s[..|s| - 1];
      FloodInvariant(n, first, before);
      TransmitKeeps(n, first, After(n, first, before), s[|s| - 1].0, s[|s| - 1].1);
    }
    DistinctBound(f.order, n.nodes);
  }

  // ---------------------------------------------------------------------
  // Quiescence: everyone was reached
  // ---------------------------------------------------------------------

  /** Nobody has anything left to transmit. */
  ghost predicate Quiescent(n: Net, f: Flood) {
    forall v {:trigger Pending(f, v)} :: v in n.nodes ==> !Pending(f, v)
  }

  /** Node `w` holds a duplicate tuple for the message, or originated it. */
  ghost predicate Reached(first: Msg, f: Flood, w: Addr)
    requires w in f.nodes
  {
    w == first.orig || Id(first) in f.nodes[w].dups
  }

  /** A transmitter two hops away from `w`. */
  ghost predicate TwoHopsFrom(n: Net, w: Addr, u: Addr) {
    u in n.adj && exists v :: v in n.adj[u] && v in n.adj && w in n.adj[v]
  }

  /** The first transmitter of a kind. */
  lemma {:induction false} Earliest(n: Net, order: seq<Addr>, w: Addr) returns (k: nat)
    requires exists u :: u in order && TwoHopsFrom(n, w, u)
    ensures k < |order| && TwoHopsFrom(n, w, order[k])
    ensures forall i :: 0 <= i < k ==> !TwoHopsFrom(n, w, order[i])
  {
    if TwoHopsFrom(n, w, order[0]) {
      k := 0;
    } else {
      var u :| u in order && TwoHopsFrom(n, w, u);
      assert u in order[1..];
      k := Earliest(n, order[1..], w);
      k := k + 1;
    }
  }

  /** What hearing someone first means. */
  lemma {:induction false} FirstHeardAt(n: Net, order: seq<Addr>, w: Addr)
    ensures var h := FirstHeard(n, order, w);
            && (h.None? ==> forall i :: 0 <= i < |order| && order[i] in n.adj ==> w !in n.adj[order[i]])
            && (h.Some? ==> exists i :: 0 <= i < |order| && order[i] == h.value
                              && order[i] in n.adj && w in n.adj[order[i]]
                              && forall j :: 0 <= j < i && order[j] in n.adj ==> w !in n.adj[order[j]])
  {
    if order != [] {
      var p := order[..|order| - 1];
      FirstHeardAt(n, p, w);
      var h := FirstHeard(n, p, w);
      if h.Some? {
        var i :| 0 <= i < |p| && p[i] == h.value && p[i] in n.adj && w in n.adj[p[i]]
                 && forall j :: 0 <= j < i && p[j] in n.adj ==> w !in n.adj[p[j]];
        assert order[i] == p[i];
      }
    }
  }

  /** Whoever is two hops from a transmitter has heard one: take the earliest
      such transmitter; the MPR it selected towards the node heard it first,
      hence relayed. */
  lemma TwoHopsReached(n: Net, first: Msg, f: Flood, w: Addr, u: Addr)
    requires WellSelected(n) && first.orig in n.nodes && Inv(n, first, f) && Quiescent(n, f)
    requires u in f.order && TwoHopsFrom(n, w, u)
    ensures w in f.order || FirstHeard(n, f.order, w).Some?
  {
    var order := f.order;
    FirstHeardAt(n, order, w);
    var k := Earliest(n, order, w);
    var x := order[k];
    assert x in order && x in n.nodes;
    if w != x && w !in n.adj[x] {
      var v :| v in n.adj[x] && v in n.adj && w in n.adj[v];
      assert CoversTwoHops(n, x);
      var m :| m in n.mpr[x] && w in n.adj[m];
      assert m in n.adj[x] && m in n.nodes && x in n.adj[m];
      RelayTransmitted(n, first, f, w, k, m);
      assert m in order;
    }
  }

  /** Relay `m` of the earliest transmitter two hops from `w` transmitted. */
  lemma RelayTransmitted(n: Net, first: Msg, f: Flood, w: Addr, k: nat, m: Addr)
    requires WellSelected(n) && first.orig in n.nodes && Inv(n, first, f) && Quiescent(n, f)
    requires k < |f.order| && forall i :: 0 <= i < k ==> !TwoHopsFrom(n, w, f.order[i])
    requires f.order[k] in n.nodes && m in n.mpr[f.order[k]] && m in n.adj[f.order[k]]
    requires m in n.nodes && w in n.adj[m]
    ensures m in f.order
  {
    var order := f.order;
    assert NodeInv(n, first, f, m) && !Pending(f, m);
    FirstHeardAt(n, order, m);
    if m != first.orig {
      var i :| 0 <= i < |order| && order[i] == FirstHeard(n, order, m).value
               && order[i] in n.adj && m in n.adj[order[i]]
               && forall j :: 0 <= j < i && order[j] in n.adj ==> m !in n.adj[order[j]];
      assert TwoHopsFrom(n, w, order[i]);
      assert RelaysIt(n, order, m);
    }
  }

  /** A link never leads from a reached to an unreached node. */
  lemma NoFrontier(n: Net, first: Msg, f: Flood, v: Addr, w: Addr)
    requires WellSelected(n) && first.orig in n.nodes && Inv(n, first, f) && Quiescent(n, f)
    requires v in n.nodes && w in n.adj[v] && Reached(first, f, v)
    ensures w in n.nodes && Reached(first, f, w)
  {
    assert NodeInv(n, first, f, v) && !Pending(f, v) && NodeInv(n, first, f, w);
    FirstHeardAt(n, f.order, w);
    FirstHeardAt(n, f.order, v);
    if v != first.orig {
      var u := FirstHeard(n, f.order, v).value;
      assert TwoHopsFrom(n, w, u);
      TwoHopsReached(n, first, f, w, u);
    }
  }

  lemma {:induction false} AlongPath(n: Net, first: Msg, f: Flood, p: seq<Addr>)
    requires WellSelected(n) && first.orig in n.nodes && Inv(n, first, f) && Quiescent(n, f)
    requires Path(n, p) && p[0] == first.orig
    ensures p[|p| - 1] in f.nodes && Reached(first, f, p[|p| - 1])
  {
    if |p| > 1 {
      var q := p[..|p| - 1];
      AlongPath(n, first, f, q);
      assert p[|p| - 2 + 1] in n.adj[p[|p| - 2]];
      NoFrontier(n, first, f, q[|q| - 1], p[|p| - 1]);
    }
  }

  /** MPR flooding reaches every node: whatever order the retransmissions take,
      once nobody has anything queued, every node of a connected network has
      received the message. */
  lemma FloodReachesAll(n: Net, first: Msg, s: seq<(Addr, real)>, f: Flood, w: Addr)
    requires WellSelected(n) && Connected(n, first.orig) && AmpleTtl(n, first) && first.hops >= 0
    requires Schedule(n, first, s) && f == After(n, first, s) && Quiescent(n, f)
    requires w in n.nodes
    ensures Reached(first, f, w)
  {
    FloodInvariant(n, first, s);
    assert Reachable(n, first.orig, w);
    var p :| Path(n, p) && p[0] == first.orig && p[|p| - 1] == w;
    AlongPath(n, first, f, p);
  }
}
