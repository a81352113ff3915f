/** The default routing-table calculation (section 10 of RFC 3626), for single
    interfaces: layer by layer over neighbours, 2-hop neighbours and topology. */
module RoutingTable {
  import opened Common
  import opened OlsrRepositories

  /** `OLSR_link_tuple`, as far as this calculation looks at it. */
  datatype LinkTuple = LinkTuple(nbIface: Addr, localIface: Addr, time: real)

  /** `OLSR_topology_tuple`: `last` advertised a link to `dest`. */
  datatype TopologyTuple = TopologyTuple(dest: Addr, last: Addr)

  /** `OLSR_rt_entry`, filed under its destination. */
  datatype RtEntry = RtEntry(next: Addr, iface: Addr, dist: nat)

  type Table = map<Addr, RtEntry>

  /** The repositories the calculation reads. */
  datatype View = View(nbset: seq<NbTuple>, links: seq<LinkTuple>, nb2hop: seq<Nb2HopTuple>,
                       topology: seq<TopologyTuple>, now: real)

  predicate LiveLink(v: View, l: LinkTuple) {
    l.time >= v.now
  }

  /** Distance 1: symmetric neighbours with a live link. */
  predicate OneHop(v: View, d: Addr) {
    HasSymNb(v.nbset, d) && exists l :: l in v.links && LiveLink(v, l) && l.nbIface == d
  }

  /** An admitted 2-hop tuple to `d`. */
  predicate TwoHop(v: View, d: Addr) {
    exists t :: t in v.nb2hop && Admitted(v.nbset, t) && t.twoHop == d
  }

  /** The layered shortest-hop table: the destinations at distance `h`. */
  ghost predicate InLayer(v: View, h: nat, d: Addr)
    decreases h
  {
    if h == 0 then false
    else if h == 1 then OneHop(v, d)
    else if h == 2 then TwoHop(v, d) && !OneHop(v, d)
    else
      && (exists t :: t in v.topology && t.dest == d && InLayer(v, h - 1, t.last))
      && forall k :: 0 <= k < h ==> !InLayer(v, k, d)
  }

  /** Every symmetric neighbour that offers a 2-hop node has a live link: what
      the assertion in the 2-hop loop demands. */
  ghost predicate Linked(v: View) {
    forall t :: t in v.nb2hop && Admitted(v.nbset, t) ==> OneHop(v, t.nb)
  }

  // ---------------------------------------------------------------------
  // What an entry means
  // ---------------------------------------------------------------------

  /** A path the repositories advertise: a neighbour, a 2-hop node it offers,
      then topology links; only the first node is at distance 1. */
  ghost predicate Advertised(v: View, p: seq<Addr>) {
    && |p| >= 1 && OneHop(v, p[0])
    && (|p| >= 2 ==> exists t :: t in v.nb2hop && Admitted(v.nbset, t) && t.nb == p[0] && t.twoHop == p[1])
    && (forall i :: 2 <= i < |p| ==> TopologyTuple(p[i], p[i - 1]) in v.topology)
    && (forall i :: 1 <= i < |p| ==> !OneHop(v, p[i]))
  }

  /** Entry `e` for `d` is backed by an advertised path of its length. */
  ghost predicate Backed(v: View, d: Addr, e: RtEntry) {
    exists p :: Advertised(v, p) && |p| == e.dist && p[|p| - 1] == d && e.next == p[0]
  }

  /** The interface is the near end of a live link to the next hop. */
  ghost predicate OnLink(v: View, next: Addr, iface: Addr) {
    exists l :: l in v.links && LiveLink(v, l) && l.nbIface == next && l.localIface == iface
  }

  /** Entry `e` for `d` is backed, in the layer of its distance, and leaves over a
      live link to its next hop. */
  ghost predicate Sound(v: View, d: Addr, e: RtEntry) {
    Backed(v, d, e) && InLayer(v, e.dist, d) && OnLink(v, e.next, e.iface)
  }

  ghost predicate SoundAt(v: View, rt: Table, d: Addr) {
    d in rt ==> Sound(v, d, rt[d])
  }

  ghost predicate SoundTable(v: View, rt: Table) {
    forall d {:trigger SoundAt(v, rt, d)} :: SoundAt(v, rt, d)
  }

  ghost predicate HasLayer(v: View, rt: Table, k: nat) {
    forall d :: InLayer(v, k, d) ==> d in rt
  }

  /** The table holds exactly the layers 1 to `h`, each entry backed. */
  ghost predicate Holds(v: View, rt: Table, h: nat) {
    && SoundTable(v, rt)
    && (forall d :: d in rt ==> rt[d].dist <= h)
    && (forall k: nat {:trigger HasLayer(v, rt, k)} :: k <= h ==> HasLayer(v, rt, k))
  }

  /** The table holds exactly all layers. */
  ghost predicate Exact(v: View, rt: Table) {
    && SoundTable(v, rt)
    && (forall k: nat {:trigger HasLayer(v, rt, k)} :: HasLayer(v, rt, k))
  }

  lemma AddSound(v: View, rt: Table, d: Addr, e: RtEntry)
    requires SoundTable(v, rt) && Sound(v, d, e)
    ensures SoundTable(v, rt[d := e])
  {
    var after := rt[d := e];
    forall x ensures SoundAt(v, after, x) {
      assert SoundAt(v, rt, x);
    }
  }

  /** An entry exists for a node of a layer, at that layer's distance. */
  lemma LayerEntry(v: View, rt: Table, k: nat, d: Addr)
    requires SoundTable(v, rt) && HasLayer(v, rt, k) && InLayer(v, k, d)
    ensures d in rt && rt[d].dist == k
  {
    assert SoundAt(v, rt, d);
  }

  /** After an empty layer beyond the second, all layers are empty. */
  lemma {:induction false} EmptyAbove(v: View, h: nat, k: nat, d: Addr)
    requires 3 <= h <= k && forall x :: !InLayer(v, h, x)
    ensures !InLayer(v, k, d)
  {
    if k > h && InLayer(v, k, d) {
      var t :| t in v.topology && t.dest == d && InLayer(v, k - 1, t.last);
      EmptyAbove(v, h, k - 1, t.last);
    }
  }

  /** An exact table is a shortest-path table over advertised paths: every one
      that leaves the neighbourhood after its first node ends at an entry that
      is no longer. With `Sound`, which exhibits a path of the entry's length,
      the distance is the minimum. */
  lemma {:induction false} Shortest(v: View, rt: Table, p: seq<Addr>)
    requires Exact(v, rt) && Advertised(v, p)
    ensures p[|p| - 1] in rt && rt[p[|p| - 1]].dist <= |p|
  {
    var d := p[|p| - 1];
    assert HasLayer(v, rt, 1) && HasLayer(v, rt, 2);
    if |p| == 1 {
      LayerEntry(v, rt, 1, d);
    } else if |p| == 2 {
      LayerEntry(v, rt, 2, d);
    } else {
      var q := p[..|p| - 1];
      var last := q[|q| - 1];
      Shortest(v, rt, q);
      assert SoundAt(v, rt, last);
      var k := rt[last].dist;
      var t := TopologyTuple(d, last);
      assert t in v.topology && InLayer(v, k, t.last);
      var next := k + 1;
      assert HasLayer(v, rt, next);
      if forall j :: 0 <= j < next ==> !InLayer(v, j, d) {
        LayerEntry(v, rt, next, d);
      } else {
        var j :| 0 <= j < next && InLayer(v, j, d);
        assert HasLayer(v, rt, j);
        LayerEntry(v, rt, j, d);
      }
    }
  }

  /** The whole meaning of the table: destinations are exactly the ends of
      advertised paths, distances are the least lengths, the next hop starts a path
      of that length, and the interface is that of a live link to it. */
  lemma ExactIsShortest(v: View, rt: Table, d: Addr)
    requires Exact(v, rt)
    ensures d in rt <==> exists p :: Advertised(v, p) && p[|p| - 1] == d
    ensures d in rt ==> exists p :: Advertised(v, p) && p[|p| - 1] == d && |p| == rt[d].dist && rt[d].next == p[0]
    ensures d in rt ==> forall p :: Advertised(v, p) && p[|p| - 1] == d ==> rt[d].dist <= |p|
    ensures d in rt ==> exists l :: l in v.links && l.time >= v.now && l.nbIface == rt[d].next
                                    && l.localIface == rt[d].iface
  {
    assert SoundAt(v, rt, d);
    forall p | Advertised(v, p) && p[|p| - 1] == d ensures d in rt && rt[d].dist <= |p| {
      Shortest(v, rt, p);
    }
  }

  // ---------------------------------------------------------------------
  // The steps of the calculation
  // ---------------------------------------------------------------------

  lemma OneHopEntry(v: View, nb: NbTuple, l: LinkTuple)
    requires nb in v.nbset && nb.status == Sym && l in v.links && LiveLink(v, l) && l.nbIface == nb.mainAddr
    ensures Sound(v, nb.mainAddr, RtEntry(nb.mainAddr, l.localIface, 1))
  {
    assert OneHop(v, nb.mainAddr);
    assert Advertised(v, [nb.mainAddr]);
  }

  lemma TwoHopEntry(v: View, rt: Table, t: Nb2HopTuple)
    requires Linked(v) && SoundTable(v, rt) && HasLayer(v, rt, 1)
    requires t in v.nb2hop && Admitted(v.nbset, t)
    ensures t.nb in rt && Sound(v, t.twoHop, rt[t.nb].(dist := 2))
  {
    LayerEntry(v, rt, 1, t.nb);
    assert SoundAt(v, rt, t.nb);
    var e := rt[t.nb];
    var p :| Advertised(v, p) && |p| == e.dist && p[|p| - 1] == t.nb && e.next == p[0];
    assert Advertised(v, [t.nb, t.twoHop]);
  }

  /** A topology link out of layer `h` to a destination without an entry. */
  lemma FartherEntry(v: View, rt: Table, h: nat, t: TopologyTuple)
    requires h >= 2 && Holds(v, rt, h) && t in v.topology
    requires t.dest !in rt && t.last in rt && rt[t.last].dist == h
    ensures Sound(v, t.dest, rt[t.last].(dist := h + 1))
  {
    var e, next := rt[t.last], h + 1;
    assert SoundAt(v, rt, t.last);
    assert HasLayer(v, rt, 1);
    var p :| Advertised(v, p) && |p| == e.dist && p[|p| - 1] == t.last && e.next == p[0];
    var q := p + [t.dest];
    assert !InLayer(v, 1, t.dest);
    assert Advertised(v, q);
    forall k | 0 <= k < next ensures !InLayer(v, k, t.dest) {
      assert HasLayer(v, rt, k);
    }
    assert InLayer(v, next, t.dest);
  }

  /** The table during round `h`, after the first `upto` topology tuples. */
  ghost predicate Round(v: View, base: Table, rt: Table, h: nat, upto: nat)
    requires upto <= |v.topology|
  {
    && SoundTable(v, rt)
    && (forall d :: d in base ==> d in rt && rt[d] == base[d])
    && (forall d :: d in rt && d !in base ==> rt[d].dist == h + 1)
    && (forall j :: 0 <= j < upto ==> Extended(base, rt, h, v.topology[j]))
  }

  ghost predicate Extended(base: Table, rt: Table, h: nat, t: TopologyTuple) {
    t.last in base && base[t.last].dist == h ==> t.dest in rt
  }

  /** One topology tuple of round `h`. */
  lemma RoundStep(v: View, base: Table, rt: Table, h: nat, it: nat)
    requires h >= 2 && it < |v.topology| && Holds(v, base, h) && Round(v, base, rt, h, it)
    ensures var t := v.topology[it];
            if t.dest !in rt && t.last in rt && rt[t.last].dist == h
            then Round(v, base, rt[t.dest := rt[t.last].(dist := h + 1)], h, it + 1)
            else Round(v, base, rt, h, it + 1)
  {
    var t := v.topology[it];
    if t.dest !in rt && t.last in rt && rt[t.last].dist == h {
      FartherEntry(v, base, h, t);
      AddSound(v, rt, t.dest, rt[t.last].(dist := h + 1));
    }
  }

  /** A finished round holds one more layer. */
  lemma RoundDone(v: View, base: Table, rt: Table, h: nat)
    requires h >= 2 && Holds(v, base, h) && Round(v, base, rt, h, |v.topology|)
    ensures Holds(v, rt, h + 1)
  {
    forall k: nat | k <= h + 1 ensures HasLayer(v, rt, k) {
      assert k <= h ==> HasLayer(v, base, k);
      forall d | InLayer(v, k, d) ensures d in rt {
        if k == h + 1 {
          var t :| t in v.topology && t.dest == d && InLayer(v, h, t.last);
          assert HasLayer(v, base, h);
          LayerEntry(v, base, h, t.last);
          var j :| 0 <= j < |v.topology| && v.topology[j] == t;
          assert Extended(base, rt, h, v.topology[j]);
        }
      }
    }
  }

  /** An empty round ends the calculation. */
  lemma EmptyRound(v: View, rt: Table, h: nat)
    requires h >= 2 && Holds(v, rt, h) && Holds(v, rt, h + 1)
    ensures Exact(v, rt)
  {
    var next := h + 1;
    assert HasLayer(v, rt, next);
    forall x ensures !InLayer(v, next, x) {
      if InLayer(v, next, x) {
        LayerEntry(v, rt, next, x);
      }
    }
    forall k: nat ensures HasLayer(v, rt, k) {
      assert k <= h ==> HasLayer(v, rt, k);
      forall d | InLayer(v, k, d) ensures d in rt {
        if k > h {
          EmptyAbove(v, next, k, d);
        }
      }
    }
  }

  /** The advertised destinations that have no entry yet. */
  ghost function Missing(v: View, rt: Table): set<Addr> {
    set t | t in v.topology && t.dest !in rt :: t.dest
  }

  lemma MissingShrinks(v: View, rt: Table, t: TopologyTuple, e: RtEntry)
    requires t in v.topology && t.dest !in rt
    ensures Missing(v, rt[t.dest := e]) < Missing(v, rt)
  {
    assert t.dest in Missing(v, rt);
  }

  /** All neighbours with a live link among the first `upto` have entries. */
  ghost predicate NeighboursUpTo(v: View, rt: Table, upto: nat)
    requires upto <= |v.nbset|
  {
    && SoundTable(v, rt)
    && (forall d :: d in rt ==> rt[d].dist == 1)
    && (forall i :: 0 <= i < upto ==> LinksUpTo(v, rt, v.nbset[i], |v.links|))
  }

  ghost predicate LinksUpTo(v: View, rt: Table, nb: NbTuple, upto: nat)
    requires upto <= |v.links|
  {
    forall j :: 0 <= j < upto && nb.status == Sym && v.links[j].nbIface == nb.mainAddr && LiveLink(v, v.links[j])
      ==> nb.mainAddr in rt
  }

  /** The neighbours' entries, and the 2-hop nodes of the first `upto` tuples. */
  ghost predicate TwoHopsUpTo(v: View, rt: Table, upto: nat)
    requires upto <= |v.nb2hop|
  {
    && SoundTable(v, rt) && HasLayer(v, rt, 1)
    && (forall d :: d in rt ==> rt[d].dist <= 2)
    && (forall j :: 0 <= j < upto && Admitted(v.nbset, v.nb2hop[j]) ==> v.nb2hop[j].twoHop in rt)
  }

  class RoutingAgent {
    var nbset: seq<NbTuple>
    var links: seq<LinkTuple>
    var nb2hop: seq<Nb2HopTuple>
    var topology: seq<TopologyTuple>
    var rtable: Table

    constructor (nbset: seq<NbTuple>, links: seq<LinkTuple>, nb2hop: seq<Nb2HopTuple>, topology: seq<TopologyTuple>)
      ensures forall now :: TheView(now) == View(nbset, links, nb2hop, topology, now)
    {
      this.nbset, this.links, this.nb2hop, this.topology := nbset, links, nb2hop, topology;
      rtable := map[];
    }

    function TheView(now: real): View
      reads this`nbset, this`links, this`nb2hop, this`topology
    {
      View(nbset, links, nb2hop, topology, now)
    }

    /** `rtable_.add_entry`. */
    method AddEntry(dest: Addr, next: Addr, iface: Addr, dist: nat)
      modifies this`rtable
      ensures rtable == old(rtable)[dest := RtEntry(next, iface, dist)]
    {
      rtable := rtable[dest := RtEntry(next, iface, dist)];
    }

    /** The live links of one symmetric neighbour. */
    method AddLinksOf(now: real, it: nat)
      requires it < |nbset| && NeighboursUpTo(TheView(now), rtable, it)
      modifies this`rtable
      ensures NeighboursUpTo(TheView(now), rtable, it + 1)
    {
      ghost var v := TheView(now);
      var nb := nbset[it];
      var it2 := 0;
      while it2 != |links| && nb.status == Sym
        invariant 0 <= it2 <= |links|
        invariant NeighboursUpTo(v, rtable, it)
        invariant LinksUpTo(v, rtable, nb, it2)
      {
        var l := links[it2];
        if l.nbIface == nb.mainAddr && l.time >= now {
          OneHopEntry(v, nb, l);
          AddSound(v, rtable, l.nbIface, RtEntry(l.nbIface, l.localIface, 1));
          KeepsLinks(v, rtable, it, l.nbIface, RtEntry(l.nbIface, l.localIface, 1));
          AddEntry(l.nbIface, l.nbIface, l.localIface, 1);
        }
        it2 := it2 + 1;
      }
    }

    /** Distance 1: the live links of each symmetric neighbour. */
    method AddNeighbours(now: real)
      modifies this`rtable
      ensures Holds(TheView(now), rtable, 1)
    {
      rtable := map[];
      var it := 0;
      while it != |nbset|
        invariant 0 <= it <= |nbset|
        invariant NeighboursUpTo(TheView(now), rtable, it)
      {
        AddLinksOf(now, it);
        it := it + 1;
      }
    }

    /** Distance 2: the admitted 2-hop tuples. */
    method AddTwoHops(now: real)
      requires Linked(TheView(now)) && Holds(TheView(now), rtable, 1)
      modifies this`rtable
      ensures Holds(TheView(now), rtable, 2)
    {
      ghost var v := TheView(now);
      assert HasLayer(v, rtable, 1);
      var it := 0;
      while it != |nb2hop|
        invariant 0 <= it <= |nb2hop|
        invariant TwoHopsUpTo(v, rtable, it)
      {
        var t := nb2hop[it];
        if Admitted(nbset, t) {
          TwoHopEntry(v, rtable, t);
          AddSound(v, rtable, t.twoHop, rtable[t.nb].(dist := 2));
          AddEntry(t.twoHop, rtable[t.nb].next, rtable[t.nb].iface, 2);
        }
        it := it + 1;
      }
    }

    /** One round: the topology links out of distance `h`. */
    method AddLayer(now: real, h: nat) returns (added: bool)
      requires h >= 2 && Holds(TheView(now), rtable, h)
      modifies this`rtable
      ensures Holds(TheView(now), rtable, h + 1)
      ensures added ==> Missing(TheView(now), rtable) < Missing(TheView(now), old(rtable))
      ensures !added ==> rtable == old(rtable)
    {
      ghost var v := TheView(now);
      ghost var base := rtable;
      added := false;
      var it := 0;
      while it != |topology|
        invariant 0 <= it <= |topology|
        invariant Round(v, base, rtable, h, it)
        invariant added ==> Missing(v, rtable) < Missing(v, base)
        invariant !added ==> rtable == base
      {
        RoundStep(v, base, rtable, h, it);
        var t := topology[it];
        if t.dest !in rtable && t.last in rtable && rtable[t.last].dist == h {
          MissingShrinks(v, rtable, t, rtable[t.last].(dist := h + 1));
          AddEntry(t.dest, rtable[t.last].next, rtable[t.last].iface, h + 1);
          added := true;
        }
        it := it + 1;
      }
      RoundDone(v, base, rtable, h);
    }

    /** `rtable_default_computation` with no interface associations. */
    method RtableDefaultComputation(now: real)
      requires Linked(TheView(now))
      modifies this`rtable
      ensures Exact(TheView(now), rtable)
    {
      AddNeighbours(now);
      AddTwoHops(now);
      var h := 2;
      while true
        invariant h >= 2 && Holds(TheView(now), rtable, h)
        decreases Missing(TheView(now), rtable)
      {
        var added := AddLayer(now, h);
        if !added {
          EmptyRound(TheView(now), rtable, h);
          break;
        }
        h := h + 1;
      }
    }
  }

  lemma KeepsLinks(v: View, rt: Table, it: nat, d: Addr, e: RtEntry)
    requires it <= |v.nbset| && NeighboursUpTo(v, rt, it) && Sound(v, d, e) && e.dist == 1
    ensures NeighboursUpTo(v, rt[d := e], it)
  {
    AddSound(v, rt, d, e);
    forall i | 0 <= i < it ensures LinksUpTo(v, rt[d := e], v.nbset[i], |v.links|) {
      assert LinksUpTo(v, rt, v.nbset[i], |v.links|);
    }
  }
}
