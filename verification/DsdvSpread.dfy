/** How routes and breaks travel through a network of DSDV agents: along every
    path of updates a route arrives with the length of the path, and a broken link
    takes down the routes of those that learn of it. */
module DsdvSpread {
  import opened Common
  import opened DsdvCodec
  import opened Dsdv
  import opened DsdvNetwork
  import opened DsdvEffects

  /** Node `i` has a route to `d` through `hop`. */
  predicate HasRoute(n: Net, i: Addr, d: Addr, hop: Addr, metric: int, seqnum: int) {
    && i in n.nodes && d in n.nodes[i].table.entries
    && var e := n.nodes[i].table.entries[d]; e.hop == hop && e.metric == metric && e.seqnum == seqnum
  }

  /** All that node `i` knows of `d` is older than the number. */
  predicate KnowsLess(n: Net, i: Addr, d: Addr, seqnum: int) {
    i in n.nodes && (d in n.nodes[i].table.entries ==> n.nodes[i].table.entries[d].seqnum < seqnum)
  }

  /** The update that a node makes of its table. */
  function UpdateOf(n: Net, i: Addr, requested: bool, now: real): Update
    requires i in n.nodes
  {
    var v := n.nodes[i];
    var periodic := Promoted(v.table, requested, now);
    Update(i, Adverts(Refreshed(i, v.seqno, v.table, periodic, now), periodic, now))
  }

  /** The network after one update of `i` has reached `j`. */
  function Heard(n: Net, i: Addr, j: Addr, requested: bool, sent: real, now: real): Net
    requires i in n.nodes
  {
    Next(Next(n, MakeUpdate(i, requested, sent)), Deliver(j, UpdateOf(n, i, requested, sent), now))
  }

  /** The update is heard to its end. */
  predicate Arrives(n: Net, i: Addr, j: Addr, requested: bool, sent: real, now: real) {
    && i in n.nodes && i != j
    && Enabled(Next(n, MakeUpdate(i, requested, sent)), Deliver(j, UpdateOf(n, i, requested, sent), now))
  }

  /** An update names no destination twice. */
  lemma NamedOnce(t: Table, periodic: bool, now: real)
    requires WellFormed(t)
    ensures var adverts := Adverts(t, periodic, now);
            forall i, j :: 0 <= i < j < |adverts| ==> adverts[i].dst != adverts[j].dst
  {
    var adverts := Adverts(t, periodic, now);
    forall i, j | 0 <= i < j < |adverts| ensures adverts[i].dst != adverts[j].dst {
      var k, l := AdvertsInOrder(t.entries, t.order, periodic, now, i, j);
    }
  }

  /** A fresher number in an update is learned as it stands. */
  lemma Learned(g: Params, t: Table, from: Addr, adverts: seq<Advert>, now: real, k: nat)
    requires k < |adverts| && adverts[k].dst != g.self
    requires forall i, j :: 0 <= i < j < |adverts| ==> adverts[i].dst != adverts[j].dst
    requires adverts[k].dst in t.entries ==> t.entries[adverts[k].dst].seqnum < adverts[k].seqnum
    ensures var a, u := adverts[k], Process(g, t, from, adverts, now);
            && a.dst in u.entries && u.entries[a.dst].hop == from && u.entries[a.dst].seqnum == a.seqnum
            && u.entries[a.dst].metric == if a.metric == BIG then BIG else a.metric + 1
  {
    var a := adverts[k];
    if a.dst in t.entries {
      BelievedRoute(g, t, from, a, now);
    } else {
      NewRoute(g, t, from, a, now);
    }
    Mentioned(g, t, from, adverts, now, k);
    SenderWatched(g, t, from, adverts, now);
  }

  /** A delivery teaches what it carries of a fresher number. */
  lemma Delivered(n: Net, j: Addr, p: Update, now: real, a: Advert)
    requires Enabled(n, Deliver(j, p, now)) && a in p.adverts && a.dst != j && KnowsLess(n, j, a.dst, a.seqnum)
    requires forall k, l :: 0 <= k < l < |p.adverts| ==> p.adverts[k].dst != p.adverts[l].dst
    ensures var m := Next(n, Deliver(j, p, now));
            && HasRoute(m, j, a.dst, p.sender, if a.metric == BIG then BIG else a.metric + 1, a.seqnum)
            && m.nodes.Keys == n.nodes.Keys && forall x :: x in n.nodes && x != j ==> m.nodes[x] == n.nodes[x]
  {
    var k :| 0 <= k < |p.adverts| && p.adverts[k] == a;
    Learned(ParamsOf(n, j), n.nodes[j].table, p.sender, p.adverts, now, k);
  }

  lemma UpdateNamesOnce(n: Net, i: Addr, requested: bool, now: real)
    requires i in n.nodes && WellFormed(n.nodes[i].table)
    ensures var adverts := UpdateOf(n, i, requested, now).adverts;
            forall k, l :: 0 <= k < l < |adverts| ==> adverts[k].dst != adverts[l].dst
  {
    var v := n.nodes[i];
    var periodic := Promoted(v.table, requested, now);
    PutWellFormed(v.table, i, PeriodicOwn(i, v.seqno + 2, now));
    NamedOnce(Refreshed(i, v.seqno, v.table, periodic, now), periodic, now);
  }

  /** Making an update changes its maker only. */
  lemma MakerOnly(n: Net, i: Addr, requested: bool, now: real)
    requires i in n.nodes
    ensures var m := Next(n, MakeUpdate(i, requested, now));
            m.nodes.Keys == n.nodes.Keys && forall x :: x in n.nodes && x != i ==> m.nodes[x] == n.nodes[x]
  {
  }

  /** Hearing an update changes the hearer only, and what it carries of a fresher
      number is the hearer's route. */
  lemma HearerLearns(n: Net, i: Addr, j: Addr, requested: bool, sent: real, now: real, a: Advert)
    requires Arrives(n, i, j, requested, sent, now) && WellFormed(n.nodes[i].table)
    requires a in UpdateOf(n, i, requested, sent).adverts && a.dst != j && KnowsLess(n, j, a.dst, a.seqnum)
    ensures var m := Heard(n, i, j, requested, sent, now);
            && HasRoute(m, j, a.dst, i, if a.metric == BIG then BIG else a.metric + 1, a.seqnum)
            && m.nodes.Keys == n.nodes.Keys && forall x :: x in n.nodes && x != i && x != j ==> m.nodes[x] == n.nodes[x]
  {
    UpdateNamesOnce(n, i, requested, sent);
    MakerOnly(n, i, requested, sent);
    Delivered(Next(n, MakeUpdate(i, requested, sent)), j, UpdateOf(n, i, requested, sent), now, a);
  }

  // ---------------------------------------------------------------------
  // Routes arrive
  // ---------------------------------------------------------------------

  /** The network after periodic updates of the first `k` nodes of the path, each
      heard by the next. */
  function Relayed(n: Net, path: seq<Addr>, sent: seq<real>, heard: seq<real>, k: nat): Net
    requires k < |path| && |sent| == |heard| == |path| - 1
  {
    if k == 0 then n
    else
      var m := Relayed(n, path, sent, heard, k - 1);
      if path[k - 1] in m.nodes then Heard(m, path[k - 1], path[k], true, sent[k - 1], heard[k - 1]) else m
  }

  /** Update `k` is heard to its end, and the route it is to pass on has settled
      before it is made. */
  predicate Passes(n: Net, path: seq<Addr>, sent: seq<real>, heard: seq<real>, k: nat)
    requires k + 1 < |path| && |sent| == |heard| == |path| - 1
  {
    var m := Relayed(n, path, sent, heard, k);
    && Arrives(m, path[k], path[k + 1], true, sent[k], heard[k]) && sent[k] >= 0.0
    && (k > 0 && path[0] in m.nodes[path[k]].table.entries ==>
          m.nodes[path[k]].table.entries[path[0]].advertiseOkAt <= sent[k])
  }

  /** A node's own periodic update outruns everything that is known of it. */
  lemma FirstHop(n: Net, i: Addr, j: Addr, sent: real, now: real)
    requires Sane(n) && Arrives(n, i, j, true, sent, now) && j in n.nodes && sent >= 0.0
    ensures var m := Heard(n, i, j, true, sent, now);
            && HasRoute(m, j, i, i, 1, n.nodes[i].seqno + 2) && m.nodes.Keys == n.nodes.Keys
            && forall x :: x in n.nodes && x != i && x != j ==> m.nodes[x] == n.nodes[x]
  {
    assert NodeSane(n, i) && NodeSane(n, j);
    PeriodicCarries(i, n.nodes[i].seqno, n.nodes[i].table, sent, i);
    var t := n.nodes[j].table;
    if i in t.entries {
      assert EntrySane(n, j, i, t.entries[i]);
    }
    HearerLearns(n, i, j, true, sent, now, Advert(i, 0, n.nodes[i].seqno + 2));
  }

  /** A settled route is passed on with one more hop. */
  lemma PassedOn(n: Net, d: Addr, i: Addr, j: Addr, sent: real, now: real)
    requires Sane(n) && Arrives(n, i, j, true, sent, now) && j in n.nodes && d != i && d != j && sent >= 0.0
    requires d in n.nodes[i].table.entries && n.nodes[i].table.entries[d].advertiseOkAt <= sent
    requires n.nodes[i].table.entries[d].metric < BIG
    requires KnowsLess(n, j, d, n.nodes[i].table.entries[d].seqnum)
    ensures var e, m := n.nodes[i].table.entries[d], Heard(n, i, j, true, sent, now);
            && HasRoute(m, j, d, i, e.metric + 1, e.seqnum) && m.nodes.Keys == n.nodes.Keys
            && forall x :: x in n.nodes && x != i && x != j ==> m.nodes[x] == n.nodes[x]
  {
    assert NodeSane(n, i);
    var e := n.nodes[i].table.entries[d];
    PeriodicCarries(i, n.nodes[i].seqno, n.nodes[i].table, sent, d);
    HearerLearns(n, i, j, true, sent, now, Advert(d, e.metric, e.seqnum));
  }

  lemma {:induction false} RelayedSane(n: Net, path: seq<Addr>, sent: seq<real>, heard: seq<real>, k: nat)
    requires Sane(n) && k < |path| && |sent| == |heard| == |path| - 1
    ensures Sane(Relayed(n, path, sent, heard, k))
  {
    if k > 0 {
      RelayedSane(n, path, sent, heard, k - 1);
      var m := Relayed(n, path, sent, heard, k - 1);
      if path[k - 1] in m.nodes {
        StepSane(m, MakeUpdate(path[k - 1], true, sent[k - 1]));
        StepSane(Next(m, MakeUpdate(path[k - 1], true, sent[k - 1])),
                 Deliver(path[k], UpdateOf(m, path[k - 1], true, sent[k - 1]), heard[k - 1]));
      }
    }
  }

  /** Whatever was in the tables before: periodic updates along a path, each made
      once the route has settled, give every node of it a route to the first over
      exactly the hops of the path, under the first node's new number. */
  lemma {:induction false} RouteSpreads(n: Net, path: seq<Addr>, sent: seq<real>, heard: seq<real>, k: nat)
    requires Sane(n) && 0 < k < |path| <= BIG && |sent| == |heard| == |path| - 1
    requires forall i :: 0 <= i < |path| ==> path[i] in n.nodes
    requires forall i, j :: 0 <= i < j < |path| ==> path[i] != path[j]
    requires forall i :: 0 <= i < k ==> Passes(n, path, sent, heard, i)
    ensures var m := Relayed(n, path, sent, heard, k);
            && HasRoute(m, path[k], path[0], path[k - 1], k, n.nodes[path[0]].seqno + 2)
            && m.nodes.Keys == n.nodes.Keys
            && forall i :: k < i < |path| ==> m.nodes[path[i]] == n.nodes[path[i]]
  {
    var m := Relayed(n, path, sent, heard, k - 1);
    assert Passes(n, path, sent, heard, k - 1);
    RelayedSane(n, path, sent, heard, k - 1);
    if k == 1 {
      FirstHop(n, path[0], path[1], sent[0], heard[0]);
    } else {
      RouteSpreads(n, path, sent, heard, k - 1);
      OlderStill(n, path[k], path[0]);
      PassedOn(m, path[0], path[k - 1], path[k], sent[k - 1], heard[k - 1]);
    }
  }

  /** No number above the one after the destination's counter is known anywhere. */
  lemma OlderStill(n: Net, i: Addr, d: Addr)
    requires Sane(n) && i in n.nodes && d in n.nodes
    ensures KnowsLess(n, i, d, n.nodes[d].seqno + 2)
  {
    assert NodeSane(n, i);
    var t := n.nodes[i].table;
    if d in t.entries {
      assert EntrySane(n, i, d, t.entries[d]);
    }
  }

  // ---------------------------------------------------------------------
  // Breaks arrive
  // ---------------------------------------------------------------------

  /** Also an update that has become a periodic one reports a break. */
  lemma BreakInUpdate(n: Net, i: Addr, lost: Addr, d: Addr, now: real)
    requires i in n.nodes && d in n.nodes[i].table.entries && d != i && WellFormed(n.nodes[i].table)
    requires n.nodes[i].table.entries[d].hop == lost && n.nodes[i].table.entries[d].metric != BIG
    requires Enabled(n, Timeout(i, lost, now))
    ensures var m := Next(n, Timeout(i, lost, now));
            && WellFormed(m.nodes[i].table)
            && Advert(d, BIG, n.nodes[i].table.entries[d].seqnum + 1) in UpdateOf(m, i, false, now).adverts
            && m.nodes.Keys == n.nodes.Keys && forall x :: x in n.nodes && x != i ==> m.nodes[x] == n.nodes[x]
  {
    var m, a := Next(n, Timeout(i, lost, now)), Advert(d, BIG, n.nodes[i].table.entries[d].seqnum + 1);
    var t := TimedOut(n.nodes[i].table, lost, now);
    assert m.nodes[i] == n.nodes[i].(table := t);
    TimeoutBreaks(n.nodes[i].table, lost, now);
    assert WellFormed(t);
    BreakListed(t, i, n.nodes[i].seqno, now, a);
  }

  lemma BreakListed(t: Table, i: Addr, seqno: int, now: real, a: Advert)
    requires WellFormed(t) && a.dst != i && a.dst in t.entries
    requires var e := t.entries[a.dst];
             e.metric == a.metric && e.seqnum == a.seqnum && e.advertiseOkAt <= now && e.advertMetric
    ensures var periodic := Promoted(t, false, now);
            a in Adverts(Refreshed(i, seqno, t, periodic, now), periodic, now)
  {
    var periodic := Promoted(t, false, now);
    PutWellFormed(t, i, PeriodicOwn(i, seqno + 2, now));
    AdvertsExactly(Refreshed(i, seqno, t, periodic, now), periodic, now, a);
  }

  /** A lost neighbour is told on at once: the triggered update made at the timeout
      takes down the route of every hearer that knew nothing fresher. */
  lemma BreakSpreads(n: Net, i: Addr, lost: Addr, d: Addr, j: Addr, now: real, later: real)
    requires Enabled(n, Timeout(i, lost, now)) && WellFormed(n.nodes[i].table)
    requires d in n.nodes[i].table.entries && d != i && d != j
    requires n.nodes[i].table.entries[d].hop == lost && n.nodes[i].table.entries[d].metric != BIG
    requires KnowsLess(n, j, d, n.nodes[i].table.entries[d].seqnum + 1)
    requires Arrives(Next(n, Timeout(i, lost, now)), i, j, false, now, later)
    ensures HasRoute(Heard(Next(n, Timeout(i, lost, now)), i, j, false, now, later), j, d, i, BIG,
                     n.nodes[i].table.entries[d].seqnum + 1)
  {
    BreakInUpdate(n, i, lost, d, now);
    HearerLearns(Next(n, Timeout(i, lost, now)), i, j, false, now, later,
                 Advert(d, BIG, n.nodes[i].table.entries[d].seqnum + 1));
  }
}
