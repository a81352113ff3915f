/** What the operations of a DSDV agent do to its table, entry by entry: which
    adverts are believed, which routes a timeout breaks, what enters an update
    and when, and which packets wait. */
module DsdvEffects {
  import opened Common
  import opened DsdvCodec
  import opened DsdvQueue
  import opened Dsdv

  /** Nothing but the entry for `d` differs. */
  ghost predicate OnlyEntry(t: Table, u: Table, d: Addr) {
    && (forall x {:trigger x in u.entries} {:trigger x in t.entries} :: x != d ==> (x in u.entries <==> x in t.entries))
    && (forall x {:trigger u.entries[x]} :: x != d && x in t.entries && x in u.entries ==> u.entries[x] == t.entries[x])
  }

  // ---------------------------------------------------------------------
  // Timeouts
  // ---------------------------------------------------------------------

  /** A finite route through the neighbour. */
  predicate Through(e: Rte, neighbour: Addr) {
    e.hop == neighbour && e.metric != BIG
  }

  /** What becomes of a route whose neighbour is lost. When the route was last
      changed stays, so that the infinite metric is not taken for the best one. */
  predicate Lost(e: Rte, f: Rte, now: real) {
    && f.metric == BIG && f.seqnum == e.seqnum + 1 && f.hop == e.hop
    && f.advertiseOkAt == now && f.advertSeqnum && f.advertMetric
    && f.changedAt == e.changedAt && f.newSeqnumAt == e.newSeqnumAt && f.wst == e.wst
    && f.lastAdvertised == e.lastAdvertised && f.queue == e.queue
  }

  /** The timeout of a neighbour leaves no finite route through it: each that there
      was is infinite, under its number plus one. Nothing else changes but that the
      neighbour's own timeout is no longer pending. */
  lemma TimeoutBreaks(t: Table, j: Addr, now: real)
    ensures var u := TimedOut(t, j, now);
            && u.order == t.order && u.entries.Keys == t.entries.Keys
            && (forall d :: d in u.entries ==> !Through(u.entries[d], j))
            && (forall d :: d in t.entries && Through(t.entries[d], j) ==> Lost(t.entries[d], u.entries[d], now))
            && (forall d :: d in t.entries && !Through(t.entries[d], j) && d != j ==> u.entries[d] == t.entries[d])
            && (j in t.entries && !Through(t.entries[j], j) ==> u.entries[j] == t.entries[j].(timeout := false))
            && (forall d :: d in t.entries ==> u.entries[d].timeout == (d != j && t.entries[d].timeout))
  {
    var u, broken := TimedOut(t, j, now), BreakAll(t.entries, j, now);
    forall d | d in t.entries ensures d in u.entries && u.entries[d] == broken[d].(timeout := u.entries[d].timeout) {
    }
  }

  /** And each of them is reported by a triggered update at once. */
  lemma BreaksReported(t: Table, j: Addr, now: real, d: Addr)
    requires WellFormed(t) && d in t.entries && t.entries[d].hop == j && t.entries[d].metric != BIG
    ensures Advert(d, BIG, t.entries[d].seqnum + 1) in Adverts(TimedOut(t, j, now), false, now)
  {
    var u := TimedOut(t, j, now);
    TimeoutBreaks(t, j, now);
    AdvertsExactly(u, false, now, Advert(d, BIG, t.entries[d].seqnum + 1));
  }

  // ---------------------------------------------------------------------
  // One advertised route
  // ---------------------------------------------------------------------

  /** The node has the last word on itself. */
  lemma OwnRouteKept(g: Params, t: Table, from: Addr, a: Advert, now: real)
    requires a.dst == g.self
    ensures Learn(g, t, from, a, now) == t
  {
  }

  /** A destination never heard of gets a route through the neighbour, which a
      triggered update reports if it is finite and has settled. */
  lemma NewRoute(g: Params, t: Table, from: Addr, a: Advert, now: real)
    requires a.dst != g.self && a.dst !in t.entries
    ensures var u := Learn(g, t, from, a, now);
            && OnlyEntry(t, u, a.dst) && u.order == t.order + [a.dst] && a.dst in u.entries
            && var e := u.entries[a.dst];
               && e.hop == from && e.seqnum == a.seqnum && e.metric == (if a.metric == BIG then BIG else a.metric + 1)
               && e.advertMetric == (e.metric < BIG) && !e.advertSeqnum && e.lastAdvertised == 0
               && e.advertiseOkAt == (if a.metric == BIG || a.metric + 1 == BIG then now else now + 2.0 * g.wst0)
               && e.wst == g.wst0 && e.changedAt == now == e.newSeqnumAt && !e.timeout && e.queue == []
  {
  }

  /** The advert is fresher than the route, or as fresh and shorter by a hop. */
  predicate Believed(e: Rte, a: Advert) {
    || a.seqnum > e.seqnum
    || (a.seqnum == e.seqnum && (if a.metric == BIG then BIG else a.metric + 1) < e.metric)
  }

  /** A route as advertised by `from`, with when it may be passed on: at once if it
      breaks or mends the route, else after twice the settling time. */
  predicate TakenOver(g: Params, e: Rte, f: Rte, from: Addr, a: Advert, now: real) {
    && f.hop == from && f.seqnum == a.seqnum && f.metric == (if a.metric == BIG then BIG else a.metric + 1)
    && f.changedAt == now && f.lastAdvertised == e.lastAdvertised && f.timeout == e.timeout
    && f.newSeqnumAt == (if a.seqnum == e.seqnum then e.newSeqnumAt else now)
    && f.wst == (if a.seqnum == e.seqnum then e.wst
                 else g.alpha * e.wst + (1.0 - g.alpha) * (e.changedAt - e.newSeqnumAt))
    && f.advertiseOkAt == (if f.metric == BIG || e.metric == BIG then now else now + 2.0 * f.wst)
  }

  /** A believed advert becomes the route. The new number and the new metric are
      to be advertised, unless the metric is the one advertised last, and packets
      wait no longer than for a finite route. */
  lemma BelievedRoute(g: Params, t: Table, from: Addr, a: Advert, now: real)
    requires a.dst != g.self && a.dst in t.entries && Believed(t.entries[a.dst], a)
    ensures var e, u := t.entries[a.dst], Learn(g, t, from, a, now);
            && OnlyEntry(t, u, a.dst) && u.order == t.order && a.dst in u.entries
            && LearnEnds(g, t, a)
            && var f := u.entries[a.dst];
               && TakenOver(g, e, f, from, a, now)
               && f.advertMetric == (f.metric != e.lastAdvertised)
               && f.advertSeqnum == (e.advertSeqnum || a.seqnum > e.seqnum)
               && f.queue == (if f.metric == BIG then e.queue else [])
  {
  }

  /** An advert that is not believed, with no packets to flush, changes nothing,
      unless a neighbour believes in a stale break: then the own finite route is to
      be advertised at once. */
  lemma UnbelievedRoute(g: Params, t: Table, from: Addr, a: Advert, now: real)
    requires WellFormed(t) && a.dst != g.self && a.dst in t.entries && !Believed(t.entries[a.dst], a)
    requires t.entries[a.dst].queue == [] || a.metric == BIG || a.metric + 1 == BIG
    ensures var e, u := t.entries[a.dst], Learn(g, t, from, a, now);
            && OnlyEntry(t, u, a.dst) && u.order == t.order && a.dst in u.entries
            && var f := u.entries[a.dst];
               if a.seqnum < e.seqnum && (a.metric == BIG || a.metric + 1 == BIG) && e.metric != BIG then
                 && f == e.(advertiseOkAt := now, advertMetric := true)
                 && Advert(a.dst, e.metric, e.seqnum) in Adverts(u, false, now)
               else f == e
  {
    var u := Learn(g, t, from, a, now);
    AdvertsExactly(u, false, now, Advert(a.dst, t.entries[a.dst].metric, t.entries[a.dst].seqnum));
  }

  /** With packets to flush, a finite advert that is not believed is filed all the
      same once the flush ends, under the old flags; while it does not end, the
      route stays. */
  lemma FlushedRoute(g: Params, t: Table, from: Addr, a: Advert, now: real)
    requires a.dst != g.self && a.dst in t.entries && !Believed(t.entries[a.dst], a)
    requires t.entries[a.dst].queue != [] && a.metric != BIG && a.metric + 1 != BIG
    ensures var e, u := t.entries[a.dst], Learn(g, t, from, a, now);
            && OnlyEntry(t, u, a.dst) && u.order == t.order && a.dst in u.entries
            && (LearnEnds(g, t, a) <==> e.metric != BIG || forall w :: w in e.queue ==> !w.own)
            && var f := u.entries[a.dst];
               if LearnEnds(g, t, a) then
                 && TakenOver(g, e, f, from, a, now) && f.queue == []
                 && f.advertMetric == e.advertMetric && f.advertSeqnum == e.advertSeqnum
               else f == e
  {
  }

  /** A believed change is held back until it may be advertised, and from then on
      is in every triggered update until one has carried it. */
  lemma ChangeAnnounced(g: Params, t: Table, from: Addr, a: Advert, now: real, later: real)
    requires WellFormed(t) && a.dst != g.self && a.dst in t.entries && Believed(t.entries[a.dst], a)
    ensures var e, u := t.entries[a.dst], Learn(g, t, from, a, now);
            var metric := if a.metric == BIG then BIG else a.metric + 1;
            && (Advert(a.dst, metric, a.seqnum) in Adverts(u, false, later) <==>
                  && u.entries[a.dst].advertiseOkAt <= later
                  && (a.seqnum > e.seqnum || metric != e.lastAdvertised || e.advertSeqnum))
            && (metric == BIG || e.metric == BIG ==> u.entries[a.dst].advertiseOkAt == now)
  {
    var e, u := t.entries[a.dst], Learn(g, t, from, a, now);
    var metric := if a.metric == BIG then BIG else a.metric + 1;
    BelievedRoute(g, t, from, a, now);
    AdvertsExactly(u, false, later, Advert(a.dst, metric, a.seqnum));
  }

  // ---------------------------------------------------------------------
  // A whole update
  // ---------------------------------------------------------------------

  lemma LearnOnlyEntry(g: Params, t: Table, from: Addr, a: Advert, now: real)
    ensures OnlyEntry(t, Learn(g, t, from, a, now), a.dst)
  {
  }

  /** Records for other destinations leave an entry alone. */
  lemma {:induction false} NotMentioned(g: Params, t: Table, from: Addr, adverts: seq<Advert>, now: real, d: Addr)
    requires forall k :: 0 <= k < |adverts| ==> adverts[k].dst != d
    ensures var u := LearnAll(g, t, from, adverts, now);
            (d in u.entries <==> d in t.entries) && (d in t.entries ==> u.entries[d] == t.entries[d])
  {
    if adverts != [] {
      var last := |adverts| - 1;
      NotMentioned(g, t, from, adverts[..last], now, d);
      LearnOnlyEntry(g, LearnAll(g, t, from, adverts[..last], now), from, adverts[last], now);
    }
  }

  /** What one record makes of an entry depends on that entry only. */
  lemma LearnLocal(g: Params, t: Table, v: Table, from: Addr, a: Advert, now: real)
    requires a.dst in t.entries <==> a.dst in v.entries
    requires a.dst in t.entries ==> t.entries[a.dst] == v.entries[a.dst]
    ensures var t', v' := Learn(g, t, from, a, now), Learn(g, v, from, a, now);
            && (a.dst in t'.entries <==> a.dst in v'.entries)
            && (a.dst in t'.entries ==> t'.entries[a.dst] == v'.entries[a.dst])
  {
  }

  /** Every record of an update counts: with one record for each destination, the
      entry that one is about ends as that record alone leaves it. */
  lemma {:induction false} Mentioned(g: Params, t: Table, from: Addr, adverts: seq<Advert>, now: real, k: nat)
    requires k < |adverts|
    requires forall i, j :: 0 <= i < j < |adverts| ==> adverts[i].dst != adverts[j].dst
    ensures var d, u, v := adverts[k].dst, LearnAll(g, t, from, adverts, now), Learn(g, t, from, adverts[k], now);
            (d in u.entries <==> d in v.entries) && (d in u.entries ==> u.entries[d] == v.entries[d])
  {
    var last := |adverts| - 1;
    var before := LearnAll(g, t, from, adverts[..last], now);
    if k == last {
      NotMentioned(g, t, from, adverts[..last], now, adverts[k].dst);
      LearnLocal(g, before, t, from, adverts[k], now);
    } else {
      Mentioned(g, t, from, adverts[..last], now, k);
      LearnOnlyEntry(g, before, from, adverts[last], now);
    }
  }

  /** At the end of an update the sender's timeout is pending, on a route of one
      hop that is not advertised if it told nothing of itself. */
  lemma SenderWatched(g: Params, t: Table, from: Addr, adverts: seq<Advert>, now: real)
    ensures var v, u := LearnAll(g, t, from, adverts, now), Process(g, t, from, adverts, now);
            && OnlyEntry(v, u, from) && from in u.entries && u.entries[from].timeout
            && (if from in v.entries then u.entries[from] == v.entries[from].(timeout := true)
                else && u.entries[from].hop == from && u.entries[from].metric == 1 && u.entries[from].seqnum == 0
                     && !u.entries[from].advertSeqnum && !u.entries[from].advertMetric
                     && u.entries[from].advertiseOkAt == now + 7.0 * 86400.0)
  {
  }

  // ---------------------------------------------------------------------
  // Making an update
  // ---------------------------------------------------------------------

  /** The destinations whose routes have changed and may be advertised. */
  function Changed(t: Table, now: real): set<Addr> {
    set d | d in t.entries && t.entries[d].advertiseOkAt <= now
            && (t.entries[d].advertSeqnum || t.entries[d].advertMetric)
  }

  /** The destinations of `order` that are in `s`. */
  function Among(order: seq<Addr>, s: set<Addr>): set<Addr> {
    set d | d in order && d in s
  }

  lemma AmongStep(order: seq<Addr>, s: set<Addr>)
    requires order != [] && forall i, j :: 0 <= i < j < |order| ==> order[i] != order[j]
    ensures var last := |order| - 1;
            |Among(order, s)| == |Among(order[..last], s)| + if order[last] in s then 1 else 0
  {
    var last := |order| - 1;
    var d := order[last];
    assert order == order[..last] + [d];
    assert d !in order[..last];
    assert Among(order, s) == Among(order[..last], s) + if d in s then {d} else {};
  }

  lemma {:induction false} SelectedSize(t: Table, order: seq<Addr>, now: real)
    requires forall d :: d in order ==> d in t.entries
    requires forall i, j :: 0 <= i < j < |order| ==> order[i] != order[j]
    ensures |Selected(t.entries, order, false, now)| == |Among(order, Changed(t, now))|
  {
    if order != [] {
      var last := |order| - 1;
      SelectedSize(t, order[..last], now);
      AmongStep(order, Changed(t, now));
    }
  }

  lemma {:induction false} OrderSize(order: seq<Addr>, s: set<Addr>)
    requires forall i, j :: 0 <= i < j < |order| ==> order[i] != order[j]
    requires forall d :: d in order ==> d in s
    ensures |order| == |Among(order, s)|
  {
    if order != [] {
      var last := |order| - 1;
      OrderSize(order[..last], s);
      AmongStep(order, s);
    }
  }

  lemma AmongAll(t: Table, s: set<Addr>)
    requires WellFormed(t) && s <= t.entries.Keys
    ensures Among(t.order, s) == s
  {
    forall d | d in s ensures d in Among(t.order, s) {
      assert d in t.entries;
      assert d in t.order;
    }
  }

  /** A triggered update becomes a periodic one exactly if more than three changes,
      and more than a third of the table, are ready. */
  lemma PromotedExactly(t: Table, periodic: bool, now: real)
    requires WellFormed(t)
    ensures Promoted(t, periodic, now) <==>
            periodic || (|Changed(t, now)| > 3 && |Changed(t, now)| * 3 > |t.entries.Keys|)
  {
    SelectedSize(t, t.order, now);
    OrderSize(t.order, t.entries.Keys);
    AmongAll(t, Changed(t, now));
    AmongAll(t, t.entries.Keys);
  }

  /** A periodic update carries the node itself, under its next number, and every
      route that is not held back. */
  lemma PeriodicCarries(self: Addr, seqno: int, t: Table, now: real, d: Addr)
    requires WellFormed(t) && now >= 0.0
    ensures var u := Refreshed(self, seqno, t, true, now);
            && WellFormed(u) && OnlyEntry(t, u, self)
            && Advert(self, 0, seqno + 2) in Adverts(u, true, now)
            && (d != self && d in t.entries ==>
                  (Advert(d, t.entries[d].metric, t.entries[d].seqnum) in Adverts(u, true, now)
                   <==> t.entries[d].advertiseOkAt <= now))
  {
    var u := Refreshed(self, seqno, t, true, now);
    PutWellFormed(t, self, PeriodicOwn(self, seqno + 2, now));
    AdvertsExactly(u, true, now, Advert(self, 0, seqno + 2));
    if d in t.entries {
      AdvertsExactly(u, true, now, Advert(d, t.entries[d].metric, t.entries[d].seqnum));
    }
  }

  /** At the start the node files itself under its counter, over no hops, and the next
      update reports it. */
  lemma StartAnnounced(self: Addr, seqno: int, t: Table, now: real, later: real, periodic: bool)
    requires WellFormed(t) && 0.0 <= later
    ensures var u := Put(t, self, FirstOwn(self, seqno, now));
            && WellFormed(u) && OnlyEntry(t, u, self) && u.entries[self].hop == self
            && Advert(self, 0, seqno) in Adverts(u, periodic, later)
  {
    var u := Put(t, self, FirstOwn(self, seqno, now));
    PutWellFormed(t, self, FirstOwn(self, seqno, now));
    AdvertsExactly(u, periodic, later, Advert(self, 0, seqno));
  }

  /** After an update, what it carried counts as advertised under its metric, its
      number need not be repeated, nor, after a periodic update, its metric; no
      route itself is touched. */
  lemma Advertised(t: Table, periodic: bool, now: real, d: Addr)
    requires WellFormed(t) && d in t.entries
    ensures d in Marked(t.entries, periodic, now)
    ensures var e, f := t.entries[d], Marked(t.entries, periodic, now)[d];
            if Advert(d, e.metric, e.seqnum) in Adverts(t, periodic, now) then
              && f.lastAdvertised == e.metric && !f.advertSeqnum && f.advertMetric == (e.advertMetric && !periodic)
              && f == e.(lastAdvertised := f.lastAdvertised, advertSeqnum := false, advertMetric := f.advertMetric)
            else f == e
  {
    AdvertsExactly(t, periodic, now, Advert(d, t.entries[d].metric, t.entries[d].seqnum));
  }

  /** After a periodic update nothing is left to report until something changes. */
  lemma NothingLeft(t: Table, now: real)
    requires WellFormed(t)
    ensures Adverts(Table(t.order, Marked(t.entries, true, now)), false, now) == []
  {
    var u := Table(t.order, Marked(t.entries, true, now));
    var left := Adverts(u, false, now);
    if left != [] {
      assert left[0] in left;
      AdvertsExactly(u, false, now, left[0]);
      assert false;
    }
  }

  // ---------------------------------------------------------------------
  // Data packets
  // ---------------------------------------------------------------------

  /** With a usable route nothing waits: the packet goes to the next hop, or to the
      destination itself over one hop. */
  lemma PacketLeaves(g: Params, t: Table, d: Addr, w: Waiting, now: real)
    requires d in t.entries && t.entries[d].metric != BIG
    ensures Received(g, t, d, w, now) == t
    ensures NextHop(t, d) == if t.entries[d].metric > 1 then t.entries[d].hop else d
  {
  }

  /** Without one, a packet that has a hop left, or is own and gets a new TTL, is
      the last to wait, and of more than five the oldest is dropped. A destination
      never heard of is filed as unreachable and not advertised. */
  lemma PacketWaits(g: Params, t: Table, d: Addr, w: Waiting, now: real)
    requires d in t.entries ==> t.entries[d].metric == BIG
    requires w.own || w.ttl > 1
    ensures var u := Received(g, t, d, w, now);
            && OnlyEntry(t, u, d) && d in u.entries && u.entries[d].metric == BIG
            && (d in t.entries ==> u.entries[d] == t.entries[d].(queue := u.entries[d].queue))
            && (d !in t.entries ==> u.entries[d].seqnum == 0 && !u.entries[d].advertSeqnum
                                    && !u.entries[d].advertMetric && u.entries[d].advertiseOkAt > now)
            && var waited: seq<Waiting> := (if d in t.entries then t.entries[d].queue else [])
                                           + [w.(ttl := if w.own then IP_DEF_TTL else w.ttl - 1)];
               u.entries[d].queue == if |waited| <= 5 then waited else waited[1..]
  {
  }

  /** A relayed packet without a hop left is dropped. */
  lemma PacketExpires(g: Params, t: Table, d: Addr, w: Waiting, now: real)
    requires !w.own && w.ttl == 1
    ensures Received(g, t, d, w, now) == t
  {
  }

  /** What a flush with a usable route lets leave: every packet that has a hop left
      or is own, in order. */
  lemma {:induction false} Leaving(q: seq<Waiting>, k: nat)
    requires k < |q|
    ensures var ttl := if q[k].own then IP_DEF_TTL else q[k].ttl - 1;
            Departing(q) == Departing(q[..k]) + (if ttl > 0 then [q[k].(ttl := ttl)] else []) + Departing(q[k + 1..])
  {
    if k > 0 {
      Leaving(q[1..], k - 1);
      assert q[1..][..k - 1] == q[..k][1..];
      assert q[1..][k..] == q[k + 1..];
    }
  }
}
