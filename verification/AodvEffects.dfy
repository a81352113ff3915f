/** What the handlers of an AODV agent do, message by message and route by route:
    who answers or passes on a request, where a reply goes, which routes an error or
    a failure takes down, and how a search widens until it is given up. */
module AodvEffects {
  import opened Common
  import opened Aodv

  /** The same route, whatever its lifetime and its bookkeeping. */
  predicate SameRoute(e: Entry, f: Entry) {
    f.seqno == e.seqno && f.hops == e.hops && f.next == e.next && f.flags == e.flags
  }

  /** A route that is down: it has no hop and an infinite hop count. */
  predicate IsDown(e: Entry) {
    e.flags == Down && e.hops == INFINITY2
  }

  /** No entry but those of `d` and `x` differs. */
  ghost predicate OnlyEntries(v: Node, w: Node, d: Addr, x: Addr) {
    && (forall y {:trigger y in w.entries} {:trigger y in v.entries} ::
          y != d && y != x ==> (y in w.entries <==> y in v.entries))
    && (forall y {:trigger w.entries[y]} :: y != d && y != x && y in v.entries && y in w.entries ==>
          w.entries[y] == v.entries[y])
  }

  // ---------------------------------------------------------------------
  // Requests that arrive
  // ---------------------------------------------------------------------

  /** The node's own request, or one that it remembers. */
  predicate Repeated(self: Addr, v: Node, m: Request) {
    m.src == self || (m.src, m.bid) in v.ids
  }

  lemma RepeatedIgnored(self: Addr, v: Node, m: Request, now: real)
    requires Repeated(self, v, m)
    ensures Requested(self, v, m, now) == Effect(v, [])
  {
  }

  /** The request names a newer number of its source, or a shorter way back, than
      the node has. */
  predicate BringsBack(v: Node, m: Request) {
    var seqno := if m.src in v.entries then v.entries[m.src].seqno else 0;
    var hops := if m.src in v.entries then v.entries[m.src].hops else 255;
    m.srcSeq > seqno || (m.srcSeq == seqno && m.hops < hops)
  }

  /** The node's way back to the source once the request has been heard. */
  predicate WayBack(self: Addr, v: Node, m: Request, now: real, w: Node) {
    && m.src in w.entries && w.ids == v.ids[(m.src, m.bid) := now + 6.0] && w.bid == v.bid
    && w.entries[m.src].expire >= now + 6.0
    && (if BringsBack(v, m) then
          && w.entries[m.src].next == m.from && w.entries[m.src].hops == m.hops
          && w.entries[m.src].seqno == m.srcSeq && w.entries[m.src].flags == Up
          && w.waiting == v.waiting - {m.src}
        else w.waiting == v.waiting && (m.src in v.entries ==> SameRoute(v.entries[m.src], w.entries[m.src])))
  }

  lemma ReversedBack(self: Addr, v: Node, m: Request, now: real, w: Node)
    requires w == Reversed(self, v, m, now)
    ensures WayBack(self, v, m, now, w) && OnlyEntries(v, w, m.src, m.src) && w.seqno == v.seqno
    ensures BringsBack(v, m) ==>
              w.entries[m.src].precursors == if m.src in v.entries then v.entries[m.src].precursors else {}
  {
  }

  /** Every request that is not repeated is remembered for six seconds and leaves
      the way back to its source. */
  lemma ReverseRoute(self: Addr, v: Node, m: Request, now: real)
    requires !Repeated(self, v, m)
    ensures var w := Requested(self, v, m, now).node;
            WayBack(self, v, m, now, w) && OnlyEntries(v, w, m.src, m.dst)
  {
    ReversedBack(self, v, m, now, Reversed(self, v, m, now));
  }

  /** The destination answers every request that is not repeated with exactly one
      reply, sent back over its route to the source, under its own new number: the
      next even one above both its old number and the one asked for. */
  lemma DestinationAnswers(self: Addr, v: Node, m: Request, now: real)
    requires !Repeated(self, v, m) && m.dst == self
    ensures var f := Requested(self, v, m, now);
            && |f.sent| == 1 && f.sent[0].Rrep?
            && var p := f.sent[0].p;
               && p.dst == self && p.hops == 1 && p.requester == m.src && p.from == self
               && p.ttl == NETWORK_DIAMETER && p.lifetime == 10
               && m.src in f.node.entries && p.next == f.node.entries[m.src].next
               && p.dstSeq == f.node.seqno && p.dstSeq % 2 == 0
               && v.seqno < p.dstSeq && m.dstSeq < p.dstSeq
               && (p.dstSeq <= v.seqno + 2 || p.dstSeq <= m.dstSeq + 2)
  {
    ReversedBack(self, v, m, now, Reversed(self, v, m, now));
  }

  /** The node has a finite route as new as the one asked for. */
  predicate KnowsWay(v: Node, m: Request) {
    m.dst in v.entries && v.entries[m.dst].hops != INFINITY2 && v.entries[m.dst].seqno >= m.dstSeq
  }

  /** A node that knows the way answers for the destination with the route it has,
      one hop further, and the two next hops become each other's precursors. */
  lemma KnowingNodeAnswers(self: Addr, v: Node, m: Request, now: real)
    requires !Repeated(self, v, m) && m.dst != self && m.dst != m.src && KnowsWay(v, m)
    ensures var e, f := v.entries[m.dst], Requested(self, v, m, now);
            && |f.sent| == 1 && f.sent[0].Rrep?
            && (var p := f.sent[0].p;
                && p.dst == m.dst && p.dstSeq == e.seqno && p.hops == e.hops + 1 && p.requester == m.src
                && p.from == self && p.ttl == NETWORK_DIAMETER && p.lifetime == (e.expire - now).Floor
                && m.src in f.node.entries && p.next == f.node.entries[m.src].next)
            && f.node.seqno == v.seqno && m.dst in f.node.entries
            && f.node.entries[m.dst] == e.(precursors := e.precursors + {f.node.entries[m.src].next})
            && e.next in f.node.entries[m.src].precursors
  {
    ReversedBack(self, v, m, now, Reversed(self, v, m, now));
  }

  /** Any other node passes the request on while it has hops left: one hop further,
      under the highest number of the destination seen on the way. */
  lemma RequestPassedOn(self: Addr, v: Node, m: Request, now: real)
    requires !Repeated(self, v, m) && m.dst != self && m.dst != m.src && !KnowsWay(v, m)
    ensures var f := Requested(self, v, m, now);
            && f.node.seqno == v.seqno && OnlyEntries(v, f.node, m.src, m.src)
            && (m.ttl == 0 ==> f.sent == [])
            && (m.ttl != 0 ==>
                  && |f.sent| == 1 && f.sent[0].Rreq?
                  && var q := f.sent[0].q;
                     && q.from == self && q.hops == m.hops + 1 && q.ttl == m.ttl && q.src == m.src && q.bid == m.bid
                     && q.srcSeq == m.srcSeq && q.dst == m.dst && q.dstSeq >= m.dstSeq
                     && (m.dst in v.entries ==> q.dstSeq >= v.entries[m.dst].seqno)
                     && (q.dstSeq == m.dstSeq || (m.dst in v.entries && q.dstSeq == v.entries[m.dst].seqno)))
  {
    ReversedBack(self, v, m, now, Reversed(self, v, m, now));
  }

  // ---------------------------------------------------------------------
  // Replies that arrive
  // ---------------------------------------------------------------------

  /** The reply is newer than the route, or as new and shorter. */
  predicate BringsRoute(v: Node, m: Reply) {
    var seqno := if m.dst in v.entries then v.entries[m.dst].seqno else 0;
    var hops := if m.dst in v.entries then v.entries[m.dst].hops else 255;
    m.dstSeq > seqno || (m.dstSeq == seqno && m.hops < hops)
  }

  /** A route set by a reply. */
  predicate SetBy(m: Reply, e: Entry) {
    && e.next == m.from && e.hops == m.hops && e.seqno == m.dstSeq && e.flags == Up
    && e.reqCnt == 0 && e.reqTimeout == 0.0 && e.reqLastTtl == m.hops
  }

  lemma TakenFlushed(self: Addr, v: Node, m: Reply, now: real, w: Node)
    requires BringsRoute(v, m)
    requires var u := Ensured(v, m.dst);
             w == Flushed(self, With(u, m.dst, ForwardEntry(u.entries[m.dst], m, now)), m.dst, now)
    ensures && m.dst in w.entries && SetBy(m, w.entries[m.dst]) && OnlyEntries(v, w, m.dst, m.dst)
            && w.seqno == v.seqno && w.bid == v.bid && w.ids == v.ids && w.waiting == v.waiting - {m.dst}
            && w.entries[m.dst].precursors == (if m.dst in v.entries then v.entries[m.dst].precursors else {})
            && w.entries[m.dst].expire == Lifetime(self, v, m, now)
  {
  }

  /** How long a new route lives: as long as its reply says, or ten seconds if packets
      waited for it. */
  function Lifetime(self: Addr, v: Node, m: Reply, now: real): real {
    if m.dst in v.waiting && m.hops != INFINITY2 && m.dst != self then now + 10.0 else now + m.lifetime as real
  }

  lemma RelayKeeps(self: Addr, v: Node, m: Reply, now: real, w: Node)
    requires m.dst in v.entries && w == Relayed(self, v, m, now).node
    ensures OnlyEntries(v, w, m.dst, m.requester) && w == v.(entries := w.entries)
    ensures m.dst in w.entries
    ensures SetBy(m, v.entries[m.dst]) ==> SetBy(m, w.entries[m.dst])
    ensures m.requester != m.dst ==> w.entries[m.dst].expire == v.entries[m.dst].expire
  {
  }

  /** A reply that brings a route makes it the node's, ends the search and lets the
      waiting packets go. */
  lemma ReplyTaken(self: Addr, v: Node, m: Reply, now: real)
    requires BringsRoute(v, m)
    ensures var w := Replied(self, v, m, now).node;
            && m.dst in w.entries && SetBy(m, w.entries[m.dst]) && OnlyEntries(v, w, m.dst, m.requester)
            && w.seqno == v.seqno && w.bid == v.bid && w.ids == v.ids && w.waiting == v.waiting - {m.dst}
            && (m.requester != m.dst ==> w.entries[m.dst].expire == Lifetime(self, v, m, now))
  {
    var u := Ensured(v, m.dst);
    var w := Flushed(self, With(u, m.dst, ForwardEntry(u.entries[m.dst], m, now)), m.dst, now);
    TakenFlushed(self, v, m, now, w);
    if m.requester != self {
      RelayKeeps(self, w, m, now, Relayed(self, w, m, now).node);
    }
  }

  /** One that does not changes no route and goes no further. */
  lemma ReplyStale(self: Addr, v: Node, m: Reply, now: real)
    requires !BringsRoute(v, m)
    ensures var f := Replied(self, v, m, now);
            && f.sent == [] && OnlyEntries(v, f.node, m.dst, m.dst) && m.dst in f.node.entries
            && (m.dst in v.entries ==> f.node == v) && (m.dst !in v.entries ==> IsDown(f.node.entries[m.dst]))
  {
  }

  /** A reply that brings a route travels on to the next hop towards its requester,
      one hop further, if the node is not the requester, has a finite route to it and
      the reply has hops left; and that next hop becomes a precursor. */
  lemma ReplyPassedOn(self: Addr, v: Node, m: Reply, now: real)
    requires BringsRoute(v, m) && m.requester != m.dst
    ensures var f := Replied(self, v, m, now);
            var known := m.requester in v.entries && v.entries[m.requester].hops != INFINITY2;
            && (m.requester == self || !known || m.ttl == 0 ==> f.sent == [])
            && (m.requester != self && known && m.ttl != 0 ==>
                  f.sent == [Rrep(m.(from := self, hops := m.hops + 1, next := v.entries[m.requester].next))])
            && (m.requester != self && known ==>
                  v.entries[m.requester].next in f.node.entries[m.dst].precursors)
            && (m.requester in v.entries ==>
                  m.requester in f.node.entries && SameRoute(v.entries[m.requester], f.node.entries[m.requester]))
  {
  }

  // ---------------------------------------------------------------------
  // Errors and failures
  // ---------------------------------------------------------------------

  /** A finite route through the neighbour. */
  predicate Leads(v: Node, d: Addr, neighbour: Addr) {
    d in v.entries && v.entries[d].hops != INFINITY2 && v.entries[d].next == neighbour
  }

  /** An item of an error strikes the finite route to its destination through the
      sender, unless the route is newer. */
  predicate Strikes(v: Node, from: Addr, lost: seq<Lost>, k: nat, d: Addr) {
    k < |lost| && lost[k].dst == d && Leads(v, d, from) && v.entries[d].seqno <= lost[k].seqno
  }

  ghost predicate Struck(v: Node, from: Addr, lost: seq<Lost>, d: Addr) {
    exists k: nat :: Strikes(v, from, lost, k, d)
  }

  /** The entry for `d` after an error: down under a number of the error, without
      precursors, if it was struck, and what it was otherwise. */
  ghost predicate AfterError(v: Node, from: Addr, lost: seq<Lost>, d: Addr, w: Node) {
    && (d in w.entries <==> d in v.entries)
    && (!Struck(v, from, lost, d) ==> (d in v.entries ==> w.entries[d] == v.entries[d]))
    && (Struck(v, from, lost, d) ==>
          d in w.entries && IsDown(w.entries[d]) && w.entries[d].precursors == {}
          && exists k: nat :: Strikes(v, from, lost, k, d) && w.entries[d].seqno == lost[k].seqno)
  }

  /** What an error is passed on for: the struck routes that had precursors. */
  ghost predicate PassedFor(v: Node, from: Addr, lost: seq<Lost>, d: Addr, passed: seq<Lost>) {
    (exists l :: l in passed && l.dst == d) <==> Struck(v, from, lost, d) && v.entries[d].precursors != {}
  }

  lemma StruckStep(v: Node, from: Addr, lost: seq<Lost>, d: Addr)
    requires lost != []
    ensures var last := |lost| - 1;
            Struck(v, from, lost, d) <==> Struck(v, from, lost[..last], d) || Strikes(v, from, lost, last, d)
  {
    var last := |lost| - 1;
    forall k: nat | k < last ensures Strikes(v, from, lost, k, d) <==> Strikes(v, from, lost[..last], k, d) {
    }
  }

  lemma AfterItem(v: Node, from: Addr, lost: seq<Lost>, d: Addr, w: Node, u: Node)
    requires lost != [] && (d in v.entries && v.entries[d].hops != INFINITY2 ==> v.entries[d].flags != Down)
    requires w == Erred(v, from, lost[..|lost| - 1]).0 && u == Erred(v, from, lost).0
    requires AfterError(v, from, lost[..|lost| - 1], d, w)
    ensures AfterError(v, from, lost, d, u)
  {
    var last := |lost| - 1;
    StruckStep(v, from, lost, d);
    if Struck(v, from, lost[..last], d) {
      assert u.entries[d] == w.entries[d];
      var k: nat :| Strikes(v, from, lost[..last], k, d) && w.entries[d].seqno == lost[..last][k].seqno;
      assert Strikes(v, from, lost, k, d);
    } else if Strikes(v, from, lost, last, d) {
      assert u.entries[d].seqno == lost[last].seqno;
    }
  }

  /** Which routes an error takes down: exactly the struck ones, where finite routes
      are not down, as `AodvNetwork` proves of every run. */
  lemma {:induction false} ErrorTakesDown(v: Node, from: Addr, lost: seq<Lost>, d: Addr)
    requires d in v.entries && v.entries[d].hops != INFINITY2 ==> v.entries[d].flags != Down
    ensures AfterError(v, from, lost, d, Erred(v, from, lost).0)
  {
    if lost != [] {
      ErrorTakesDown(v, from, lost[..|lost| - 1], d);
      AfterItem(v, from, lost, d, Erred(v, from, lost[..|lost| - 1]).0, Erred(v, from, lost).0);
    }
  }

  /** And for which it is passed on. */
  lemma {:induction false} ErrorPassedOn(v: Node, from: Addr, lost: seq<Lost>, d: Addr)
    requires d in v.entries && v.entries[d].hops != INFINITY2 ==> v.entries[d].flags != Down
    ensures PassedFor(v, from, lost, d, Erred(v, from, lost).1)
  {
    if lost != [] {
      var last := |lost| - 1;
      ErrorTakesDown(v, from, lost[..last], d);
      ErrorPassedOn(v, from, lost[..last], d);
      StruckStep(v, from, lost, d);
      var (w, before) := Erred(v, from, lost[..last]);
      var passed := Erred(v, from, lost).1;
      assert Hit(w, from, lost[last]) && lost[last].dst == d ==> Strikes(v, from, lost, last, d);
      assert forall l :: l in before ==> l in passed;
      assert forall l :: l in passed ==> l in before || l == lost[last];
    }
  }

  /** The whole of an error: the struck routes are down, the others untouched, and
      one error with their numbers goes out for the struck routes that had
      precursors, or none if there are no such. */
  lemma ErrorHeard(self: Addr, v: Node, m: Msg, d: Addr)
    requires m.Rerr? && (d in v.entries && v.entries[d].hops != INFINITY2 ==> v.entries[d].flags != Down)
    ensures var f := Errored(self, v, m);
            && AfterError(v, m.from, m.lost, d, f.node)
            && (f.sent == [] || (|f.sent| == 1 && f.sent[0].Rerr? && f.sent[0].from == self && f.sent[0].lost != []))
            && (Struck(v, m.from, m.lost, d) && v.entries[d].precursors != {} <==>
                f.sent != [] && d in f.node.entries && Lost(d, f.node.entries[d].seqno) in f.sent[0].lost)
  {
    ErrorTakesDown(v, m.from, m.lost, d);
    ErrorPassedOn(v, m.from, m.lost, d);
    ErrorNumbers(v, m.from, m.lost, d);
  }

  /** What is passed on carries the number that the route was taken down under. */
  lemma {:induction false} ErrorNumbers(v: Node, from: Addr, lost: seq<Lost>, d: Addr)
    requires d in v.entries && v.entries[d].hops != INFINITY2 ==> v.entries[d].flags != Down
    ensures var (w, passed) := Erred(v, from, lost);
            forall l :: l in passed && l.dst == d ==> d in w.entries && l.seqno == w.entries[d].seqno
  {
    if lost != [] {
      var last := |lost| - 1;
      ErrorNumbers(v, from, lost[..last], d);
      ErrorTakesDown(v, from, lost[..last], d);
      ErrorPassedOn(v, from, lost[..last], d);
      var (w, before) := Erred(v, from, lost[..last]);
      var (u, passed) := Erred(v, from, lost);
      assert forall l :: l in passed ==> l in before || l == lost[last];
      if Hit(w, from, lost[last]) && lost[last].dst == d {
        assert !Struck(v, from, lost[..last], d);
        assert forall l :: l in before ==> l.dst != d;
      }
    }
  }

  lemma {:induction false} ReportedExactly(entries: map<Addr, Entry>, order: seq<Addr>, neighbour: Addr, l: Lost)
    requires forall d :: d in order ==> d in entries
    ensures l in LostThrough(entries, order, neighbour) <==>
            && l.dst in order && entries[l.dst].hops != INFINITY2 && entries[l.dst].next == neighbour
            && l.seqno == entries[l.dst].seqno + 1
  {
    if order != [] {
      var last := |order| - 1;
      assert order == order[..last] + [order[last]];
      ReportedExactly(entries, order[..last], neighbour, l);
    }
  }

  /** A route after its neighbour was lost: down if it led through the neighbour,
      under its number plus one; and the neighbour is no precursor any more. */
  predicate AfterLoss(e: Entry, neighbour: Addr, f: Entry) {
    && f.precursors == e.precursors - {neighbour}
    && (if e.hops != INFINITY2 && e.next == neighbour then
          IsDown(f) && f.seqno == e.seqno + 1 && f.lastHops == e.hops
        else f == e.(precursors := f.precursors))
  }

  /** A lost neighbour moves the own number by two, takes down every finite route
      through it and no other, and is reported with exactly those routes, if any. */
  lemma NeighbourGone(self: Addr, v: Node, neighbour: Addr, d: Addr)
    requires WellFormed(v) && d in v.entries
    requires v.entries[d].hops != INFINITY2 ==> v.entries[d].flags != Down
    ensures var e, f := v.entries[d], NeighbourLost(self, v, neighbour);
            && f.node.seqno == v.seqno + 2 && f.node.entries.Keys == v.entries.Keys
            && AfterLoss(e, neighbour, f.node.entries[d])
            && (f.sent == [] || (|f.sent| == 1 && f.sent[0].Rerr? && f.sent[0].from == self && f.sent[0].lost != []))
            && (Leads(v, d, neighbour) <==>
                f.sent != [] && exists l :: l in f.sent[0].lost && l.dst == d && l.seqno == e.seqno + 1)
  {
    var l := Lost(d, v.entries[d].seqno + 1);
    ReportedExactly(v.entries, v.order, neighbour, l);
  }

  // ---------------------------------------------------------------------
  // Searching
  // ---------------------------------------------------------------------

  /** The wider of the last ring and the last known distance. */
  function LastRing(e: Entry): int {
    if e.reqLastTtl >= e.lastHops then e.reqLastTtl else e.lastHops
  }

  /** While the route is up, or the last search has not timed out, nothing is asked. */
  lemma SearchWaits(self: Addr, v: Node, d: Addr, now: real, perHop: real)
    requires d in v.entries && (v.entries[d].flags == Up || v.entries[d].reqTimeout > now)
    ensures Asked(self, v, d, now, perHop) == Effect(v, [])
  {
  }

  /** After more than three searches of the whole network without an answer the
      waiting packets are dropped, and the search rests for ten seconds. */
  lemma SearchGivesUp(self: Addr, v: Node, d: Addr, now: real, perHop: real)
    requires d in v.entries && v.entries[d].flags != Up && v.entries[d].reqTimeout <= now && v.entries[d].reqCnt > 3
    ensures var f := Asked(self, v, d, now, perHop);
            && f.sent == [] && f.node.waiting == v.waiting - {d} && f.node.seqno == v.seqno && f.node.bid == v.bid
            && d in f.node.entries && OnlyEntries(v, f.node, d, d)
            && f.node.entries[d] == v.entries[d].(reqTimeout := now + 10.0, reqCnt := 0)
  {
  }

  /** Otherwise one request goes out, under a new own number and a new broadcast id,
      for the number the node knows. Its ring starts at 5 hops, is two hops wider than
      the last one up to 7, and is the whole network from then on; its answer is
      awaited for at most ten seconds. */
  lemma SearchAsks(self: Addr, v: Node, d: Addr, now: real, perHop: real)
    requires d in v.entries && v.entries[d].flags != Up && v.entries[d].reqTimeout <= now && v.entries[d].reqCnt <= 3
    ensures var e, f := v.entries[d], Asked(self, v, d, now, perHop);
            && f.node.seqno == v.seqno + 2 && f.node.bid == v.bid + 1 && f.node.waiting == v.waiting
            && d in f.node.entries && OnlyEntries(v, f.node, d, d) && SameRoute(e, f.node.entries[d])
            && |f.sent| == 1 && f.sent[0].Rreq?
            && var q, g := f.sent[0].q, f.node.entries[d];
               && q.from == self && q.src == self && q.bid == v.bid && q.srcSeq == f.node.seqno && q.hops == 1
               && q.dst == d && q.dstSeq == e.seqno && g.reqLastTtl == q.ttl
               && (LastRing(e) == 0 ==> q.ttl == 5)
               && (LastRing(e) != 0 && LastRing(e) < 7 ==> q.ttl == LastRing(e) + 2)
               && (LastRing(e) >= 7 ==> q.ttl == NETWORK_DIAMETER)
               && g.reqCnt == e.reqCnt + (if LastRing(e) >= 7 then 1 else 0)
               && g.reqTimeout <= now + 10.0
               && var wait := 2.0 * q.ttl as real * perHop * (if g.reqCnt > 0 then g.reqCnt as real else 1.0);
                  (wait <= 10.0 ==> g.reqTimeout == now + wait) && (wait > 10.0 ==> g.reqTimeout == now + 10.0)
  {
  }

  /** The node after `k` requests for `d`, each made when the one before it has timed
      out. */
  function Searched(self: Addr, v: Node, d: Addr, at: seq<real>, perHop: real, k: nat): Node
    requires k <= |at| && d in v.entries
    ensures d in Searched(self, v, d, at, perHop, k).entries
  {
    if k == 0 then v else Asked(self, Searched(self, v, d, at, perHop, k - 1), d, at[k - 1], perHop).node
  }

  /** The rings of an unanswered search from scratch. */
  function Ring(k: nat): int {
    if k == 0 then 5 else if k == 1 then 7 else 30
  }

  /** The search for `d`, begun from scratch in `v`, has asked `k` times in vain. */
  predicate InVain(v: Node, w: Node, d: Addr, k: nat) {
    && d in v.entries && d in w.entries
    && w.bid == v.bid + k && w.seqno == v.seqno + 2 * k && w.waiting == v.waiting
    && w.entries[d].flags == v.entries[d].flags && w.entries[d].lastHops == 0
    && w.entries[d].reqLastTtl == (if k == 0 then 0 else Ring(k - 1))
    && w.entries[d].reqCnt == (if k <= 2 then 0 else k - 2)
  }

  /** The next request of such a search. */
  lemma AsksInVain(self: Addr, v: Node, w: Node, d: Addr, now: real, perHop: real, k: nat)
    requires InVain(v, w, d, k) && w.entries[d].flags != Up && w.entries[d].reqTimeout <= now && k < 6
    ensures var f := Asked(self, w, d, now, perHop);
            InVain(v, f.node, d, k + 1) && |f.sent| == 1 && f.sent[0].Rreq? && f.sent[0].q.ttl == Ring(k)
  {
    SearchAsks(self, w, d, now, perHop);
    assert LastRing(w.entries[d]) == w.entries[d].reqLastTtl;
  }

  lemma {:induction false} SearchedInVain(self: Addr, v: Node, d: Addr, at: seq<real>, perHop: real, k: nat)
    requires k <= |at| && d in v.entries && k <= 6
    requires var e := v.entries[d]; e.flags != Up && e.reqCnt == 0 && e.reqLastTtl == 0 && e.lastHops == 0
    requires forall j :: 0 <= j < k ==> Searched(self, v, d, at, perHop, j).entries[d].reqTimeout <= at[j]
    ensures InVain(v, Searched(self, v, d, at, perHop, k), d, k)
  {
    if k > 0 {
      SearchedInVain(self, v, d, at, perHop, k - 1);
      AsksInVain(self, v, Searched(self, v, d, at, perHop, k - 1), d, at[k - 1], perHop, k - 1);
    }
  }

  /** An unanswered search from scratch asks exactly six times, first 5 hops far, then
      7, then four times the whole network; the seventh time it gives up. */
  lemma SearchWidens(self: Addr, v: Node, d: Addr, at: seq<real>, perHop: real, k: nat)
    requires k < |at| && d in v.entries && k <= 6
    requires var e := v.entries[d]; e.flags != Up && e.reqCnt == 0 && e.reqLastTtl == 0 && e.lastHops == 0
    requires forall j :: 0 <= j <= k ==> Searched(self, v, d, at, perHop, j).entries[d].reqTimeout <= at[j]
    ensures var f := Asked(self, Searched(self, v, d, at, perHop, k), d, at[k], perHop);
            && (k < 6 ==> |f.sent| == 1 && f.sent[0].Rreq? && f.sent[0].q.ttl == Ring(k))
            && (k == 6 ==> f.sent == [] && f.node.waiting == v.waiting - {d})
  {
    SearchedInVain(self, v, d, at, perHop, k);
    var w := Searched(self, v, d, at, perHop, k);
    if k < 6 {
      AsksInVain(self, v, w, d, at[k], perHop, k);
    } else {
      SearchGivesUp(self, w, d, at[k], perHop);
    }
  }

  // ---------------------------------------------------------------------
  // Packets
  // ---------------------------------------------------------------------

  /** The entry a packet for `d` is resolved by: a missing one is down. */
  predicate EntryFor(v: Node, d: Addr, e: Entry) {
    if d in v.entries then e == v.entries[d]
    else IsDown(e) && e.seqno == 0 && e.reqTimeout == 0.0 && e.reqCnt == 0 && e.reqLastTtl == 0 && e.lastHops == 0
  }

  /** A packet with a route that is up uses it, and keeps it alive for ten seconds. */
  lemma PacketForwarded(self: Addr, v: Node, origin: Addr, d: Addr, now: real, perHop: real)
    requires d in v.entries && v.entries[d].flags == Up
    ensures var f := Resolved(self, v, origin, d, now, perHop);
            && f.sent == [] && f.node == v.(entries := f.node.entries) && OnlyEntries(v, f.node, d, d)
            && d in f.node.entries && SameRoute(v.entries[d], f.node.entries[d])
            && (d != self ==> f.node.entries[d].expire == now + 10.0)
  {
  }

  /** Without one, an own packet waits and a request is made, as soon as the last one
      has timed out. */
  lemma OwnPacketAsks(self: Addr, v: Node, d: Addr, now: real, perHop: real, e: Entry)
    requires EntryFor(v, d, e) && e.flags != Up && e.reqCnt <= 3
    ensures var f := Resolved(self, v, self, d, now, perHop);
            && f.node.waiting == v.waiting + {d} && d in f.node.entries
            && (e.reqTimeout > now ==> f.sent == [])
            && (e.reqTimeout <= now && now >= 0.0 ==>
                  |f.sent| == 1 && f.sent[0].Rreq? && f.sent[0].q.src == self && f.sent[0].q.dst == d
                  && f.sent[0].q.dstSeq == e.seqno)
  {
  }

  /** The packet of another node waits if its route is under repair; else it is
      answered by an error under the number of the lost route. */
  lemma RelayedPacketFails(self: Addr, v: Node, origin: Addr, d: Addr, now: real, perHop: real, e: Entry)
    requires origin != self && EntryFor(v, d, e) && e.flags != Up
    ensures var f := Resolved(self, v, origin, d, now, perHop);
            && f.node.seqno == v.seqno && f.node.bid == v.bid && d in f.node.entries
            && f.node.entries[d].seqno == e.seqno && (d in v.entries ==> f.node.entries == v.entries)
            && (e.flags == InRepair ==> f.sent == [] && f.node.waiting == v.waiting + {d})
            && (e.flags == Down ==> f.sent == [Rerr(self, [Lost(d, e.seqno)])] && f.node.waiting == v.waiting)
  {
  }

  // ---------------------------------------------------------------------
  // The purge and local repair
  // ---------------------------------------------------------------------

  /** An entry after the purge: an expired route is down under its number plus one
      and its packets are dropped, a live route lets its packets go, and any other
      keeps its number and its packets, unless their search is given up. */
  predicate AfterPurge(d: Addr, v: Node, now: real, w: Node) {
    && d in v.entries && d in w.entries
    && var e, f := v.entries[d], w.entries[d];
       && (e.flags == Up && e.expire < now ==> IsDown(f) && f.seqno == e.seqno + 1 && d !in w.waiting)
       && (e.flags == Up && e.expire >= now ==> SameRoute(e, f) && d !in w.waiting)
       && (e.flags != Up ==> SameRoute(e, f) && (d in w.waiting ==> d in v.waiting))
       && (e.flags != Up && d in v.waiting && d !in w.waiting ==> e.reqCnt > 3)
  }

  /** Packets wait for a route that is not up, and a request is due. */
  predicate Due(d: Addr, v: Node, now: real) {
    && d in v.entries && d in v.waiting && v.entries[d].flags != Up
    && v.entries[d].reqTimeout <= now && v.entries[d].reqCnt <= 3
  }

  /** The same of one destination. */
  predicate SameFor(d: Addr, v: Node, w: Node) {
    (d in v.entries <==> d in w.entries) && (d in v.entries ==> v.entries[d] == w.entries[d])
    && (d in v.waiting <==> d in w.waiting)
  }

  ghost predicate AsksFor(sent: seq<Msg>, d: Addr) {
    exists m :: m in sent && m.Rreq? && m.q.dst == d
  }

  /** One entry of the purge concerns its own destination only. */
  lemma PurgeStep(self: Addr, f: Effect, x: Addr, now: real, perHop: real, d: Addr)
    requires x in f.node.entries
    ensures var g := PurgedOne(self, f, x, now, perHop);
            && (d != x ==> SameFor(d, f.node, g.node) && (AsksFor(g.sent, d) <==> AsksFor(f.sent, d)))
            && AfterPurge(x, f.node, now, g.node)
            && (AsksFor(g.sent, x) <==> AsksFor(f.sent, x) || Due(x, f.node, now))
  {
    var g := PurgedOne(self, f, x, now, perHop);
    if x in f.node.waiting && f.node.entries[x].flags != Up {
      var a := Asked(self, f.node, x, now, perHop);
      assert g.sent == f.sent + a.sent;
      if a.sent != [] {
        assert a.sent[0] in g.sent;
      }
      assert forall m :: m in g.sent <==> m in f.sent || m in a.sent;
    }
  }

  lemma {:induction false} PurgeSkips(self: Addr, v: Node, order: seq<Addr>, now: real, perHop: real, d: Addr)
    requires d !in order && forall x :: x in order ==> x in v.entries
    ensures var f := Purged(self, v, order, now, perHop);
            SameFor(d, v, f.node) && !AsksFor(f.sent, d) && f.node.entries.Keys == v.entries.Keys
  {
    if order != [] {
      var last := |order| - 1;
      PurgeSkips(self, v, order[..last], now, perHop, d);
      PurgeStep(self, Purged(self, v, order[..last], now, perHop), order[last], now, perHop, d);
    }
  }

  /** The purge treats each entry by itself, and asks for exactly those destinations
      for which a request is due. */
  lemma {:induction false} PurgeEntry(self: Addr, v: Node, order: seq<Addr>, now: real, perHop: real, d: Addr)
    requires d in order && forall x :: x in order ==> x in v.entries
    requires forall i, j :: 0 <= i < j < |order| ==> order[i] != order[j]
    ensures var f := Purged(self, v, order, now, perHop);
            AfterPurge(d, v, now, f.node) && (AsksFor(f.sent, d) <==> Due(d, v, now))
  {
    var last := |order| - 1;
    var f := Purged(self, v, order[..last], now, perHop);
    assert order == order[..last] + [order[last]];
    if order[last] == d {
      PurgeSkips(self, v, order[..last], now, perHop, d);
      PurgeStep(self, f, d, now, perHop, d);
    } else {
      PurgeEntry(self, v, order[..last], now, perHop, d);
      PurgeSome(self, v, order[..last], now, perHop, order[last]);
      PurgeStep(self, f, order[last], now, perHop, d);
    }
  }

  lemma PurgeSome(self: Addr, v: Node, order: seq<Addr>, now: real, perHop: real, d: Addr)
    requires d !in order && d in v.entries && forall x :: x in order ==> x in v.entries
    ensures d in Purged(self, v, order, now, perHop).node.entries
  {
    PurgeSkips(self, v, order, now, perHop, d);
  }

  /** A repair marks its route, keeps its number and hops, lets the packet wait and
      asks for the route when a request is due. */
  lemma RepairStarts(self: Addr, v: Node, d: Addr, now: real, perHop: real)
    requires d in v.entries && v.entries[d].reqCnt <= 3
    ensures var e, f := v.entries[d], Repairing(self, v, d, now, perHop);
            && d in f.node.entries && f.node.entries[d].flags == InRepair && f.node.waiting == v.waiting + {d}
            && SameRoute(e, f.node.entries[d].(flags := e.flags))
            && OnlyEntries(v, f.node, d, d) && (AsksFor(f.sent, d) <==> e.reqTimeout <= now)
  {
    var f := Repairing(self, v, d, now, perHop);
    if v.entries[d].reqTimeout <= now {
      assert f.sent[0] in f.sent;
    }
  }

  /** A repair that times out takes the route down under its old number, unless the
      route is up again. */
  lemma RepairEnds(v: Node, d: Addr)
    requires d in v.entries && (v.entries[d].flags == Down ==> v.entries[d].hops == INFINITY2)
    ensures var w := RepairFailed(v, d);
            && d in w.entries && OnlyEntries(v, w, d, d) && w == v.(entries := w.entries)
            && (v.entries[d].flags == Up ==> w == v)
            && (v.entries[d].flags != Up ==> IsDown(w.entries[d]) && w.entries[d].seqno == v.entries[d].seqno)
  {
  }

  /** A request is remembered until its time has passed, and no longer. */
  lemma IdsRemembered(ids: map<(Addr, int), real>, now: real, k: (Addr, int))
    ensures k in IdsKept(ids, now) <==> k in ids && ids[k] > now
    ensures k in IdsKept(ids, now) ==> IdsKept(ids, now)[k] == ids[k]
  {
  }
}
