/** Route discovery in a network of AODV agents: a request that travels along a
    path, and the reply that comes back, leave every node of the path with a route
    to the destination along it, whatever the tables held before. */
module AodvDiscovery {
  import opened Common
  import opened Aodv
  import opened AodvNetwork
  import AodvEffects

  /** Node `i` has an up route to `d`. */
  predicate Routes(n: Net, i: Addr, d: Addr, next: Addr, hops: int, seqno: int) {
    && i in n.nodes && d in n.nodes[i].entries
    && var e := n.nodes[i].entries[d];
       e.flags == Up && e.next == next && e.hops == hops && e.seqno == seqno
  }

  /** All that node `i` has of `d` is older than the number. */
  predicate OlderThan(n: Net, i: Addr, d: Addr, seqno: int) {
    i in n.nodes && (d in n.nodes[i].entries ==> n.nodes[i].entries[d].seqno < seqno)
  }

  /** The network has moved on at one node only. */
  ghost predicate MovedAt(n: Net, m: Net, i: Addr) {
    && m.nodes.Keys == n.nodes.Keys && n.sent <= m.sent
    && forall x {:trigger m.nodes[x]} :: x in n.nodes && x != i ==> m.nodes[x] == n.nodes[x]
  }

  predicate SameNode(n: Net, m: Net, i: Addr) {
    i in n.nodes && i in m.nodes && m.nodes[i] == n.nodes[i]
  }

  lemma StepMoves(n: Net, s: Step)
    ensures MovedAt(n, Next(n, s), s.node)
  {
  }

  /** A node that passes a request on sets its way back to where it came from. */
  lemma RequestHop(n: Net, i: Addr, q: Request, now: real) returns (r: Request)
    requires Enabled(n, Deliver(i, Rreq(q), now)) && i != q.src && i != q.dst && q.src != q.dst
    requires (q.src, q.bid) !in n.nodes[i].ids && q.ttl > 1 && q.srcSeq > 0
    requires OlderThan(n, i, q.src, q.srcSeq) && !AodvEffects.KnowsWay(n.nodes[i], q)
    ensures var m := Next(n, Deliver(i, Rreq(q), now));
            && MovedAt(n, m, i) && Routes(m, i, q.src, q.from, q.hops, q.srcSeq) && Rreq(r) in m.sent
            && r == q.(from := i, ttl := q.ttl - 1, hops := q.hops + 1, dstSeq := r.dstSeq) && r.dstSeq >= q.dstSeq
  {
    var v, f := n.nodes[i], Outcome(n, Deliver(i, Rreq(q), now));
    AodvEffects.ReverseRoute(i, v, Hopped(q), now);
    AodvEffects.RequestPassedOn(i, v, Hopped(q), now);
    r := f.sent[0].q;
    assert f.sent[0] in f.sent;
  }

  /** The destination sends its reply to where the request came from. */
  lemma RequestEnds(n: Net, q: Request, now: real) returns (p: Reply)
    requires Sane(n) && Enabled(n, Deliver(q.dst, Rreq(q), now)) && q.src != q.dst
    requires (q.src, q.bid) !in n.nodes[q.dst].ids && q.srcSeq > 0 && OlderThan(n, q.dst, q.src, q.srcSeq)
    ensures var m := Next(n, Deliver(q.dst, Rreq(q), now));
            && MovedAt(n, m, q.dst) && Rrep(p) in m.sent
            && p == Reply(q.dst, NETWORK_DIAMETER, q.from, q.src, q.dst, m.nodes[q.dst].seqno, 1, p.lifetime)
            && p.dstSeq > 0 && forall i :: i in n.nodes ==> OlderThan(n, i, q.dst, p.dstSeq)
  {
    var v, f := n.nodes[q.dst], Outcome(n, Deliver(q.dst, Rreq(q), now));
    assert NodeSane(n, q.dst);
    AodvEffects.ReverseRoute(q.dst, v, Hopped(q), now);
    AodvEffects.DestinationAnswers(q.dst, v, Hopped(q), now);
    AnswerOutruns(n, q, now);
    p := f.sent[0].p;
    assert f.sent[0] in f.sent;
  }

  /** A node takes the route of a newer reply, and passes it on along its way to the
      requester. */
  lemma ReplyHop(n: Net, i: Addr, p: Reply, now: real)
    requires Enabled(n, Deliver(i, Rrep(p), now)) && OlderThan(n, i, p.dst, p.dstSeq) && p.dstSeq > 0
    requires p.requester != p.dst
    ensures var m := Next(n, Deliver(i, Rrep(p), now));
            && MovedAt(n, m, i) && Routes(m, i, p.dst, p.from, p.hops, p.dstSeq)
            && (i != p.requester && p.requester in n.nodes[i].entries
                && n.nodes[i].entries[p.requester].hops != INFINITY2 && p.ttl > 1 ==>
                  Rrep(p.(from := i, ttl := p.ttl - 1, hops := p.hops + 1,
                          next := n.nodes[i].entries[p.requester].next)) in m.sent)
  {
    var v, f := n.nodes[i], Outcome(n, Deliver(i, Rrep(p), now));
    AodvEffects.ReplyTaken(i, v, HoppedBack(p), now);
    AodvEffects.ReplyPassedOn(i, v, HoppedBack(p), now);
    if f.sent != [] {
      assert f.sent[0] in f.sent;
    }
  }

  // ---------------------------------------------------------------------
  // There and back
  // ---------------------------------------------------------------------

  /** A simple path of nodes, its first node the source of a request that is on the
      air, its last the destination. */
  ghost predicate OnPath(n: Net, path: seq<Addr>, q: Request) {
    && |path| >= 2 && q.from == q.src == path[0] && q.dst == path[|path| - 1] && Rreq(q) in n.sent
    && (forall i :: 0 <= i < |path| ==> path[i] in n.nodes)
    && (forall i, j :: 0 <= i < j < |path| ==> path[i] != path[j])
  }

  /** The request is the first and newest of its source, and wide enough for the path;
      nobody on the path has heard it, and nobody but the destination can answer. */
  ghost predicate Fresh(n: Net, path: seq<Addr>, q: Request)
    requires OnPath(n, path, q)
  {
    && q.hops == 1 && q.srcSeq > 0 && |path| - 1 <= q.ttl <= NETWORK_DIAMETER
    && (forall i :: 0 < i < |path| ==> OlderThan(n, path[i], q.src, q.srcSeq))
    && (forall i :: 0 < i < |path| ==> (q.src, q.bid) !in n.nodes[path[i]].ids)
    && (forall i :: 0 < i < |path| - 1 ==> !AodvEffects.KnowsWay(n.nodes[path[i]], q))
  }

  /** The request has been passed on by the first `k` nodes after the source. */
  ghost predicate Travelled(n: Net, path: seq<Addr>, q: Request, k: nat, m: Net, r: Request)
    requires k < |path|
  {
    && m.nodes.Keys == n.nodes.Keys && Rreq(r) in m.sent
    && r == q.(from := path[k], ttl := q.ttl - k, hops := k + 1, dstSeq := r.dstSeq) && r.dstSeq >= q.dstSeq
    && (forall i :: 0 < i <= k ==> Routes(m, path[i], q.src, path[i - 1], i, q.srcSeq))
    && (forall i :: k < i < |path| ==> SameNode(n, m, path[i]))
  }

  /** The steps of the request, one delivery after the other along the path. */
  ghost predicate RequestSteps(path: seq<Addr>, steps: seq<Step>) {
    |steps| < |path|
    && forall k :: 0 <= k < |steps| ==> steps[k].Deliver? && steps[k].node == path[k + 1] && steps[k].msg.Rreq?
  }

  lemma AfterOne(n: Net, steps: seq<Step>, s: Step)
    ensures After(n, steps + [s]) == Next(After(n, steps), s)
  {
    assert (steps + [s])[..|steps|] == steps;
  }

  lemma TravelStep(n: Net, path: seq<Addr>, q: Request, k: nat, m: Net, r: Request, now: real) returns (x: Request)
    requires k + 2 < |path| && OnPath(n, path, q) && Fresh(n, path, q) && Travelled(n, path, q, k, m, r)
    ensures Travelled(n, path, q, k + 1, Next(m, Deliver(path[k + 1], Rreq(r), now)), x)
  {
    x := RequestHop(m, path[k + 1], r, now);
  }

  lemma RequestStepsMore(path: seq<Addr>, steps: seq<Step>, s: Step)
    requires RequestSteps(path, steps) && |steps| + 1 < |path|
    requires s.Deliver? && s.msg.Rreq? && s.node == path[|steps| + 1]
    ensures RequestSteps(path, steps + [s])
  {
  }

  lemma {:induction false} RequestTravels(n: Net, path: seq<Addr>, q: Request, at: seq<real>, k: nat)
    returns (steps: seq<Step>, r: Request)
    requires k + 1 < |path| <= |at| && OnPath(n, path, q) && Fresh(n, path, q)
    ensures |steps| == k && RequestSteps(path, steps) && Travelled(n, path, q, k, After(n, steps), r)
  {
    if k == 0 {
      steps, r := [], q;
    } else {
      var before, x := RequestTravels(n, path, q, at, k - 1);
      var s := Deliver(path[k], Rreq(x), at[k]);
      r := TravelStep(n, path, q, k - 1, After(n, before), x, at[k]);
      AfterOne(n, before, s);
      steps := before + [s];
    }
  }

  /** The reply has been taken by the last `k` nodes before the destination, and the
      one after them is to hear it next. */
  ghost predicate Returned(m: Net, path: seq<Addr>, q: Request, p: Reply, k: nat, b: Net)
    requires 0 < |path| && k < |path|
  {
    var last := |path| - 1;
    && b.nodes.Keys == m.nodes.Keys
    && (forall i :: last - k <= i < last ==> Routes(b, path[i], q.dst, path[i + 1], last - i, p.dstSeq))
    && (forall i :: 0 <= i < last - k ==> SameNode(m, b, path[i]))
    && (k < last ==> Rrep(p.(from := path[last - k], ttl := NETWORK_DIAMETER - k, hops := k + 1,
                              next := path[last - k - 1])) in b.sent)
  }

  /** What the way back needs: the ways that the request left, and nothing newer than
      the reply. */
  ghost predicate WayOpen(m: Net, path: seq<Addr>, q: Request, p: Reply) {
    && 2 <= |path| <= NETWORK_DIAMETER + 1 && p.dst == q.dst == path[|path| - 1] && p.requester == q.src == path[0]
    && p.dstSeq > 0 && p.hops == 1 && p.from == q.dst && p.ttl == NETWORK_DIAMETER && p.next == path[|path| - 2]
    && (forall i, j :: 0 <= i < j < |path| ==> path[i] != path[j])
    && (forall i :: 0 <= i < |path| - 1 ==> OlderThan(m, path[i], q.dst, p.dstSeq))
    && (forall i :: 0 < i < |path| - 1 ==> Routes(m, path[i], q.src, path[i - 1], i, q.srcSeq))
  }

  lemma ReturnStep(m: Net, path: seq<Addr>, q: Request, p: Reply, k: nat, b: Net, now: real) returns (s: Step)
    requires WayOpen(m, path, q, p) && k + 1 < |path| && Returned(m, path, q, p, k, b)
    ensures s.Deliver? && s.msg.Rrep? && s.node == path[|path| - 2 - k] && Returned(m, path, q, p, k + 1, Next(b, s))
  {
    var last := |path| - 1;
    var x := p.(from := path[last - k], ttl := NETWORK_DIAMETER - k, hops := k + 1, next := path[last - k - 1]);
    var i := path[last - k - 1];
    s := Deliver(i, Rrep(x), now);
    assert SameNode(m, b, i);
    ReplyHop(b, i, x, now);
    var c := Next(b, s);
    if k + 1 < last {
      var y := p.(from := i, ttl := NETWORK_DIAMETER - (k + 1), hops := k + 2, next := path[last - k - 2]);
      assert Routes(m, i, q.src, path[last - k - 2], last - k - 1, q.srcSeq);
      assert Rrep(y) in c.sent;
    }
  }

  /** The steps of the reply, one delivery after the other back along the path. */
  ghost predicate ReplySteps(path: seq<Addr>, steps: seq<Step>) {
    |steps| < |path|
    && forall k :: 0 <= k < |steps| ==>
         steps[k].Deliver? && steps[k].node == path[|path| - 2 - k] && steps[k].msg.Rrep?
  }

  lemma ReplyStepsMore(path: seq<Addr>, steps: seq<Step>, s: Step)
    requires ReplySteps(path, steps) && |steps| + 1 < |path|
    requires s.Deliver? && s.msg.Rrep? && s.node == path[|path| - 2 - |steps|]
    ensures ReplySteps(path, steps + [s])
  {
  }

  lemma ReturnExtends(m: Net, path: seq<Addr>, q: Request, p: Reply, before: seq<Step>, b: Net, now: real)
    returns (steps: seq<Step>)
    requires WayOpen(m, path, q, p) && |before| + 1 < |path| && ReplySteps(path, before)
    requires b == After(m, before) && Returned(m, path, q, p, |before|, b)
    ensures |steps| == |before| + 1 && ReplySteps(path, steps)
    ensures Returned(m, path, q, p, |before| + 1, After(m, steps))
  {
    var s := ReturnStep(m, path, q, p, |before|, b, now);
    AfterOne(m, before, s);
    ReplyStepsMore(path, before, s);
    steps := before + [s];
  }

  lemma {:induction false} ReplyReturns(m: Net, path: seq<Addr>, q: Request, p: Reply, at: seq<real>, k: nat)
    returns (steps: seq<Step>)
    requires WayOpen(m, path, q, p) && k < |path| <= |at| && Returned(m, path, q, p, 0, m)
    ensures |steps| == k && ReplySteps(path, steps) && Returned(m, path, q, p, k, After(m, steps))
  {
    if k == 0 {
      steps := [];
    } else {
      var before := ReplyReturns(m, path, q, p, at, k - 1);
      steps := ReturnExtends(m, path, q, p, before, After(m, before), at[k]);
    }
  }

  lemma {:induction false} AfterBoth(n: Net, a: seq<Step>, b: seq<Step>)
    ensures After(n, a + b) == After(After(n, a), b)
  {
    if b == [] {
      assert a + b == a;
    } else {
      var last := |b| - 1;
      AfterBoth(n, a, b[..last]);
      assert (a + b)[..|a + b| - 1] == a + b[..last];
    }
  }

  lemma {:induction false} AfterSane(n: Net, steps: seq<Step>)
    requires Sane(n)
    ensures Sane(After(n, steps))
  {
    if steps != [] {
      AfterSane(n, steps[..|steps| - 1]);
      StepSane(After(n, steps[..|steps| - 1]), steps[|steps| - 1]);
    }
  }

  /** Where the request ends, the way back begins. */
  lemma TurningPoint(n: Net, path: seq<Addr>, q: Request, m: Net, r: Request, now: real) returns (p: Reply)
    requires OnPath(n, path, q) && Fresh(n, path, q) && Sane(m) && Travelled(n, path, q, |path| - 2, m, r)
    ensures var c := Next(m, Deliver(q.dst, Rreq(r), now));
            WayOpen(c, path, q, p) && Returned(c, path, q, p, 0, c)
  {
    var last := |path| - 1;
    assert SameNode(n, m, path[last]);
    p := RequestEnds(m, r, now);
    var c := Next(m, Deliver(q.dst, Rreq(r), now));
    forall i | 0 <= i < last ensures OlderThan(c, path[i], q.dst, p.dstSeq) {
      assert path[i] in n.nodes;
      assert OlderThan(m, path[i], q.dst, p.dstSeq);
    }
    forall i | 0 < i < last ensures Routes(c, path[i], q.src, path[i - 1], i, q.srcSeq) {
      assert Routes(m, path[i], q.src, path[i - 1], i, q.srcSeq);
    }
    assert p == p.(from := path[last], ttl := NETWORK_DIAMETER - 0, hops := 0 + 1, next := path[last - 1]);
  }

  /** After a fresh request has gone along the path and the reply has come back, each
      node of the path has an up route to the destination: its next hop is the next
      node, its hop count the distance left, its number the destination's new one. */
  lemma DiscoveryFindsRoute(n: Net, path: seq<Addr>, q: Request, at: seq<real>) returns (steps: seq<Step>, seqno: int)
    requires Sane(n) && OnPath(n, path, q) && Fresh(n, path, q) && |at| == |path|
    ensures var last := |path| - 1;
            && |steps| == 2 * last && RequestSteps(path, steps[..last]) && ReplySteps(path, steps[last..])
            && forall i :: 0 <= i < last ==> Routes(After(n, steps), path[i], q.dst, path[i + 1], last - i, seqno)
  {
    var last := |path| - 1;
    var there, r := RequestTravels(n, path, q, at, last - 1);
    var m := After(n, there);
    AfterSane(n, there);
    var p := TurningPoint(n, path, q, m, r, at[last]);
    var s := Deliver(q.dst, Rreq(r), at[last]);
    AfterOne(n, there, s);
    RequestStepsMore(path, there, s);
    var c := Next(m, s);
    var back := ReplyReturns(c, path, q, p, at, last);
    AfterBoth(n, there + [s], back);
    steps, seqno := there + [s] + back, p.dstSeq;
    assert steps[..last] == there + [s] && steps[last..] == back;
  }

  // ---------------------------------------------------------------------
  // Broadcast ids, in every run
  // ---------------------------------------------------------------------

  /** A broadcast id that its source has given out. */
  predicate GivenOut(n: Net, src: Addr, bid: int) {
    src in n.nodes ==> bid < n.nodes[src].bid
  }

  ghost predicate IdsIssued(n: Net) {
    && (forall i, k {:trigger k in n.nodes[i].ids} :: i in n.nodes && k in n.nodes[i].ids ==> GivenOut(n, k.0, k.1))
    && (forall m {:trigger m in n.sent} :: m in n.sent && m.Rreq? ==> GivenOut(n, m.q.src, m.q.bid))
  }

  /** A request that node `i` makes itself, or the one that it has just heard. */
  predicate OwnOrHeard(i: Addr, w: Node, s: Step, src: Addr, bid: int) {
    || (src == i && bid < w.bid)
    || (s.Deliver? && s.msg.Rreq? && s.msg.q.src == src && s.msg.q.bid == bid)
  }

  ghost predicate IdsFrom(i: Addr, v: Node, s: Step, f: Effect) {
    && v.bid <= f.node.bid
    && (forall k :: k in f.node.ids ==> k in v.ids || OwnOrHeard(i, f.node, s, k.0, k.1))
    && (forall m :: m in f.sent && m.Rreq? ==> OwnOrHeard(i, f.node, s, m.q.src, m.q.bid))
  }

  lemma {:induction false} ErredIds(v: Node, from: Addr, lost: seq<Lost>)
    ensures Erred(v, from, lost).0.ids == v.ids && Erred(v, from, lost).0.bid == v.bid
  {
    if lost != [] {
      ErredIds(v, from, lost[..|lost| - 1]);
    }
  }

  lemma PurgedOneIds(i: Addr, v: Node, f: Effect, d: Addr, now: real, perHop: real, s: Step)
    requires IdsFrom(i, v, s, f) && f.node.ids == v.ids
    ensures IdsFrom(i, v, s, PurgedOne(i, f, d, now, perHop)) && PurgedOne(i, f, d, now, perHop).node.ids == v.ids
  {
    var g := PurgedOne(i, f, d, now, perHop);
    assert forall m :: m in g.sent && m.Rreq? ==> m in f.sent || (m.q.src == i && m.q.bid < g.node.bid);
  }

  lemma {:induction false} PurgedIds(i: Addr, v: Node, order: seq<Addr>, now: real, perHop: real, s: Step)
    ensures IdsFrom(i, v, s, Purged(i, v, order, now, perHop))
    ensures Purged(i, v, order, now, perHop).node.ids == v.ids
  {
    if order != [] {
      var last := |order| - 1;
      PurgedIds(i, v, order[..last], now, perHop, s);
      PurgedOneIds(i, v, Purged(i, v, order[..last], now, perHop), order[last], now, perHop, s);
    }
  }

  lemma RequestedIds(i: Addr, v: Node, q: Request, now: real, s: Step)
    requires s.Deliver? && s.msg == Rreq(q)
    ensures IdsFrom(i, v, s, Requested(i, v, Hopped(q), now))
  {
    if !AodvEffects.Repeated(i, v, Hopped(q)) {
      AodvEffects.ReverseRoute(i, v, Hopped(q), now);
    }
  }

  lemma DeliveredIds(i: Addr, v: Node, m: Msg, now: real, s: Step)
    requires s.Deliver? && s.msg == m
    ensures IdsFrom(i, v, s, Received(i, v, m, now))
  {
    match m
    case Rreq(q) => RequestedIds(i, v, q, now, s);
    case Rrep(p) =>
    case Rerr(_, lost) => ErredIds(v, m.from, lost);
  }

  lemma OutcomeIds(n: Net, s: Step)
    requires Enabled(n, s)
    ensures IdsFrom(s.node, n.nodes[s.node], s, Outcome(n, s))
  {
    var v := n.nodes[s.node];
    match s
    case Deliver(i, m, now) => DeliveredIds(i, v, m, now, s);
    case Purge(i, now, perHop) => PurgedIds(i, v, v.order, now, perHop, s);
    case _ =>
  }

  lemma StepIds(n: Net, s: Step)
    requires IdsIssued(n)
    ensures IdsIssued(Next(n, s))
  {
    if Enabled(n, s) {
      var m, f := Next(n, s), Outcome(n, s);
      OutcomeIds(n, s);
      forall src, bid | GivenOut(n, src, bid) ensures GivenOut(m, src, bid) {
      }
      forall i, k | i in m.nodes && k in m.nodes[i].ids ensures GivenOut(m, k.0, k.1) {
        assert i in n.nodes;
        assert i != s.node ==> k in n.nodes[i].ids;
      }
      forall x | x in m.sent && x.Rreq? ensures GivenOut(m, x.q.src, x.q.bid) {
        assert x in n.sent || x in f.sent;
      }
    }
  }

  /** In every run only broadcast ids that their sources have given out are on the
      air or remembered, so nobody has heard the next request of a node. */
  lemma {:induction false} RunIds(n0: Net, steps: seq<Step>)
    requires Initial(n0)
    ensures IdsIssued(After(n0, steps))
  {
    if steps != [] {
      RunIds(n0, steps[..|steps| - 1]);
      StepIds(After(n0, steps[..|steps| - 1]), steps[|steps| - 1]);
    }
  }

  // ---------------------------------------------------------------------
  // From an own packet to a route
  // ---------------------------------------------------------------------

  /** The next ring of the search reaches that far. */
  predicate Reaches(e: Entry, hops: int) {
    var ring := AodvEffects.LastRing(e);
    if ring >= 7 then hops <= 30 else if ring == 0 then hops <= 5 else hops <= ring + 2
  }

  /** A simple path from a node with a packet to send to its destination, along which
      only the destination can answer, and a search that is due and reaches it. */
  ghost predicate Searchable(n: Net, path: seq<Addr>, e: Entry, now: real) {
    && |path| >= 2 && (forall i :: 0 <= i < |path| ==> path[i] in n.nodes)
    && (forall i, j :: 0 <= i < j < |path| ==> path[i] != path[j])
    && var d := path[|path| - 1];
       && AodvEffects.EntryFor(n.nodes[path[0]], d, e) && e.flags != Up && e.reqCnt <= 3 && e.reqTimeout <= now
       && Reaches(e, |path| - 1) && now >= 0.0
       && (forall i :: 0 < i < |path| - 1 ==> NoNewer(n.nodes[path[i]], d, e.seqno))
  }

  /** No finite route to `d` as new as that. */
  predicate NoNewer(v: Node, d: Addr, seqno: int) {
    d in v.entries && v.entries[d].hops != INFINITY2 ==> v.entries[d].seqno < seqno
  }

  /** The request of an own packet. */
  lemma PacketAsks(self: Addr, v: Node, d: Addr, now: real, perHop: real, e: Entry) returns (q: Request)
    requires AodvEffects.EntryFor(v, d, e) && e.flags != Up && e.reqCnt <= 3 && e.reqTimeout <= now
    ensures var f := Resolved(self, v, self, d, now, perHop);
            && f.sent == [Rreq(q)] && q.from == q.src == self && q.dst == d && q.hops == 1 && q.dstSeq == e.seqno
            && q.srcSeq == v.seqno + 2 && q.bid == v.bid && q.ttl <= NETWORK_DIAMETER
            && forall hops :: Reaches(e, hops) ==> hops <= q.ttl
  {
    var u := Ensured(v, d).(waiting := v.waiting + {d});
    AodvEffects.SearchAsks(self, u, d, now, perHop);
    q := Resolved(self, v, self, d, now, perHop).sent[0].q;
  }

  /** The packet puts the request on the air. */
  lemma SearchStarts(n: Net, path: seq<Addr>, e: Entry, now: real, perHop: real) returns (q: Request)
    requires Sane(n) && IdsIssued(n) && Searchable(n, path, e, now)
    ensures var m := Next(n, Data(path[0], path[0], path[|path| - 1], now, perHop));
            OnPath(m, path, q) && Fresh(m, path, q)
  {
    var src, d := path[0], path[|path| - 1];
    var m := Next(n, Data(src, src, d, now, perHop));
    var v, f := n.nodes[src], Outcome(n, Data(src, src, d, now, perHop));
    q := PacketAsks(src, v, d, now, perHop, e);
    assert f.sent[0] in f.sent;
    assert NodeSane(n, src);
    forall i | 0 < i < |path|
      ensures OlderThan(m, path[i], src, q.srcSeq) && (src, q.bid) !in m.nodes[path[i]].ids
    {
      assert NodeSane(n, path[i]) && m.nodes[path[i]] == n.nodes[path[i]];
      if src in n.nodes[path[i]].entries {
        assert EntrySane(CountersOf(n), src, n.nodes[path[i]].entries[src]);
      }
    }
    forall i | 0 < i < |path| - 1 ensures !AodvEffects.KnowsWay(m.nodes[path[i]], q) {
      assert NoNewer(n.nodes[path[i]], d, e.seqno);
    }
  }

  /** Route discovery works: in every run, a node with a packet and a search that is
      due gets a route along any path within its ring on which only the destination
      can answer. Its request goes along the path and the reply comes back, and then
      every node of the path has an up route with the next node as its next hop and
      the distance left as its hop count. */
  lemma DiscoverySucceeds(n0: Net, run: seq<Step>, n: Net, path: seq<Addr>, e: Entry, now: real, perHop: real,
                          at: seq<real>) returns (steps: seq<Step>, seqno: int)
    requires Initial(n0) && n == After(n0, run) && Searchable(n, path, e, now) && |at| == |path|
    ensures var d, last := path[|path| - 1], |path| - 1;
            var m := Next(n, Data(path[0], path[0], d, now, perHop));
            && |steps| == 2 * last && RequestSteps(path, steps[..last]) && ReplySteps(path, steps[last..])
            && forall i :: 0 <= i < last ==> Routes(After(m, steps), path[i], d, path[i + 1], last - i, seqno)
  {
    RunSane(n0, run);
    RunIds(n0, run);
    var s := Data(path[0], path[0], path[|path| - 1], now, perHop);
    var q := SearchStarts(n, path, e, now, perHop);
    StepSane(n, s);
    steps, seqno := DiscoveryFindsRoute(Next(n, s), path, q, at);
  }
}
