/** Hop counts stay below the number of nodes plus the network diameter: each
    further hop of a reply is one more node that holds a route at least as good.
    So in networks of up to 222 nodes no reply counts to infinity, and routes are
    free of loops in every run in which no repair is given up. */
module AodvHops {
  import opened Common
  import opened Aodv
  import opened AodvNetwork

  const MAX_NODES := INFINITY2 - NETWORK_DIAMETER - 3

  /** The nodes that hold a route to `d` at least as good as the given rank. */
  ghost function Ahead(n: Net, d: Addr, hops: int, seqno: int): set<Addr> {
    set i | i in n.nodes && d in n.nodes[i].entries && AtLeast(n.nodes[i].entries[d], hops, seqno)
  }

  /** A hop count has as many nodes ahead of it as it exceeds the diameter. */
  ghost predicate Climbs(n: Net, d: Addr, hops: int, seqno: int) {
    hops <= NETWORK_DIAMETER || |Ahead(n, d, hops, seqno)| >= hops - NETWORK_DIAMETER
  }

  ghost predicate EntryClimbs(n: Net, d: Addr, e: Entry) {
    e.hops == INFINITY2 || Climbs(n, d, e.hops, e.seqno)
  }

  ghost predicate NodeClimbs(n: Net, i: Addr) {
    i in n.nodes ==> forall d {:trigger EntryClimbs(n, d, n.nodes[i].entries[d])} ::
      d in n.nodes[i].entries ==> EntryClimbs(n, d, n.nodes[i].entries[d])
  }

  ghost predicate MsgClimbs(n: Net, m: Msg) {
    m.Rrep? ==> Climbs(n, m.p.dst, m.p.hops - 1, m.p.dstSeq)
  }

  ghost predicate Climbing(n: Net) {
    && (forall i {:trigger NodeClimbs(n, i)} :: NodeClimbs(n, i))
    && forall m {:trigger MsgClimbs(n, m)} :: m in n.sent ==> MsgClimbs(n, m)
  }

  // ---------------------------------------------------------------------
  // Counting the nodes ahead
  // ---------------------------------------------------------------------

  lemma SubsetSize(a: set<Addr>, b: set<Addr>)
    requires a <= b
    ensures |a| <= |b|
  {
    assert b == a + (b - a);
  }

  lemma StillClimbs(n: Net, m: Net, d: Addr, hops: int, seqno: int)
    requires NetGrows(n, m) && Climbs(n, d, hops, seqno)
    ensures Climbs(m, d, hops, seqno)
  {
    forall i | i in Ahead(n, d, hops, seqno) ensures i in Ahead(m, d, hops, seqno) {
      assert i in n.nodes && RanksGrow(n.nodes[i].entries, m.nodes[i].entries);
    }
    SubsetSize(Ahead(n, d, hops, seqno), Ahead(m, d, hops, seqno));
  }

  lemma ClimbBound(n: Net, d: Addr, hops: int, seqno: int)
    requires Climbs(n, d, hops, seqno)
    ensures hops <= |n.nodes| + NETWORK_DIAMETER
  {
    SubsetSize(Ahead(n, d, hops, seqno), n.nodes.Keys);
  }

  /** A node that takes over a route one hop further joins those ahead. */
  lemma AdoptionClimbs(n: Net, m: Net, i: Addr, d: Addr, hops: int, seqno: int)
    requires NetGrows(n, m) && Climbs(n, d, hops - 1, seqno)
    requires i !in Ahead(n, d, hops, seqno) && i in Ahead(m, d, hops, seqno)
    ensures Climbs(m, d, hops, seqno)
  {
    var before, after := Ahead(n, d, hops - 1, seqno), Ahead(m, d, hops, seqno);
    forall j | j in before ensures j in after && j != i {
      assert j in Ahead(n, d, hops, seqno);
      assert j in n.nodes && RanksGrow(n.nodes[j].entries, m.nodes[j].entries);
    }
    SubsetSize(before + {i}, after);
  }

  // ---------------------------------------------------------------------
  // Which routes a step changes
  // ---------------------------------------------------------------------

  /** The route is down, near, or of the same rank as before. */
  predicate LowAt(t: map<Addr, Entry>, d: Addr, e: Entry) {
    e.hops == INFINITY2 || e.hops <= NETWORK_DIAMETER
    || (d in t && t[d].hops == e.hops && t[d].seqno == e.seqno)
  }

  ghost predicate Low(t: map<Addr, Entry>, u: map<Addr, Entry>) {
    forall d {:trigger LowAt(t, d, u[d])} :: d in u ==> LowAt(t, d, u[d])
  }

  /** The reply reports an entry of the node, or the node itself. */
  predicate Reported(entries: map<Addr, Entry>, p: Reply) {
    p.hops <= 1
    || (p.dst in entries && entries[p.dst].hops == p.hops - 1 != INFINITY2 && entries[p.dst].seqno == p.dstSeq)
  }

  ghost predicate AllReported(entries: map<Addr, Entry>, sent: seq<Msg>) {
    forall m :: m in sent && m.Rrep? ==> Reported(entries, m.p)
  }

  lemma LowPut(t: map<Addr, Entry>, u: map<Addr, Entry>, d: Addr, e: Entry)
    requires Low(t, u)
    requires LowAt(t, d, e) || (d in u && u[d].hops == e.hops && u[d].seqno == e.seqno)
    ensures Low(t, u[d := e])
  {
    var v := u[d := e];
    forall x | x in v ensures LowAt(t, x, v[x]) {
      assert x in u ==> LowAt(t, x, u[x]);
    }
  }

  lemma AskedLow(t: map<Addr, Entry>, i: Addr, v: Node, d: Addr, now: real, perHop: real)
    requires Low(t, v.entries) && d in v.entries
    ensures Low(t, Asked(i, v, d, now, perHop).node.entries) && AllReported(map[], Asked(i, v, d, now, perHop).sent)
  {
    var f := Asked(i, v, d, now, perHop);
    LowPut(t, v.entries, d, f.node.entries[d]);
    assert f.node.entries == v.entries[d := f.node.entries[d]];
  }

  lemma EnsuredLow(v: Node, d: Addr)
    ensures Low(v.entries, Ensured(v, d).entries)
  {
    LowPut(v.entries, v.entries, d, NewEntry());
  }

  lemma FlushedLow(t: map<Addr, Entry>, i: Addr, v: Node, d: Addr, now: real)
    requires Low(t, v.entries) && d in v.entries
    ensures Low(t, Flushed(i, v, d, now).entries)
    ensures SameRoute(v.entries[d], Flushed(i, v, d, now).entries[d])
  {
    if d in v.waiting {
      LowPut(t, v.entries, d, Flushed(i, v, d, now).entries[d]);
    }
  }

  lemma RepairingLow(i: Addr, v: Node, d: Addr, now: real, perHop: real)
    requires d in v.entries
    ensures var f := Repairing(i, v, d, now, perHop);
            Low(v.entries, f.node.entries) && AllReported(f.node.entries, f.sent)
  {
    var marked := v.entries[d].(flags := InRepair);
    LowPut(v.entries, v.entries, d, marked);
    AskedLow(v.entries, i, With(v, d, marked).(waiting := v.waiting + {d}), d, now, perHop);
  }

  lemma ResolvedLow(i: Addr, v: Node, origin: Addr, d: Addr, now: real, perHop: real)
    ensures var f := Resolved(i, v, origin, d, now, perHop);
            Low(v.entries, f.node.entries) && AllReported(f.node.entries, f.sent)
  {
    var w := Ensured(v, d);
    EnsuredLow(v, d);
    if w.entries[d].flags.Up? {
      LowPut(v.entries, w.entries, d, Used(i, d, w.entries[d], now));
    } else if origin == i {
      AskedLow(v.entries, i, w.(waiting := w.waiting + {d}), d, now, perHop);
    }
  }

  lemma ReversedLow(i: Addr, v: Node, m: Request, now: real)
    requires m.hops <= NETWORK_DIAMETER
    ensures Low(v.entries, Reversed(i, v, m, now).entries)
  {
    var u := v.(ids := v.ids[(m.src, m.bid) := now + BCAST_ID_SAVE]);
    var w := Ensured(u, m.src);
    EnsuredLow(u, m.src);
    var e := ReverseEntry(w.entries[m.src], m, now);
    LowPut(v.entries, w.entries, m.src, e);
    FlushedLow(v.entries, i, With(w, m.src, e), m.src, now);
  }

  lemma RequestedLow(i: Addr, v: Node, m: Request, now: real, f: Effect)
    requires f == Requested(i, v, m, now) && m.hops <= NETWORK_DIAMETER
    ensures Low(v.entries, f.node.entries) && AllReported(f.node.entries, f.sent)
  {
    if m.src != i && (m.src, m.bid) !in v.ids {
      var w := Reversed(i, v, m, now);
      ReversedLow(i, v, m, now);
      if m.dst != i && CanAnswer(w, m) {
        IntroducedLow(v.entries, w, m.dst, m.src);
      }
    }
  }

  lemma IntroducedLow(t: map<Addr, Entry>, v: Node, dst: Addr, src: Addr)
    requires Low(t, v.entries) && dst in v.entries && src in v.entries
    ensures var u := Introduced(v, dst, src).entries;
            Low(t, u) && dst in u && SameRoute(u[dst], v.entries[dst])
  {
    var e := v.entries[dst];
    var w := With(v, dst, e.(precursors := e.precursors + {v.entries[src].next}));
    LowPut(t, v.entries, dst, w.entries[dst]);
    LowPut(t, w.entries, src, Introduced(v, dst, src).entries[src]);
  }

  lemma {:induction false} ErredLow(c: Counters, n: Net, i: Addr, v: Node, from: Addr, lost: seq<Lost>)
    requires TableSane(c, v.entries) && LostSane(c, lost) && TableBacked(n, i, v.entries) && AllDead(lost)
    ensures Low(v.entries, Erred(v, from, lost).0.entries)
  {
    if lost != [] {
      var last := |lost| - 1;
      ErredLow(c, n, i, v, from, lost[..last]);
      ErredBacked(c, n, i, v, from, lost[..last]);
      var (w, _) := Erred(v, from, lost[..last]);
      if Hit(w, from, lost[last]) {
        var e := w.entries[lost[last].dst];
        assert EntryBacked(n, i, lost[last].dst, e);
        LowPut(v.entries, w.entries, lost[last].dst, Downed(e.(seqno := lost[last].seqno)).(precursors := {}));
      }
    }
  }

  lemma NeighbourLostLow(n: Net, i: Addr, v: Node, neighbour: Addr)
    requires TableBacked(n, i, v.entries)
    ensures Low(v.entries, NeighbourLost(i, v, neighbour).node.entries)
  {
    var u := SeveredAll(v.entries, neighbour);
    forall d | d in u ensures LowAt(v.entries, d, u[d]) {
      assert EntryBacked(n, i, d, v.entries[d]);
      assert u[d] == Severed(v.entries[d], neighbour);
    }
  }

  lemma PurgedOneLow(n: Net, i: Addr, t: map<Addr, Entry>, f: Effect, d: Addr, now: real, perHop: real)
    requires Low(t, f.node.entries) && TableBacked(n, i, f.node.entries)
    ensures Low(t, PurgedOne(i, f, d, now, perHop).node.entries)
  {
    var u := f.node;
    if d in u.entries {
      var e := u.entries[d];
      assert EntryBacked(n, i, d, e);
      LowPut(t, u.entries, d, Used(i, d, e, now));
      if e.flags.Up? {
        LowPut(t, u.entries, d, Downed(e.(seqno := e.seqno + 1)));
      } else if d in u.waiting {
        AskedLow(t, i, u, d, now, perHop);
      }
    }
  }

  lemma {:induction false} PurgedLow(c: Counters, n: Net, i: Addr, v: Node, order: seq<Addr>, now: real, perHop: real)
    requires TableSane(c, v.entries) && TableBacked(n, i, v.entries) && Even(v)
    requires Purged(i, v, order, now, perHop).node.seqno <= c(i)
    ensures Low(v.entries, Purged(i, v, order, now, perHop).node.entries)
  {
    if order != [] {
      var d, f := order[|order| - 1], Purged(i, v, order[..|order| - 1], now, perHop);
      PurgedOneCounts(i, f, d, now, perHop);
      PurgedLow(c, n, i, v, order[..|order| - 1], now, perHop);
      PurgedBacked(c, n, i, v, order[..|order| - 1], now, perHop);
      PurgedOneLow(n, i, v.entries, f, d, now, perHop);
    }
  }

  /** What is low except for one route that a reply may have set. */
  ghost predicate LowBut(t: map<Addr, Entry>, u: map<Addr, Entry>, p: Reply) {
    forall d {:trigger LowAt(t, d, u[d])} :: d in u ==> LowAt(t, d, u[d]) || Adopted(t, u, d, p)
  }

  /** The route is the reply's, and the node held none as good. */
  predicate Adopted(t: map<Addr, Entry>, u: map<Addr, Entry>, d: Addr, p: Reply) {
    && d == p.dst && d in u && u[d].hops == p.hops && u[d].seqno == p.dstSeq
    && (d in t ==> !AtLeast(t[d], p.hops, p.dstSeq))
  }

  /** A route whose rank was not touched. */
  lemma LowButPut(t: map<Addr, Entry>, u: map<Addr, Entry>, p: Reply, d: Addr, e: Entry)
    requires LowBut(t, u, p) && d in u && u[d].hops == e.hops && u[d].seqno == e.seqno
    ensures LowBut(t, u[d := e], p)
  {
    var v := u[d := e];
    forall x | x in v ensures LowAt(t, x, v[x]) || Adopted(t, v, x, p) {
      assert LowAt(t, x, u[x]) || Adopted(t, u, x, p);
    }
  }

  lemma RelayedLow(i: Addr, t: map<Addr, Entry>, v: Node, p: Reply, now: real)
    requires LowBut(t, v.entries, p) && p.dst in v.entries && p.hops < INFINITY2
    requires v.entries[p.dst].hops == p.hops && v.entries[p.dst].seqno == p.dstSeq
    ensures var f := Relayed(i, v, p, now); LowBut(t, f.node.entries, p) && AllReported(f.node.entries, f.sent)
  {
    if p.requester in v.entries && v.entries[p.requester].hops != INFINITY2 {
      var e0, f := v.entries[p.requester], Relayed(i, v, p, now);
      var w := if p.ttl == 0 then v else With(v, p.requester, e0.(expire := now + ACTIVE_ROUTE_TIMEOUT));
      if p.ttl != 0 {
        LowButPut(t, v.entries, p, p.requester, w.entries[p.requester]);
      }
      LowButPut(t, w.entries, p, p.dst, f.node.entries[p.dst]);
    }
  }

  lemma RepliedLow(i: Addr, v: Node, p: Reply, now: real, f: Effect)
    requires f == Replied(i, v, p, now) && p.hops < INFINITY2
    ensures LowBut(v.entries, f.node.entries, p) && AllReported(f.node.entries, f.sent)
  {
    var w := Ensured(v, p.dst);
    EnsuredLow(v, p.dst);
    var e := w.entries[p.dst];
    if Fresher(e, p.dstSeq, p.hops) {
      var x := With(w, p.dst, ForwardEntry(e, p, now));
      forall d | d in x.entries ensures LowAt(v.entries, d, x.entries[d]) || Adopted(v.entries, x.entries, d, p) {
        assert d in w.entries ==> LowAt(v.entries, d, w.entries[d]);
      }
      var y := Flushed(i, x, p.dst, now);
      if p.dst in x.waiting {
        LowButPut(v.entries, x.entries, p, p.dst, y.entries[p.dst]);
      }
      RelayedLow(i, v.entries, y, p, now);
    }
  }

  // ---------------------------------------------------------------------
  // One step
  // ---------------------------------------------------------------------

  /** The entries after a step: low, or set by the delivered reply. */
  ghost predicate StepLow(n: Net, s: Step, u: map<Addr, Entry>)
    requires s.node in n.nodes
  {
    if s.Deliver? && s.msg.Rrep? then LowBut(n.nodes[s.node].entries, u, HoppedBack(s.msg.p))
    else Low(n.nodes[s.node].entries, u)
  }

  lemma DeliveredLow(c: Counters, n: Net, i: Addr, v: Node, m: Msg, now: real, f: Effect)
    requires f == Received(i, v, m, now)
    requires TableSane(c, v.entries) && MsgSane(c, m) && TableBacked(n, i, v.entries) && MsgBacked(n, m)
    ensures if m.Rrep? then LowBut(v.entries, f.node.entries, HoppedBack(m.p)) else Low(v.entries, f.node.entries)
    ensures AllReported(f.node.entries, f.sent)
  {
    match m {
      case Rreq(q) => RequestedLow(i, v, Hopped(q), now, f);
      case Rrep(p) => RepliedLow(i, v, HoppedBack(p), now, f);
      case Rerr(from, lost) => ErredLow(c, n, i, v, from, lost);
    }
  }

  lemma OutcomeLow(n: Net, s: Step, f: Effect)
    requires Sane(n) && Backed(n) && Enabled(n, s) && !GivesUp(n, s) && f == Outcome(n, s)
    ensures StepLow(n, s, f.node.entries) && AllReported(f.node.entries, f.sent)
  {
    var i, v, c := s.node, n.nodes[s.node], CountersOf(Next(n, s));
    assert NodeSane(n, i) && NodeBacked(n, i);
    OutcomeCounts(n, s);
    StillSane(CountersOf(n), c, v.entries);
    match s {
      case Deliver(_, m, now) =>
        MsgStillSane(CountersOf(n), c, m);
        DeliveredLow(c, n, i, v, m, now, f);
      case Data(_, origin, d, now, perHop) => ResolvedLow(i, v, origin, d, now, perHop);
      case Purge(_, now, perHop) =>
        PurgedLow(c, n, i, v, v.order, now, perHop);
        PurgedBacked(c, n, i, v, v.order, now, perHop);
      case IdPurge(_, _) =>
      case NbInsert(_) =>
      case NbDelete(_, j) => NeighbourLostLow(n, i, v, j);
      case Repair(_, d, _, now, perHop) => RepairingLow(i, v, d, now, perHop);
      case RepairTimeout(_, d) => assert RepairFailed(v, d).entries == v.entries;
    }
  }

  /** No entry of the mover counts beyond the nodes. */
  lemma EntryBound(n: Net, s: Step, d: Addr)
    requires Sane(n) && Backed(n) && Climbing(n) && Enabled(n, s) && !GivesUp(n, s) && d in Outcome(n, s).node.entries
    ensures var e := Outcome(n, s).node.entries[d];
            e.hops == INFINITY2 || e.hops <= |n.nodes| + NETWORK_DIAMETER + 1
  {
    OutcomeLow(n, s, Outcome(n, s));
    var t, e := n.nodes[s.node].entries, Outcome(n, s).node.entries[d];
    assert NodeClimbs(n, s.node);
    if LowAt(t, d, e) {
      if e.hops != INFINITY2 && e.hops > NETWORK_DIAMETER {
        assert EntryClimbs(n, d, t[d]);
        ClimbBound(n, d, e.hops, e.seqno);
      }
    } else {
      assert MsgClimbs(n, s.msg);
      ClimbBound(n, d, e.hops - 1, e.seqno);
    }
  }

  lemma EntryStillClimbs(n: Net, s: Step, d: Addr)
    requires Sane(n) && Backed(n) && Climbing(n) && Enabled(n, s) && !GivesUp(n, s) && NetGrows(n, Next(n, s))
    requires d in Outcome(n, s).node.entries
    ensures EntryClimbs(Next(n, s), d, Outcome(n, s).node.entries[d])
  {
    OutcomeLow(n, s, Outcome(n, s));
    var m, t, e := Next(n, s), n.nodes[s.node].entries, Outcome(n, s).node.entries[d];
    assert NodeClimbs(n, s.node);
    if LowAt(t, d, e) {
      if e.hops != INFINITY2 && e.hops > NETWORK_DIAMETER {
        assert EntryClimbs(n, d, t[d]);
        StillClimbs(n, m, d, e.hops, e.seqno);
      }
    } else {
      assert MsgClimbs(n, s.msg);
      AdoptionClimbs(n, m, s.node, d, e.hops, e.seqno);
    }
  }

  lemma MessageClimbs(n: Net, s: Step, x: Msg)
    requires Sane(n) && Backed(n) && Climbing(n) && Enabled(n, s) && !GivesUp(n, s) && NetGrows(n, Next(n, s))
    requires x in Next(n, s).sent && x.Rrep?
    ensures MsgClimbs(Next(n, s), x)
  {
    if x in n.sent {
      assert MsgClimbs(n, x);
      StillClimbs(n, Next(n, s), x.p.dst, x.p.hops - 1, x.p.dstSeq);
    } else if x.p.hops > 1 {
      OutcomeLow(n, s, Outcome(n, s));
      assert Reported(Outcome(n, s).node.entries, x.p);
      EntryStillClimbs(n, s, x.p.dst);
    }
  }

  /** So in a small network no reply counts to infinity. */
  lemma SmallIsClean(n: Net, s: Step)
    requires Sane(n) && Backed(n) && Climbing(n) && !GivesUp(n, s) && |n.nodes| <= MAX_NODES
    ensures Clean(n, s)
  {
    if Enabled(n, s) {
      OutcomeLow(n, s, Outcome(n, s));
      forall m | m in Outcome(n, s).sent && m.Rrep? ensures m.p.hops < INFINITY2 {
        if m.p.hops > 1 {
          EntryBound(n, s, m.p.dst);
        }
      }
    }
  }

  lemma StepClimbs(n: Net, s: Step)
    requires Sane(n) && Backed(n) && Climbing(n) && !GivesUp(n, s) && NetGrows(n, Next(n, s))
    ensures Climbing(Next(n, s))
  {
    if Enabled(n, s) {
      var m := Next(n, s);
      forall i ensures NodeClimbs(m, i) {
        if i in m.nodes {
          forall d | d in m.nodes[i].entries ensures EntryClimbs(m, d, m.nodes[i].entries[d]) {
            assert NodeClimbs(n, i);
            if i == s.node {
              EntryStillClimbs(n, s, d);
            } else if n.nodes[i].entries[d].hops != INFINITY2 {
              assert EntryClimbs(n, d, n.nodes[i].entries[d]);
              StillClimbs(n, m, d, n.nodes[i].entries[d].hops, n.nodes[i].entries[d].seqno);
            }
          }
        }
      }
      OutcomeLow(n, s, Outcome(n, s));
      forall x | x in m.sent ensures MsgClimbs(m, x) {
        if x.Rrep? {
          MessageClimbs(n, s, x);
        }
      }
    }
  }

  // ---------------------------------------------------------------------
  // Steps and runs
  // ---------------------------------------------------------------------

  /** No repair of the run is given up. */
  predicate NeverGivesUp(n0: Net, steps: seq<Step>) {
    steps == [] ||
    var last := |steps| - 1;
    NeverGivesUp(n0, steps[..last]) && !GivesUp(After(n0, steps[..last]), steps[last])
  }

  /** In networks of up to `MAX_NODES` nodes such a run is clean. */
  lemma {:induction false} SmallRunIsClean(n0: Net, steps: seq<Step>)
    requires Initial(n0) && |n0.nodes| <= MAX_NODES && NeverGivesUp(n0, steps)
    ensures CleanRun(n0, steps) && Climbing(After(n0, steps))
  {
    if steps != [] {
      var before, s := steps[..|steps| - 1], steps[|steps| - 1];
      SmallRunIsClean(n0, before);
      RunBacked(n0, before);
      SameNodes(n0, before);
      SmallIsClean(After(n0, before), s);
      StepBacked(After(n0, before), s);
      StepClimbs(After(n0, before), s);
    }
  }

  /** Loop freedom with no assumption on hop counts. */
  lemma SmallNetworkLoopFree(n0: Net, steps: seq<Step>, n: Net, d: Addr, path: seq<Addr>)
    requires Initial(n0) && |n0.nodes| <= MAX_NODES && NeverGivesUp(n0, steps)
    requires n == After(n0, steps) && FollowsRoutes(n, d, path)
    ensures forall i, j :: 0 <= i < j < |path| ==> path[i] != path[j]
    ensures |path| <= |n0.nodes| + 1
  {
    SmallRunIsClean(n0, steps);
    LoopFree(n0, steps, n, d, path);
  }
}
