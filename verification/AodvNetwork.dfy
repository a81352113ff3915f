/** A network of AODV agents whose messages may be delayed, lost, duplicated and
    heard by anyone. In every run finite routes carry even numbers their
    destinations have issued; in every run in which no repair is given up, routes
    are free of loops. */
module AodvNetwork {
  import opened Common
  import opened Aodv
  import AodvEffects

  /** Every message ever sent stays deliverable. */
  datatype Net = Net(nodes: map<Addr, Node>, sent: set<Msg>)

  /** `Repair` and `RepairTimeout` exist with local repair only. A repair starts
      when a packet has come further than the route still has to go. */
  datatype Step =
    | Deliver(node: Addr, msg: Msg, now: real)
    | Data(node: Addr, origin: Addr, dst: Addr, now: real, perHop: real)
    | Purge(node: Addr, now: real, perHop: real)
    | IdPurge(node: Addr, now: real)
    | NbInsert(node: Addr)
    | NbDelete(node: Addr, neighbour: Addr)
    | Repair(node: Addr, dst: Addr, forwards: int, now: real, perHop: real)
    | RepairTimeout(node: Addr, dst: Addr)

  function Sender(m: Msg): Addr {
    match m
    case Rreq(q) => q.from
    case Rrep(p) => p.from
    case Rerr(from, _) => from
  }

  predicate Enabled(n: Net, s: Step) {
    && s.node in n.nodes
    && (s.Deliver? ==> s.msg in n.sent && Sender(s.msg) != s.node)
    && (s.Repair? ==> s.dst in n.nodes[s.node].entries
                      && n.nodes[s.node].entries[s.dst].hops < s.forwards <= NETWORK_DIAMETER)
  }

  /** What the step does at its node. */
  function Outcome(n: Net, s: Step): Effect
    requires Enabled(n, s)
  {
    var v := n.nodes[s.node];
    match s
    case Deliver(i, m, now) => Received(i, v, m, now)
    case Data(i, origin, d, now, perHop) => Resolved(i, v, origin, d, now, perHop)
    case Purge(i, now, perHop) => Purged(i, v, v.order, now, perHop)
    case IdPurge(_, now) => Effect(v.(ids := IdsKept(v.ids, now)), [])
    case NbInsert(_) => Effect(v.(seqno := v.seqno + 2), [])
    case NbDelete(i, j) => NeighbourLost(i, v, j)
    case Repair(i, d, _, now, perHop) => Repairing(i, v, d, now, perHop)
    case RepairTimeout(_, d) => Effect(RepairFailed(v, d), [])
  }

  /** A step that is not enabled does nothing. */
  function Next(n: Net, s: Step): Net {
    if Enabled(n, s) then
      var f := Outcome(n, s);
      Net(n.nodes[s.node := f.node], n.sent + Elements(f.sent))
    else n
  }

  function After(n: Net, steps: seq<Step>): Net {
    if steps == [] then n else Next(After(n, steps[..|steps| - 1]), steps[|steps| - 1])
  }

  predicate Initial(n: Net) {
    n.sent == {} && forall i :: i in n.nodes ==> n.nodes[i] == Node(2, 1, [], map[], map[], {})
  }

  // ---------------------------------------------------------------------
  // Parity, in every run
  // ---------------------------------------------------------------------

  /** Each destination's own sequence number. */
  type Counters = Addr -> int

  function CountersOf(n: Net): Counters {
    d => if d in n.nodes then n.nodes[d].seqno else 0
  }

  /** An even number the destination has given out. */
  predicate Issued(c: Counters, d: Addr, seqno: int) {
    seqno % 2 == 0 && 2 <= seqno <= c(d)
  }

  predicate Known(c: Counters, d: Addr, seqno: int) {
    0 <= seqno <= c(d) + 1
  }

  predicate EntrySane(c: Counters, d: Addr, e: Entry) {
    && Known(c, d, e.seqno)
    && (!e.flags.Down? ==> Issued(c, d, e.seqno))
    && (e.hops != INFINITY2 ==> !e.flags.Down?)
    && e.hops >= 1 && e.lastHops >= 0 && e.reqLastTtl >= 0
  }

  predicate RequestSane(c: Counters, q: Request) {
    && Issued(c, q.src, q.srcSeq) && Known(c, q.dst, q.dstSeq)
    && q.hops >= 1 && q.ttl >= 1 && q.hops + q.ttl <= NETWORK_DIAMETER + 1
  }

  predicate ReplySane(c: Counters, p: Reply) {
    Issued(c, p.dst, p.dstSeq) && p.hops >= 1
  }

  ghost predicate LostSane(c: Counters, lost: seq<Lost>) {
    forall l :: l in lost ==> Known(c, l.dst, l.seqno)
  }

  ghost predicate MsgSane(c: Counters, m: Msg) {
    match m
    case Rreq(q) => RequestSane(c, q)
    case Rrep(p) => ReplySane(c, p)
    case Rerr(_, lost) => LostSane(c, lost)
  }

  ghost predicate TableSane(c: Counters, entries: map<Addr, Entry>) {
    forall d :: d in entries ==> EntrySane(c, d, entries[d])
  }

  /** An agent's own number is even. */
  predicate Even(v: Node) {
    v.seqno >= 2 && v.seqno % 2 == 0
  }

  ghost predicate EffectSane(c: Counters, f: Effect) {
    Even(f.node) && TableSane(c, f.node.entries) && forall m :: m in f.sent ==> MsgSane(c, m)
  }

  ghost predicate NodeSane(n: Net, i: Addr) {
    i in n.nodes ==> Even(n.nodes[i]) && TableSane(CountersOf(n), n.nodes[i].entries)
  }

  ghost predicate Sane(n: Net) {
    && (forall i {:trigger NodeSane(n, i)} :: NodeSane(n, i))
    && forall m {:trigger m in n.sent} :: m in n.sent ==> MsgSane(CountersOf(n), m)
  }

  ghost predicate Below(c: Counters, b: Counters) {
    forall d :: c(d) <= b(d)
  }

  lemma StillSane(c: Counters, b: Counters, entries: map<Addr, Entry>)
    requires Below(c, b) && TableSane(c, entries)
    ensures TableSane(b, entries)
  {
    forall d | d in entries ensures EntrySane(b, d, entries[d]) {
      assert EntrySane(c, d, entries[d]) && c(d) <= b(d);
    }
  }

  lemma MsgStillSane(c: Counters, b: Counters, m: Msg)
    requires Below(c, b) && MsgSane(c, m)
    ensures MsgSane(b, m)
  {
    match m {
      case Rreq(q) => assert c(q.src) <= b(q.src) && c(q.dst) <= b(q.dst);
      case Rrep(p) => assert c(p.dst) <= b(p.dst);
      case Rerr(_, lost) =>
        forall l | l in lost ensures Known(b, l.dst, l.seqno) {
          assert Known(c, l.dst, l.seqno) && c(l.dst) <= b(l.dst);
        }
    }
  }

  lemma ResolvedSane(self: Addr, c: Counters, v: Node, origin: Addr, d: Addr, now: real, perHop: real)
    requires TableSane(c, v.entries) && Even(v) && c(d) >= 0
    requires Resolved(self, v, origin, d, now, perHop).node.seqno <= c(self)
    ensures EffectSane(c, Resolved(self, v, origin, d, now, perHop))
  {
    var w := Ensured(v, d);
    assert EntrySane(c, d, w.entries[d]);
    assert origin == self && !w.entries[d].flags.Up? ==>
        EffectSane(c, Asked(self, w.(waiting := w.waiting + {d}), d, now, perHop));
  }

  lemma ReversedSane(self: Addr, c: Counters, v: Node, m: Request, now: real)
    requires TableSane(c, v.entries) && Issued(c, m.src, m.srcSeq) && m.hops >= 1
    ensures TableSane(c, Reversed(self, v, m, now).entries) && Reversed(self, v, m, now).seqno == v.seqno
  {
    var u := v.(ids := v.ids[(m.src, m.bid) := now + BCAST_ID_SAVE]);
    var w := Ensured(u, m.src);
    assert EntrySane(c, m.src, w.entries[m.src]);
    var x := With(w, m.src, ReverseEntry(w.entries[m.src], m, now));
    assert TableSane(c, x.entries);
  }

  lemma IntroducedSane(c: Counters, v: Node, dst: Addr, src: Addr)
    requires TableSane(c, v.entries) && dst in v.entries && src in v.entries
    ensures TableSane(c, Introduced(v, dst, src).entries)
  {
    assert EntrySane(c, dst, v.entries[dst]) && EntrySane(c, src, v.entries[src]);
  }

  lemma RequestedSane(self: Addr, c: Counters, v: Node, m: Request, now: real, f: Effect)
    requires f == Requested(self, v, m, now) && f.node.seqno <= c(self)
    requires TableSane(c, v.entries) && Even(v) && RequestSane(c, m.(ttl := m.ttl + 1))
    ensures EffectSane(c, f)
  {
    if m.src != self && (m.src, m.bid) !in v.ids {
      var w := Reversed(self, v, m, now);
      ReversedSane(self, c, v, m, now);
      if m.dst != self && m.dst in w.entries {
        assert EntrySane(c, m.dst, w.entries[m.dst]);
        if CanAnswer(w, m) {
          IntroducedSane(c, w, m.dst, m.src);
        }
      }
    }
  }

  lemma RelayedSane(self: Addr, c: Counters, v: Node, m: Reply, now: real)
    requires TableSane(c, v.entries) && Even(v) && m.dst in v.entries && ReplySane(c, m)
    ensures EffectSane(c, Relayed(self, v, m, now))
  {
    if m.requester in v.entries {
      assert EntrySane(c, m.dst, v.entries[m.dst]) && EntrySane(c, m.requester, v.entries[m.requester]);
    }
  }

  lemma RepliedSane(self: Addr, c: Counters, v: Node, m: Reply, now: real, f: Effect)
    requires f == Replied(self, v, m, now)
    requires TableSane(c, v.entries) && Even(v) && ReplySane(c, m)
    ensures EffectSane(c, f)
  {
    var w := Ensured(v, m.dst);
    var e := w.entries[m.dst];
    assert EntrySane(c, m.dst, e);
    if Fresher(e, m.dstSeq, m.hops) {
      var x := With(w, m.dst, ForwardEntry(e, m, now));
      assert TableSane(c, x.entries);
      RelayedSane(self, c, Flushed(self, x, m.dst, now), m, now);
    }
  }

  lemma {:induction false} ErredSane(c: Counters, v: Node, from: Addr, lost: seq<Lost>)
    requires TableSane(c, v.entries) && LostSane(c, lost)
    ensures var (w, passed) := Erred(v, from, lost);
            TableSane(c, w.entries) && LostSane(c, passed) && w.seqno == v.seqno
  {
    if lost != [] {
      ErredSane(c, v, from, lost[..|lost| - 1]);
    }
  }

  lemma {:induction false} LostThroughSane(c: Counters, entries: map<Addr, Entry>, order: seq<Addr>, neighbour: Addr)
    requires TableSane(c, entries)
    ensures LostSane(c, LostThrough(entries, order, neighbour))
  {
    if order != [] {
      var d := order[|order| - 1];
      LostThroughSane(c, entries, order[..|order| - 1], neighbour);
      assert d in entries ==> EntrySane(c, d, entries[d]);
    }
  }

  lemma NeighbourLostSane(self: Addr, c: Counters, v: Node, neighbour: Addr)
    requires TableSane(c, v.entries) && Even(v)
    ensures EffectSane(c, NeighbourLost(self, v, neighbour))
  {
    LostThroughSane(c, v.entries, v.order, neighbour);
    forall d | d in v.entries ensures EntrySane(c, d, Severed(v.entries[d], neighbour)) {
      assert EntrySane(c, d, v.entries[d]);
    }
  }

  lemma PurgedOneSane(self: Addr, c: Counters, f: Effect, d: Addr, now: real, perHop: real)
    requires EffectSane(c, f) && PurgedOne(self, f, d, now, perHop).node.seqno <= c(self)
    ensures EffectSane(c, PurgedOne(self, f, d, now, perHop))
  {
    if d in f.node.entries {
      assert EntrySane(c, d, f.node.entries[d]);
    }
  }

  lemma PurgedOneCounts(self: Addr, f: Effect, d: Addr, now: real, perHop: real)
    ensures f.node.seqno <= PurgedOne(self, f, d, now, perHop).node.seqno
  {
  }

  lemma {:induction false} PurgedSane(self: Addr, c: Counters, v: Node, order: seq<Addr>, now: real, perHop: real)
    requires TableSane(c, v.entries) && Even(v) && Purged(self, v, order, now, perHop).node.seqno <= c(self)
    ensures EffectSane(c, Purged(self, v, order, now, perHop))
  {
    if order != [] {
      var d, f := order[|order| - 1], Purged(self, v, order[..|order| - 1], now, perHop);
      PurgedOneCounts(self, f, d, now, perHop);
      PurgedSane(self, c, v, order[..|order| - 1], now, perHop);
      PurgedOneSane(self, c, f, d, now, perHop);
    }
  }

  /** Own numbers only grow. */
  lemma {:induction false} PurgedCounts(self: Addr, v: Node, order: seq<Addr>, now: real, perHop: real)
    ensures v.seqno <= Purged(self, v, order, now, perHop).node.seqno
  {
    if order != [] {
      PurgedCounts(self, v, order[..|order| - 1], now, perHop);
      PurgedOneCounts(self, Purged(self, v, order[..|order| - 1], now, perHop), order[|order| - 1], now, perHop);
    }
  }

  lemma {:induction false} ErredCounts(v: Node, from: Addr, lost: seq<Lost>)
    ensures Erred(v, from, lost).0.seqno == v.seqno
  {
    if lost != [] {
      ErredCounts(v, from, lost[..|lost| - 1]);
    }
  }

  lemma ReceivedCounts(self: Addr, v: Node, m: Msg, now: real)
    ensures v.seqno <= Received(self, v, m, now).node.seqno
  {
    match m {
      case Rreq(q) =>
      case Rrep(p) =>
      case Rerr(from, lost) => ErredCounts(v, from, lost);
    }
  }

  lemma OutcomeCounts(n: Net, s: Step)
    requires Enabled(n, s)
    ensures Below(CountersOf(n), CountersOf(Next(n, s)))
  {
    OwnCounts(n, s);
  }

  lemma OwnCounts(n: Net, s: Step)
    requires Enabled(n, s)
    ensures n.nodes[s.node].seqno <= Outcome(n, s).node.seqno
  {
    match s {
      case Deliver(i, m, now) => ReceivedCounts(i, n.nodes[i], m, now);
      case Data(_, _, _, _, _) =>
      case Purge(i, now, perHop) => PurgedCounts(i, n.nodes[i], n.nodes[i].order, now, perHop);
      case IdPurge(_, _) =>
      case NbInsert(_) =>
      case NbDelete(_, _) =>
      case Repair(_, _, _, _, _) =>
      case RepairTimeout(_, _) =>
    }
  }

  lemma ReceivedSane(self: Addr, c: Counters, v: Node, m: Msg, now: real, f: Effect)
    requires f == Received(self, v, m, now)
    requires TableSane(c, v.entries) && Even(v) && MsgSane(c, m) && f.node.seqno <= c(self)
    ensures EffectSane(c, f)
  {
    match m {
      case Rreq(q) => RequestedSane(self, c, v, Hopped(q), now, f);
      case Rrep(p) => RepliedSane(self, c, v, HoppedBack(p), now, f);
      case Rerr(_, _) => ErroredSane(self, c, v, m, f);
    }
  }

  lemma ErroredSane(self: Addr, c: Counters, v: Node, m: Msg, f: Effect)
    requires m.Rerr? && f == Errored(self, v, m)
    requires TableSane(c, v.entries) && Even(v) && LostSane(c, m.lost)
    ensures EffectSane(c, f)
  {
    ErredSane(c, v, m.from, m.lost);
  }

  lemma CountersStart(n: Net, d: Addr)
    requires Sane(n)
    ensures CountersOf(n)(d) >= 0
  {
    assert NodeSane(n, d);
  }

  lemma OutcomeSane(n: Net, s: Step, f: Effect, c: Counters)
    requires Sane(n) && Enabled(n, s) && f == Outcome(n, s) && c == CountersOf(Next(n, s))
    ensures EffectSane(c, f)
  {
    var i, v := s.node, n.nodes[s.node];
    OutcomeCounts(n, s);
    assert NodeSane(n, i);
    StillSane(CountersOf(n), c, v.entries);
    match s {
      case Deliver(_, m, now) =>
        MsgStillSane(CountersOf(n), c, m);
        ReceivedSane(i, c, v, m, now, f);
      case Data(_, origin, d, now, perHop) =>
        CountersStart(n, d);
        ResolvedSane(i, c, v, origin, d, now, perHop);
      case Purge(_, now, perHop) => PurgedSane(i, c, v, v.order, now, perHop);
      case IdPurge(_, _) =>
      case NbInsert(_) =>
      case NbDelete(_, j) => NeighbourLostSane(i, c, v, j);
      case Repair(_, d, _, now, perHop) =>
      case RepairTimeout(_, d) => assert d in v.entries ==> EntrySane(c, d, v.entries[d]);
    }
  }

  lemma StepSane(n: Net, s: Step)
    requires Sane(n)
    ensures Sane(Next(n, s))
  {
    if Enabled(n, s) {
      var m := Next(n, s);
      OutcomeCounts(n, s);
      OutcomeSane(n, s, Outcome(n, s), CountersOf(m));
      forall i ensures NodeSane(m, i) {
        assert NodeSane(n, i);
        if i in n.nodes {
          StillSane(CountersOf(n), CountersOf(m), n.nodes[i].entries);
        }
      }
      forall x | x in m.sent ensures MsgSane(CountersOf(m), x) {
        if x in n.sent {
          MsgStillSane(CountersOf(n), CountersOf(m), x);
        }
      }
    }
  }

  /** In every run; and own numbers never fall. */
  lemma {:induction false} RunSane(n0: Net, steps: seq<Step>)
    requires Initial(n0)
    ensures Sane(After(n0, steps))
  {
    if steps != [] {
      var n, s := After(n0, steps[..|steps| - 1]), steps[|steps| - 1];
      RunSane(n0, steps[..|steps| - 1]);
      StepSane(n, s);
      if Enabled(n, s) {
        OutcomeCounts(n, s);
      }
    }
  }

  /** The assertions on link failures, expiries and errors: a finite route is not
      down and has an even number, so the bumped number is odd. */
  lemma ParityAsserts(n0: Net, steps: seq<Step>, n: Net, i: Addr, d: Addr)
    requires Initial(n0) && n == After(n0, steps) && i in n.nodes && d in n.nodes[i].entries
    ensures var e := n.nodes[i].entries[d];
            && (e.hops != INFINITY2 || e.flags.Up? ==> !e.flags.Down? && e.seqno % 2 == 0 && (e.seqno + 1) % 2 == 1)
            && e.seqno <= CountersOf(n)(d) + 1
  {
    RunSane(n0, steps);
    assert NodeSane(n, i);
    assert EntrySane(CountersOf(n), d, n.nodes[i].entries[d]);
  }

  /** In every run a destination answers a request that it has not heard with one
      reply, under a number above every entry for it in the network. */
  lemma ReplyIsFreshest(n0: Net, steps: seq<Step>, n: Net, q: Request, now: real)
    requires Initial(n0) && n == After(n0, steps) && Enabled(n, Deliver(q.dst, Rreq(q), now))
    requires q.src != q.dst && (q.src, q.bid) !in n.nodes[q.dst].ids
    ensures var f := Outcome(n, Deliver(q.dst, Rreq(q), now));
            && |f.sent| == 1 && f.sent[0].Rrep?
            && var p := f.sent[0].p;
               && p.dst == q.dst && p.requester == q.src && p.hops == 1 && p.dstSeq == f.node.seqno
               && forall i :: i in n.nodes && q.dst in n.nodes[i].entries ==>
                    n.nodes[i].entries[q.dst].seqno < p.dstSeq
  {
    RunSane(n0, steps);
    AnswerOutruns(n, q, now);
  }

  lemma AnswerOutruns(n: Net, q: Request, now: real)
    requires Sane(n) && Enabled(n, Deliver(q.dst, Rreq(q), now))
    requires q.src != q.dst && (q.src, q.bid) !in n.nodes[q.dst].ids
    ensures var f := Outcome(n, Deliver(q.dst, Rreq(q), now));
            && |f.sent| == 1 && f.sent[0].Rrep?
            && var p := f.sent[0].p;
               && p.dst == q.dst && p.requester == q.src && p.hops == 1 && p.dstSeq == f.node.seqno
               && forall i :: i in n.nodes && q.dst in n.nodes[i].entries ==>
                    n.nodes[i].entries[q.dst].seqno < p.dstSeq
  {
    assert NodeSane(n, q.dst);
    AodvEffects.DestinationAnswers(q.dst, n.nodes[q.dst], Hopped(q), now);
    forall i | i in n.nodes && q.dst in n.nodes[i].entries
      ensures n.nodes[i].entries[q.dst].seqno <= n.nodes[q.dst].seqno + 1
    {
      assert NodeSane(n, i);
      assert EntrySane(CountersOf(n), q.dst, n.nodes[i].entries[q.dst]);
    }
  }

  // ---------------------------------------------------------------------
  // Next hops are strictly better, unless a repair times out
  // ---------------------------------------------------------------------

  /** The timeout of a repair that finds its route still under repair. */
  predicate GivesUp(n: Net, s: Step) {
    && s.RepairTimeout? && s.node in n.nodes && s.dst in n.nodes[s.node].entries
    && n.nodes[s.node].entries[s.dst].flags.InRepair?
  }

  /** No repair is given up, and no reply has counted to infinity. */
  ghost predicate Clean(n: Net, s: Step) {
    Enabled(n, s) ==>
      && !GivesUp(n, s)
      && forall m :: m in Outcome(n, s).sent && m.Rrep? ==> m.p.hops < INFINITY2
  }

  ghost predicate CleanRun(n0: Net, steps: seq<Step>) {
    steps == [] ||
    var last := |steps| - 1;
    CleanRun(n0, steps[..last]) && Clean(After(n0, steps[..last]), steps[last])
  }

  predicate Better(e: Entry, hops: int, seqno: int) {
    e.seqno > seqno || (e.seqno == seqno && e.hops < hops)
  }

  predicate AtLeast(e: Entry, hops: int, seqno: int) {
    e.seqno > seqno || (e.seqno == seqno && e.hops <= hops)
  }

  predicate BetterIn(entries: map<Addr, Entry>, d: Addr, hops: int, seqno: int) {
    d in entries && Better(entries[d], hops, seqno)
  }

  predicate HoldsBetter(n: Net, i: Addr, d: Addr, hops: int, seqno: int) {
    i in n.nodes && BetterIn(n.nodes[i].entries, d, hops, seqno)
  }

  /** The number of a route that is down. */
  predicate Dead(seqno: int) {
    seqno == 0 || seqno % 2 == 1
  }

  predicate Settled(e: Entry) {
    if e.flags.Down? then e.hops == INFINITY2 && Dead(e.seqno) else e.hops < INFINITY2
  }

  predicate EntryBacked(n: Net, i: Addr, d: Addr, e: Entry) {
    && Settled(e)
    && (i != d && e.hops < INFINITY2 ==> e.next == d || HoldsBetter(n, e.next, d, e.hops, e.seqno))
  }

  /** What a message offers is worse than what its sender holds. */
  predicate Offered(n: Net, from: Addr, d: Addr, hops: int, seqno: int) {
    hops < INFINITY2 && (from == d || HoldsBetter(n, from, d, hops, seqno))
  }

  ghost predicate AllDead(lost: seq<Lost>) {
    forall l :: l in lost ==> Dead(l.seqno)
  }

  ghost predicate MsgBacked(n: Net, m: Msg) {
    match m
    case Rreq(q) => Offered(n, q.from, q.src, q.hops, q.srcSeq)
    case Rrep(p) => Offered(n, p.from, p.dst, p.hops, p.dstSeq)
    case Rerr(_, lost) => AllDead(lost)
  }

  ghost predicate TableBacked(n: Net, i: Addr, entries: map<Addr, Entry>) {
    forall d :: d in entries ==> EntryBacked(n, i, d, entries[d])
  }

  ghost predicate NodeBacked(n: Net, i: Addr) {
    i in n.nodes ==> TableBacked(n, i, n.nodes[i].entries)
  }

  ghost predicate Backed(n: Net) {
    && (forall i {:trigger NodeBacked(n, i)} :: NodeBacked(n, i))
    && forall m {:trigger m in n.sent} :: m in n.sent ==> MsgBacked(n, m)
  }

  /** Entry by entry, the rank does not decrease. */
  ghost predicate RanksGrow(t: map<Addr, Entry>, u: map<Addr, Entry>) {
    forall d :: d in t ==> d in u && AtLeast(u[d], t[d].hops, t[d].seqno)
  }

  ghost predicate NetGrows(n: Net, m: Net) {
    && n.nodes.Keys <= m.nodes.Keys
    && forall i {:trigger i in n.nodes} {:trigger i in m.nodes} ::
      i in n.nodes ==> RanksGrow(n.nodes[i].entries, m.nodes[i].entries)
  }

  lemma StillBacked(n: Net, m: Net, i: Addr, entries: map<Addr, Entry>)
    requires NetGrows(n, m) && TableBacked(n, i, entries)
    ensures TableBacked(m, i, entries)
  {
    forall d | d in entries ensures EntryBacked(m, i, d, entries[d]) {
      assert EntryBacked(n, i, d, entries[d]);
    }
  }

  lemma MsgStillBacked(n: Net, m: Net, x: Msg)
    requires NetGrows(n, m) && MsgBacked(n, x)
    ensures MsgBacked(m, x)
  {
  }

  /** The node's routes stay backed and only improve. */
  ghost predicate Improves(n: Net, i: Addr, t: map<Addr, Entry>, u: map<Addr, Entry>) {
    TableBacked(n, i, u) && RanksGrow(t, u)
  }

  lemma ImprovesChain(n: Net, i: Addr, t: map<Addr, Entry>, u: map<Addr, Entry>, v: map<Addr, Entry>)
    requires Improves(n, i, t, u) && Improves(n, i, u, v)
    ensures Improves(n, i, t, v)
  {
  }

  /** The entry's route is untouched. */
  predicate SameRoute(e: Entry, f: Entry) {
    e.seqno == f.seqno && e.hops == f.hops && e.next == f.next && e.flags == f.flags
  }

  lemma SameImproves(n: Net, i: Addr, t: map<Addr, Entry>, d: Addr, e: Entry)
    requires TableBacked(n, i, t) && d in t && SameRoute(t[d], e)
    ensures Improves(n, i, t, t[d := e])
  {
    assert EntryBacked(n, i, d, t[d]);
  }

  /** What the node itself sends, judged by its new table. */
  ghost predicate SentBacked(i: Addr, entries: map<Addr, Entry>, m: Msg) {
    match m
    case Rreq(q) => q.from == i && q.hops < INFINITY2 && (q.src == i || BetterIn(entries, q.src, q.hops, q.srcSeq))
    case Rrep(p) => p.from == i && (p.dst == i || BetterIn(entries, p.dst, p.hops, p.dstSeq))
    case Rerr(_, lost) => AllDead(lost)
  }

  ghost predicate EffectBacked(n: Net, i: Addr, v: Node, f: Effect) {
    && Improves(n, i, v.entries, f.node.entries)
    && forall m :: m in f.sent ==> SentBacked(i, f.node.entries, m)
  }

  lemma FlushedBacked(n: Net, i: Addr, v: Node, d: Addr, now: real)
    requires TableBacked(n, i, v.entries) && d in v.entries
    ensures Improves(n, i, v.entries, Flushed(i, v, d, now).entries)
    ensures SameRoute(v.entries[d], Flushed(i, v, d, now).entries[d])
  {
    if d in v.waiting {
      SameImproves(n, i, v.entries, d, Flushed(i, v, d, now).entries[d]);
    }
  }

  lemma AskedBacked(n: Net, i: Addr, v: Node, d: Addr, now: real, perHop: real)
    requires TableBacked(n, i, v.entries) && d in v.entries
    ensures EffectBacked(n, i, v, Asked(i, v, d, now, perHop))
  {
    var f := Asked(i, v, d, now, perHop);
    SameImproves(n, i, v.entries, d, f.node.entries[d]);
    assert f.node.entries == v.entries[d := f.node.entries[d]];
  }

  lemma ResolvedBacked(n: Net, i: Addr, v: Node, origin: Addr, d: Addr, now: real, perHop: real)
    requires TableBacked(n, i, v.entries)
    ensures EffectBacked(n, i, v, Resolved(i, v, origin, d, now, perHop))
  {
    var w := Ensured(v, d);
    var f := Resolved(i, v, origin, d, now, perHop);
    var e := w.entries[d];
    assert EntryBacked(n, i, d, e);
    if e.flags.Up? {
      SameImproves(n, i, w.entries, d, Used(i, d, e, now));
      ImprovesChain(n, i, v.entries, w.entries, f.node.entries);
    } else if origin == i {
      AskedBacked(n, i, w.(waiting := w.waiting + {d}), d, now, perHop);
      ImprovesChain(n, i, v.entries, w.entries, f.node.entries);
    }
  }

  /** Afterwards the node holds at least what the request offered. */
  lemma ReversedBacked(n: Net, i: Addr, v: Node, m: Request, now: real)
    requires TableBacked(n, i, v.entries) && m.src != i && Offered(n, m.from, m.src, m.hops, m.srcSeq)
    ensures Improves(n, i, v.entries, Reversed(i, v, m, now).entries)
    ensures AtLeast(Reversed(i, v, m, now).entries[m.src], m.hops, m.srcSeq)
  {
    var u := v.(ids := v.ids[(m.src, m.bid) := now + BCAST_ID_SAVE]);
    var w := Ensured(u, m.src);
    var e := w.entries[m.src];
    var x := With(w, m.src, ReverseEntry(e, m, now));
    if Fresher(e, m.srcSeq, m.hops) {
      FlushedBacked(n, i, x, m.src, now);
      ImprovesChain(n, i, w.entries, x.entries, Reversed(i, v, m, now).entries);
    } else {
      SameImproves(n, i, w.entries, m.src, ReverseEntry(e, m, now));
    }
    ImprovesChain(n, i, v.entries, w.entries, Reversed(i, v, m, now).entries);
  }

  lemma IntroducedBacked(n: Net, i: Addr, v: Node, dst: Addr, src: Addr)
    requires TableBacked(n, i, v.entries) && dst in v.entries && src in v.entries
    ensures Improves(n, i, v.entries, Introduced(v, dst, src).entries)
    ensures dst in Introduced(v, dst, src).entries && SameRoute(v.entries[dst], Introduced(v, dst, src).entries[dst])
  {
    var e := v.entries[dst];
    var w := With(v, dst, e.(precursors := e.precursors + {v.entries[src].next}));
    SameImproves(n, i, v.entries, dst, w.entries[dst]);
    SameImproves(n, i, w.entries, src, Introduced(v, dst, src).entries[src]);
    ImprovesChain(n, i, v.entries, w.entries, Introduced(v, dst, src).entries);
  }

  lemma RequestedBacked(n: Net, i: Addr, v: Node, m: Request, now: real, f: Effect)
    requires f == Requested(i, v, m, now)
    requires TableBacked(n, i, v.entries) && Offered(n, m.from, m.src, m.hops, m.srcSeq)
    requires m.hops + 1 < INFINITY2
    ensures EffectBacked(n, i, v, f)
  {
    if m.src != i && (m.src, m.bid) !in v.ids {
      var w := Reversed(i, v, m, now);
      ReversedBacked(n, i, v, m, now);
      if m.dst != i && CanAnswer(w, m) {
        IntroducedBacked(n, i, w, m.dst, m.src);
        ImprovesChain(n, i, v.entries, w.entries, Introduced(w, m.dst, m.src).entries);
      }
    }
  }

  lemma RelayedBacked(n: Net, i: Addr, v: Node, m: Reply, now: real)
    requires TableBacked(n, i, v.entries) && m.dst in v.entries && AtLeast(v.entries[m.dst], m.hops, m.dstSeq)
    ensures EffectBacked(n, i, v, Relayed(i, v, m, now))
  {
    if m.requester in v.entries && v.entries[m.requester].hops != INFINITY2 {
      var e0, f := v.entries[m.requester], Relayed(i, v, m, now);
      var w := if m.ttl == 0 then v else With(v, m.requester, e0.(expire := now + ACTIVE_ROUTE_TIMEOUT));
      SameImproves(n, i, v.entries, m.requester, w.entries[m.requester]);
      assert w.entries == v.entries[m.requester := w.entries[m.requester]];
      SameImproves(n, i, w.entries, m.dst, f.node.entries[m.dst]);
      ImprovesChain(n, i, v.entries, w.entries, f.node.entries);
    }
  }

  lemma RepliedBacked(n: Net, i: Addr, v: Node, m: Reply, now: real, f: Effect)
    requires f == Replied(i, v, m, now)
    requires TableBacked(n, i, v.entries) && Offered(n, m.from, m.dst, m.hops, m.dstSeq)
    ensures EffectBacked(n, i, v, f)
  {
    var w := Ensured(v, m.dst);
    var e := w.entries[m.dst];
    if Fresher(e, m.dstSeq, m.hops) {
      var x := With(w, m.dst, ForwardEntry(e, m, now));
      FlushedBacked(n, i, x, m.dst, now);
      var y := Flushed(i, x, m.dst, now);
      ImprovesChain(n, i, w.entries, x.entries, y.entries);
      ImprovesChain(n, i, v.entries, w.entries, y.entries);
      RelayedBacked(n, i, y, m, now);
      ImprovesChain(n, i, v.entries, y.entries, Relayed(i, y, m, now).node.entries);
    }
  }

  /** A finite route gives way to an error only for a higher number. */
  lemma TakenDown(c: Counters, n: Net, i: Addr, t: map<Addr, Entry>, l: Lost)
    requires TableSane(c, t) && TableBacked(n, i, t) && Dead(l.seqno)
    requires l.dst in t && t[l.dst].hops != INFINITY2 && t[l.dst].seqno <= l.seqno
    ensures Improves(n, i, t, t[l.dst := Downed(t[l.dst].(seqno := l.seqno)).(precursors := {})])
  {
    var e := t[l.dst];
    assert EntrySane(c, l.dst, e) && EntryBacked(n, i, l.dst, e);
  }

  lemma {:induction false} ErredBacked(c: Counters, n: Net, i: Addr, v: Node, from: Addr, lost: seq<Lost>)
    requires TableSane(c, v.entries) && LostSane(c, lost) && TableBacked(n, i, v.entries) && AllDead(lost)
    ensures var (w, passed) := Erred(v, from, lost); Improves(n, i, v.entries, w.entries) && AllDead(passed)
  {
    if lost != [] {
      var last := |lost| - 1;
      ErredBacked(c, n, i, v, from, lost[..last]);
      ErredSane(c, v, from, lost[..last]);
      var (w, _) := Erred(v, from, lost[..last]);
      if Hit(w, from, lost[last]) {
        TakenDown(c, n, i, w.entries, lost[last]);
        ImprovesChain(n, i, v.entries, w.entries, Erred(v, from, lost).0.entries);
      }
    }
  }

  lemma {:induction false} LostThroughDead(c: Counters, entries: map<Addr, Entry>, order: seq<Addr>, neighbour: Addr)
    requires TableSane(c, entries)
    ensures AllDead(LostThrough(entries, order, neighbour))
  {
    if order != [] {
      var d := order[|order| - 1];
      LostThroughDead(c, entries, order[..|order| - 1], neighbour);
      assert d in entries ==> EntrySane(c, d, entries[d]);
    }
  }

  lemma NeighbourLostBacked(c: Counters, n: Net, i: Addr, v: Node, neighbour: Addr)
    requires TableSane(c, v.entries) && TableBacked(n, i, v.entries)
    ensures EffectBacked(n, i, v, NeighbourLost(i, v, neighbour))
  {
    var u := SeveredAll(v.entries, neighbour);
    forall d | d in v.entries
      ensures EntryBacked(n, i, d, u[d]) && AtLeast(u[d], v.entries[d].hops, v.entries[d].seqno)
    {
      assert EntrySane(c, d, v.entries[d]) && EntryBacked(n, i, d, v.entries[d]);
    }
    LostThroughDead(c, v.entries, v.order, neighbour);
  }

  lemma PurgedOneBacked(c: Counters, n: Net, i: Addr, v: Node, f: Effect, d: Addr, now: real, perHop: real)
    requires TableSane(c, f.node.entries) && EffectBacked(n, i, v, f) && OwnRequests(i, f.sent)
    ensures EffectBacked(n, i, v, PurgedOne(i, f, d, now, perHop))
    ensures OwnRequests(i, PurgedOne(i, f, d, now, perHop).sent)
  {
    var u, g := f.node, PurgedOne(i, f, d, now, perHop);
    if d in u.entries {
      var e := u.entries[d];
      assert EntrySane(c, d, e) && EntryBacked(n, i, d, e);
      if e.flags.Up? {
        var e' := if e.expire < now then Downed(e.(seqno := e.seqno + 1)) else Used(i, d, e, now);
        ImprovesChain(n, i, v.entries, u.entries, u.entries[d := e']);
      } else if d in u.waiting {
        AskedBacked(n, i, u, d, now, perHop);
        ImprovesChain(n, i, v.entries, u.entries, g.node.entries);
      }
    }
  }

  /** The requests of a purge are the node's own. */
  ghost predicate OwnRequests(i: Addr, sent: seq<Msg>) {
    forall m :: m in sent ==> m.Rreq? && m.q.from == i && m.q.src == i
  }

  lemma {:induction false} PurgedBacked(c: Counters, n: Net, i: Addr, v: Node, order: seq<Addr>, now: real,
                                        perHop: real)
    requires TableSane(c, v.entries) && TableBacked(n, i, v.entries) && Even(v)
    requires Purged(i, v, order, now, perHop).node.seqno <= c(i)
    ensures EffectBacked(n, i, v, Purged(i, v, order, now, perHop))
    ensures OwnRequests(i, Purged(i, v, order, now, perHop).sent)
  {
    if order != [] {
      var d, f := order[|order| - 1], Purged(i, v, order[..|order| - 1], now, perHop);
      PurgedOneCounts(i, f, d, now, perHop);
      PurgedSane(i, c, v, order[..|order| - 1], now, perHop);
      PurgedBacked(c, n, i, v, order[..|order| - 1], now, perHop);
      PurgedOneBacked(c, n, i, v, f, d, now, perHop);
    }
  }

  lemma ReceivedBacked(c: Counters, n: Net, i: Addr, v: Node, m: Msg, now: real, f: Effect)
    requires f == Received(i, v, m, now)
    requires TableSane(c, v.entries) && MsgSane(c, m) && TableBacked(n, i, v.entries) && MsgBacked(n, m)
    ensures EffectBacked(n, i, v, f)
  {
    match m {
      case Rreq(q) => RequestedBacked(n, i, v, Hopped(q), now, f);
      case Rrep(p) => RepliedBacked(n, i, v, HoppedBack(p), now, f);
      case Rerr(_, _) => ErroredBacked(c, n, i, v, m, f);
    }
  }

  lemma ErroredBacked(c: Counters, n: Net, i: Addr, v: Node, m: Msg, f: Effect)
    requires m.Rerr? && f == Errored(i, v, m)
    requires TableSane(c, v.entries) && LostSane(c, m.lost) && TableBacked(n, i, v.entries) && AllDead(m.lost)
    ensures EffectBacked(n, i, v, f)
  {
    ErredBacked(c, n, i, v, m.from, m.lost);
  }

  lemma OutcomeBacked(n: Net, s: Step, f: Effect)
    requires Sane(n) && Backed(n) && Enabled(n, s) && Clean(n, s) && f == Outcome(n, s)
    ensures EffectBacked(n, s.node, n.nodes[s.node], f)
  {
    var i, v, c := s.node, n.nodes[s.node], CountersOf(Next(n, s));
    assert NodeSane(n, i) && NodeBacked(n, i);
    OutcomeCounts(n, s);
    StillSane(CountersOf(n), c, v.entries);
    match s {
      case Deliver(_, m, now) =>
        MsgStillSane(CountersOf(n), c, m);
        ReceivedBacked(c, n, i, v, m, now, f);
      case Data(_, origin, d, now, perHop) => ResolvedBacked(n, i, v, origin, d, now, perHop);
      case Purge(_, now, perHop) => PurgedBacked(c, n, i, v, v.order, now, perHop);
      case IdPurge(_, _) =>
      case NbInsert(_) =>
      case NbDelete(_, j) => NeighbourLostBacked(c, n, i, v, j);
      case Repair(_, d, _, now, perHop) => RepairingBacked(n, i, v, d, now, perHop);
      case RepairTimeout(_, d) => assert RepairFailed(v, d).entries == v.entries;
    }
  }

  /** A repair keeps the route that it marks. */
  lemma RepairingBacked(n: Net, i: Addr, v: Node, d: Addr, now: real, perHop: real)
    requires TableBacked(n, i, v.entries) && d in v.entries && v.entries[d].hops != INFINITY2
    ensures EffectBacked(n, i, v, Repairing(i, v, d, now, perHop))
  {
    var marked := v.entries[d].(flags := InRepair);
    var w := With(v, d, marked).(waiting := v.waiting + {d});
    assert EntryBacked(n, i, d, v.entries[d]) && EntryBacked(n, i, d, marked);
    AskedBacked(n, i, w, d, now, perHop);
    ImprovesChain(n, i, v.entries, w.entries, Repairing(i, v, d, now, perHop).node.entries);
  }

  /** The timeout of a repair keeps the rank of its route exactly if it does not
      give up: if the route is up again or already down. */
  lemma TimeoutKeepsRank(n: Net, i: Addr, d: Addr)
    requires Backed(n) && i in n.nodes && d in n.nodes[i].entries
    ensures var e := n.nodes[i].entries[d];
            var m := Next(n, RepairTimeout(i, d));
            && i in m.nodes && d in m.nodes[i].entries
            && (AtLeast(m.nodes[i].entries[d], e.hops, e.seqno) <==> !GivesUp(n, RepairTimeout(i, d)))
  {
    assert NodeBacked(n, i);
    assert EntryBacked(n, i, d, n.nodes[i].entries[d]);
  }

  lemma StepBacked(n: Net, s: Step)
    requires Sane(n) && Backed(n) && Clean(n, s)
    ensures Backed(Next(n, s)) && NetGrows(n, Next(n, s))
  {
    if Enabled(n, s) {
      var m := Next(n, s);
      OutcomeBacked(n, s, Outcome(n, s));
      forall i ensures NodeBacked(m, i) {
        assert NodeBacked(n, i);
        if i in n.nodes {
          StillBacked(n, m, i, m.nodes[i].entries);
        }
      }
      forall x | x in m.sent ensures MsgBacked(m, x) {
        if x in n.sent {
          MsgStillBacked(n, m, x);
        } else {
          assert SentBacked(s.node, m.nodes[s.node].entries, x);
        }
      }
    }
  }

  lemma {:induction false} RunBacked(n0: Net, steps: seq<Step>)
    requires Initial(n0) && CleanRun(n0, steps)
    ensures Sane(After(n0, steps)) && Backed(After(n0, steps))
  {
    RunSane(n0, steps);
    if steps != [] {
      RunBacked(n0, steps[..|steps| - 1]);
      StepBacked(After(n0, steps[..|steps| - 1]), steps[|steps| - 1]);
    }
  }

  /** The assertions that a route which is up has a finite hop count. */
  lemma UpIsFinite(n0: Net, steps: seq<Step>, n: Net, i: Addr, d: Addr)
    requires Initial(n0) && CleanRun(n0, steps) && n == After(n0, steps) && i in n.nodes && d in n.nodes[i].entries
    ensures n.nodes[i].entries[d].flags.Up? ==> n.nodes[i].entries[d].hops != INFINITY2
  {
    RunBacked(n0, steps);
    assert NodeBacked(n, i);
    assert EntryBacked(n, i, d, n.nodes[i].entries[d]);
  }

  // ---------------------------------------------------------------------
  // No loops
  // ---------------------------------------------------------------------

  /** A path along finite routes towards `d`; only its last node may be `d`, or
      have no such route. */
  predicate FollowsRoutes(n: Net, d: Addr, path: seq<Addr>) {
    forall k :: 0 <= k < |path| - 1 ==>
      && path[k] in n.nodes && path[k] != d && d in n.nodes[path[k]].entries
      && n.nodes[path[k]].entries[d].hops != INFINITY2
      && n.nodes[path[k]].entries[d].next == path[k + 1]
  }

  lemma HopIsBetter(n: Net, i: Addr, d: Addr)
    requires Backed(n) && i in n.nodes && i != d && d in n.nodes[i].entries
    requires n.nodes[i].entries[d].hops != INFINITY2
    ensures var e := n.nodes[i].entries[d]; e.next == d || HoldsBetter(n, e.next, d, e.hops, e.seqno)
  {
    assert NodeBacked(n, i);
    assert EntryBacked(n, i, d, n.nodes[i].entries[d]);
  }

  /** Along such a path every later node but the destination is strictly better. */
  lemma {:induction false} LaterIsBetter(n: Net, d: Addr, path: seq<Addr>, i: nat, j: nat)
    requires Backed(n) && FollowsRoutes(n, d, path) && i < j < |path| && path[j] != d
    ensures path[i] in n.nodes && d in n.nodes[path[i]].entries
    ensures var e := n.nodes[path[i]].entries[d]; HoldsBetter(n, path[j], d, e.hops, e.seqno)
    decreases j
  {
    HopIsBetter(n, path[j - 1], d);
    if i < j - 1 {
      LaterIsBetter(n, d, path, i, j - 1);
    }
  }

  /** Loop freedom: unless a repair was given up, a path along next hops is
      simple, so it ends after at most as many hops as there are nodes. */
  lemma {:induction false} LoopFree(n0: Net, steps: seq<Step>, n: Net, d: Addr, path: seq<Addr>)
    requires Initial(n0) && CleanRun(n0, steps) && n == After(n0, steps) && FollowsRoutes(n, d, path)
    ensures forall i, j :: 0 <= i < j < |path| ==> path[i] != path[j]
    ensures |path| <= |n0.nodes| + 1
  {
    RunBacked(n0, steps);
    forall i, j | 0 <= i < j < |path| ensures path[i] != path[j] {
      if path[j] != d {
        LaterIsBetter(n, d, path, i, j);
      }
    }
    SameNodes(n0, steps);
    if path != [] {
      SimpleBound(path[..|path| - 1], n.nodes.Keys);
    }
  }

  lemma {:induction false} SameNodes(n0: Net, steps: seq<Step>)
    ensures After(n0, steps).nodes.Keys == n0.nodes.Keys
  {
    if steps != [] {
      SameNodes(n0, steps[..|steps| - 1]);
    }
  }

  lemma {:induction false} SimpleBound(s: seq<Addr>, all: set<Addr>)
    requires forall i, j :: 0 <= i < j < |s| ==> s[i] != s[j]
    requires forall x :: x in s ==> x in all
    ensures |s| <= |all|
  {
    if s != [] {
      assert s[0] in s;
      forall x | x in s[1..] ensures x in all - {s[0]} {
        assert x in s;
      }
      SimpleBound(s[1..], all - {s[0]});
      assert |all - {s[0]}| == |all| - 1;
    }
  }
}
