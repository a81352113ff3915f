/** A network of DSDV agents whose updates may be delayed, lost, duplicated
    and reordered: which routes can be in the tables, and why next hops do not
    form a loop. */
module DsdvNetwork {
  import opened Common
  import opened DsdvCodec
  import opened DsdvQueue
  import opened Dsdv

  /** An agent's own counter and table. */
  datatype Node = Node(seqno: int, table: Table)

  /** An update on the air. */
  datatype Update = Update(sender: Addr, adverts: seq<Advert>)

  /** Every update ever sent stays deliverable. */
  datatype Net = Net(nodes: map<Addr, Node>, sent: set<Update>, alpha: real, wst0: real)

  datatype Step =
    | StartUp(node: Addr, now: real)
    | MakeUpdate(node: Addr, periodic: bool, now: real)
    | Deliver(node: Addr, update: Update, now: real)
    | Timeout(node: Addr, neighbour: Addr, now: real)
    | Data(node: Addr, dst: Addr, packet: Waiting, now: real)

  /** An agent does not process its own updates, so it never watches itself; and
      nothing comes after an update one of whose flushes never ends. */
  predicate Enabled(n: Net, s: Step) {
    && s.node in n.nodes
    && (s.Deliver? ==>
          && s.update in n.sent && s.update.sender != s.node
          && AllEnd(ParamsOf(n, s.node), n.nodes[s.node].table, s.update.sender, s.update.adverts, s.now))
    && (s.Timeout? ==> s.neighbour in n.nodes[s.node].table.entries && s.neighbour != s.node)
  }

  function ParamsOf(n: Net, i: Addr): Params {
    Params(i, n.alpha, n.wst0)
  }

  /** The node after its own step. */
  function Moved(n: Net, s: Step): Node
    requires Enabled(n, s)
  {
    var v, g := n.nodes[s.node], ParamsOf(n, s.node);
    match s
    case StartUp(i, now) => Node(v.seqno + 2, Put(v.table, i, FirstOwn(i, v.seqno, now)))
    case MakeUpdate(i, requested, now) =>
      var periodic := Promoted(v.table, requested, now);
      var t := Refreshed(i, v.seqno, v.table, periodic, now);
      Node(if periodic then v.seqno + 2 else v.seqno, Table(t.order, Marked(t.entries, periodic, now)))
    case Deliver(_, p, now) => v.(table := Process(g, v.table, p.sender, p.adverts, now))
    case Timeout(_, j, now) => v.(table := TimedOut(v.table, j, now))
    case Data(_, d, w, now) => v.(table := Received(g, v.table, d, w, now))
  }

  /** The update a step sends. */
  function Emitted(n: Net, s: Step): set<Update>
    requires Enabled(n, s)
  {
    if !s.MakeUpdate? then {}
    else
      var v := n.nodes[s.node];
      var periodic := Promoted(v.table, s.periodic, s.now);
      {Update(s.node, Adverts(Refreshed(s.node, v.seqno, v.table, periodic, s.now), periodic, s.now))}
  }

  /** A step that is not enabled does nothing. */
  function Next(n: Net, s: Step): Net {
    if Enabled(n, s) then n.(nodes := n.nodes[s.node := Moved(n, s)], sent := n.sent + Emitted(n, s)) else n
  }

  function After(n: Net, steps: seq<Step>): Net {
    if steps == [] then n else Next(After(n, steps[..|steps| - 1]), steps[|steps| - 1])
  }

  predicate Initial(n: Net) {
    n.sent == {} && forall i :: i in n.nodes ==> n.nodes[i] == Node(0, Table([], map[]))
  }

  // ---------------------------------------------------------------------
  // Sequence numbers follow the destination's counter, in every run
  // ---------------------------------------------------------------------

  function Counter(n: Net, d: Addr): int {
    if d in n.nodes then n.nodes[d].seqno else 0
  }

  /** A finite metric carries an even number the destination has issued; a break
      may be one above it. */
  predicate Plausible(n: Net, d: Addr, metric: int, seqnum: int) {
    && 0 <= metric <= BIG
    && 0 <= seqnum <= Counter(n, d) + 1
    && (metric < BIG ==> seqnum % 2 == 0 && seqnum <= Counter(n, d))
  }

  predicate EntrySane(n: Net, i: Addr, d: Addr, e: Rte) {
    && Plausible(n, d, e.metric, e.seqnum)
    && (e.metric == 0 ==> i == d)
    && (e.metric == 1 ==> e.hop == d)
    && (e.queue != [] ==> e.metric == BIG)
    && (i == d ==> e.hop == i && e.seqnum <= Counter(n, i))
  }

  predicate AdvertSane(n: Net, sender: Addr, a: Advert) {
    Plausible(n, a.dst, a.metric, a.seqnum) && (a.metric == 0 ==> sender == a.dst)
  }

  ghost predicate TableSane(n: Net, i: Addr, t: Table) {
    forall d :: d in t.entries ==> EntrySane(n, i, d, t.entries[d])
  }

  ghost predicate PacketSane(n: Net, p: Update) {
    p.sender in n.nodes && forall a :: a in p.adverts ==> AdvertSane(n, p.sender, a)
  }

  ghost predicate NodeSane(n: Net, i: Addr) {
    i in n.nodes ==> n.nodes[i].seqno >= 0 && n.nodes[i].seqno % 2 == 0 && WellFormed(n.nodes[i].table)
                     && TableSane(n, i, n.nodes[i].table)
  }

  ghost predicate Sane(n: Net) {
    && (forall i {:trigger NodeSane(n, i)} :: NodeSane(n, i))
    && (forall p {:trigger PacketSane(n, p)} :: p in n.sent ==> PacketSane(n, p))
  }

  /** Counters only grow. */
  ghost predicate CountersGrow(n: Net, m: Net) {
    n.nodes.Keys <= m.nodes.Keys && forall d :: Counter(n, d) <= Counter(m, d)
  }

  lemma StillSane(n: Net, m: Net, i: Addr, t: Table)
    requires CountersGrow(n, m) && TableSane(n, i, t)
    ensures TableSane(m, i, t)
  {
    forall d | d in t.entries ensures EntrySane(m, i, d, t.entries[d]) {
      assert EntrySane(n, i, d, t.entries[d]);
      assert Counter(n, d) <= Counter(m, d) && Counter(n, i) <= Counter(m, i);
    }
  }

  lemma LearnSane(n: Net, g: Params, t: Table, from: Addr, a: Advert, now: real)
    requires WellFormed(t) && TableSane(n, g.self, t) && AdvertSane(n, from, a) && from != g.self
    ensures WellFormed(Learn(g, t, from, a, now)) && TableSane(n, g.self, Learn(g, t, from, a, now))
  {
    var u := Learn(g, t, from, a, now);
    assert u == t || (a.dst in u.entries && u == Put(t, a.dst, u.entries[a.dst]));
    assert a.dst in t.entries ==> EntrySane(n, g.self, a.dst, t.entries[a.dst]);
  }

  lemma {:induction false} LearnAllSane(n: Net, g: Params, t: Table, from: Addr, adverts: seq<Advert>, now: real)
    requires WellFormed(t) && TableSane(n, g.self, t) && from != g.self
    requires forall a :: a in adverts ==> AdvertSane(n, from, a)
    ensures WellFormed(LearnAll(g, t, from, adverts, now)) && TableSane(n, g.self, LearnAll(g, t, from, adverts, now))
  {
    if adverts != [] {
      var last := |adverts| - 1;
      LearnAllSane(n, g, t, from, adverts[..last], now);
      LearnSane(n, g, LearnAll(g, t, from, adverts[..last], now), from, adverts[last], now);
    }
  }

  lemma TimedOutSane(n: Net, i: Addr, t: Table, neighbour: Addr, now: real)
    requires WellFormed(t) && TableSane(n, i, t) && neighbour != i
    ensures WellFormed(TimedOut(t, neighbour, now)) && TableSane(n, i, TimedOut(t, neighbour, now))
  {
    var u := TimedOut(t, neighbour, now);
    assert u.entries.Keys == t.entries.Keys;
    forall d | d in u.entries ensures EntrySane(n, i, d, u.entries[d]) {
      assert EntrySane(n, i, d, t.entries[d]);
    }
  }

  lemma ReceivedSane(n: Net, i: Addr, t: Table, d: Addr, w: Waiting, now: real)
    requires WellFormed(t) && TableSane(n, i, t) && Counter(n, d) >= 0
    ensures var u := Received(ParamsOf(n, i), t, d, w, now); WellFormed(u) && TableSane(n, i, u)
  {
    var u := Received(ParamsOf(n, i), t, d, w, now);
    assert u == t || (d in u.entries && u == Put(t, d, u.entries[d]));
    assert d in u.entries ==> EntrySane(n, i, d, u.entries[d]);
  }

  lemma MarkedSane(n: Net, i: Addr, t: Table, periodic: bool, now: real)
    requires WellFormed(t) && TableSane(n, i, t)
    ensures var u := Table(t.order, Marked(t.entries, periodic, now)); WellFormed(u) && TableSane(n, i, u)
  {
    var u := Table(t.order, Marked(t.entries, periodic, now));
    assert u.entries.Keys == t.entries.Keys;
    forall d | d in u.entries ensures EntrySane(n, i, d, u.entries[d]) {
      assert EntrySane(n, i, d, t.entries[d]);
    }
  }

  /** What an update says is what the table says. */
  lemma {:induction false} SelectedFrom(entries: map<Addr, Rte>, order: seq<Addr>, periodic: bool, now: real, a: Advert)
    requires a in Selected(entries, order, periodic, now)
    ensures a.dst in entries && a == AdvertOf(a.dst, entries[a.dst])
  {
    var last := |order| - 1;
    if a in Selected(entries, order[..last], periodic, now) {
      SelectedFrom(entries, order[..last], periodic, now, a);
    }
  }

  lemma AdvertsSane(n: Net, i: Addr, t: Table, periodic: bool, now: real)
    requires TableSane(n, i, t) && i in n.nodes
    ensures PacketSane(n, Update(i, Adverts(t, periodic, now)))
  {
    forall a | a in Adverts(t, periodic, now) ensures AdvertSane(n, i, a) {
      SelectedFrom(t.entries, t.order, periodic, now, a);
      assert EntrySane(n, i, a.dst, t.entries[a.dst]);
    }
  }

  /** The own entry of a start or a periodic update. */
  lemma OwnSane(n: Net, i: Addr, t: Table, e: Rte)
    requires i in n.nodes && WellFormed(t) && TableSane(n, i, t)
    requires e.hop == i && e.metric == 0 && e.queue == [] && e.seqnum % 2 == 0 && 0 <= e.seqnum <= n.nodes[i].seqno
    ensures WellFormed(Put(t, i, e)) && TableSane(n, i, Put(t, i, e))
  {
  }

  lemma CountersStart(n: Net)
    requires Sane(n)
    ensures forall x :: Counter(n, x) >= 0
  {
    forall x ensures Counter(n, x) >= 0 {
      assert NodeSane(n, x);
    }
  }

  lemma MovedGrows(n: Net, s: Step)
    requires Sane(n) && Enabled(n, s)
    ensures CountersGrow(n, Next(n, s)) && NodeSane(n, s.node) && Moved(n, s).seqno % 2 == 0
    ensures forall x :: Counter(n, x) >= 0
  {
    CountersStart(n);
    assert NodeSane(n, s.node);
  }

  /** The mover's table and its update stay sane. */
  lemma MovedSane(n: Net, s: Step)
    requires Sane(n) && Enabled(n, s)
    ensures var m := Next(n, s);
            WellFormed(m.nodes[s.node].table) && TableSane(m, s.node, m.nodes[s.node].table)
            && forall p :: p in Emitted(n, s) ==> PacketSane(m, p)
  {
    var m, i, t, g := Next(n, s), s.node, n.nodes[s.node].table, ParamsOf(n, s.node);
    MovedGrows(n, s);
    match s {
      case StartUp(_, now) =>
        StillSane(n, m, i, t);
        OwnSane(m, i, t, FirstOwn(i, n.nodes[i].seqno, now));
      case MakeUpdate(_, requested, now) =>
        var periodic := Promoted(t, requested, now);
        StillSane(n, m, i, t);
        RefreshedSane(m, i, n.nodes[i].seqno, t, periodic, now);
        MarkedSane(m, i, Refreshed(i, n.nodes[i].seqno, t, periodic, now), periodic, now);
        AdvertsSane(m, i, Refreshed(i, n.nodes[i].seqno, t, periodic, now), periodic, now);
      case Deliver(_, p, now) =>
        DeliverSane(n, i, t, p, now);
        StillSane(n, m, i, Process(g, t, p.sender, p.adverts, now));
      case Timeout(_, j, now) =>
        TimedOutSane(n, i, t, j, now);
        StillSane(n, m, i, TimedOut(t, j, now));
      case Data(_, d, w, now) =>
        ReceivedSane(n, i, t, d, w, now);
        StillSane(n, m, i, Received(g, t, d, w, now));
    }
  }

  lemma RefreshedSane(m: Net, i: Addr, seqno: int, t: Table, periodic: bool, now: real)
    requires i in m.nodes && WellFormed(t) && TableSane(m, i, t) && seqno >= 0 && seqno % 2 == 0
    requires periodic ==> m.nodes[i].seqno == seqno + 2
    ensures var u := Refreshed(i, seqno, t, periodic, now); WellFormed(u) && TableSane(m, i, u)
  {
    if periodic {
      OwnSane(m, i, t, PeriodicOwn(i, seqno + 2, now));
    }
  }

  lemma DeliverSane(n: Net, i: Addr, t: Table, p: Update, now: real)
    requires Sane(n) && p in n.sent && p.sender != i && WellFormed(t) && TableSane(n, i, t)
    ensures var u := Process(ParamsOf(n, i), t, p.sender, p.adverts, now); WellFormed(u) && TableSane(n, i, u)
  {
    assert PacketSane(n, p) && NodeSane(n, p.sender);
    LearnAllSane(n, ParamsOf(n, i), t, p.sender, p.adverts, now);
  }

  lemma StepSane(n: Net, s: Step)
    requires Sane(n)
    ensures Sane(Next(n, s))
  {
    if Enabled(n, s) {
      var m := Next(n, s);
      MovedGrows(n, s);
      MovedSane(n, s);
      forall i ensures NodeSane(m, i) {
        assert NodeSane(n, i);
        if i in n.nodes && i != s.node {
          StillSane(n, m, i, n.nodes[i].table);
        }
      }
      forall p | p in m.sent ensures PacketSane(m, p) {
        if p in n.sent {
          assert PacketSane(n, p);
        }
      }
    }
  }

  /** In every run, flushes of stale offers included. */
  lemma {:induction false} RunSane(n0: Net, steps: seq<Step>)
    requires Initial(n0)
    ensures Sane(After(n0, steps))
  {
    if steps != [] {
      RunSane(n0, steps[..|steps| - 1]);
      StepSane(After(n0, steps[..|steps| - 1]), steps[|steps| - 1]);
    }
  }

  /** What a sane network says of one entry: a node advertises its own address
      only, a finite route carries an even number its destination has issued,
      a broken one at most the number after it. */
  lemma RoutesAreIssued(n0: Net, steps: seq<Step>, n: Net, i: Addr, d: Addr)
    requires Initial(n0) && n == After(n0, steps) && i in n.nodes && d in n.nodes[i].table.entries
    ensures var e := n.nodes[i].table.entries[d];
            && 0 <= e.seqnum <= Counter(n, d) + 1
            && (e.metric < BIG ==> e.seqnum % 2 == 0 && e.seqnum <= Counter(n, d))
            && (e.metric == 0 ==> i == d)
  {
    RunSane(n0, steps);
    assert NodeSane(n, i);
    assert EntrySane(n, i, d, n.nodes[i].table.entries[d]);
  }

  /** In every run, the flush that a finite advert brings about ends exactly if
      the advert is accepted or no own packet waits. */
  lemma FlushesThatEnd(n0: Net, steps: seq<Step>, n: Net, i: Addr, a: Advert)
    requires Initial(n0) && n == After(n0, steps) && i in n.nodes && a.dst in n.nodes[i].table.entries
    requires Flushes(n.nodes[i].table.entries[a.dst], a)
    ensures var e := n.nodes[i].table.entries[a.dst];
            && (FlushEnds(e.queue, UsableMeanwhile(e, a)) <==> Accepts(e, a) || !HasOwn(e.queue))
            && (FlushEnds(e.queue, UsableMeanwhile(e, a)) <==> Ends(e, a))
  {
    RunSane(n0, steps);
    assert NodeSane(n, i);
    assert EntrySane(n, i, a.dst, n.nodes[i].table.entries[a.dst]);
    FlushEndsIfAccepted(n.nodes[i].table.entries[a.dst], a);
  }

  // ---------------------------------------------------------------------
  // The own entry, once started
  // ---------------------------------------------------------------------

  predicate HasOwnEntry(n: Net, i: Addr) {
    && i in n.nodes && i in n.nodes[i].table.entries
    && var e := n.nodes[i].table.entries[i];
       e.hop == i && e.metric == 0 && e.advertiseOkAt == 0.0
  }

  /** No step takes the own entry away. */
  lemma OwnEntryStays(n: Net, s: Step, i: Addr)
    requires HasOwnEntry(n, i)
    ensures HasOwnEntry(Next(n, s), i)
  {
    if Enabled(n, s) && s.node == i {
      var t := n.nodes[i].table;
      match s {
        case StartUp(_, _) =>
        case MakeUpdate(_, _, _) =>
        case Deliver(_, p, now) => OwnUntouchedByUpdate(ParamsOf(n, i), t, p.sender, p.adverts, now);
        case Timeout(_, j, now) => OwnUntouchedByTimeout(i, t, j, now);
        case Data(_, d, w, now) => assert Received(ParamsOf(n, i), t, d, w, now).entries[i] == t.entries[i];
      }
    }
  }

  /** An agent that was started has its own entry for good. */
  lemma {:induction false} StartedHasOwnEntry(n0: Net, steps: seq<Step>, i: Addr, k: nat)
    requires i in n0.nodes && k < |steps| && steps[k].StartUp? && steps[k].node == i
    ensures HasOwnEntry(After(n0, steps), i)
  {
    var last := |steps| - 1;
    SameNodes(n0, steps[..last]);
    if k < last {
      StartedHasOwnEntry(n0, steps[..last], i, k);
      OwnEntryStays(After(n0, steps[..last]), steps[last], i);
    }
  }

  lemma {:induction false} SameNodes(n0: Net, steps: seq<Step>)
    ensures After(n0, steps).nodes.Keys == n0.nodes.Keys
  {
    if steps != [] {
      SameNodes(n0, steps[..|steps| - 1]);
    }
  }

  /** So after its start an agent never fails the count assertion of an update. */
  lemma CountsAfterStart(n0: Net, steps: seq<Step>, n: Net, i: Addr, k: nat, requested: bool, now: real)
    requires Initial(n0) && n == After(n0, steps) && i in n0.nodes
    requires k < |steps| && steps[k].StartUp? && steps[k].node == i && now >= 0.0
    ensures i in n.nodes
    ensures var v := n.nodes[i];
            var periodic := Promoted(v.table, requested, now);
            Announced(v.table, periodic, now) == |Adverts(Refreshed(i, v.seqno, v.table, periodic, now), periodic, now)|
  {
    RunSane(n0, steps);
    StartedHasOwnEntry(n0, steps, i, k);
    assert NodeSane(n, i);
    var v := n.nodes[i];
    CountExact(i, v.seqno, v.table, Promoted(v.table, requested, now), now);
  }

  // ---------------------------------------------------------------------
  // Next hops are strictly better, in runs without stale flushes
  // ---------------------------------------------------------------------

  predicate CleanAll(g: Params, t: Table, from: Addr, adverts: seq<Advert>, now: real) {
    adverts == [] ||
    var last := |adverts| - 1;
    && CleanAll(g, t, from, adverts[..last], now)
    && !StaleFlush(g, LearnAll(g, t, from, adverts[..last], now), adverts[last])
  }

  /** No packet waits for a route whose finite advert is rejected as stale. */
  predicate Clean(n: Net, s: Step) {
    Enabled(n, s) && s.Deliver? ==>
      CleanAll(ParamsOf(n, s.node), n.nodes[s.node].table, s.update.sender, s.update.adverts, s.now)
  }

  predicate CleanRun(n0: Net, steps: seq<Step>) {
    steps == [] ||
    var last := |steps| - 1;
    CleanRun(n0, steps[..last]) && Clean(After(n0, steps[..last]), steps[last])
  }

  /** Node `i` has an entry for `d` at least as good as the given rank. */
  predicate Holds(n: Net, i: Addr, d: Addr, metric: int, seqnum: int) {
    i in n.nodes && d in n.nodes[i].table.entries && AtLeast(n.nodes[i].table.entries[d], metric, seqnum)
  }

  predicate HoldsBetter(n: Net, i: Addr, d: Addr, metric: int, seqnum: int) {
    i in n.nodes && d in n.nodes[i].table.entries && Better(n.nodes[i].table.entries[d], metric, seqnum)
  }

  predicate EntryBacked(n: Net, i: Addr, d: Addr, e: Rte) {
    i != d && e.metric < BIG ==> e.hop == d || HoldsBetter(n, e.hop, d, e.metric, e.seqnum)
  }

  predicate AdvertBacked(n: Net, sender: Addr, a: Advert) {
    Holds(n, sender, a.dst, a.metric, a.seqnum)
  }

  ghost predicate TableBacked(n: Net, i: Addr, t: Table) {
    forall d :: d in t.entries ==> EntryBacked(n, i, d, t.entries[d])
  }

  ghost predicate PacketBacked(n: Net, p: Update) {
    forall a :: a in p.adverts ==> AdvertBacked(n, p.sender, a)
  }

  ghost predicate NodeBacked(n: Net, i: Addr) {
    i in n.nodes ==> TableBacked(n, i, n.nodes[i].table)
  }

  ghost predicate Backed(n: Net) {
    && (forall i {:trigger NodeBacked(n, i)} :: NodeBacked(n, i))
    && (forall p {:trigger PacketBacked(n, p)} :: p in n.sent ==> PacketBacked(n, p))
  }

  /** Entry by entry, the rank does not decrease. */
  ghost predicate RanksGrow(t: Table, u: Table) {
    forall d :: d in t.entries ==> d in u.entries && AtLeast(u.entries[d], t.entries[d].metric, t.entries[d].seqnum)
  }

  ghost predicate NetGrows(n: Net, m: Net) {
    n.nodes.Keys <= m.nodes.Keys
    && forall i {:trigger i in n.nodes} {:trigger i in m.nodes} ::
      i in n.nodes ==> RanksGrow(n.nodes[i].table, m.nodes[i].table)
  }

  lemma StillBacked(n: Net, m: Net, i: Addr, t: Table)
    requires NetGrows(n, m) && TableBacked(n, i, t)
    ensures TableBacked(m, i, t)
  {
    forall d | d in t.entries ensures EntryBacked(m, i, d, t.entries[d]) {
      assert EntryBacked(n, i, d, t.entries[d]);
    }
  }

  lemma LearnBacked(n: Net, g: Params, t: Table, from: Addr, a: Advert, now: real)
    requires TableSane(n, g.self, t) && AdvertSane(n, from, a) && !StaleFlush(g, t, a)
    requires TableBacked(n, g.self, t) && AdvertBacked(n, from, a)
    ensures var u := Learn(g, t, from, a, now); TableBacked(n, g.self, u) && RanksGrow(t, u)
  {
    var u := Learn(g, t, from, a, now);
    if a.dst in t.entries {
      assert EntrySane(n, g.self, a.dst, t.entries[a.dst]) && EntryBacked(n, g.self, a.dst, t.entries[a.dst]);
      LearnKeepsRank(g, t, from, a, now);
    }
    forall d | d in u.entries ensures EntryBacked(n, g.self, d, u.entries[d]) {
      if d != a.dst {
        assert EntryBacked(n, g.self, d, t.entries[d]);
      }
    }
  }

  lemma {:induction false} LearnAllBacked(n: Net, g: Params, t: Table, from: Addr, adverts: seq<Advert>, now: real)
    requires WellFormed(t) && TableSane(n, g.self, t) && TableBacked(n, g.self, t) && from != g.self
    requires CleanAll(g, t, from, adverts, now)
    requires forall a :: a in adverts ==> AdvertSane(n, from, a)
    requires forall a :: a in adverts ==> AdvertBacked(n, from, a)
    ensures var u := LearnAll(g, t, from, adverts, now); TableBacked(n, g.self, u) && RanksGrow(t, u)
  {
    if adverts != [] {
      var last := |adverts| - 1;
      var before := LearnAll(g, t, from, adverts[..last], now);
      LearnAllSane(n, g, t, from, adverts[..last], now);
      LearnAllBacked(n, g, t, from, adverts[..last], now);
      LearnBacked(n, g, before, from, adverts[last], now);
    }
  }

  lemma DeliverBacked(n: Net, i: Addr, t: Table, p: Update, now: real)
    requires Sane(n) && Backed(n) && i in n.nodes && t == n.nodes[i].table && p in n.sent && p.sender != i
    requires CleanAll(ParamsOf(n, i), t, p.sender, p.adverts, now)
    ensures var u := Process(ParamsOf(n, i), t, p.sender, p.adverts, now); TableBacked(n, i, u) && RanksGrow(t, u)
  {
    assert NodeSane(n, i) && NodeBacked(n, i) && PacketSane(n, p) && PacketBacked(n, p);
    LearnAllBacked(n, ParamsOf(n, i), t, p.sender, p.adverts, now);
  }

  lemma TimedOutBacked(n: Net, i: Addr, t: Table, j: Addr, now: real)
    requires TableBacked(n, i, t)
    ensures TableBacked(n, i, TimedOut(t, j, now)) && RanksGrow(t, TimedOut(t, j, now))
  {
    var u := TimedOut(t, j, now);
    assert u.entries.Keys == t.entries.Keys;
    forall d | d in u.entries ensures EntryBacked(n, i, d, u.entries[d]) {
      assert EntryBacked(n, i, d, t.entries[d]);
    }
  }

  lemma MarkedBacked(n: Net, i: Addr, t: Table, periodic: bool, now: real)
    requires TableBacked(n, i, t)
    ensures var u := Table(t.order, Marked(t.entries, periodic, now)); TableBacked(n, i, u) && RanksGrow(t, u)
  {
    var u := Table(t.order, Marked(t.entries, periodic, now));
    assert u.entries.Keys == t.entries.Keys;
    forall d | d in u.entries ensures EntryBacked(n, i, d, u.entries[d]) {
      assert EntryBacked(n, i, d, t.entries[d]);
    }
  }

  lemma ReceivedBacked(n: Net, i: Addr, t: Table, d: Addr, w: Waiting, now: real)
    requires TableBacked(n, i, t)
    ensures var u := Received(ParamsOf(n, i), t, d, w, now); TableBacked(n, i, u) && RanksGrow(t, u)
  {
    var u := Received(ParamsOf(n, i), t, d, w, now);
    assert u == t || (d in u.entries && u == Put(t, d, u.entries[d]) && u.entries[d].metric == BIG);
    forall x | x in u.entries ensures EntryBacked(n, i, x, u.entries[x]) {
      assert x in t.entries ==> EntryBacked(n, i, x, t.entries[x]);
    }
  }

  /** The own entry of a start or a periodic update. */
  lemma OwnBacked(n: Net, i: Addr, t: Table, e: Rte)
    requires TableBacked(n, i, t) && TableSane(n, i, t) && e.metric == 0 && e.seqnum >= Counter(n, i)
    ensures TableBacked(n, i, Put(t, i, e)) && RanksGrow(t, Put(t, i, e))
  {
    var u := Put(t, i, e);
    assert i in t.entries ==> EntrySane(n, i, i, t.entries[i]);
    forall x | x in u.entries ensures EntryBacked(n, i, x, u.entries[x]) {
      assert x in t.entries ==> EntryBacked(n, i, x, t.entries[x]);
    }
  }

  /** The mover's new table, judged in the old network. */
  lemma MovedBacked(n: Net, s: Step)
    requires Sane(n) && Backed(n) && Enabled(n, s) && Clean(n, s)
    ensures TableBacked(n, s.node, Moved(n, s).table) && RanksGrow(n.nodes[s.node].table, Moved(n, s).table)
  {
    var i, t := s.node, n.nodes[s.node].table;
    assert NodeSane(n, i) && NodeBacked(n, i);
    match s {
      case StartUp(_, now) => OwnBacked(n, i, t, FirstOwn(i, n.nodes[i].seqno, now));
      case MakeUpdate(_, requested, now) =>
        var periodic := Promoted(t, requested, now);
        var own := PeriodicOwn(i, n.nodes[i].seqno + 2, now);
        var u := Refreshed(i, n.nodes[i].seqno, t, periodic, now);
        OwnBacked(n, i, t, own);
        assert u == t || u == Put(t, i, own);
        MarkedBacked(n, i, u, periodic, now);
      case Deliver(_, p, now) => DeliverBacked(n, i, t, p, now);
      case Timeout(_, j, now) => TimedOutBacked(n, i, t, j, now);
      case Data(_, d, w, now) => ReceivedBacked(n, i, t, d, w, now);
    }
  }

  /** What is sent is in the sender's table. */
  lemma EmittedBacked(n: Net, s: Step, p: Update)
    requires Enabled(n, s) && p in Emitted(n, s)
    ensures PacketBacked(Next(n, s), p)
  {
    var v, m := n.nodes[s.node], Next(n, s);
    var periodic := Promoted(v.table, s.periodic, s.now);
    var t := Refreshed(s.node, v.seqno, v.table, periodic, s.now);
    forall a | a in p.adverts ensures AdvertBacked(m, p.sender, a) {
      SelectedFrom(t.entries, t.order, periodic, s.now, a);
      assert m.nodes[s.node].table.entries == Marked(t.entries, periodic, s.now);
    }
  }

  lemma StepBacked(n: Net, s: Step)
    requires Sane(n) && Backed(n) && Clean(n, s)
    ensures Backed(Next(n, s)) && NetGrows(n, Next(n, s))
  {
    if Enabled(n, s) {
      var m := Next(n, s);
      MovedBacked(n, s);
      forall i ensures NodeBacked(m, i) {
        assert NodeBacked(n, i);
        if i in n.nodes {
          StillBacked(n, m, i, m.nodes[i].table);
        }
      }
      forall p | p in m.sent ensures PacketBacked(m, p) {
        if p in n.sent {
          assert PacketBacked(n, p);
        } else {
          EmittedBacked(n, s, p);
        }
      }
    }
  }

  lemma {:induction false} RunBacked(n0: Net, steps: seq<Step>)
    requires Initial(n0) && CleanRun(n0, steps)
    ensures Sane(After(n0, steps)) && Backed(After(n0, steps))
  {
    RunSane(n0, steps);
    if steps != [] {
      RunBacked(n0, steps[..|steps| - 1]);
      StepBacked(After(n0, steps[..|steps| - 1]), steps[|steps| - 1]);
    }
  }

  // ---------------------------------------------------------------------
  // No loops
  // ---------------------------------------------------------------------

  /** A path along next hops towards `d`; only its last node may be `d`, or have
      no usable route. */
  predicate FollowsRoutes(n: Net, d: Addr, path: seq<Addr>) {
    forall k :: 0 <= k < |path| - 1 ==>
      && path[k] in n.nodes && path[k] != d && Routable(n.nodes[path[k]].table, d)
      && NextHop(n.nodes[path[k]].table, d) == path[k + 1]
  }

  lemma HopIsBetter(n: Net, i: Addr, d: Addr)
    requires Sane(n) && Backed(n) && i in n.nodes && i != d && Routable(n.nodes[i].table, d)
    ensures var e := n.nodes[i].table.entries[d];
            var next := NextHop(n.nodes[i].table, d);
            next == d || HoldsBetter(n, next, d, e.metric, e.seqnum)
  {
    assert NodeSane(n, i) && NodeBacked(n, i);
    assert EntrySane(n, i, d, n.nodes[i].table.entries[d]) && EntryBacked(n, i, d, n.nodes[i].table.entries[d]);
  }

  /** Along such a path every later node but the destination is strictly better. */
  lemma {:induction false} LaterIsBetter(n: Net, d: Addr, path: seq<Addr>, i: nat, j: nat)
    requires Sane(n) && Backed(n) && FollowsRoutes(n, d, path) && i < j < |path| && path[j] != d
    ensures path[i] in n.nodes && d in n.nodes[path[i]].table.entries
    ensures var e := n.nodes[path[i]].table.entries[d]; HoldsBetter(n, path[j], d, e.metric, e.seqnum)
    decreases j
  {
    HopIsBetter(n, path[j - 1], d);
    if i < j - 1 {
      LaterIsBetter(n, d, path, i, j - 1);
    }
  }

  /** Loop freedom: in a run without stale flushes, following next hops never
      comes back to a node. */
  lemma LoopFree(n0: Net, steps: seq<Step>, n: Net, d: Addr, path: seq<Addr>, i: nat, j: nat)
    requires Initial(n0) && CleanRun(n0, steps) && n == After(n0, steps)
    requires FollowsRoutes(n, d, path) && i < j < |path|
    ensures path[i] != path[j]
  {
    RunBacked(n0, steps);
    if path[j] != d {
      LaterIsBetter(n, d, path, i, j);
    }
  }
}
