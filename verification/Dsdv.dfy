/** The DSDV agent: a table of sequence-numbered distance-vector routes, the
    updates that advertise it and the events that change it. */
module Dsdv {
  import opened Common
  import opened DsdvCodec
  import opened DsdvQueue

  /** The infinite metric. */
  const BIG := 250

  /** A week: how far away "check back later" is. */
  const NOT_YET := 604800.0

  /** `rtable_ent`, filed under its destination. `timeout` tells that a timeout
      is pending, `queue` holds the packets that wait for the route. */
  datatype Rte = Rte(hop: Addr, metric: int, seqnum: int, advertSeqnum: bool, advertMetric: bool,
                     advertiseOkAt: real, changedAt: real, newSeqnumAt: real, wst: real,
                     lastAdvertised: int, timeout: bool, queue: Queue)

  /** `RoutingTable`: the entries and the order in which they are walked. */
  datatype Table = Table(order: seq<Addr>, entries: map<Addr, Rte>)

  /** What is fixed for an agent: its address and its settling-time weights. */
  datatype Params = Params(self: Addr, alpha: real, wst0: real)

  /** The order lists each entry once. */
  ghost predicate WellFormed(t: Table) {
    && (forall d :: d in t.order <==> d in t.entries)
    && forall i, j :: 0 <= i < j < |t.order| ==> t.order[i] != t.order[j]
  }

  /** `AddEntry`: overwrites by destination. */
  function Put(t: Table, d: Addr, e: Rte): Table {
    Table(if d in t.entries then t.order else t.order + [d], t.entries[d := e])
  }

  lemma PutWellFormed(t: Table, d: Addr, e: Rte)
    requires WellFormed(t)
    ensures WellFormed(Put(t, d, e))
  {
  }

  // ---------------------------------------------------------------------
  // Hearing an advertised route
  // ---------------------------------------------------------------------

  /** The metric through the neighbour that advertises `metric`. */
  function OneFurther(metric: int): int {
    if metric != BIG then metric + 1 else BIG
  }

  /** The settling time, averaged over the sequence number that ends. */
  function Smoothed(g: Params, was: Rte): real {
    g.alpha * was.wst + (1.0 - g.alpha) * (was.changedAt - was.newSeqnumAt)
  }

  /** The route an advert offers for a destination with entry `was`, before the
      decision to use it. */
  function Offer(g: Params, was: Rte, from: Addr, a: Advert, now: real): Rte {
    var metric := OneFurther(a.metric);
    var same := was.seqnum == a.seqnum;
    var wst := if same then was.wst else Smoothed(g, was);
    was.(hop := from, metric := metric, seqnum := a.seqnum, changedAt := now, wst := wst,
         newSeqnumAt := if same then was.newSeqnumAt else now,
         advertiseOkAt := if metric != BIG && was.metric != BIG then now + wst * 2.0 else now)
  }

  /** The entry for a destination never heard of. */
  function Newcomer(g: Params, from: Addr, a: Advert, now: real): Rte {
    var metric := OneFurther(a.metric);
    Rte(from, metric, a.seqnum, false, metric < BIG, if metric != BIG then now + g.wst0 * 2.0 else now,
        now, now, g.wst0, 0, false, [])
  }

  /** The agent believes a fresher number, or a shorter route of equal number. */
  predicate Accepts(was: Rte, a: Advert) {
    a.seqnum > was.seqnum || (a.seqnum == was.seqnum && OneFurther(a.metric) < was.metric)
  }

  /** The accepted offer with its advertising flags. */
  function Accepted(was: Rte, offer: Rte): Rte {
    offer.(advertMetric := offer.metric != was.lastAdvertised,
           advertSeqnum := was.advertSeqnum || offer.seqnum > was.seqnum)
  }

  /** A finite offer flushes the waiting packets. */
  predicate Flushes(was: Rte, a: Advert) {
    was.queue != [] && OneFurther(a.metric) != BIG
  }

  /** The route is usable while its finite offer is flushed. */
  predicate UsableMeanwhile(was: Rte, a: Advert) {
    Accepts(was, a) || was.metric != BIG
  }

  /** The flush, if any, comes to an end. */
  predicate Ends(was: Rte, a: Advert) {
    Flushes(was, a) ==> UsableMeanwhile(was, a) || !HasOwn(was.queue)
  }

  /** The entry after an advert for it: taken over, left alone or, when the
      neighbour believes a stale break, made ready to correct the neighbour.
      A flush that ends files the offer, accepted or not; while one that does not
      end goes on, the route stays what it was. */
  function Updated(g: Params, was: Rte, from: Addr, a: Advert, now: real): Rte {
    var offer := Offer(g, was, from, a, now);
    var rte := if Accepts(was, a) then Accepted(was, offer) else offer;
    if Flushes(was, a) then if Ends(was, a) then rte.(queue := []) else was
    else if Accepts(was, a) then rte
    else if was.seqnum > a.seqnum && offer.metric == BIG && was.metric != BIG then
      was.(advertiseOkAt := now, advertMetric := true)
    else was
  }

  /** One advertised route of an update from `from`. */
  function Learn(g: Params, t: Table, from: Addr, a: Advert, now: real): Table {
    if a.dst == g.self then t
    else if a.dst !in t.entries then Put(t, a.dst, Newcomer(g, from, a, now))
    else Put(t, a.dst, Updated(g, t.entries[a.dst], from, a, now))
  }

  /** The flush that the advert brings about, if any, ends. */
  predicate LearnEnds(g: Params, t: Table, a: Advert) {
    a.dst != g.self && a.dst in t.entries ==> Ends(t.entries[a.dst], a)
  }

  /** The packets that leave at an advert whose flush ends. */
  function Departures(g: Params, t: Table, a: Advert): seq<Waiting> {
    if a.dst == g.self || a.dst !in t.entries then []
    else
      var e := t.entries[a.dst];
      if Flushes(e, a) && UsableMeanwhile(e, a) then Departing(e.queue) else []
  }

  function LearnAll(g: Params, t: Table, from: Addr, adverts: seq<Advert>, now: real): Table {
    if adverts == [] then t
    else Learn(g, LearnAll(g, t, from, adverts[..|adverts| - 1], now), from, adverts[|adverts| - 1], now)
  }

  /** No flush of the update goes on for ever. */
  predicate AllEnd(g: Params, t: Table, from: Addr, adverts: seq<Advert>, now: real) {
    adverts == [] ||
    var last := |adverts| - 1;
    AllEnd(g, t, from, adverts[..last], now) && LearnEnds(g, LearnAll(g, t, from, adverts[..last], now), adverts[last])
  }

  /** The route kept only to carry the timeout of a neighbour that did not
      advertise itself. */
  function FakeRte(g: Params, from: Addr, now: real): Rte {
    Rte(from, 1, 0, false, false, now + NOT_YET, now, now, g.wst0, 0, true, [])
  }

  /** The end of an update: the sender's timeout is pending. */
  function Watch(g: Params, t: Table, from: Addr, now: real): Table {
    Put(t, from, if from in t.entries then t.entries[from].(timeout := true) else FakeRte(g, from, now))
  }

  /** `processUpdate`. */
  function Process(g: Params, t: Table, from: Addr, adverts: seq<Advert>, now: real): Table {
    Watch(g, LearnAll(g, t, from, adverts, now), from, now)
  }

  // ---------------------------------------------------------------------
  // Timeouts, data packets, the own entry
  // ---------------------------------------------------------------------

  predicate Uses(e: Rte, neighbour: Addr) {
    e.hop == neighbour && e.metric != BIG
  }

  function Broken(e: Rte, now: real): Rte {
    e.(metric := BIG, advertiseOkAt := now, advertMetric := true, advertSeqnum := true, seqnum := e.seqnum + 1)
  }

  /** The loop of a timeout: every route through the neighbour breaks. */
  function BreakAll(entries: map<Addr, Rte>, neighbour: Addr, now: real): map<Addr, Rte> {
    map d | d in entries :: if Uses(entries[d], neighbour) then Broken(entries[d], now) else entries[d]
  }

  /** A timeout of the entry for `neighbour`. */
  function TimedOut(t: Table, neighbour: Addr, now: real): Table {
    var broken := BreakAll(t.entries, neighbour, now);
    Table(t.order, if neighbour in broken then broken[neighbour := broken[neighbour].(timeout := false)] else broken)
  }

  /** A usable route. */
  predicate Routable(t: Table, d: Addr) {
    d in t.entries && t.entries[d].metric != BIG
  }

  /** Where `forwardPacket` sends a packet for `d` with a usable route. */
  function NextHop(t: Table, d: Addr): Addr
    requires Routable(t, d)
  {
    if t.entries[d].metric > 1 then t.entries[d].hop else d
  }

  /** The entry of a destination never heard of that a packet waits for. */
  function Awaited(g: Params, d: Addr, w: Waiting, now: real): Rte {
    Rte(d, BIG, 0, false, false, now + NOT_YET, now, now, g.wst0, 0, false, [w])
  }

  /** `forwardPacket`: with no usable route the packet waits. */
  function Forwarded(g: Params, t: Table, d: Addr, w: Waiting, now: real): Table {
    if Routable(t, d) then t
    else if d in t.entries then Put(t, d, t.entries[d].(queue := Enqueued(t.entries[d].queue, w)))
    else Put(t, d, Awaited(g, d, w, now))
  }

  /** `recv` for a data packet. */
  function Received(g: Params, t: Table, d: Addr, w: Waiting, now: real): Table {
    match Admitted(w)
    case None => t
    case Some(x) => Forwarded(g, t, d, x, now)
  }

  /** The entry of `startUp`. */
  function FirstOwn(self: Addr, seqnum: int, now: real): Rte {
    Rte(self, 0, seqnum, true, true, 0.0, now, now, 0.0, 0, false, [])
  }

  /** The own entry of a periodic update. */
  function PeriodicOwn(self: Addr, seqnum: int, now: real): Rte {
    FirstOwn(self, seqnum, now).(advertMetric := false)
  }

  lemma {:induction false} OwnUnlearned(g: Params, t: Table, from: Addr, adverts: seq<Advert>, now: real)
    ensures var u := LearnAll(g, t, from, adverts, now);
            (g.self in u.entries <==> g.self in t.entries)
            && (g.self in t.entries ==> u.entries[g.self] == t.entries[g.self])
  {
    if adverts != [] {
      OwnUnlearned(g, t, from, adverts[..|adverts| - 1], now);
    }
  }

  /** No update of another node creates or changes the own entry. */
  lemma OwnUntouchedByUpdate(g: Params, t: Table, from: Addr, adverts: seq<Advert>, now: real)
    requires from != g.self
    ensures var u := Process(g, t, from, adverts, now);
            (g.self in u.entries <==> g.self in t.entries)
            && (g.self in t.entries ==> u.entries[g.self] == t.entries[g.self])
  {
    OwnUnlearned(g, t, from, adverts, now);
  }

  /** No timeout of another node does either. */
  lemma OwnUntouchedByTimeout(self: Addr, t: Table, neighbour: Addr, now: real)
    requires neighbour != self && self in t.entries && t.entries[self].hop == self
    ensures self in TimedOut(t, neighbour, now).entries
    ensures TimedOut(t, neighbour, now).entries[self] == t.entries[self]
  {
    assert self in BreakAll(t.entries, neighbour, now);
  }

  // ---------------------------------------------------------------------
  // Which updates keep the rank of a route
  // ---------------------------------------------------------------------

  /** `e` is fresher than number `seqnum`, or as fresh and shorter than `metric`. */
  predicate Better(e: Rte, metric: int, seqnum: int) {
    e.seqnum > seqnum || (e.seqnum == seqnum && e.metric < metric)
  }

  predicate AtLeast(e: Rte, metric: int, seqnum: int) {
    e.seqnum > seqnum || (e.seqnum == seqnum && e.metric <= metric)
  }

  /** Packets wait for a route, a finite advert for it is stale, and the flush
      ends: it files the advert although it was rejected. */
  predicate StaleFlush(g: Params, t: Table, a: Advert) {
    && a.dst != g.self && a.dst in t.entries
    && Flushes(t.entries[a.dst], a) && Ends(t.entries[a.dst], a)
    && a.seqnum < t.entries[a.dst].seqnum
  }

  /** The flush of a route that packets wait for because it is broken ends exactly
      if the offer was accepted or no own packet waits. */
  lemma FlushEndsIfAccepted(was: Rte, a: Advert)
    requires Flushes(was, a) && was.metric == BIG
    ensures FlushEnds(was.queue, UsableMeanwhile(was, a)) <==> Accepts(was, a) || !HasOwn(was.queue)
    ensures FlushEnds(was.queue, UsableMeanwhile(was, a)) <==> Ends(was, a)
  {
    FlushEndsExactly(was.queue, UsableMeanwhile(was, a));
  }

  /** An advert lowers a route's rank exactly when it is flushed stale. */
  lemma LearnKeepsRank(g: Params, t: Table, from: Addr, a: Advert, now: real)
    requires a.dst in t.entries && t.entries[a.dst].metric <= BIG && 0 <= a.metric <= BIG
    requires t.entries[a.dst].queue != [] ==> t.entries[a.dst].metric == BIG
    ensures var e, u := t.entries[a.dst], Learn(g, t, from, a, now);
            a.dst in u.entries && (AtLeast(u.entries[a.dst], e.metric, e.seqnum) <==> !StaleFlush(g, t, a))
  {
    var e := t.entries[a.dst];
    if a.dst != g.self {
      var u := Updated(g, e, from, a, now);
      assert Learn(g, t, from, a, now).entries[a.dst] == u;
      assert StaleFlush(g, t, a) ==> u.seqnum == a.seqnum;
    }
  }

  // ---------------------------------------------------------------------
  // Making an update
  // ---------------------------------------------------------------------

  predicate Includes(e: Rte, periodic: bool, now: real) {
    e.advertiseOkAt <= now && (periodic || e.advertSeqnum || e.advertMetric)
  }

  function AdvertOf(d: Addr, e: Rte): Advert {
    Advert(d, e.metric, e.seqnum)
  }

  /** The adverts of an update, in table order. */
  function Selected(entries: map<Addr, Rte>, order: seq<Addr>, periodic: bool, now: real): seq<Advert> {
    if order == [] then []
    else
      var d, before := order[|order| - 1], Selected(entries, order[..|order| - 1], periodic, now);
      if d in entries && Includes(entries[d], periodic, now) then before + [AdvertOf(d, entries[d])] else before
  }

  /** A triggered update with many changes becomes a periodic one. */
  predicate Promoted(t: Table, periodic: bool, now: real) {
    var changed := |Selected(t.entries, t.order, false, now)|;
    periodic || (changed * 3 > |t.order| && changed > 3)
  }

  /** The table an update is made from. */
  function Refreshed(self: Addr, seqno: int, t: Table, periodic: bool, now: real): Table {
    if periodic then Put(t, self, PeriodicOwn(self, seqno + 2, now)) else t
  }

  /** The adverts of the update made from `t`. */
  function Adverts(t: Table, periodic: bool, now: real): seq<Advert> {
    Selected(t.entries, t.order, periodic, now)
  }

  function Sent(e: Rte, periodic: bool): Rte {
    e.(lastAdvertised := e.metric, advertSeqnum := false, advertMetric := e.advertMetric && !periodic)
  }

  function Marked(entries: map<Addr, Rte>, periodic: bool, now: real): map<Addr, Rte> {
    map d | d in entries :: if Includes(entries[d], periodic, now) then Sent(entries[d], periodic) else entries[d]
  }

  /** The count an update announces, which a periodic one computes before it
      files the own entry. */
  function Announced(t: Table, periodic: bool, now: real): int {
    |Selected(t.entries, t.order, periodic, now)|
  }

  /** The own entry is in the table and may be advertised. */
  predicate OwnReady(self: Addr, t: Table, now: real) {
    self in t.entries && t.entries[self].advertiseOkAt <= now
  }

  lemma {:induction false} SelectedGrows(entries: map<Addr, Rte>, order: seq<Addr>, k: nat, periodic: bool, now: real)
    requires k <= |order|
    ensures |Selected(entries, order[..k], periodic, now)| <= |Selected(entries, order, periodic, now)|
  {
    if k < |order| {
      SelectedGrows(entries, order[..|order| - 1], k, periodic, now);
      assert order[..|order| - 1][..k] == order[..k];
    } else {
      assert order[..k] == order;
    }
  }

  /** One step of the walk over the table. */
  lemma SelectedStep(entries: map<Addr, Rte>, order: seq<Addr>, k: nat, periodic: bool, now: real)
    requires k < |order| && forall d :: d in order ==> d in entries
    ensures var d, before := order[k], Selected(entries, order[..k], periodic, now);
            Selected(entries, order[..k + 1], periodic, now)
            == if Includes(entries[d], periodic, now) then before + [AdvertOf(d, entries[d])] else before
  {
    assert order[..k + 1][..k] == order[..k];
  }

  lemma {:induction false} SelectedSame(entries: map<Addr, Rte>, other: map<Addr, Rte>, order: seq<Addr>, d: Addr,
                                        e: Rte, periodic: bool, now: real)
    requires other == entries[d := e] && d !in order && forall x :: x in order ==> x in entries
    ensures Selected(other, order, periodic, now) == Selected(entries, order, periodic, now)
  {
    if order != [] {
      SelectedSame(entries, other, order[..|order| - 1], d, e, periodic, now);
    }
  }

  /** Replacing one entry by an advertised one changes the size of a periodic
      update only if the was entry was held back. */
  lemma {:induction false} SelectedReplaced(entries: map<Addr, Rte>, order: seq<Addr>, d: Addr, e: Rte, now: real)
    requires forall x :: x in order ==> x in entries
    requires forall i, j :: 0 <= i < j < |order| ==> order[i] != order[j]
    requires d in order && e.advertiseOkAt <= now
    ensures |Selected(entries[d := e], order, true, now)|
            == |Selected(entries, order, true, now)| + if entries[d].advertiseOkAt <= now then 0 else 1
  {
    var last := |order| - 1;
    if order[last] == d {
      SelectedSame(entries, entries[d := e], order[..last], d, e, true, now);
    } else {
      SelectedReplaced(entries, order[..last], d, e, now);
    }
  }

  /** The announced count is the number of records exactly when the update is
      triggered or the own entry was in the table and ready. */
  lemma CountExact(self: Addr, seqno: int, t: Table, periodic: bool, now: real)
    requires WellFormed(t) && now >= 0.0
    ensures WellFormed(Refreshed(self, seqno, t, periodic, now))
    ensures Announced(t, periodic, now) == |Adverts(Refreshed(self, seqno, t, periodic, now), periodic, now)|
            <==> (periodic ==> OwnReady(self, t, now))
  {
    if periodic {
      OwnCount(t, self, PeriodicOwn(self, seqno + 2, now), now);
    }
  }

  lemma OwnCount(t: Table, self: Addr, e: Rte, now: real)
    requires WellFormed(t) && e.advertiseOkAt <= now
    ensures WellFormed(Put(t, self, e))
    ensures |Adverts(Put(t, self, e), true, now)| == Announced(t, true, now) + if OwnReady(self, t, now) then 0 else 1
  {
    PutWellFormed(t, self, e);
    if self in t.entries {
      SelectedReplaced(t.entries, t.order, self, e, now);
    } else {
      SelectedAppended(t.entries, t.order, self, e, now);
    }
  }

  lemma SelectedAppended(entries: map<Addr, Rte>, order: seq<Addr>, d: Addr, e: Rte, now: real)
    requires d !in order && e.advertiseOkAt <= now && forall x :: x in order ==> x in entries
    ensures |Selected(entries[d := e], order + [d], true, now)| == |Selected(entries, order, true, now)| + 1
  {
    SelectedSame(entries, entries[d := e], order, d, e, true, now);
    assert (order + [d])[..|order|] == order;
  }

  lemma {:induction false} SelectedExactly(entries: map<Addr, Rte>, order: seq<Addr>, periodic: bool, now: real,
                                           a: Advert)
    requires forall d :: d in order ==> d in entries
    ensures a in Selected(entries, order, periodic, now)
            <==> a.dst in order && Includes(entries[a.dst], periodic, now) && a == AdvertOf(a.dst, entries[a.dst])
    ensures |Selected(entries, order, periodic, now)| <= |order|
  {
    if order != [] {
      var last := |order| - 1;
      SelectedExactly(entries, order[..last], periodic, now, a);
      assert a.dst in order <==> a.dst in order[..last] || a.dst == order[last];
    }
  }

  /** An update advertises exactly the includable routes, with their metrics and
      numbers. */
  lemma AdvertsExactly(t: Table, periodic: bool, now: real, a: Advert)
    requires WellFormed(t)
    ensures a in Adverts(t, periodic, now)
            <==> && a.dst in t.entries && a.metric == t.entries[a.dst].metric && a.seqnum == t.entries[a.dst].seqnum
                 && t.entries[a.dst].advertiseOkAt <= now
                 && (periodic || t.entries[a.dst].advertSeqnum || t.entries[a.dst].advertMetric)
  {
    SelectedExactly(t.entries, t.order, periodic, now, a);
  }

  /** Two adverts of an update stand in table order. */
  lemma {:induction false} AdvertsInOrder(entries: map<Addr, Rte>, order: seq<Addr>, periodic: bool, now: real,
                                          i: nat, j: nat) returns (k: nat, l: nat)
    requires forall d :: d in order ==> d in entries
    requires i < j < |Selected(entries, order, periodic, now)|
    ensures k < l < |order|
    ensures Selected(entries, order, periodic, now)[i].dst == order[k]
    ensures Selected(entries, order, periodic, now)[j].dst == order[l]
  {
    var last := |order| - 1;
    var before := Selected(entries, order[..last], periodic, now);
    if j < |before| {
      k, l := AdvertsInOrder(entries, order[..last], periodic, now, i, j);
    } else {
      l := last;
      SelectedExactly(entries, order[..last], periodic, now, before[i]);
      k :| 0 <= k < last && order[..last][k] == before[i].dst;
    }
  }

  /** A table of at most 255 entries is heard as it was advertised. */
  lemma UpdateRoundTrip(t: Table, periodic: bool, now: real)
    requires WellFormed(t) && |t.order| < 256
    requires forall d :: d in t.entries ==> Fits(AdvertOf(d, t.entries[d]))
    ensures Complete(Encode(Adverts(t, periodic, now)))
    ensures Parse(Encode(Adverts(t, periodic, now))) == Adverts(t, periodic, now)
  {
    var adverts := Adverts(t, periodic, now);
    forall a | a in adverts ensures Fits(a) {
      AdvertsExactly(t, periodic, now, a);
    }
    SelectedExactly(t.entries, t.order, periodic, now, Advert(0, 0, 0));
    RoundTrip(adverts);
  }

  // ---------------------------------------------------------------------
  // The agent
  // ---------------------------------------------------------------------

  class DsdvAgent {
    const self: Addr
    const alpha: real
    const wst0: real
    var seqno: int
    var order: seq<Addr>
    var entries: map<Addr, Rte>

    function TheTable(): Table
      reads this
    {
      Table(order, entries)
    }

    function TheParams(): Params {
      Params(self, alpha, wst0)
    }

    ghost predicate Valid()
      reads this
    {
      WellFormed(TheTable())
    }

    constructor (self: Addr, alpha: real, wst0: real)
      ensures Valid() && TheParams() == Params(self, alpha, wst0)
      ensures seqno == 0 && TheTable() == Table([], map[])
    {
      this.self, this.alpha, this.wst0 := self, alpha, wst0;
      seqno, order, entries := 0, [], map[];
    }

    method AddEntry(d: Addr, e: Rte)
      requires Valid()
      modifies this`order, this`entries
      ensures Valid() && TheTable() == Put(old(TheTable()), d, e)
    {
      if d !in entries {
        order := order + [d];
      }
      entries := entries[d := e];
    }

    method StartUp(now: real)
      requires Valid()
      modifies this`seqno, this`order, this`entries
      ensures Valid() && seqno == old(seqno) + 2
      ensures TheTable() == Put(old(TheTable()), self, FirstOwn(self, old(seqno), now))
    {
      var rte := Rte(self, 0, seqno, true, true, 0.0, now, now, 0.0, 0, false, []);
      seqno := seqno + 2;
      AddEntry(self, rte);
    }

    /** One record of an update: the packets that leave, and whether the record is
        ever done with. */
    method Hear(from: Addr, dst: Addr, advertised: int, seqnum: int, now: real)
      returns (ended: bool, left: seq<Waiting>)
      requires Valid()
      modifies this`order, this`entries
      ensures Valid()
      ensures var a := Advert(dst, advertised, seqnum);
              && ended == LearnEnds(TheParams(), old(TheTable()), a)
              && TheTable() == Learn(TheParams(), old(TheTable()), from, a, now)
              && left == (if ended then Departures(TheParams(), old(TheTable()), a) else [])
    {
      ended, left := true, [];
      var metric := advertised;
      if metric != BIG {
        metric := metric + 1;
      }
      if dst == self {
        return;
      }
      if dst !in entries {
        var okAt := if metric != BIG then now + wst0 * 2.0 else now;
        AddEntry(dst, Rte(from, metric, seqnum, false, metric < BIG, okAt, now, now, wst0, 0, false, []));
        return;
      }
      ended, left := HearKnown(from, dst, metric, seqnum, now, Advert(dst, advertised, seqnum));
    }

    /** A record for a destination in the table. */
    method HearKnown(from: Addr, dst: Addr, metric: int, seqnum: int, now: real, ghost a: Advert)
      returns (ended: bool, left: seq<Waiting>)
      requires Valid() && dst in entries && dst != self
      requires a.dst == dst && metric == OneFurther(a.metric) && seqnum == a.seqnum
      modifies this`order, this`entries
      ensures Valid()
      ensures ended == Ends(old(entries[dst]), a)
      ensures TheTable() == Put(old(TheTable()), dst, Updated(TheParams(), old(entries[dst]), from, a, now))
      ensures left == (if ended then Departures(TheParams(), old(TheTable()), a) else [])
    {
      ghost var t0 := TheTable();
      ended, left := true, [];
      var prte := entries[dst];
      var rte := MetaData(prte, from, metric, seqnum, now, a);
      if prte.seqnum == seqnum {
        if metric < prte.metric {
          rte := rte.(advertMetric := metric != prte.lastAdvertised);
          AddEntry(dst, rte);
        }
      } else if prte.seqnum < seqnum {
        rte := rte.(advertSeqnum := true, advertMetric := metric != prte.lastAdvertised);
        AddEntry(dst, rte);
      } else if metric == BIG && prte.metric != BIG {
        AddEntry(dst, prte.(advertiseOkAt := now, advertMetric := true));
      }
      assert TheTable() == Put(t0, dst, entries[dst]);
      if rte.queue != [] && metric != BIG {
        ended, left := FlushWaiting(dst, rte);
      }
    }

    /** The flush at the end of a record, which files `rte` unless it goes on for
        ever. */
    method FlushWaiting(dst: Addr, rte: Rte) returns (ended: bool, left: seq<Waiting>)
      requires Valid() && dst in entries
      modifies this`order, this`entries
      ensures Valid()
      ensures var routable := old(entries[dst]).metric != BIG;
              && ended == (routable || !HasOwn(rte.queue))
              && left == (if routable then Departing(rte.queue) else [])
              && TheTable() == if ended then Put(old(TheTable()), dst, rte.(queue := [])) else old(TheTable())
    {
      var routable := entries[dst].metric != BIG;
      left := [];
      ended := routable || !HasOwn(rte.queue);
      if ended {
        left := Flush(rte.queue, routable);
        AddEntry(dst, rte.(queue := []));
      }
    }

    /** The new route's fields, before the decision to use it. */
    method MetaData(prte: Rte, from: Addr, metric: int, seqnum: int, now: real, ghost a: Advert) returns (rte: Rte)
      requires metric == OneFurther(a.metric) && seqnum == a.seqnum
      ensures rte == Offer(TheParams(), prte, from, a, now)
    {
      rte := prte.(hop := from, metric := metric, seqnum := seqnum, changedAt := now);
      if prte.seqnum != seqnum {
        rte := rte.(wst := Smoothed(TheParams(), prte), newSeqnumAt := now);
      }
      if metric != BIG && prte.metric != BIG {
        rte := rte.(advertiseOkAt := now + rte.wst * 2.0);
      } else {
        rte := rte.(advertiseOkAt := now);
      }
    }

    /** The walk over the packet, byte by byte, then the sender's timeout. */
    method ProcessUpdate(from: Addr, packet: seq<Byte>, now: real) returns (ended: bool)
      requires Valid() && Complete(packet)
      modifies this`order, this`entries
      ensures Valid()
      ensures ended == AllEnd(TheParams(), old(TheTable()), from, Parse(packet), now)
      ensures ended ==> TheTable() == Process(TheParams(), old(TheTable()), from, Parse(packet), now)
    {
      var i: int, w: nat := packet[0], 1;
      ghost var t0, n := TheTable(), i;
      while i > 0
        invariant 0 <= i <= n == packet[0] && w == 9 * (n - i) + 1 && Valid()
        invariant Heard(TheParams(), t0, from, packet, n - i, now, TheTable())
      {
        ended := HearRecord(from, packet, w, now, t0, n - i);
        if !ended {
          return;
        }
        w := w + 9;
        i := i - 1;
      }
      ended := true;
      if from in entries {
        AddEntry(from, entries[from].(timeout := true));
      } else {
        AddEntry(from, Rte(from, 1, 0, false, false, now + NOT_YET, now, now, wst0, 0, true, []));
      }
    }

    /** The record at offset `w`, the one after the first `k`. */
    method HearRecord(from: Addr, packet: seq<Byte>, w: nat, now: real, ghost t0: Table, ghost k: nat)
      returns (ended: bool)
      requires Valid() && Complete(packet) && k < packet[0] && w == 9 * k + 1
      requires Heard(TheParams(), t0, from, packet, k, now, TheTable())
      modifies this`order, this`entries
      ensures Valid()
      ensures ended ==> Heard(TheParams(), t0, from, packet, k + 1, now, TheTable())
      ensures !ended ==> !AllEnd(TheParams(), t0, from, Parse(packet), now)
    {
      var dst, metric, seqnum := ReadRecord(packet, w);
      HeardStep(TheParams(), t0, from, packet, k, now, TheTable());
      var left;
      ended, left := Hear(from, dst, metric, seqnum, now);
      if !ended {
        NotAllEnd(TheParams(), t0, from, packet, k + 1, now);
      }
    }

    /** Nine bytes of a record. */
    static method ReadRecord(packet: seq<Byte>, at: nat) returns (dst: Addr, metric: int, seqnum: int)
      requires at + 9 <= |packet|
      ensures Advert(dst, metric, seqnum) == ReadAt(packet, at)
    {
      var w := at;
      dst, w := packet[w], w + 1;
      dst, w := dst * 256 + packet[w], w + 1;
      dst, w := dst * 256 + packet[w], w + 1;
      dst, w := Signed(dst * 256 + packet[w]), w + 1;
      metric, w := packet[w], w + 1;
      seqnum, w := packet[w], w + 1;
      seqnum, w := seqnum * 256 + packet[w], w + 1;
      seqnum, w := seqnum * 256 + packet[w], w + 1;
      seqnum := seqnum * 256 + packet[w];
    }

    /** The timeout branch of `helper_callback`. */
    method Timeout(neighbour: Addr, now: real)
      requires Valid() && neighbour in entries
      modifies this`order, this`entries
      ensures Valid() && TheTable() == TimedOut(old(TheTable()), neighbour, now)
    {
      ghost var t0 := TheTable();
      for i := 0 to |order|
        invariant order == t0.order && Valid()
        invariant Walked(t0, i, entries, BreakAll(t0.entries, neighbour, now))
      {
        WalkStep(t0, i, entries, BreakAll(t0.entries, neighbour, now));
        var e := entries[order[i]];
        if e.hop == neighbour && e.metric != BIG {
          AddEntry(order[i], e.(metric := BIG, advertiseOkAt := now, advertMetric := true, advertSeqnum := true,
                                seqnum := e.seqnum + 1));
        }
      }
      AllWalked(t0, entries, BreakAll(t0.entries, neighbour, now));
      AddEntry(neighbour, entries[neighbour].(timeout := false));
    }

    /** `recv` for a data packet, which may be dropped. */
    method Recv(dst: Addr, packet: Waiting, now: real) returns (next: Option<Addr>)
      requires Valid()
      modifies this`order, this`entries
      ensures Valid() && TheTable() == Received(TheParams(), old(TheTable()), dst, packet, now)
      ensures next == if Admitted(packet).Some? && Routable(old(TheTable()), dst)
                      then Some(NextHop(old(TheTable()), dst)) else None
    {
      var p := packet;
      if p.own {
        p := p.(ttl := IP_DEF_TTL);
      } else if p.ttl - 1 == 0 {
        return None;
      } else {
        p := p.(ttl := p.ttl - 1);
      }
      next := ForwardPacket(dst, p, now);
    }

    /** The table effects of `forwardPacket` and its choice of next hop. */
    method ForwardPacket(dst: Addr, packet: Waiting, now: real) returns (next: Option<Addr>)
      requires Valid()
      modifies this`order, this`entries
      ensures Valid() && TheTable() == Forwarded(TheParams(), old(TheTable()), dst, packet, now)
      ensures next == if Routable(old(TheTable()), dst) then Some(NextHop(old(TheTable()), dst)) else None
    {
      next := None;
      if dst in entries && entries[dst].metric != BIG {
        next := Some(if entries[dst].metric > 1 then entries[dst].hop else dst);
      } else if dst in entries {
        var q: seq<Waiting> := entries[dst].queue + [packet];
        while |q| > MAX_QUEUE_LENGTH
          invariant q == entries[dst].queue + [packet] || q == Enqueued(entries[dst].queue, packet)
          invariant |q| <= MAX_QUEUE_LENGTH ==> q == Enqueued(entries[dst].queue, packet)
        {
          q := q[1..];
        }
        AddEntry(dst, entries[dst].(queue := q));
      } else {
        AddEntry(dst, Rte(dst, BIG, 0, false, false, now + NOT_YET, now, now, wst0, 0, false, [packet]));
      }
    }

    /** The first walk of `makeUpdate`. */
    method CountChanges(now: real) returns (changed: nat, unadvertiseable: nat)
      requires Valid()
      ensures changed == |Selected(entries, order, false, now)|
      ensures unadvertiseable == |order| - |Selected(entries, order, true, now)|
    {
      changed, unadvertiseable := 0, 0;
      for i := 0 to |order|
        invariant changed == |Selected(entries, order[..i], false, now)|
        invariant unadvertiseable == i - |Selected(entries, order[..i], true, now)|
      {
        SelectedStep(entries, order, i, false, now);
        SelectedStep(entries, order, i, true, now);
        var e := entries[order[i]];
        if (e.advertSeqnum || e.advertMetric) && e.advertiseOkAt <= now {
          changed := changed + 1;
        }
        if e.advertiseOkAt > now {
          unadvertiseable := unadvertiseable + 1;
        }
      }
      assert order[..|order|] == order;
    }

    /** The first half of `makeUpdate`: the kind of the update and its count. */
    method PrepareUpdate(requested: bool, now: real) returns (count: nat, periodic: bool)
      requires Valid()
      modifies this`seqno, this`order, this`entries
      ensures Valid() && periodic == Promoted(old(TheTable()), requested, now)
      ensures seqno == if periodic then old(seqno) + 2 else old(seqno)
      ensures TheTable() == Refreshed(self, old(seqno), old(TheTable()), periodic, now)
      ensures count == Announced(old(TheTable()), periodic, now)
    {
      periodic := requested;
      var unadvertiseable;
      count, unadvertiseable := CountChanges(now);
      if count * 3 > |order| && count > 3 {
        periodic := true;
      }
      if periodic {
        count := |order| - unadvertiseable;
        seqno := seqno + 2;
        AddEntry(self, Rte(self, 0, seqno, true, false, 0.0, now, now, 0.0, 0, false, []));
      }
    }

    /** `makeUpdate`: no packet if nothing is announced; a failure, which the last
        assertion reports, if the announced count is wrong. */
    method MakeUpdate(requested: bool, now: real) returns (packet: array?<Byte>, periodic: bool, failed: bool)
      requires Valid() && now >= 0.0
      modifies this`seqno, this`order, this`entries
      ensures Valid() && periodic == Promoted(old(TheTable()), requested, now)
      ensures seqno == if periodic then old(seqno) + 2 else old(seqno)
      ensures var t := Refreshed(self, old(seqno), old(TheTable()), periodic, now);
              var announced := Announced(old(TheTable()), periodic, now);
              var right := periodic ==> OwnReady(self, old(TheTable()), now);
              && failed == (announced != 0 && !right) && (packet != null <==> announced != 0 && right)
              && TheTable() == (if right then Table(t.order, Marked(t.entries, periodic, now)) else t)
              && (packet != null ==> fresh(packet) && packet[..] == Encode(Adverts(t, periodic, now)))
    {
      ghost var before, seqno0 := TheTable(), seqno;
      var count;
      count, periodic := PrepareUpdate(requested, now);
      CountExact(self, seqno0, before, periodic, now);
      packet, failed := null, false;
      var written := |Adverts(TheTable(), periodic, now)|;
      if count == 0 {
        if written == 0 {
          NoneMarked(TheTable(), periodic, now);
        }
      } else if count != written {
        failed := true;
      } else {
        packet := WriteRecords(count, periodic, now);
      }
    }

    /** The second walk of `makeUpdate`. */
    method WriteRecords(announced: nat, periodic: bool, now: real) returns (packet: array<Byte>)
      requires Valid() && announced == |Adverts(TheTable(), periodic, now)|
      modifies this`entries
      ensures Valid() && fresh(packet) && packet[..] == Encode(Adverts(old(TheTable()), periodic, now))
      ensures TheTable() == Table(order, Marked(old(entries), periodic, now))
    {
      ghost var t0 := TheTable();
      ghost var all := Adverts(t0, periodic, now);
      var count := announced;
      packet := new Byte[count * 9 + 1](_ => 0);
      packet[0] := count % 256;
      var walk := 1;
      assert packet[..1] == [|all| % 256] + Records([]);
      assert Written(packet[..walk], |all|, []);
      for i := 0 to |order|
        invariant order == t0.order && Valid()
        invariant Walked(t0, i, entries, Marked(t0.entries, periodic, now))
        invariant count == |all| - |Selected(t0.entries, order[..i], periodic, now)|
        invariant walk == 9 * (|all| - count) + 1 <= packet.Length
        invariant Written(packet[..walk], |all|, Selected(t0.entries, order[..i], periodic, now))
      {
        walk, count := WriteEntry(packet, walk, count, i, periodic, now, t0, all);
      }
      assert order[..|order|] == order;
      assert count == 0;
      AllWalked(t0, entries, Marked(t0.entries, periodic, now));
      assert packet[..walk] == packet[..];
    }

    /** One entry of that walk. */
    method WriteEntry(packet: array<Byte>, walk: nat, count: int, i: nat, periodic: bool, now: real,
                      ghost t0: Table, ghost all: seq<Advert>) returns (next: nat, left: int)
      requires Valid() && order == t0.order && i < |order| && WellFormed(t0) && all == Adverts(t0, periodic, now)
      requires Walked(t0, i, entries, Marked(t0.entries, periodic, now))
      requires count == |all| - |Selected(t0.entries, order[..i], periodic, now)|
      requires walk == 9 * (|all| - count) + 1 <= packet.Length == 9 * |all| + 1
      requires Written(packet[..walk], |all|, Selected(t0.entries, order[..i], periodic, now))
      modifies packet, this`entries
      ensures Valid() && Walked(t0, i + 1, entries, Marked(t0.entries, periodic, now))
      ensures left == |all| - |Selected(t0.entries, order[..i + 1], periodic, now)|
      ensures next == 9 * (|all| - left) + 1 <= packet.Length
      ensures Written(packet[..next], |all|, Selected(t0.entries, order[..i + 1], periodic, now))
    {
      WalkStep(t0, i, entries, Marked(t0.entries, periodic, now));
      SelectedStep(t0.entries, order, i, periodic, now);
      SelectedGrows(t0.entries, order, i + 1, periodic, now);
      var d := order[i];
      var e := entries[d];
      next, left := walk, count;
      if periodic && e.advertiseOkAt > now {
        return;
      }
      if periodic || ((e.advertSeqnum || e.advertMetric) && e.advertiseOkAt <= now) {
        WrittenStep(packet[..walk], |all|, Selected(t0.entries, order[..i], periodic, now), AdvertOf(d, e));
        next := WriteRecord(packet, walk, d, e.metric, e.seqnum);
        e := e.(lastAdvertised := e.metric, advertSeqnum := false);
        if periodic {
          e := e.(advertSeqnum := false, advertMetric := false);
        }
        entries := entries[d := e];
        left := left - 1;
      }
    }

    /** Nine bytes of a record. */
    static method WriteRecord(packet: array<Byte>, walk: nat, dst: int, metric: int, seqnum: int) returns (next: nat)
      requires walk + 9 <= packet.Length
      modifies packet
      ensures next == walk + 9
      ensures packet[..next] == old(packet[..walk]) + Record(Advert(dst, metric, seqnum))
    {
      next := walk;
      packet[next], next := dst / 0x100_0000 % 256, next + 1;
      packet[next], next := dst / 0x1_0000 % 256, next + 1;
      packet[next], next := dst / 0x100 % 256, next + 1;
      packet[next], next := dst % 256, next + 1;
      packet[next], next := metric % 256, next + 1;
      packet[next], next := seqnum / 0x100_0000 % 256, next + 1;
      packet[next], next := seqnum / 0x1_0000 % 256, next + 1;
      packet[next], next := seqnum / 0x100 % 256, next + 1;
      packet[next], next := seqnum % 256, next + 1;
      assert packet[..walk] == old(packet[..walk]);
      assert packet[walk..next] == Record(Advert(dst, metric, seqnum));
      assert packet[..next] == packet[..walk] + packet[walk..next];
    }
  }

  /** `t` has learned the first `k` records of a packet. */
  ghost predicate Heard(g: Params, t0: Table, from: Addr, packet: seq<Byte>, k: nat, now: real, t: Table)
    requires 9 * k + 1 <= |packet|
  {
    AllEnd(g, t0, from, Parsed(packet, k), now) && t == LearnAll(g, t0, from, Parsed(packet, k), now)
  }

  lemma HeardStep(g: Params, t0: Table, from: Addr, packet: seq<Byte>, k: nat, now: real, t: Table)
    requires Complete(packet) && k < packet[0] && Heard(g, t0, from, packet, k, now, t)
    ensures AllEnd(g, t0, from, Parsed(packet, k + 1), now) <==> LearnEnds(g, t, ReadAt(packet, 9 * k + 1))
    ensures LearnEnds(g, t, ReadAt(packet, 9 * k + 1)) ==>
              Heard(g, t0, from, packet, k + 1, now, Learn(g, t, from, ReadAt(packet, 9 * k + 1), now))
  {
    assert Parsed(packet, k + 1)[..k] == Parsed(packet, k);
  }

  /** A record that is never done with keeps the rest from being heard. */
  lemma {:induction false} NotAllEnd(g: Params, t0: Table, from: Addr, packet: seq<Byte>, k: nat, now: real)
    requires Complete(packet) && k <= packet[0] && !AllEnd(g, t0, from, Parsed(packet, k), now)
    ensures !AllEnd(g, t0, from, Parse(packet), now)
    decreases packet[0] - k
  {
    if k < packet[0] {
      assert Parsed(packet, k + 1)[..k] == Parsed(packet, k);
      NotAllEnd(g, t0, from, packet, k + 1, now);
    }
  }

  /** The bytes of the first records of an update of `total`. */
  ghost predicate Written(bytes: seq<Byte>, total: nat, adverts: seq<Advert>) {
    bytes == [total % 256] + Records(adverts)
  }

  lemma WrittenStep(bytes: seq<Byte>, total: nat, adverts: seq<Advert>, a: Advert)
    requires Written(bytes, total, adverts)
    ensures Written(bytes + Record(a), total, adverts + [a])
  {
    assert (adverts + [a])[..|adverts|] == adverts;
  }

  /** A walk that has rewritten the entries before position `i`. */
  ghost predicate Walked(t: Table, i: nat, entries: map<Addr, Rte>, target: map<Addr, Rte>) {
    && entries.Keys == t.entries.Keys == target.Keys
    && forall k {:trigger t.order[k]} :: 0 <= k < |t.order| && t.order[k] in entries ==>
      entries[t.order[k]] == if k < i then target[t.order[k]] else t.entries[t.order[k]]
  }

  /** Rewriting the entry at the position, or passing one that stays. */
  lemma WalkStep(t: Table, i: nat, entries: map<Addr, Rte>, target: map<Addr, Rte>)
    requires WellFormed(t) && i < |t.order| && Walked(t, i, entries, target)
    ensures t.order[i] in entries && entries[t.order[i]] == t.entries[t.order[i]]
    ensures Walked(t, i + 1, entries[t.order[i] := target[t.order[i]]], target)
    ensures target[t.order[i]] == t.entries[t.order[i]] ==> Walked(t, i + 1, entries, target)
  {
    assert t.order[i] in t.order;
  }

  lemma AllWalked(t: Table, entries: map<Addr, Rte>, target: map<Addr, Rte>)
    requires WellFormed(t) && Walked(t, |t.order|, entries, target)
    ensures entries == target
  {
    forall d | d in target ensures entries[d] == target[d] {
      assert d in t.order;
    }
  }

  /** An empty update marks nothing. */
  lemma NoneMarked(t: Table, periodic: bool, now: real)
    requires WellFormed(t) && Adverts(t, periodic, now) == []
    ensures Marked(t.entries, periodic, now) == t.entries
  {
    forall d | d in t.entries ensures !Includes(t.entries[d], periodic, now) {
      assert d in t.order;
      if Includes(t.entries[d], periodic, now) {
        IncludedIsSelected(t.entries, t.order, d, periodic, now);
      }
    }
  }

  lemma IncludedIsSelected(entries: map<Addr, Rte>, order: seq<Addr>, d: Addr, periodic: bool, now: real)
    requires d in order && d in entries && Includes(entries[d], periodic, now)
    ensures Selected(entries, order, periodic, now) != []
  {
    var k :| 0 <= k < |order| && order[k] == d;
    SelectedGrows(entries, order, k + 1, periodic, now);
  }
}
