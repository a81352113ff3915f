/** Why DSDV loop freedom needs clean runs: a run of three agents, with the default
    settling times, in which one stale flush closes a loop. */
module AdverseFlush {
  import opened Common
  import opened DsdvCodec
  import opened DsdvQueue
  import opened Dsdv
  import opened DsdvNetwork

  function Three(): Net {
    var v := Node(0, Table([], map[]));
    Net(map[0 := v, 1 := v, 2 := v], {}, 0.875, 6.0)
  }

  function Says(sender: Addr, metric: int): Update {
    Update(sender, [Advert(0, metric, 4)])
  }

  /** The run. All start; 0 tells 1 in its first periodic update, and 1 tells 2 in
      a triggered one, when its route to 0 has settled. The second periodic updates
      are lost. Then the link layer of 1 reports that a relayed packet for 0 was lost
      (`lost_link`): the route breaks, the packet waits, and the update that
      announces the break is lost too. When its own route has settled,
      2 tells 1 what it learned from 1. */
  function StepAt(k: nat): Step {
    match k
    case 0 => StartUp(0, 0.0)
    case 1 => StartUp(1, 0.0)
    case 2 => StartUp(2, 0.0)
    case 3 => MakeUpdate(0, true, 0.5)
    case 4 => Deliver(1, Says(0, 0), 0.5)
    case 5 => MakeUpdate(1, true, 1.0)
    case 6 => MakeUpdate(2, true, 1.5)
    case 7 => MakeUpdate(1, false, 12.5)
    case 8 => Deliver(2, Says(1, 1), 12.5)
    case 9 => MakeUpdate(0, true, 14.0)
    case 10 => MakeUpdate(1, true, 14.0)
    case 11 => MakeUpdate(2, true, 14.0)
    case 12 => Timeout(1, 0, 24.0)
    case 13 => Data(1, 0, Waiting(false, 10), 24.0)
    case 14 => MakeUpdate(1, false, 24.0)
    case 15 => MakeUpdate(2, false, 24.5)
    case _ => Deliver(1, Says(2, 2), 24.5)
  }

  function Steps(): seq<Step> {
    seq(17, (k: nat) => StepAt(k))
  }

  /** What the run never changes. */
  predicate Here(n: Net) {
    n.nodes.Keys == {0, 1, 2} && n.alpha == 0.875 && n.wst0 == 6.0
  }

  // What the tables hold in the course of the run.

  function Learned(from: Addr, metric: int, at: real): Rte {
    Rte(from, metric, 4, false, true, at + 12.0, at, at, 6.0, 0, false, [])
  }

  /** An own entry with nothing new to advertise. */
  predicate Quiet(t: Table, i: Addr) {
    i in t.entries && var e := t.entries[i]; e.advertiseOkAt == 0.0 && !e.advertSeqnum && !e.advertMetric
  }

  predicate Alone(t: Table, i: Addr) {
    t.order == [i] && t.entries.Keys == {i} && t.entries[i].advertiseOkAt == 0.0
  }

  predicate Route(t: Table, hop: Addr, metric: int, seqnum: int, queue: Queue) {
    0 in t.entries
    && var e := t.entries[0];
       e.hop == hop && e.metric == metric && e.seqnum == seqnum && e.queue == queue
  }

  predicate Near(t: Table) {
    t.order == [1, 0] && t.entries.Keys == {1, 0} && t.entries[1].advertiseOkAt == 0.0
    && t.entries[0] == Learned(0, 1, 0.5).(timeout := true)
  }

  predicate Far(t: Table) {
    t.order == [2, 0, 1] && Quiet(t, 2) && t.entries.Keys == {2, 0, 1}
    && t.entries[0] == Learned(1, 2, 12.5) && t.entries[1] == FakeRte(Params(2, 0.875, 6.0), 1, 12.5)
  }

  /** An update of the one entry at position `k` that is due. */
  lemma OnlyAdvert(t: Table, k: nat, periodic: bool, now: real)
    requires k < |t.order| <= 3 && forall d :: d in t.order ==> d in t.entries
    requires forall j :: 0 <= j < |t.order| ==>
      t.order[j] in t.entries && (Includes(t.entries[t.order[j]], periodic, now) <==> j == k)
    ensures Adverts(t, periodic, now) == [AdvertOf(t.order[k], t.entries[t.order[k]])]
  {
    SelectedStep(t.entries, t.order, 0, periodic, now);
    if |t.order| > 1 {
      SelectedStep(t.entries, t.order, 1, periodic, now);
    }
    if |t.order| > 2 {
      SelectedStep(t.entries, t.order, 2, periodic, now);
    }
    assert t.order[..|t.order|] == t.order;
  }

  /** A small table is never promoted to a periodic update. */
  lemma SmallIsTriggered(t: Table, now: real)
    requires |t.order| <= 3 && forall d :: d in t.order ==> d in t.entries
    ensures !Promoted(t, false, now)
  {
    SelectedExactly(t.entries, t.order, false, now, Advert(0, 0, 0));
  }

  lemma OneAdvert(g: Params, t: Table, from: Addr, a: Advert, now: real)
    ensures LearnAll(g, t, from, [a], now) == Learn(g, t, from, a, now)
    ensures AllEnd(g, t, from, [a], now) == LearnEnds(g, t, a)
  {
    assert [a][..0] == [];
  }

  /** Node 2 hears of 0 from 1, whom it does not know. */
  lemma HearsSecondHand(t: Table)
    requires Alone(t, 2)
    ensures var g := Params(2, 0.875, 6.0);
            && AllEnd(g, t, 1, [Advert(0, 1, 4)], 12.5)
            && Process(g, t, 1, [Advert(0, 1, 4)], 12.5)
               == Table([2, 0, 1], t.entries[0 := Learned(1, 2, 12.5)][1 := FakeRte(g, 1, 12.5)])
  {
    var g := Params(2, 0.875, 6.0);
    OneAdvert(g, t, 1, Advert(0, 1, 4), 12.5);
    assert Learn(g, t, 1, Advert(0, 1, 4), 12.5) == Table([2, 0], t.entries[0 := Learned(1, 2, 12.5)]);
  }

  /** What holds after `k` steps, as far as the rest of the run needs it. */
  ghost predicate Stage(k: nat, n: Net) {
    Here(n) && Stage1(k, n.nodes[1].table) && Stage2(k, n.nodes[2].table) && StageSent(k, n)
  }

  predicate StageSent(k: nat, n: Net)
    requires Here(n)
  {
    && (k == 0 ==> n == Three())
    && (1 <= k <= 3 ==> n.nodes[0].seqno == 2 && Alone(n.nodes[0].table, 0))
    && (k == 4 ==> Says(0, 0) in n.sent)
    && (k == 8 ==> Says(1, 1) in n.sent)
    && (k == 16 ==> Says(2, 2) in n.sent)
  }

  predicate Stage1(k: nat, t: Table) {
    if k < 2 then t == Table([], map[])
    else if k < 5 then Alone(t, 1)
    else if k < 8 then Near(t) && (k >= 6 ==> Quiet(t, 1))
    else if k < 13 then Route(t, 0, 1, 4, [])
    else if k == 13 then Route(t, 0, BIG, 5, [])
    else if k < 17 then Route(t, 0, BIG, 5, [Waiting(false, 9)])
    else Route(t, 2, 3, 4, [])
  }

  predicate Stage2(k: nat, t: Table) {
    if k < 3 then t == Table([], map[])
    else if k < 9 then Alone(t, 2) && (k >= 7 ==> Quiet(t, 2))
    else if k < 16 then Far(t)
    else Route(t, 1, 2, 4, [])
  }

  lemma Start(k: nat, n: Net)
    requires k < 3 && Stage(k, n)
    ensures Stage(k + 1, Next(n, StartUp(k, 0.0)))
  {
  }

  lemma FirstUpdate(n: Net)
    requires Stage(3, n)
    ensures Stage(4, Next(n, MakeUpdate(0, true, 0.5)))
  {
    OnlyAdvert(Refreshed(0, 2, n.nodes[0].table, true, 0.5), 0, true, 0.5);
  }

  lemma FirstHeard(n: Net)
    requires Stage(4, n)
    ensures Stage(5, Next(n, Deliver(1, Says(0, 0), 0.5)))
  {
    OneAdvert(Params(1, 0.875, 6.0), n.nodes[1].table, 0, Advert(0, 0, 4), 0.5);
  }

  lemma FirstOwnUpdate(k: nat, n: Net)
    requires 5 <= k <= 6 && Stage(k, n)
    ensures Stage(k + 1, Next(n, MakeUpdate(k - 4, true, if k == 5 then 1.0 else 1.5)))
  {
  }

  lemma SecondUpdate(n: Net)
    requires Stage(7, n)
    ensures Stage(8, Next(n, MakeUpdate(1, false, 12.5)))
  {
    SmallIsTriggered(n.nodes[1].table, 12.5);
    OnlyAdvert(n.nodes[1].table, 1, false, 12.5);
  }

  lemma SecondHeard(n: Net)
    requires Stage(8, n)
    ensures Stage(9, Next(n, Deliver(2, Says(1, 1), 12.5)))
  {
    HearsSecondHand(n.nodes[2].table);
  }

  lemma SecondOwnUpdate(k: nat, n: Net)
    requires 9 <= k <= 11 && Stage(k, n)
    ensures Stage(k + 1, Next(n, MakeUpdate(k - 9, true, 14.0)))
  {
  }

  lemma LinkLost(n: Net)
    requires Stage(12, n)
    ensures Stage(13, Next(n, Timeout(1, 0, 24.0)))
  {
  }

  lemma PacketWaits(n: Net)
    requires Stage(13, n)
    ensures Stage(14, Next(n, Data(1, 0, Waiting(false, 10), 24.0)))
  {
  }

  lemma BreakAnnounced(n: Net)
    requires Stage(14, n)
    ensures Stage(15, Next(n, MakeUpdate(1, false, 24.0)))
  {
  }

  lemma StaleUpdate(n: Net)
    requires Stage(15, n)
    ensures Stage(16, Next(n, MakeUpdate(2, false, 24.5)))
  {
    SmallIsTriggered(n.nodes[2].table, 24.5);
    OnlyAdvert(n.nodes[2].table, 1, false, 24.5);
  }

  lemma StaleFlushed(n: Net)
    requires Stage(16, n)
    ensures Stage(17, Next(n, Deliver(1, Says(2, 2), 24.5)))
  {
    OneAdvert(Params(1, 0.875, 6.0), n.nodes[1].table, 2, Advert(0, 2, 4), 24.5);
  }

  lemma EarlyStep(k: nat, n: Net, m: Net)
    requires k < 8 && Stage(k, n) && m == Next(n, StepAt(k))
    ensures Stage(k + 1, m)
  {
    match k
    case 0 | 1 | 2 => Start(k, n);
    case 3 => FirstUpdate(n);
    case 4 => FirstHeard(n);
    case 5 | 6 => FirstOwnUpdate(k, n);
    case _ => SecondUpdate(n);
  }

  lemma LateStep(k: nat, n: Net, m: Net)
    requires 8 <= k < 17 && Stage(k, n) && m == Next(n, StepAt(k))
    ensures Stage(k + 1, m)
  {
    match k
    case 8 => SecondHeard(n);
    case 9 | 10 | 11 => SecondOwnUpdate(k, n);
    case 12 => LinkLost(n);
    case 13 => PacketWaits(n);
    case 14 => BreakAnnounced(n);
    case 15 => StaleUpdate(n);
    case _ => StaleFlushed(n);
  }

  lemma {:induction false} Reaches(k: nat)
    requires k <= 17
    ensures Stage(k, After(Three(), Steps()[..k]))
  {
    if k > 0 {
      Reaches(k - 1);
      assert Steps()[..k][..k - 1] == Steps()[..k - 1];
      var n, m := After(Three(), Steps()[..k - 1]), After(Three(), Steps()[..k]);
      if k <= 8 {
        EarlyStep(k - 1, n, m);
      } else {
        LateStep(k - 1, n, m);
      }
    }
  }

  /** A loop shows that the run was not clean. */
  lemma NotClean(n0: Net, steps: seq<Step>)
    requires Initial(n0) && FollowsRoutes(After(n0, steps), 0, [1, 2, 1])
    ensures !CleanRun(n0, steps)
  {
    if CleanRun(n0, steps) {
      LoopFree(n0, steps, After(n0, steps), 0, [1, 2, 1], 0, 2);
    }
  }

  /** The run ends with 1 and 2 routing to 0 through each other. */
  lemma StaleFlushLoops()
    ensures Initial(Three()) && FollowsRoutes(After(Three(), Steps()), 0, [1, 2, 1])
    ensures !CleanRun(Three(), Steps())
  {
    Reaches(17);
    assert Steps()[..17] == Steps();
    NotClean(Three(), Steps());
  }

  /** Had the packet been an own one of 1, the same advert would have started a
      flush that never ends. */
  lemma OwnPacketNeverFlushed(e: Rte)
    requires e.metric == BIG && e.seqnum == 5 && e.queue == [Waiting(true, IP_DEF_TTL)]
    ensures Flushes(e, Advert(0, 2, 4)) && !FlushEnds(e.queue, UsableMeanwhile(e, Advert(0, 2, 4)))
  {
    assert e.queue[0].own;
    FlushEndsIfAccepted(e, Advert(0, 2, 4));
  }
}
