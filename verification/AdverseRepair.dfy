/** Why AODV loop freedom is for runs in which no repair is given up: a run of
    four agents in which a repair times out, and its late answer closes a loop;
    on the way the flag assertion of a link failure does not hold. */
module AdverseRepair {
  import opened Common
  import opened Aodv
  import opened AodvNetwork

  function Fresh(): Node {
    Node(2, 1, [], map[], map[], {})
  }

  function Four(): Net {
    Net(map[0 := Fresh(), 1 := Fresh(), 2 := Fresh(), 3 := Fresh()], {})
  }

  /** The request of 0 for 3, as it is after `hops` hops. */
  function Asking(from: Addr, hops: int): Msg {
    Rreq(Request(from, 6 - hops, 0, 1, 4, hops, 3, 0))
  }

  /** The request of 1 that repairs its route to 0, and the answer of 2. */
  function Repairs(): Msg {
    Rreq(Request(1, 5, 1, 1, 4, 1, 0, 4))
  }

  function Answer(): Msg {
    Rrep(Reply(2, 30, 1, 1, 0, 4, 3, 9))
  }

  /** The run. A request of 0 leaves routes at 1, 2 and 3, along which 3 sends a
      packet; the link from 1 to 0 breaks, and 1, to which the packet has come
      further than it still has to go, starts a repair. Its route waits until 1.3,
      which the timer takes for a delay: the timeout comes at 2.3, the answer of 2
      after it. The purges in between would only ask again. */
  function StepAt(k: nat): Step {
    match k
    case 0 => Data(0, 0, 3, 0.0, 0.03)
    case 1 => Deliver(1, Asking(0, 1), 0.0)
    case 2 => Deliver(2, Asking(1, 2), 0.0)
    case 3 => Deliver(3, Asking(2, 3), 0.0)
    case 4 => Data(3, 3, 0, 0.9, 0.03)
    case 5 => Data(2, 3, 0, 0.9, 0.03)
    case 6 => Data(1, 3, 0, 0.9, 0.03)
    case 7 => Repair(1, 0, 2, 1.0, 0.03)
    case 8 => Deliver(2, Repairs(), 1.0)
    case 9 => RepairTimeout(1, 0)
    case _ => Deliver(1, Answer(), 3.0)
  }

  function Steps(): seq<Step> {
    seq(11, (k: nat) => StepAt(k))
  }

  predicate RouteTo0(v: Node, flags: Flags, hops: int, next: Addr) {
    0 in v.entries
    && var e := v.entries[0];
       e.seqno == 4 && e.flags == flags && e.hops == hops && e.next == next
  }

  /** Nothing was asked for on the route to 0 yet. */
  predicate Unasked(v: Node) {
    0 in v.entries && v.entries[0].reqCnt == 0 && v.entries[0].reqTimeout == 0.0 && v.entries[0].reqLastTtl == 0
    && v.entries[0].lastHops == 0 && v.seqno == 2 && v.bid == 1
  }

  /** A route to 0 is all that the node has learned. */
  predicate Learned(v: Node) {
    RouteTo0(v, Up, 2, 1) && 1 !in v.entries && (1, 1) !in v.ids
  }

  /** What holds after `k` steps, as far as the rest of the run needs it. */
  ghost predicate Stage(k: nat, n: Net) {
    n.nodes.Keys == {0, 1, 2, 3} && Stage1(k, n.nodes[1]) && Stage2(k, n.nodes[2]) && StageSent(k, n)
  }

  predicate StageSent(k: nat, n: Net) {
    && (k == 0 ==> n == Four())
    && (k == 1 ==> Asking(0, 1) in n.sent)
    && (k == 2 ==> Asking(1, 2) in n.sent)
    && (k == 8 ==> Repairs() in n.sent)
    && (9 <= k <= 10 ==> Answer() in n.sent)
  }

  predicate Stage1(k: nat, v: Node) {
    if k < 2 then v == Fresh()
    else if k < 8 then RouteTo0(v, Up, 1, 0) && Unasked(v)
    else if k < 10 then RouteTo0(v, InRepair, 1, 0)
    else if k == 10 then RouteTo0(v, Down, INFINITY2, 0)
    else RouteTo0(v, Up, 3, 2)
  }

  predicate Stage2(k: nat, v: Node) {
    if k < 3 then v == Fresh()
    else if k < 9 then Learned(v) && (k >= 6 ==> v.entries[0].expire == 10.9)
    else RouteTo0(v, Up, 2, 1)
  }

  lemma Asks(n: Net)
    requires Stage(0, n)
    ensures Stage(1, Next(n, StepAt(0)))
  {
  }

  lemma OneHop(n: Net)
    requires Stage(1, n)
    ensures Stage(2, Next(n, StepAt(1)))
  {
  }

  lemma TwoHops(n: Net)
    requires Stage(2, n)
    ensures Stage(3, Next(n, StepAt(2)))
  {
  }

  /** What happens at 3, and the packet that passes 2 and 1. */
  lemma PacketCame(k: nat, n: Net)
    requires 3 <= k <= 6 && Stage(k, n)
    ensures Stage(k + 1, Next(n, StepAt(k)))
  {
  }

  /** The repair asks with the number of the broken route. */
  lemma RepairStarts(n: Net)
    requires Stage(7, n)
    ensures Stage(8, Next(n, StepAt(7)))
  {
  }

  /** The node answers the repair with its own route, which leads back. */
  lemma AnswersRepair(v: Node, q: Request)
    requires Learned(v) && v.entries[0].expire == 10.9 && q == Hopped(Repairs().q)
    ensures var f := Requested(2, v, q, 1.0); f.sent == [Answer()] && RouteTo0(f.node, Up, 2, 1)
  {
    var w := Reversed(2, v, q, 1.0);
    assert w.entries[0] == v.entries[0] && w.entries[1].next == 1;
    assert CanAnswer(w, q);
  }

  lemma Answered(n: Net)
    requires Stage(8, n)
    ensures Stage(9, Next(n, StepAt(8)))
  {
    AnswersRepair(n.nodes[2], Hopped(Repairs().q));
  }

  lemma GivenUp(n: Net)
    requires Stage(9, n)
    ensures Stage(10, Next(n, StepAt(9)))
  {
  }

  lemma AnswerAccepted(n: Net)
    requires Stage(10, n)
    ensures Stage(11, Next(n, StepAt(10)))
  {
  }

  lemma StageStep(k: nat, n: Net, m: Net)
    requires k < 11 && Stage(k, n) && m == Next(n, StepAt(k))
    ensures Stage(k + 1, m)
  {
    match k
    case 0 => Asks(n);
    case 1 => OneHop(n);
    case 2 => TwoHops(n);
    case 3 | 4 | 5 | 6 => PacketCame(k, n);
    case 7 => RepairStarts(n);
    case 8 => Answered(n);
    case 9 => GivenUp(n);
    case _ => AnswerAccepted(n);
  }

  lemma {:induction false} Reaches(k: nat)
    requires k <= 11
    ensures Stage(k, After(Four(), Steps()[..k]))
  {
    if k > 0 {
      Reaches(k - 1);
      assert Steps()[..k][..k - 1] == Steps()[..k - 1];
      StageStep(k - 1, After(Four(), Steps()[..k - 1]), After(Four(), Steps()[..k]));
    }
  }

  /** A loop shows that the run was not clean. */
  lemma NotClean(n0: Net, steps: seq<Step>)
    requires Initial(n0) && FollowsRoutes(After(n0, steps), 0, [1, 2, 1])
    ensures !CleanRun(n0, steps)
  {
    var path := [1, 2, 1];
    assert path[0] == path[2];
    if CleanRun(n0, steps) {
      LoopFree(n0, steps, After(n0, steps), 0, path);
    }
  }

  /** The run ends with 1 and 2 routing to 0 through each other. */
  lemma RepairTimeoutLoops()
    ensures Initial(Four()) && FollowsRoutes(After(Four(), Steps()), 0, [1, 2, 1])
    ensures !CleanRun(Four(), Steps())
  {
    Reaches(11);
    assert Steps()[..11] == Steps();
    NotClean(Four(), Steps());
  }

  /** The assertion that a route lost with its link is up: it holds exactly if
      the route is not under repair. */
  lemma FlagAssert(n0: Net, steps: seq<Step>, n: Net, i: Addr, d: Addr, neighbour: Addr)
    requires Initial(n0) && n == After(n0, steps) && i in n.nodes && d in n.nodes[i].entries
    requires Through(n.nodes[i].entries[d], neighbour)
    ensures n.nodes[i].entries[d].flags.Up? <==> !n.nodes[i].entries[d].flags.InRepair?
  {
    ParityAsserts(n0, steps, n, i, d);
  }

  /** And it can fail: a link is lost while its route is under repair. */
  lemma FlagAssertFails()
    ensures Initial(Four())
    ensures var n := After(Four(), Steps()[..8]);
            && 1 in n.nodes && 0 in n.nodes[1].entries
            && Through(n.nodes[1].entries[0], 0) && n.nodes[1].entries[0].flags.InRepair?
  {
    Reaches(8);
  }
}
