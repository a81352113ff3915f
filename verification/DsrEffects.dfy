/** What hearing a route request comes to, in every run: the target answers, other
    nodes pass a search on at most once, and a search along a path finds that path. */
module DsrEffects {
  import opened Common
  import opened DsrDiscovery

  /** The node has seen a number of the source as high as that. */
  predicate Seen(n: Net, i: Addr, src: Addr, seqNo: int) {
    i in n.nodes && src in n.nodes[i].seen && n.nodes[i].seen[src] >= seqNo
  }

  /** Requests carry positive numbers, so one never seen is above none. */
  lemma NumbersPositive(n0: Net, steps: seq<Step>, n: Net, q: Request)
    requires Initial(n0) && n == After(n0, steps) && q in n.requests
    ensures 1 <= q.seqNo && GoodRequest(n, q)
  {
    RunGood(n0, steps);
    assert GoodRequest(n, q);
  }

  // ---------------------------------------------------------------------
  // At the target
  // ---------------------------------------------------------------------

  /** A reply from the target with the path of the request and the target at its end,
      to travel that path backwards. */
  predicate Reports(r: Reply, q: Request, i: Addr) {
    && r.requester == q.src && r.target == i && r.seqNo == q.seqNo && r.reported == q.route + [i]
    && |r.back| == |r.reported|
    && forall k :: 0 <= k < |r.back| ==> r.back[k] == r.reported[|r.reported| - 1 - k]
  }

  /** In every run, a request that reaches its target over a path with room for it is
      answered, unless the target answers the first request only and has seen its
      number; and the target remembers the number. */
  lemma TargetAnswers(n0: Net, steps: seq<Step>, n: Net, i: Addr, q: Request, answered: bool)
    requires Initial(n0) && n == After(n0, steps) && Enabled(n, Hear(i, q, answered))
    requires q.target == i && |q.route| < MAX_SR_LEN && (n.onlyFirst ==> !Seen(n, i, q.src, q.seqNo))
    ensures var m := Next(n, Hear(i, q, answered));
            && (exists r :: r in m.replies && Reports(r, q, i)) && m.requests == n.requests
            && q.src in m.nodes[i].seen && m.nodes[i].seen[q.src] == q.seqNo
  {
    NumbersPositive(n0, steps, n, q);
    var r := Reply(q.src, i, q.seqNo, q.route + [i], Reversed(q.route + [i]));
    ReversedReports(r, q, i);
    assert r in Next(n, Hear(i, q, answered)).replies;
  }

  lemma ReversedReports(r: Reply, q: Request, i: Addr)
    requires r == Reply(q.src, i, q.seqNo, q.route + [i], Reversed(q.route + [i]))
    ensures Reports(r, q, i)
  {
    forall k | 0 <= k < |r.back| ensures r.back[k] == r.reported[|r.reported| - 1 - k] {
      ReversedAt(r.reported, k);
    }
  }

  /** And the only replies are those. */
  lemma TargetSilent(n: Net, i: Addr, q: Request, answered: bool)
    requires Enabled(n, Hear(i, q, answered))
    requires q.target != i || |q.route| >= MAX_SR_LEN || (n.onlyFirst && Seen(n, i, q.src, q.seqNo))
    ensures Next(n, Hear(i, q, answered)).replies == n.replies
  {
  }

  // ---------------------------------------------------------------------
  // On the way
  // ---------------------------------------------------------------------

  /** The node has not seen the search, is not on its path, and there is room. */
  predicate Unheard(n: Net, i: Addr, q: Request) {
    !Seen(n, i, q.src, q.seqNo) && i !in q.route && |q.route| < MAX_SR_LEN
  }

  /** In every run, a node that is not the target rebroadcasts a request, with itself
      at the end of the path, exactly if it has not seen the search, is not on the
      path, the route cache has no answer and the path may grow; and remembers the
      number exactly if it was not to ignore it. */
  lemma RequestRebroadcast(n0: Net, steps: seq<Step>, n: Net, i: Addr, q: Request, answered: bool)
    requires Initial(n0) && n == After(n0, steps) && Enabled(n, Hear(i, q, answered)) && q.target != i
    ensures var m := Next(n, Hear(i, q, answered));
            && m.requests == n.requests + (if Unheard(n, i, q) && !answered && |q.route| <= q.maxProp
                                           then {q.(route := q.route + [i])} else {})
            && (if Unheard(n, i, q) then q.src in m.nodes[i].seen && m.nodes[i].seen[q.src] == q.seqNo
                else m.nodes == n.nodes)
  {
    NumbersPositive(n0, steps, n, q);
  }

  /** Once a node that is not the target has heard a search, no copy of it and no
      older search of the same source is passed on. */
  lemma HeardOnce(n: Net, i: Addr, p: Request, answered: bool)
    requires Enabled(n, Hear(i, p, answered)) && p.target != i && Seen(n, i, p.src, p.seqNo)
    ensures var m := Next(n, Hear(i, p, answered)); m.requests == n.requests && m.nodes == n.nodes
  {
  }

  /** A node that passed a search on. */
  predicate PassedOn(i: Addr, q: Request) {
    |q.route| >= 2 && q.route[|q.route| - 1] == i
  }

  /** Nodes remember the searches of `src` that they passed on. */
  ghost predicate Remembers(n: Net, i: Addr, src: Addr) {
    forall q {:trigger PassedOn(i, q)} :: q in n.requests && q.src == src && PassedOn(i, q) ==> Seen(n, i, src, q.seqNo)
  }

  predicate SameNumber(q: Request, p: Request, src: Addr) {
    q.src == p.src == src && q.seqNo == p.seqNo
  }

  ghost predicate PassedOnce(n: Net, i: Addr, src: Addr) {
    forall q, p {:trigger PassedOn(i, q), PassedOn(i, p)} ::
      q in n.requests && p in n.requests && PassedOn(i, q) && PassedOn(i, p) && SameNumber(q, p, src) ==> q == p
  }

  /** The node's memory of the source is never overwritten by an older number: it
      answers first requests only, or the source never asks for it. */
  predicate Keeps(n: Net, i: Addr, src: Addr) {
    n.onlyFirst || forall q :: q in n.requests && q.src == src ==> q.target != i
  }

  /** What a step adds for a node and a source. */
  lemma StepOnce(n: Net, s: Step, i: Addr, src: Addr)
    requires Good(n) && Remembers(n, i, src) && PassedOnce(n, i, src) && Keeps(Next(n, s), i, src)
    ensures Remembers(Next(n, s), i, src) && PassedOnce(Next(n, s), i, src)
  {
    var m := Next(n, s);
    forall q | q in m.requests && q.src == src && PassedOn(i, q) ensures Seen(m, i, src, q.seqNo) {
      if q in n.requests {
        SeenStays(n, s, i, src, q.seqNo);
      } else {
        assert s.Hear? && s.node == i;
      }
    }
    forall q, p | q in m.requests && p in m.requests && PassedOn(i, q) && PassedOn(i, p) && SameNumber(q, p, src)
      ensures q == p
    {
      if q !in n.requests && p in n.requests {
        NewUnseen(n, s, i, q);
      } else if q in n.requests && p !in n.requests {
        NewUnseen(n, s, i, p);
      }
    }
  }

  lemma SeenStays(n: Net, s: Step, i: Addr, src: Addr, seqNo: int)
    requires Good(n) && Seen(n, i, src, seqNo) && Keeps(Next(n, s), i, src)
    ensures Seen(Next(n, s), i, src, seqNo)
  {
    if Enabled(n, s) && s.Hear? {
      assert s.request in Next(n, s).requests;
    }
  }

  /** What a node passes on was not seen by it before. */
  lemma NewUnseen(n: Net, s: Step, i: Addr, q: Request)
    requires Good(n) && q in Next(n, s).requests && q !in n.requests && PassedOn(i, q)
    ensures !Seen(n, i, q.src, q.seqNo)
  {
    if s.Hear? {
      assert GoodRequest(n, s.request);
    }
  }

  /** In every run a node passes each search of a source on at most once, if it answers
      first requests only or the source never asked for it. */
  lemma {:induction false} RunPassedOnce(n0: Net, steps: seq<Step>, i: Addr, src: Addr)
    requires Initial(n0) && Keeps(After(n0, steps), i, src)
    ensures Remembers(After(n0, steps), i, src) && PassedOnce(After(n0, steps), i, src)
  {
    if steps != [] {
      var before := After(n0, steps[..|steps| - 1]);
      RequestsGrow(before, steps[|steps| - 1]);
      RunPassedOnce(n0, steps[..|steps| - 1], i, src);
      RunGood(n0, steps[..|steps| - 1]);
      StepOnce(before, steps[|steps| - 1], i, src);
    }
  }

  lemma RequestsGrow(n: Net, s: Step)
    ensures n.requests <= Next(n, s).requests && n.onlyFirst == Next(n, s).onlyFirst
  {
  }

  /** The requests of node 0 in the run below: one for node 1 that comes late, and one
      for node 2 that node 1 hears first. */
  const LATE := Request(0, 1, 1, [0], MAX_SR_LEN)
  const NEWER := Request(0, 2, 2, [0], MAX_SR_LEN)

  /** Node 1 has passed the newer search on, node 3 too, and the older one is late. */
  predicate Overtaken(n: Net) {
    && n.nodes.Keys == {0, 1, 3} && !n.onlyFirst && LATE in n.requests
    && NEWER.(route := [0, 1]) in n.requests && NEWER.(route := [0, 3]) in n.requests
    && n.nodes[1].seen == map[0 := 2]
  }

  lemma LateLaunched(n0: Net) returns (steps: seq<Step>)
    requires Initial(n0) && n0.nodes.Keys == {0, 1, 3} && !n0.onlyFirst
    ensures var n := After(n0, steps);
            && n.nodes.Keys == {0, 1, 3} && !n.onlyFirst && n.requests == {LATE, NEWER}
            && n.nodes[1].seen == map[] == n.nodes[3].seen
  {
    var a, b := Launch(0, 1, false), Launch(0, 2, false);
    LaunchLate(n0);
    AfterOne(n0, [], a);
    AfterOne(n0, [] + [a], b);
    steps := [] + [a] + [b];
  }

  lemma LaunchLate(n0: Net)
    requires Initial(n0) && n0.nodes.Keys == {0, 1, 3} && !n0.onlyFirst
    ensures var n := Next(Next(n0, Launch(0, 1, false)), Launch(0, 2, false));
            && n.nodes.Keys == {0, 1, 3} && !n.onlyFirst && n.requests == {LATE, NEWER}
            && n.nodes[1].seen == map[] == n.nodes[3].seen
  {
    var n := Next(n0, Launch(0, 1, false));
    assert n0.nodes[0].nextSeq == 1 && n0.nodes[1].seen == map[] == n0.nodes[3].seen;
    assert n.nodes[0].nextSeq == 2 && n.requests == {LATE};
  }

  lemma LateOvertaken(n0: Net) returns (steps: seq<Step>)
    requires Initial(n0) && n0.nodes.Keys == {0, 1, 3} && !n0.onlyFirst
    ensures Overtaken(After(n0, steps))
  {
    var a := LateLaunched(n0);
    var b, c := Hear(3, NEWER, false), Hear(1, NEWER, false);
    AfterOne(n0, a, b);
    AfterOne(n0, a + [b], c);
    assert [0] + [3] == [0, 3] && [0] + [1] == [0, 1];
    steps := a + [b] + [c];
  }

  /** The late request lowers the number that node 1 remembers, and the other copy of
      the newer one is passed on too. */
  lemma LateRepeats(n: Net) returns (steps: seq<Step>)
    requires Overtaken(n)
    ensures !PassedOnce(After(n, steps), 1, 0)
  {
    var x := NEWER.(route := [0, 3]);
    var d, e := Hear(1, LATE, false), Hear(1, x, false);
    steps := [d, e];
    AfterOne(n, [], d);
    AfterOne(n, [d], e);
    assert [] + [d] == [d] && [d] + [e] == steps;
    assert [0, 3] + [1] == [0, 3, 1];
    var y, z := NEWER.(route := [0, 1]), NEWER.(route := [0, 3, 1]);
    assert y in After(n, steps).requests && z in After(n, steps).requests;
    assert PassedOn(1, y) && PassedOn(1, z) && SameNumber(y, z, 0) && |y.route| != |z.route|;
  }

  /** Without that condition it may not: a late request for the node itself lowers the
      number it remembers of the source, and it passes a newer search on again. */
  lemma LateRequestRepeats(n0: Net)
    requires Initial(n0) && n0.nodes.Keys == {0, 1, 3} && !n0.onlyFirst
    ensures exists steps :: !PassedOnce(After(n0, steps), 1, 0)
  {
    var a := LateOvertaken(n0);
    var b := LateRepeats(After(n0, a));
    AfterBoth(n0, a, b);
    assert !PassedOnce(After(n0, a + b), 1, 0);
  }

  // ---------------------------------------------------------------------
  // A search finds a path
  // ---------------------------------------------------------------------

  /** What a node remembers of a source is below the number of its next request. */
  ghost predicate Past(n: Net) {
    forall i, src {:trigger Seen(n, i, src, n.nodes[src].nextSeq)} ::
      src in n.nodes ==> !Seen(n, i, src, n.nodes[src].nextSeq)
  }

  lemma {:induction false} RunPast(n0: Net, steps: seq<Step>)
    requires Initial(n0)
    ensures Past(After(n0, steps))
  {
    if steps != [] {
      var n, s := After(n0, steps[..|steps| - 1]), steps[|steps| - 1];
      RunPast(n0, steps[..|steps| - 1]);
      RunGood(n0, steps[..|steps| - 1]);
      StepPast(n, s);
    }
  }

  lemma StepPast(n: Net, s: Step)
    requires Past(n) && Good(n)
    ensures Past(Next(n, s))
  {
    var m := Next(n, s);
    if Enabled(n, s) && s.Hear? {
      assert GoodRequest(n, s.request);
    }
    forall i, src | src in m.nodes ensures !Seen(m, i, src, m.nodes[src].nextSeq) {
      assert !Seen(n, i, src, n.nodes[src].nextSeq);
    }
  }

  /** The search as launched, and as it has travelled to node `k` of the path. */
  function SearchAt(n: Net, path: seq<Addr>, k: nat): Request
    requires k < |path| && path[0] in n.nodes
  {
    Request(path[0], n.nodes[path[0]].nextSeq, path[|path| - 1], path[..k + 1], MAX_SR_LEN)
  }

  /** The launch, then the hearings along the path up to node `k`, the route caches
      having no answer. */
  function Searching(n: Net, path: seq<Addr>, k: nat): seq<Step>
    requires k < |path| && path[0] in n.nodes
  {
    if k == 0 then [Launch(path[0], path[|path| - 1], false)]
    else Searching(n, path, k - 1) + [Hear(path[k], SearchAt(n, path, k - 1), false)]
  }

  /** How far the search has come. */
  ghost predicate Reached(n: Net, path: seq<Addr>, k: nat, m: Net)
    requires k < |path| && path[0] in n.nodes
  {
    && SearchAt(n, path, k) in m.requests && m.nodes.Keys == n.nodes.Keys && m.onlyFirst == n.onlyFirst
    && forall i :: k < i < |path| ==> !Seen(m, path[i], path[0], n.nodes[path[0]].nextSeq)
  }

  lemma AfterOne(n: Net, steps: seq<Step>, s: Step)
    ensures After(n, steps + [s]) == Next(After(n, steps), s)
  {
    assert (steps + [s])[..|steps|] == steps;
  }

  lemma {:induction false} AfterBoth(n: Net, a: seq<Step>, b: seq<Step>)
    ensures After(n, a + b) == After(After(n, a), b)
  {
    if b == [] {
      assert a + b == a;
    } else {
      var last := |b| - 1;
      AfterBoth(n, a, b[..last]);
      assert (a + b)[..|a + b| - 1] == a + b[..last];
    }
  }

  /** A simple path of nodes, short enough for a source route. */
  ghost predicate OnPath(n: Net, path: seq<Addr>) {
    && 2 <= |path| <= MAX_SR_LEN && (forall i :: 0 <= i < |path| ==> path[i] in n.nodes) && Simple(path)
  }

  lemma {:induction false} SearchTravels(n0: Net, run: seq<Step>, n: Net, path: seq<Addr>, k: nat)
    requires Initial(n0) && n == After(n0, run) && OnPath(n, path) && k + 1 < |path|
    ensures Reached(n, path, k, After(n, Searching(n, path, k)))
  {
    RunPast(n0, run);
    if k == 0 {
      AfterOne(n, [], Launch(path[0], path[|path| - 1], false));
      assert [] + Searching(n, path, 0) == Searching(n, path, 0);
      assert path[..1] == [path[0]];
      forall i | 0 < i < |path| ensures !Seen(n, path[i], path[0], n.nodes[path[0]].nextSeq) {
      }
    } else {
      SearchTravels(n0, run, n, path, k - 1);
      SearchStep(n0, run, n, path, k);
    }
  }

  /** One node of the path hears the search. */
  lemma SearchHop(n0: Net, steps: seq<Step>, m: Net, n: Net, path: seq<Addr>, k: nat, q: Request)
    requires Initial(n0) && m == After(n0, steps) && OnPath(n, path) && 0 < k < |path| - 1
    requires Reached(n, path, k - 1, m) && q == SearchAt(n, path, k - 1)
    ensures Reached(n, path, k, Next(m, Hear(path[k], q, false)))
  {
    assert q.route + [path[k]] == path[..k + 1];
    assert path[k] !in q.route;
    RequestRebroadcast(n0, steps, m, path[k], q, false);
  }

  lemma SearchStep(n0: Net, run: seq<Step>, n: Net, path: seq<Addr>, k: nat)
    requires Initial(n0) && n == After(n0, run) && OnPath(n, path) && 0 < k < |path| - 1
    requires Reached(n, path, k - 1, After(n, Searching(n, path, k - 1)))
    ensures Reached(n, path, k, After(n, Searching(n, path, k)))
  {
    var steps, q := Searching(n, path, k - 1), SearchAt(n, path, k - 1);
    AfterBoth(n0, run, steps);
    AfterOne(n, steps, Hear(path[k], q, false));
    SearchHop(n0, run + steps, After(n, steps), n, path, k, q);
  }

  /** The search reaches the target. */
  lemma SearchEnds(n0: Net, steps: seq<Step>, m: Net, path: seq<Addr>, q: Request)
    requires Initial(n0) && m == After(n0, steps) && 2 <= |path| <= MAX_SR_LEN && path[|path| - 1] in m.nodes
    requires q in m.requests && q.src == path[0] && q.target == path[|path| - 1] && q.route == path[..|path| - 1]
    requires !Seen(m, q.target, q.src, q.seqNo)
    ensures exists r :: r in Next(m, Hear(q.target, q, false)).replies
              && r.requester == path[0] && r.target == path[|path| - 1] && r.reported == path
  {
    TargetAnswers(n0, steps, m, q.target, q, false);
    assert path == path[..|path| - 1] + [q.target];
  }

  /** A search works: after any run, along any simple path short enough, the launch of
      a propagating request and its being heard by one node of the path after the other
      end with the target's reply, which reports exactly the path. */
  lemma SearchFindsPath(n0: Net, run: seq<Step>, n: Net, path: seq<Addr>)
    requires Initial(n0) && n == After(n0, run) && OnPath(n, path)
    ensures exists r :: r in After(n, Searching(n, path, |path| - 1)).replies
              && r.requester == path[0] && r.target == path[|path| - 1] && r.reported == path
  {
    var k := |path| - 1;
    var steps, q := Searching(n, path, k - 1), SearchAt(n, path, k - 1);
    var m := After(n, steps);
    SearchTravels(n0, run, n, path, k - 1);
    AfterBoth(n0, run, steps);
    AfterOne(n, steps, Hear(path[k], q, false));
    SearchEnds(n0, run + steps, m, path, q);
  }
}
