/** DSR route discovery (section 8.2 of RFC 4728): requests that record the
    path they take, and the target's reply. */
module DsrDiscovery {
  import opened Common

  /** The longest source route. */
  const MAX_SR_LEN := 16

  type Route = seq<Addr>

  /** A route request in flight; the last node of its route sent it. */
  datatype Request = Request(src: Addr, seqNo: int, target: Addr, route: Route, maxProp: int)

  /** A route reply: the path it reports, and the path it travels back along. */
  datatype Reply = Reply(requester: Addr, target: Addr, seqNo: int, reported: Route, back: Route)

  predicate Full(route: Route) {
    |route| >= MAX_SR_LEN
  }

  function Reversed(s: Route): (r: Route)
    ensures |r| == |s|
  {
    if s == [] then [] else Reversed(s[1..]) + [s[0]]
  }

  /** What an agent keeps: the last request seen of each source, the number of
      its next request. */
  datatype Node = Node(seen: map<Addr, int>, nextSeq: int)

  function SeenOf(v: Node, src: Addr): int {
    if src in v.seen then v.seen[src] else 0
  }

  /** `ignoreRouteRequestp`. */
  predicate Ignores(self: Addr, v: Node, q: Request) {
    SeenOf(v, q.src) >= q.seqNo || self in q.route || Full(q.route)
  }

  function Recorded(v: Node, q: Request): Node {
    v.(seen := v.seen[q.src := q.seqNo])
  }

  /** The request as it is rebroadcast. */
  function Extended(self: Addr, q: Request): Request {
    q.(route := q.route + [self])
  }

  /** `handleRouteRequest`; `answered` tells that the route cache had a reply. */
  function Handled(self: Addr, v: Node, q: Request, answered: bool): (Node, Option<Request>) {
    if Ignores(self, v, q) then (v, None)
    else if answered || |q.route| > q.maxProp || Full(q.route) then (Recorded(v, q), None)
    else (Recorded(v, q), Some(Extended(self, q)))
  }

  /** `returnSrcRouteToRequestor`. */
  function Answered(self: Addr, q: Request): Option<Reply> {
    if Full(q.route) then None
    else Some(Reply(q.src, self, q.seqNo, q.route + [self], Reversed(q.route + [self])))
  }

  /** A request that reaches its target. */
  function AtTarget(self: Addr, v: Node, q: Request, onlyFirst: bool): (Node, Option<Reply>) {
    if onlyFirst && Ignores(self, v, q) then (v, None) else (Recorded(v, q), Answered(self, q))
  }

  /** `sendOutRtReq`. */
  function Launched(self: Addr, v: Node, target: Addr, maxProp: int): (Node, Request) {
    (v.(nextSeq := v.nextSeq + 1), Request(self, v.nextSeq, target, [self], maxProp))
  }

  /** A received packet, whose route the agent changes in place. */
  class SrPacket {
    const src: Addr
    const dest: Addr
    const seqNo: int
    const maxProp: int
    var route: Route

    constructor (src: Addr, dest: Addr, seqNo: int, maxProp: int, route: Route)
      ensures TheRequest() == Request(src, seqNo, dest, route, maxProp)
    {
      this.src, this.dest, this.seqNo, this.maxProp, this.route := src, dest, seqNo, maxProp, route;
    }

    function TheRequest(): Request
      reads this
    {
      Request(src, seqNo, dest, route, maxProp)
    }

    method AppendToPath(id: Addr)
      requires !Full(route)
      modifies this`route
      ensures route == old(route) + [id]
    {
      route := route + [id];
    }

    /** Swaps from both ends towards the middle. */
    method ReverseInPlace()
      modifies this`route
      ensures route == Reversed(old(route))
    {
      var i, n := 0, |route|;
      while i < n / 2
        invariant 0 <= i <= n / 2 && |route| == n
        invariant forall k :: 0 <= k < i ==> route[k] == old(route)[n - 1 - k] && route[n - 1 - k] == old(route)[k]
        invariant forall k :: i <= k < n - i ==> route[k] == old(route)[k]
      {
        route := route[i := route[n - 1 - i]][n - 1 - i := route[i]];
        i := i + 1;
      }
      ghost var was := old(route);
      forall k | 0 <= k < n ensures route[k] == Reversed(was)[k] {
        ReversedAt(was, k);
      }
    }
  }

  class DsrAgent {
    const netId: Addr
    const onlyFirst: bool
    var requestTable: map<Addr, int>
    var routeRequestNum: int

    function TheNode(): Node
      reads this
    {
      Node(requestTable, routeRequestNum)
    }

    constructor (netId: Addr, onlyFirst: bool)
      ensures this.netId == netId && this.onlyFirst == onlyFirst && TheNode() == Node(map[], 1)
    {
      this.netId, this.onlyFirst, requestTable, routeRequestNum := netId, onlyFirst, map[], 1;
    }

    method IgnoreRouteRequest(p: SrPacket) returns (ignore: bool)
      ensures ignore == Ignores(netId, TheNode(), p.TheRequest())
    {
      var last := 0;
      if p.src in requestTable {
        last := requestTable[p.src];
      }
      if last >= p.seqNo {
        return true;
      }
      if netId in p.route {
        return true;
      }
      if |p.route| >= MAX_SR_LEN {
        return true;
      }
      return false;
    }

    /** A request for another node; `rebroadcast` tells that `p` is sent on. */
    method HandleRouteRequest(p: SrPacket, answered: bool) returns (rebroadcast: bool)
      modifies this`requestTable, p`route
      ensures var (v, out) := Handled(netId, old(TheNode()), old(p.TheRequest()), answered);
              && TheNode() == v && rebroadcast == out.Some?
              && p.TheRequest() == if rebroadcast then out.value else old(p.TheRequest())
    {
      var ignore := IgnoreRouteRequest(p);
      if ignore {
        return false;
      }
      requestTable := requestTable[p.src := p.seqNo];
      if answered {
        return false;
      }
      if |p.route| > p.maxProp {
        return false;
      }
      if |p.route| >= MAX_SR_LEN {
        return false;
      }
      p.AppendToPath(netId);
      return true;
    }

    /** A request for this node. */
    method HandlePacketReceipt(p: SrPacket) returns (reply: Option<Reply>)
      modifies this`requestTable
      ensures (TheNode(), reply) == AtTarget(netId, old(TheNode()), p.TheRequest(), onlyFirst)
    {
      if onlyFirst {
        var ignore := IgnoreRouteRequest(p);
        if ignore {
          return None;
        }
      }
      requestTable := requestTable[p.src := p.seqNo];
      reply := ReturnSrcRouteToRequestor(p);
    }

    method ReturnSrcRouteToRequestor(p: SrPacket) returns (reply: Option<Reply>)
      ensures reply == Answered(netId, p.TheRequest())
    {
      if |p.route| >= MAX_SR_LEN {
        return None;
      }
      var copy := new SrPacket(netId, p.src, p.seqNo, p.maxProp, p.route);
      copy.AppendToPath(netId);
      var reported := copy.route;
      copy.ReverseInPlace();
      reply := Some(Reply(copy.dest, netId, p.seqNo, reported, copy.route));
    }

    method SendOutRtReq(target: Addr, maxProp: int) returns (p: SrPacket)
      modifies this`routeRequestNum
      ensures fresh(p) && (TheNode(), p.TheRequest()) == Launched(netId, old(TheNode()), target, maxProp)
    {
      p := new SrPacket(netId, target, routeRequestNum, maxProp, []);
      routeRequestNum := routeRequestNum + 1;
      assert [] + [netId] == [netId];
      p.AppendToPath(netId);
    }
  }

  // ---------------------------------------------------------------------
  // Reversal
  // ---------------------------------------------------------------------

  lemma {:induction false} ReversedAt(s: Route, k: nat)
    requires k < |s|
    ensures Reversed(s)[k] == s[|s| - 1 - k]
  {
    if k < |s| - 1 {
      ReversedAt(s[1..], k);
    }
  }

  // ---------------------------------------------------------------------
  // A network of agents
  // ---------------------------------------------------------------------

  /** Requests stay deliverable; `heard` holds each link a transmission was
      received over, as (sender, receiver). */
  datatype Net = Net(nodes: map<Addr, Node>, requests: set<Request>, replies: set<Reply>,
                     heard: set<(Addr, Addr)>, onlyFirst: bool)

  /** A node asks for a route to another node, or hears a transmission. */
  datatype Step =
    | Launch(node: Addr, target: Addr, ringZero: bool)
    | Hear(node: Addr, request: Request, answered: bool)

  predicate Enabled(n: Net, s: Step) {
    && s.node in n.nodes
    && match s
       case Launch(i, target, _) => i != target
       case Hear(_, q, _) => q in n.requests && q.route != []
  }

  function Sole<T>(o: Option<T>): set<T> {
    if o.Some? then {o.value} else {}
  }

  function Next(n: Net, s: Step): Net {
    if !Enabled(n, s) then n
    else
      var v := n.nodes[s.node];
      match s
      case Launch(i, target, ringZero) =>
        var (w, q) := Launched(i, v, target, if ringZero then 0 else MAX_SR_LEN);
        n.(nodes := n.nodes[i := w], requests := n.requests + {q})
      case Hear(i, q, answered) =>
        var heard := n.heard + {(q.route[|q.route| - 1], i)};
        if q.target == i then
          var (w, reply) := AtTarget(i, v, q, n.onlyFirst);
          n.(nodes := n.nodes[i := w], replies := n.replies + Sole(reply), heard := heard)
        else
          var (w, out) := Handled(i, v, q, answered);
          n.(nodes := n.nodes[i := w], requests := n.requests + Sole(out), heard := heard)
  }

  function After(n: Net, steps: seq<Step>): Net {
    if steps == [] then n else Next(After(n, steps[..|steps| - 1]), steps[|steps| - 1])
  }

  predicate Initial(n: Net) {
    && n.requests == {} && n.replies == {} && n.heard == {}
    && forall i :: i in n.nodes ==> n.nodes[i] == Node(map[], 1)
  }

  predicate Simple(route: Route) {
    forall i, j :: 0 <= i < j < |route| ==> route[i] != route[j]
  }

  /** Each hop follows a link that was heard. */
  predicate Linked(heard: set<(Addr, Addr)>, route: Route) {
    forall k {:trigger route[k]} :: 0 < k < |route| ==> (route[k - 1], route[k]) in heard
  }

  /** A simple path from the requester over heard links, within the limit. */
  predicate GoodRoute(heard: set<(Addr, Addr)>, src: Addr, route: Route) {
    && 1 <= |route| <= MAX_SR_LEN && route[0] == src
    && Simple(route) && Linked(heard, route)
  }

  predicate GoodRequest(n: Net, q: Request) {
    && GoodRoute(n.heard, q.src, q.route)
    && q.target !in q.route
    && (q.maxProp == 0 ==> q.route == [q.src])
    && q.src in n.nodes && 1 <= q.seqNo < n.nodes[q.src].nextSeq
  }

  /** The reported path ends at the target; the reply travels it backwards. */
  predicate GoodReply(n: Net, r: Reply) {
    && GoodRoute(n.heard, r.requester, r.reported)
    && |r.reported| >= 2 && r.reported[|r.reported| - 1] == r.target
    && Simple(r.back) && |r.back| == |r.reported|
    && r.back[0] == r.target && r.back[|r.back| - 1] == r.requester
    && forall k {:trigger r.back[k]} :: 0 < k < |r.back| ==> (r.back[k], r.back[k - 1]) in n.heard
  }

  /** One source and number, one search. */
  predicate SameSearch(q: Request, p: Request) {
    q.src == p.src && q.seqNo == p.seqNo ==> q.target == p.target && q.maxProp == p.maxProp
  }

  ghost predicate Good(n: Net) {
    && (forall i :: i in n.nodes ==> n.nodes[i].nextSeq >= 1)
    && (forall q {:trigger GoodRequest(n, q)} :: q in n.requests ==> GoodRequest(n, q))
    && (forall r {:trigger GoodReply(n, r)} :: r in n.replies ==> GoodReply(n, r))
    && (forall q, p {:trigger SameSearch(q, p)} :: q in n.requests && p in n.requests ==> SameSearch(q, p))
  }

  /** Appending a node that heard the last one and is not on the path. */
  lemma RouteExtends(heard: set<(Addr, Addr)>, src: Addr, route: Route, self: Addr)
    requires GoodRoute(heard, src, route) && self !in route && !Full(route)
    requires (route[|route| - 1], self) in heard
    ensures GoodRoute(heard, src, route + [self])
  {
  }

  lemma BackIsGood(n: Net, r: Reply)
    requires GoodRoute(n.heard, r.requester, r.reported) && |r.reported| >= 2
    requires r.reported[|r.reported| - 1] == r.target && r.back == Reversed(r.reported)
    ensures GoodReply(n, r)
  {
    var m := |r.reported| - 1;
    forall k | 0 <= k <= m ensures r.back[k] == r.reported[m - k] {
      ReversedAt(r.reported, k);
    }
    forall k | 0 < k < |r.back| ensures (r.back[k], r.back[k - 1]) in n.heard {
      assert r.reported[m - k + 1] == r.back[k - 1];
    }
  }

  /** The request a step sends. */
  lemma NewRequest(n: Net, s: Step, q: Request)
    requires Good(n) && q in Next(n, s).requests && q !in n.requests
    ensures GoodRequest(Next(n, s), q)
    ensures forall p :: p in n.requests ==> SameSearch(q, p)
  {
    match s {
      case Launch(_, _, _) =>
        forall p | p in n.requests ensures SameSearch(q, p) {
          assert GoodRequest(n, p);
        }
      case Hear(i, h, _) =>
        assert GoodRequest(n, h) && q == Extended(i, h);
        RouteExtends(Next(n, s).heard, h.src, h.route, i);
        forall p | p in n.requests ensures SameSearch(q, p) {
          assert SameSearch(h, p);
        }
    }
  }

  lemma NewReply(n: Net, s: Step, r: Reply)
    requires Good(n) && r in Next(n, s).replies && r !in n.replies
    ensures GoodReply(Next(n, s), r)
  {
    var m, q := Next(n, s), s.request;
    assert GoodRequest(n, q);
    RouteExtends(m.heard, q.src, q.route, s.node);
    BackIsGood(m, r);
  }

  lemma StepGood(n: Net, s: Step)
    requires Good(n)
    ensures Good(Next(n, s))
  {
    var m := Next(n, s);
    forall q | q in m.requests ensures GoodRequest(m, q) {
      if q in n.requests {
        assert GoodRequest(n, q);
      } else {
        NewRequest(n, s, q);
      }
    }
    forall r | r in m.replies ensures GoodReply(m, r) {
      if r in n.replies {
        assert GoodReply(n, r);
      } else {
        NewReply(n, s, r);
      }
    }
    forall q, p | q in m.requests && p in m.requests ensures SameSearch(q, p) {
      SearchesAgree(n, s, q, p);
    }
  }

  lemma SearchesAgree(n: Net, s: Step, q: Request, p: Request)
    requires Good(n) && q in Next(n, s).requests && p in Next(n, s).requests
    ensures SameSearch(q, p)
  {
    if q in n.requests && p in n.requests {
      assert SameSearch(q, p);
    } else if p in n.requests {
      NewRequest(n, s, q);
    } else if q in n.requests {
      NewRequest(n, s, p);
      assert SameSearch(p, q);
    } else {
      assert p == q;
    }
  }

  /** In every run, each request in flight carries a simple path over heard links
      from its requester, not through its target and no longer than the limit,
      one of ring zero just its requester; each reply reports a simple path to
      the target and comes back along it. */
  lemma {:induction false} RunGood(n0: Net, steps: seq<Step>)
    requires Initial(n0)
    ensures Good(After(n0, steps))
  {
    if steps != [] {
      RunGood(n0, steps[..|steps| - 1]);
      StepGood(After(n0, steps[..|steps| - 1]), steps[|steps| - 1]);
    }
  }

  /** A ring-zero request is never rebroadcast. */
  lemma {:induction false} RingZeroStops(n0: Net, steps: seq<Step>, q: Request)
    requires Initial(n0) && q in After(n0, steps).requests && q.maxProp == 0
    ensures q.route == [q.src]
  {
    RunGood(n0, steps);
    assert GoodRequest(After(n0, steps), q);
  }

  /** Whatever a requester learns from a reply is a simple path of heard links
      from itself to the target. */
  lemma {:induction false} RepliesReportPaths(n0: Net, steps: seq<Step>, r: Reply)
    requires Initial(n0) && r in After(n0, steps).replies
    ensures GoodRoute(After(n0, steps).heard, r.requester, r.reported)
    ensures r.reported[|r.reported| - 1] == r.target != r.requester
    ensures r.back == Reversed(r.reported)
  {
    RunGood(n0, steps);
    var n := After(n0, steps);
    assert GoodReply(n, r);
    BackIsReversed(n0, steps, r);
  }

  lemma {:induction false} BackIsReversed(n0: Net, steps: seq<Step>, r: Reply)
    requires Initial(n0) && r in After(n0, steps).replies
    ensures r.back == Reversed(r.reported)
  {
    var n := After(n0, steps[..|steps| - 1]);
    if r in n.replies {
      BackIsReversed(n0, steps[..|steps| - 1], r);
    }
  }
}
