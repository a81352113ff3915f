/** The AODV agent: route discovery, route errors and link failures over
    entries of sequence number and hop count (sections 6.1 to 6.7 and 6.11 of
    RFC 3561). */
module Aodv {
  import opened Common

  const INFINITY2 := 255

  const MY_ROUTE_TIMEOUT := 10
  const ACTIVE_ROUTE_TIMEOUT := 10.0
  const REV_ROUTE_LIFE := 6.0
  const BCAST_ID_SAVE := 6.0
  const RREQ_RETRIES := 3
  const MAX_RREQ_TIMEOUT := 10.0
  const TTL_START := 5
  const TTL_THRESHOLD := 7
  const TTL_INCREMENT := 2
  const NETWORK_DIAMETER := 30

  datatype Flags = Up | Down | InRepair

  /** `aodv_rt_entry`, filed under its destination. */
  datatype Entry = Entry(seqno: int, hops: int, next: Addr, flags: Flags, expire: real, lastHops: int,
                         reqCnt: int, reqTimeout: real, reqLastTtl: int, precursors: set<Addr>)

  datatype Lost = Lost(dst: Addr, seqno: int)

  /** A route request; `from` is the node that put it on the air. */
  datatype Request = Request(from: Addr, ttl: int, src: Addr, bid: int, srcSeq: int, hops: int, dst: Addr, dstSeq: int)

  /** A route reply on its way to `requester`. */
  datatype Reply = Reply(from: Addr, ttl: int, next: Addr, requester: Addr, dst: Addr, dstSeq: int, hops: int,
                         lifetime: int)

  datatype Msg = Rreq(q: Request) | Rrep(p: Reply) | Rerr(from: Addr, lost: seq<Lost>)

  /** An agent's state: counters, routes in list order, the broadcast ids it
      remembers until a time, the destinations its buffered packets wait for. */
  datatype Node = Node(seqno: int, bid: int, order: seq<Addr>, entries: map<Addr, Entry>,
                       ids: map<(Addr, int), real>, waiting: set<Addr>)

  /** What a handler does: the new state and the messages sent. */
  datatype Effect = Effect(node: Node, sent: seq<Msg>)

  ghost predicate WellFormed(v: Node) {
    && (forall d :: d in v.order <==> d in v.entries)
    && forall i, j :: 0 <= i < j < |v.order| ==> v.order[i] != v.order[j]
  }

  // ---------------------------------------------------------------------
  // Entries
  // ---------------------------------------------------------------------

  function NewEntry(): Entry {
    Entry(0, INFINITY2, 0, Down, 0.0, 0, 0, 0.0, 0, {})
  }

  /** `rt_add`, unless the entry exists. */
  function Ensured(v: Node, d: Addr): Node {
    if d in v.entries then v else v.(order := [d] + v.order, entries := v.entries[d := NewEntry()])
  }

  function With(v: Node, d: Addr, e: Entry): Node {
    v.(entries := v.entries[d := e])
  }

  function MaxReal(a: real, b: real): real {
    if a >= b then a else b
  }

  function Max(a: int, b: int): int {
    if a >= b then a else b
  }

  /** `rt_update`. */
  function Routed(e: Entry, seqno: int, hops: int, next: Addr, expire: real): Entry {
    e.(seqno := seqno, hops := hops, flags := Up, next := next, expire := expire)
  }

  /** `rt_down`. */
  function Downed(e: Entry): Entry {
    if e.flags.Down? then e
    else e.(lastHops := e.hops, hops := INFINITY2, flags := Down, next := 0, expire := 0.0)
  }

  /** A number and hop count that the entry gives way to. */
  predicate Fresher(e: Entry, seqno: int, hops: int) {
    seqno > e.seqno || (seqno == e.seqno && hops < e.hops)
  }

  /** A packet for `d` left by the entry. */
  function Used(self: Addr, d: Addr, e: Entry, now: real): Entry {
    if d == self then e else e.(expire := now + ACTIVE_ROUTE_TIMEOUT)
  }

  /** The packets buffered for `d` leave. */
  function Flushed(self: Addr, v: Node, d: Addr, now: real): Node
    requires d in v.entries
  {
    if d !in v.waiting then v
    else
      var e := if v.entries[d].hops != INFINITY2 then Used(self, d, v.entries[d], now) else v.entries[d];
      With(v, d, e).(waiting := v.waiting - {d})
  }

  // ---------------------------------------------------------------------
  // Requests
  // ---------------------------------------------------------------------

  /** The expanding ring: the TTL that follows the last one used. */
  function NextTtl(last: int): int {
    if last == 0 then TTL_START else if last < TTL_THRESHOLD then last + TTL_INCREMENT else NETWORK_DIAMETER
  }

  /** How long the next request for the same destination has to wait. */
  function RequestWait(ttl: int, count: int, perHop: real): real {
    var once := 2.0 * ttl as real * perHop;
    var wait := if count > 0 then once * count as real else once;
    if wait > MAX_RREQ_TIMEOUT then MAX_RREQ_TIMEOUT else wait
  }

  /** `sendRequest`; `perHop` is the measured time per hop. */
  function Asked(self: Addr, v: Node, d: Addr, now: real, perHop: real): Effect
    requires d in v.entries
  {
    var e := v.entries[d];
    if e.flags.Up? || e.reqTimeout > now then Effect(v, [])
    else if e.reqCnt > RREQ_RETRIES then
      Effect(With(v, d, e.(reqTimeout := now + MAX_RREQ_TIMEOUT, reqCnt := 0)).(waiting := v.waiting - {d}), [])
    else
      var last := Max(e.reqLastTtl, e.lastHops);
      var ttl, count := NextTtl(last), if last >= TTL_THRESHOLD then e.reqCnt + 1 else e.reqCnt;
      var asked := e.(reqLastTtl := ttl, reqCnt := count, expire := 0.0,
                      reqTimeout := now + RequestWait(ttl, count, perHop));
      Effect(With(v, d, asked).(bid := v.bid + 1, seqno := v.seqno + 2),
             [Rreq(Request(self, ttl, self, v.bid, v.seqno + 2, 1, d, e.seqno))])
  }

  /** `rt_resolve` for a packet of `origin` to `d`. */
  function Resolved(self: Addr, v0: Node, origin: Addr, d: Addr, now: real, perHop: real): Effect {
    var v := Ensured(v0, d);
    var e := v.entries[d];
    if e.flags.Up? then Effect(With(v, d, Used(self, d, e, now)), [])
    else if origin == self then Asked(self, v.(waiting := v.waiting + {d}), d, now, perHop)
    else if e.flags.InRepair? then Effect(v.(waiting := v.waiting + {d}), [])
    else Effect(v, [Rerr(self, [Lost(d, e.seqno)])])
  }

  /** The reverse route of a request. */
  function ReverseEntry(e0: Entry, m: Request, now: real): Entry
  {
    var e := e0.(expire := MaxReal(e0.expire, now + REV_ROUTE_LIFE));
    if Fresher(e, m.srcSeq, m.hops) then
      var r := Routed(e, m.srcSeq, m.hops, m.from, MaxReal(e.expire, now + REV_ROUTE_LIFE));
      if r.reqTimeout > 0.0 then
        r.(reqCnt := 0, reqTimeout := 0.0, reqLastTtl := m.hops, expire := now + ACTIVE_ROUTE_TIMEOUT)
      else r
    else e
  }

  /** The state after a new request has left its id and its reverse route. */
  function Reversed(self: Addr, v: Node, m: Request, now: real): Node
    ensures m.src in Reversed(self, v, m, now).entries
  {
    var w := Ensured(v.(ids := v.ids[(m.src, m.bid) := now + BCAST_ID_SAVE]), m.src);
    var e := w.entries[m.src];
    var x := With(w, m.src, ReverseEntry(e, m, now));
    if Fresher(e, m.srcSeq, m.hops) then Flushed(self, x, m.src, now) else x
  }

  /** The destination's number in its reply: even, and above both its own and
      the requested one. */
  function ReplySeqno(own: int, wanted: int): int {
    var s := Max(own, wanted) + 1;
    if s % 2 != 0 then s + 1 else s
  }

  /** The node may answer for the destination. */
  predicate CanAnswer(v: Node, m: Request)
  {
    m.dst in v.entries && v.entries[m.dst].hops != INFINITY2 && v.entries[m.dst].seqno >= m.dstSeq
  }

  /** Both ends of the answered request become precursors of each other's next
      hops. */
  function Introduced(v: Node, dst: Addr, src: Addr): Node
    requires dst in v.entries && src in v.entries
  {
    var e := v.entries[dst];
    var w := With(v, dst, e.(precursors := e.precursors + {v.entries[src].next}));
    var e0 := w.entries[src];
    With(w, src, e0.(precursors := e0.precursors + {e.next}))
  }

  function Seconds(t: real): int {
    t.Floor
  }

  /** `recvRequest`; `m` carries the TTL it arrived with. */
  function Requested(self: Addr, v: Node, m: Request, now: real): Effect
  {
    if m.src == self || (m.src, m.bid) in v.ids then Effect(v, [])
    else
      var w := Reversed(self, v, m, now);
      var back := w.entries[m.src].next;
      if m.dst == self then
        var seqno := ReplySeqno(w.seqno, m.dstSeq);
        Effect(w.(seqno := seqno),
               [Rrep(Reply(self, NETWORK_DIAMETER, back, m.src, self, seqno, 1, MY_ROUTE_TIMEOUT))])
      else if CanAnswer(w, m) then
        var e := w.entries[m.dst];
        Effect(Introduced(w, m.dst, m.src),
               [Rrep(Reply(self, NETWORK_DIAMETER, back, m.src, m.dst, e.seqno, e.hops + 1, Seconds(e.expire - now)))])
      else
        var seen := if m.dst in w.entries then Max(w.entries[m.dst].seqno, m.dstSeq) else m.dstSeq;
        Effect(w, if m.ttl == 0 then [] else [Rreq(m.(from := self, hops := m.hops + 1, dstSeq := seen))])
  }

  // ---------------------------------------------------------------------
  // Replies
  // ---------------------------------------------------------------------

  /** The forward route of a reply that is fresher. */
  function ForwardEntry(e: Entry, m: Reply, now: real): Entry
  {
    Routed(e, m.dstSeq, m.hops, m.from, now + m.lifetime as real).(reqCnt := 0, reqTimeout := 0.0, reqLastTtl := m.hops)
  }

  /** A fresher reply travels on along the route to the requester. */
  function Relayed(self: Addr, v: Node, m: Reply, now: real): Effect
    requires m.dst in v.entries
  {
    if m.requester !in v.entries || v.entries[m.requester].hops == INFINITY2 then Effect(v, [])
    else
      var e0 := v.entries[m.requester];
      var w := if m.ttl == 0 then v else With(v, m.requester, e0.(expire := now + ACTIVE_ROUTE_TIMEOUT));
      var e := w.entries[m.dst];
      Effect(With(w, m.dst, e.(precursors := e.precursors + {e0.next})),
             if m.ttl == 0 then [] else [Rrep(m.(from := self, hops := m.hops + 1, next := e0.next))])
  }

  /** `recvReply`. */
  function Replied(self: Addr, v0: Node, m: Reply, now: real): Effect
  {
    var v := Ensured(v0, m.dst);
    var e := v.entries[m.dst];
    if !Fresher(e, m.dstSeq, m.hops) then Effect(v, [])
    else
      var w := Flushed(self, With(v, m.dst, ForwardEntry(e, m, now)), m.dst, now);
      if m.requester == self then Effect(w, []) else Relayed(self, w, m, now)
  }

  // ---------------------------------------------------------------------
  // Errors and failures
  // ---------------------------------------------------------------------

  /** The route goes through the sender of the error, and the error is not older. */
  predicate Hit(v: Node, from: Addr, l: Lost) {
    && l.dst in v.entries && v.entries[l.dst].hops != INFINITY2
    && v.entries[l.dst].next == from && v.entries[l.dst].seqno <= l.seqno
  }

  /** The routes an error takes down, and those it is passed on for. */
  function Erred(v: Node, from: Addr, lost: seq<Lost>): (Node, seq<Lost>) {
    if lost == [] then (v, [])
    else
      var last := |lost| - 1;
      var (w, passed) := Erred(v, from, lost[..last]);
      var l := lost[last];
      if !Hit(w, from, l) then (w, passed)
      else
        var e := w.entries[l.dst];
        (With(w, l.dst, Downed(e.(seqno := l.seqno)).(precursors := {})),
         if e.precursors != {} then passed + [l] else passed)
  }

  /** `recvError`. */
  function Errored(self: Addr, v: Node, m: Msg): Effect
    requires m.Rerr?
  {
    var (w, passed) := Erred(v, m.from, m.lost);
    Effect(w, if passed == [] then [] else [Rerr(self, passed)])
  }

  predicate Through(e: Entry, neighbour: Addr) {
    e.hops != INFINITY2 && e.next == neighbour
  }

  /** An entry after the link to `neighbour` failed. */
  function Severed(e: Entry, neighbour: Addr): Entry {
    var f := if Through(e, neighbour) then Downed(e.(seqno := e.seqno + 1)) else e;
    f.(precursors := f.precursors - {neighbour})
  }

  function SeveredAll(entries: map<Addr, Entry>, neighbour: Addr): map<Addr, Entry> {
    map d | d in entries :: Severed(entries[d], neighbour)
  }

  /** The routes lost with the link, in list order. */
  function LostThrough(entries: map<Addr, Entry>, order: seq<Addr>, neighbour: Addr): seq<Lost> {
    if order == [] then []
    else
      var d, before := order[|order| - 1], LostThrough(entries, order[..|order| - 1], neighbour);
      if d in entries && Through(entries[d], neighbour) then before + [Lost(d, entries[d].seqno + 1)] else before
  }

  /** `handle_link_failure`. */
  function LinkFailed(self: Addr, v: Node, neighbour: Addr): Effect {
    var lost := LostThrough(v.entries, v.order, neighbour);
    Effect(v.(entries := SeveredAll(v.entries, neighbour)), if lost == [] then [] else [Rerr(self, lost)])
  }

  /** `nb_delete`. */
  function NeighbourLost(self: Addr, v: Node, neighbour: Addr): Effect {
    LinkFailed(self, v.(seqno := v.seqno + 2), neighbour)
  }

  /** One entry of `rt_purge`. */
  function PurgedOne(self: Addr, f: Effect, d: Addr, now: real, perHop: real): Effect {
    var v := f.node;
    if d !in v.entries then f
    else
      var e := v.entries[d];
      if e.flags.Up? && e.expire < now then
        Effect(With(v, d, Downed(e.(seqno := e.seqno + 1))).(waiting := v.waiting - {d}), f.sent)
      else if e.flags.Up? then
        if d in v.waiting then Effect(With(v, d, Used(self, d, e, now)).(waiting := v.waiting - {d}), f.sent) else f
      else if d in v.waiting then
        var g := Asked(self, v, d, now, perHop);
        Effect(g.node, f.sent + g.sent)
      else f
  }

  /** `rt_purge`. */
  function Purged(self: Addr, v: Node, order: seq<Addr>, now: real, perHop: real): Effect {
    if order == [] then Effect(v, [])
    else
      PurgedOne(self, Purged(self, v, order[..|order| - 1], now, perHop), order[|order| - 1], now, perHop)
  }

  /** `id_purge`. */
  function IdsKept(ids: map<(Addr, int), real>, now: real): map<(Addr, int), real> {
    map k | k in ids && ids[k] > now :: ids[k]
  }

  /** `local_rt_repair`. */
  function Repairing(self: Addr, v: Node, d: Addr, now: real, perHop: real): Effect
    requires d in v.entries
  {
    Asked(self, With(v, d, v.entries[d].(flags := InRepair)).(waiting := v.waiting + {d}), d, now, perHop)
  }

  /** The timeout of a repair: the route goes down under its old number. */
  function RepairFailed(v: Node, d: Addr): Node {
    if d in v.entries && !v.entries[d].flags.Up? then With(v, d, Downed(v.entries[d])) else v
  }

  /** One hop is taken off the TTL. */
  function Hopped(q: Request): Request {
    q.(ttl := q.ttl - 1)
  }

  function HoppedBack(p: Reply): Reply {
    p.(ttl := p.ttl - 1)
  }

  /** `recvAODV`. */
  function Received(self: Addr, v: Node, m: Msg, now: real): Effect {
    match m
    case Rreq(q) => Requested(self, v, Hopped(q), now)
    case Rrep(p) => Replied(self, v, HoppedBack(p), now)
    case Rerr(_, _) => Errored(self, v, m)
  }

  // ---------------------------------------------------------------------
  // The agent
  // ---------------------------------------------------------------------

  class AodvAgent {
    const index: Addr
    var seqno: int
    var bid: int
    var order: seq<Addr>
    var entries: map<Addr, Entry>
    var ids: map<(Addr, int), real>
    var waiting: set<Addr>
    var out: seq<Msg>

    function TheNode(): Node
      reads this
    {
      Node(seqno, bid, order, entries, ids, waiting)
    }

    ghost predicate Valid()
      reads this
    {
      WellFormed(TheNode())
    }

    constructor (id: Addr)
      ensures Valid() && index == id && TheNode() == Node(2, 1, [], map[], map[], {}) && out == []
    {
      index, seqno, bid := id, 2, 1;
      order, entries, ids, waiting, out := [], map[], map[], {}, [];
    }

    method RtAdd(d: Addr)
      requires Valid() && d !in entries
      modifies this`order, this`entries
      ensures Valid() && TheNode() == Ensured(old(TheNode()), d) && d in entries
    {
      order := [d] + order;
      entries := entries[d := NewEntry()];
    }

    method RtDown(d: Addr)
      requires Valid() && d in entries
      modifies this`entries
      ensures Valid() && TheNode() == With(old(TheNode()), d, Downed(old(entries[d])))
    {
      var rt := entries[d];
      if rt.flags == Down {
        assert entries == entries[d := rt];
        return;
      }
      rt := rt.(lastHops := rt.hops);
      entries := entries[d := rt.(hops := INFINITY2, flags := Down, next := 0, expire := 0.0)];
    }

    /** The buffered packets for `d` are forwarded. */
    method Drain(d: Addr, now: real)
      requires Valid() && d in entries
      modifies this`entries, this`waiting
      ensures Valid() && TheNode() == Flushed(index, old(TheNode()), d, now)
    {
      if d in waiting {
        if entries[d].hops != INFINITY2 && d != index {
          entries := entries[d := entries[d].(expire := now + ACTIVE_ROUTE_TIMEOUT)];
        }
        waiting := waiting - {d};
      }
      assert old(d in waiting) ==> entries == old(entries)[d := entries[d]];
    }

    method SendRequest(dst: Addr, now: real, perHop: real)
      requires Valid() && dst in entries
      modifies this`seqno, this`bid, this`entries, this`waiting, this`out
      ensures Valid()
      ensures var f := Asked(index, old(TheNode()), dst, now, perHop);
              TheNode() == f.node && out == old(out) + f.sent
    {
      var rt := entries[dst];
      if rt.flags == Up {
        return;
      }
      if rt.reqTimeout > now {
        return;
      }
      if rt.reqCnt > RREQ_RETRIES {
        entries := entries[dst := rt.(reqTimeout := now + MAX_RREQ_TIMEOUT, reqCnt := 0)];
        waiting := waiting - {dst};
        return;
      }
      rt := rt.(reqLastTtl := Max(rt.reqLastTtl, rt.lastHops));
      var ttl: int;
      if 0 == rt.reqLastTtl {
        ttl := TTL_START;
      } else if rt.reqLastTtl < TTL_THRESHOLD {
        ttl := rt.reqLastTtl + TTL_INCREMENT;
      } else {
        ttl := NETWORK_DIAMETER;
        rt := rt.(reqCnt := rt.reqCnt + 1);
      }
      rt := rt.(reqLastTtl := ttl, reqTimeout := now + RequestWait(ttl, rt.reqCnt, perHop), expire := 0.0);
      entries := entries[dst := rt];
      seqno := seqno + 2;
      out := out + [Rreq(Request(index, ttl, index, bid, seqno, 1, dst, rt.seqno))];
      bid := bid + 1;
    }

    method RtResolve(origin: Addr, dst: Addr, now: real, perHop: real)
      requires Valid()
      modifies this`seqno, this`bid, this`order, this`entries, this`waiting, this`out
      ensures Valid()
      ensures var f := Resolved(index, old(TheNode()), origin, dst, now, perHop);
              TheNode() == f.node && out == old(out) + f.sent
    {
      if dst !in entries {
        RtAdd(dst);
      }
      var rt := entries[dst];
      if rt.flags == Up {
        entries := entries[dst := Used(index, dst, rt, now)];
      } else if origin == index {
        waiting := waiting + {dst};
        SendRequest(dst, now, perHop);
      } else if rt.flags == InRepair {
        waiting := waiting + {dst};
      } else {
        out := out + [Rerr(index, [Lost(dst, rt.seqno)])];
      }
    }

    method SetReverseRoute(m: Request, now: real)
      requires Valid()
      modifies this`order, this`entries, this`ids, this`waiting
      ensures Valid() && TheNode() == Reversed(index, old(TheNode()), m, now)
    {
      ids := ids[(m.src, m.bid) := now + BCAST_ID_SAVE];
      if m.src !in entries {
        RtAdd(m.src);
      }
      var fresher := UpdateReverse(m, now);
      if fresher {
        assert entries[m.src].flags == Up;
        Drain(m.src, now);
      }
    }

    method UpdateReverse(m: Request, now: real) returns (fresher: bool)
      requires Valid() && m.src in entries
      modifies this`entries
      ensures Valid() && TheNode() == With(old(TheNode()), m.src, ReverseEntry(old(entries[m.src]), m, now))
      ensures fresher == Fresher(old(entries[m.src]), m.srcSeq, m.hops)
    {
      var rt0 := entries[m.src];
      rt0 := rt0.(expire := MaxReal(rt0.expire, now + REV_ROUTE_LIFE));
      fresher := m.srcSeq > rt0.seqno || (m.srcSeq == rt0.seqno && m.hops < rt0.hops);
      if fresher {
        rt0 := Routed(rt0, m.srcSeq, m.hops, m.from, MaxReal(rt0.expire, now + REV_ROUTE_LIFE));
        if rt0.reqTimeout > 0.0 {
          rt0 := rt0.(reqCnt := 0, reqTimeout := 0.0, reqLastTtl := m.hops, expire := now + ACTIVE_ROUTE_TIMEOUT);
        }
      }
      entries := entries[m.src := rt0];
    }

    method RecvRequest(m: Request, now: real)
      requires Valid()
      modifies this`seqno, this`order, this`entries, this`ids, this`waiting, this`out
      ensures Valid()
      ensures var f := Requested(index, old(TheNode()), m, now);
              TheNode() == f.node && out == old(out) + f.sent
    {
      if m.src == index {
        return;
      }
      if (m.src, m.bid) in ids {
        return;
      }
      SetReverseRoute(m, now);
      if m.dst == index {
        seqno := Max(seqno, m.dstSeq) + 1;
        if seqno % 2 != 0 {
          seqno := seqno + 1;
        }
        SendReply(m.src, 1, index, seqno, MY_ROUTE_TIMEOUT);
      } else if m.dst in entries && entries[m.dst].hops != INFINITY2 && entries[m.dst].seqno >= m.dstSeq {
        var rt := entries[m.dst];
        SendReply(m.src, rt.hops + 1, m.dst, rt.seqno, Seconds(rt.expire - now));
        Introduce(m.dst, m.src);
      } else {
        var wanted := m.dstSeq;
        if m.dst in entries {
          wanted := Max(entries[m.dst].seqno, wanted);
        }
        if m.ttl != 0 {
          out := out + [Rreq(m.(from := index, hops := m.hops + 1, dstSeq := wanted))];
        }
      }
    }

    method Introduce(dst: Addr, src: Addr)
      requires Valid() && dst in entries && src in entries
      modifies this`entries
      ensures Valid() && TheNode() == Introduced(old(TheNode()), dst, src)
    {
      var next := entries[dst].next;
      entries := entries[dst := entries[dst].(precursors := entries[dst].precursors + {entries[src].next})];
      entries := entries[src := entries[src].(precursors := entries[src].precursors + {next})];
    }

    method SendReply(ipdst: Addr, hopCount: int, rpdst: Addr, rpseq: int, lifetime: int)
      requires ipdst in entries
      modifies this`out
      ensures out == old(out) + [Rrep(Reply(index, NETWORK_DIAMETER, entries[ipdst].next, ipdst, rpdst, rpseq, hopCount,
                                            lifetime))]
    {
      out := out + [Rrep(Reply(index, NETWORK_DIAMETER, entries[ipdst].next, ipdst, rpdst, rpseq, hopCount, lifetime))];
    }

    method RecvReply(m: Reply, now: real)
      requires Valid()
      modifies this`order, this`entries, this`waiting, this`out
      ensures Valid()
      ensures var f := Replied(index, old(TheNode()), m, now);
              TheNode() == f.node && out == old(out) + f.sent
    {
      if m.dst !in entries {
        RtAdd(m.dst);
      }
      var rt := entries[m.dst];
      if !(rt.seqno < m.dstSeq || (rt.seqno == m.dstSeq && rt.hops > m.hops)) {
        return;
      }
      SetForwardRoute(m, now);
      Drain(m.dst, now);
      if m.requester == index {
        return;
      }
      RelayReply(m, now);
    }

    method SetForwardRoute(m: Reply, now: real)
      requires Valid() && m.dst in entries
      modifies this`entries
      ensures Valid() && TheNode() == With(old(TheNode()), m.dst, ForwardEntry(old(entries[m.dst]), m, now))
    {
      var rt := Routed(entries[m.dst], m.dstSeq, m.hops, m.from, now + m.lifetime as real);
      entries := entries[m.dst := rt.(reqCnt := 0, reqTimeout := 0.0, reqLastTtl := m.hops)];
    }

    method RelayReply(m: Reply, now: real)
      requires Valid() && m.dst in entries
      modifies this`entries, this`out
      ensures Valid()
      ensures var f := Relayed(index, old(TheNode()), m, now);
              TheNode() == f.node && out == old(out) + f.sent
    {
      if m.requester in entries && entries[m.requester].hops != INFINITY2 {
        var rt0 := entries[m.requester];
        if m.ttl != 0 {
          entries := entries[m.requester := rt0.(expire := now + ACTIVE_ROUTE_TIMEOUT)];
          out := out + [Rrep(m.(from := index, hops := m.hops + 1, next := rt0.next))];
        }
        var rt := entries[m.dst];
        entries := entries[m.dst := rt.(precursors := rt.precursors + {rt0.next})];
      }
    }

    method RecvError(m: Msg)
      requires Valid() && m.Rerr?
      modifies this`entries, this`out
      ensures Valid()
      ensures var f := Errored(index, old(TheNode()), m);
              TheNode() == f.node && out == old(out) + f.sent
    {
      var nre: seq<Lost> := [];
      for i := 0 to |m.lost|
        invariant Valid() && out == old(out)
        invariant (TheNode(), nre) == Erred(old(TheNode()), m.from, m.lost[..i])
      {
        assert m.lost[..i + 1][..i] == m.lost[..i];
        var l := m.lost[i];
        if l.dst in entries && entries[l.dst].hops != INFINITY2 && entries[l.dst].next == m.from
           && entries[l.dst].seqno <= l.seqno {
          nre := TakeDown(l, nre);
        }
      }
      assert m.lost[..|m.lost|] == m.lost;
      if |nre| > 0 {
        out := out + [Rerr(index, nre)];
      }
    }

    /** One route that an error takes down. */
    method TakeDown(l: Lost, nre: seq<Lost>) returns (passed: seq<Lost>)
      requires Valid() && l.dst in entries
      modifies this`entries
      ensures Valid()
      ensures var e := old(entries[l.dst]);
              && TheNode() == With(old(TheNode()), l.dst, Downed(e.(seqno := l.seqno)).(precursors := {}))
              && passed == if e.precursors != {} then nre + [l] else nre
    {
      entries := entries[l.dst := entries[l.dst].(seqno := l.seqno)];
      RtDown(l.dst);
      passed := nre;
      if entries[l.dst].precursors != {} {
        passed := nre + [Lost(l.dst, entries[l.dst].seqno)];
      }
      entries := entries[l.dst := entries[l.dst].(precursors := {})];
    }

    method HandleLinkFailure(id: Addr)
      requires Valid()
      modifies this`entries, this`out
      ensures Valid()
      ensures var f := LinkFailed(index, old(TheNode()), id);
              TheNode() == f.node && out == old(out) + f.sent
    {
      ghost var v := TheNode();
      var lost: seq<Lost> := [];
      for i := 0 to |order|
        invariant Valid() && order == v.order && out == old(out)
        invariant lost == LostThrough(v.entries, order[..i], id)
        invariant Walked(v, i, entries, SeveredAll(v.entries, id))
      {
        lost := SeverAt(i, id, lost, v, SeveredAll(v.entries, id));
      }
      assert order[..|order|] == order;
      AllWalked(v, entries, SeveredAll(v.entries, id));
      if |lost| > 0 {
        out := out + [Rerr(index, lost)];
      }
    }

    /** One entry of that walk. */
    method SeverAt(i: nat, id: Addr, lost: seq<Lost>, ghost v: Node, ghost target: map<Addr, Entry>)
      returns (more: seq<Lost>)
      requires Valid() && order == v.order && i < |order| && WellFormed(v)
      requires lost == LostThrough(v.entries, order[..i], id)
      requires target == SeveredAll(v.entries, id) && Walked(v, i, entries, target)
      modifies this`entries
      ensures Valid() && more == LostThrough(v.entries, order[..i + 1], id)
      ensures Walked(v, i + 1, entries, target)
    {
      WalkStep(v, i, entries, target);
      ghost var next := entries[order[i] := target[order[i]]];
      more := SeverOne(order[i], id, lost);
      assert entries == next;
      LostStep(v.entries, v.order, i, id);
    }

    method SeverOne(d: Addr, id: Addr, lost: seq<Lost>) returns (more: seq<Lost>)
      requires Valid() && d in entries
      modifies this`entries
      ensures Valid() && entries == old(entries)[d := Severed(old(entries[d]), id)]
      ensures var e := old(entries[d]);
              more == if Through(e, id) then lost + [Lost(d, e.seqno + 1)] else lost
    {
      more := lost;
      var rt := entries[d];
      if rt.hops != INFINITY2 && rt.next == id {
        entries := entries[d := rt.(seqno := rt.seqno + 1)];
        more := lost + [Lost(d, entries[d].seqno)];
        RtDown(d);
      }
      entries := entries[d := entries[d].(precursors := entries[d].precursors - {id})];
    }

    method NbDelete(id: Addr)
      requires Valid()
      modifies this`seqno, this`entries, this`out
      ensures Valid()
      ensures var f := NeighbourLost(index, old(TheNode()), id);
              TheNode() == f.node && out == old(out) + f.sent
    {
      seqno := seqno + 2;
      HandleLinkFailure(id);
    }

    method RtPurge(now: real, perHop: real)
      requires Valid()
      modifies this`seqno, this`bid, this`entries, this`waiting, this`out
      ensures Valid()
      ensures var f := Purged(index, old(TheNode()), old(order), now, perHop);
              TheNode() == f.node && out == old(out) + f.sent
    {
      ghost var v, o := TheNode(), out;
      for i := 0 to |order|
        invariant Valid() && order == v.order
        invariant var f := Purged(index, v, order[..i], now, perHop);
                  TheNode() == f.node && out == o + f.sent
      {
        assert order[..i + 1][..i] == order[..i];
        PurgeEntry(order[i], now, perHop, o, Purged(index, v, order[..i], now, perHop));
      }
      assert order[..|order|] == order;
    }

    method PurgeEntry(d: Addr, now: real, perHop: real, ghost o: seq<Msg>, ghost f: Effect)
      requires Valid() && d in entries && TheNode() == f.node && out == o + f.sent
      modifies this`seqno, this`bid, this`entries, this`waiting, this`out
      ensures Valid() && order == old(order)
      ensures var g := PurgedOne(index, f, d, now, perHop); TheNode() == g.node && out == o + g.sent
    {
      var rt := entries[d];
      if rt.flags == Up && rt.expire < now {
        waiting := waiting - {d};
        entries := entries[d := rt.(seqno := rt.seqno + 1)];
        RtDown(d);
      } else if rt.flags == Up {
        if d in waiting {
          entries := entries[d := Used(index, d, rt, now)];
          waiting := waiting - {d};
        }
      } else if d in waiting {
        SendRequest(d, now, perHop);
      }
    }

    method IdPurge(now: real)
      requires Valid()
      modifies this`ids
      ensures Valid() && TheNode() == old(TheNode()).(ids := IdsKept(old(ids), now))
    {
      ids := map k | k in ids && ids[k] > now :: ids[k];
    }

    method NbInsert()
      requires Valid()
      modifies this`seqno
      ensures Valid() && TheNode() == old(TheNode()).(seqno := old(seqno) + 2)
    {
      seqno := seqno + 2;
    }

    method LocalRtRepair(dst: Addr, now: real, perHop: real)
      requires Valid() && dst in entries
      modifies this`seqno, this`bid, this`entries, this`waiting, this`out
      ensures Valid()
      ensures var f := Repairing(index, old(TheNode()), dst, now, perHop);
              TheNode() == f.node && out == old(out) + f.sent
    {
      waiting := waiting + {dst};
      entries := entries[dst := entries[dst].(flags := InRepair)];
      SendRequest(dst, now, perHop);
    }

    method RepairTimeout(dst: Addr)
      requires Valid()
      modifies this`entries
      ensures Valid() && TheNode() == RepairFailed(old(TheNode()), dst)
    {
      if dst in entries && entries[dst].flags != Up {
        RtDown(dst);
      }
    }
  }

  // ---------------------------------------------------------------------
  // Walking the route list
  // ---------------------------------------------------------------------

  /** A walk that has rewritten the entries before position `i`. */
  ghost predicate Walked(v: Node, i: nat, entries: map<Addr, Entry>, target: map<Addr, Entry>) {
    && entries.Keys == v.entries.Keys == target.Keys
    && forall k {:trigger v.order[k]} :: 0 <= k < |v.order| && v.order[k] in entries ==>
      entries[v.order[k]] == if k < i then target[v.order[k]] else v.entries[v.order[k]]
  }

  lemma WalkStep(v: Node, i: nat, entries: map<Addr, Entry>, target: map<Addr, Entry>)
    requires WellFormed(v) && i < |v.order| && Walked(v, i, entries, target)
    ensures v.order[i] in entries && entries[v.order[i]] == v.entries[v.order[i]]
    ensures Walked(v, i + 1, entries[v.order[i] := target[v.order[i]]], target)
  {
    assert v.order[i] in v.order;
  }

  lemma LostStep(entries: map<Addr, Entry>, order: seq<Addr>, i: nat, neighbour: Addr)
    requires i < |order| && order[i] in entries
    ensures var d, before := order[i], LostThrough(entries, order[..i], neighbour);
            LostThrough(entries, order[..i + 1], neighbour)
            == if Through(entries[d], neighbour) then before + [Lost(d, entries[d].seqno + 1)] else before
  {
    assert order[..i + 1][..i] == order[..i];
  }

  lemma AllWalked(v: Node, entries: map<Addr, Entry>, target: map<Addr, Entry>)
    requires WellFormed(v) && Walked(v, |v.order|, entries, target)
    ensures entries == target
  {
    forall d | d in target ensures entries[d] == target[d] {
      assert d in v.order;
    }
  }
}
