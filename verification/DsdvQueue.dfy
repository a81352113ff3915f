/** The data packets that wait at a DSDV agent for a route, and the loop that
    flushes them once an advert offers one. */
module DsdvQueue {
  import opened Common

  const MAX_QUEUE_LENGTH := 5

  const IP_DEF_TTL := 32

  type Ttl = t: int | t >= 1 witness 1

  /** A data packet at an agent: whether the agent originated it, and its TTL. */
  datatype Waiting = Waiting(own: bool, ttl: Ttl)

  /** `PacketQueue`, oldest packet first. */
  type Queue = q: seq<Waiting> | |q| <= MAX_QUEUE_LENGTH

  predicate HasOwn(q: Queue) {
    exists w :: w in q && w.own
  }

  /** The head of `recv`: an own packet starts with a new TTL, a relayed one loses
      a hop and is dropped at 0. */
  function Admitted(w: Waiting): Option<Waiting> {
    if w.own then Some(w.(ttl := IP_DEF_TTL))
    else if w.ttl == 1 then None
    else Some(w.(ttl := w.ttl - 1))
  }

  /** `enque`, which drops from the front when the queue is too long. */
  function Enqueued(q: Queue, w: Waiting): Queue {
    var r := q + [w];
    if |r| > MAX_QUEUE_LENGTH then r[|r| - MAX_QUEUE_LENGTH..] else r
  }

  /** One round of the flush: the oldest packet goes through `recv` and, with no
      usable route, back into the queue that is being emptied. */
  function FlushRound(q: Queue, routable: bool): Queue
    requires q != []
  {
    match Admitted(q[0])
    case None => q[1..]
    case Some(w) => if routable then q[1..] else Enqueued(q[1..], w)
  }

  /** The queue after up to `k` rounds. */
  function FlushRounds(q: Queue, routable: bool, k: nat): Queue
    decreases k
  {
    if k == 0 || q == [] then q else FlushRounds(FlushRound(q, routable), routable, k - 1)
  }

  ghost predicate FlushEnds(q: Queue, routable: bool) {
    exists k: nat :: FlushRounds(q, routable, k) == []
  }

  /** The packets that leave when the route is usable, in order. */
  function Departing(q: seq<Waiting>): seq<Waiting> {
    if q == [] then []
    else if Admitted(q[0]).Some? then [Admitted(q[0]).value] + Departing(q[1..])
    else Departing(q[1..])
  }

  function TotalTtl(q: seq<Waiting>): nat {
    if q == [] then 0 else q[0].ttl + TotalTtl(q[1..])
  }

  lemma {:induction false} TotalTtlAppend(q: seq<Waiting>, w: Waiting)
    ensures TotalTtl(q + [w]) == TotalTtl(q) + w.ttl
  {
    if q != [] {
      assert (q + [w])[1..] == q[1..] + [w];
      TotalTtlAppend(q[1..], w);
    }
  }

  /** A round without a route takes one hop off a queue of relayed packets. */
  lemma RelayedRound(q: Queue)
    requires q != [] && !HasOwn(q)
    ensures !HasOwn(FlushRound(q, false)) && TotalTtl(FlushRound(q, false)) == TotalTtl(q) - 1
  {
    assert q[0] in q;
    if q[0].ttl > 1 {
      TotalTtlAppend(q[1..], q[0].(ttl := q[0].ttl - 1));
    }
  }

  lemma {:induction false} RelayedDrain(q: Queue)
    requires !HasOwn(q)
    ensures FlushRounds(q, false, TotalTtl(q)) == []
    decreases TotalTtl(q)
  {
    if q != [] {
      RelayedRound(q);
      RelayedDrain(FlushRound(q, false));
    }
  }

  /** An own packet never leaves while there is no route. */
  lemma {:induction false} OwnStays(q: Queue, k: nat)
    requires HasOwn(q)
    ensures HasOwn(FlushRounds(q, false, k))
    decreases k
  {
    if k > 0 {
      var w :| w in q && w.own;
      var r := FlushRound(q, false);
      if w == q[0] {
        assert r[|r| - 1].own;
      } else {
        assert w in r;
      }
      OwnStays(r, k - 1);
    }
  }

  lemma {:induction false} RoutableDrain(q: Queue)
    ensures FlushRounds(q, true, |q|) == []
    decreases |q|
  {
    if q != [] {
      RoutableDrain(q[1..]);
    }
  }

  /** The flush ends exactly if the route is usable or no own packet waits. */
  lemma FlushEndsExactly(q: Queue, routable: bool)
    ensures FlushEnds(q, routable) <==> routable || !HasOwn(q)
  {
    if routable {
      RoutableDrain(q);
    } else if HasOwn(q) {
      forall k: nat ensures FlushRounds(q, false, k) != [] {
        OwnStays(q, k);
      }
    } else {
      RelayedDrain(q);
    }
  }

  /** One own packet and no route: the flush goes round for ever. */
  lemma OwnPacketHangs()
    ensures !FlushEnds([Waiting(true, IP_DEF_TTL)], false)
  {
    var q: Queue := [Waiting(true, IP_DEF_TTL)];
    assert q[0].own;
    FlushEndsExactly(q, false);
  }

  /** What leaves in one round. */
  function Gone(q: Queue, routable: bool): seq<Waiting>
    requires q != []
  {
    if routable && Admitted(q[0]).Some? then [Admitted(q[0]).value] else []
  }

  /** How many rounds are left at most. */
  function RoundsLeft(q: Queue, routable: bool): nat {
    if routable then |q| else TotalTtl(q)
  }

  /** A flush of `q` that ends, after which `left` have left and `rest` waits. */
  ghost predicate Draining(q: Queue, routable: bool, rest: Queue, left: seq<Waiting>) {
    && (routable || !HasOwn(rest))
    && left + (if routable then Departing(rest) else []) == if routable then Departing(q) else []
  }

  lemma RoundDrains(q: Queue, routable: bool, rest: Queue, left: seq<Waiting>)
    requires rest != [] && Draining(q, routable, rest, left)
    ensures Draining(q, routable, FlushRound(rest, routable), left + Gone(rest, routable))
    ensures RoundsLeft(FlushRound(rest, routable), routable) < RoundsLeft(rest, routable)
  {
    if !routable {
      RelayedRound(rest);
    }
  }

  /** The loop, where it ends: every packet leaves whose TTL allows it, or none. */
  method Flush(q: Queue, routable: bool) returns (left: seq<Waiting>)
    requires routable || !HasOwn(q)
    ensures left == if routable then Departing(q) else []
  {
    var rest: Queue := q;
    left := [];
    while rest != []
      invariant Draining(q, routable, rest, left)
      decreases RoundsLeft(rest, routable)
    {
      RoundDrains(q, routable, rest, left);
      var gone;
      rest, gone := RetryOldest(rest, routable);
      left := left + gone;
    }
  }

  /** The oldest packet goes through `recv`. */
  method RetryOldest(q: Queue, routable: bool) returns (rest: Queue, gone: seq<Waiting>)
    requires q != []
    ensures rest == FlushRound(q, routable) && gone == Gone(q, routable)
  {
    var p := q[0];
    rest, gone := q[1..], [];
    if p.own {
      p := p.(ttl := IP_DEF_TTL);
    } else if p.ttl - 1 == 0 {
      return;
    } else {
      p := p.(ttl := p.ttl - 1);
    }
    if routable {
      gone := [p];
    } else {
      rest := Enqueued(rest, p);
    }
  }
}
