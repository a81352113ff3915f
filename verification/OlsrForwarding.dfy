/** Reception and default forwarding of OLSR messages (section 3.4 of RFC
    3626): the duplicate set and the queue of messages to retransmit. */
module OlsrForwarding {
  import opened Common

  const DUP_HOLD_TIME := 30.0

  datatype Kind = Hello | Tc | Mid | Other

  datatype Msg = Msg(kind: Kind, orig: Addr, seqNum: int, ttl: int, hops: int)

  type MsgId = (Addr, int)

  function Id(m: Msg): MsgId {
    (m.orig, m.seqNum)
  }

  /** `OLSR_dup_tuple`; the key holds originator and sequence number. */
  datatype Dup = Dup(retransmitted: bool, ifaces: seq<Addr>, time: real)

  /** What a reception consults besides the node's message state: its own
      address, the senders with a live symmetric link, its MPR selectors. */
  datatype Env = Env(self: Addr, sym: set<Addr>, selectors: set<Addr>)

  /** Duplicate set, messages awaiting transmission, and the log of messages
      that were handed to TC or MID processing past its symmetry check. */
  datatype State = State(dups: map<MsgId, Dup>, msgs: seq<Msg>, processed: seq<Msg>)

  /** The message as it is retransmitted. */
  function Relayed(m: Msg): Msg {
    m.(ttl := m.ttl - 1, hops := m.hops + 1)
  }

  predicate Relays(e: Env, m: Msg, sender: Addr) {
    m.ttl > 1 && sender in e.selectors
  }

  /** Processing: HELLOs are modelled elsewhere, and TC and MID messages are
      discarded unless the sender is a symmetric neighbour. */
  function Process(e: Env, s: State, m: Msg, sender: Addr): State {
    if (m.kind.Tc? || m.kind.Mid?) && sender in e.sym then s.(processed := s.processed + [m]) else s
  }

  /** `forward_default`. */
  function Forward(e: Env, s: State, m: Msg, sender: Addr, now: real): State {
    if sender !in e.sym then s
    else if Id(m) in s.dups && s.dups[Id(m)].retransmitted then s
    else
      var seen := if Id(m) in s.dups then s.dups[Id(m)].ifaces else [];
      var dup := Dup(Relays(e, m, sender), seen + [e.self], now + DUP_HOLD_TIME);
      s.(dups := s.dups[Id(m) := dup],
         msgs := if Relays(e, m, sender) then s.msgs + [Relayed(m)] else s.msgs)
  }

  /** One message of a received packet. */
  function Receive(e: Env, s: State, m: Msg, sender: Addr, now: real): State {
    if m.ttl <= 0 || m.orig == e.self then s
    else
      var processed := if Id(m) in s.dups then s else Process(e, s, m, sender);
      if (Id(m) in s.dups && e.self in s.dups[Id(m)].ifaces) || m.kind.Hello? then processed
      else Forward(e, processed, m, sender, now)
  }

  /** All messages of a received packet, in order. */
  function ReceiveAll(e: Env, s: State, ms: seq<Msg>, sender: Addr, now: real): State {
    if ms == [] then s
    else Receive(e, ReceiveAll(e, s, ms[..|ms| - 1], sender, now), ms[|ms| - 1], sender, now)
  }

  class Forwarder {
    const self: Addr
    var sym: set<Addr>
    var selectors: set<Addr>
    var dups: map<MsgId, Dup>
    var msgs: seq<Msg>
    var processed: seq<Msg>

    constructor (self: Addr, sym: set<Addr>, selectors: set<Addr>)
      ensures TheEnv() == Env(self, sym, selectors)
      ensures TheState() == State(map[], [], [])
    {
      this.self, this.sym, this.selectors := self, sym, selectors;
      dups, msgs, processed := map[], [], [];
    }

    function TheEnv(): Env
      reads this
    {
      Env(self, sym, selectors)
    }

    function TheState(): State
      reads this
    {
      State(dups, msgs, processed)
    }

    method ForwardDefault(m: Msg, sender: Addr, now: real)
      modifies this`dups, this`msgs
      ensures TheState() == Forward(TheEnv(), old(TheState()), m, sender, now)
    {
      if sender !in sym {
        return;
      }
      if Id(m) in dups && dups[Id(m)].retransmitted {
        return;
      }
      var retransmitted := false;
      if m.ttl > 1 {
        if sender in selectors {
          retransmitted := true;
        }
      }
      if Id(m) in dups {
        dups := dups[Id(m) := Dup(retransmitted, dups[Id(m)].ifaces + [self], now + DUP_HOLD_TIME)];
      } else {
        assert [] + [self] == [self];
        dups := dups[Id(m) := Dup(retransmitted, [self], now + DUP_HOLD_TIME)];
      }
      if retransmitted {
        msgs := msgs + [m.(ttl := m.ttl - 1, hops := m.hops + 1)];
      }
    }

    method RecvOlsr(packet: seq<Msg>, sender: Addr, now: real)
      modifies this`dups, this`msgs, this`processed
      ensures TheState() == ReceiveAll(TheEnv(), old(TheState()), packet, sender, now)
    {
      ghost var before := TheState();
      for i := 0 to |packet|
        invariant TheState() == ReceiveAll(TheEnv(), before, packet[..i], sender, now)
      {
        assert packet[..i + 1][..i] == packet[..i];
        var m := packet[i];
        if m.ttl <= 0 || m.orig == self {
          continue;
        }
        var doForwarding := true;
        if Id(m) !in dups {
          if (m.kind.Tc? || m.kind.Mid?) && sender in sym {
            processed := processed + [m];
          }
        } else if self in dups[Id(m)].ifaces {
          doForwarding := false;
        }
        if doForwarding && !m.kind.Hello? {
          ForwardDefault(m, sender, now);
        }
      }
      assert packet[..|packet|] == packet;
    }
  }

  // ---------------------------------------------------------------------
  // At most once while the duplicate tuple is held
  // ---------------------------------------------------------------------

  /** What can happen to a node: a reception (under whatever links and
      selectors hold then), the expiry of a duplicate tuple, a transmission of
      the queue. */
  datatype Event =
    | Rx(e: Env, m: Msg, sender: Addr, now: real)
    | Expire(id: MsgId)
    | Send

  /** The node's state with the messages it has sent so far. */
  datatype Trace = Trace(s: State, sent: seq<Msg>)

  function Apply(t: Trace, ev: Event): Trace {
    match ev
    case Rx(e, m, sender, now) => t.(s := Receive(e, t.s, m, sender, now))
    case Expire(id) => t.(s := t.s.(dups := t.s.dups - {id}))
    case Send => Trace(t.s.(msgs := []), t.sent + t.s.msgs)
  }

  function Run(events: seq<Event>): Trace {
    if events == [] then Trace(State(map[], [], []), [])
    else Apply(Run(events[..|events| - 1]), events[|events| - 1])
  }

  function Count(ms: seq<Msg>, id: MsgId): nat {
    if ms == [] then 0
    else Count(ms[..|ms| - 1], id) + if Id(ms[|ms| - 1]) == id then 1 else 0
  }

  lemma {:induction false} CountConcat(a: seq<Msg>, b: seq<Msg>, id: MsgId)
    ensures Count(a + b, id) == Count(a, id) + Count(b, id)
  {
    if b == [] {
      assert a + b == a;
    } else {
      assert (a + b)[..|a + b| - 1] == a + b[..|b| - 1];
      CountConcat(a, b[..|b| - 1], id);
    }
  }

  /** How often a held tuple of message `id` expired. */
  function Expiries(events: seq<Event>, id: MsgId): nat {
    if events == [] then 0
    else
      var before := events[..|events| - 1];
      Expiries(before, id) +
      if events[|events| - 1] == Expire(id) && id in Run(before).s.dups then 1 else 0
  }

  /** The node is always the same one. */
  predicate AtNode(events: seq<Event>, self: Addr) {
    forall k :: 0 <= k < |events| && events[k].Rx? ==> events[k].e.self == self
  }

  /** Processed and queued at most `expired` times, plus once while held. */
  ghost predicate Bounded(t: Trace, self: Addr, id: MsgId, expired: nat) {
    var held := if id in t.s.dups then 1 else 0;
    && (id in t.s.dups ==> self in t.s.dups[id].ifaces)
    && Count(t.s.processed, id) <= expired + held
    && Count(t.s.msgs, id) + Count(t.sent, id) <= expired + held
  }

  /** A reception either changes nothing, or it is the one that creates the
      duplicate tuple. */
  lemma ReceiveOnce(e: Env, s: State, m: Msg, sender: Addr, now: real)
    requires Id(m) in s.dups ==> e.self in s.dups[Id(m)].ifaces
    ensures var r := Receive(e, s, m, sender, now);
            || r == s
            || (&& Id(m) !in s.dups && m.ttl > 0 && sender in e.sym
                && r.dups == s.dups[Id(m) := Dup(Relays(e, m, sender), [e.self], now + DUP_HOLD_TIME)]
                && r.msgs == (if Relays(e, m, sender) then s.msgs + [Relayed(m)] else s.msgs)
                && (r.processed == s.processed || r.processed == s.processed + [m]))
  {
    assert [] + [e.self] == [e.self];
  }

  /** The first copy from a symmetric neighbour is processed if it is a TC or MID
      message, creates the duplicate tuple, and is queued exactly if its sender selected
      the node and it has hops left: with one hop less to live and one more behind it. */
  lemma ReceiveFirst(e: Env, s: State, m: Msg, sender: Addr, now: real)
    requires (m.orig, m.seqNum) !in s.dups && m.ttl > 0 && m.orig != e.self && !m.kind.Hello? && sender in e.sym
    ensures var r := Receive(e, s, m, sender, now);
            var relayed := m.ttl > 1 && sender in e.selectors;
            && r.processed == (if m.kind.Tc? || m.kind.Mid? then s.processed + [m] else s.processed)
            && r.dups == s.dups[(m.orig, m.seqNum) := Dup(relayed, [e.self], now + 30.0)]
            && r.msgs == (if relayed then s.msgs + [m.(ttl := m.ttl - 1, hops := m.hops + 1)] else s.msgs)
  {
    assert [] + [e.self] == [e.self];
  }

  /** A message without hops left, an own one, a HELLO, one from a sender without a
      symmetric link, and a copy of one received before change nothing. */
  lemma ReceiveIgnored(e: Env, s: State, m: Msg, sender: Addr, now: real)
    requires || m.ttl <= 0 || m.orig == e.self || m.kind.Hello? || sender !in e.sym
             || ((m.orig, m.seqNum) in s.dups && e.self in s.dups[(m.orig, m.seqNum)].ifaces)
    ensures Receive(e, s, m, sender, now) == s
  {
  }

  /** The messages of a packet are received one after the other, none left out. */
  lemma {:induction false} PacketInOrder(e: Env, s: State, a: seq<Msg>, b: seq<Msg>, sender: Addr, now: real)
    ensures ReceiveAll(e, s, a + b, sender, now) == ReceiveAll(e, ReceiveAll(e, s, a, sender, now), b, sender, now)
    ensures |b| == 1 ==> ReceiveAll(e, s, b, sender, now) == Receive(e, s, b[0], sender, now)
  {
    if b == [] {
      assert a + b == a;
    } else {
      PacketInOrder(e, s, a, b[..|b| - 1], sender, now);
      assert (a + b)[..|a + b| - 1] == a + b[..|b| - 1];
    }
  }

  lemma RxBounded(t: Trace, e: Env, m: Msg, sender: Addr, now: real, id: MsgId, expired: nat)
    requires Bounded(t, e.self, id, expired)
    requires Id(m) in t.s.dups ==> e.self in t.s.dups[Id(m)].ifaces
    ensures Bounded(t.(s := Receive(e, t.s, m, sender, now)), e.self, id, expired)
  {
    var r := Receive(e, t.s, m, sender, now);
    ReceiveOnce(e, t.s, m, sender, now);
    if r != t.s {
      assert Count(r.processed, id) <= Count(t.s.processed, id) + if Id(m) == id then 1 else 0;
      assert Count(r.msgs, id) <= Count(t.s.msgs, id) + if Id(m) == id then 1 else 0;
    }
  }

  /** In every run, a message is processed, and queued for retransmission, at
      most once per holding of its duplicate tuple: never again while the
      first tuple is held, once more only after it expired. */
  lemma {:induction false} AtMostOncePerHolding(events: seq<Event>, self: Addr, id: MsgId)
    requires AtNode(events, self)
    ensures Bounded(Run(events), self, id, Expiries(events, id))
  {
    if events != [] {
      var before, ev := events[..|events| - 1], events[|events| - 1];
      AtMostOncePerHolding(before, self, id);
      var t := Run(before);
      match ev {
        case Rx(e, m, sender, now) =>
          assert events[|events| - 1].e.self == self;
          AtMostOncePerHolding(before, self, Id(m));
          RxBounded(t, e, m, sender, now, id, Expiries(before, id));
        case Expire(_) =>
        case Send =>
          CountConcat(t.sent, t.s.msgs, id);
      }
    }
  }

  /** A copy carries TTL plus hop count `total`. */
  predicate Budget(m: Msg, id: MsgId, total: int) {
    Id(m) == id ==> m.ttl + m.hops == total
  }

  /** Along a flood TTL plus hop count is constant, and what a node queues has
      TTL at least 1: the relay depth stays below the initial TTL. */
  lemma {:induction false} RelayBudget(events: seq<Event>, self: Addr, id: MsgId, total: int, m: Msg)
    requires AtNode(events, self)
    requires forall k :: 0 <= k < |events| && events[k].Rx? ==> Budget(events[k].m, id, total)
    requires m in Run(events).s.msgs + Run(events).sent && Id(m) == id
    ensures m.ttl + m.hops == total && 1 <= m.ttl
    ensures m.hops < total
  {
    var before, ev := events[..|events| - 1], events[|events| - 1];
    var t := Run(before);
    if m in t.s.msgs + t.sent {
      RelayBudget(before, self, id, total, m);
    } else {
      assert ev.Rx?;
      AtMostOncePerHolding(before, self, Id(ev.m));
      ReceiveOnce(ev.e, t.s, ev.m, ev.sender, ev.now);
      assert Budget(events[|events| - 1].m, id, total);
    }
  }
}
