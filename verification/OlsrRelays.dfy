/** A network of OLSR nodes that flood messages, with transmissions that may be
    lost, delayed, duplicated and reordered while neighbours and selectors change:
    how far a message can travel. */
module OlsrRelays {
  import opened Common
  import opened OlsrForwarding

  /** Each node's message state, every copy ever sent with its sender, and each
      message as its originator sent it. */
  datatype Net = Net(nodes: map<Addr, State>, air: set<(Addr, Msg)>, origins: map<MsgId, Msg>)

  /** A node queues a message of its own, sends what is queued, hears a copy with
      the neighbours and selectors it has then, or forgets a duplicate tuple. */
  datatype Step =
    | Originate(node: Addr, m: Msg)
    | Send(node: Addr)
    | Hear(node: Addr, sender: Addr, m: Msg, sym: set<Addr>, selectors: set<Addr>, now: real)
    | Expire(node: Addr, id: MsgId)

  /** A message identity is originated once, by its node, with hop count 0. */
  predicate Enabled(n: Net, s: Step) {
    && s.node in n.nodes
    && match s
       case Originate(v, m) => m.orig == v && m.hops == 0 && m.ttl >= 1 && Id(m) !in n.origins
       case Hear(_, sender, m, _, _, _) => (sender, m) in n.air
       case Send(_) => true
       case Expire(_, _) => true
  }

  function Next(n: Net, s: Step): Net {
    if !Enabled(n, s) then n
    else
      var v := n.nodes[s.node];
      match s
      case Originate(i, m) => n.(nodes := n.nodes[i := v.(msgs := v.msgs + [m])], origins := n.origins[Id(m) := m])
      case Send(i) => n.(nodes := n.nodes[i := v.(msgs := [])], air := n.air + Sent(i, v.msgs))
      case Hear(i, sender, m, sym, selectors, now) =>
        n.(nodes := n.nodes[i := Receive(Env(i, sym, selectors), v, m, sender, now)])
      case Expire(i, id) => n.(nodes := n.nodes[i := v.(dups := v.dups - {id})])
  }

  function Sent(v: Addr, ms: seq<Msg>): set<(Addr, Msg)> {
    set m | m in ms :: (v, m)
  }

  function After(n: Net, steps: seq<Step>): Net {
    if steps == [] then n else Next(After(n, steps[..|steps| - 1]), steps[|steps| - 1])
  }

  predicate Initial(n: Net) {
    && n.air == {} && n.origins == map[]
    && forall i :: i in n.nodes ==> n.nodes[i].msgs == []
  }

  /** A copy of an originated message that has come as far as its TTL has sunk. */
  predicate Budgeted(n: Net, m: Msg) {
    && Id(m) in n.origins
    && m.ttl + m.hops == n.origins[Id(m)].ttl && 1 <= m.ttl && 0 <= m.hops
  }

  ghost predicate NodeBudgeted(n: Net, i: Addr) {
    i in n.nodes ==> forall m :: m in n.nodes[i].msgs ==> Budgeted(n, m)
  }

  ghost predicate AllBudgeted(n: Net) {
    && (forall i {:trigger NodeBudgeted(n, i)} :: NodeBudgeted(n, i))
    && forall c {:trigger c in n.air} :: c in n.air ==> Budgeted(n, c.1)
  }

  /** What a reception adds to the queue is the copy, one hop further. */
  lemma ReceptionQueues(e: Env, s: State, m: Msg, sender: Addr, now: real, x: Msg)
    requires x in Receive(e, s, m, sender, now).msgs
    ensures x in s.msgs || (x == Relayed(m) && m.ttl > 1)
  {
  }

  lemma StepBudgeted(n: Net, s: Step)
    requires AllBudgeted(n)
    ensures AllBudgeted(Next(n, s))
  {
    if Enabled(n, s) {
      var m, v := Next(n, s), n.nodes[s.node];
      assert NodeBudgeted(n, s.node);
      forall i ensures NodeBudgeted(m, i) {
        assert NodeBudgeted(n, i);
        if i == s.node {
          forall x | x in m.nodes[i].msgs ensures Budgeted(m, x) {
            if s.Hear? && x !in v.msgs {
              assert Budgeted(n, s.m) by { assert (s.sender, s.m) in n.air; }
              ReceptionQueues(Env(i, s.sym, s.selectors), v, s.m, s.sender, s.now, x);
            }
          }
        }
      }
      forall c | c in m.air ensures Budgeted(m, c.1) {
        if c !in n.air {
          assert c.1 in v.msgs;
        }
      }
    }
  }

  lemma {:induction false} RunBudgeted(n0: Net, steps: seq<Step>)
    requires Initial(n0)
    ensures AllBudgeted(After(n0, steps))
  {
    if steps != [] {
      RunBudgeted(n0, steps[..|steps| - 1]);
      StepBudgeted(After(n0, steps[..|steps| - 1]), steps[|steps| - 1]);
    }
  }

  /** Along any flood, in every run, TTL plus hop count of each copy on the air is
      the TTL the originator gave, the TTL is at least 1, and so the copy was
      relayed fewer times than that TTL. */
  lemma FloodBudget(n0: Net, steps: seq<Step>, n: Net, sender: Addr, m: Msg)
    requires Initial(n0) && n == After(n0, steps) && (sender, m) in n.air
    ensures Id(m) in n.origins
    ensures m.ttl + m.hops == n.origins[Id(m)].ttl && 1 <= m.ttl
    ensures 0 <= m.hops < n.origins[Id(m)].ttl
  {
    RunBudgeted(n0, steps);
    var c := (sender, m);
    assert c in n.air;
  }
}
