/** TC processing (section 9.5 of RFC 3626): the topology set, whose tuples of
    one originator always belong to one advertised sequence number. */
module OlsrTopology {
  import opened Common

  const MAX_SEQ_NUM := 65535

  type SeqNum = n: nat | n <= MAX_SEQ_NUM

  /** `seq_num_bigger_than` (section 19 of RFC 3626). */
  predicate Bigger(s1: SeqNum, s2: SeqNum) {
    || (s1 > s2 && s1 - s2 <= MAX_SEQ_NUM / 2)
    || (s2 > s1 && s2 - s1 > MAX_SEQ_NUM / 2)
  }

  /** Of two distinct numbers exactly one is bigger, and none is bigger than
      itself. */
  lemma OneWinner(s1: SeqNum, s2: SeqNum)
    ensures s1 != s2 <==> Bigger(s1, s2) || Bigger(s2, s1)
    ensures !(Bigger(s1, s2) && Bigger(s2, s1))
  {
  }

  /** How far `b` lies after `a` on the circle of sequence numbers. */
  function Dist(a: SeqNum, b: SeqNum): nat {
    (b + MAX_SEQ_NUM + 1 - a) % (MAX_SEQ_NUM + 1)
  }

  /** What the comparison means on the circle: `b` is less than half way after
      `a`, or opposite to it and the smaller number. */
  lemma BiggerIsAhead(a: SeqNum, b: SeqNum)
    ensures Bigger(b, a) <==> 0 < Dist(a, b) < 32768 || (Dist(a, b) == 32768 && b < a)
  {
  }

  /** When three numbers are ordered: two steps compose exactly if together they
      stay within half the circle, a tie going to the smaller number. */
  lemma BiggerComposes(a: SeqNum, b: SeqNum, c: SeqNum)
    requires Bigger(b, a) && Bigger(c, b)
    ensures Bigger(c, a) <==>
            Dist(a, b) + Dist(b, c) < 32768 || (Dist(a, b) + Dist(b, c) == 32768 && c < a)
  {
  }

  /** `OLSR_topology_tuple`. */
  datatype TopTuple = TopTuple(dest: Addr, last: Addr, seqNum: SeqNum, time: real)

  /** A TC message: originator, ANSN, advertised addresses, validity time. */
  datatype Tc = Tc(orig: Addr, ansn: SeqNum, dests: seq<Addr>, validity: real)

  /** Tuples of one originator share their number, and no link is twice. */
  ghost predicate Consistent(ts: seq<TopTuple>) {
    forall i, j :: 0 <= i < j < |ts| && ts[i].last == ts[j].last ==>
                     ts[i].seqNum == ts[j].seqNum && ts[i].dest != ts[j].dest
  }

  /** The destinations an originator is known to advertise. */
  ghost function DestsOf(ts: seq<TopTuple>, orig: Addr): set<Addr> {
    set t | t in ts && t.last == orig :: t.dest
  }

  predicate HasNewer(ts: seq<TopTuple>, m: Tc) {
    exists t :: t in ts && t.last == m.orig && Bigger(t.seqNum, m.ansn)
  }

  predicate Outdated(t: TopTuple, m: Tc) {
    t.last == m.orig && Bigger(m.ansn, t.seqNum)
  }

  function WithoutOlder(ts: seq<TopTuple>, m: Tc): seq<TopTuple> {
    if ts == [] then []
    else if Outdated(ts[0], m) then WithoutOlder(ts[1..], m)
    else [ts[0]] + WithoutOlder(ts[1..], m)
  }

  predicate IsLink(t: TopTuple, m: Tc, addr: Addr) {
    t.dest == addr && t.last == m.orig
  }

  /** One advertised address: refresh its tuple or record a new one. */
  function Record(ts: seq<TopTuple>, m: Tc, addr: Addr, time: real): seq<TopTuple> {
    if ts == [] then [TopTuple(addr, m.orig, m.ansn, time)]
    else if IsLink(ts[0], m, addr) then [ts[0].(time := time)] + ts[1..]
    else [ts[0]] + Record(ts[1..], m, addr, time)
  }

  function RecordAll(ts: seq<TopTuple>, m: Tc, upto: nat, time: real): seq<TopTuple>
    requires upto <= |m.dests|
  {
    if upto == 0 then ts
    else Record(RecordAll(ts, m, upto - 1, time), m, m.dests[upto - 1], time)
  }

  /** `process_tc`. */
  function Process(sym: set<Addr>, ts: seq<TopTuple>, m: Tc, sender: Addr, now: real): seq<TopTuple> {
    if sender !in sym || HasNewer(ts, m) then ts
    else RecordAll(WithoutOlder(ts, m), m, |m.dests|, now + m.validity)
  }

  lemma {:induction false} RecordAt(ts: seq<TopTuple>, m: Tc, addr: Addr, time: real, i: nat)
    requires i < |ts| && IsLink(ts[i], m, addr) && forall k :: 0 <= k < i ==> !IsLink(ts[k], m, addr)
    ensures Record(ts, m, addr, time) == ts[i := ts[i].(time := time)]
  {
    if i > 0 {
      RecordAt(ts[1..], m, addr, time, i - 1);
    }
  }

  lemma {:induction false} RecordNew(ts: seq<TopTuple>, m: Tc, addr: Addr, time: real)
    requires forall k :: 0 <= k < |ts| ==> !IsLink(ts[k], m, addr)
    ensures Record(ts, m, addr, time) == ts + [TopTuple(addr, m.orig, m.ansn, time)]
  {
    if ts != [] {
      RecordNew(ts[1..], m, addr, time);
    }
  }

  class TopologyAgent {
    var sym: set<Addr>
    var topology: seq<TopTuple>

    constructor (sym: set<Addr>)
      ensures this.sym == sym && topology == []
    {
      this.sym, topology := sym, [];
    }

    method EraseOlder(m: Tc)
      modifies this`topology
      ensures topology == WithoutOlder(old(topology), m)
    {
      var it := 0;
      while it != |topology|
        invariant 0 <= it <= |topology|
        invariant topology[..it] + WithoutOlder(topology[it..], m) == WithoutOlder(old(topology), m)
        decreases |topology| - it
      {
        ghost var tail := topology[it..];
        if Outdated(topology[it], m) {
          topology := Erase(topology, it);
          it := it - 1;
        }
        it := it + 1;
        assert topology[it..] == tail[1..];
      }
    }

    method Refresh(m: Tc, addr: Addr, time: real)
      modifies this`topology
      ensures topology == Record(old(topology), m, addr, time)
    {
      var it := 0;
      while it != |topology|
        invariant 0 <= it <= |topology|
        invariant topology == old(topology)
        invariant forall k :: 0 <= k < it ==> !IsLink(topology[k], m, addr)
      {
        if IsLink(topology[it], m, addr) {
          RecordAt(topology, m, addr, time, it);
          topology := topology[it := topology[it].(time := time)];
          return;
        }
        it := it + 1;
      }
      RecordNew(topology, m, addr, time);
      topology := topology + [TopTuple(addr, m.orig, m.ansn, time)];
    }

    method ProcessTc(m: Tc, sender: Addr, now: real)
      modifies this`topology
      ensures topology == Process(sym, old(topology), m, sender, now)
    {
      if sender !in sym {
        return;
      }
      if HasNewer(topology, m) {
        return;
      }
      EraseOlder(m);
      ghost var kept := topology;
      for i := 0 to |m.dests|
        invariant topology == RecordAll(kept, m, i, now + m.validity)
      {
        Refresh(m, m.dests[i], now + m.validity);
      }
    }
  }

  // ---------------------------------------------------------------------
  // What an accepted TC does to the set
  // ---------------------------------------------------------------------

  lemma {:induction false} WithoutOlderMembers(ts: seq<TopTuple>, m: Tc, t: TopTuple)
    ensures t in WithoutOlder(ts, m) <==> t in ts && !Outdated(t, m)
  {
    if ts != [] {
      WithoutOlderMembers(ts[1..], m, t);
    }
  }

  lemma {:induction false} WithoutOlderConsistent(ts: seq<TopTuple>, m: Tc)
    requires Consistent(ts)
    ensures Consistent(WithoutOlder(ts, m))
  {
    if ts != [] {
      WithoutOlderConsistent(ts[1..], m);
      forall t | t in WithoutOlder(ts[1..], m) && t.last == ts[0].last
        ensures t.seqNum == ts[0].seqNum && t.dest != ts[0].dest
      {
        WithoutOlderMembers(ts[1..], m, t);
      }
    }
  }

  /** All tuples of the originator carry the message's number. */
  ghost predicate Current(ts: seq<TopTuple>, m: Tc) {
    forall t :: t in ts && t.last == m.orig ==> t.seqNum == m.ansn
  }

  /** After the older tuples are gone, what is left of the originator is
      current: the comparison has one winner. */
  lemma KeptIsCurrent(ts: seq<TopTuple>, m: Tc)
    requires Acceptable(ts, m)
    ensures Current(WithoutOlder(ts, m), m)
  {
    forall t | t in WithoutOlder(ts, m) && t.last == m.orig ensures t.seqNum == m.ansn {
      WithoutOlderMembers(ts, m, t);
      OneWinner(t.seqNum, m.ansn);
    }
  }

  /** Recording an address adds exactly its link, at the new time, and leaves
      all other tuples alone. */
  lemma {:induction false} RecordMembers(ts: seq<TopTuple>, m: Tc, addr: Addr, time: real, t: TopTuple)
    requires Current(ts, m) && Consistent(ts)
    ensures t in Record(ts, m, addr, time) <==>
            if IsLink(t, m, addr) then t.seqNum == m.ansn && t.time == time else t in ts
  {
    if ts != [] {
      assert ts[0] in ts;
      if !IsLink(ts[0], m, addr) {
        RecordMembers(ts[1..], m, addr, time, t);
      }
    }
  }

  lemma {:induction false} RecordConsistent(ts: seq<TopTuple>, m: Tc, addr: Addr, time: real)
    requires Consistent(ts) && Current(ts, m)
    ensures Consistent(Record(ts, m, addr, time)) && Current(Record(ts, m, addr, time), m)
  {
    forall t | t in Record(ts, m, addr, time) && t.last == m.orig ensures t.seqNum == m.ansn {
      RecordMembers(ts, m, addr, time, t);
    }
    if ts != [] && !IsLink(ts[0], m, addr) {
      RecordConsistent(ts[1..], m, addr, time);
      forall t | t in Record(ts[1..], m, addr, time) && t.last == ts[0].last
        ensures t.seqNum == ts[0].seqNum && t.dest != ts[0].dest
      {
        RecordMembers(ts[1..], m, addr, time, t);
        assert ts[0] in ts;
      }
    }
  }

  lemma {:induction false} RecordAllConsistent(ts: seq<TopTuple>, m: Tc, upto: nat, time: real)
    requires Consistent(ts) && Current(ts, m) && upto <= |m.dests|
    ensures Consistent(RecordAll(ts, m, upto, time)) && Current(RecordAll(ts, m, upto, time), m)
  {
    if upto > 0 {
      RecordAllConsistent(ts, m, upto - 1, time);
      RecordConsistent(RecordAll(ts, m, upto - 1, time), m, m.dests[upto - 1], time);
    }
  }

  lemma {:induction false} RecordAllMembers(ts: seq<TopTuple>, m: Tc, upto: nat, time: real, t: TopTuple)
    requires Consistent(ts) && Current(ts, m) && upto <= |m.dests|
    ensures t in RecordAll(ts, m, upto, time) <==>
            if t.last == m.orig && t.dest in m.dests[..upto] then t.seqNum == m.ansn && t.time == time else t in ts
  {
    if upto > 0 {
      RecordAllConsistent(ts, m, upto - 1, time);
      RecordAllMembers(ts, m, upto - 1, time, t);
      RecordMembers(RecordAll(ts, m, upto - 1, time), m, m.dests[upto - 1], time, t);
      assert m.dests[..upto] == m.dests[..upto - 1] + [m.dests[upto - 1]];
    }
  }

  /** No tuple of the originator carries a bigger number than the message. */
  ghost predicate Acceptable(ts: seq<TopTuple>, m: Tc) {
    forall t :: t in ts && t.last == m.orig ==> !Bigger(t.seqNum, m.ansn)
  }

  /** A TC that does not come from a symmetric neighbour, or that an already known
      link of its originator is newer than, changes nothing. */
  lemma RejectedTc(sym: set<Addr>, ts: seq<TopTuple>, m: Tc, sender: Addr, now: real)
    requires sender !in sym || exists t :: t in ts && t.last == m.orig && Bigger(t.seqNum, m.ansn)
    ensures Process(sym, ts, m, sender, now) == ts
  {
  }

  /** Membership after an accepted TC: an advertised link has exactly the
      message's number and validity time; any other tuple stays unless it is
      an outdated one of the originator. */
  lemma ProcessedTuple(sym: set<Addr>, ts: seq<TopTuple>, m: Tc, sender: Addr, now: real, t: TopTuple)
    requires Consistent(ts) && sender in sym && Acceptable(ts, m)
    ensures t in Process(sym, ts, m, sender, now) <==>
            if t.last == m.orig && t.dest in m.dests then t.seqNum == m.ansn && t.time == now + m.validity
            else t in ts && !(t.last == m.orig && Bigger(m.ansn, t.seqNum))
  {
    WithoutOlderConsistent(ts, m);
    KeptIsCurrent(ts, m);
    RecordAllMembers(WithoutOlder(ts, m), m, |m.dests|, now + m.validity, t);
    assert m.dests[..|m.dests|] == m.dests;
    WithoutOlderMembers(ts, m, t);
  }

  /** An accepted TC leaves exactly the advertised set: on its own if it is
      strictly newer, in union with what the same number advertised before
      otherwise. */
  lemma AcceptedTc(sym: set<Addr>, ts: seq<TopTuple>, m: Tc, sender: Addr, now: real)
    requires Consistent(ts) && sender in sym && Acceptable(ts, m)
    ensures Consistent(Process(sym, ts, m, sender, now)) && Current(Process(sym, ts, m, sender, now), m)
    ensures DestsOf(Process(sym, ts, m, sender, now), m.orig)
            == Elements(m.dests) + if Current(ts, m) then DestsOf(ts, m.orig) else {}
  {
    AcceptedConsistent(sym, ts, m, sender, now);
    AcceptedDests(sym, ts, m, sender, now);
    KeptDests(ts, m);
  }

  lemma AcceptedConsistent(sym: set<Addr>, ts: seq<TopTuple>, m: Tc, sender: Addr, now: real)
    requires Consistent(ts) && sender in sym && Acceptable(ts, m)
    ensures Consistent(Process(sym, ts, m, sender, now)) && Current(Process(sym, ts, m, sender, now), m)
  {
    WithoutOlderConsistent(ts, m);
    KeptIsCurrent(ts, m);
    RecordAllConsistent(WithoutOlder(ts, m), m, |m.dests|, now + m.validity);
  }

  lemma AcceptedDests(sym: set<Addr>, ts: seq<TopTuple>, m: Tc, sender: Addr, now: real)
    requires Consistent(ts) && sender in sym && Acceptable(ts, m)
    ensures DestsOf(Process(sym, ts, m, sender, now), m.orig)
            == Elements(m.dests) + DestsOf(WithoutOlder(ts, m), m.orig)
  {
    var kept, r := WithoutOlder(ts, m), Process(sym, ts, m, sender, now);
    forall a ensures a in DestsOf(r, m.orig) <==> a in m.dests || a in DestsOf(kept, m.orig) {
      AcceptedDest(sym, ts, m, sender, now, a);
    }
  }

  /** One address, before and after. */
  lemma AcceptedDest(sym: set<Addr>, ts: seq<TopTuple>, m: Tc, sender: Addr, now: real, a: Addr)
    requires Consistent(ts) && sender in sym && Acceptable(ts, m)
    ensures a in DestsOf(Process(sym, ts, m, sender, now), m.orig)
            <==> a in m.dests || a in DestsOf(WithoutOlder(ts, m), m.orig)
  {
    var kept, r := WithoutOlder(ts, m), Process(sym, ts, m, sender, now);
    if a in m.dests {
      ProcessedTuple(sym, ts, m, sender, now, TopTuple(a, m.orig, m.ansn, now + m.validity));
    } else {
      forall u: TopTuple | u.last == m.orig && u.dest == a ensures u in r <==> u in kept {
        ProcessedTuple(sym, ts, m, sender, now, u);
        WithoutOlderMembers(ts, m, u);
      }
    }
  }

  /** The older tuples are all of the originator's, or none. */
  lemma KeptDests(ts: seq<TopTuple>, m: Tc)
    requires Consistent(ts) && Acceptable(ts, m)
    ensures DestsOf(WithoutOlder(ts, m), m.orig) == if Current(ts, m) then DestsOf(ts, m.orig) else {}
  {
    var kept := WithoutOlder(ts, m);
    forall t: TopTuple ensures t in kept <==> t in ts && !Outdated(t, m) {
      WithoutOlderMembers(ts, m, t);
    }
    if Current(ts, m) {
      OneWinner(m.ansn, m.ansn);
    } else {
      var t :| t in ts && t.last == m.orig && t.seqNum != m.ansn;
      OneWinner(t.seqNum, m.ansn);
      forall u | u in ts && u.last == m.orig ensures u.seqNum == t.seqNum {
        var i :| 0 <= i < |ts| && ts[i] == t;
        var j :| 0 <= j < |ts| && ts[j] == u;
      }
    }
  }

  // ---------------------------------------------------------------------
  // Every run
  // ---------------------------------------------------------------------

  /** A TC arrives (under the links of that moment), or a tuple times out. */
  datatype Event = Receive(sym: set<Addr>, m: Tc, sender: Addr, now: real) | Expire(t: TopTuple)

  function Without(ts: seq<TopTuple>, t: TopTuple): seq<TopTuple> {
    if ts == [] then []
    else if ts[0] == t then ts[1..]
    else [ts[0]] + Without(ts[1..], t)
  }

  function Run(events: seq<Event>): seq<TopTuple> {
    if events == [] then []
    else
      var before := Run(events[..|events| - 1]);
      match events[|events| - 1]
      case Receive(sym, m, sender, now) => Process(sym, before, m, sender, now)
      case Expire(t) => Without(before, t)
  }

  lemma {:induction false} WithoutConsistent(ts: seq<TopTuple>, t: TopTuple)
    requires Consistent(ts)
    ensures Consistent(Without(ts, t))
    ensures forall u :: u in Without(ts, t) ==> u in ts
  {
    if ts != [] && ts[0] != t {
      WithoutConsistent(ts[1..], t);
      forall u | u in Without(ts[1..], t) && u.last == ts[0].last
        ensures u.seqNum == ts[0].seqNum && u.dest != ts[0].dest
      {
        var i :| 0 <= i < |ts[1..]| && ts[1..][i] == u;
        assert ts[i + 1] == u;
      }
    }
  }

  /** An expiry removes exactly its tuple. */
  lemma {:induction false} ExpiredTuple(ts: seq<TopTuple>, t: TopTuple, u: TopTuple)
    requires Consistent(ts)
    ensures u in Without(ts, t) <==> u in ts && u != t
  {
    if ts != [] {
      if ts[0] == t {
        assert forall j :: 1 <= j < |ts| ==> ts[j].last == t.last ==> ts[j].dest != t.dest;
      } else {
        ExpiredTuple(ts[1..], t, u);
      }
    }
  }

  /** In every reachable state the tuples of an originator share one number
      and no link is recorded twice. */
  lemma {:induction false} RunConsistent(events: seq<Event>)
    ensures Consistent(Run(events))
  {
    if events != [] {
      var before, ev := events[..|events| - 1], events[|events| - 1];
      RunConsistent(before);
      match ev {
        case Receive(sym, m, sender, now) =>
          if sender in sym && Acceptable(Run(before), m) {
            AcceptedTc(sym, Run(before), m, sender, now);
          }
        case Expire(t) => WithoutConsistent(Run(before), t);
      }
    }
  }
}
