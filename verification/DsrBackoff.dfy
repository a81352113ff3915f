/** When the DSR agent may send a route request: exponential backoff per target,
    and a ring-zero request before each propagating one. */
module DsrBackoff {

  const RT_RQ_PERIOD := 0.5
  const RT_RQ_MAX_PERIOD := 10.0
  const ARP_TIMEOUT := 0.03
  const SALVAGE_MAX_REQUESTS := 1
  const SALVAGE_ALLOW_PROPAGATING := false

  /** The kind of the last request sent. */
  datatype Sent = Limit0 | Unlimit

  /** What the request table keeps of a target. */
  datatype Record = Record(outstanding: int, lastReq: real, lastType: Sent, lastArp: real)

  /** A request goes out to the neighbours only, or through the network. */
  datatype Decision = RingZero | Propagating | NotNow

  predicate InRange(r: Record) {
    0 <= r.outstanding <= 15
  }

  /** `0x1 << (2 * k)`. */
  function Shifted(k: int): int {
    if k <= 0 then 1 else 4 * Shifted(k - 1)
  }

  /** The wait after `k` outstanding requests. */
  function Wait(k: int): real {
    if Shifted(k) as real * RT_RQ_PERIOD > RT_RQ_MAX_PERIOD then RT_RQ_MAX_PERIOD
    else Shifted(k) as real * RT_RQ_PERIOD
  }

  predicate Due(r: Record, time: real) {
    Wait(r.outstanding) + r.lastReq <= time
  }

  /** The record after a successful test. */
  function Counted(r: Record, time: real): Record {
    r.(outstanding := if r.outstanding < 15 then r.outstanding + 1 else r.outstanding, lastReq := time)
  }

  /** `getRouteForPacket`, as far as it decides on requests; `own` tells that the
      packet is the node's own and not one it salvages. */
  function Decide(r: Record, time: real, own: bool, ringZeroSearch: bool): (Decision, Record) {
    if Due(r, time) then
      if !own && Counted(r, time).outstanding > SALVAGE_MAX_REQUESTS then (NotNow, Counted(r, time))
      else if ringZeroSearch then (RingZero, Counted(r, time).(lastType := Limit0, lastArp := time))
      else (Propagating, Counted(r, time).(lastType := Unlimit, lastArp := time))
    else if r.lastType.Limit0? && (SALVAGE_ALLOW_PROPAGATING || own) && time - r.lastArp > ARP_TIMEOUT then
      (Propagating, r.(lastType := Unlimit))
    else (NotNow, r)
  }

  /** The counters after an accepted reply. */
  function Reset(r: Record): Record {
    r.(outstanding := 0, lastReq := 0.0)
  }

  class Entry {
    var rtReqsOutstanding: int
    var lastRtReq: real
    var lastType: Sent
    var lastArp: real

    function TheRecord(): Record
      reads this
    {
      Record(rtReqsOutstanding, lastRtReq, lastType, lastArp)
    }

    method BackOffTest(time: real) returns (ok: bool)
      requires InRange(TheRecord())
      modifies this`rtReqsOutstanding, this`lastRtReq
      ensures InRange(TheRecord()) && ok == Due(old(TheRecord()), time)
      ensures TheRecord() == if ok then Counted(old(TheRecord()), time) else old(TheRecord())
    {
      ShiftFits(rtReqsOutstanding);
      var shifted := ShiftLeft(rtReqsOutstanding * 2);
      var next := shifted as real * RT_RQ_PERIOD;
      if next > RT_RQ_MAX_PERIOD {
        next := RT_RQ_MAX_PERIOD;
      }
      if next + lastRtReq > time {
        return false;
      }
      if rtReqsOutstanding < 15 {
        rtReqsOutstanding := rtReqsOutstanding + 1;
      }
      lastRtReq := time;
      return true;
    }

    method GetRouteForPacket(time: real, own: bool, ringZeroSearch: bool) returns (d: Decision)
      requires InRange(TheRecord())
      modifies this
      ensures InRange(TheRecord())
      ensures (d, TheRecord()) == Decide(old(TheRecord()), time, own, ringZeroSearch)
    {
      var ok := BackOffTest(time);
      if ok {
        if !own && rtReqsOutstanding > SALVAGE_MAX_REQUESTS {
          return NotNow;
        }
        if ringZeroSearch {
          lastType := Limit0;
          d := RingZero;
        } else {
          lastType := Unlimit;
          d := Propagating;
        }
        lastArp := time;
      } else if lastType == Limit0 && (SALVAGE_ALLOW_PROPAGATING || own) && time - lastArp > ARP_TIMEOUT {
        lastType := Unlimit;
        d := Propagating;
      } else {
        d := NotNow;
      }
    }

    /** The counter reset of `acceptRouteReply`. */
    method AcceptReply()
      modifies this`rtReqsOutstanding, this`lastRtReq
      ensures TheRecord() == Reset(old(TheRecord())) && InRange(TheRecord())
    {
      rtReqsOutstanding := 0;
      lastRtReq := 0.0;
    }
  }

  /** A shift of 1 within a signed 32-bit integer. */
  method ShiftLeft(bits: int) returns (r: int)
    requires 0 <= bits && bits % 2 == 0 && Shifted(bits / 2) < 0x8000_0000
    ensures r == Shifted(bits / 2)
  {
    r := 1;
    var b := 0;
    while b < bits
      invariant 0 <= b <= bits && b % 2 == 0 && r == Shifted(b / 2)
    {
      r := r * 4;
      b := b + 2;
    }
  }

  /** The shift never leaves a signed 32-bit integer. */
  lemma ShiftFits(k: int)
    requires 0 <= k <= 15
    ensures 1 <= Shifted(k) < 0x8000_0000
  {
    ShiftGrows(k, 15);
    assert Shifted(15) == 0x4000_0000;
  }

  lemma {:induction false} ShiftGrows(j: int, k: int)
    requires j <= k
    ensures 1 <= Shifted(j) <= Shifted(k)
    decreases k - j, if j > 0 then j else 0
  {
    if j < k {
      ShiftGrows(j, k - 1);
    } else if j > 0 {
      ShiftGrows(j - 1, j - 1);
    }
  }

  // ---------------------------------------------------------------------
  // The rate of successful tests
  // ---------------------------------------------------------------------

  /** The record after tests at the given times. */
  function Tested(r: Record, times: seq<real>): Record {
    if times == [] then r
    else
      var before, time := Tested(r, times[..|times| - 1]), times[|times| - 1];
      if Due(before, time) then Counted(before, time) else before
  }

  /** The times of those that succeed. */
  function Successes(r: Record, times: seq<real>): seq<real> {
    if times == [] then []
    else
      var before, time := Successes(r, times[..|times| - 1]), times[|times| - 1];
      if Due(Tested(r, times[..|times| - 1]), time) then before + [time] else before
  }

  /** The least wait after `k >= 1` outstanding requests. */
  function Least(k: int): real {
    if k <= 1 then 2.0 else if k == 2 then 8.0 else 10.0
  }

  lemma WaitLeast(k: int)
    requires 1 <= k
    ensures Wait(k) >= Least(k)
  {
    if k >= 3 {
      ShiftGrows(3, k);
      assert Shifted(3) == 64;
    } else {
      assert Shifted(1) == 4 && Shifted(2) == 16;
    }
  }

  /** The least time that `m` waits take when the first follows `k` outstanding
      requests. */
  function LeastSpan(k: int, m: nat): real {
    if m == 0 then 0.0
    else if k <= 1 then (if m == 1 then 2.0 else 10.0 * (m - 1) as real)
    else if k == 2 then 10.0 * m as real - 2.0
    else 10.0 * m as real
  }

  lemma SpanGrows(k: int, m: nat)
    requires k >= 1
    ensures LeastSpan(k, m + 1) <= LeastSpan(k, m) + Least(k + m)
  {
  }

  /** How far apart the successes of a run are: `i` and `j` of them are at least
      the waits in between apart. */
  ghost predicate Spaced(r: Record, times: seq<real>) {
    var s, e := Successes(r, times), Tested(r, times);
    && (s != [] ==> e.lastReq == s[|s| - 1])
    && (e.outstanding == 15 || e.outstanding == r.outstanding + |s|)
    && forall i, j {:trigger s[i], s[j]} :: 0 <= i < j < |s| ==> s[j] - s[i] >= LeastSpan(1 + i, j - i)
  }

  lemma {:induction false} RunSpaced(r: Record, times: seq<real>)
    requires InRange(r)
    ensures Spaced(r, times) && InRange(Tested(r, times))
    ensures Tested(r, times).outstanding >= (if |Successes(r, times)| <= 15 then |Successes(r, times)| else 15)
  {
    if times != [] {
      var prefix, time := times[..|times| - 1], times[|times| - 1];
      RunSpaced(r, prefix);
      var s, e := Successes(r, prefix), Tested(r, prefix);
      if Due(e, time) && s != [] {
        StepSpaced(s, e.outstanding, time);
      }
    }
  }

  lemma StepSpaced(s: seq<real>, k: int, time: real)
    requires s != [] && k >= 1 && (k >= |s| || k == 15) && time >= s[|s| - 1] + Wait(k)
    requires forall i, j {:trigger s[i], s[j]} :: 0 <= i < j < |s| ==> s[j] - s[i] >= LeastSpan(1 + i, j - i)
    ensures var u := s + [time];
            forall i, j {:trigger u[i], u[j]} :: 0 <= i < j < |u| ==> u[j] - u[i] >= LeastSpan(1 + i, j - i)
  {
    var u, last := s + [time], |s| - 1;
    WaitLeast(k);
    forall i | 0 <= i < |s| ensures time - u[i] >= LeastSpan(1 + i, |s| - i) {
      SpanGrows(1 + i, last - i);
      assert i < last ==> s[last] - s[i] >= LeastSpan(1 + i, last - i);
    }
  }

  /** With no reply in between, a window of `t` seconds holds at most
      `2 + t / 10` successful tests. */
  lemma RequestRate(r: Record, times: seq<real>, i: nat, j: nat, t: real)
    requires InRange(r)
    requires i <= j < |Successes(r, times)| && Successes(r, times)[j] - Successes(r, times)[i] <= t
    ensures (j - i + 1) as real <= 2.0 + t / 10.0
  {
    RunSpaced(r, times);
    var s := Successes(r, times);
    if i < j {
      assert s[j] - s[i] >= LeastSpan(1 + i, j - i);
    }
  }

  /** The waits in seconds: a half, two, eight, and ten from then on. */
  const WAITS: seq<real> := [0.5, 2.0, 8.0, 10.0]

  /** A test passes exactly if the wait is over, so at the latest ten seconds after
      the last one that passed, and then counts up to fifteen. */
  lemma TestPasses(r: Record, time: real)
    requires InRange(r)
    ensures Due(r, time) <==> time - r.lastReq >= WAITS[if r.outstanding < 3 then r.outstanding else 3]
    ensures var c := Counted(r, time);
            && c.outstanding == (if r.outstanding == 15 then 15 else r.outstanding + 1)
            && c == r.(outstanding := c.outstanding, lastReq := time)
  {
    if r.outstanding >= 3 {
      ShiftGrows(3, r.outstanding);
    }
    assert Shifted(1) == 4 && Shifted(2) == 16 && Shifted(3) == 64;
  }

  // ---------------------------------------------------------------------
  // Ring-zero and propagating requests
  // ---------------------------------------------------------------------

  /** How long the next request has to wait. */
  function WaitOf(r: Record): real
    requires InRange(r)
  {
    WAITS[if r.outstanding < 3 then r.outstanding else 3]
  }

  /** Which request a packet brings about. When the wait is over an own packet, and a
      salvaged one the first time, sends a ring-zero request, or a propagating one
      without ring-zero search. Before that an own packet sends a propagating request
      once a ring-zero one has been out for longer than the ARP timeout. */
  lemma RequestDecided(r: Record, time: real, own: bool, ringZeroSearch: bool)
    requires InRange(r)
    ensures var (d, s) := Decide(r, time, own, ringZeroSearch);
            var over := time - r.lastReq >= WaitOf(r);
            && InRange(s)
            && (d == RingZero <==> over && ringZeroSearch && (own || r.outstanding == 0))
            && (d == Propagating <==>
                if over then !ringZeroSearch && (own || r.outstanding == 0)
                else own && r.lastType == Limit0 && time - r.lastArp > 0.03)
            && (over ==> s.lastReq == time && s.outstanding == (if r.outstanding == 15 then 15 else r.outstanding + 1))
            && (!over ==> s.lastReq == r.lastReq && s.outstanding == r.outstanding && s.lastArp == r.lastArp)
            && (d == RingZero ==> s.lastType == Limit0 && s.lastArp == time)
            && (d == Propagating ==> s.lastType == Unlimit)
            && (d == NotNow ==> s.lastType == r.lastType && s.lastArp == r.lastArp)
  {
    TestPasses(r, time);
  }

  /** A search that stays unanswered widens: once the wait is over an own packet sends a
      ring-zero request, and the next own packet, after the ARP timeout and before the
      next wait is over, a propagating one. */
  lemma SearchWidens(r: Record, first: real, second: real)
    requires InRange(r) && first - r.lastReq >= WaitOf(r)
    requires 0.03 < second - first < WaitOf(Counted(r, first))
    ensures var (d, s) := Decide(r, first, true, true);
            d == RingZero && Decide(s, second, true, true).0 == Propagating
  {
    RequestDecided(r, first, true, true);
    RequestDecided(Decide(r, first, true, true).1, second, true, true);
  }

  /** An accepted reply clears the wait: the next request may go out at any time after
      the first half second of the simulation. */
  lemma ReplyResets(r: Record, time: real)
    ensures Due(Reset(r), time) <==> time >= 0.5
    ensures Reset(r).lastType == r.lastType && Reset(r).lastArp == r.lastArp
  {
    TestPasses(Reset(r), time);
  }

  /** Something that happens to a target's record. */
  datatype Event = Wanted(time: real, own: bool) | Replied

  function Happened(r: Record, events: seq<Event>): Record {
    if events == [] then r
    else
      var before, e := Happened(r, events[..|events| - 1]), events[|events| - 1];
      if e.Wanted? then Decide(before, e.time, e.own, true).1 else Reset(before)
  }

  /** The requests sent, with their times. */
  function Requests(r: Record, events: seq<Event>): seq<(Decision, real)> {
    if events == [] then []
    else
      var before, e := Requests(r, events[..|events| - 1]), events[|events| - 1];
      if e.Wanted? && !Decide(Happened(r, events[..|events| - 1]), e.time, e.own, true).0.NotNow? then
        before + [(Decide(Happened(r, events[..|events| - 1]), e.time, e.own, true).0, e.time)]
      else before
  }

  /** Each propagating request follows a ring-zero request that went unanswered
      for longer than the ARP timeout. */
  ghost predicate Paired(log: seq<(Decision, real)>) {
    forall i {:trigger log[i]} :: 0 <= i < |log| && log[i].0.Propagating? ==>
      i > 0 && log[i - 1].0.RingZero? && log[i].1 - log[i - 1].1 > ARP_TIMEOUT
  }

  function CountOf(log: seq<(Decision, real)>, d: Decision): nat {
    if log == [] then 0
    else CountOf(log[..|log| - 1], d) + if log[|log| - 1].0 == d then 1 else 0
  }

  /** The record's type is that of the last request. */
  lemma {:induction false} AlwaysPaired(r: Record, events: seq<Event>)
    requires r.lastType.Unlimit?
    ensures var log, e := Requests(r, events), Happened(r, events);
            && Paired(log)
            && (e.lastType.Limit0? ==> log != [] && log[|log| - 1] == (RingZero, e.lastArp))
  {
    if events != [] {
      AlwaysPaired(r, events[..|events| - 1]);
    }
  }

  lemma {:induction false} PairedCounts(log: seq<(Decision, real)>)
    requires Paired(log)
    ensures CountOf(log, Propagating) + (if log != [] && log[|log| - 1].0.RingZero? then 1 else 0)
            <= CountOf(log, RingZero)
  {
    if log != [] {
      var prefix := log[..|log| - 1];
      assert Paired(prefix) by {
        forall i | 0 <= i < |prefix| && prefix[i].0.Propagating?
          ensures i > 0 && prefix[i - 1].0.RingZero? && prefix[i].1 - prefix[i - 1].1 > ARP_TIMEOUT
        {
          assert log[i] == prefix[i];
        }
      }
      PairedCounts(prefix);
      assert log[|log| - 1].0.Propagating? ==> log[|log| - 2].0.RingZero?;
    }
  }

  /** With ring-zero search on, propagating requests never outnumber ring-zero
      ones, replies included. */
  lemma RingZeroFirst(r: Record, events: seq<Event>)
    requires r.lastType.Unlimit?
    ensures CountOf(Requests(r, events), Propagating) <= CountOf(Requests(r, events), RingZero)
  {
    AlwaysPaired(r, events);
    PairedCounts(Requests(r, events));
  }
}
