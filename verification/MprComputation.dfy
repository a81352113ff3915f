/** The MPR computations of an OLSR node: step 4's bucketed greedy choice, in
    its four flavours, and the whole selections with what they guarantee. */
module MprComputation {
  import opened Common
  import opened OlsrRepositories
  import opened MprSelection

  /** Which selection algorithm is configured. `R1`, `R2` and `Qolsr` break
      ties on link measurements; those comparisons are free choices here. */
  datatype Rule = Default | R1 | R2 | Qolsr

  // ---------------------------------------------------------------------
  // Step 4.1: reachability and its buckets
  // ---------------------------------------------------------------------

  /** The number of N2 tuples through neighbour `nb`. */
  function Reach(n2: seq<Nb2HopTuple>, nb: Addr): nat {
    if n2 == [] then 0
    else (if n2[0].nb == nb then 1 else 0) + Reach(n2[1..], nb)
  }

  lemma {:induction false} ReachPositive(n2: seq<Nb2HopTuple>, nb: Addr)
    ensures Reach(n2, nb) > 0 <==> exists t :: t in n2 && t.nb == nb
  {
    if n2 != [] {
      ReachPositive(n2[1..], nb);
      if Reach(n2[1..], nb) > 0 {
        var t :| t in n2[1..] && t.nb == nb;
        assert t in n2;
      }
    }
  }

  method CountReach(n2: seq<Nb2HopTuple>, nb: Addr) returns (r: nat)
    ensures r == Reach(n2, nb)
  {
    r := 0;
    var it2 := 0;
    while it2 != |n2|
      invariant 0 <= it2 <= |n2|
      invariant r + Reach(n2[it2..], nb) == Reach(n2, nb)
    {
      if n2[it2].nb == nb {
        r := r + 1;
      }
      it2 := it2 + 1;
    }
  }

  /** D(y) as this code computes it: it looks up the neighbour itself rather
      than the 2-hop address. */
  function Degree(nbset: seq<NbTuple>, nb2hop: seq<Nb2HopTuple>, nb: Addr): nat {
    if nb2hop == [] then 0
    else (if nb2hop[0].nb == nb && !HasNb(nbset, nb2hop[0].nb) then 1 else 0)
         + Degree(nbset, nb2hop[1..], nb)
  }

  /** Hence the third criterion never decides between neighbours. */
  lemma {:induction false} DegreeVanishes(nbset: seq<NbTuple>, nb2hop: seq<Nb2HopTuple>, nb: Addr)
    ensures Degree(nbset, nb2hop, nb) == 0 <==> HasNb(nbset, nb) || Providers2(nb2hop, nb) == {}
  {
    if nb2hop != [] {
      DegreeVanishes(nbset, nb2hop[1..], nb);
      assert nb2hop[0] in nb2hop;
      if nb2hop[0].nb == nb {
        assert nb2hop[0] in Providers2(nb2hop, nb);
      } else {
        assert Providers2(nb2hop, nb) == Providers2(nb2hop[1..], nb);
      }
    }
  }

  /** The 2-hop tuples through `nb`. */
  function Providers2(nb2hop: seq<Nb2HopTuple>, nb: Addr): set<Nb2HopTuple> {
    set t | t in nb2hop && t.nb == nb
  }

  /** The positions below `upto` of the neighbours with reachability `r`. */
  function Bucket(nbs: seq<NbTuple>, n2: seq<Nb2HopTuple>, upto: nat, r: nat): seq<nat>
    requires upto <= |nbs|
  {
    if upto == 0 then []
    else if Reach(n2, nbs[upto - 1].mainAddr) == r then Bucket(nbs, n2, upto - 1, r) + [upto - 1]
    else Bucket(nbs, n2, upto - 1, r)
  }

  lemma {:induction false} BucketMembers(nbs: seq<NbTuple>, n2: seq<Nb2HopTuple>, upto: nat, r: nat)
    requires upto <= |nbs|
    ensures forall p :: 0 <= p < |Bucket(nbs, n2, upto, r)| ==>
              Bucket(nbs, n2, upto, r)[p] < upto && Reach(n2, nbs[Bucket(nbs, n2, upto, r)[p]].mainAddr) == r
    ensures forall p, q :: 0 <= p < q < |Bucket(nbs, n2, upto, r)| ==>
              Bucket(nbs, n2, upto, r)[p] < Bucket(nbs, n2, upto, r)[q]
    ensures forall k :: 0 <= k < upto && Reach(n2, nbs[k].mainAddr) == r ==> k in Bucket(nbs, n2, upto, r)
  {
    if upto > 0 {
      BucketMembers(nbs, n2, upto - 1, r);
    }
  }

  /** `reachability` files exactly the first `upto` neighbours. */
  ghost predicate Filed(nbs: seq<NbTuple>, n2: seq<Nb2HopTuple>, upto: nat, reachability: map<nat, seq<nat>>)
    requires upto <= |nbs|
  {
    forall r: nat :: FiledAt(nbs, n2, upto, reachability, r)
  }

  ghost predicate FiledAt(nbs: seq<NbTuple>, n2: seq<Nb2HopTuple>, upto: nat, reachability: map<nat, seq<nat>>, r: nat)
    requires upto <= |nbs|
  {
    if r in reachability then reachability[r] == Bucket(nbs, n2, upto, r)
    else Bucket(nbs, n2, upto, r) == []
  }

  /** `reachability[r].push_back(nb)`. */
  lemma FileNext(nbs: seq<NbTuple>, n2: seq<Nb2HopTuple>, it: nat, before: map<nat, seq<nat>>)
    requires it < |nbs| && Filed(nbs, n2, it, before)
    ensures var r := Reach(n2, nbs[it].mainAddr);
            Filed(nbs, n2, it + 1, before[r := (if r in before then before[r] else []) + [it]])
  {
    var r := Reach(n2, nbs[it].mainAddr);
    var after := before[r := (if r in before then before[r] else []) + [it]];
    var next := it + 1;
    forall q: nat ensures FiledAt(nbs, n2, next, after, q) {
      assert FiledAt(nbs, n2, it, before, q);
    }
  }

  /** `rs` and `reachability`: the occurring counts and, per count, the
      neighbours in order. */
  method Buckets(nbs: seq<NbTuple>, n2: seq<Nb2HopTuple>) returns (rs: set<nat>, reachability: map<nat, seq<nat>>)
    ensures reachability.Keys == rs
    ensures Filed(nbs, n2, |nbs|, reachability)
    ensures forall k :: 0 <= k < |nbs| ==> Reach(n2, nbs[k].mainAddr) in rs
  {
    rs, reachability := {}, map[];
    var it := 0;
    while it != |nbs|
      invariant 0 <= it <= |nbs|
      invariant reachability.Keys == rs
      invariant Filed(nbs, n2, it, reachability)
      invariant forall k :: 0 <= k < it ==> Reach(n2, nbs[k].mainAddr) in rs
    {
      var r := CountReach(n2, nbs[it].mainAddr);
      FileNext(nbs, n2, it, reachability);
      rs := rs + {r};
      reachability := reachability[r := (if r in reachability then reachability[r] else []) + [it]];
      it := it + 1;
    }
  }

  /** The next element of an ascending iteration over a set of counts. */
  method Least(s: set<nat>) returns (least: nat)
    requires s != {}
    ensures least in s && forall x :: x in s ==> least <= x
  {
    least := AnyOf(s);
    var todo := s - {least};
    while todo != {}
      invariant least in s && todo <= s
      invariant forall x :: x in s && x !in todo ==> least <= x
      decreases todo
    {
      var x := AnyOf(todo);
      if x < least {
        least := x;
      }
      todo := todo - {x};
    }
  }

  // ---------------------------------------------------------------------
  // Step 4.2: the choice
  // ---------------------------------------------------------------------

  /** What a rule compares before its free tie-break. */
  datatype Key = Key(willingness: int, reach: nat, degree: nat)

  /** Strictly greater in lexicographic order. */
  predicate Above(a: Key, b: Key) {
    || a.willingness > b.willingness
    || (a.willingness == b.willingness && a.reach > b.reach)
    || (a.willingness == b.willingness && a.reach == b.reach && a.degree > b.degree)
  }

  /** The repositories a choice consults. */
  datatype Context = Context(rule: Rule, nbset: seq<NbTuple>, nb2hop: seq<Nb2HopTuple>, nbs: seq<NbTuple>)

  function KeyOf(c: Context, n2: seq<Nb2HopTuple>, k: nat): Key
    requires k < |c.nbs|
  {
    var n := c.nbs[k];
    match c.rule
    case Default => Key(n.willingness, Reach(n2, n.mainAddr), Degree(c.nbset, c.nb2hop, n.mainAddr))
    case R1 => Key(n.willingness, Reach(n2, n.mainAddr), 0)
    case _ => Key(0, 0, 0)
  }

  predicate Reaches(c: Context, n2: seq<Nb2HopTuple>, k: nat) {
    k < |c.nbs| && Reach(n2, c.nbs[k].mainAddr) > 0
  }

  /** `k` is a choice the rule allows: it reaches something, nothing that
      reaches something is above it, the default rule takes the earliest of
      the greatest, and QOLSR serves the first tuple of N2. */
  ghost predicate Admits(c: Context, n2: seq<Nb2HopTuple>, k: nat) {
    && Reaches(c, n2, k)
    && (forall j: nat :: Reaches(c, n2, j) ==> !Above(KeyOf(c, n2, j), KeyOf(c, n2, k)))
    && (c.rule.Default? ==> forall j: nat :: Reaches(c, n2, j) && KeyOf(c, n2, j) == KeyOf(c, n2, k) ==> k <= j)
    && (c.rule.Qolsr? ==> n2 != [] && c.nbs[k].mainAddr in Providers(n2, n2[0].twoHop))
  }

  /** The positions, from one on, of the 2-hop tuples through a neighbour. */
  function Offers(n2: seq<Nb2HopTuple>, nb: Addr, from: nat): set<nat> {
    set i: nat | from <= i < |n2| && n2[i].nb == nb
  }

  lemma {:induction false} ReachCounts(n2: seq<Nb2HopTuple>, nb: Addr, from: nat)
    requires from <= |n2|
    ensures Reach(n2[from..], nb) == |Offers(n2, nb, from)|
    decreases |n2| - from
  {
    if from == |n2| {
      assert Offers(n2, nb, from) == {};
    } else {
      ReachCounts(n2, nb, from + 1);
      assert n2[from..][1..] == n2[from + 1..];
      assert Offers(n2, nb, from) == Offers(n2, nb, from + 1) + if n2[from].nb == nb then {from} else {};
    }
  }

  /** Neighbour `j` offers some 2-hop address of N2. */
  ghost predicate Useful(nbs: seq<NbTuple>, n2: seq<Nb2HopTuple>, j: nat) {
    j < |nbs| && exists t :: t in n2 && t.nb == nbs[j].mainAddr
  }

  /** The choice of the default and R1 rules: among the neighbours that offer
      something, one of the greatest willingness, and of those one that offers the
      most. The degree never decides, so the default rule takes the earliest. */
  lemma ChoiceIsGreatest(c: Context, n2: seq<Nb2HopTuple>, k: nat, j: nat)
    requires c.rule == Default || c.rule == R1
    requires Admits(c, n2, k) && Useful(c.nbs, n2, j) && forall n :: n in c.nbs ==> n in c.nbset
    ensures Useful(c.nbs, n2, k)
    ensures var a, b := c.nbs[k], c.nbs[j];
            || a.willingness > b.willingness
            || (a.willingness == b.willingness && |Offers(n2, a.mainAddr, 0)| > |Offers(n2, b.mainAddr, 0)|)
            || (a.willingness == b.willingness && |Offers(n2, a.mainAddr, 0)| == |Offers(n2, b.mainAddr, 0)|
                && (c.rule == Default ==> k <= j))
  {
    ReachPositive(n2, c.nbs[k].mainAddr);
    ReachPositive(n2, c.nbs[j].mainAddr);
    ReachCounts(n2, c.nbs[k].mainAddr, 0);
    ReachCounts(n2, c.nbs[j].mainAddr, 0);
    assert n2[0..] == n2;
    assert c.nbs[k] in c.nbs && c.nbs[j] in c.nbs;
    DegreeVanishes(c.nbset, c.nb2hop, c.nbs[k].mainAddr);
    DegreeVanishes(c.nbset, c.nb2hop, c.nbs[j].mainAddr);
    assert Reaches(c, n2, j);
  }

  /** `max` is the best of the positions in `seen`. */
  ghost predicate BestOf(c: Context, n2: seq<Nb2HopTuple>, seen: set<nat>, max: Option<nat>) {
    && (forall j :: j in seen ==> Reaches(c, n2, j))
    && (max.None? ==> seen == {})
    && (max.Some? ==>
          && max.value in seen
          && (forall j :: j in seen ==> !Above(KeyOf(c, n2, j), KeyOf(c, n2, max.value)))
          && (c.rule.Default? ==>
                forall j :: j in seen && KeyOf(c, n2, j) == KeyOf(c, n2, max.value) ==> max.value <= j))
  }

  /** One candidate against the maximum so far, branch by branch. */
  method Consider(c: Context, n2: seq<Nb2HopTuple>, ghost seen: set<nat>, max: Option<nat>, maxR: nat, k: nat, r: nat)
    returns (max': Option<nat>, maxR': nat)
    requires BestOf(c, n2, seen, max)
    requires Reaches(c, n2, k) && r == Reach(n2, c.nbs[k].mainAddr)
    requires max.Some? ==> maxR == Reach(n2, c.nbs[max.value].mainAddr)
    requires max.Some? && (c.rule.Default? || c.rule.R1?) ==> maxR <= r
    requires c.rule.Default? ==> forall j :: j in seen && Reach(n2, c.nbs[j].mainAddr) == r ==> j < k
    ensures BestOf(c, n2, seen + {k}, max')
    ensures max'.Some? && maxR' == Reach(n2, c.nbs[max'.value].mainAddr)
    ensures c.rule.Default? || c.rule.R1? ==> maxR' <= r
  {
    max', maxR' := max, maxR;
    var n := c.nbs[k];
    if max.None? {
      max', maxR' := Some(k), r;
    } else {
      var m := c.nbs[max.value];
      if c.rule.Default? || c.rule.R1? {
        if n.willingness > m.willingness {
          max', maxR' := Some(k), r;
        } else if n.willingness == m.willingness {
          if r > maxR {
            max', maxR' := Some(k), r;
          } else if r == maxR {
            if c.rule.R1? {
              if * {
                max', maxR' := Some(k), r;
              }
            } else if Degree(c.nbset, c.nb2hop, n.mainAddr) > Degree(c.nbset, c.nb2hop, m.mainAddr) {
              max', maxR' := Some(k), r;
            }
          }
        }
      } else if * {
        max', maxR' := Some(k), r;
      }
    }
  }

  /** Every position that reaches something is in `seen`, with a count of at
      most `hi`, or has a count still to come. */
  ghost predicate Split(c: Context, n2: seq<Nb2HopTuple>, seen: set<nat>, hi: nat, todo: set<nat>) {
    && (forall j: nat :: j in seen ==> j < |c.nbs| && Reach(n2, c.nbs[j].mainAddr) <= hi)
    && (forall r :: r in todo ==> hi < r || r == 0)
    && (forall j: nat :: Reaches(c, n2, j) ==> j in seen || Reach(n2, c.nbs[j].mainAddr) in todo)
  }

  /** No neighbour has address `nb`. */
  ghost predicate Unknown(c: Context, nb: Addr) {
    forall k :: 0 <= k < |c.nbs| ==> c.nbs[k].mainAddr != nb
  }

  /** One bucket, in order. */
  method ScanBucket(c: Context, n2: seq<Nb2HopTuple>, bucket: seq<nat>, r: nat,
                    ghost seen: set<nat>, max: Option<nat>, maxR: nat)
    returns (max': Option<nat>, maxR': nat)
    requires !c.rule.Qolsr?
    requires r > 0 && bucket == Bucket(c.nbs, n2, |c.nbs|, r)
    requires BestOf(c, n2, seen, max)
    requires max.Some? ==> maxR == Reach(n2, c.nbs[max.value].mainAddr)
    requires forall j :: j in seen ==> Reach(n2, c.nbs[j].mainAddr) < r
    ensures BestOf(c, n2, seen + Elements(bucket), max')
    ensures max'.Some? ==> maxR' == Reach(n2, c.nbs[max'.value].mainAddr)
  {
    max', maxR' := max, maxR;
    BucketMembers(c.nbs, n2, |c.nbs|, r);
    ghost var now := seen;
    var it2 := 0;
    while it2 != |bucket|
      invariant 0 <= it2 <= |bucket|
      invariant now == seen + Elements(bucket[..it2])
      invariant BestOf(c, n2, now, max')
      invariant max'.Some? ==> maxR' == Reach(n2, c.nbs[max'.value].mainAddr) <= r
    {
      assert bucket[..it2 + 1] == bucket[..it2] + [bucket[it2]];
      max', maxR' := Consider(c, n2, now, max', maxR', bucket[it2], r);
      now := now + {bucket[it2]};
      it2 := it2 + 1;
    }
    assert bucket[..it2] == bucket;
  }

  /** Filing the neighbours of count `r` as seen. */
  lemma SplitNext(c: Context, n2: seq<Nb2HopTuple>, seen: set<nat>, hi: nat, todo: set<nat>, r: nat)
    requires Split(c, n2, seen, hi, todo)
    requires r in todo && forall x :: x in todo ==> r <= x
    ensures r == 0 ==> Split(c, n2, seen, hi, todo - {r})
    ensures r > 0 ==> Split(c, n2, seen + Elements(Bucket(c.nbs, n2, |c.nbs|, r)), r, todo - {r})
  {
    BucketMembers(c.nbs, n2, |c.nbs|, r);
  }

  /** The scan over the set of counts, in ascending order. */
  method Choose(c: Context, n2: seq<Nb2HopTuple>) returns (max: Option<nat>)
    requires !c.rule.Qolsr?
    ensures max.None? ==> forall j: nat :: !Reaches(c, n2, j)
    ensures max.Some? ==> Admits(c, n2, max.value)
  {
    var rs, reachability := Buckets(c.nbs, n2);
    var maxR := 0;
    max := None;
    var todo := rs;
    ghost var seen: set<nat> := {};
    ghost var hi := 0;
    while todo != {}
      invariant todo <= rs
      invariant BestOf(c, n2, seen, max)
      invariant max.Some? ==> maxR == Reach(n2, c.nbs[max.value].mainAddr)
      invariant Split(c, n2, seen, hi, todo)
      decreases todo
    {
      var r := Least(todo);
      SplitNext(c, n2, seen, hi, todo, r);
      todo := todo - {r};
      if r > 0 {
        assert FiledAt(c.nbs, n2, |c.nbs|, reachability, r);
        max, maxR := ScanBucket(c, n2, reachability[r], r, seen, max, maxR);
        seen, hi := seen + Elements(reachability[r]), r;
      }
    }
  }

  /** QOLSR's scan: for every tuple that reaches the first 2-hop address, the
      counts in ascending order, keeping the neighbour of that tuple. */
  method ChooseQolsr(c: Context, n2: seq<Nb2HopTuple>) returns (max: Option<nat>)
    requires c.rule.Qolsr? && n2 != []
    ensures max.None? ==> Unknown(c, n2[0].nb)
    ensures max.Some? ==> Admits(c, n2, max.value)
  {
    var rs, reachability := Buckets(c.nbs, n2);
    var z := n2[0];
    max := None;
    var it := 0;
    while it != |n2|
      invariant 0 <= it <= |n2|
      invariant max.Some? ==> Admits(c, n2, max.value)
      invariant max.None? && it > 0 ==> Unknown(c, z.nb)
    {
      if n2[it].twoHop == z.twoHop {
        var todo := rs;
        ReachPositive(n2, n2[it].nb);
        while todo != {}
          invariant todo <= rs
          invariant max.Some? ==> Admits(c, n2, max.value)
          invariant max.None? && it > 0 ==> Unknown(c, z.nb)
          invariant max.None? ==> Unknown(c, n2[it].nb) || Reach(n2, n2[it].nb) in todo
          decreases todo
        {
          var r := Least(todo);
          todo := todo - {r};
          BucketMembers(c.nbs, n2, |c.nbs|, r);
          if r > 0 {
            assert FiledAt(c.nbs, n2, |c.nbs|, reachability, r);
            max := ScanForProvider(c, n2, n2[it], r, reachability[r], max);
          }
        }
      }
      it := it + 1;
    }
  }

  /** One bucket of QOLSR's scan. */
  method ScanForProvider(c: Context, n2: seq<Nb2HopTuple>, t: Nb2HopTuple, r: nat, bucket: seq<nat>, max: Option<nat>)
    returns (max': Option<nat>)
    requires c.rule.Qolsr? && n2 != [] && t in n2 && t.twoHop == n2[0].twoHop
    requires r > 0 && bucket == Bucket(c.nbs, n2, |c.nbs|, r)
    requires max.Some? ==> Admits(c, n2, max.value)
    ensures max'.Some? ==> Admits(c, n2, max'.value)
    ensures max'.None? ==> max.None? && (Reach(n2, t.nb) == r ==> Unknown(c, t.nb))
  {
    max' := max;
    BucketMembers(c.nbs, n2, |c.nbs|, r);
    var it3 := 0;
    while it3 != |bucket|
      invariant 0 <= it3 <= |bucket|
      invariant max'.Some? ==> Admits(c, n2, max'.value)
      invariant max'.None? ==> max.None? && forall p :: 0 <= p < it3 ==> c.nbs[bucket[p]].mainAddr != t.nb
    {
      if t.nb == c.nbs[bucket[it3]].mainAddr {
        assert t.nb in Providers(n2, n2[0].twoHop);
        if max'.None? {
          max' := Some(bucket[it3]);
        } else if * {
          max' := Some(bucket[it3]);
        }
      }
      it3 := it3 + 1;
    }
  }

  // ---------------------------------------------------------------------
  // Step 4: the while loop
  // ---------------------------------------------------------------------

  /** What N2 keeps once `nb` is a relay. */
  function Remaining(n2: seq<Nb2HopTuple>, nb: Addr): seq<Nb2HopTuple> {
    Uncovered(n2, AddrsVia(n2, nb))
  }

  /** A run of admissible choices that leads from `n2` to `rest`. */
  ghost predicate GreedyRun(c: Context, n2: seq<Nb2HopTuple>, picks: seq<nat>, rest: seq<Nb2HopTuple>)
    decreases |picks|
  {
    if picks == [] then rest == n2
    else
      && Admits(c, n2, picks[0])
      && GreedyRun(c, Remaining(n2, c.nbs[picks[0]].mainAddr), picks[1..], rest)
  }

  /** The addresses of the chosen neighbours. */
  function Chosen(nbs: seq<NbTuple>, picks: seq<nat>): set<Addr> {
    set k | k in picks && k < |nbs| :: nbs[k].mainAddr
  }

  lemma {:induction false} GreedyAppend(c: Context, n2: seq<Nb2HopTuple>, picks: seq<nat>, rest: seq<Nb2HopTuple>,
                                        k: nat)
    requires GreedyRun(c, n2, picks, rest) && Admits(c, rest, k)
    ensures GreedyRun(c, n2, picks + [k], Remaining(rest, c.nbs[k].mainAddr))
    decreases |picks|
  {
    if picks == [] {
      assert ([] + [k])[1..] == [];
    } else {
      assert (picks + [k])[1..] == picks[1..] + [k];
      GreedyAppend(c, Remaining(n2, c.nbs[picks[0]].mainAddr), picks[1..], rest, k);
    }
  }

  /** Every choice strictly shrinks N2. */
  lemma PickShrinks(c: Context, n2: seq<Nb2HopTuple>, k: nat)
    requires Reaches(c, n2, k)
    ensures |Remaining(n2, c.nbs[k].mainAddr)| < |n2|
  {
    var nb := c.nbs[k].mainAddr;
    ReachPositive(n2, nb);
    var t :| t in n2 && t.nb == nb;
    UncoveredLength(n2, AddrsVia(n2, nb));
    UncoveredMembers(n2, AddrsVia(n2, nb), t);
  }

  /** All neighbours named by the tuples are candidates. */
  ghost predicate Known(nbs: seq<NbTuple>, n2: seq<Nb2HopTuple>) {
    forall t :: t in n2 ==> HasNb(nbs, t.nb)
  }

  /** While N2 is not empty there is a choice. */
  lemma ChoiceExists(c: Context, n2: seq<Nb2HopTuple>)
    requires n2 != [] && Known(c.nbs, n2)
    ensures exists k: nat :: Reaches(c, n2, k)
    ensures !Unknown(c, n2[0].nb)
  {
    assert n2[0] in n2;
    var n :| n in c.nbs && n.mainAddr == n2[0].nb;
    var k: nat :| k < |c.nbs| && c.nbs[k] == n;
    ReachPositive(n2, n2[0].nb);
    assert Reaches(c, n2, k);
  }

  lemma KnownRemaining(nbs: seq<NbTuple>, n2: seq<Nb2HopTuple>, nb: Addr)
    requires Known(nbs, n2)
    ensures Known(nbs, Remaining(n2, nb))
  {
    forall t | t in Remaining(n2, nb) ensures HasNb(nbs, t.nb) {
      UncoveredMembers(n2, AddrsVia(n2, nb), t);
    }
  }

  /** One choice and its two erasing loops. */
  method TakeRelay(n2: seq<Nb2HopTuple>, nb: Addr) returns (rest: seq<Nb2HopTuple>)
    ensures rest == Remaining(n2, nb)
  {
    var kept, addrs := EraseVia(n2, 0, nb);
    var erased;
    assert n2[0..] == n2;
    assert kept == NotVia(n2, nb);
    UncoveredNotVia(n2, nb, addrs);
    rest, erased := EraseAddrs(kept, addrs);
  }

  /** Step 4: choose and erase until N2 is empty. */
  method CoverGreedily(c: Context, n2: seq<Nb2HopTuple>, mpr0: set<Addr>)
    returns (mpr: set<Addr>)
    requires Known(c.nbs, n2)
    ensures exists picks :: Emptied(c, n2, mpr0, mpr, picks)
  {
    mpr := mpr0;
    ghost var picks: seq<nat> := [];
    var rest := n2;
    while rest != []
      invariant Known(c.nbs, rest)
      invariant GreedyRun(c, n2, picks, rest)
      invariant mpr == mpr0 + Chosen(c.nbs, picks)
      decreases |rest|
    {
      ChoiceExists(c, rest);
      var max;
      if c.rule.Qolsr? {
        max := ChooseQolsr(c, rest);
      } else {
        max := Choose(c, rest);
      }
      if max.Some? {
        var nb := c.nbs[max.value].mainAddr;
        mpr := mpr + {nb};
        PickShrinks(c, rest, max.value);
        KnownRemaining(c.nbs, rest, nb);
        GreedyAppend(c, n2, picks, rest, max.value);
        picks := picks + [max.value];
        rest := TakeRelay(rest, nb);
      }
    }
    assert Emptied(c, n2, mpr0, mpr, picks);
  }

  /** These picks empty N2, and `mpr` holds what it held plus their addresses. */
  ghost predicate Emptied(c: Context, n2: seq<Nb2HopTuple>, mpr0: set<Addr>, mpr: set<Addr>, picks: seq<nat>) {
    GreedyRun(c, n2, picks, []) && mpr == mpr0 + Chosen(c.nbs, picks)
  }

  /** A run that empties N2 reached every 2-hop address through a choice. */
  lemma {:induction false} GreedyCovers(c: Context, n2: seq<Nb2HopTuple>, picks: seq<nat>, t: Nb2HopTuple)
    requires GreedyRun(c, n2, picks, []) && t in n2
    ensures Providers(n2, t.twoHop) * Chosen(c.nbs, picks) != {}
    decreases |picks|
  {
    var nb := c.nbs[picks[0]].mainAddr;
    if t.twoHop in AddrsVia(n2, nb) {
      assert nb in Providers(n2, t.twoHop) * Chosen(c.nbs, picks);
    } else {
      var rest := Remaining(n2, nb);
      UncoveredMembers(n2, AddrsVia(n2, nb), t);
      GreedyCovers(c, rest, picks[1..], t);
      var m :| m in Providers(rest, t.twoHop) * Chosen(c.nbs, picks[1..]);
      var u :| u in rest && u.twoHop == t.twoHop && u.nb == m;
      UncoveredMembers(n2, AddrsVia(n2, nb), u);
      assert m in Providers(n2, t.twoHop) * Chosen(c.nbs, picks);
    }
  }

  /** Only neighbours that provide something are chosen. */
  lemma {:induction false} GreedyChoosesProviders(c: Context, n2: seq<Nb2HopTuple>, picks: seq<nat>,
                                                  rest: seq<Nb2HopTuple>, m: Addr)
    requires GreedyRun(c, n2, picks, rest) && m in Chosen(c.nbs, picks)
    ensures exists t :: t in n2 && t.nb == m
    decreases |picks|
  {
    var nb := c.nbs[picks[0]].mainAddr;
    ReachPositive(n2, nb);
    if m != nb {
      assert picks == [picks[0]] + picks[1..];
      GreedyChoosesProviders(c, Remaining(n2, nb), picks[1..], rest, m);
      var t :| t in Remaining(n2, nb) && t.nb == m;
      UncoveredMembers(n2, AddrsVia(n2, nb), t);
    }
  }

  // ---------------------------------------------------------------------
  // The whole selections
  // ---------------------------------------------------------------------

  predicate IsCandidate(rule: Rule, n: NbTuple) {
    n.status == Sym && (rule.R2? || rule.Qolsr? ==> n.willingness != WILL_NEVER)
  }

  /** N: the symmetric neighbours (R2 and QOLSR leave out WILL_NEVER). */
  function Candidates(rule: Rule, nbset: seq<NbTuple>): seq<NbTuple> {
    if nbset == [] then []
    else if IsCandidate(rule, nbset[0]) then [nbset[0]] + Candidates(rule, nbset[1..])
    else Candidates(rule, nbset[1..])
  }

  lemma {:induction false} CandidateMembers(rule: Rule, nbset: seq<NbTuple>, n: NbTuple)
    ensures n in Candidates(rule, nbset) <==> n in nbset && IsCandidate(rule, n)
  {
    if nbset != [] {
      CandidateMembers(rule, nbset[1..], n);
    }
  }

  lemma CandidatesKnown(rule: Rule, nbset: seq<NbTuple>, nb2hop: seq<Nb2HopTuple>)
    ensures Known(Candidates(rule, nbset), StrictTwoHop(nbset, nb2hop))
  {
    forall t | t in StrictTwoHop(nbset, nb2hop) ensures HasNb(Candidates(rule, nbset), t.nb) {
      var n :| n in nbset && n.mainAddr == t.nb && n.status == Sym;
      CandidateMembers(rule, nbset, n);
    }
  }

  /** Step 1's relays: the candidates of willingness WILL_ALWAYS. */
  function AlwaysRelays(nbs: seq<NbTuple>): set<Addr> {
    set n | n in nbs && n.willingness == WILL_ALWAYS :: n.mainAddr
  }

  /** The MPR set a rule may compute, given the outcome `rest` of step 3 and
      the run `picks` of step 4. R2 and QOLSR skip steps 1 and 3. */
  ghost predicate SelectedBy(rule: Rule, nbset: seq<NbTuple>, nb2hop: seq<Nb2HopTuple>, mpr: set<Addr>,
                             rest: seq<Nb2HopTuple>, picks: seq<nat>)
  {
    var n2 := StrictTwoHop(nbset, nb2hop);
    var c := Context(rule, nbset, nb2hop, Candidates(rule, nbset));
    && GreedyRun(c, rest, picks, [])
    && if rule.R2? || rule.Qolsr? then
         rest == n2 && mpr == Chosen(c.nbs, picks)
       else
         && AllOrCovered(n2, rest, SoleProviders(n2))
         && (forall t :: t in rest ==> |At(n2, t.twoHop)| >= 2)
         && mpr == AlwaysRelays(c.nbs) + SoleProviders(n2) + Chosen(c.nbs, picks)
  }

  ghost predicate Selected(rule: Rule, nbset: seq<NbTuple>, nb2hop: seq<Nb2HopTuple>, mpr: set<Addr>) {
    exists rest, picks :: SelectedBy(rule, nbset, nb2hop, mpr, rest, picks)
  }

  /** Every 2-hop address of `n2` is adjacent to a chosen relay. */
  ghost predicate Covers(n2: seq<Nb2HopTuple>, mpr: set<Addr>) {
    forall t :: t in n2 ==> Providers(n2, t.twoHop) * mpr != {}
  }

  /** Coverage, for every rule and every way its free choices fall. */
  lemma SelectionCovers(rule: Rule, nbset: seq<NbTuple>, nb2hop: seq<Nb2HopTuple>, mpr: set<Addr>)
    requires Selected(rule, nbset, nb2hop, mpr)
    ensures Covers(StrictTwoHop(nbset, nb2hop), mpr)
  {
    var n2 := StrictTwoHop(nbset, nb2hop);
    var c := Context(rule, nbset, nb2hop, Candidates(rule, nbset));
    var rest, picks :| SelectedBy(rule, nbset, nb2hop, mpr, rest, picks);
    forall t | t in n2 ensures Providers(n2, t.twoHop) * mpr != {} {
      if rule.R2? || rule.Qolsr? {
        GreedyCovers(c, n2, picks, t);
      } else {
        CoveredOrKept(c, n2, rest, picks, t);
      }
    }
  }

  lemma CoveredOrKept(c: Context, n2: seq<Nb2HopTuple>, rest: seq<Nb2HopTuple>, picks: seq<nat>, t: Nb2HopTuple)
    requires AllOrCovered(n2, rest, SoleProviders(n2)) && GreedyRun(c, rest, picks, []) && t in n2
    ensures Providers(n2, t.twoHop) * (SoleProviders(n2) + Chosen(c.nbs, picks)) != {}
  {
    var sole := SoleProviders(n2);
    assert KeptOrCovered(n2, rest, sole, t.twoHop);
    AtMembers(n2, t.twoHop, t);
    AtMembers(rest, t.twoHop, t);
    if t in rest {
      GreedyCovers(c, rest, picks, t);
      var m :| m in Providers(rest, t.twoHop) * Chosen(c.nbs, picks);
      var u :| u in rest && u.twoHop == t.twoHop && u.nb == m;
      KeptMember(n2, rest, sole, u);
      assert m in Providers(n2, t.twoHop) * (sole + Chosen(c.nbs, picks));
    } else {
      var m :| m in Providers(n2, t.twoHop) * sole;
      assert m in Providers(n2, t.twoHop) * (sole + Chosen(c.nbs, picks));
    }
  }

  /** A relay is a symmetric neighbour, and one of willingness WILL_ALWAYS or
      one through which an admitted 2-hop address is reached; in particular,
      with unique main addresses, never one of willingness WILL_NEVER. */
  lemma SelectionSound(rule: Rule, nbset: seq<NbTuple>, nb2hop: seq<Nb2HopTuple>, mpr: set<Addr>, m: Addr)
    requires Selected(rule, nbset, nb2hop, mpr) && m in mpr
    ensures HasSymNb(nbset, m)
    ensures m in AlwaysRelays(nbset) || exists t :: t in StrictTwoHop(nbset, nb2hop) && t.nb == m
    ensures UniqueNbs(nbset) ==> !HasNeverNb(nbset, m)
  {
    var n2 := StrictTwoHop(nbset, nb2hop);
    var c := Context(rule, nbset, nb2hop, Candidates(rule, nbset));
    var rest, picks :| SelectedBy(rule, nbset, nb2hop, mpr, rest, picks);
    if !rule.R2? && !rule.Qolsr? && m in AlwaysRelays(c.nbs) {
      var n :| n in c.nbs && n.willingness == WILL_ALWAYS && n.mainAddr == m;
      CandidateMembers(rule, nbset, n);
      assert m in AlwaysRelays(nbset);
    } else if m in Chosen(c.nbs, picks) {
      GreedyChoosesProviders(c, rest, picks, [], m);
      var t: Nb2HopTuple :| t in rest && t.nb == m;
      if !rule.R2? && !rule.Qolsr? {
        KeptMember(n2, rest, SoleProviders(n2), t);
      }
    }
  }

  /** The default and R1 rules take every symmetric neighbour of willingness
      WILL_ALWAYS; the other two do not start from them. */
  lemma AlwaysWillingSelected(rule: Rule, nbset: seq<NbTuple>, nb2hop: seq<Nb2HopTuple>, mpr: set<Addr>, n: NbTuple)
    requires Selected(rule, nbset, nb2hop, mpr) && (rule == Default || rule == R1)
    requires n in nbset && n.status == Sym && n.willingness == 7
    ensures n.mainAddr in mpr
  {
    CandidateMembers(rule, nbset, n);
  }

  /** Every rule takes the only provider of an admitted 2-hop address. */
  lemma SoleProviderSelected(rule: Rule, nbset: seq<NbTuple>, nb2hop: seq<Nb2HopTuple>, mpr: set<Addr>,
                             t: Nb2HopTuple)
    requires Selected(rule, nbset, nb2hop, mpr) && t in StrictTwoHop(nbset, nb2hop)
    requires forall u :: u in nb2hop && u.twoHop == t.twoHop && Admitted(nbset, u) ==> u.nb == t.nb
    ensures t.nb in mpr
  {
    SelectionCovers(rule, nbset, nb2hop, mpr);
    var n2 := StrictTwoHop(nbset, nb2hop);
    var m :| m in Providers(n2, t.twoHop) * mpr;
  }

  class MprAgent {
    var nbset: seq<NbTuple>
    var nb2hopset: seq<Nb2HopTuple>
    var mprset: set<Addr>

    constructor (nbset: seq<NbTuple>, nb2hopset: seq<Nb2HopTuple>)
      ensures this.nbset == nbset && this.nb2hopset == nb2hopset && mprset == {}
    {
      this.nbset, this.nb2hopset, mprset := nbset, nb2hopset, {};
    }

    /** The loops that fill N and N2. */
    method Gather(rule: Rule) returns (nbs: seq<NbTuple>, n2: seq<Nb2HopTuple>)
      ensures nbs == Candidates(rule, nbset)
      ensures n2 == StrictTwoHop(nbset, nb2hopset)
    {
      nbs, n2 := [], [];
      var it := 0;
      while it != |nbset|
        invariant 0 <= it <= |nbset|
        invariant nbs + Candidates(rule, nbset[it..]) == Candidates(rule, nbset)
      {
        if IsCandidate(rule, nbset[it]) {
          nbs := nbs + [nbset[it]];
        }
        it := it + 1;
      }
      it := 0;
      while it != |nb2hopset|
        invariant 0 <= it <= |nb2hopset|
        invariant n2 == StrictTwoHop(nbset, nb2hopset[..it])
      {
        assert nb2hopset[..it + 1][..it] == nb2hopset[..it];
        if Admitted(nbset, nb2hopset[it]) {
          n2 := n2 + [nb2hopset[it]];
        }
        it := it + 1;
      }
      assert nb2hopset[..it] == nb2hopset;
    }

    /** `olsr_mpr_computation` and `olsr_r1_mpr_computation`. */
    method OlsrMprComputation(rule: Rule)
      requires rule.Default? || rule.R1?
      modifies this`mprset
      ensures Selected(rule, nbset, nb2hopset, mprset)
    {
      mprset := {};
      var nbs, n2 := Gather(rule);
      CandidatesKnown(rule, nbset, nb2hopset);
      var it := 0;
      while it != |nbs|
        invariant 0 <= it <= |nbs|
        invariant mprset == AlwaysRelays(nbs[..it])
      {
        assert nbs[..it + 1] == nbs[..it] + [nbs[it]];
        if nbs[it].willingness == WILL_ALWAYS {
          mprset := mprset + {nbs[it].mainAddr};
        }
        it := it + 1;
      }
      assert nbs[..it] == nbs;
      var rest;
      rest, mprset := CoverSoleProviders(nbs, n2, mprset);
      assert Known(nbs, rest) by {
        forall t | t in rest ensures HasNb(nbs, t.nb) {
          KeptMember(n2, rest, SoleProviders(n2), t);
        }
      }
      ghost var mpr0 := mprset;
      mprset := CoverGreedily(Context(rule, nbset, nb2hopset, nbs), rest, mprset);
      ghost var picks :| Emptied(Context(rule, nbset, nb2hopset, nbs), rest, mpr0, mprset, picks);
      assert SelectedBy(rule, nbset, nb2hopset, mprset, rest, picks);
    }

    /** `olsr_r2_mpr_computation` and `qolsr_mpr_computation`. */
    method QosMprComputation(rule: Rule)
      requires rule.R2? || rule.Qolsr?
      modifies this`mprset
      ensures Selected(rule, nbset, nb2hopset, mprset)
    {
      mprset := {};
      var nbs, n2 := Gather(rule);
      CandidatesKnown(rule, nbset, nb2hopset);
      ghost var mpr0 := mprset;
      mprset := CoverGreedily(Context(rule, nbset, nb2hopset, nbs), n2, mprset);
      ghost var picks :| Emptied(Context(rule, nbset, nb2hopset, nbs), n2, mpr0, mprset, picks);
      assert SelectedBy(rule, nbset, nb2hopset, mprset, n2, picks);
    }
  }
}
