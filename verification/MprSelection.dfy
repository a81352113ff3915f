/** Multipoint-relay selection (section 8.3.1 of RFC 3626 and its QoS
    variants): the erasing loops over N2 and the greedy choice. */
module MprSelection {
  import opened Common
  import opened OlsrRepositories

  // ---------------------------------------------------------------------
  // Views of a 2-hop tuple vector
  // ---------------------------------------------------------------------

  /** The tuples that reach 2-hop address `a`, in order. */
  ghost function At(s: seq<Nb2HopTuple>, a: Addr): seq<Nb2HopTuple> {
    if s == [] then []
    else if s[0].twoHop == a then [s[0]] + At(s[1..], a)
    else At(s[1..], a)
  }

  /** The tuples that do not go through neighbour `nb`, in order. */
  function NotVia(s: seq<Nb2HopTuple>, nb: Addr): seq<Nb2HopTuple> {
    if s == [] then []
    else if s[0].nb != nb then [s[0]] + NotVia(s[1..], nb)
    else NotVia(s[1..], nb)
  }

  /** The tuples whose 2-hop address is outside `covered`, in order. */
  function Uncovered(s: seq<Nb2HopTuple>, covered: set<Addr>): seq<Nb2HopTuple> {
    if s == [] then []
    else if s[0].twoHop !in covered then [s[0]] + Uncovered(s[1..], covered)
    else Uncovered(s[1..], covered)
  }

  /** The 2-hop addresses that neighbour `nb` provides. */
  function AddrsVia(s: seq<Nb2HopTuple>, nb: Addr): set<Addr> {
    set t | t in s && t.nb == nb :: t.twoHop
  }

  /** The neighbours that provide 2-hop address `a`. */
  function Providers(s: seq<Nb2HopTuple>, a: Addr): set<Addr> {
    set t | t in s && t.twoHop == a :: t.nb
  }

  lemma {:induction false} AtMembers(s: seq<Nb2HopTuple>, a: Addr, t: Nb2HopTuple)
    ensures t in At(s, a) <==> t in s && t.twoHop == a
  {
    if s != [] {
      AtMembers(s[1..], a, t);
    }
  }

  lemma {:induction false} UncoveredMembers(s: seq<Nb2HopTuple>, c: set<Addr>, t: Nb2HopTuple)
    ensures t in Uncovered(s, c) <==> t in s && t.twoHop !in c
  {
    if s != [] {
      UncoveredMembers(s[1..], c, t);
    }
  }

  /** A filter that keeps the length keeps everything. */
  lemma {:induction false} UncoveredLength(s: seq<Nb2HopTuple>, c: set<Addr>)
    ensures |Uncovered(s, c)| <= |s|
    ensures |Uncovered(s, c)| == |s| ==> Uncovered(s, c) == s
  {
    if s != [] {
      UncoveredLength(s[1..], c);
    }
  }

  /** Uncovering keeps or drops the tuples of an address as a whole. */
  lemma {:induction false} AtUncovered(s: seq<Nb2HopTuple>, covered: set<Addr>, a: Addr)
    ensures At(Uncovered(s, covered), a) == if a in covered then [] else At(s, a)
  {
    if s != [] {
      AtUncovered(s[1..], covered, a);
      assert ([s[0]] + Uncovered(s[1..], covered))[1..] == Uncovered(s[1..], covered);
    }
  }

  lemma {:induction false} UncoveredConcat(s: seq<Nb2HopTuple>, t: seq<Nb2HopTuple>, covered: set<Addr>)
    ensures Uncovered(s + t, covered) == Uncovered(s, covered) + Uncovered(t, covered)
  {
    if s == [] {
      assert s + t == t;
    } else {
      assert (s + t)[1..] == s[1..] + t;
      UncoveredConcat(s[1..], t, covered);
    }
  }

  lemma {:induction false} UncoveredTwice(s: seq<Nb2HopTuple>, c: set<Addr>, d: set<Addr>)
    ensures Uncovered(Uncovered(s, c), d) == Uncovered(s, c + d)
  {
    if s != [] {
      UncoveredTwice(s[1..], c, d);
      assert ([s[0]] + Uncovered(s[1..], c))[1..] == Uncovered(s[1..], c);
    }
  }

  lemma {:induction false} UncoveredIdle(s: seq<Nb2HopTuple>, c: set<Addr>)
    requires forall t :: t in s ==> t.twoHop !in c
    ensures Uncovered(s, c) == s
  {
    if s != [] {
      UncoveredIdle(s[1..], c);
    }
  }

  /** Removing first by neighbour and then by the addresses it provided is
      removing by the addresses alone. */
  lemma {:induction false} UncoveredNotVia(s: seq<Nb2HopTuple>, nb: Addr, c: set<Addr>)
    requires forall t :: t in s && t.nb == nb ==> t.twoHop in c
    ensures Uncovered(NotVia(s, nb), c) == Uncovered(s, c)
  {
    if s != [] {
      UncoveredNotVia(s[1..], nb, c);
      assert ([s[0]] + NotVia(s[1..], nb))[1..] == NotVia(s[1..], nb);
    }
  }

  /** With a single remaining position for an address, `At` is that tuple. */
  lemma {:induction false} AtSingle(s: seq<Nb2HopTuple>, i: nat)
    requires i < |s|
    requires forall k :: 0 <= k < |s| && k != i ==> s[k].twoHop != s[i].twoHop
    ensures At(s, s[i].twoHop) == [s[i]]
  {
    if i > 0 {
      AtSingle(s[1..], i - 1);
    } else if At(s[1..], s[0].twoHop) != [] {
      AtMembers(s[1..], s[0].twoHop, At(s[1..], s[0].twoHop)[0]);
    }
  }

  lemma {:induction false} AtPair(s: seq<Nb2HopTuple>, i: nat, j: nat)
    requires i < j < |s| && s[i].twoHop == s[j].twoHop
    ensures |At(s, s[i].twoHop)| >= 2
  {
    if i > 0 {
      AtPair(s[1..], i - 1, j - 1);
    } else {
      AtMembers(s[1..], s[0].twoHop, s[j]);
    }
  }

  // ---------------------------------------------------------------------
  // The in-place erasures
  // ---------------------------------------------------------------------

  /** The two moves of an erasing scan: step over a tuple, or erase it and
      stay. */
  lemma ScanOver(s: seq<Nb2HopTuple>, i: nat)
    requires i < |s|
    ensures s[..i + 1] == s[..i] + [s[i]]
    ensures s[i..] == [s[i]] + s[i + 1..] && s[i..][1..] == s[i + 1..]
    ensures Erase(s, i)[..i] == s[..i] && Erase(s, i)[i..] == s[i + 1..]
  {
  }

  /** Erases, from position `from` on, the tuples through `nb`, collecting
      their 2-hop addresses; the cursor steps back after each erasure. */
  method EraseVia(n2: seq<Nb2HopTuple>, from: nat, nb: Addr)
    returns (rest: seq<Nb2HopTuple>, addrs: set<Addr>)
    requires from <= |n2|
    ensures rest == n2[..from] + NotVia(n2[from..], nb)
    ensures addrs == AddrsVia(n2[from..], nb)
  {
    rest, addrs := n2, {};
    var it2 := from;
    while it2 != |rest|
      invariant from <= it2 <= |rest|
      invariant rest[..it2] + NotVia(rest[it2..], nb) == n2[..from] + NotVia(n2[from..], nb)
      invariant addrs + AddrsVia(rest[it2..], nb) == AddrsVia(n2[from..], nb)
      decreases |rest| - it2
    {
      ViaStep(rest, it2, nb);
      if rest[it2].nb == nb {
        addrs := addrs + {rest[it2].twoHop};
        rest := Erase(rest, it2);
        it2 := it2 - 1;
      }
      it2 := it2 + 1;
    }
  }

  /** The two outcomes of looking at position `i`. */
  lemma ViaStep(s: seq<Nb2HopTuple>, i: nat, nb: Addr)
    requires i < |s|
    ensures Erase(s, i)[..i] == s[..i] && Erase(s, i)[i..] == s[i + 1..]
    ensures AddrsVia(s[i..], nb) == AddrsVia(s[i + 1..], nb) + if s[i].nb == nb then {s[i].twoHop} else {}
    ensures s[..i] + NotVia(s[i..], nb)
            == (if s[i].nb == nb then s[..i] else s[..i + 1]) + NotVia(s[i + 1..], nb)
  {
    ScanOver(s, i);
    Reassociate(s[..i], s[i], NotVia(s[i + 1..], nb));
  }

  lemma Reassociate(a: seq<Nb2HopTuple>, t: Nb2HopTuple, b: seq<Nb2HopTuple>)
    ensures a + ([t] + b) == a + [t] + b
  {
  }

  /** Erases the tuples whose 2-hop address is in `addrs`. */
  method EraseAddrs(n2: seq<Nb2HopTuple>, addrs: set<Addr>) returns (rest: seq<Nb2HopTuple>, erased: bool)
    ensures rest == Uncovered(n2, addrs)
    ensures erased <==> |rest| < |n2|
  {
    rest, erased := n2, false;
    var it := 0;
    while it != |rest|
      invariant it <= |rest| <= |n2|
      invariant rest[..it] + Uncovered(rest[it..], addrs) == Uncovered(n2, addrs)
      invariant erased <==> |rest| < |n2|
      decreases |rest| - it
    {
      ScanOver(rest, it);
      Reassociate(rest[..it], rest[it], Uncovered(rest[it + 1..], addrs));
      if rest[it].twoHop in addrs {
        rest, erased := Erase(rest, it), true;
        it := it - 1;
      }
      it := it + 1;
    }
  }

  /** The backup-link erasure of step 3: for each deleted address, all its
      tuples go; `reset` tells that the outer cursor was moved to the front. */
  method EraseBackups(n2: seq<Nb2HopTuple>, deleted: set<Addr>) returns (rest: seq<Nb2HopTuple>, reset: bool)
    ensures rest == Uncovered(n2, deleted)
    ensures reset <==> |rest| < |n2|
  {
    rest, reset := n2, false;
    var todo := deleted;
    ghost var done: set<Addr> := {};
    assert Uncovered(n2, done) == n2 by { UncoveredIdle(n2, done); }
    while todo != {}
      invariant todo + done == deleted
      invariant rest == Uncovered(n2, done)
      invariant |rest| <= |n2|
      invariant reset <==> |rest| < |n2|
      decreases todo
    {
      var a := AnyOf(todo);
      UncoveredTwice(n2, done, {a});
      UncoveredLength(rest, {a});
      var erased;
      rest, erased := EraseAddrs(rest, {a});
      reset := reset || erased;
      todo, done := todo - {a}, done + {a};
    }
  }

  // ---------------------------------------------------------------------
  // Step 3: the sole providers
  // ---------------------------------------------------------------------

  /** The neighbours that are the only way to some 2-hop address. */
  ghost function SoleProviders(n2: seq<Nb2HopTuple>): set<Addr> {
    set t | t in n2 && |At(n2, t.twoHop)| == 1 :: t.nb
  }

  /** Where no pair occurs twice, a sole provider is a neighbour that alone
      reaches some address. */
  lemma SoleMeansAlone(n2: seq<Nb2HopTuple>, nb: Addr)
    requires Distinct(n2)
    ensures nb in SoleProviders(n2) <==> exists a :: Providers(n2, a) == {nb}
  {
    if nb in SoleProviders(n2) {
      var t :| t in n2 && |At(n2, t.twoHop)| == 1 && t.nb == nb;
      AtMembers(n2, t.twoHop, t);
      forall u | u in n2 && u.twoHop == t.twoHop ensures u.nb == nb {
        AtMembers(n2, t.twoHop, u);
      }
      assert Providers(n2, t.twoHop) == {nb};
    }
    if a :| Providers(n2, a) == {nb} {
      assert nb in Providers(n2, a);
      var t :| t in n2 && t.twoHop == a && t.nb == nb;
      forall u | u in n2 && u.twoHop == a ensures u == t {
        assert u.nb in Providers(n2, a);
      }
      AtMostOne(n2, t);
      AtMembers(n2, a, t);
    }
  }

  lemma {:induction false} AtMostOne(s: seq<Nb2HopTuple>, t: Nb2HopTuple)
    requires Distinct(s)
    requires forall u :: u in s && u.twoHop == t.twoHop ==> u == t
    ensures |At(s, t.twoHop)| <= 1
  {
    if s != [] {
      AtMostOne(s[1..], t);
      if s[0] == t && At(s[1..], t.twoHop) != [] {
        var u := At(s[1..], t.twoHop)[0];
        AtMembers(s[1..], t.twoHop, u);
      }
    }
  }

  /** Each 2-hop address kept all of its tuples, or lost all of them and is
      adjacent to a chosen relay. */
  ghost predicate AllOrCovered(n2: seq<Nb2HopTuple>, rest: seq<Nb2HopTuple>, chosen: set<Addr>) {
    forall a :: KeptOrCovered(n2, rest, chosen, a)
  }

  ghost predicate KeptOrCovered(n2: seq<Nb2HopTuple>, rest: seq<Nb2HopTuple>, chosen: set<Addr>, a: Addr) {
    At(rest, a) == At(n2, a) || (At(rest, a) == [] && Providers(n2, a) * chosen != {})
  }

  lemma KeptMember(n2: seq<Nb2HopTuple>, rest: seq<Nb2HopTuple>, chosen: set<Addr>, t: Nb2HopTuple)
    requires AllOrCovered(n2, rest, chosen) && t in rest
    ensures t in n2 && At(rest, t.twoHop) == At(n2, t.twoHop)
  {
    assert KeptOrCovered(n2, rest, chosen, t.twoHop);
    AtMembers(rest, t.twoHop, t);
    AtMembers(n2, t.twoHop, t);
  }

  /** What one sole-provider round leaves of N2, as a single filter. */
  lemma SoleErasure(s: seq<Nb2HopTuple>, i: nat, d: set<Addr>)
    requires i < |s|
    requires forall k :: 0 <= k < |s| && k != i ==> s[k].twoHop != s[i].twoHop
    requires d == AddrsVia(s[i + 1..], s[i].nb)
    ensures Uncovered(s[..i] + NotVia(s[i + 1..], s[i].nb), d) == Uncovered(s, d + {s[i].twoHop})
  {
    var a, before, after := s[i].twoHop, s[..i], s[i + 1..];
    calc {
      Uncovered(before + NotVia(after, s[i].nb), d);
      { UncoveredConcat(before, NotVia(after, s[i].nb), d); UncoveredNotVia(after, s[i].nb, d); }
      Uncovered(before, d) + Uncovered(after, d);
      { UncoveredAbsent(before, a, d); UncoveredAbsent(after, a, d); }
      Uncovered(before, d + {a}) + Uncovered(after, d + {a});
      Uncovered(before, d + {a}) + Uncovered([s[i]] + after, d + {a});
      { UncoveredConcat(before, [s[i]] + after, d + {a}); }
      Uncovered(before + ([s[i]] + after), d + {a});
      { assert s == before + ([s[i]] + after); }
      Uncovered(s, d + {a});
    }
  }

  /** Covering one more address changes nothing where it does not occur. */
  lemma UncoveredAbsent(s: seq<Nb2HopTuple>, a: Addr, c: set<Addr>)
    requires forall t :: t in s ==> t.twoHop != a
    ensures Uncovered(s, c + {a}) == Uncovered(s, c)
  {
    UncoveredIdle(s, {a});
    UncoveredTwice(s, {a}, c);
    assert {a} + c == c + {a};
  }

  /** A sole-provider round keeps the all-or-covered invariant. */
  lemma SoleRound(n2: seq<Nb2HopTuple>, s: seq<Nb2HopTuple>, i: nat, d: set<Addr>, sole: set<Addr>)
    requires AllOrCovered(n2, s, sole) && i < |s|
    requires forall k :: 0 <= k < |s| && k != i ==> s[k].twoHop != s[i].twoHop
    requires d == AddrsVia(s[i + 1..], s[i].nb)
    ensures s[i].nb in SoleProviders(n2)
    ensures AllOrCovered(n2, Uncovered(s, d + {s[i].twoHop}), sole + {s[i].nb})
  {
    var rest, chosen := Uncovered(s, d + {s[i].twoHop}), sole + {s[i].nb};
    AtSingle(s, i);
    KeptMember(n2, s, sole, s[i]);
    forall b ensures KeptOrCovered(n2, rest, chosen, b) {
      assert KeptOrCovered(n2, s, sole, b);
      AtUncovered(s, d + {s[i].twoHop}, b);
      if b in d {
        var t :| t in s[i + 1..] && t.nb == s[i].nb && t.twoHop == b;
        KeptMember(n2, s, sole, t);
        assert s[i].nb in Providers(n2, b) * chosen;
      } else if b == s[i].twoHop {
        assert s[i].nb in Providers(n2, b) * chosen;
      } else if At(s, b) != At(n2, b) {
        var m :| m in Providers(n2, b) * sole;
        assert m in Providers(n2, b) * chosen;
      }
    }
  }

  /** When every kept address has a twin, all sole providers were chosen. */
  lemma SoleComplete(n2: seq<Nb2HopTuple>, rest: seq<Nb2HopTuple>, sole: set<Addr>)
    requires AllOrCovered(n2, rest, sole)
    requires forall t :: t in rest ==> |At(n2, t.twoHop)| >= 2
    ensures SoleProviders(n2) <= sole
  {
    forall t | t in n2 && |At(n2, t.twoHop)| == 1 ensures t.nb in sole {
      assert KeptOrCovered(n2, rest, sole, t.twoHop);
      AtMembers(n2, t.twoHop, t);
      AtMembers(rest, t.twoHop, t);
      var m :| m in Providers(n2, t.twoHop) * sole;
      var u :| u in n2 && u.twoHop == t.twoHop && u.nb == m;
      AtMembers(n2, t.twoHop, u);
    }
  }

  /** The scan for another tuple of the same 2-hop address further on. */
  method HasLaterTwin(s: seq<Nb2HopTuple>, i: nat) returns (found: bool)
    requires i < |s|
    ensures found <==> exists j :: i < j < |s| && s[j].twoHop == s[i].twoHop
  {
    found := false;
    var it2 := i + 1;
    while it2 != |s|
      invariant i < it2 <= |s|
      invariant forall j :: i < j < it2 ==> s[j].twoHop != s[i].twoHop
    {
      if s[it2].twoHop == s[i].twoHop {
        return true;
      }
      it2 := it2 + 1;
    }
  }

  /** The erasures of one sole-provider round at cursor `i`, and the cursor
      position from which the scan goes on. */
  method EraseRound(s: seq<Nb2HopTuple>, i: nat) returns (rest: seq<Nb2HopTuple>, next: nat)
    requires i < |s|
    requires forall k :: 0 <= k < |s| && k != i ==> s[k].twoHop != s[i].twoHop
    ensures rest == Uncovered(s, AddrsVia(s[i + 1..], s[i].nb) + {s[i].twoHop})
    ensures |rest| < |s|
    ensures next == 0 || (next == i <= |rest| && rest[..i] == s[..i])
  {
    var t := s[i];
    var erased, deleted := EraseVia(s, i + 1, t.nb);
    erased := Erase(erased, i);
    var it: int := i - 1;
    assert erased == s[..i] + NotVia(s[i + 1..], t.nb);
    assert |erased| < |s| by { NotViaLength(s[i + 1..], t.nb); }
    SoleErasure(s, i, deleted);
    UncoveredLength(erased, deleted);
    var reset;
    rest, reset := EraseBackups(erased, deleted);
    if reset {
      it := -1;
    }
    next := it + 1;
  }

  lemma {:induction false} NotViaLength(s: seq<Nb2HopTuple>, nb: Addr)
    ensures |NotVia(s, nb)| <= |s|
  {
    if s != [] {
      NotViaLength(s[1..], nb);
    }
  }

  /** A tuple with a twin further on has an address of several tuples. */
  lemma TwinRound(n2: seq<Nb2HopTuple>, s: seq<Nb2HopTuple>, i: nat, sole: set<Addr>)
    requires AllOrCovered(n2, s, sole) && i < |s|
    requires exists j :: i < j < |s| && s[j].twoHop == s[i].twoHop
    ensures |At(n2, s[i].twoHop)| >= 2
  {
    var j :| i < j < |s| && s[j].twoHop == s[i].twoHop;
    AtPair(s, i, j);
    KeptMember(n2, s, sole, s[i]);
  }

  /** The tuples before cursor `i` are known to have twins. */
  ghost predicate Scanned(n2: seq<Nb2HopTuple>, s: seq<Nb2HopTuple>, i: nat, found: set<Addr>) {
    && i <= |s|
    && (forall k :: 0 <= k < i ==> s[k].twoHop in found)
    && (forall a :: a in found ==> |At(n2, a)| >= 2)
  }

  lemma ScannedPrefix(n2: seq<Nb2HopTuple>, s: seq<Nb2HopTuple>, i: nat, found: set<Addr>,
                      rest: seq<Nb2HopTuple>, next: nat)
    requires Scanned(n2, s, i, found)
    requires next == 0 || (next == i <= |rest| && rest[..i] == s[..i])
    ensures Scanned(n2, rest, next, found)
  {
    forall k | 0 <= k < next ensures rest[k].twoHop in found {
      assert rest[k] == rest[..i][k] == s[..i][k] == s[k];
    }
  }

  /** Step 3, with its in-place erasures and cursor restarts: it adds exactly
      the sole providers. */
  method CoverSoleProviders(nbs: seq<NbTuple>, n2: seq<Nb2HopTuple>, mpr0: set<Addr>)
    returns (rest: seq<Nb2HopTuple>, mpr: set<Addr>)
    requires forall t :: t in n2 ==> HasNb(nbs, t.nb)
    ensures mpr == mpr0 + SoleProviders(n2)
    ensures AllOrCovered(n2, rest, SoleProviders(n2))
    ensures forall t :: t in rest ==> |At(n2, t.twoHop)| >= 2
  {
    rest, mpr := n2, mpr0;
    var foundset: set<Addr> := {};
    ghost var sole: set<Addr> := {};
    var it: nat := 0;
    while it != |rest|
      invariant Scanned(n2, rest, it, foundset)
      invariant mpr == mpr0 + sole && sole <= SoleProviders(n2)
      invariant AllOrCovered(n2, rest, sole)
      decreases |rest|, |rest| - it
    {
      var t := rest[it];
      KeptMember(n2, rest, sole, t);
      if t.twoHop in foundset || !HasNb(nbs, t.nb) {
        it := it + 1;
        continue;
      }
      var found := HasLaterTwin(rest, it);
      if found {
        TwinRound(n2, rest, it, sole);
        foundset := foundset + {t.twoHop};
        it := it + 1;
      } else {
        SoleRound(n2, rest, it, AddrsVia(rest[it + 1..], t.nb), sole);
        mpr := mpr + {t.nb};
        sole := sole + {t.nb};
        var erased, next := EraseRound(rest, it);
        ScannedPrefix(n2, rest, it, foundset, erased, next);
        rest, it := erased, next;
      }
    }
    SoleComplete(n2, rest, sole);
    assert sole == SoleProviders(n2);
  }
}
