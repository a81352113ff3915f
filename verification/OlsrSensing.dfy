/** What link sensing, link timers and MAC failures do to the link set and the
    neighbour set, tuple by tuple, and what a HELLO tells its receiver. */
module OlsrSensing {
  import opened Common
  import opened OlsrRepositories
  import opened OlsrLinks

  // ---------------------------------------------------------------------
  // Membership after the updaters
  // ---------------------------------------------------------------------

  lemma {:induction false} SetLinkMembers(links: seq<Link>, l: Link, x: Link)
    requires Distinct(LinkAddrs(links)) && l.nbIface in LinkAddrs(links)
    ensures x in SetLink(links, l) <==> x == l || (x in links && x.nbIface != l.nbIface)
  {
    var rest := links[1..];
    LinksCons(links);
    if links[0].nbIface == l.nbIface {
      AddressOnce(rest, l.nbIface);
    } else {
      SetLinkMembers(rest, l, x);
    }
  }

  lemma LinksCons(links: seq<Link>)
    requires links != [] && Distinct(LinkAddrs(links))
    ensures Distinct(LinkAddrs(links[1..])) && links[0].nbIface !in LinkAddrs(links[1..])
    ensures LinkAddrs(links) == [links[0].nbIface] + LinkAddrs(links[1..])
  {
    var a, b := LinkAddrs(links), LinkAddrs(links[1..]);
    assert forall i :: 0 <= i < |b| ==> b[i] == a[i + 1];
    forall i | 0 <= i < |b| ensures b[i] != a[0] {
      assert b[i] == a[i + 1];
    }
  }

  lemma AddressOnce(links: seq<Link>, a: Addr)
    requires a !in LinkAddrs(links)
    ensures forall l :: l in links ==> l.nbIface != a
  {
    forall l | l in links ensures l.nbIface != a {
      var i :| 0 <= i < |links| && links[i] == l;
      assert LinkAddrs(links)[i] == l.nbIface;
    }
  }

  lemma {:induction false} DropLinkMembers(links: seq<Link>, a: Addr, x: Link)
    requires Distinct(LinkAddrs(links))
    ensures x in DropLink(links, a) <==> x in links && x.nbIface != a
  {
    if links != [] {
      LinksCons(links);
      if links[0].nbIface == a {
        AddressOnce(links[1..], a);
      } else {
        DropLinkMembers(links[1..], a, x);
      }
    }
  }

  lemma NbsCons(nbs: seq<NbTuple>)
    requires nbs != [] && Distinct(NbAddrs(nbs))
    ensures Distinct(NbAddrs(nbs[1..])) && forall n :: n in nbs[1..] ==> n.mainAddr != nbs[0].mainAddr
    ensures NbAddrs(nbs) == [nbs[0].mainAddr] + NbAddrs(nbs[1..])
  {
    var a, b := NbAddrs(nbs), NbAddrs(nbs[1..]);
    assert forall i :: 0 <= i < |b| ==> b[i] == a[i + 1];
    forall n | n in nbs[1..] ensures n.mainAddr != nbs[0].mainAddr {
      var i :| 0 <= i < |nbs[1..]| && nbs[1..][i] == n;
      assert a[0] != a[i + 1];
    }
  }

  lemma {:induction false} SetNbMembers(nbs: seq<NbTuple>, n: NbTuple, x: NbTuple)
    requires Distinct(NbAddrs(nbs)) && n.mainAddr in NbAddrs(nbs)
    ensures x in SetNb(nbs, n) <==> x == n || (x in nbs && x.mainAddr != n.mainAddr)
  {
    NbsCons(nbs);
    if nbs[0].mainAddr != n.mainAddr {
      SetNbMembers(nbs[1..], n, x);
    }
  }

  lemma {:induction false} DropNbMembers(nbs: seq<NbTuple>, a: Addr, x: NbTuple)
    requires Distinct(NbAddrs(nbs))
    ensures x in DropNb(nbs, a) <==> x in nbs && x.mainAddr != a
  {
    if nbs != [] {
      NbsCons(nbs);
      if nbs[0].mainAddr != a {
        DropNbMembers(nbs[1..], a, x);
      }
    }
  }

  /** Each address has one link tuple and one neighbour tuple. */
  lemma OneEach(s: State, a: Addr)
    requires Matched(s)
    ensures forall l, k :: l in s.links && k in s.links && l.nbIface == a == k.nbIface ==> l == k
    ensures forall n, k :: n in s.nbs && k in s.nbs && n.mainAddr == a == k.mainAddr ==> n == k
  {
    forall l, k | l in s.links && k in s.links && l.nbIface == a == k.nbIface ensures l == k {
      var i :| 0 <= i < |s.links| && s.links[i] == l;
      var j :| 0 <= j < |s.links| && s.links[j] == k;
      assert LinkAddrs(s.links)[i] == LinkAddrs(s.links)[j];
    }
    forall n, k | n in s.nbs && k in s.nbs && n.mainAddr == a == k.mainAddr ensures n == k {
      var i :| 0 <= i < |s.nbs| && s.nbs[i] == n;
      var j :| 0 <= j < |s.nbs| && s.nbs[j] == k;
      assert NbAddrs(s.nbs)[i] == NbAddrs(s.nbs)[j];
    }
  }

  /** Nothing but the tuples of `a` differs. */
  ghost predicate OnlyAt(s: State, r: State, a: Addr) {
    && r.self == s.self && r.useMac == s.useMac && r.mprs == s.mprs
    && (forall l: Link {:trigger l in r.links} {:trigger l in s.links} ::
          l.nbIface != a ==> (l in r.links <==> l in s.links))
    && (forall n: NbTuple {:trigger n in r.nbs} {:trigger n in s.nbs} ::
          n.mainAddr != a ==> (n in r.nbs <==> n in s.nbs))
  }

  /** `l` is the link tuple of `a`, and the only one. */
  ghost predicate TheLink(links: seq<Link>, a: Addr, l: Link) {
    l.nbIface == a && forall x :: x in links && x.nbIface == a <==> x == l
  }

  /** `n` is the neighbour tuple of `a`, and the only one. */
  ghost predicate TheNb(nbs: seq<NbTuple>, a: Addr, n: NbTuple) {
    n.mainAddr == a && forall x :: x in nbs && x.mainAddr == a <==> x == n
  }

  // ---------------------------------------------------------------------
  // Hearing a HELLO
  // ---------------------------------------------------------------------

  /** A valid link message that lists the node under a link type that says
      something about the link. */
  predicate Tells(self: Addr, g: Group) {
    var lt, nt := g.code % 4, g.code / 4;
    && self in g.addrs
    && (lt == LOST_LINK || lt == SYM_LINK || lt == ASYM_LINK)
    && (nt == SYM_NEIGH || nt == MPR_NEIGH || (nt == NOT_NEIGH && lt != SYM_LINK))
  }

  /** The last such link message of a HELLO, if any. */
  predicate LastTelling(self: Addr, gs: seq<Group>, k: nat) {
    && k < |gs| && Tells(self, gs[k])
    && forall j :: k < j < |gs| ==> !Tells(self, gs[j])
  }

  predicate NoneTells(self: Addr, gs: seq<Group>) {
    forall j :: 0 <= j < |gs| ==> !Tells(self, gs[j])
  }

  lemma {:induction false} NothingSensed(self: Addr, gs: seq<Group>, l: Link, u: bool, validity: real, now: real)
    requires NoneTells(self, gs)
    ensures SenseGroups(self, gs, l, u, validity, now) == (l, u)
  {
    if gs != [] {
      assert !Tells(self, gs[|gs| - 1]);
      NothingSensed(self, gs[..|gs| - 1], l, u, validity, now);
    }
  }

  /** Only the last telling link message counts. */
  lemma {:induction false} LastSensed(self: Addr, gs: seq<Group>, l: Link, u: bool, validity: real, now: real, k: nat)
    requires LastTelling(self, gs, k)
    ensures var (r, updated) := SenseGroups(self, gs, l, u, validity, now);
            && updated && r.nbIface == l.nbIface && r.localIface == l.localIface && r.asymTime == l.asymTime
            && (if gs[k].code % 4 == LOST_LINK then r.symTime == now - 1.0
                else && r.symTime == now + validity && r.lostTime == 0.0
                     && r.time == now + validity + NEIGHB_HOLD_TIME)
  {
    var last := |gs| - 1;
    if k == last {
      SenseGroupsKeep(self, gs[..last], l, u, validity, now);
    } else {
      assert !Tells(self, gs[last]);
      LastSensed(self, gs[..last], l, u, validity, now, k);
    }
  }

  /** Sensing never touches addresses or the asymmetry time. */
  lemma {:induction false} SenseGroupsKeep(self: Addr, gs: seq<Group>, l: Link, u: bool, validity: real, now: real)
    ensures var r := SenseGroups(self, gs, l, u, validity, now).0;
            r.nbIface == l.nbIface && r.localIface == l.localIface && r.asymTime == l.asymTime
  {
    if gs != [] {
      SenseGroupsKeep(self, gs[..|gs| - 1], l, u, validity, now);
    }
  }

  /** A sender without a link tuple gets one of each. */
  lemma FreshSender(s: State, l: Link, willingness: int, now: real) returns (n: NbTuple)
    requires Matched(s) && l.nbIface !in LinkAddrs(s.links)
    ensures var s1 := Added(s, l, willingness, now);
            && Matched(s1) && OnlyAt(s, s1, l.nbIface)
            && TheLink(s1.links, l.nbIface, l) && TheNb(s1.nbs, l.nbIface, n) && n.willingness == willingness
            && n.status == if l.symTime >= now then Sym else NotSym
  {
    n := Added(s, l, willingness, now).nbs[|s.nbs|];
    FindLinkIn(s.links, l.nbIface);
    AddedMatched(s, l, willingness, now);
    AddressOnce(s.links, l.nbIface);
    forall x | x in s.nbs ensures x.mainAddr != l.nbIface {
      var i :| 0 <= i < |s.nbs| && s.nbs[i] == x;
      assert NbAddrs(s.nbs)[i] == x.mainAddr;
    }
  }

  /** The tuples that sensing starts from. */
  lemma StartTuples(s: State, h: Hello, sender: Addr, now: real) returns (n: NbTuple)
    requires Matched(s)
    ensures var b := Base(s, h, sender, now);
            var s1 := if b.1 then s else Added(s, b.0, h.willingness, now);
            && b.1 == (sender in LinkAddrs(s.links)) && (b.1 ==> b.0 in s.links && n in s.nbs)
            && Matched(s1) && OnlyAt(s, s1, sender) && TheLink(s1.links, sender, b.0) && TheNb(s1.nbs, sender, n)
            && (!b.1 ==> n.willingness == h.willingness && n.status == NotSym)
  {
    FindLinkIn(s.links, sender);
    FindNbIn(s.nbs, sender);
    var b := Base(s, h, sender, now);
    if b.1 {
      OneEach(s, sender);
      n := FindNb(s.nbs, sender).value;
    } else {
      n := FreshSender(s, b.0, h.willingness, now);
    }
  }

  /** Setting a link tuple. */
  lemma SetTheLink(s: State, l: Link)
    requires Matched(s) && l.nbIface in LinkAddrs(s.links)
    ensures var r := s.(links := SetLink(s.links, l));
            Matched(r) && OnlyAt(s, r, l.nbIface) && TheLink(r.links, l.nbIface, l)
  {
    SetLinkAddrs(s.links, l);
    forall x ensures x in SetLink(s.links, l) <==> x == l || (x in s.links && x.nbIface != l.nbIface) {
      SetLinkMembers(s.links, l, x);
    }
  }

  /** Updating the neighbour tuple of a link. */
  lemma UpdateTheNb(s: State, l: Link, now: real, n: NbTuple) returns (m: NbTuple)
    requires Matched(s) && TheNb(s.nbs, l.nbIface, n)
    ensures var r := Updated(s, l, now);
            && Matched(r) && OnlyAt(s, r, l.nbIface) && r.links == s.links && TheNb(r.nbs, l.nbIface, m)
            && m == n.(status := if (s.useMac && l.lostTime >= now) || l.symTime < now then NotSym else Sym)
  {
    m := n.(status := StatusOf(s.useMac, l, now));
    UpdatedMatched(s, l, now);
    FindNbIn(s.nbs, l.nbIface);
    var i :| 0 <= i < |s.nbs| && s.nbs[i] == n;
    assert NbAddrs(s.nbs)[i] == l.nbIface;
    forall x ensures x in SetNb(s.nbs, m) <==> x == m || (x in s.nbs && x.mainAddr != l.nbIface) {
      SetNbMembers(s.nbs, m, x);
    }
  }

  lemma OnlyAtChain(s: State, t: State, r: State, a: Addr)
    requires OnlyAt(s, t, a) && OnlyAt(t, r, a)
    ensures OnlyAt(s, r, a)
  {
  }

  lemma TheLinkListed(links: seq<Link>, a: Addr, l: Link)
    requires TheLink(links, a, l)
    ensures a in LinkAddrs(links)
  {
    assert l in links;
    var i :| 0 <= i < |links| && links[i] == l;
    assert LinkAddrs(links)[i] == a;
  }

  /** The tuples of the sender after a HELLO, and that no others change. */
  lemma SensedTuples(s: State, h: Hello, sender: Addr, now: real) returns (l: Link, n: NbTuple)
    requires Matched(s)
    ensures var r := LinkSensing(s, h, sender, now);
            && Matched(r) && OnlyAt(s, r, sender) && TheLink(r.links, sender, l) && TheNb(r.nbs, sender, n)
            && l == Sensed(s, h, sender, now).0
            && n.status == (if (s.useMac && l.lostTime >= now) || l.symTime < now then NotSym else Sym)
            && (if sender in LinkAddrs(s.links) then exists x :: x in s.nbs && x.mainAddr == sender
                                                                 && x.willingness == n.willingness
                else n.willingness == h.willingness)
  {
    var n1 := StartTuples(s, h, sender, now);
    var b, u := Base(s, h, sender, now), Sensed(s, h, sender, now);
    var s1 := if b.1 then s else Added(s, b.0, h.willingness, now);
    l := u.0;
    SenseGroupsKeep(s.self, h.groups, b.0.(asymTime := now + h.validity), b.1, h.validity, now);
    TheLinkListed(s1.links, sender, b.0);
    SetTheLink(s1, l);
    var s2 := s1.(links := SetLink(s1.links, l));
    OnlyAtChain(s, s1, s2, sender);
    if u.1 {
      n := UpdateTheNb(s2, l, now, n1);
      OnlyAtChain(s, s2, Updated(s2, l, now), sender);
    } else {
      n := n1;
      SenseGroupsAddr(s.self, h.groups, b.0.(asymTime := now + h.validity), b.1, h.validity, now);
      SenseUntouched(s.self, h.groups, b.0.(asymTime := now + h.validity), h.validity, now);
    }
  }

  /** The link tuple that sensing ends with, by the last telling link message. */
  lemma SensedLink(s: State, h: Hello, sender: Addr, now: real, b: Link, known: bool)
    requires (b, known) == Base(s, h, sender, now)
    ensures var l, end := Sensed(s, h, sender, now).0, now + h.validity;
            && l.asymTime == end && l.time >= end && l.localIface == b.localIface
            && (NoneTells(s.self, h.groups) ==> l == b.(asymTime := end, time := if b.time > end then b.time else end))
            && forall k: nat {:trigger LastTelling(s.self, h.groups, k)} :: LastTelling(s.self, h.groups, k) ==>
                 if h.groups[k].code % 4 == LOST_LINK then l.symTime == now - 1.0
                 else l.symTime == end && l.lostTime == 0.0 && l.time >= end + NEIGHB_HOLD_TIME
  {
    var l0 := b.(asymTime := now + h.validity);
    SenseGroupsKeep(s.self, h.groups, l0, known, h.validity, now);
    forall k: nat | LastTelling(s.self, h.groups, k)
      ensures var r := SenseGroups(s.self, h.groups, l0, known, h.validity, now).0;
              if h.groups[k].code % 4 == LOST_LINK then r.symTime == now - 1.0
              else r.symTime == now + h.validity && r.lostTime == 0.0
                   && r.time == now + h.validity + NEIGHB_HOLD_TIME
    {
      LastSensed(s.self, h.groups, l0, known, h.validity, now, k);
    }
    if NoneTells(s.self, h.groups) {
      NothingSensed(s.self, h.groups, l0, known, h.validity, now);
    }
  }

  /** Link sensing by the last link message that tells the node something: SYM and
      ASYM make the link symmetric for the validity time, LOST ends its symmetry,
      and without one the symmetry time stays, a new link starting expired. In each
      case the neighbour's status follows, and no other tuple changes. */
  lemma HelloSensed(s: State, h: Hello, sender: Addr, now: real) returns (l: Link, n: NbTuple)
    requires Matched(s)
    ensures var r := LinkSensing(s, h, sender, now);
            && Matched(r) && OnlyAt(s, r, sender) && TheLink(r.links, sender, l) && TheNb(r.nbs, sender, n)
    ensures l.asymTime == now + h.validity && l.time >= l.asymTime
    ensures if sender !in LinkAddrs(s.links) then l.localIface == s.self
            else exists x :: x in s.links && x.nbIface == sender && x.localIface == l.localIface
    ensures forall k: nat :: LastTelling(s.self, h.groups, k) && h.groups[k].code % 4 != LOST_LINK ==>
              && l.symTime == now + h.validity && l.lostTime == 0.0
              && l.time >= now + h.validity + NEIGHB_HOLD_TIME
              && (h.validity >= 0.0 && (s.useMac ==> now > 0.0) ==> n.status == Sym)
    ensures forall k: nat :: LastTelling(s.self, h.groups, k) && h.groups[k].code % 4 == LOST_LINK ==>
              l.symTime == now - 1.0 && n.status == NotSym
    ensures NoneTells(s.self, h.groups) && sender !in LinkAddrs(s.links) ==>
              && l == Link(sender, s.self, now - 1.0, now + h.validity, 0.0, now + h.validity)
              && n == NbTuple(sender, NotSym, h.willingness)
    ensures NoneTells(s.self, h.groups) && sender in LinkAddrs(s.links) ==>
              exists x :: x in s.links && x.nbIface == sender
                && l == x.(asymTime := now + h.validity,
                           time := if x.time > now + h.validity then x.time else now + h.validity)
                && n.status == if (s.useMac && x.lostTime >= now) || x.symTime < now then NotSym else Sym
  {
    l, n := SensedTuples(s, h, sender, now);
    var n1 := StartTuples(s, h, sender, now);
    var b := Base(s, h, sender, now);
    SensedLink(s, h, sender, now, b.0, b.1);
  }

  // ---------------------------------------------------------------------
  // Timers, failures and willingness
  // ---------------------------------------------------------------------

  /** No tuple of `a` is left. */
  ghost predicate NoTuples(s: State, a: Addr) {
    (forall l :: l in s.links ==> l.nbIface != a) && (forall n :: n in s.nbs ==> n.mainAddr != a)
  }

  /** The timer of a link: when the tuple has expired both tuples of the address
      go; when only its symmetry has, the neighbour stops being symmetric, except
      the first time; otherwise nothing happens. */
  lemma LinkTimeout(s: State, a: Addr, firstTime: bool, now: real, l: Link)
    requires Matched(s) && l in s.links && l.nbIface == a
    ensures var r := Timer(s, a, firstTime, now);
            && OnlyAt(s, r, a)
            && (l.time < now ==> NoTuples(r, a))
            && (l.time >= now ==> r.links == s.links && (l.symTime >= now || firstTime ==> r == s))
            && (l.time >= now && l.symTime < now && !firstTime ==>
                  exists n :: n in s.nbs && TheNb(r.nbs, a, n.(status := NotSym)))
  {
    assert a in LinkAddrs(s.links) by {
      var i :| 0 <= i < |s.links| && s.links[i] == l;
      assert LinkAddrs(s.links)[i] == a;
    }
    OneEach(s, a);
    FindLinkIn(s.links, a);
    FindNbIn(s.nbs, a);
    if l.time < now {
      forall x ensures x in DropLink(s.links, a) <==> x in s.links && x.nbIface != a {
        DropLinkMembers(s.links, a, x);
      }
      forall x ensures x in DropNb(s.nbs, a) <==> x in s.nbs && x.mainAddr != a {
        DropNbMembers(s.nbs, a, x);
      }
    } else if l.symTime < now && !firstTime {
      var n := FindNb(s.nbs, a).value;
      var m := UpdateTheNb(s, l, now, n);
      assert m == n.(status := NotSym);
    }
  }

  /** A link that the MAC layer reports broken is lost for the holding time, and
      where such reports count its neighbour is not symmetric. */
  lemma LinkBroken(s: State, a: Addr, now: real, l: Link)
    requires Matched(s) && l in s.links && l.nbIface == a
    ensures var r := MacFailed(s, a, now);
            && OnlyAt(s, r, a)
            && TheLink(r.links, a, l.(lostTime := now + NEIGHB_HOLD_TIME, time := now + NEIGHB_HOLD_TIME))
            && exists n :: n in s.nbs
                 && TheNb(r.nbs, a, n.(status := if s.useMac || l.symTime < now then NotSym else Sym))
  {
    var l' := l.(lostTime := now + NEIGHB_HOLD_TIME, time := now + NEIGHB_HOLD_TIME);
    assert a in LinkAddrs(s.links) by {
      var i :| 0 <= i < |s.links| && s.links[i] == l;
      assert LinkAddrs(s.links)[i] == a;
    }
    OneEach(s, a);
    FindLinkIn(s.links, a);
    FindNbIn(s.nbs, a);
    var s1 := s.(links := SetLink(s.links, l'));
    SetTheLink(s, l');
    var n := FindNb(s.nbs, a).value;
    var m := UpdateTheNb(s1, l', now, n);
    OnlyAtChain(s, s1, MacFailed(s, a, now), a);
    assert m == n.(status := if s.useMac || l.symTime < now then NotSym else Sym);
  }

  /** The originator's willingness is taken over; its status stays. */
  lemma WillingnessTaken(s: State, h: Hello, n: NbTuple)
    requires Matched(s) && TheNb(s.nbs, h.orig, n)
    ensures var r := Populate(s, h);
            && Matched(r) && OnlyAt(s, r, h.orig) && r.links == s.links
            && TheNb(r.nbs, h.orig, n.(willingness := h.willingness))
  {
    var m := n.(willingness := h.willingness);
    assert n in s.nbs;
    var i :| 0 <= i < |s.nbs| && s.nbs[i] == n;
    assert NbAddrs(s.nbs)[i] == h.orig;
    FindNbIn(s.nbs, h.orig);
    SetNbAddrs(s.nbs, m);
    forall x ensures x in SetNb(s.nbs, m) <==> x == m || (x in s.nbs && x.mainAddr != h.orig) {
      SetNbMembers(s.nbs, m, x);
    }
  }

  // ---------------------------------------------------------------------
  // What a HELLO tells
  // ---------------------------------------------------------------------

  /** The MAC layer holds the link lost. */
  predicate HeldLost(useMac: bool, l: Link, now: real) {
    useMac && l.lostTime >= now
  }

  /** What a receiver reads about a link out of a HELLO: symmetric or only heard by
      the times of the link, lost otherwise; and its node a relay, a symmetric
      neighbour, or neither. */
  lemma HelloTells(s: State, gs: seq<Group>, now: real, l: Link, k: nat, p: nat)
    requires Matched(s) && Lists(s, |s.links|, gs, now) && l in s.links && ListedAt(gs, l.nbIface, k, p)
    ensures var c := gs[k].code;
            && (c % 4 == SYM_LINK <==> !HeldLost(s.useMac, l, now) && l.symTime >= now)
            && (c % 4 == ASYM_LINK <==> !HeldLost(s.useMac, l, now) && l.symTime < now <= l.asymTime)
            && (c % 4 == LOST_LINK <==> HeldLost(s.useMac, l, now) || (l.symTime < now && l.asymTime < now))
            && (c / 4 == MPR_NEIGH <==> l.nbIface in s.mprs)
            && (c / 4 == SYM_NEIGH <==> l.nbIface !in s.mprs && HasSymNb(s.nbs, l.nbIface))
            && (c / 4 == NOT_NEIGH <==> l.nbIface !in s.mprs && !HasSymNb(s.nbs, l.nbIface))
  {
    EachLinkOnce(s, gs, now, l.nbIface);
    assert LinkCode(s, l, now) == Some(gs[k].code);
    CodeRoundTrip(s, l, now);
    LinkHasNb(s, l);
    FindNbIn(s.nbs, l.nbIface);
    OneEach(s, l.nbIface);
  }

  /** A HELLO that lists the receiver under a link that was heard, and is not held
      lost, is the last word of that HELLO on the receiver. */
  lemma HeardTells(s: State, gs: seq<Group>, now: real, l: Link) returns (k: nat)
    requires Matched(s) && Lists(s, |s.links|, gs, now) && l in s.links
    requires l.localIface == s.self && l.time >= now && l.asymTime >= now && !HeldLost(s.useMac, l, now)
    requires l.symTime >= now ==> l.nbIface in s.mprs || HasSymNb(s.nbs, l.nbIface)
    ensures LastTelling(l.nbIface, gs, k) && gs[k].code % 4 != LOST_LINK
  {
    var a := l.nbIface;
    EachLinkOnce(s, gs, now, a);
    assert Advertises(s, l, now);
    var p: nat;
    k, p :| ListedAt(gs, a, k, p);
    HelloTells(s, gs, now, l, k, p);
    forall j | k < j < |gs| ensures !Tells(a, gs[j]) {
      if a in gs[j].addrs {
        var q :| 0 <= q < |gs[j].addrs| && gs[j].addrs[q] == a;
        assert ListedAt(gs, a, j, q);
      }
    }
  }

  /** The link of the sender, with the symmetry time and the status of its
      neighbour, after a HELLO has been processed. */
  ghost predicate Knows(s: State, a: Addr, symTime: real, asymTime: real, status: Status) {
    exists l, n :: TheLink(s.links, a, l) && TheNb(s.nbs, a, n) && n.status == status
      && l.localIface == s.self && l.symTime == symTime && l.asymTime == asymTime && l.time >= asymTime
      && l.lostTime == 0.0
  }

  /** The first HELLO from a node, which tells nothing, makes it known as heard. */
  lemma FirstHello(s: State, h: Hello, now: real)
    requires Matched(s) && h.orig !in LinkAddrs(s.links) && NoneTells(s.self, h.groups)
    ensures var r := Step(s, RxHello(h, h.orig, now));
            && Matched(r) && OnlyAt(s, r, h.orig) && Knows(r, h.orig, now - 1.0, now + h.validity, NotSym)
  {
    var l, n := HelloSensed(s, h, h.orig, now);
    var s1 := LinkSensing(s, h, h.orig, now);
    WillingnessTaken(s1, h, n);
    OnlyAtChain(s, s1, Populate(s1, h), h.orig);
  }

  /** A HELLO that was made by a node which hears the receiver makes the link
      symmetric at the receiver for the validity time. */
  lemma HelloAnswers(s: State, from: State, h: Hello, sent: real, now: real)
    requires Matched(s) && Matched(from) && h.orig == from.self && Lists(from, |from.links|, h.groups, sent)
    requires exists l :: l in from.links && l.nbIface == s.self && l.localIface == from.self && l.time >= sent
               && l.asymTime >= sent && !HeldLost(from.useMac, l, sent)
               && (l.symTime >= sent ==> s.self in from.mprs || HasSymNb(from.nbs, s.self))
    requires h.validity >= 0.0 && now > 0.0
    requires forall x :: x in s.links && x.nbIface == h.orig ==> x.localIface == s.self
    ensures var r := Step(s, RxHello(h, h.orig, now));
            && Matched(r) && OnlyAt(s, r, h.orig) && Knows(r, h.orig, now + h.validity, now + h.validity, Sym)
  {
    var x :| x in from.links && x.nbIface == s.self && x.localIface == from.self && x.time >= sent
             && x.asymTime >= sent && !HeldLost(from.useMac, x, sent)
             && (x.symTime >= sent ==> s.self in from.mprs || HasSymNb(from.nbs, s.self));
    var k := HeardTells(from, h.groups, sent, x);
    var l, n := HelloSensed(s, h, h.orig, now);
    var s1 := LinkSensing(s, h, h.orig, now);
    WillingnessTaken(s1, h, n);
    OnlyAtChain(s, s1, Populate(s1, h), h.orig);
  }

  /** Three HELLOs between two nodes that did not know each other, none of them
      out of date when it counts, make the link symmetric at both ends. */
  lemma Handshake(a: State, b: State, h1: Hello, h2: Hello, h3: Hello, t1: real, s2: real, t2: real, s3: real,
                  t3: real)
    requires Matched(a) && Matched(b) && a.self != b.self
    requires a.self !in LinkAddrs(b.links) && b.self !in LinkAddrs(a.links)
    requires h1.orig == b.self && NoneTells(a.self, h1.groups) && h2.orig == a.self && h3.orig == b.self
    requires h2.validity >= 0.0 && h3.validity >= 0.0
    requires 0.0 < t1 <= s2 <= t1 + h1.validity && s2 <= t2 <= s3 <= t2 + h2.validity && s3 <= t3
    requires var a1 := Step(a, RxHello(h1, b.self, t1)); Lists(a1, |a1.links|, h2.groups, s2)
    requires var b1 := Step(b, RxHello(h2, a.self, t2)); Lists(b1, |b1.links|, h3.groups, s3)
    ensures var a2 := Step(Step(a, RxHello(h1, b.self, t1)), RxHello(h3, b.self, t3));
            Knows(a2, b.self, t3 + h3.validity, t3 + h3.validity, Sym)
    ensures var b1 := Step(b, RxHello(h2, a.self, t2));
            Knows(b1, a.self, t2 + h2.validity, t2 + h2.validity, Sym)
  {
    var a1, b1 := Step(a, RxHello(h1, b.self, t1)), Step(b, RxHello(h2, a.self, t2));
    FirstHello(a, h1, t1);
    AddressOnce(b.links, a.self);
    HelloAnswers(b, a1, h2, s2, t2);
    HelloAnswers(a1, b1, h3, s3, t3);
  }
}
