/** Link sensing, neighbour bookkeeping and HELLO generation (sections 7.1.1,
    8.1 and 6.2 of RFC 3626) of a single-interface OLSR node. */
module OlsrLinks {
  import opened Common
  import opened OlsrRepositories

  const NEIGHB_HOLD_TIME := 6.0

  const ASYM_LINK := 1
  const SYM_LINK := 2
  const LOST_LINK := 3

  const NOT_NEIGH := 0
  const SYM_NEIGH := 1
  const MPR_NEIGH := 2

  /** `OLSR_link_tuple`, without the link-quality numbers. */
  datatype Link = Link(nbIface: Addr, localIface: Addr, symTime: real, asymTime: real, lostTime: real, time: real)

  /** One link message of a HELLO: a link code and the addresses under it. */
  datatype Group = Group(code: nat, addrs: seq<Addr>)

  datatype Hello = Hello(orig: Addr, willingness: int, validity: real, groups: seq<Group>)

  /** The node's address, whether MAC notifications are used, the link set, the
      neighbour set and the MPR set. */
  datatype State = State(self: Addr, useMac: bool, links: seq<Link>, nbs: seq<NbTuple>, mprs: set<Addr>)

  // ---------------------------------------------------------------------
  // Finders and updaters
  // ---------------------------------------------------------------------

  predicate HasLink(links: seq<Link>, a: Addr) {
    exists l :: l in links && l.nbIface == a
  }

  function FindLink(links: seq<Link>, a: Addr): Option<Link> {
    if links == [] then None
    else if links[0].nbIface == a then Some(links[0])
    else FindLink(links[1..], a)
  }

  function FindNb(nbs: seq<NbTuple>, a: Addr): Option<NbTuple> {
    if nbs == [] then None
    else if nbs[0].mainAddr == a then Some(nbs[0])
    else FindNb(nbs[1..], a)
  }

  /** Replaces the first link tuple of `l`'s address. */
  function SetLink(links: seq<Link>, l: Link): seq<Link> {
    if links == [] then []
    else if links[0].nbIface == l.nbIface then [l] + links[1..]
    else [links[0]] + SetLink(links[1..], l)
  }

  function SetNb(nbs: seq<NbTuple>, n: NbTuple): seq<NbTuple> {
    if nbs == [] then []
    else if nbs[0].mainAddr == n.mainAddr then [n] + nbs[1..]
    else [nbs[0]] + SetNb(nbs[1..], n)
  }

  function DropLink(links: seq<Link>, a: Addr): seq<Link> {
    if links == [] then []
    else if links[0].nbIface == a then links[1..]
    else [links[0]] + DropLink(links[1..], a)
  }

  function DropNb(nbs: seq<NbTuple>, a: Addr): seq<NbTuple> {
    if nbs == [] then []
    else if nbs[0].mainAddr == a then nbs[1..]
    else [nbs[0]] + DropNb(nbs[1..], a)
  }

  // ---------------------------------------------------------------------
  // The operations
  // ---------------------------------------------------------------------

  /** The status `updated_link_tuple` gives the neighbour of `l`. */
  function StatusOf(useMac: bool, l: Link, now: real): Status {
    if useMac && l.lostTime >= now then NotSym
    else if l.symTime >= now then Sym
    else NotSym
  }

  /** `updated_link_tuple`. */
  function Updated(s: State, l: Link, now: real): State {
    match FindNb(s.nbs, l.nbIface)
    case None => s
    case Some(n) => s.(nbs := SetNb(s.nbs, n.(status := StatusOf(s.useMac, l, now))))
  }

  /** `add_link_tuple`. */
  function Added(s: State, l: Link, willingness: int, now: real): State {
    s.(links := s.links + [l],
       nbs := s.nbs + [NbTuple(l.nbIface, if l.symTime >= now then Sym else NotSym, willingness)])
  }

  /** A link message that advertises an impossible combination. */
  predicate Invalid(code: nat) {
    var lt, nt := code % 4, code / 4;
    (lt == SYM_LINK && nt == NOT_NEIGH) || (nt != SYM_NEIGH && nt != MPR_NEIGH && nt != NOT_NEIGH)
  }

  /** One link message of a HELLO, with the `updated` flag. */
  function SenseGroup(self: Addr, g: Group, l: Link, updated: bool, validity: real, now: real): (Link, bool) {
    if Invalid(g.code) || self !in g.addrs then (l, updated)
    else if g.code % 4 == LOST_LINK then (l.(symTime := now - 1.0), true)
    else if g.code % 4 == SYM_LINK || g.code % 4 == ASYM_LINK then
      (l.(symTime := now + validity, time := now + validity + NEIGHB_HOLD_TIME, lostTime := 0.0), true)
    else (l, updated)
  }

  function SenseGroups(self: Addr, gs: seq<Group>, l: Link, updated: bool, validity: real, now: real): (Link, bool) {
    if gs == [] then (l, updated)
    else
      var r := SenseGroups(self, gs[..|gs| - 1], l, updated, validity, now);
      SenseGroup(self, gs[|gs| - 1], r.0, r.1, validity, now)
  }

  function Max(a: real, b: real): real {
    if a > b then a else b
  }

  /** The link tuple a HELLO starts from: the existing one, or a new one. */
  function Base(s: State, h: Hello, sender: Addr, now: real): (Link, bool) {
    match FindLink(s.links, sender)
    case Some(l) => (l, true)
    case None => (Link(sender, s.self, now - 1.0, now - 1.0, 0.0, now + h.validity), false)
  }

  function Sensed(s: State, h: Hello, sender: Addr, now: real): (Link, bool) {
    var b := Base(s, h, sender, now);
    var r := SenseGroups(s.self, h.groups, b.0.(asymTime := now + h.validity), b.1, h.validity, now);
    (r.0.(time := Max(r.0.time, r.0.asymTime)), r.1)
  }

  /** `link_sensing`. */
  function LinkSensing(s: State, h: Hello, sender: Addr, now: real): State {
    var b := Base(s, h, sender, now);
    var s1 := if b.1 then s else Added(s, b.0, h.willingness, now);
    var r := Sensed(s, h, sender, now);
    var s2 := s1.(links := SetLink(s1.links, r.0));
    if r.1 then Updated(s2, r.0, now) else s2
  }

  /** `populate_nbset`. */
  function Populate(s: State, h: Hello): State {
    match FindNb(s.nbs, h.orig)
    case None => s
    case Some(n) => s.(nbs := SetNb(s.nbs, n.(willingness := h.willingness)))
  }

  /** The link set part of `mac_failed` and `nb_loss`. */
  function MacFailed(s: State, a: Addr, now: real): State {
    match FindLink(s.links, a)
    case None => s
    case Some(l) =>
      var l' := l.(lostTime := now + NEIGHB_HOLD_TIME, time := now + NEIGHB_HOLD_TIME);
      Updated(s.(links := SetLink(s.links, l')), l', now)
  }

  /** `rm_link_tuple`. */
  function Removed(s: State, a: Addr): State {
    s.(links := DropLink(s.links, a), nbs := DropNb(s.nbs, a))
  }

  /** The timer of a link tuple: remove it, notice a lost neighbour (not the
      first time), or wait on. */
  function Timer(s: State, a: Addr, firstTime: bool, now: real): State {
    match FindLink(s.links, a)
    case None => s
    case Some(l) =>
      if l.time < now then Removed(s, a)
      else if l.symTime < now && !firstTime then Updated(s, l, now)
      else s
  }

  // ---------------------------------------------------------------------
  // Links and neighbours correspond
  // ---------------------------------------------------------------------

  function LinkAddrs(links: seq<Link>): seq<Addr> {
    seq(|links|, i requires 0 <= i < |links| => links[i].nbIface)
  }

  function NbAddrs(nbs: seq<NbTuple>): seq<Addr> {
    seq(|nbs|, i requires 0 <= i < |nbs| => nbs[i].mainAddr)
  }

  /** Link and neighbour tuples are in bijection by address: pairwise distinct
      on both sides, and kept in the same order. */
  ghost predicate Matched(s: State) {
    LinkAddrs(s.links) == NbAddrs(s.nbs) && Distinct(LinkAddrs(s.links))
  }

  lemma {:induction false} SetLinkAddrs(links: seq<Link>, l: Link)
    ensures LinkAddrs(SetLink(links, l)) == LinkAddrs(links)
  {
    if links != [] {
      SetLinkAddrs(links[1..], l);
      assert LinkAddrs(links) == [links[0].nbIface] + LinkAddrs(links[1..]);
      var r := SetLink(links, l);
      assert LinkAddrs(r) == [r[0].nbIface] + LinkAddrs(r[1..]);
    }
  }

  lemma {:induction false} SetNbAddrs(nbs: seq<NbTuple>, n: NbTuple)
    ensures NbAddrs(SetNb(nbs, n)) == NbAddrs(nbs)
  {
    if nbs != [] {
      SetNbAddrs(nbs[1..], n);
      assert NbAddrs(nbs) == [nbs[0].mainAddr] + NbAddrs(nbs[1..]);
      var r := SetNb(nbs, n);
      assert NbAddrs(r) == [r[0].mainAddr] + NbAddrs(r[1..]);
    }
  }

  function DropAddr(s: seq<Addr>, a: Addr): seq<Addr> {
    if s == [] then [] else if s[0] == a then s[1..] else [s[0]] + DropAddr(s[1..], a)
  }

  lemma {:induction false} DropLinkAddrs(links: seq<Link>, a: Addr)
    ensures LinkAddrs(DropLink(links, a)) == DropAddr(LinkAddrs(links), a)
  {
    if links != [] {
      DropLinkAddrs(links[1..], a);
      assert LinkAddrs(links)[1..] == LinkAddrs(links[1..]);
      var r := DropLink(links, a);
      assert links[0].nbIface != a ==> LinkAddrs(r) == [r[0].nbIface] + LinkAddrs(r[1..]);
    }
  }

  lemma {:induction false} DropNbAddrs(nbs: seq<NbTuple>, a: Addr)
    ensures NbAddrs(DropNb(nbs, a)) == DropAddr(NbAddrs(nbs), a)
  {
    if nbs != [] {
      DropNbAddrs(nbs[1..], a);
      assert NbAddrs(nbs)[1..] == NbAddrs(nbs[1..]);
      var r := DropNb(nbs, a);
      assert nbs[0].mainAddr != a ==> NbAddrs(r) == [r[0].mainAddr] + NbAddrs(r[1..]);
    }
  }

  lemma {:induction false} DropDistinct(s: seq<Addr>, a: Addr)
    requires Distinct(s)
    ensures Distinct(DropAddr(s, a))
    ensures forall x :: x in DropAddr(s, a) <==> x in s && x != a
  {
    if s != [] {
      DropDistinct(s[1..], a);
      assert s[0] !in s[1..];
      if s[0] != a {
        var r := DropAddr(s[1..], a);
        assert forall j :: 1 <= j < |[s[0]] + r| ==> ([s[0]] + r)[j] in r;
      }
    }
  }

  lemma {:induction false} FindLinkIn(links: seq<Link>, a: Addr)
    ensures FindLink(links, a).Some? <==> a in LinkAddrs(links)
    ensures FindLink(links, a).Some? ==> FindLink(links, a).value in links && FindLink(links, a).value.nbIface == a
  {
    if links != [] {
      FindLinkIn(links[1..], a);
      assert LinkAddrs(links) == [links[0].nbIface] + LinkAddrs(links[1..]);
    }
  }

  lemma {:induction false} FindNbIn(nbs: seq<NbTuple>, a: Addr)
    ensures FindNb(nbs, a).Some? <==> a in NbAddrs(nbs)
    ensures FindNb(nbs, a).Some? ==> FindNb(nbs, a).value in nbs && FindNb(nbs, a).value.mainAddr == a
  {
    if nbs != [] {
      FindNbIn(nbs[1..], a);
      assert NbAddrs(nbs) == [nbs[0].mainAddr] + NbAddrs(nbs[1..]);
    }
  }

  lemma UpdatedMatched(s: State, l: Link, now: real)
    requires Matched(s)
    ensures Matched(Updated(s, l, now))
  {
    FindNbIn(s.nbs, l.nbIface);
    if FindNb(s.nbs, l.nbIface).Some? {
      SetNbAddrs(s.nbs, FindNb(s.nbs, l.nbIface).value.(status := StatusOf(s.useMac, l, now)));
    }
  }

  lemma AddedMatched(s: State, l: Link, willingness: int, now: real)
    requires Matched(s) && FindLink(s.links, l.nbIface).None?
    ensures Matched(Added(s, l, willingness, now))
  {
    FindLinkIn(s.links, l.nbIface);
    assert LinkAddrs(s.links + [l]) == LinkAddrs(s.links) + [l.nbIface];
    assert NbAddrs(Added(s, l, willingness, now).nbs) == NbAddrs(s.nbs) + [l.nbIface];
  }

  lemma {:induction false} SenseGroupsAddr(self: Addr, gs: seq<Group>, l: Link, updated: bool, validity: real,
                                           now: real)
    ensures SenseGroups(self, gs, l, updated, validity, now).0.nbIface == l.nbIface
    ensures updated ==> SenseGroups(self, gs, l, updated, validity, now).1
  {
    if gs != [] {
      SenseGroupsAddr(self, gs[..|gs| - 1], l, updated, validity, now);
    }
  }

  /** Something that happens to the link and neighbour sets. */
  datatype Event =
    | RxHello(h: Hello, sender: Addr, now: real)
    | LinkFailure(a: Addr, now: real)
    | LinkTimer(a: Addr, firstTime: bool, now: real)
    | NewMprs(mprs: set<Addr>)

  function Step(s: State, ev: Event): State {
    match ev
    case RxHello(h, sender, now) => Populate(LinkSensing(s, h, sender, now), h)
    case LinkFailure(a, now) => MacFailed(s, a, now)
    case LinkTimer(a, firstTime, now) => Timer(s, a, firstTime, now)
    case NewMprs(mprs) => s.(mprs := mprs)
  }

  function Run(s: State, events: seq<Event>): State {
    if events == [] then s
    else Step(Run(s, events[..|events| - 1]), events[|events| - 1])
  }

  lemma LinkSensingMatched(s: State, h: Hello, sender: Addr, now: real)
    requires Matched(s)
    ensures Matched(LinkSensing(s, h, sender, now))
  {
    var b := Base(s, h, sender, now);
    FindLinkIn(s.links, sender);
    var s1 := if b.1 then s else Added(s, b.0, h.willingness, now);
    if !b.1 {
      AddedMatched(s, b.0, h.willingness, now);
    }
    var r := Sensed(s, h, sender, now);
    SetLinkAddrs(s1.links, r.0);
    UpdatedMatched(s1.(links := SetLink(s1.links, r.0)), r.0, now);
  }

  /** Every operation keeps the bijection; in particular the removal of a link
      tuple finds its neighbour and removes it too. */
  lemma StepMatched(s: State, ev: Event)
    requires Matched(s)
    ensures Matched(Step(s, ev))
  {
    match ev {
      case RxHello(h, sender, now) =>
        LinkSensingMatched(s, h, sender, now);
        var s1 := LinkSensing(s, h, sender, now);
        FindNbIn(s1.nbs, h.orig);
        if FindNb(s1.nbs, h.orig).Some? {
          SetNbAddrs(s1.nbs, FindNb(s1.nbs, h.orig).value.(willingness := h.willingness));
        }
      case LinkFailure(a, now) =>
        if FindLink(s.links, a).Some? {
          var l := FindLink(s.links, a).value.(lostTime := now + NEIGHB_HOLD_TIME, time := now + NEIGHB_HOLD_TIME);
          SetLinkAddrs(s.links, l);
          UpdatedMatched(s.(links := SetLink(s.links, l)), l, now);
        }
      case LinkTimer(a, firstTime, now) =>
        DropLinkAddrs(s.links, a);
        DropNbAddrs(s.nbs, a);
        DropDistinct(LinkAddrs(s.links), a);
        if FindLink(s.links, a).Some? {
          UpdatedMatched(s, FindLink(s.links, a).value, now);
        }
      case NewMprs(_) =>
    }
  }

  /** In every run from empty sets the correspondence holds, so every link
      tuple has its neighbour tuple. */
  lemma {:induction false} RunMatched(self: Addr, useMac: bool, events: seq<Event>)
    ensures Matched(Run(State(self, useMac, [], [], {}), events))
  {
    if events != [] {
      RunMatched(self, useMac, events[..|events| - 1]);
      StepMatched(Run(State(self, useMac, [], [], {}), events[..|events| - 1]), events[|events| - 1]);
    }
  }

  lemma LinkHasNb(s: State, l: Link)
    requires Matched(s) && l in s.links
    ensures FindNb(s.nbs, l.nbIface).Some?
  {
    var i :| 0 <= i < |s.links| && s.links[i] == l;
    assert LinkAddrs(s.links)[i] == l.nbIface;
    FindNbIn(s.nbs, l.nbIface);
  }

  lemma {:induction false} FindAfterSet(links: seq<Link>, l: Link, nbs: seq<NbTuple>, n: NbTuple)
    ensures FindLink(links, l.nbIface).Some? ==> FindLink(SetLink(links, l), l.nbIface) == Some(l)
    ensures FindNb(nbs, n.mainAddr).Some? ==> FindNb(SetNb(nbs, n), n.mainAddr) == Some(n)
    decreases |links| + |nbs|
  {
    if links != [] {
      FindAfterSet(links[1..], l, [], n);
    }
    if nbs != [] {
      FindAfterSet([], l, nbs[1..], n);
    }
  }

  /** After a HELLO the sender has a link tuple, and its neighbour tuple is
      symmetric exactly if that link is: its symmetry time has not passed and
      the MAC layer does not hold it lost. */
  lemma SensedStatus(s: State, h: Hello, sender: Addr, now: real)
    requires Matched(s)
    ensures var r := LinkSensing(s, h, sender, now);
            && FindLink(r.links, sender).Some? && FindNb(r.nbs, sender).Some?
            && FindNb(r.nbs, sender).value.status == StatusOf(s.useMac, FindLink(r.links, sender).value, now)
  {
    var b := Base(s, h, sender, now);
    var s1 := if b.1 then s else Added(s, b.0, h.willingness, now);
    FindLinkIn(s.links, sender);
    FindNbIn(s.nbs, sender);
    if !b.1 {
      AddedMatched(s, b.0, h.willingness, now);
      FindAppended(s.links, b.0, s.nbs, s1.nbs[|s.nbs|]);
    }
    LinkSensingMatched(s, h, sender, now);
    var r := Sensed(s, h, sender, now);
    SenseGroupsAddr(s.self, h.groups, b.0.(asymTime := now + h.validity), b.1, h.validity, now);
    var n := FindNb(s1.nbs, sender);
    FindLinkIn(s1.links, sender);
    FindNbIn(s1.nbs, sender);
    FindAfterSet(s1.links, r.0, s1.nbs, n.value.(status := StatusOf(s.useMac, r.0, now)));
    if !r.1 {
      SenseUntouched(s.self, h.groups, b.0.(asymTime := now + h.validity), h.validity, now);
    }
  }

  /** Without the `updated` flag the link's symmetry was not touched. */
  lemma {:induction false} SenseUntouched(self: Addr, gs: seq<Group>, l: Link, validity: real, now: real)
    requires !SenseGroups(self, gs, l, false, validity, now).1
    ensures SenseGroups(self, gs, l, false, validity, now).0 == l
  {
    if gs != [] {
      var p := gs[..|gs| - 1];
      assert !SenseGroups(self, p, l, false, validity, now).1;
      SenseUntouched(self, p, l, validity, now);
    }
  }

  lemma {:induction false} FindAppended(links: seq<Link>, l: Link, nbs: seq<NbTuple>, n: NbTuple)
    ensures FindLink(links, l.nbIface).None? ==> FindLink(links + [l], l.nbIface) == Some(l)
    ensures FindNb(nbs, n.mainAddr).None? ==> FindNb(nbs + [n], n.mainAddr) == Some(n)
    decreases |links| + |nbs|
  {
    if links != [] {
      FindAppended(links[1..], l, [], n);
      assert (links + [l])[1..] == links[1..] + [l];
    }
    if nbs != [] {
      FindAppended([], l, nbs[1..], n);
      assert (nbs + [n])[1..] == nbs[1..] + [n];
    }
  }

  // ---------------------------------------------------------------------
  // HELLO generation
  // ---------------------------------------------------------------------

  predicate Advertises(s: State, l: Link, now: real) {
    l.localIface == s.self && l.time >= now
  }

  function LinkType(s: State, l: Link, now: real): nat {
    if s.useMac && l.lostTime >= now then LOST_LINK
    else if l.symTime >= now then SYM_LINK
    else if l.asymTime >= now then ASYM_LINK
    else LOST_LINK
  }

  /** `None` is the branch that prints an error and exits. */
  function NbType(s: State, l: Link): Option<nat> {
    if l.nbIface in s.mprs then Some(MPR_NEIGH)
    else match FindNb(s.nbs, l.nbIface)
      case None => None
      case Some(n) => Some(if n.status == Sym then SYM_NEIGH else NOT_NEIGH)
  }

  function LinkCode(s: State, l: Link, now: real): Option<nat> {
    match NbType(s, l)
    case None => None
    case Some(nt) => Some(LinkType(s, l, now) % 4 + (nt * 4) % 16)
  }

  /** What a receiver reads back from a link code. */
  lemma CodeRoundTrip(s: State, l: Link, now: real)
    requires NbType(s, l).Some?
    ensures var c := LinkCode(s, l, now).value;
            c % 4 == LinkType(s, l, now) && c / 4 == NbType(s, l).value && c in CODES
  {
  }

  /** The link codes a HELLO can carry. */
  const CODES: set<nat> := {1, 2, 3, 5, 6, 7, 9, 10, 11}

  /** The addresses of the live links under `code`, in link-set order. */
  function Under(s: State, upto: nat, code: nat, now: real): seq<Addr>
    requires upto <= |s.links|
  {
    if upto == 0 then []
    else
      var l := s.links[upto - 1];
      if Advertises(s, l, now) && LinkCode(s, l, now) == Some(code) then Under(s, upto - 1, code, now) + [l.nbIface]
      else Under(s, upto - 1, code, now)
  }

  /** The groups list, code by code, exactly the first `upto` links. */
  ghost predicate Lists(s: State, upto: nat, gs: seq<Group>, now: real)
    requires upto <= |s.links|
  {
    && (forall i, j :: 0 <= i < j < |gs| ==> gs[i].code != gs[j].code)
    && (forall i :: 0 <= i < |gs| ==> gs[i].code in CODES && gs[i].addrs == Under(s, upto, gs[i].code, now))
    && (forall c: nat {:trigger Complete(s, upto, gs, now, c)} :: Complete(s, upto, gs, now, c))
  }

  /** A code without a group has no links. */
  ghost predicate Complete(s: State, upto: nat, gs: seq<Group>, now: real, c: nat)
    requires upto <= |s.links|
  {
    NoGroup(gs, c) ==> Under(s, upto, c, now) == []
  }

  ghost predicate NoGroup(gs: seq<Group>, c: nat) {
    forall i :: 0 <= i < |gs| ==> gs[i].code != c
  }

  /** A link that is not advertised changes nothing. */
  lemma ListSkip(s: State, it: nat, gs: seq<Group>, now: real)
    requires it < |s.links| && Lists(s, it, gs, now) && !Advertises(s, s.links[it], now)
    ensures Lists(s, it + 1, gs, now)
  {
    var upto := it + 1;
    forall c: nat ensures Complete(s, upto, gs, now, c) {
      assert Complete(s, it, gs, now, c);
    }
  }

  /** A link under a code that has a group already. */
  lemma ListExtend(s: State, it: nat, gs: seq<Group>, now: real, k: nat)
    requires it < |s.links| && Lists(s, it, gs, now) && Advertises(s, s.links[it], now)
    requires k < |gs| && LinkCode(s, s.links[it], now) == Some(gs[k].code)
    ensures Lists(s, it + 1, gs[k := Group(gs[k].code, gs[k].addrs + [s.links[it].nbIface])], now)
  {
    var next := gs[k := Group(gs[k].code, gs[k].addrs + [s.links[it].nbIface])];
    var upto := it + 1;
    assert forall i :: 0 <= i < |next| ==> next[i].code == gs[i].code;
    forall c: nat ensures Complete(s, upto, next, now, c) {
      assert Complete(s, it, gs, now, c);
      assert NoGroup(next, c) ==> next[k].code != c;
    }
  }

  /** A link under a new code. */
  lemma ListOpen(s: State, it: nat, gs: seq<Group>, now: real, code: nat)
    requires it < |s.links| && Lists(s, it, gs, now) && Advertises(s, s.links[it], now)
    requires LinkCode(s, s.links[it], now) == Some(code)
    requires NoGroup(gs, code)
    ensures Lists(s, it + 1, gs + [Group(code, [s.links[it].nbIface])], now)
  {
    var next := gs + [Group(code, [s.links[it].nbIface])];
    CodeRoundTrip(s, s.links[it], now);
    var upto := it + 1;
    assert Complete(s, it, gs, now, code);
    assert Under(s, upto, code, now) == [s.links[it].nbIface];
    forall c: nat ensures Complete(s, upto, next, now, c) {
      assert Complete(s, it, gs, now, c);
      assert NoGroup(next, c) ==> next[|gs|].code != c;
      assert forall i :: 0 <= i < |gs| ==> gs[i] == next[i];
    }
  }

  lemma {:induction false} UnderIn(s: State, upto: nat, code: nat, now: real, a: Addr)
    requires upto <= |s.links|
    ensures a in Under(s, upto, code, now) <==>
            exists i :: 0 <= i < upto && s.links[i].nbIface == a && Advertises(s, s.links[i], now)
                          && LinkCode(s, s.links[i], now) == Some(code)
  {
    if upto > 0 {
      UnderIn(s, upto - 1, code, now, a);
    }
  }

  lemma {:induction false} UnderDistinct(s: State, upto: nat, code: nat, now: real)
    requires Matched(s) && upto <= |s.links|
    ensures Distinct(Under(s, upto, code, now))
  {
    if upto > 0 {
      UnderDistinct(s, upto - 1, code, now);
      var a := s.links[upto - 1].nbIface;
      UnderIn(s, upto - 1, code, now, a);
      assert LinkAddrs(s.links)[upto - 1] == a;
      assert forall i :: 0 <= i < upto - 1 ==> LinkAddrs(s.links)[i] == s.links[i].nbIface;
      var r := Under(s, upto - 1, code, now);
      assert forall k :: 0 <= k < |r| ==> r[k] in r;
    }
  }

  /** The address `a` is entry `p` of group `k`. */
  ghost predicate ListedAt(gs: seq<Group>, a: Addr, k: nat, p: nat) {
    k < |gs| && p < |gs[k].addrs| && gs[k].addrs[p] == a
  }

  /** A HELLO lists each live link exactly once, under its own link code, and
      lists nothing else. */
  lemma EachLinkOnce(s: State, gs: seq<Group>, now: real, a: Addr)
    requires Matched(s) && Lists(s, |s.links|, gs, now)
    ensures (exists k: nat, p: nat :: ListedAt(gs, a, k, p)) <==>
            exists l :: l in s.links && l.nbIface == a && Advertises(s, l, now)
    ensures forall k: nat, p: nat, k': nat, p': nat :: ListedAt(gs, a, k, p) && ListedAt(gs, a, k', p') ==>
              k == k' && p == p'
    ensures forall l, k: nat, p: nat :: l in s.links && l.nbIface == a && ListedAt(gs, a, k, p) ==>
              LinkCode(s, l, now) == Some(gs[k].code)
  {
    forall i, j | 0 <= i < |s.links| && 0 <= j < |s.links| && s.links[i].nbIface == s.links[j].nbIface
      ensures i == j
    {
      assert LinkAddrs(s.links)[i] == LinkAddrs(s.links)[j];
    }
    forall k: nat, p: nat | ListedAt(gs, a, k, p)
      ensures exists i :: 0 <= i < |s.links| && s.links[i].nbIface == a && Advertises(s, s.links[i], now)
                          && LinkCode(s, s.links[i], now) == Some(gs[k].code)
    {
      assert a in gs[k].addrs;
      UnderIn(s, |s.links|, gs[k].code, now, a);
    }
    forall k: nat, p: nat, k': nat, p': nat | ListedAt(gs, a, k, p) && ListedAt(gs, a, k', p')
      ensures k == k' && p == p'
    {
      UnderDistinct(s, |s.links|, gs[k].code, now);
    }
    if l :| l in s.links && l.nbIface == a && Advertises(s, l, now) {
      LinkHasNb(s, l);
      var c := LinkCode(s, l, now).value;
      UnderIn(s, |s.links|, c, now, a);
      assert Complete(s, |s.links|, gs, now, c);
      var k :| 0 <= k < |gs| && gs[k].code == c;
      var p :| 0 <= p < |gs[k].addrs| && gs[k].addrs[p] == a;
      assert ListedAt(gs, a, k, p);
    }
  }

  lemma {:induction false} DistinctCodes(gs: seq<Group>, all: set<nat>)
    requires forall i, j :: 0 <= i < j < |gs| ==> gs[i].code != gs[j].code
    requires forall i :: 0 <= i < |gs| ==> gs[i].code in all
    ensures |gs| <= |all|
  {
    if gs != [] {
      DistinctCodes(gs[..|gs| - 1], all - {gs[|gs| - 1].code});
    }
  }

  /** There are at most nine groups. */
  lemma AtMostNine(s: State, gs: seq<Group>, now: real)
    requires Lists(s, |s.links|, gs, now)
    ensures |gs| <= 9
  {
    DistinctCodes(gs, CODES);
  }

  /** A code has at most `max` live links. */
  predicate CodeFits(s: State, c: nat, now: real, max: nat) {
    |Under(s, |s.links|, c, now)| <= max
  }

  /** The assertion on the addresses of a group holds, for a capacity of `max`,
      exactly if no link code has more live links than that. */
  lemma GroupsFit(s: State, gs: seq<Group>, now: real, max: nat)
    requires Lists(s, |s.links|, gs, now)
    ensures (forall k :: 0 <= k < |gs| ==> |gs[k].addrs| <= max) <==> forall c: nat :: CodeFits(s, c, now, max)
  {
    if forall k :: 0 <= k < |gs| ==> |gs[k].addrs| <= max {
      forall c: nat ensures CodeFits(s, c, now, max) {
        assert Complete(s, |s.links|, gs, now, c);
      }
    }
    if forall c: nat :: CodeFits(s, c, now, max) {
      forall k | 0 <= k < |gs| ensures |gs[k].addrs| <= max {
        assert CodeFits(s, gs[k].code, now, max);
      }
    }
  }

  /** A live link whose neighbour cannot be found. */
  ghost predicate Orphan(s: State, now: real) {
    exists l :: l in s.links && Advertises(s, l, now) && NbType(s, l).None?
  }

  /** The correspondence makes the error exit unreachable. */
  lemma NoOrphan(s: State, now: real)
    requires Matched(s)
    ensures !Orphan(s, now)
  {
    forall l | l in s.links ensures NbType(s, l).Some? {
      LinkHasNb(s, l);
    }
  }

  lemma {:induction false} FindNbAt(nbs: seq<NbTuple>, a: Addr, i: nat)
    requires i <= |nbs| && forall k :: 0 <= k < i ==> nbs[k].mainAddr != a
    ensures i == |nbs| ==> FindNb(nbs, a) == None
    ensures i < |nbs| && nbs[i].mainAddr == a ==>
              FindNb(nbs, a) == Some(nbs[i]) && forall n: NbTuple :: n.mainAddr == a ==> SetNb(nbs, n) == nbs[i := n]
  {
    if i > 0 {
      FindNbAt(nbs[1..], a, i - 1);
    }
  }

  lemma {:induction false} FindLinkAt(links: seq<Link>, a: Addr, i: nat)
    requires i <= |links| && forall k :: 0 <= k < i ==> links[k].nbIface != a
    ensures i == |links| ==> FindLink(links, a) == None
    ensures i < |links| && links[i].nbIface == a ==>
              FindLink(links, a) == Some(links[i]) && DropLink(links, a) == links[..i] + links[i + 1..]
    ensures i < |links| && links[i].nbIface == a ==>
              forall l: Link :: l.nbIface == a ==> SetLink(links, l) == links[i := l]
  {
    if i > 0 {
      FindLinkAt(links[1..], a, i - 1);
    }
  }

  lemma {:induction false} DropNbAt(nbs: seq<NbTuple>, a: Addr, i: nat)
    requires i < |nbs| && nbs[i].mainAddr == a && forall k :: 0 <= k < i ==> nbs[k].mainAddr != a
    ensures DropNb(nbs, a) == nbs[..i] + nbs[i + 1..]
  {
    if i > 0 {
      DropNbAt(nbs[1..], a, i - 1);
    }
  }

  class LinkAgent {
    const self: Addr
    const useMac: bool
    var linkset: seq<Link>
    var nbset: seq<NbTuple>
    var mprset: set<Addr>

    function TheState(): State
      reads this
    {
      State(self, useMac, linkset, nbset, mprset)
    }

    constructor (self: Addr, useMac: bool)
      ensures TheState() == State(self, useMac, [], [], {})
      ensures Matched(TheState())
    {
      this.self, this.useMac := self, useMac;
      linkset, nbset, mprset := [], [], {};
    }

    /** `find_link_tuple`; the length stands for NULL. */
    method LinkIndex(a: Addr) returns (i: nat)
      ensures i <= |linkset|
      ensures FindLink(linkset, a) == if i == |linkset| then None else Some(linkset[i])
      ensures i < |linkset| ==> forall l: Link :: l.nbIface == a ==> SetLink(linkset, l) == linkset[i := l]
      ensures i < |linkset| ==> linkset[i].nbIface == a && DropLink(linkset, a) == linkset[..i] + linkset[i + 1..]
    {
      i := 0;
      while i < |linkset| && linkset[i].nbIface != a
        invariant i <= |linkset|
        invariant forall k :: 0 <= k < i ==> linkset[k].nbIface != a
      {
        i := i + 1;
      }
      FindLinkAt(linkset, a, i);
    }

    /** `find_nb_tuple`; the length stands for NULL. */
    method NbIndex(a: Addr) returns (i: nat)
      ensures i <= |nbset|
      ensures FindNb(nbset, a) == if i == |nbset| then None else Some(nbset[i])
      ensures i < |nbset| ==> forall n: NbTuple :: n.mainAddr == a ==> SetNb(nbset, n) == nbset[i := n]
      ensures i < |nbset| ==> nbset[i].mainAddr == a && DropNb(nbset, a) == nbset[..i] + nbset[i + 1..]
    {
      i := 0;
      while i < |nbset| && nbset[i].mainAddr != a
        invariant i <= |nbset|
        invariant forall k :: 0 <= k < i ==> nbset[k].mainAddr != a
      {
        i := i + 1;
      }
      FindNbAt(nbset, a, i);
      if i < |nbset| {
        DropNbAt(nbset, a, i);
      }
    }

    method AddLinkTuple(l: Link, willingness: int, now: real)
      modifies this`linkset, this`nbset
      ensures TheState() == Added(old(TheState()), l, willingness, now)
    {
      linkset := linkset + [l];
      var status := NotSym;
      if l.symTime >= now {
        status := Sym;
      }
      nbset := nbset + [NbTuple(l.nbIface, status, willingness)];
    }

    /** Removes a link tuple together with its neighbour tuple, which the
        correspondence guarantees to exist. */
    method RmLinkTuple(a: Addr)
      requires Matched(TheState()) && FindLink(linkset, a).Some?
      modifies this`linkset, this`nbset
      ensures TheState() == Removed(old(TheState()), a)
      ensures Matched(TheState()) && FindLink(linkset, a).None? && FindNb(nbset, a).None?
    {
      FindLinkIn(linkset, a);
      FindNbIn(nbset, a);
      DropLinkAddrs(linkset, a);
      DropNbAddrs(nbset, a);
      DropDistinct(LinkAddrs(linkset), a);
      var i := LinkIndex(a);
      var j := NbIndex(a);
      linkset := linkset[..i] + linkset[i + 1..];
      nbset := nbset[..j] + nbset[j + 1..];
      FindLinkIn(linkset, a);
      FindNbIn(nbset, a);
    }

    method UpdatedLinkTuple(l: Link, now: real)
      modifies this`nbset
      ensures TheState() == Updated(old(TheState()), l, now)
    {
      var i := NbIndex(l.nbIface);
      if i < |nbset| {
        var status := NotSym;
        if useMac && l.lostTime >= now {
          status := NotSym;
        } else if l.symTime >= now {
          status := Sym;
        }
        nbset := nbset[i := nbset[i].(status := status)];
      }
    }

    method ReceiveHello(h: Hello, sender: Addr, now: real)
      modifies this`linkset, this`nbset
      ensures TheState() == LinkSensing(old(TheState()), h, sender, now)
    {
      ghost var s := TheState();
      var l, updated;
      var i := LinkIndex(sender);
      if i == |linkset| {
        l, updated := Link(sender, self, now - 1.0, now - 1.0, 0.0, now + h.validity), false;
        AddLinkTuple(l, h.willingness, now);
      } else {
        l, updated := linkset[i], true;
      }
      ghost var base := l;
      ghost var u0 := updated;
      assert Base(s, h, sender, now) == (base, u0);
      l := l.(asymTime := now + h.validity);
      for k := 0 to |h.groups|
        invariant (l, updated)
                  == SenseGroups(self, h.groups[..k], base.(asymTime := now + h.validity), u0, h.validity, now)
      {
        assert h.groups[..k + 1][..k] == h.groups[..k];
        var g := h.groups[k];
        var lt := g.code % 4;
        if !Invalid(g.code) && self in g.addrs {
          if lt == LOST_LINK {
            l, updated := l.(symTime := now - 1.0), true;
          } else if lt == SYM_LINK || lt == ASYM_LINK {
            l := l.(symTime := now + h.validity);
            l := l.(time := l.symTime + NEIGHB_HOLD_TIME, lostTime := 0.0);
            updated := true;
          }
        }
      }
      assert h.groups[..|h.groups|] == h.groups;
      l := l.(time := Max(l.time, l.asymTime));
      assert (l, updated) == Sensed(s, h, sender, now);
      SenseGroupsAddr(self, h.groups, base.(asymTime := now + h.validity), u0, h.validity, now);
      var j := LinkIndex(sender);
      FindLinkIn(linkset, sender);
      assert sender in LinkAddrs(linkset) by {
        assert u0 || LinkAddrs(linkset)[|linkset| - 1] == sender;
        FindLinkIn(s.links, sender);
      }
      linkset := linkset[j := l];
      if updated {
        UpdatedLinkTuple(l, now);
      }
    }

    /** The link code of one advertised link, or the error exit. */
    method CodeOf(l: Link, now: real) returns (code: Option<nat>)
      ensures code == LinkCode(TheState(), l, now)
    {
      var nt := NOT_NEIGH;
      if l.nbIface in mprset {
        nt := MPR_NEIGH;
      } else {
        var j := NbIndex(l.nbIface);
        if j == |nbset| {
          return None;
        }
        if nbset[j].status == Sym {
          nt := SYM_NEIGH;
        }
      }
      var lt := LOST_LINK;
      if useMac && l.lostTime >= now {
        lt := LOST_LINK;
      } else if l.symTime >= now {
        lt := SYM_LINK;
      } else if l.asymTime >= now {
        lt := ASYM_LINK;
      }
      return Some(lt % 4 + (nt * 4) % 16);
    }

    /** `send_hello`: `None` is the error exit. Otherwise every live link is
        listed under its own code, codes are not repeated, and there are at
        most nine groups. */
    method SendHello(now: real) returns (hello: Option<seq<Group>>)
      ensures hello.None? <==> Orphan(TheState(), now)
      ensures hello.Some? ==> Lists(TheState(), |linkset|, hello.value, now) && |hello.value| <= 9
      ensures Matched(TheState()) ==> hello.Some?
    {
      ghost var s := TheState();
      if Matched(s) {
        NoOrphan(s, now);
      }
      var gs: seq<Group> := [];
      var index: map<nat, nat> := map[];
      var it := 0;
      while it != |linkset|
        invariant 0 <= it <= |linkset|
        invariant Lists(s, it, gs, now)
        invariant forall l :: l in linkset[..it] && Advertises(s, l, now) ==> NbType(s, l).Some?
        invariant forall c :: if c in index then index[c] < |gs| && gs[index[c]].code == c else NoGroup(gs, c)
      {
        var l := linkset[it];
        assert linkset[..it + 1] == linkset[..it] + [l];
        if l.localIface == self && l.time >= now {
          var c := CodeOf(l, now);
          if c.None? {
            assert l in s.links && Advertises(s, l, now);
            return None;
          }
          var code := c.value;
          if code in index {
            var k := index[code];
            ListExtend(s, it, gs, now, k);
            gs := gs[k := Group(code, gs[k].addrs + [l.nbIface])];
          } else {
            ListOpen(s, it, gs, now, code);
            index := index[code := |gs|];
            gs := gs + [Group(code, [l.nbIface])];
          }
        } else {
          ListSkip(s, it, gs, now);
        }
        it := it + 1;
      }
      assert linkset[..it] == linkset;
      AtMostNine(s, gs, now);
      return Some(gs);
    }
  }
}
