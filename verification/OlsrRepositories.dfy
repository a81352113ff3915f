/** The neighbour and 2-hop neighbour repositories of an OLSR node, and the
    filters that both the MPR selection and the routing-table calculation
    apply to them. */
module OlsrRepositories {
  import opened Common

  const WILL_NEVER := 0
  const WILL_ALWAYS := 7

  datatype Status = NotSym | Sym

  /** `OLSR_nb_tuple`. */
  datatype NbTuple = NbTuple(mainAddr: Addr, status: Status, willingness: int)

  /** `OLSR_nb2hop_tuple`: `nb` reaches `twoHop`. */
  datatype Nb2HopTuple = Nb2HopTuple(nb: Addr, twoHop: Addr)

  /** `find_sym_nb_tuple(a) != NULL`. */
  predicate HasSymNb(nbset: seq<NbTuple>, a: Addr) {
    exists n :: n in nbset && n.mainAddr == a && n.status == Sym
  }

  /** `find_nb_tuple(a, OLSR_WILL_NEVER) != NULL`. */
  predicate HasNeverNb(nbset: seq<NbTuple>, a: Addr) {
    exists n :: n in nbset && n.mainAddr == a && n.willingness == WILL_NEVER
  }

  /** `find_nb_tuple(a) != NULL`. */
  predicate HasNb(nbset: seq<NbTuple>, a: Addr) {
    exists n :: n in nbset && n.mainAddr == a
  }

  /** The `ok` flag with which 2-hop tuples are admitted to N2. */
  predicate Admitted(nbset: seq<NbTuple>, t: Nb2HopTuple) {
    && HasSymNb(nbset, t.nb)
    && !HasNeverNb(nbset, t.nb)
    && !HasSymNb(nbset, t.twoHop)
  }

  /** N2: the admitted 2-hop tuples, in order. */
  function StrictTwoHop(nbset: seq<NbTuple>, nb2hop: seq<Nb2HopTuple>): (n2: seq<Nb2HopTuple>)
    ensures forall t :: t in n2 <==> t in nb2hop && Admitted(nbset, t)
  {
    if nb2hop == [] then []
    else
      var last := nb2hop[|nb2hop| - 1];
      assert nb2hop == nb2hop[..|nb2hop| - 1] + [last];
      StrictTwoHop(nbset, nb2hop[..|nb2hop| - 1]) + if Admitted(nbset, last) then [last] else []
  }

  predicate Distinct<T(==)>(s: seq<T>) {
    forall i, j :: 0 <= i < j < |s| ==> s[i] != s[j]
  }

  /** Main addresses are unique in the neighbour set. */
  predicate UniqueNbs(nbset: seq<NbTuple>) {
    forall i, j :: 0 <= i < j < |nbset| ==> nbset[i].mainAddr != nbset[j].mainAddr
  }
}
