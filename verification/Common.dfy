/** Vocabulary shared by the routing agents. */
module Common {

  /** A node address (`nsaddr_t`). */
  type Addr = int

  datatype Option<+T> = None | Some(value: T)

  /** `vector::erase(begin() + i)`. */
  function Erase<T>(s: seq<T>, i: nat): (r: seq<T>)
    requires i < |s|
    ensures |r| == |s| - 1
  {
    s[..i] + s[i + 1..]
  }

  /** Elements of a sequence. */
  function Elements<T>(s: seq<T>): set<T> {
    set x | x in s
  }

  /** The next element of a set iteration whose order does not matter. */
  method AnyOf<T(==)>(s: set<T>) returns (x: T)
    requires s != {}
    ensures x in s
  {
    x :| x in s;
  }
}
