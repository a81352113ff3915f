/** The byte format of DSDV updates: a count, then nine bytes a record. */
module DsdvCodec {
  import opened Common

  type Byte = b: int | 0 <= b < 256

  const WORD := 0x1_0000_0000

  /** One advertised route. */
  datatype Advert = Advert(dst: Addr, metric: int, seqnum: int)

  /** The widths of the fields: a signed address, a metric of one byte, an
      unsigned sequence number. */
  predicate Fits(a: Advert) {
    && -0x8000_0000 <= a.dst < 0x8000_0000
    && 0 <= a.metric < 256
    && 0 <= a.seqnum < WORD
  }

  /** The low 32 bits of `x`, most significant byte first. */
  function Word(x: int): (r: seq<Byte>)
    ensures |r| == 4
  {
    [x / 0x100_0000 % 256, x / 0x1_0000 % 256, x / 0x100 % 256, x % 256]
  }

  function Unsigned(b: seq<Byte>): int
    requires |b| == 4
  {
    (((b[0] as int) * 256 + b[1]) * 256 + b[2]) * 256 + b[3]
  }

  /** An unsigned word read as a signed 32-bit integer. */
  function Signed(u: int): int {
    if u >= 0x8000_0000 then u - WORD else u
  }

  lemma WordRoundTrip(x: int)
    requires -0x8000_0000 <= x < WORD
    ensures Unsigned(Word(x)) == if x < 0 then x + WORD else x
  {
    var a := x / 0x100;
    var b := a / 0x100;
    var c := b / 0x100;
    assert x / 0x1_0000 == b && x / 0x100_0000 == c;
    assert a == b * 256 + a % 256 && b == c * 256 + b % 256;
    if x < 0 {
      assert c % 256 == c + 256;
    } else {
      assert c % 256 == c;
    }
  }

  function Record(a: Advert): (r: seq<Byte>)
    ensures |r| == 9
  {
    Word(a.dst) + [a.metric % 256] + Word(a.seqnum)
  }

  function Records(adverts: seq<Advert>): (r: seq<Byte>)
    ensures |r| == 9 * |adverts|
  {
    if adverts == [] then [] else Records(adverts[..|adverts| - 1]) + Record(adverts[|adverts| - 1])
  }

  /** A packet; its count is one byte. */
  function Encode(adverts: seq<Advert>): (r: seq<Byte>)
    ensures |r| == 9 * |adverts| + 1
  {
    [|adverts| % 256] + Records(adverts)
  }

  /** The packet is as long as its count announces. */
  predicate Complete(bytes: seq<Byte>) {
    |bytes| >= 1 && |bytes| >= 9 * (bytes[0] as int) + 1
  }

  /** The record read at offset `w`. */
  function ReadAt(bytes: seq<Byte>, w: nat): Advert
    requires w + 9 <= |bytes|
  {
    Advert(Signed(Unsigned(bytes[w..w + 4])), bytes[w + 4], Unsigned(bytes[w + 5..w + 9]))
  }

  /** The first `k` records of a packet. */
  function Parsed(bytes: seq<Byte>, k: nat): (r: seq<Advert>)
    requires 9 * k + 1 <= |bytes|
    ensures |r| == k
  {
    if k == 0 then [] else Parsed(bytes, k - 1) + [ReadAt(bytes, 9 * (k - 1) + 1)]
  }

  function Parse(bytes: seq<Byte>): seq<Advert>
    requires Complete(bytes)
  {
    Parsed(bytes, bytes[0])
  }

  lemma RecordRoundTrip(a: Advert)
    requires Fits(a)
    ensures ReadAt(Record(a), 0) == a
  {
    var r := Record(a);
    WordRoundTrip(a.dst);
    WordRoundTrip(a.seqnum);
    assert r[0..4] == Word(a.dst) && r[5..9] == Word(a.seqnum);
  }

  /** Record `k` lies at its offset. */
  lemma {:induction false} RecordLies(adverts: seq<Advert>, k: nat)
    requires k < |adverts|
    ensures Records(adverts)[9 * k..9 * k + 9] == Record(adverts[k])
  {
    var n := |adverts| - 1;
    if k < n {
      RecordLies(adverts[..n], k);
      assert Records(adverts)[9 * k..9 * k + 9] == Records(adverts[..n])[9 * k..9 * k + 9];
    }
  }

  lemma ReadEncoded(adverts: seq<Advert>, k: nat)
    requires k < |adverts| && Fits(adverts[k])
    ensures ReadAt(Encode(adverts), 9 * k + 1) == adverts[k]
  {
    var bytes, w := Encode(adverts), 9 * k + 1;
    RecordLies(adverts, k);
    RecordRoundTrip(adverts[k]);
    assert bytes[w..w + 9] == Record(adverts[k]);
    assert bytes[w..w + 4] == Record(adverts[k])[0..4];
    assert bytes[w + 5..w + 9] == Record(adverts[k])[5..9];
    assert bytes[w + 4] == bytes[w..w + 9][4];
  }

  lemma {:induction false} ParsedPrefix(adverts: seq<Advert>, k: nat)
    requires k <= |adverts| && forall a :: a in adverts ==> Fits(a)
    ensures Parsed(Encode(adverts), k) == adverts[..k]
  {
    if k > 0 {
      ParsedPrefix(adverts, k - 1);
      ReadEncoded(adverts, k - 1);
    }
  }

  /** A parsed packet is a prefix of what was encoded: all of it exactly when
      the count fits its byte. */
  lemma RoundTrip(adverts: seq<Advert>)
    requires forall a :: a in adverts ==> Fits(a)
    ensures Complete(Encode(adverts))
    ensures Parse(Encode(adverts)) == adverts[..|adverts| % 256]
    ensures Parse(Encode(adverts)) == adverts <==> |adverts| < 256
  {
    ParsedPrefix(adverts, |adverts| % 256);
  }
}
