/** The mantissa/exponent time format (section 18.3 of RFC 3626) over exact
    reals. This code truncates where the RFC rounds up. */
module OlsrTime {

  const C := 0.0625

  function Pow2(b: nat): (r: real)
    ensures r >= 1.0
  {
    if b == 0 then 1.0 else 2.0 * Pow2(b - 1)
  }

  lemma {:induction false} Pow2Grows(b: nat)
    ensures Pow2(b) > b as real
  {
    if b > 0 {
      Pow2Grows(b - 1);
    }
  }

  lemma {:induction false} Pow2Monotone(a: nat, b: nat)
    requires a <= b
    ensures Pow2(a) <= Pow2(b)
  {
    if a < b {
      Pow2Monotone(a, b - 1);
    }
  }

  /** The seconds a code stands for (`emf_to_seconds`). */
  function Decode(code: nat): real {
    var a, b := code / 16, code % 16;
    C * (1.0 + a as real / 16.0) * Pow2(b)
  }

  /** `a` sixteenths of level `b`, summed up. */
  ghost function Sixteenths(a: nat, b: nat): real {
    if a == 0 then 0.0 else Sixteenths(a - 1, b) + C * Pow2(b) / 16.0
  }

  /** The time that mantissa `a` at level `b` stands for. */
  ghost function Mark(a: nat, b: nat): real {
    C * Pow2(b) + Sixteenths(a, b)
  }

  /** `s` is at or above mark `(a, b)` and below the next one. */
  ghost predicate AtMark(s: real, a: nat, b: nat) {
    Mark(a, b) <= s < Mark(a + 1, b)
  }

  lemma {:induction false} SixteenthsProduct(a: nat, b: nat)
    ensures Sixteenths(a, b) == a as real * (C * Pow2(b) / 16.0)
  {
    if a > 0 {
      SixteenthsProduct(a - 1, b);
    }
  }

  lemma {:induction false} SixteenthsMonotone(a: nat, c: nat, b: nat)
    requires a <= c
    ensures Sixteenths(a, b) <= Sixteenths(c, b)
  {
    if a < c {
      SixteenthsMonotone(a, c - 1, b);
    }
  }

  /** Sixteen sixteenths are the next level. */
  lemma FullLevel(b: nat)
    ensures Mark(0, b) == C * Pow2(b) && Mark(16, b) == C * Pow2(b + 1)
  {
    SixteenthsProduct(16, b);
  }

  lemma DecodeMark(code: nat)
    ensures Decode(code) == Mark(code / 16, code % 16)
  {
    var a, b := code / 16, code % 16;
    SixteenthsProduct(a, b);
  }

  /** Each time lies at one mark only. */
  lemma MarkUnique(s: real, a: nat, b: nat, c: nat, d: nat)
    requires AtMark(s, a, b) && AtMark(s, c, d) && a < 16 && c < 16
    ensures a == c && b == d
  {
    MarkLevel(s, a, b);
    MarkLevel(s, c, d);
    if b < d {
      Pow2Monotone(b + 1, d);
    } else if d < b {
      Pow2Monotone(d + 1, b);
    } else if a < c {
      SixteenthsMonotone(a + 1, c, b);
    } else if c < a {
      SixteenthsMonotone(c + 1, a, b);
    }
  }

  lemma MarkLevel(s: real, a: nat, b: nat)
    requires AtMark(s, a, b) && a < 16
    ensures C * Pow2(b) <= s < C * Pow2(b + 1)
  {
    FullLevel(b);
    SixteenthsMonotone(0, a, b);
    SixteenthsMonotone(a + 1, 16, b);
  }

  /** What `seconds_to_emf` computes: the last mark not above the time, with
      the two saturated ends. */
  ghost predicate Encodes(s: real, code: nat) {
    && (s < C ==> code == 16)
    && (s >= C * Pow2(16) ==> code == 255)
    && (C <= s < C * Pow2(16) ==> code < 256 && AtMark(s, code / 16, code % 16))
  }

  // ---------------------------------------------------------------------
  // The computation
  // ---------------------------------------------------------------------

  lemma QuotientBounds(s: real, q: real)
    requires 0.0 < q <= s < 2.0 * q
    ensures 1.0 <= s / q < 2.0 && (s / q) * q == s
  {
    var u := s / q;
    assert u * q == s;
    if u < 1.0 {
      Scale(1.0 - u, q);
    } else if u >= 2.0 {
      ScaleWeak(u - 2.0, q);
    }
  }

  lemma ScaleWeak(x: real, q: real)
    requires x >= 0.0 && q >= 0.0
    ensures x * q >= 0.0
  {
  }

  lemma Scale(x: real, q: real)
    requires x > 0.0 && q > 0.0
    ensures x * q > 0.0
  {
  }

  /** Bounds on `16 * (s / q - 1)` count the sixteenths of `q` beyond `q`. */
  lemma FloorCounts(s: real, x: real, q: real, w: real, low: real, high: real)
    requires w > 0.0 && q == 16.0 * w && x * q == s && low <= 16.0 * (x - 1.0) < high
    ensures low * w <= s - q < high * w
  {
    Regauge(s, x, q, w);
    Between(low, 16.0 * (x - 1.0), high, w);
  }

  lemma Between(low: real, y: real, high: real, w: real)
    requires low <= y < high && w > 0.0
    ensures low * w <= y * w < high * w
  {
    ScaleLess(low, y, w);
    Scale(high - y, w);
    assert high - y + y == high;
  }

  lemma Regauge(s: real, x: real, q: real, w: real)
    requires x * q == s && q == 16.0 * w
    ensures (16.0 * (x - 1.0)) * w == s - q
  {
    assert (16.0 * (x - 1.0)) * w == (x - 1.0) * (16.0 * w);
    assert (x - 1.0) * q == x * q - q;
  }

  lemma ScaleLess(x: real, y: real, w: real)
    requires x <= y && w > 0.0
    ensures x * w <= y * w
  {
    ScaleWeak(y - x, w);
  }

  /** The mantissa at a level that holds the time. It stays below 16, so the
      loop that would carry it into the next level never runs. */
  method MantissaAt(seconds: real, b: nat) returns (a: int)
    requires C * Pow2(b) <= seconds < C * Pow2(b + 1)
    ensures 0 <= a <= 15 && AtMark(seconds, a, b)
  {
    var x := seconds / (C * Pow2(b));
    a := (16.0 * (x - 1.0)).Floor;
    QuotientBounds(seconds, C * Pow2(b));
    FloorCounts(seconds, x, C * Pow2(b), C * Pow2(b) / 16.0, a as real, (a + 1) as real);
    SixteenthsProduct(a, b);
    SixteenthsProduct(a + 1, b);
  }

  /** `seconds_to_emf`. */
  method SecondsToEmf(seconds: real) returns (code: nat)
    ensures code < 256 && Encodes(seconds, code)
  {
    var b := Exponent(seconds);
    var a: int;
    Pow2Monotone(0, 16);
    if b < 0 {
      a, b := 1, 0;
    } else if b > 15 {
      Pow2Monotone(16, b);
      a, b := 15, 15;
    } else {
      Pow2Monotone(0, b);
      Pow2Monotone(b + 1, 16);
      a := MantissaAt(seconds, b);
    }
    code := (a * 16 + b) % 256;
    assert code / 16 == a && code % 16 == b;
  }

  /** The loop that finds the highest power not above the time, or -1. */
  method Exponent(seconds: real) returns (b: int)
    ensures b >= -1
    ensures b >= 0 ==> C * Pow2(b) <= seconds < C * Pow2(b + 1)
    ensures b < 0 ==> seconds < C
  {
    b := 0;
    while seconds / C >= Pow2(b)
      invariant b >= 0
      invariant b > 0 ==> seconds / C >= Pow2(b - 1)
      decreases (seconds / C).Floor - b
    {
      Pow2Grows(b);
      b := b + 1;
    }
    b := b - 1;
  }

  // ---------------------------------------------------------------------
  // What the format preserves
  // ---------------------------------------------------------------------

  /** Encoding is a function. */
  lemma EncodesUnique(s: real, c: nat, d: nat)
    requires Encodes(s, c) && Encodes(s, d)
    ensures c == d
  {
    Pow2Monotone(0, 16);
    if C <= s < C * Pow2(16) {
      MarkUnique(s, c / 16, c % 16, d / 16, d % 16);
    }
  }

  /** In range, a decoded code is at most the time, by less than one sixteenth
      of its power. */
  lemma Truncates(s: real, code: nat)
    requires C <= s < C * Pow2(16) && Encodes(s, code)
    ensures Decode(code) <= s < Decode(code) + C * Pow2(code % 16) / 16.0
  {
    DecodeMark(code);
  }

  /** The code does not overstate the time exactly from C on. */
  lemma OverstatesBelowC(s: real, code: nat)
    requires Encodes(s, code)
    ensures Decode(code) <= s <==> s >= C
  {
    DecodeMark(code);
    assert Pow2(0) == 1.0;
    assert Sixteenths(1, 0) == Sixteenths(0, 0) + C * Pow2(0) / 16.0;
    if s >= C * Pow2(16) {
      FullLevel(15);
      SixteenthsMonotone(15, 16, 15);
    }
  }

  /** Every code is the encoding of the time it stands for. */
  lemma RoundTrip(code: nat)
    requires code < 256
    ensures Encodes(Decode(code), code)
  {
    var a, b := code / 16, code % 16;
    DecodeMark(code);
    assert AtMark(Decode(code), a, b);
    MarkLevel(Decode(code), a, b);
    Pow2Monotone(0, b);
    Pow2Monotone(b + 1, 16);
    assert Pow2(0) == 1.0;
  }

  /** From C on, longer times never decode to shorter ones. */
  lemma Monotone(s: real, t: real, c: nat, d: nat)
    requires C <= s <= t && Encodes(s, c) && Encodes(t, d)
    ensures Decode(c) <= Decode(d)
  {
    DecodeMark(c);
    DecodeMark(d);
    FullLevel(15);
    if s < C * Pow2(16) {
      MarkLevel(s, c / 16, c % 16);
      if t < C * Pow2(16) {
        MarkLevel(t, d / 16, d % 16);
        MarksOrdered(s, t, c / 16, c % 16, d / 16, d % 16);
      } else {
        TopMark(c / 16, c % 16);
      }
    }
  }

  lemma MarksOrdered(s: real, t: real, a: nat, b: nat, c: nat, d: nat)
    requires s <= t && AtMark(s, a, b) && AtMark(t, c, d) && a < 16 && c < 16
    ensures Mark(a, b) <= Mark(c, d)
  {
    MarkLevel(s, a, b);
    MarkLevel(t, c, d);
    SixteenthsMonotone(0, c, d);
    if d < b {
      Pow2Monotone(d + 1, b);
    } else if b < d {
      Pow2Monotone(b + 1, d);
    } else if c < a {
      SixteenthsMonotone(c + 1, a, b);
    } else {
      SixteenthsMonotone(a, c, b);
    }
  }

  /** No mark is above the top one. */
  lemma TopMark(a: nat, b: nat)
    requires a < 16 && b < 16
    ensures Mark(a, b) <= Mark(15, 15)
  {
    SixteenthsMonotone(0, 15, 15);
    if b < 15 {
      FullLevel(b);
      SixteenthsMonotone(a, 16, b);
      Pow2Monotone(b + 1, 15);
    } else {
      SixteenthsMonotone(a, 15, 15);
    }
  }
}
