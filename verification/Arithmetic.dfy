// Integer division facts behind the refill grid.
module Arithmetic {

  const NANOS_PER_MILLI: int := 1_000_000
  const NANOS_PER_SECOND: int := 1_000_000_000

  // The widest value of a policy row or an audit record.
  const MAX_INT32: int := 0x7FFF_FFFF

  function Min(a: int, b: int): int {
    if a <= b then a else b
  }

  function Max(a: int, b: int): int {
    if a >= b then a else b
  }

  // Division as the program writes it for rounding up. For a negative numerator this
  // model rounds up too, which the program never needs.
  function CeilDiv(numerator: int, denominator: int): int
    requires denominator > 0
  {
    (numerator + denominator - 1) / denominator
  }

  lemma MulLe(a: int, b: int, c: int)
    requires a <= b && c >= 0
    ensures a * c <= b * c
  {
  }

  lemma MulNonneg(a: int, c: int)
    requires a >= 0 && c >= 0
    ensures a * c >= 0
  {
  }

  // A quotient is pinned by the two multiples that enclose the numerator.
  lemma QuotientUnique(x: int, d: int, q: int)
    requires d > 0
    requires q * d <= x < (q + 1) * d
    ensures x / d == q
  {
    var p := x / d;
    assert p * d <= x < (p + 1) * d by {
      assert x == d * p + x % d;
    }
    if p < q {
      MulLe(p + 1, q, d);
    } else if q < p {
      MulLe(q + 1, p, d);
    }
  }

  lemma QuotientBounds(x: int, d: int)
    requires d > 0
    ensures (x / d) * d <= x < (x / d + 1) * d
    ensures x % d == x - (x / d) * d
    ensures x >= 0 ==> x / d >= 0
  {
    assert x == d * (x / d) + x % d;
  }

  // Taking whole multiples out of the numerator takes them out of the quotient.
  lemma QuotientShift(x: int, k: int, d: int)
    requires d > 0
    ensures (x - k * d) / d == x / d - k
  {
    QuotientBounds(x, d);
    QuotientUnique(x - k * d, d, x / d - k);
  }

  lemma QuotientMonotone(x: int, y: int, d: int)
    requires d > 0 && x <= y
    ensures x / d <= y / d
  {
    QuotientBounds(x, d);
    QuotientBounds(y, d);
    if y / d < x / d {
      MulLe(y / d + 1, x / d, d);
    }
  }

  // CeilDiv(x, d) is the least k whose multiple of d covers x.
  lemma CeilDivLeast(x: int, d: int, k: int)
    requires d > 0
    ensures k * d >= x <==> k >= CeilDiv(x, d)
  {
    var q := CeilDiv(x, d);
    QuotientBounds(x + d - 1, d);
    if k >= q {
      MulLe(q, k, d);
    } else {
      MulLe(k + 1, q, d);
    }
  }

  lemma CeilDivShift(x: int, k: int, d: int)
    requires d > 0
    ensures CeilDiv(x + k * d, d) == CeilDiv(x, d) + k
  {
    QuotientShift(x + d - 1 + k * d, k, d);
  }

  lemma CeilDivMonotone(x: int, y: int, d: int)
    requires d > 0 && x <= y
    ensures CeilDiv(x, d) <= CeilDiv(y, d)
  {
    QuotientMonotone(x + d - 1, y + d - 1, d);
  }

  // A multiple of the millisecond survives the round trip through whole milliseconds.
  lemma MultipleOfMilli(x: int)
    requires x % NANOS_PER_MILLI == 0
    ensures x / NANOS_PER_MILLI * NANOS_PER_MILLI == x
  {
  }

  lemma MultipleSum(x: int, k: int, step: int)
    requires x % NANOS_PER_MILLI == 0 && step % NANOS_PER_MILLI == 0
    ensures (x + k * step) % NANOS_PER_MILLI == 0
  {
    var a, b := x / NANOS_PER_MILLI, step / NANOS_PER_MILLI;
    assert x + k * step == (a + k * b) * NANOS_PER_MILLI;
    QuotientUnique(x + k * step, NANOS_PER_MILLI, a + k * b);
  }
}
