/** Unsigned 64-bit bounds, and facts about multiplication and division. */
module Arithmetic {

  const U64_MAX: nat := 0xFFFF_FFFF_FFFF_FFFF

  /** Saturation at 2^64 - 1. */
  function Sat(x: nat): nat { if x > U64_MAX then U64_MAX else x }

  function Min(a: nat, b: nat): nat { if a <= b then a else b }

  function Max(a: nat, b: nat): nat { if a >= b then a else b }

  lemma DivModUnique(x: nat, b: nat, q: nat, r: nat)
    requires b > 0 && x == q * b + r && r < b
    ensures x / b == q && x % b == r
  {
    var q' := x / b;
    assert x == q' * b + x % b;
    if q' < q {
      assert q * b >= (q' + 1) * b by { MulMono(q' + 1, q, b); }
    } else if q' > q {
      assert q' * b >= (q + 1) * b by { MulMono(q + 1, q', b); }
    }
  }

  lemma MulMono(a: nat, c: nat, b: nat)
    requires a <= c
    ensures a * b <= c * b
  {
    assert c * b == a * b + (c - a) * b;
  }

  lemma DivBounds(p: nat, b: nat)
    requires b > 0
    ensures p / b * b <= p < p / b * b + b
  {
    assert p == p / b * b + p % b;
  }

  lemma DivMono(p: nat, q: nat, b: nat)
    requires b > 0 && p <= q
    ensures p / b <= q / b
  {
    DivBounds(p, b);
    DivBounds(q, b);
    if q / b < p / b { MulMono(q / b + 1, p / b, b); }
  }

  lemma Subset(a: set<nat>, b: set<nat>)
    requires a <= b
    ensures |a| <= |b|
  {
    assert |b| == |a| + |b - a|;
  }
}
