/** Machine integers as naturals, and products of naturals. */
module Integers {

  /** One past the largest 32-bit and the largest 64-bit unsigned integer. */
  const UINT: nat := 0x1_0000_0000
  const WORD: nat := 0x1_0000_0000_0000_0000

  function Wrap32(n: nat): (w: nat)
    ensures w < UINT && (n < UINT ==> w == n)
  {
    n % UINT
  }

  function Wrap64(n: nat): (w: nat)
    ensures w < WORD && (n < WORD ==> w == n)
  {
    n % WORD
  }

  lemma MulMonotone(a: nat, b: nat, d: nat)
    requires a <= b
    ensures a * d <= b * d
  {
  }

  lemma DivModUnique(x: nat, y: nat, d: nat)
    requires x < d
    ensures (y * d + x) / d == y && (y * d + x) % d == x
  {
    QuotientUnique((y * d + x) / d, (y * d + x) % d, y, x, d);
  }

  lemma QuotientUnique(q: nat, r: nat, y: nat, x: nat, d: nat)
    requires x < d && r < d && q * d + r == y * d + x
    ensures q == y && r == x
  {
    if q < y {
      MulMonotone(q + 1, y, d);
    } else if y < q {
      MulMonotone(y + 1, q, d);
    }
  }

  /** The first multiple of a from `low` on is not above any other. */
  lemma FirstMultiple(p: nat, q: nat, a: nat, low: nat)
    requires p * a < low + a && low <= q * a
    ensures p <= q
  {
    if q < p {
      MulMonotone(q + 1, p, a);
    }
  }
}
