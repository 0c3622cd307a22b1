/** What several parts share: optional values, 64-bit machine words, division. */
module Common {

  datatype Option<+T> = None | Some(value: T)

  const TWO_64: nat := 0x1_0000_0000_0000_0000
  const MAX_U64: nat := TWO_64 - 1

  type uint64 = x: int | 0 <= x < TWO_64

  // The operands are in range, so one correction wraps the result.

  function Add64(x: uint64, y: uint64): uint64 { if x + y < TWO_64 then x + y else x + y - TWO_64 }

  function Sub64(x: uint64, y: uint64): uint64 { if y <= x then x - y else x - y + TWO_64 }

  lemma MulAtLeast(x: int, d: nat)
    requires x >= 1
    ensures x * d >= d
  {
  }

  /** A quotient that leaves a remainder is the quotient. */
  lemma QuotientIs(n: nat, d: nat, q: int, t: nat)
    requires n == q * d + t && t < d
    ensures q == n / d
  {
    var e, u := n / d, n % d;
    assert n == e * d + u;
    assert (e - q) * d == t - u && (q - e) * d == u - t;
    if e > q { MulAtLeast(e - q, d); } else if e < q { MulAtLeast(q - e, d); }
  }
}
