/** Binary digits of a number, by halving. */
module Digits {
  import opened Common
  import opened Merkle

  /** `n` halved `i` times: the position of the path at level `i`. */
  function Shr(n: nat, i: nat): nat {
    if i == 0 then n else Shr(n, i - 1) / 2
  }

  /** Digit `i` of `n`: which side the path takes at level `i`. */
  function Digit(n: nat, i: nat): nat {
    Shr(n, i) % 2
  }

  lemma DivHalf(n: nat, p: nat)
    requires p > 0
    ensures n / (2 * p) == (n / p) / 2
  {
    var q, r := n / p, n % p;
    var e, b := q / 2, q % 2;
    assert n == q * p + r;
    assert q * p == e * (2 * p) + b * p by { assert q == 2 * e + b; assert (2 * e + b) * p == 2 * e * p + b * p; }
    assert b * p <= p by { if b == 0 { assert b * p == 0; } else { assert b == 1; } }
    QuotientIs(n, 2 * p, e, b * p + r);
  }

  /** Halving `i` times is dividing by 2^i, as the source writes it. */
  lemma {:induction false} ShrIsDiv(n: nat, i: nat)
    ensures Shr(n, i) == n / Pow2(i)
  {
    if i != 0 {
      ShrIsDiv(n, i - 1);
      DivHalf(n, Pow2(i - 1));
    }
  }

  lemma {:induction false} ShrFirst(n: nat, i: nat)
    ensures Shr(n, i + 1) == Shr(n / 2, i)
  {
    if i != 0 { ShrFirst(n, i - 1); }
  }

  lemma {:induction false} SmallQuotient(n: nat, d: nat)
    requires n < Pow2(d)
    ensures Shr(n, d) == 0
  {
    if d != 0 {
      SmallQuotient(n / 2, d - 1);
      ShrFirst(n, d - 1);
    }
  }

  lemma {:induction false} ShrOfSum(a: nat, b: nat, m: nat)
    requires b < Pow2(m)
    ensures Shr(a * Pow2(m) + b, m) == a
    decreases m
  {
    if m != 0 {
      HalveSum(a, b, Pow2(m - 1));
      ShrOfSum(a, b / 2, m - 1);
      ShrFirst(a * Pow2(m) + b, m - 1);
    }
  }

  lemma HalveSum(a: nat, b: nat, p: nat)
    ensures (a * (2 * p) + b) / 2 == a * p + b / 2 && (a * (2 * p) + b) % 2 == b % 2
  {
    assert a * (2 * p) == 2 * (a * p);
  }

  /** The low digits of a sum are those of the part below the power of two. */
  lemma {:induction false} LowDigit(a: nat, b: nat, m: nat, i: nat)
    requires i < m
    ensures Digit(a * Pow2(m) + b, i) == Digit(b, i)
    decreases m
  {
    HalveSum(a, b, Pow2(m - 1));
    if i != 0 {
      LowDigit(a, b / 2, m - 1, i - 1);
      ShrFirst(a * Pow2(m) + b, i - 1);
      ShrFirst(b, i - 1);
    }
  }

  lemma {:induction false} ShrTwice(n: nat, m: nat, i: nat)
    ensures Shr(n, m + i) == Shr(Shr(n, m), i)
  {
    if i != 0 { ShrTwice(n, m, i - 1); }
  }
}
