/** Rounding a 64-bit count up to a power of two by smearing its highest bit over all
    the bits below it. */
module NextPower {
  import opened Common
  import opened Merkle
  import opened MerkleFlat
  import opened Digits

  /** Bitwise or. */
  function Or(x: nat, y: nat): nat {
    if x == 0 then y else if y == 0 then x
    else 2 * Or(x / 2, y / 2) + if x % 2 == 1 || y % 2 == 1 then 1 else 0
  }

  lemma OrHalves(x: nat, y: nat)
    ensures Or(x, y) / 2 == Or(x / 2, y / 2)
    ensures Or(x, y) % 2 == if x % 2 == 1 || y % 2 == 1 then 1 else 0
  {
  }

  lemma {:induction false} OrDigit(x: nat, y: nat, i: nat)
    ensures Digit(Or(x, y), i) == if Digit(x, i) == 1 || Digit(y, i) == 1 then 1 else 0
    decreases i
  {
    OrHalves(x, y);
    if i != 0 {
      OrDigit(x / 2, y / 2, i - 1);
      ShrFirst(Or(x, y), i - 1);
      ShrFirst(x, i - 1);
      ShrFirst(y, i - 1);
    }
  }

  /** A number of `w` digits whose `t` highest, or all, are ones. */
  ghost predicate Smeared(m: nat, w: nat, t: nat) {
    && (forall i: nat :: i >= w ==> Digit(m, i) == 0)
    && (forall i: nat :: i < w && w <= i + t ==> Digit(m, i) == 1)
  }

  /** Or-ing in a copy shifted by `t` doubles the run of ones. */
  lemma SmearDoubles(m: nat, w: nat, t: nat)
    requires Smeared(m, w, t)
    ensures Smeared(Or(m, Shr(m, t)), w, 2 * t)
  {
    forall i: nat ensures var d := Digit(Or(m, Shr(m, t)), i);
                          (i >= w ==> d == 0) && (i < w && w <= i + 2 * t ==> d == 1) {
      OrDigit(m, Shr(m, t), i);
      ShrTwice(m, t, i);
      assert Digit(Shr(m, t), i) == Digit(m, t + i);
    }
  }

  /** A number below 2^w that reaches half of it has its highest digit there. */
  lemma TopDigit(m: nat, w: nat)
    requires m < Pow2(w) && (w > 0 ==> Pow2(w - 1) <= m)
    ensures Smeared(m, w, 1)
  {
    SmallQuotient(m, w);
    forall i: nat | i >= w ensures Digit(m, i) == 0 {
      ShrTwice(m, w, i - w);
      ShrOfZero(i - w);
    }
    if w > 0 {
      ShrIsDiv(m, w - 1);
      QuotientIs(m, Pow2(w - 1), 1, m - Pow2(w - 1));
    }
  }

  lemma {:induction false} ShrOfZero(i: nat)
    ensures Shr(0, i) == 0
  {
    if i != 0 { ShrOfZero(i - 1); }
  }

  lemma {:induction false} AllOnes(m: nat, w: nat, t: nat)
    requires Smeared(m, w, t) && w <= t && Shr(m, w) == 0
    ensures m == Pow2(w) - 1
    decreases w
  {
    if w != 0 {
      assert Digit(m, 0) == 1;
      forall i: nat ensures Digit(m / 2, i) == Digit(m, i + 1) { ShrFirst(m, i); }
      ShrFirst(m, w - 1);
      AllOnes(m / 2, w - 1, t);
    }
  }

  /** With no digit from `w` on, nothing is left after `w` halvings. */
  lemma {:induction false} NoDigitsLeft(m: nat, w: nat)
    requires forall i: nat :: i >= w ==> Digit(m, i) == 0
    ensures Shr(m, w) == 0
    decreases m
  {
    if m != 0 {
      assert Digit(m, w) == 0;
      forall i: nat | i >= w ensures Digit(m / 2, i) == 0 {
        ShrFirst(m, i);
        assert Digit(m, i + 1) == 0;
      }
      NoDigitsLeft(m / 2, w);
      ShrFirst(m, w);
    } else {
      ShrOfZero(w);
    }
  }

  lemma {:induction false} Pow2Sum(a: nat, b: nat)
    ensures Pow2(a + b) == Pow2(a) * Pow2(b)
  {
    if b != 0 { Pow2Sum(a, b - 1); }
  }

  lemma Widths()
    ensures Pow2(64) == TWO_64 && Pow2(63) == TWO_63
  {
    assert Pow2(4) == 16;
    Pow2Sum(4, 4);
    Pow2Sum(8, 8);
    Pow2Sum(16, 16);
    Pow2Sum(32, 32);
  }

  lemma CeilDepthWidth(n: uint64)
    requires n > 0
    ensures var w := CeilDepth(n);
            n - 1 < Pow2(w) && (w > 0 ==> Pow2(w - 1) <= n - 1) && w <= 64 && (w == 64 <==> n > TWO_63)
  {
    var w := CeilDepth(n);
    CeilDepthHolds(n);
    Widths();
    if w > 64 { Pow2Grows(64, w); }
    if w < 63 { Pow2Grows(w, 63); }
  }

  const TWO_63: nat := 0x8000_0000_0000_0000

  /** The least power of two that is no less than `n`; past 2^63 the last increment
      wraps and the result is zero. */
  method NextPowerOfTwo(n: uint64) returns (r: uint64)
    ensures n > TWO_63 <==> r == 0
    ensures n <= TWO_63 ==> r == Pow2(CeilDepth(n)) && n <= r && forall e: nat :: n <= Pow2(e) ==> r <= Pow2(e)
  {
    if n == 0 {
      return 1;
    }
    ghost var w := CeilDepth(n);
    CeilDepthWidth(n);
    var m: nat := n - 1;
    TopDigit(m, w);
    SmearDoubles(m, w, 1);
    m := Or(m, Shr(m, 1));
    SmearDoubles(m, w, 2);
    m := Or(m, Shr(m, 2));
    SmearDoubles(m, w, 4);
    m := Or(m, Shr(m, 4));
    SmearDoubles(m, w, 8);
    m := Or(m, Shr(m, 8));
    SmearDoubles(m, w, 16);
    m := Or(m, Shr(m, 16));
    SmearDoubles(m, w, 32);
    m := Or(m, Shr(m, 32));
    NoDigitsLeft(m, w);
    AllOnes(m, w, 64);
    LeastPower(n, w);
    r := Add64(m, 1);
  }

  lemma LeastPower(n: uint64, w: nat)
    requires n > 0 && w == CeilDepth(n) && w <= 64
    ensures Pow2(w) <= TWO_64 && (w == 64 <==> Pow2(w) == TWO_64)
    ensures forall e: nat :: n <= Pow2(e) ==> Pow2(w) <= Pow2(e)
  {
    CeilDepthHolds(n);
    Widths();
    if w < 64 { Pow2Grows(w, 64); }
    forall e: nat | n <= Pow2(e) ensures Pow2(w) <= Pow2(e) {
      if e < w { Pow2Grows(e, w); } else if w < e { Pow2Grows(w, e); }
    }
  }
}
