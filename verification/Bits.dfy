/** Masking on unsigned integers, on their binary digits. */
module Bits {
  function Pow2(n: nat): (r: nat)
    ensures r >= 1
  {
    if n == 0 then 1 else 2 * Pow2(n - 1)
  }

  ghost predicate IsPow2(n: nat) {
    exists k: nat :: Pow2(k) == n
  }

  /** `a & !b`. */
  function AndNot(a: nat, b: nat): (r: nat)
    ensures r <= a
  {
    if a == 0 then 0 else 2 * AndNot(a / 2, b / 2) + if a % 2 == 1 && b % 2 == 0 then 1 else 0
  }

  /** `r` is the largest multiple of `m` not above `a`. */
  ghost predicate RoundsDown(r: nat, a: nat, m: nat) {
    r <= a < r + m && exists q: nat :: r == q * m
  }

  lemma {:induction false} AndNotZero(a: nat)
    ensures AndNot(a, 0) == a
  {
    if a != 0 {
      AndNotZero(a / 2);
    }
  }

  lemma {:induction false} MaskQuotient(a: nat, k: nat) returns (q: nat)
    ensures AndNot(a, Pow2(k) - 1) == q * Pow2(k) <= a < q * Pow2(k) + Pow2(k)
    decreases k
  {
    if k == 0 {
      AndNotZero(a);
      q := a;
    } else {
      var p := Pow2(k - 1);
      q := MaskQuotient(a / 2, k - 1);
      MaskDouble(a, p);
      DoubleMultiple(q, p);
      var half := AndNot(a / 2, p - 1);
      assert half == q * p <= a / 2 < q * p + p;
    }
  }

  lemma DoubleMultiple(q: nat, p: nat)
    ensures q * (2 * p) == 2 * (q * p)
  {
  }

  lemma MaskDouble(a: nat, p: nat)
    requires p >= 1
    ensures AndNot(a, 2 * p - 1) == 2 * AndNot(a / 2, p - 1)
  {
    assert (2 * p - 1) / 2 == p - 1 && (2 * p - 1) % 2 == 1;
  }

  /** Clearing the bits below a power of two rounds down to its multiple. */
  lemma MaskRoundsDown(a: nat, m: nat)
    requires IsPow2(m)
    ensures RoundsDown(AndNot(a, m - 1), a, m)
  {
    var k: nat :| Pow2(k) == m;
    var q := MaskQuotient(a, k);
  }

  /** A number that is not a power of two has a clear bit below its top: masking keeps that bit. */
  lemma {:induction false} ClearBit(m: nat) returns (j: nat)
    requires m > 0 && !IsPow2(m)
    ensures Pow2(j) < m && AndNot(Pow2(j), m - 1) == Pow2(j)
    decreases m
  {
    if m % 2 == 1 {
      assert Pow2(0) == 1;
      j := 0;
    } else {
      var half := m / 2;
      assert !IsPow2(half) by {
        forall k: nat ensures Pow2(k) != half {
          assert Pow2(k + 1) == 2 * Pow2(k);
        }
      }
      var i := ClearBit(half);
      j := i + 1;
      assert Pow2(j) == 2 * Pow2(i) && (m - 1) / 2 == half - 1;
    }
  }

  /** Two blocks of length `m` at `a` and `b` do not share a byte. */
  predicate Apart(a: nat, b: nat, m: nat) {
    a + m <= b || b + m <= a
  }

  /** The blocks of length `m` at the masked offsets are the same block or do not share a byte. */
  predicate SameOrApart(a: nat, b: nat, m: nat)
    requires m > 0
  {
    var p, q := AndNot(a, m - 1), AndNot(b, m - 1);
    p == q || Apart(p, q, m)
  }

  /** Blocks at masked offsets never overlap partially exactly when the block length is a power of two. */
  lemma MaskedBlocksAlign(m: nat)
    requires m > 0
    ensures IsPow2(m) <==> forall a: nat, b: nat :: SameOrApart(a, b, m)
  {
    if IsPow2(m) {
      var k: nat :| Pow2(k) == m;
      forall a: nat, b: nat ensures SameOrApart(a, b, m) {
        var p := MaskQuotient(a, k);
        var q := MaskQuotient(b, k);
        MultiplesApart(p, q, m);
      }
    } else {
      var j := ClearBit(m);
      assert AndNot(0, m - 1) == 0;
      assert !SameOrApart(0, Pow2(j), m);
    }
  }

  lemma MultiplesApart(p: nat, q: nat, m: nat)
    ensures p == q || Apart(p * m, q * m, m)
  {
    if p < q {
      NextMultiple(p, q, m);
    } else if q < p {
      NextMultiple(q, p, m);
    }
  }

  lemma {:induction false} NextMultiple(p: nat, q: nat, m: nat)
    requires p < q
    ensures p * m + m <= q * m
    decreases q
  {
    assert q * m == (q - 1) * m + m;
    if p < q - 1 {
      NextMultiple(p, q - 1, m);
    }
  }
}
