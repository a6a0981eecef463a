/** Powers of two and the few facts about products and remainders that need a proof. */
module Arithmetic {
  function Pow2(n: nat): (p: nat)
    ensures p > 0
  {
    if n == 0 then 1 else 2 * Pow2(n - 1)
  }

  lemma DivisionExpands(a: nat, p: nat)
    requires p > 0
    ensures a == (a / p) * p + a % p
  {
  }

  lemma Distribute(x: int, y: int, p: int)
    ensures (x + y) * p == x * p + y * p
  {
  }

  lemma BelowMultiple(v: nat, w: nat, p: nat)
    requires v <= w
    ensures v * p <= w * p
  {
    Distribute(v, w - v, p);
  }

  lemma RemainderIsUnique(a: nat, m: nat, q: nat, r: nat)
    requires m > 0 && a == q * m + r && r < m
    ensures a % m == r
  {
    DivisionExpands(a, m);
    QuotientIsUnique(a / m, a % m, q, r, m);
  }

  lemma QuotientIsUnique(q1: nat, r1: nat, q2: nat, r2: nat, m: nat)
    requires r1 < m && r2 < m && q1 * m + r1 == q2 * m + r2
    ensures r1 == r2
  {
    if q1 < q2 {
      BelowMultiple(q1 + 1, q2, m);
      Distribute(q1, 1, m);
    } else if q2 < q1 {
      BelowMultiple(q2 + 1, q1, m);
      Distribute(q2, 1, m);
    }
  }

  lemma SameFactor(x: nat, y: nat, p: nat)
    requires p > 0 && x * p == y * p
    ensures x == y
  {
    if x < y {
      BelowMultiple(x + 1, y, p);
      Distribute(x, 1, p);
    } else if y < x {
      BelowMultiple(y + 1, x, p);
      Distribute(y, 1, p);
    }
  }

  lemma PowerStep(bits: nat)
    requires bits >= 5
    ensures Pow2(bits) == 32 * Pow2(bits - 5)
  {
    assert Pow2(bits - 3) == 4 * Pow2(bits - 5);
    assert Pow2(bits - 1) == 4 * Pow2(bits - 3);
  }

  lemma EightMore(bits: nat)
    ensures Pow2(bits + 8) == 256 * Pow2(bits)
  {
    PowerStep(bits + 8);
    assert Pow2(bits + 3) == 2 * Pow2(bits + 2);
    assert Pow2(bits + 2) == 4 * Pow2(bits);
  }

  lemma SmallPowers()
    ensures Pow2(0) == 1 && Pow2(1) == 2 && Pow2(2) == 4 && Pow2(3) == 8 && Pow2(4) == 16
  {
  }

  lemma {:induction false} PowerSum(a: nat, b: nat)
    ensures Pow2(a + b) == Pow2(a) * Pow2(b)
  {
    if b == 0 {
    } else {
      PowerSum(a, b - 1);
      assert Pow2(a + b) == 2 * Pow2(a + (b - 1));
    }
  }
}
