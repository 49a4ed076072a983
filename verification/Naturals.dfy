/** Products and remainders of natural numbers. The product is a function of its own, so that a proof can hide it. */
module Naturals {

  function Mul(p: nat, n: nat): nat {
    p * n
  }

  lemma MulSteps(p: nat, j: nat, k: nat)
    requires j < k
    ensures Mul(p, j) + p <= Mul(p, k) && Mul(p, j + 1) == Mul(p, j) + p
  {
    assert p * k == p * (j + 1) + p * (k - j - 1);
  }

  lemma MulOrder(a: nat, b: nat, c: nat, d: nat)
    requires a <= c && b <= d
    ensures Mul(a, b) <= Mul(c, d)
  {
    assert c * d == a * b + a * (d - b) + (c - a) * d;
  }

  lemma DivMod(a: nat, b: nat)
    requires b > 0
    ensures a == Mul(b, a / b) + a % b && a % b < b
    ensures b <= a ==> a / b > 0
  {
  }

  lemma ModUnique(a: nat, b: nat, q: nat, r: nat)
    requires a == Mul(b, q) + r && r < b
    ensures a / b == q && a % b == r
  {
    DivMod(a, b);
    hide Mul;
    if q < a / b {
      MulSteps(b, q, a / b);
    } else if a / b < q {
      MulSteps(b, a / b, q);
    }
  }

  /** Whole parts do not change the remainder. */
  lemma ModAbsorbs(p: nat, n: nat, r: nat)
    requires p > 0
    ensures (Mul(p, n) + r) % p == r % p
  {
    DivMod(r, p);
    assert Mul(p, n) + Mul(p, r / p) == Mul(p, n + r / p);
    ModUnique(Mul(p, n) + r, p, n + r / p, r % p);
  }

  lemma MulAssoc(a: nat, b: nat, c: nat)
    ensures Mul(a, Mul(b, c)) == Mul(Mul(a, b), c) && Mul(a, b) == Mul(b, a)
  {
  }

  lemma MulAdd(a: nat, b: nat, c: nat)
    ensures Mul(a + b, c) == Mul(a, c) + Mul(b, c)
  {
  }

  lemma MulIsZero(n: nat, size: nat)
    ensures Mul(n, size) == 0 <==> n == 0 || size == 0
  {
    if n > 0 && size > 0 {
      assert n * size >= n;
    }
  }

  /** An int that is compared with an unsigned 64-bit number. */
  function AsUnsigned64(x: int): int {
    if x < 0 then x + 0x1_0000_0000_0000_0000 else x
  }
}
