/** Powers of two, and division by them. */
module Powers {

  function Pow2(n: nat): (power: nat)
    ensures power > 0
  {
    if n == 0 then 1 else 2 * Pow2(n - 1)
  }

  lemma {:induction false} Pow2Adds(m: nat, n: nat)
    ensures Pow2(m + n) == Pow2(m) * Pow2(n)
  {
    if m > 0 {
      Pow2Adds(m - 1, n);
      assert Pow2(m) * Pow2(n) == 2 * (Pow2(m - 1) * Pow2(n));
    }
  }

  lemma Pow2Of32()
    ensures Pow2(32) == 0x1_0000_0000
  {
    assert Pow2(8) == 256;
    assert Pow2(16) == 0x1_0000;
    assert Pow2(24) == 0x100_0000;
  }

  lemma MultiplesAreFarApart(k: int, q: int)
    requires q > 0
    ensures (k >= 1 ==> k * q >= q) && (k <= -1 ==> k * q <= -q)
  {
    if k >= 1 {
      assert (k - 1) * q >= 0;
    } else if k <= -1 {
      assert (-k - 1) * q >= 0;
    }
  }

  lemma DivUnique(x: int, d: int, q: int, r: int)
    requires x == d * q + r && 0 <= r < q
    ensures x / q == d && x % q == r
  {
    assert (d - x / q) * q == x % q - r;
    MultiplesAreFarApart(d - x / q, q);
  }

  lemma DivPlus(k: int, x: int, q: int)
    requires q > 0
    ensures (k * q + x) / q == k + x / q
  {
    assert (k + x / q) * q == k * q + x / q * q;
    DivUnique(k * q + x, k + x / q, q, x % q);
  }

  /** The multiple of `q` at or below `x`. */
  function Floor(x: nat, q: nat): (f: nat)
    requires q > 0
    ensures f <= x && f / q == x / q
  {
    DivUnique(x - x % q, x / q, q, 0);
    x - x % q
  }

  lemma SameFloor(x: nat, y: nat, q: nat)
    requires q > 0
    ensures Floor(x, q) == Floor(y, q) <==> x / q == y / q
  {
    assert x == x / q * q + x % q && y == y / q * q + y % q;
  }

  /** One more than `x` has the same quotient, or is the next multiple. */
  lemma NextQuotient(x: nat, q: nat)
    requires q > 0
    ensures (x + 1) / q == x / q || x + 1 == Floor(x, q) + q
  {
    if x % q + 1 < q {
      assert x + 1 == x / q * q + (x % q + 1);
      DivUnique(x + 1, x / q, q, x % q + 1);
    }
  }
}
