/** The constants of FIPS 180-4, sections 4.2.2 and 5.3.3: the first 32 bits of the fractional parts of
    the cube roots of the first sixty-four primes, and of the square roots of the first eight. */
module FipsConstants {
  import opened Fips180
  import opened Powers

  /** The first sixty-four primes. */
  const PRIMES: seq<int> :=
    [2, 3, 5, 7, 11, 13, 17, 19]
    + [23, 29, 31, 37, 41, 43, 47, 53]
    + [59, 61, 67, 71, 73, 79, 83, 89]
    + [97, 101, 103, 107, 109, 113, 127, 131]
    + [137, 139, 149, 151, 157, 163, 167, 173]
    + [179, 181, 191, 193, 197, 199, 211, 223]
    + [227, 229, 233, 239, 241, 251, 257, 263]
    + [269, 271, 277, 281, 283, 293, 307, 311]

  // ----- the primes -----

  predicate Divides(d: int, n: int)
    requires d > 0
  {
    n % d == 0
  }

  ghost predicate IsPrime(n: int) {
    n >= 2 && forall d :: 2 <= d < n ==> !Divides(d, n)
  }

  /** No prime up to 17 divides `n`, unless it is `n` itself. */
  predicate Sifted(n: int) {
    && (n % 2 != 0 || n == 2) && (n % 3 != 0 || n == 3) && (n % 5 != 0 || n == 5) && (n % 7 != 0 || n == 7)
    && (n % 11 != 0 || n == 11) && (n % 13 != 0 || n == 13) && (n % 17 != 0 || n == 17)
  }

  lemma DivisorOfDivisor(n: int, d: int, p: int)
    requires d > 0 && p > 0 && n % d == 0 && d % p == 0
    ensures n % p == 0
  {
    var q, r := n / d, d / p;
    assert n == q * d && d == r * p;
    assert n == (q * r) * p;
    DivUnique(n, q * r, p, 0);
  }

  /** A small number with a divisor has one of the primes up to 17 as a divisor. */
  lemma SmallDivisor(n: int, d: int)
    requires 2 <= d < n && d < 19 && Divides(d, n)
    ensures !Sifted(n)
  {
    var p := if d % 2 == 0 then 2 else if d % 3 == 0 then 3 else if d % 5 == 0 then 5 else d;
    DivisorOfDivisor(n, d, p);
  }

  lemma FactorBounds(e: int, d: int)
    requires d >= 19
    ensures (e >= 19 ==> e * d >= 361) && (e <= 1 ==> e * d <= d) && (e >= 1 ==> e * d > e)
  {
    if e >= 1 {
      assert (e - 1) * (d - 1) >= 0;
      assert (e - 19) * d == e * d - 19 * d;
    }
  }

  /** Of two factors of a number below 361, one is below 19. */
  lemma CofactorIsSmall(n: int, d: int)
    requires 2 <= d < n < 361 && Divides(d, n)
    ensures !Sifted(n)
  {
    if d < 19 {
      SmallDivisor(n, d);
    } else {
      var e := n / d;
      assert n == e * d;
      FactorBounds(e, d);
      DivUnique(n, d, e, 0);
      SmallDivisor(n, e);
    }
  }

  /** Below 361 the primes are the numbers that pass the sieve. */
  lemma SieveIsExact(n: int)
    requires 2 <= n < 361
    ensures IsPrime(n) <==> Sifted(n)
  {
    if Sifted(n) {
      forall d | 2 <= d < n ensures !Divides(d, n) {
        if Divides(d, n) {
          CofactorIsSmall(n, d);
        }
      }
    } else {
      var p := if n % 2 == 0 then 2 else if n % 3 == 0 then 3 else if n % 5 == 0 then 5 else if n % 7 == 0 then 7
               else if n % 11 == 0 then 11 else if n % 13 == 0 then 13 else 17;
      assert Divides(p, n);
    }
  }

  /** The numbers up to `n` that pass the sieve. */
  function Sieve(n: int): seq<int>
    decreases n
  {
    if n < 2 then [] else if Sifted(n) then Sieve(n - 1) + [n] else Sieve(n - 1)
  }

  lemma {:induction false} SieveHas(n: int, m: int)
    ensures m in Sieve(n) <==> 2 <= m <= n && Sifted(m)
    decreases n
  {
    if n >= 2 {
      SieveHas(n - 1, m);
    }
  }

  lemma {:induction false} SieveRises(n: int, i: nat, j: nat)
    requires i < j < |Sieve(n)|
    ensures Sieve(n)[i] < Sieve(n)[j]
    decreases n
  {
    if Sifted(n) && j == |Sieve(n)| - 1 {
      assert Sieve(n - 1)[i] in Sieve(n - 1);
      SieveHas(n - 1, Sieve(n - 1)[i]);
    } else {
      SieveRises(n - 1, i, j);
    }
  }

  /** None of `a` to `b - 1` passes the sieve. */
  predicate Clear(a: int, b: int)
    decreases b - a
  {
    a >= b || (!Sifted(a) && Clear(a + 1, b))
  }

  /** `q` is the next number after `p` that passes it. */
  predicate IsNext(p: int, q: int) {
    1 <= p < q && Sifted(q) && Clear(p + 1, q)
  }

  lemma {:induction false} SieveSkips(a: int, b: int)
    requires 2 <= a <= b && Clear(a, b)
    ensures Sieve(b - 1) == Sieve(a - 1)
    decreases b - a
  {
    if a < b {
      SieveSkips(a + 1, b);
    }
  }

  lemma SieveTo(p: int, q: int)
    requires IsNext(p, q)
    ensures Sieve(q) == Sieve(p) + [q]
  {
    SieveSkips(p + 1, q);
  }

  lemma SieveToFour(p: int, q: int, r: int, s: int, t: int)
    requires IsNext(p, q) && IsNext(q, r) && IsNext(r, s) && IsNext(s, t)
    ensures Sieve(t) == Sieve(p) + [q, r, s, t]
  {
    SieveTo(p, q);
    SieveTo(q, r);
    SieveTo(r, s);
    SieveTo(s, t);
  }

  lemma PrimesRow1()
    ensures Sieve(19) == [2, 3, 5, 7, 11, 13, 17, 19]
  {
    SieveToFour(1, 2, 3, 5, 7);
    SieveToFour(7, 11, 13, 17, 19);
  }

  lemma PrimesRow2()
    ensures Sieve(53) == Sieve(19) + [23, 29, 31, 37, 41, 43, 47, 53]
  {
    SieveToFour(19, 23, 29, 31, 37);
    SieveToFour(37, 41, 43, 47, 53);
  }

  lemma PrimesRow3()
    ensures Sieve(89) == Sieve(53) + [59, 61, 67, 71, 73, 79, 83, 89]
  {
    SieveToFour(53, 59, 61, 67, 71);
    SieveToFour(71, 73, 79, 83, 89);
  }

  lemma PrimesRow4()
    ensures Sieve(131) == Sieve(89) + [97, 101, 103, 107, 109, 113, 127, 131]
  {
    SieveToFour(89, 97, 101, 103, 107);
    SieveToFour(107, 109, 113, 127, 131);
  }

  lemma PrimesRow5()
    ensures Sieve(173) == Sieve(131) + [137, 139, 149, 151, 157, 163, 167, 173]
  {
    SieveToFour(131, 137, 139, 149, 151);
    SieveToFour(151, 157, 163, 167, 173);
  }

  lemma PrimesRow6()
    ensures Sieve(223) == Sieve(173) + [179, 181, 191, 193, 197, 199, 211, 223]
  {
    SieveToFour(173, 179, 181, 191, 193);
    SieveToFour(193, 197, 199, 211, 223);
  }

  lemma PrimesRow7()
    ensures Sieve(263) == Sieve(223) + [227, 229, 233, 239, 241, 251, 257, 263]
  {
    SieveToFour(223, 227, 229, 233, 239);
    SieveToFour(239, 241, 251, 257, 263);
  }

  lemma PrimesRow8()
    ensures Sieve(311) == Sieve(263) + [269, 271, 277, 281, 283, 293, 307, 311]
  {
    SieveToFour(263, 269, 271, 277, 281);
    SieveToFour(281, 283, 293, 307, 311);
  }

  /** The list is what the sieve leaves. */
  lemma PrimesAreSieve()
    ensures PRIMES == Sieve(311)
  {
    PrimesRow1();
    PrimesRow2();
    PrimesRow3();
    PrimesRow4();
    PrimesRow5();
    PrimesRow6();
    PrimesRow7();
    PrimesRow8();
  }

  /** Up to its last number the list holds every prime and nothing else. */
  lemma PrimesAreFirst(n: int)
    requires 2 <= n <= 311
    ensures IsPrime(n) <==> n in PRIMES
  {
    PrimesAreSieve();
    SieveIsExact(n);
    SieveHas(311, n);
  }

  /** It rises and ends there, so it is the first sixty-four primes. */
  lemma PrimesRise(i: nat, j: nat)
    requires i < j < 64
    ensures PRIMES[i] < PRIMES[j] && PRIMES[63] == 311
  {
    PrimesAreSieve();
    SieveRises(311, i, j);
  }

  // ----- the roots -----

  /** The cube root of `prime` is `whole` and then, to 32 bits, `fraction`. */
  predicate IsCubeRoot(whole: int, fraction: Word, prime: int) {
    var root := whole * TWO32 + fraction;
    root * root * root <= prime * 0x1_0000_0000_0000_0000_0000_0000 < (root + 1) * (root + 1) * (root + 1)
  }

  ghost predicate CubeRootOf(fraction: Word, prime: int) {
    exists whole :: IsCubeRoot(whole, fraction, prime)
  }

  predicate IsSquareRoot(whole: int, fraction: Word, prime: int) {
    var root := whole * TWO32 + fraction;
    root * root <= prime * 0x1_0000_0000_0000_0000 < (root + 1) * (root + 1)
  }

  lemma ConstantsRow1(t: nat)
    requires 0 <= t < 8
    ensures CubeRootOf(K[t], PRIMES[t])
  {
    assert K[0] == 0x428a2f98 && PRIMES[0] == 2 && IsCubeRoot(1, 0x428a2f98, 2);
    assert K[1] == 0x71374491 && PRIMES[1] == 3 && IsCubeRoot(1, 0x71374491, 3);
    assert K[2] == 0xb5c0fbcf && PRIMES[2] == 5 && IsCubeRoot(1, 0xb5c0fbcf, 5);
    assert K[3] == 0xe9b5dba5 && PRIMES[3] == 7 && IsCubeRoot(1, 0xe9b5dba5, 7);
    assert K[4] == 0x3956c25b && PRIMES[4] == 11 && IsCubeRoot(2, 0x3956c25b, 11);
    assert K[5] == 0x59f111f1 && PRIMES[5] == 13 && IsCubeRoot(2, 0x59f111f1, 13);
    assert K[6] == 0x923f82a4 && PRIMES[6] == 17 && IsCubeRoot(2, 0x923f82a4, 17);
    assert K[7] == 0xab1c5ed5 && PRIMES[7] == 19 && IsCubeRoot(2, 0xab1c5ed5, 19);
  }

  lemma ConstantsRow2(t: nat)
    requires 8 <= t < 16
    ensures CubeRootOf(K[t], PRIMES[t])
  {
    assert K[8] == 0xd807aa98 && PRIMES[8] == 23 && IsCubeRoot(2, 0xd807aa98, 23);
    assert K[9] == 0x12835b01 && PRIMES[9] == 29 && IsCubeRoot(3, 0x12835b01, 29);
    assert K[10] == 0x243185be && PRIMES[10] == 31 && IsCubeRoot(3, 0x243185be, 31);
    assert K[11] == 0x550c7dc3 && PRIMES[11] == 37 && IsCubeRoot(3, 0x550c7dc3, 37);
    assert K[12] == 0x72be5d74 && PRIMES[12] == 41 && IsCubeRoot(3, 0x72be5d74, 41);
    assert K[13] == 0x80deb1fe && PRIMES[13] == 43 && IsCubeRoot(3, 0x80deb1fe, 43);
    assert K[14] == 0x9bdc06a7 && PRIMES[14] == 47 && IsCubeRoot(3, 0x9bdc06a7, 47);
    assert K[15] == 0xc19bf174 && PRIMES[15] == 53 && IsCubeRoot(3, 0xc19bf174, 53);
  }

  lemma ConstantsRow3(t: nat)
    requires 16 <= t < 24
    ensures CubeRootOf(K[t], PRIMES[t])
  {
    assert K[16] == 0xe49b69c1 && PRIMES[16] == 59 && IsCubeRoot(3, 0xe49b69c1, 59);
    assert K[17] == 0xefbe4786 && PRIMES[17] == 61 && IsCubeRoot(3, 0xefbe4786, 61);
    assert K[18] == 0x0fc19dc6 && PRIMES[18] == 67 && IsCubeRoot(4, 0x0fc19dc6, 67);
    assert K[19] == 0x240ca1cc && PRIMES[19] == 71 && IsCubeRoot(4, 0x240ca1cc, 71);
    assert K[20] == 0x2de92c6f && PRIMES[20] == 73 && IsCubeRoot(4, 0x2de92c6f, 73);
    assert K[21] == 0x4a7484aa && PRIMES[21] == 79 && IsCubeRoot(4, 0x4a7484aa, 79);
    assert K[22] == 0x5cb0a9dc && PRIMES[22] == 83 && IsCubeRoot(4, 0x5cb0a9dc, 83);
    assert K[23] == 0x76f988da && PRIMES[23] == 89 && IsCubeRoot(4, 0x76f988da, 89);
  }

  lemma ConstantsRow4(t: nat)
    requires 24 <= t < 32
    ensures CubeRootOf(K[t], PRIMES[t])
  {
    assert K[24] == 0x983e5152 && PRIMES[24] == 97 && IsCubeRoot(4, 0x983e5152, 97);
    assert K[25] == 0xa831c66d && PRIMES[25] == 101 && IsCubeRoot(4, 0xa831c66d, 101);
    assert K[26] == 0xb00327c8 && PRIMES[26] == 103 && IsCubeRoot(4, 0xb00327c8, 103);
    assert K[27] == 0xbf597fc7 && PRIMES[27] == 107 && IsCubeRoot(4, 0xbf597fc7, 107);
    assert K[28] == 0xc6e00bf3 && PRIMES[28] == 109 && IsCubeRoot(4, 0xc6e00bf3, 109);
    assert K[29] == 0xd5a79147 && PRIMES[29] == 113 && IsCubeRoot(4, 0xd5a79147, 113);
    assert K[30] == 0x06ca6351 && PRIMES[30] == 127 && IsCubeRoot(5, 0x06ca6351, 127);
    assert K[31] == 0x14292967 && PRIMES[31] == 131 && IsCubeRoot(5, 0x14292967, 131);
  }

  lemma ConstantsRow5(t: nat)
    requires 32 <= t < 40
    ensures CubeRootOf(K[t], PRIMES[t])
  {
    assert K[32] == 0x27b70a85 && PRIMES[32] == 137 && IsCubeRoot(5, 0x27b70a85, 137);
    assert K[33] == 0x2e1b2138 && PRIMES[33] == 139 && IsCubeRoot(5, 0x2e1b2138, 139);
    assert K[34] == 0x4d2c6dfc && PRIMES[34] == 149 && IsCubeRoot(5, 0x4d2c6dfc, 149);
    assert K[35] == 0x53380d13 && PRIMES[35] == 151 && IsCubeRoot(5, 0x53380d13, 151);
    assert K[36] == 0x650a7354 && PRIMES[36] == 157 && IsCubeRoot(5, 0x650a7354, 157);
    assert K[37] == 0x766a0abb && PRIMES[37] == 163 && IsCubeRoot(5, 0x766a0abb, 163);
    assert K[38] == 0x81c2c92e && PRIMES[38] == 167 && IsCubeRoot(5, 0x81c2c92e, 167);
    assert K[39] == 0x92722c85 && PRIMES[39] == 173 && IsCubeRoot(5, 0x92722c85, 173);
  }

  lemma ConstantsRow6(t: nat)
    requires 40 <= t < 48
    ensures CubeRootOf(K[t], PRIMES[t])
  {
    assert K[40] == 0xa2bfe8a1 && PRIMES[40] == 179 && IsCubeRoot(5, 0xa2bfe8a1, 179);
    assert K[41] == 0xa81a664b && PRIMES[41] == 181 && IsCubeRoot(5, 0xa81a664b, 181);
    assert K[42] == 0xc24b8b70 && PRIMES[42] == 191 && IsCubeRoot(5, 0xc24b8b70, 191);
    assert K[43] == 0xc76c51a3 && PRIMES[43] == 193 && IsCubeRoot(5, 0xc76c51a3, 193);
    assert K[44] == 0xd192e819 && PRIMES[44] == 197 && IsCubeRoot(5, 0xd192e819, 197);
    assert K[45] == 0xd6990624 && PRIMES[45] == 199 && IsCubeRoot(5, 0xd6990624, 199);
    assert K[46] == 0xf40e3585 && PRIMES[46] == 211 && IsCubeRoot(5, 0xf40e3585, 211);
    assert K[47] == 0x106aa070 && PRIMES[47] == 223 && IsCubeRoot(6, 0x106aa070, 223);
  }

  lemma ConstantsRow7(t: nat)
    requires 48 <= t < 56
    ensures CubeRootOf(K[t], PRIMES[t])
  {
    assert K[48] == 0x19a4c116 && PRIMES[48] == 227 && IsCubeRoot(6, 0x19a4c116, 227);
    assert K[49] == 0x1e376c08 && PRIMES[49] == 229 && IsCubeRoot(6, 0x1e376c08, 229);
    assert K[50] == 0x2748774c && PRIMES[50] == 233 && IsCubeRoot(6, 0x2748774c, 233);
    assert K[51] == 0x34b0bcb5 && PRIMES[51] == 239 && IsCubeRoot(6, 0x34b0bcb5, 239);
    assert K[52] == 0x391c0cb3 && PRIMES[52] == 241 && IsCubeRoot(6, 0x391c0cb3, 241);
    assert K[53] == 0x4ed8aa4a && PRIMES[53] == 251 && IsCubeRoot(6, 0x4ed8aa4a, 251);
    assert K[54] == 0x5b9cca4f && PRIMES[54] == 257 && IsCubeRoot(6, 0x5b9cca4f, 257);
    assert K[55] == 0x682e6ff3 && PRIMES[55] == 263 && IsCubeRoot(6, 0x682e6ff3, 263);
  }

  lemma ConstantsRow8(t: nat)
    requires 56 <= t < 64
    ensures CubeRootOf(K[t], PRIMES[t])
  {
    assert K[56] == 0x748f82ee && PRIMES[56] == 269 && IsCubeRoot(6, 0x748f82ee, 269);
    assert K[57] == 0x78a5636f && PRIMES[57] == 271 && IsCubeRoot(6, 0x78a5636f, 271);
    assert K[58] == 0x84c87814 && PRIMES[58] == 277 && IsCubeRoot(6, 0x84c87814, 277);
    assert K[59] == 0x8cc70208 && PRIMES[59] == 281 && IsCubeRoot(6, 0x8cc70208, 281);
    assert K[60] == 0x90befffa && PRIMES[60] == 283 && IsCubeRoot(6, 0x90befffa, 283);
    assert K[61] == 0xa4506ceb && PRIMES[61] == 293 && IsCubeRoot(6, 0xa4506ceb, 293);
    assert K[62] == 0xbef9a3f7 && PRIMES[62] == 307 && IsCubeRoot(6, 0xbef9a3f7, 307);
    assert K[63] == 0xc67178f2 && PRIMES[63] == 311 && IsCubeRoot(6, 0xc67178f2, 311);
  }

  /** Every constant of the compression loop is what the standard says it is. */
  lemma RoundConstants(t: nat)
    requires t < 64
    ensures CubeRootOf(K[t], PRIMES[t])
  {
    if t < 8 {
      ConstantsRow1(t);
    } else if t < 16 {
      ConstantsRow2(t);
    } else if t < 24 {
      ConstantsRow3(t);
    } else if t < 32 {
      ConstantsRow4(t);
    } else if t < 40 {
      ConstantsRow5(t);
    } else if t < 48 {
      ConstantsRow6(t);
    } else if t < 56 {
      ConstantsRow7(t);
    } else if t < 64 {
      ConstantsRow8(t);
    }
  }

  /** And so is every word of the initial hash value. */
  lemma InitialValue()
    ensures IsSquareRoot(1, INITIAL.a, 2)
    ensures IsSquareRoot(1, INITIAL.b, 3)
    ensures IsSquareRoot(2, INITIAL.c, 5)
    ensures IsSquareRoot(2, INITIAL.d, 7)
    ensures IsSquareRoot(3, INITIAL.e, 11)
    ensures IsSquareRoot(3, INITIAL.f, 13)
    ensures IsSquareRoot(4, INITIAL.g, 17)
    ensures IsSquareRoot(4, INITIAL.h, 19)
  {
  }
}
