/** SHA-256 as FIPS 180-4 defines it: sections 4.1.2, 4.2.2, 5.1.1, 5.2.1, 5.3.3 and 6.2. */
module Fips180 {
  import opened Powers

  const TWO32: int := 0x1_0000_0000

  type Word = x: int | 0 <= x < TWO32

  type Byte = x: int | 0 <= x < 256

  // ----- operations on words (section 3.2) -----

  datatype Gate = AndGate | OrGate | XorGate

  function Bit(gate: Gate, x: int, y: int): int {
    match gate
    case AndGate => if x == 1 && y == 1 then 1 else 0
    case OrGate => if x == 1 || y == 1 then 1 else 0
    case XorGate => if x == y then 0 else 1
  }

  /** The gate applied to the bits of both numbers. */
  function Bitwise(gate: Gate, x: nat, y: nat): nat
    decreases x + y
  {
    if x == 0 && y == 0 then 0 else 2 * Bitwise(gate, x / 2, y / 2) + Bit(gate, x % 2, y % 2)
  }

  lemma {:induction false} BitwiseFits(gate: Gate, x: nat, y: nat, n: nat)
    requires x < Pow2(n) && y < Pow2(n)
    ensures Bitwise(gate, x, y) < Pow2(n)
    decreases n
  {
    if n > 0 {
      BitwiseFits(gate, x / 2, y / 2, n - 1);
    }
  }

  function Gated(gate: Gate, x: Word, y: Word): Word {
    Pow2Of32();
    BitwiseFits(gate, x, y, 32);
    Bitwise(gate, x, y)
  }

  function And(x: Word, y: Word): Word { Gated(AndGate, x, y) }

  function Or(x: Word, y: Word): Word { Gated(OrGate, x, y) }

  function Xor(x: Word, y: Word): Word { Gated(XorGate, x, y) }

  function Not(x: Word): Word { TWO32 - 1 - x }

  function Shr(x: Word, n: nat): Word
    decreases x
  {
    if n == 0 || x == 0 then x else Shr(x / 2, n - 1)
  }

  function Shl(x: Word, n: nat): Word {
    x * Pow2(n) % TWO32
  }

  function RotR(x: Word, n: nat): Word
    requires 0 < n < 32
  {
    Or(Shr(x, n), Shl(x, 32 - n))
  }

  function Sum(x: Word, y: Word): Word { (x + y) % TWO32 }

  // ----- functions (section 4.1.2) -----

  function Ch(x: Word, y: Word, z: Word): Word { Xor(And(x, y), And(Not(x), z)) }

  function Maj(x: Word, y: Word, z: Word): Word { Xor(Xor(And(x, y), And(x, z)), And(y, z)) }

  function BigSigma0(x: Word): Word { Xor(Xor(RotR(x, 2), RotR(x, 13)), RotR(x, 22)) }

  function BigSigma1(x: Word): Word { Xor(Xor(RotR(x, 6), RotR(x, 11)), RotR(x, 25)) }

  function SmallSigma0(x: Word): Word { Xor(Xor(RotR(x, 7), RotR(x, 18)), Shr(x, 3)) }

  function SmallSigma1(x: Word): Word { Xor(Xor(RotR(x, 17), RotR(x, 19)), Shr(x, 10)) }

  // ----- constants (sections 4.2.2 and 5.3.3) -----

  const K: seq<Word> :=
    [0x428a2f98, 0x71374491, 0xb5c0fbcf, 0xe9b5dba5, 0x3956c25b, 0x59f111f1, 0x923f82a4, 0xab1c5ed5]
    + [0xd807aa98, 0x12835b01, 0x243185be, 0x550c7dc3, 0x72be5d74, 0x80deb1fe, 0x9bdc06a7, 0xc19bf174]
    + [0xe49b69c1, 0xefbe4786, 0x0fc19dc6, 0x240ca1cc, 0x2de92c6f, 0x4a7484aa, 0x5cb0a9dc, 0x76f988da]
    + [0x983e5152, 0xa831c66d, 0xb00327c8, 0xbf597fc7, 0xc6e00bf3, 0xd5a79147, 0x06ca6351, 0x14292967]
    + [0x27b70a85, 0x2e1b2138, 0x4d2c6dfc, 0x53380d13, 0x650a7354, 0x766a0abb, 0x81c2c92e, 0x92722c85]
    + [0xa2bfe8a1, 0xa81a664b, 0xc24b8b70, 0xc76c51a3, 0xd192e819, 0xd6990624, 0xf40e3585, 0x106aa070]
    + [0x19a4c116, 0x1e376c08, 0x2748774c, 0x34b0bcb5, 0x391c0cb3, 0x4ed8aa4a, 0x5b9cca4f, 0x682e6ff3]
    + [0x748f82ee, 0x78a5636f, 0x84c87814, 0x8cc70208, 0x90befffa, 0xa4506ceb, 0xbef9a3f7, 0xc67178f2]

  datatype Registers = Registers(a: Word, b: Word, c: Word, d: Word, e: Word, f: Word, g: Word, h: Word)

  const INITIAL := Registers(0x6a09e667, 0xbb67ae85, 0x3c6ef372, 0xa54ff53a, 0x510e527f, 0x9b05688c, 0x1f83d9ab,
    0x5be0cd19)

  // ----- padding and parsing (sections 5.1.1 and 5.2.1) -----

  function Zeros(n: nat): seq<Byte> { seq(n, i => 0) }

  /** The number of zero bytes that follow the 0x80 byte: the smallest that leaves eight bytes of the
      last block for the length. */
  function ZeroBytes(length: nat): nat {
    (119 - length % 64) % 64
  }

  /** In bits, as the standard puts it: after the message, a 1 bit and k 0 bits the length is 448
      modulo 512, and k is the smallest count for which it is. */
  lemma ZeroBytesAreSmallest(length: nat, k: nat)
    ensures (8 * length + 1 + (7 + 8 * ZeroBytes(length))) % 512 == 448
    ensures (8 * length + 1 + k) % 512 == 448 ==> 7 + 8 * ZeroBytes(length) <= k
  {
    var blocks, rest := length / 64, length % 64;
    assert 8 * length + 1 + k == 512 * blocks + (8 * rest + 1 + k);
    assert (8 * length + 1 + k) % 512 == (8 * rest + 1 + k) % 512;
    assert (8 * length + 8 + 8 * ZeroBytes(length)) % 512 == (8 * rest + 8 + 8 * ZeroBytes(length)) % 512;
  }

  /** `n` bytes, most significant first. */
  function BigEndian(value: nat, n: nat): (bytes: seq<Byte>)
    ensures |bytes| == n
  {
    if n == 0 then [] else BigEndian(value / 256, n - 1) + [value % 256]
  }

  function Pad(message: seq<Byte>): seq<Byte> {
    message + [0x80] + Zeros(ZeroBytes(|message|)) + BigEndian(8 * |message|, 8)
  }

  function WordAt(bytes: seq<Byte>, i: nat): Word
    requires i + 4 <= |bytes|
  {
    0x100_0000 * (bytes[i] as int) + 0x1_0000 * (bytes[i + 1] as int) + 0x100 * (bytes[i + 2] as int)
      + bytes[i + 3] as int
  }

  // ----- the hash (section 6.2.2) -----

  /** The next word of the schedule, from those 2, 7, 15 and 16 places before it. */
  function Extend(w2: Word, w7: Word, w15: Word, w16: Word): Word {
    (SmallSigma1(w2) + w7 + SmallSigma0(w15) + w16) % TWO32
  }

  function Schedule(bytes: seq<Byte>, start: nat, t: nat): Word
    requires start + 64 <= |bytes| && t < 64
  {
    if t < 16 then WordAt(bytes, start + 4 * t)
    else
      Extend(Schedule(bytes, start, t - 2), Schedule(bytes, start, t - 7), Schedule(bytes, start, t - 15),
        Schedule(bytes, start, t - 16))
  }

  function T1(r: Registers, k: Word, w: Word): Word {
    (r.h + BigSigma1(r.e) + Ch(r.e, r.f, r.g) + k + w) % TWO32
  }

  function T2(r: Registers): Word {
    (BigSigma0(r.a) + Maj(r.a, r.b, r.c)) % TWO32
  }

  function Round(r: Registers, k: Word, w: Word): Registers {
    Registers(Sum(T1(r, k, w), T2(r)), r.a, r.b, r.c, Sum(r.d, T1(r, k, w)), r.e, r.f, r.g)
  }

  function Rounds(r: Registers, bytes: seq<Byte>, start: nat, t: nat): Registers
    requires start + 64 <= |bytes| && t <= 64
  {
    if t == 0 then r else Round(Rounds(r, bytes, start, t - 1), K[t - 1], Schedule(bytes, start, t - 1))
  }

  function Plus(x: Registers, y: Registers): Registers {
    Registers(Sum(x.a, y.a), Sum(x.b, y.b), Sum(x.c, y.c), Sum(x.d, y.d), Sum(x.e, y.e), Sum(x.f, y.f), Sum(x.g, y.g),
      Sum(x.h, y.h))
  }

  function AfterBlock(r: Registers, bytes: seq<Byte>, start: nat): Registers
    requires start + 64 <= |bytes|
  {
    Plus(r, Rounds(r, bytes, start, 64))
  }

  function Blocks(bytes: seq<Byte>, n: nat): Registers
    requires 64 * n <= |bytes|
  {
    if n == 0 then INITIAL else AfterBlock(Blocks(bytes, n - 1), bytes, 64 * (n - 1))
  }

  lemma ZeroBytesFill(length: nat)
    ensures length + 9 + ZeroBytes(length) == (length + 72) / 64 * 64
  {
    var blocks, rest := length / 64, length % 64;
    assert (length + 72) / 64 == blocks + (rest + 72) / 64;
  }

  lemma PadFillsBlocks(message: seq<Byte>)
    ensures |Pad(message)| % 64 == 0
    ensures |Pad(message)| / 64 == (|message| + 72) / 64
  {
    ZeroBytesFill(|message|);
    assert |Pad(message)| == |message| + 9 + ZeroBytes(|message|);
  }

  function Digest(message: seq<Byte>): Registers {
    PadFillsBlocks(message);
    Blocks(Pad(message), |Pad(message)| / 64)
  }

  // ----- as lower-case hexadecimal -----

  function Digit(d: nat): char
    requires d < 16
  {
    if d < 10 then '0' + (d as char) else 'a' + ((d - 10) as char)
  }

  function Hex(value: nat, n: nat): (text: string)
    ensures |text| == n
  {
    if n == 0 then "" else Hex(value / 16, n - 1) + [Digit(value % 16)]
  }

  function HexDigest(message: seq<Byte>): string {
    var d := Digest(message);
    Hex(d.a, 8) + Hex(d.b, 8) + Hex(d.c, 8) + Hex(d.d, 8) + Hex(d.e, 8) + Hex(d.f, 8) + Hex(d.g, 8) + Hex(d.h, 8)
  }
}
