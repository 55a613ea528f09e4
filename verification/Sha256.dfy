/** SHA-256 as the CAPTCHA page computes it (web/src/components/sha256.ts): JavaScript numbers,
    signed and unsigned 32-bit forms mixed, one shared message schedule, one padded buffer. */
module Sha256 {
  import opened Fips180

  // ----- JavaScript numbers -----

  const SAFE: int := 0x20_0000_0000_0000

  /** A sum JavaScript computes without rounding. */
  predicate Exact(x: int) { -SAFE < x < SAFE }

  /** ToUint32. */
  function Unsigned(x: int): Word { x % TWO32 }

  /** ToInt32 of a word. */
  function Signed(w: Word): int {
    if w >= 0x8000_0000 then w - TWO32 else w
  }

  /** `x + y`, which must be exact. */
  function Plus2(x: int, y: int): int
    requires Exact(x) && Exact(y) && Exact(x + y)
  {
    x + y
  }

  /** `x | 0`. */
  function Int32(x: int): int { Signed(Unsigned(x)) }

  function BitAnd(x: int, y: int): int { Signed(And(Unsigned(x), Unsigned(y))) }

  function BitOr(x: int, y: int): int { Signed(Or(Unsigned(x), Unsigned(y))) }

  function BitXor(x: int, y: int): int { Signed(Xor(Unsigned(x), Unsigned(y))) }

  function BitNot(x: int): int { Signed(Not(Unsigned(x))) }

  /** `x >>> n`. */
  function ShiftRight(x: int, n: nat): int { Shr(Unsigned(x), n) }

  /** `x << n`. */
  function ShiftLeft(x: int, n: nat): int { Signed(Shl(Unsigned(x), n)) }

  /** The number `x`, signed or unsigned, stands for the word `w`. */
  predicate Means(x: int, w: Word) { x == w || x == w - TWO32 }

  lemma MeansItsWord(x: int, w: Word)
    requires Means(x, w)
    ensures Unsigned(x) == w
  {
  }

  lemma SignedMeans(w: Word)
    ensures Means(Signed(w), w) && Means(w, w)
  {
  }

  function Rotate(x: int, n: nat): int
    requires 0 < n < 32
  {
    BitOr(ShiftRight(x, n), ShiftLeft(x, 32 - n))
  }

  lemma OrMeans(x: int, y: int, u: Word, v: Word)
    requires Means(x, u) && Means(y, v)
    ensures Means(BitOr(x, y), Or(u, v))
  {
    MeansItsWord(x, u);
    MeansItsWord(y, v);
    SignedMeans(Or(u, v));
  }

  lemma XorMeans(x: int, y: int, u: Word, v: Word)
    requires Means(x, u) && Means(y, v)
    ensures Means(BitXor(x, y), Xor(u, v))
  {
    MeansItsWord(x, u);
    MeansItsWord(y, v);
    SignedMeans(Xor(u, v));
  }

  lemma AndMeans(x: int, y: int, u: Word, v: Word)
    requires Means(x, u) && Means(y, v)
    ensures Means(BitAnd(x, y), And(u, v))
  {
    MeansItsWord(x, u);
    MeansItsWord(y, v);
    SignedMeans(And(u, v));
  }

  lemma NotMeans(x: int, u: Word)
    requires Means(x, u)
    ensures Means(BitNot(x), Not(u))
  {
    MeansItsWord(x, u);
    SignedMeans(Not(u));
  }

  lemma ShiftsMean(x: int, u: Word, n: nat)
    requires Means(x, u)
    ensures Means(ShiftRight(x, n), Shr(u, n)) && Means(ShiftLeft(x, n), Shl(u, n))
  {
    MeansItsWord(x, u);
    SignedMeans(Shr(u, n));
    SignedMeans(Shl(u, n));
  }

  lemma RotateMeans(x: int, u: Word, n: nat)
    requires Means(x, u) && 0 < n < 32
    ensures Means(Rotate(x, n), RotR(u, n))
  {
    ShiftsMean(x, u, n);
    ShiftsMean(x, u, 32 - n);
    OrMeans(ShiftRight(x, n), ShiftLeft(x, 32 - n), Shr(u, n), Shl(u, 32 - n));
  }

  lemma Xor3Means(x: int, y: int, z: int, u: Word, v: Word, w: Word)
    requires Means(x, u) && Means(y, v) && Means(z, w)
    ensures Means(BitXor(BitXor(x, y), z), Xor(Xor(u, v), w))
  {
    XorMeans(x, y, u, v);
    XorMeans(BitXor(x, y), z, Xor(u, v), w);
  }

  // ----- the round functions as written -----

  function S0(a: int): int { BitXor(BitXor(Rotate(a, 2), Rotate(a, 13)), Rotate(a, 22)) }

  function S1(e: int): int { BitXor(BitXor(Rotate(e, 6), Rotate(e, 11)), Rotate(e, 25)) }

  function LittleS0(x: int): int { BitXor(BitXor(Rotate(x, 7), Rotate(x, 18)), ShiftRight(x, 3)) }

  function LittleS1(y: int): int { BitXor(BitXor(Rotate(y, 17), Rotate(y, 19)), ShiftRight(y, 10)) }

  function Choose(e: int, f: int, g: int): int { BitXor(BitAnd(e, f), BitAnd(BitNot(e), g)) }

  function Majority(a: int, b: int, c: int): int { BitXor(BitXor(BitAnd(a, b), BitAnd(a, c)), BitAnd(b, c)) }

  lemma RotationsMean(x: int, u: Word, i: nat, j: nat, k: nat)
    requires Means(x, u) && 0 < i < 32 && 0 < j < 32 && 0 < k < 32
    ensures Means(BitXor(BitXor(Rotate(x, i), Rotate(x, j)), Rotate(x, k)),
      Xor(Xor(RotR(u, i), RotR(u, j)), RotR(u, k)))
    ensures Means(BitXor(BitXor(Rotate(x, i), Rotate(x, j)), ShiftRight(x, k)),
      Xor(Xor(RotR(u, i), RotR(u, j)), Shr(u, k)))
  {
    RotateMeans(x, u, i);
    RotateMeans(x, u, j);
    RotateMeans(x, u, k);
    ShiftsMean(x, u, k);
    Xor3Means(Rotate(x, i), Rotate(x, j), Rotate(x, k), RotR(u, i), RotR(u, j), RotR(u, k));
    Xor3Means(Rotate(x, i), Rotate(x, j), ShiftRight(x, k), RotR(u, i), RotR(u, j), Shr(u, k));
  }

  lemma S0Means(x: int, u: Word)
    requires Means(x, u)
    ensures Means(S0(x), BigSigma0(u))
  {
    RotationsMean(x, u, 2, 13, 22);
  }

  lemma S1Means(x: int, u: Word)
    requires Means(x, u)
    ensures Means(S1(x), BigSigma1(u))
  {
    RotationsMean(x, u, 6, 11, 25);
  }

  lemma LittleS0Means(x: int, u: Word)
    requires Means(x, u)
    ensures Means(LittleS0(x), SmallSigma0(u))
  {
    RotationsMean(x, u, 7, 18, 3);
  }

  lemma LittleS1Means(x: int, u: Word)
    requires Means(x, u)
    ensures Means(LittleS1(x), SmallSigma1(u))
  {
    RotationsMean(x, u, 17, 19, 10);
  }

  lemma ChooseMeans(x: int, y: int, z: int, u: Word, v: Word, w: Word)
    requires Means(x, u) && Means(y, v) && Means(z, w)
    ensures Means(Choose(x, y, z), Ch(u, v, w))
  {
    AndMeans(x, y, u, v);
    NotMeans(x, u);
    AndMeans(BitNot(x), z, Not(u), w);
    XorMeans(BitAnd(x, y), BitAnd(BitNot(x), z), And(u, v), And(Not(u), w));
  }

  lemma MajorityMeans(x: int, y: int, z: int, u: Word, v: Word, w: Word)
    requires Means(x, u) && Means(y, v) && Means(z, w)
    ensures Means(Majority(x, y, z), Maj(u, v, w))
  {
    AndMeans(x, y, u, v);
    AndMeans(x, z, u, w);
    AndMeans(y, z, v, w);
    Xor3Means(BitAnd(x, y), BitAnd(x, z), BitAnd(y, z), And(u, v), And(u, w), And(v, w));
  }

  // ----- sums -----

  /** A number that differs from a sum of words by a multiple of 2^32 means that sum. */
  lemma ReducedMeans(x: int, sum: int, k: int)
    requires x == sum - k * TWO32
    ensures Means(Int32(x), sum % TWO32)
  {
    assert Unsigned(x) == sum % TWO32;
    SignedMeans(sum % TWO32);
  }

  /** How many times 2^32 a form falls short of its word. */
  function Short(x: int, w: Word): int
    requires Means(x, w)
    ensures 0 <= Short(x, w) <= 1 && x == w - Short(x, w) * TWO32
  {
    if x == w then 0 else 1
  }

  lemma Sum2Means(x: int, y: int, u: Word, v: Word)
    requires Means(x, u) && Means(y, v)
    ensures Exact(x + y) && Means(Int32(x + y), Sum(u, v))
  {
    ReducedMeans(x + y, u + v, Short(x, u) + Short(y, v));
  }

  lemma Sum4Means(p: int, q: int, r: int, s: int, t: Word, u: Word, v: Word, w: Word)
    requires Means(p, t) && Means(q, u) && Means(r, v) && Means(s, w)
    ensures Exact(p + q) && Exact(p + q + r) && Exact(p + q + r + s)
    ensures Means(Int32(p + q + r + s), (w + v + u + t) % TWO32)
  {
    ReducedMeans(p + q + r + s, w + v + u + t, Short(p, t) + Short(q, u) + Short(r, v) + Short(s, w));
  }

  lemma Sum5Means(p: int, q: int, r: int, k: Word, s: Word, t: Word, u: Word, v: Word)
    requires Means(p, t) && Means(q, u) && Means(r, v)
    ensures Exact(p + q) && Exact(p + q + r) && Exact(p + q + r + k) && Exact(p + q + r + k + s)
    ensures Means(Int32(p + q + r + k + s), (t + u + v + k + s) % TWO32)
  {
    ReducedMeans(p + q + r + k + s, t + u + v + k + s, Short(p, t) + Short(q, u) + Short(r, v));
  }

  /** The eight working numbers, each in either 32-bit form. */
  datatype Numbers = Numbers(a: int, b: int, c: int, d: int, e: int, f: int, g: int, h: int)

  predicate Mean(n: Numbers, r: Registers) {
    && Means(n.a, r.a) && Means(n.b, r.b) && Means(n.c, r.c) && Means(n.d, r.d)
    && Means(n.e, r.e) && Means(n.f, r.f) && Means(n.g, r.g) && Means(n.h, r.h)
  }

  /** `(p + q + r + k + s) | 0`, added from the left, every partial sum exact. */
  function Wrapped5(p: int, q: int, r: int, k: Word, s: Word, ghost t: Word, ghost u: Word, ghost v: Word): (z: int)
    requires Means(p, t) && Means(q, u) && Means(r, v)
    ensures Means(z, (t + u + v + k + s) % TWO32)
  {
    Sum5Means(p, q, r, k, s, t, u, v);
    Int32(Plus2(Plus2(Plus2(Plus2(p, q), r), k), s))
  }

  /** `(p + q + r + s) | 0`. */
  function Wrapped4(p: int, q: int, r: int, s: int, ghost t: Word, ghost u: Word, ghost v: Word,
                    ghost w: Word): (z: int)
    requires Means(p, t) && Means(q, u) && Means(r, v) && Means(s, w)
    ensures Means(z, (w + v + u + t) % TWO32)
  {
    Sum4Means(p, q, r, s, t, u, v, w);
    Int32(Plus2(Plus2(Plus2(p, q), r), s))
  }

  /** `(x + y) | 0`. */
  function Wrapped(x: int, y: int, ghost u: Word, ghost v: Word): (z: int)
    requires Means(x, u) && Means(y, v)
    ensures Means(z, Sum(u, v))
  {
    Sum2Means(x, y, u, v);
    Int32(Plus2(x, y))
  }

  /** `(W[i - 16] + s0 + W[i - 7] + s1) | 0`, as the word a Uint32Array stores. */
  function NextWord(w2: Word, w7: Word, w15: Word, w16: Word): (w: Word)
    ensures w == Extend(w2, w7, w15, w16)
  {
    LittleS0Means(w15, w15);
    LittleS1Means(w2, w2);
    var sum := Wrapped4(w16, LittleS0(w15), w7, LittleS1(w2), w16, SmallSigma0(w15), w7, SmallSigma1(w2));
    MeansItsWord(sum, Extend(w2, w7, w15, w16));
    Unsigned(sum)
  }

  /** `(h + S1 + ch + K[i] + W[i]) | 0`. */
  function FirstSum(e: int, f: int, g: int, h: int, k: Word, w: Word, ghost r: Registers): (t1: int)
    requires Means(e, r.e) && Means(f, r.f) && Means(g, r.g) && Means(h, r.h)
    ensures Means(t1, T1(r, k, w))
  {
    S1Means(e, r.e);
    ChooseMeans(e, f, g, r.e, r.f, r.g);
    Wrapped5(h, S1(e), Choose(e, f, g), k, w, r.h, BigSigma1(r.e), Ch(r.e, r.f, r.g))
  }

  lemma SecondTermsMean(a: int, b: int, c: int, r: Registers)
    requires Means(a, r.a) && Means(b, r.b) && Means(c, r.c)
    ensures Means(S0(a), BigSigma0(r.a)) && Means(Majority(a, b, c), Maj(r.a, r.b, r.c))
  {
    S0Means(a, r.a);
    MajorityMeans(a, b, c, r.a, r.b, r.c);
  }

  lemma T2Means(t2: int, s0: Word, maj: Word, r: Registers)
    requires Means(t2, Sum(s0, maj)) && s0 == BigSigma0(r.a) && maj == Maj(r.a, r.b, r.c)
    ensures Means(t2, T2(r))
  {
  }

  /** `(S0 + maj) | 0`. */
  function SecondSum(a: int, b: int, c: int, ghost r: Registers): (t2: int)
    requires Means(a, r.a) && Means(b, r.b) && Means(c, r.c)
    ensures Means(t2, T2(r))
  {
    SecondTermsMean(a, b, c, r);
    var t2 := Wrapped(S0(a), Majority(a, b, c), BigSigma0(r.a), Maj(r.a, r.b, r.c));
    T2Means(t2, BigSigma0(r.a), Maj(r.a, r.b, r.c), r);
    t2
  }

  /** One pass of the compression loop. */
  function NextNumbers(n: Numbers, k: Word, w: Word, ghost r: Registers): (next: Numbers)
    requires Mean(n, r)
    ensures Mean(next, Round(r, k, w))
  {
    var t1, t2 := FirstSum(n.e, n.f, n.g, n.h, k, w, r), SecondSum(n.a, n.b, n.c, r);
    Numbers(Wrapped(t1, t2, T1(r, k, w), T2(r)), n.a, n.b, n.c, Wrapped(n.d, t1, r.d, T1(r, k, w)), n.e, n.f, n.g)
  }

  /** `h0 = (h0 + a) | 0` to `h7 = (h7 + h) | 0`. */
  function Added(m: Numbers, n: Numbers, ghost p: Registers, ghost r: Registers): (sum: Numbers)
    requires Mean(m, p) && Mean(n, r)
    ensures Mean(sum, Plus(p, r))
  {
    Numbers(Wrapped(m.a, n.a, p.a, r.a), Wrapped(m.b, n.b, p.b, r.b), Wrapped(m.c, n.c, p.c, r.c),
            Wrapped(m.d, n.d, p.d, r.d), Wrapped(m.e, n.e, p.e, r.e), Wrapped(m.f, n.f, p.f, r.f),
            Wrapped(m.g, n.g, p.g, r.g), Wrapped(m.h, n.h, p.h, r.h))
  }

  // ----- one block -----

  predicate IsBuffer(msg: array<Byte>, off: nat) {
    off + 64 <= msg.Length
  }

  /** DataView.getUint32. */
  function GetUint32(msg: array<Byte>, pos: nat): (w: Word)
    requires pos + 4 <= msg.Length
    reads msg
    ensures w == WordAt(msg[..], pos)
  {
    0x100_0000 * (msg[pos] as int) + 0x1_0000 * (msg[pos + 1] as int) + 0x100 * (msg[pos + 2] as int)
      + msg[pos + 3] as int
  }

  /** `s` lists the words of the schedule of the block at `off`. */
  ghost predicate IsSchedule(s: seq<Word>, bytes: seq<Byte>, off: nat) {
    && off + 64 <= |bytes| && |s| == 64
    && forall t {:trigger Schedule(bytes, off, t)} :: 0 <= t < 64 ==> s[t] == Schedule(bytes, off, t)
  }

  lemma ScheduleListed(bytes: seq<Byte>, off: nat) returns (s: seq<Word>)
    requires off + 64 <= |bytes|
    ensures IsSchedule(s, bytes, off)
  {
    s := seq(64, t requires 0 <= t < 64 => Schedule(bytes, off, t));
  }

  /** The words already filled give the next one. */
  method ExtendWord(ghost s: seq<Word>, ghost bytes: seq<Byte>, ghost off: nat, ghost i: nat, w2: Word, w7: Word,
                    w15: Word, w16: Word)
    returns (w: Word)
    requires IsSchedule(s, bytes, off) && 16 <= i < 64
    requires w2 == s[i - 2] && w7 == s[i - 7] && w15 == s[i - 15] && w16 == s[i - 16]
    ensures w == s[i]
  {
    w := NextWord(w2, w7, w15, w16);
    assert s[i] == Schedule(bytes, off, i);
    assert s[i - 2] == Schedule(bytes, off, i - 2) && s[i - 7] == Schedule(bytes, off, i - 7);
    assert s[i - 15] == Schedule(bytes, off, i - 15) && s[i - 16] == Schedule(bytes, off, i - 16);
  }

  lemma LoadedAs(s: seq<Word>, w: seq<Word>, bytes: seq<Byte>, off: nat)
    requires IsSchedule(s, bytes, off) && |w| == 64
    requires forall t :: 0 <= t < 16 ==> w[t] == Schedule(bytes, off, t)
    ensures forall t :: 0 <= t < 16 ==> w[t] == s[t]
  {
  }

  /** `chain` lists the hash values of FIPS 180-4, from the initial one to the last block's. */
  ghost predicate IsChain(chain: seq<Registers>, bytes: seq<Byte>) {
    && |chain| > 0 && |bytes| == 64 * (|chain| - 1)
    && forall k {:trigger Blocks(bytes, k)} :: 0 <= k < |chain| ==> chain[k] == Blocks(bytes, k)
  }

  lemma ChainListed(bytes: seq<Byte>, blocks: nat) returns (chain: seq<Registers>)
    requires |bytes| == 64 * blocks
    ensures IsChain(chain, bytes) && |chain| == blocks + 1
    ensures chain[0] == INITIAL && chain[blocks] == Blocks(bytes, blocks)
  {
    chain := seq(blocks + 1, k requires 0 <= k <= blocks => Blocks(bytes, k));
    assert chain[0] == Blocks(bytes, 0);
  }

  lemma ChainGrows(chain: seq<Registers>, bytes: seq<Byte>, done: nat)
    requires IsChain(chain, bytes) && done + 1 < |chain|
    ensures chain[done + 1] == AfterBlock(chain[done], bytes, 64 * done)
  {
    assert chain[done + 1] == Blocks(bytes, done + 1) && chain[done] == Blocks(bytes, done);
  }

  lemma StartMeans()
    ensures
      Mean(Numbers(0x6a09e667, 0xbb67ae85, 0x3c6ef372, 0xa54ff53a, 0x510e527f, 0x9b05688c, 0x1f83d9ab, 0x5be0cd19),
           INITIAL)
  {
  }

  /** The bytes with the four at `pos` replaced by a word, big-endian. */
  function Overwritten(bytes: seq<Byte>, pos: nat, w: Word): (after: seq<Byte>)
    requires pos + 4 <= |bytes|
    ensures |after| == |bytes|
  {
    bytes[..pos] + BigEndian(w, 4) + bytes[pos + 4..]
  }

  class Hasher {
    /** Uint32Array(64), shared by every call: it stores the word of whatever is assigned. */
    const W: array<Word>

    constructor ()
      ensures W.Length == 64 && fresh(W)
    {
      W := new Word[64](i => 0);
    }

    method LoadBlock(msg: array<Byte>, off: nat)
      requires W.Length == 64 && IsBuffer(msg, off)
      modifies W
      ensures msg[..] == old(msg[..])
      ensures forall t :: 0 <= t < 16 ==> W[t] == Schedule(msg[..], off, t)
    {
      for i := 0 to 16
        invariant forall t :: 0 <= t < i ==> W[t] == Schedule(msg[..], off, t)
      {
        W[i] := GetUint32(msg, off + i * 4);
      }
    }

    method FillSchedule(msg: array<Byte>, off: nat)
      requires W.Length == 64 && IsBuffer(msg, off)
      modifies W
      ensures msg[..] == old(msg[..])
      ensures IsSchedule(W[..], msg[..], off)
    {
      LoadBlock(msg, off);
      ghost var bytes := msg[..];
      ghost var s := ScheduleListed(bytes, off);
      LoadedAs(s, W[..], bytes, off);
      for i := 16 to 64
        invariant msg[..] == bytes
        invariant forall t :: 0 <= t < i ==> W[t] == s[t]
      {
        W[i] := ExtendWord(s, bytes, off, i, W[i - 2], W[i - 7], W[i - 15], W[i - 16]);
      }
      assert W[..] == s;
    }

    /** The compression loop. */
    method RunRounds(start: Numbers, ghost before: Registers, msg: array<Byte>, off: nat) returns (n: Numbers)
      requires W.Length == 64 && IsBuffer(msg, off) && Mean(start, before) && IsSchedule(W[..], msg[..], off)
      ensures Mean(n, Rounds(before, msg[..], off, 64))
    {
      n := start;
      ghost var r := before;
      for i := 0 to 64
        invariant r == Rounds(before, msg[..], off, i) && Mean(n, r)
      {
        assert W[i] == W[..][i] == Schedule(msg[..], off, i);
        n := NextNumbers(n, K[i], W[i], r);
        r := Round(r, K[i], W[i]);
      }
    }

    /** One block: its schedule, the rounds, and the sums into h0 to h7. */
    method Compress(start: Numbers, ghost before: Registers, msg: array<Byte>, off: nat) returns (next: Numbers)
      requires W.Length == 64 && IsBuffer(msg, off) && Mean(start, before)
      modifies W
      ensures msg[..] == old(msg[..])
      ensures Mean(next, AfterBlock(before, msg[..], off))
    {
      FillSchedule(msg, off);
      var n := RunRounds(start, before, msg, off);
      next := Added(start, n, before, Rounds(before, msg[..], off, 64));
    }

    /** DataView.setUint32. */
    static method SetUint32(msg: array<Byte>, pos: nat, value: nat)
      requires pos + 4 <= msg.Length
      modifies msg
      ensures msg[..] == Overwritten(old(msg[..]), pos, Unsigned(value))
    {
      var w := Unsigned(value);
      msg[pos], msg[pos + 1], msg[pos + 2], msg[pos + 3] := w / 0x100_0000, w / 0x1_0000 % 256, w / 256 % 256, w % 256;
      FourBytes(w);
    }

    /** The zeroed buffer with the bytes and 0x80 in place. */
    static method CopyMessage(data: seq<Byte>) returns (msg: array<Byte>)
      ensures fresh(msg) && msg[..] == data + [0x80] + Zeros(ZeroBytes(|data|) + 8)
    {
      var blocks := (|data| + 9 + 63) / 64;
      msg := new Byte[blocks * 64](i => 0);
      PadFillsBlocks(data);
      forall i | 0 <= i < |data| {
        msg[i] := data[i];
      }
      msg[|data|] := 0x80;
    }

    /** The padded message: the bytes, 0x80, zeros, and the bit length in the last eight bytes. */
    static method PadMessage(data: seq<Byte>) returns (msg: array<Byte>)
      requires |data| < 0x4_0000_0000_0000
      ensures fresh(msg) && msg[..] == Pad(data)
    {
      msg := CopyMessage(data);
      ghost var copied := msg[..];
      var bits := |data| * 8;
      assert Exact(bits);
      assert |copied| == msg.Length >= 8;
      SetUint32(msg, msg.Length - 8, bits / TWO32);
      ghost var first := msg[..];
      SetUint32(msg, msg.Length - 4, bits);
      LengthInPlace(data, copied, first, msg[..]);
    }

    /** One turn of the loop over blocks. */
    method HashBlock(start: Numbers, ghost chain: seq<Registers>, ghost done: nat, msg: array<Byte>, off: nat)
      returns (next: Numbers)
      requires W.Length == 64 && off == 64 * done && off < msg.Length
      requires IsChain(chain, msg[..]) && done < |chain| && Mean(start, chain[done])
      modifies W
      ensures msg[..] == old(msg[..])
      ensures done + 1 < |chain| && Mean(next, chain[done + 1])
    {
      ChainGrows(chain, msg[..], done);
      next := Compress(start, chain[done], msg, off);
    }

    method HashBlocks(msg: array<Byte>, ghost blocks: nat) returns (n: Numbers)
      requires W.Length == 64 && msg.Length == 64 * blocks
      modifies W
      ensures msg[..] == old(msg[..])
      ensures Mean(n, Blocks(msg[..], blocks))
    {
      ghost var bytes := msg[..];
      ghost var chain := ChainListed(bytes, blocks);
      StartMeans();
      n := Numbers(0x6a09e667, 0xbb67ae85, 0x3c6ef372, 0xa54ff53a, 0x510e527f, 0x9b05688c, 0x1f83d9ab, 0x5be0cd19);
      ghost var done := 0;
      var off := 0;
      while off < msg.Length
        invariant off == 64 * done && done <= blocks
        invariant msg[..] == bytes && Mean(n, chain[done])
      {
        n := HashBlock(n, chain, done, msg, off);
        off := off + 64;
        done := done + 1;
      }
      assert done == blocks;
    }

    method Sha256Hex(data: seq<Byte>) returns (hex: string)
      requires W.Length == 64 && |data| < 0x4_0000_0000_0000
      modifies W
      ensures hex == HexDigest(data)
    {
      var msg := PadMessage(data);
      PadFillsBlocks(data);
      ghost var blocks := |Pad(data)| / 64;
      var n := HashBlocks(msg, blocks);
      hex := AllHex(n, Blocks(Pad(data), blocks));
    }
  }

  lemma LengthInPlace(data: seq<Byte>, copied: seq<Byte>, first: seq<Byte>, second: seq<Byte>)
    requires copied == data + [0x80] + Zeros(ZeroBytes(|data|) + 8)
    requires first == Overwritten(copied, |copied| - 8, Unsigned(8 * |data| / TWO32))
    requires second == Overwritten(first, |copied| - 4, Unsigned(8 * |data|))
    requires 8 * |data| < TWO32 * TWO32
    ensures second == Pad(data)
  {
    var high, low := BigEndian(Unsigned(8 * |data| / TWO32), 4), BigEndian(Unsigned(8 * |data|), 4);
    var head, zeros := data + [0x80], ZeroBytes(|data|);
    assert |copied| == |head| + zeros + 8;
    assert copied[..|copied| - 8] == head + Zeros(zeros);
    assert first[..|copied| - 4] == head + Zeros(zeros) + high;
    assert first[|copied|..] == [];
    assert second == head + Zeros(zeros) + (high + low);
    HighHalf(8 * |data|);
    EightBytes(8 * |data|);
  }

  lemma HighHalf(bits: nat)
    requires bits < TWO32 * TWO32
    ensures Unsigned(bits / TWO32) == bits / TWO32
  {
  }

  lemma FourBytes(w: Word)
    ensures BigEndian(w, 4) == [w / 0x100_0000, w / 0x1_0000 % 256, w / 256 % 256, w % 256]
  {
    assert BigEndian(w / 0x100_0000, 1) == [w / 0x100_0000];
    assert w / 256 / 256 == w / 0x1_0000 && w / 0x1_0000 / 256 == w / 0x100_0000;
    assert BigEndian(w / 0x1_0000, 2) == [w / 0x100_0000, w / 0x1_0000 % 256];
    assert BigEndian(w / 256, 3) == [w / 0x100_0000, w / 0x1_0000 % 256, w / 256 % 256];
  }

  /** `q` followed by the low `n` bytes of `r`. */
  function Joined(q: nat, r: nat, n: nat): nat {
    if n == 0 then q else 256 * Joined(q, r / 256, n - 1) + r % 256
  }

  lemma LowByte(v: nat, r: nat, n: nat)
    ensures BigEndian(256 * v + r % 256, n + 1) == BigEndian(v, n) + [r % 256]
  {
    var whole := 256 * v + r % 256;
    assert whole / 256 == v && whole % 256 == r % 256;
  }

  lemma {:induction false} JoinedBytes(q: nat, r: nat, high: nat, low: nat)
    ensures BigEndian(Joined(q, r, low), high + low) == BigEndian(q, high) + BigEndian(r, low)
  {
    if low > 0 {
      JoinedBytes(q, r / 256, high, low - 1);
      LowByte(Joined(q, r / 256, low - 1), r, high + low - 1);
    }
  }

  lemma JoinedHalves(q: nat, r: Word)
    ensures Joined(q, r, 4) == TWO32 * q + r
  {
    var r1, r2, r3 := r / 256, r / 256 / 256, r / 256 / 256 / 256;
    assert Joined(q, r3, 1) == 256 * q + r3;
    assert Joined(q, r2, 2) == 0x1_0000 * q + r2;
    assert Joined(q, r1, 3) == 0x100_0000 * q + r1;
  }

  lemma JoinedWords(q: nat, r: Word)
    ensures BigEndian(TWO32 * q + r, 8) == BigEndian(q, 4) + BigEndian(r, 4)
  {
    JoinedHalves(q, r);
    JoinedBytes(q, r, 4, 4);
  }

  lemma EightBytes(value: nat)
    ensures BigEndian(value, 8) == BigEndian(value / TWO32, 4) + BigEndian(value % TWO32, 4)
  {
    JoinedWords(value / TWO32, value % TWO32);
  }

  // ----- the answer as text -----

  /** Number.prototype.toString(16) of a whole number. */
  function ToHex(n: nat): (text: string)
    ensures |text| >= 1
  {
    if n < 16 then [Digit(n)] else ToHex(n / 16) + [Digit(n % 16)]
  }

  function Repeat(n: nat): string { seq(n, i => '0') }

  /** String.prototype.padStart(n, '0'). */
  function PadStart(text: string, n: nat): string {
    if |text| >= n then text else Repeat(n - |text|) + text
  }

  function Pow16(n: nat): (power: nat)
    ensures power > 0
  {
    if n == 0 then 1 else 16 * Pow16(n - 1)
  }

  lemma {:induction false} HexOfZero(n: nat)
    ensures Hex(0, n) == Repeat(n)
  {
    if n > 0 {
      HexOfZero(n - 1);
    }
  }

  lemma {:induction false} PaddedHex(value: nat, n: nat)
    requires n > 0 && value < Pow16(n)
    ensures |ToHex(value)| <= n && Hex(value, n) == PadStart(ToHex(value), n)
  {
    if value < 16 {
      HexOfZero(n - 1);
    } else {
      assert n > 1 by {
        assert Pow16(1) == 16;
      }
      PaddedHex(value / 16, n - 1);
    }
  }

  /** `(v >>> 0).toString(16).padStart(8, '0')`. */
  function WordHex(v: int, ghost w: Word): (text: string)
    requires Means(v, w)
    ensures text == Hex(w, 8)
  {
    MeansItsWord(v, w);
    assert Pow16(4) == 0x1_0000;
    assert Pow16(8) == TWO32;
    PaddedHex(w, 8);
    PadStart(ToHex(ShiftRight(v, 0)), 8)
  }

  function AllHex(n: Numbers, ghost r: Registers): (text: string)
    requires Mean(n, r)
    ensures text
      == Hex(r.a, 8) + Hex(r.b, 8) + Hex(r.c, 8) + Hex(r.d, 8) + Hex(r.e, 8) + Hex(r.f, 8) + Hex(r.g, 8) + Hex(r.h, 8)
  {
    WordHex(n.a, r.a) + WordHex(n.b, r.b) + WordHex(n.c, r.c) + WordHex(n.d, r.d)
    + WordHex(n.e, r.e) + WordHex(n.f, r.f) + WordHex(n.g, r.g) + WordHex(n.h, r.h)
  }
}
