/** The sign-in puzzle: issuing, solving and verifying it, and the set of spent salts
    (internal/auth/pow.go, web/src/components/CaptchaWidget.tsx). Times are Unix seconds. */
module ProofOfWork {
  import opened Basics
  import opened Fips180
  import Sha256

  // ----- text -----

  function Digits(n: nat): (text: string)
    ensures |text| > 0 && forall c :: c in text ==> '0' <= c <= '9'
  {
    if n < 10 then [Digit(n)] else Digits(n / 10) + [Digit(n % 10)]
  }

  function Decimal(n: int): string {
    if n < 0 then "-" + Digits(-n) else Digits(n)
  }

  lemma {:induction false} DigitsDiffer(m: nat, n: nat)
    requires Digits(m) == Digits(n)
    ensures m == n
  {
    var last := |Digits(m)| - 1;
    if m >= 10 && n >= 10 {
      assert Digits(m / 10) == Digits(m)[..last] == Digits(n)[..last] == Digits(n / 10);
      DigitsDiffer(m / 10, n / 10);
    }
    assert Digits(m)[last] == Digit(m % 10) && Digits(n)[last] == Digit(n % 10);
  }

  lemma SignShows(n: int)
    ensures (Decimal(n)[0] == '-') == (n < 0)
  {
    if n >= 0 {
      assert Digits(n)[0] in Digits(n);
    }
  }

  lemma DecimalsDiffer(m: int, n: int)
    requires Decimal(m) == Decimal(n)
    ensures m == n
  {
    SignShows(m);
    SignShows(n);
    if m < 0 {
      assert Digits(-m) == Decimal(m)[1..] == Decimal(n)[1..] == Digits(-n);
      DigitsDiffer(-m, -n);
    } else {
      DigitsDiffer(m, n);
    }
  }

  /** The number a decimal text stands for. */
  function ValueOf(text: string): int {
    if text == "" then 0 else 10 * ValueOf(text[..|text| - 1]) + (text[|text| - 1] as int - '0' as int)
  }

  lemma {:induction false} DigitsReadBack(n: nat)
    ensures ValueOf(Digits(n)) == n
    ensures n > 0 ==> Digits(n)[0] != '0'
  {
    if n >= 10 {
      DigitsReadBack(n / 10);
      assert Digits(n)[..|Digits(n)| - 1] == Digits(n / 10);
    } else {
      assert Digits(n)[..0] == "";
    }
  }

  /** A number is written in decimal, without leading zeros and with a sign only when negative. */
  lemma DecimalReadsBack(n: int)
    ensures n >= 0 ==> ValueOf(Decimal(n)) == n && (n > 0 ==> Decimal(n)[0] != '0')
    ensures n < 0 ==> Decimal(n)[0] == '-' && ValueOf(Decimal(n)[1..]) == -n && Decimal(n)[1] != '0'
  {
    DigitsReadBack(if n < 0 then -n else n);
    if n < 0 {
      assert Decimal(n)[1..] == Digits(-n);
    }
  }

  lemma {:induction false} DigitsAreFew(n: nat, k: nat)
    requires 0 < k && n < Pow10(k)
    ensures |Digits(n)| <= k
  {
    if n >= 10 {
      assert Pow10(1) == 10;
      DigitsAreFew(n / 10, k - 1);
    }
  }

  function Pow10(n: nat): nat {
    if n == 0 then 1 else 10 * Pow10(n - 1)
  }

  /** The UTF-8 encoding of a character. */
  function CharBytes(c: char): (bytes: seq<Byte>)
    ensures |bytes| <= 4
  {
    var x := c as int;
    if x < 0x80 then [x]
    else if x < 0x800 then [0xC0 + x / 64, 0x80 + x % 64]
    else if x < 0x1_0000 then [0xE0 + x / 4096, 0x80 + x / 64 % 64, 0x80 + x % 64]
    else [0xF0 + x / 262144, 0x80 + x / 4096 % 64, 0x80 + x / 64 % 64, 0x80 + x % 64]
  }

  predicate Follows(b: Byte) { 0x80 <= b < 0xC0 }

  /** The number whose six-bit digits the bytes after the lead byte are, `lead` being the first digits. */
  function Joined(lead: int, rest: seq<Byte>): int {
    if rest == [] then lead else 64 * Joined(lead, rest[..|rest| - 1]) + (rest[|rest| - 1] as int - 0x80)
  }

  lemma SixBitDigits(x: nat)
    ensures x == 64 * (x / 64) + x % 64 && 0 <= x % 64 < 64
    ensures x / 4096 == x / 64 / 64 && x / 262144 == x / 4096 / 64
  {
  }

  lemma DigitsJoin(lead: int, b: Byte, c: Byte, d: Byte)
    ensures Joined(lead, [d]) == 64 * lead + (d as int - 0x80)
    ensures Joined(lead, [c, d]) == 64 * (64 * lead + (c as int - 0x80)) + (d as int - 0x80)
    ensures Joined(lead, [b, c, d])
      == 64 * (64 * (64 * lead + (b as int - 0x80)) + (c as int - 0x80)) + (d as int - 0x80)
  {
    assert [d][..0] == [] && [c, d][..1] == [c] && [c][..0] == [];
    assert [b, c, d][..2] == [b, c] && [b, c][..1] == [b] && [b][..0] == [];
    assert Joined(lead, [c]) == 64 * lead + (c as int - 0x80);
    assert Joined(lead, [b, c]) == 64 * Joined(lead, [b]) + (c as int - 0x80);
  }

  /** The encoding of section 3 of RFC 3629, read back: the lead byte says how many follow, they carry the
      character, and no shorter encoding would do. */
  lemma CharReadsBack(c: char)
    ensures
      var b, x := CharBytes(c), c as int;
      |b| == if x < 0x80 then 1 else if x < 0x800 then 2 else if x < 0x1_0000 then 3 else 4
    ensures
      var b := CharBytes(c);
      && (|b| == 1 ==> b[0] == c as int)
      && (|b| == 2 ==> 0xC0 <= b[0] < 0xE0 && Joined(b[0] as int - 0xC0, b[1..]) == c as int)
      && (|b| == 3 ==> 0xE0 <= b[0] < 0xF0 && Joined(b[0] as int - 0xE0, b[1..]) == c as int)
      && (|b| == 4 ==> 0xF0 <= b[0] < 0xF8 && Joined(b[0] as int - 0xF0, b[1..]) == c as int)
    ensures forall i :: 0 < i < |CharBytes(c)| ==> Follows(CharBytes(c)[i])
  {
    var x := c as int;
    SixBitDigits(x);
    SixBitDigits(x / 64);
    SixBitDigits(x / 4096);
    var first, second, third := 0x80 + x / 4096 % 64, 0x80 + x / 64 % 64, 0x80 + x % 64;
    if x < 0x80 {
      assert CharBytes(c)[1..] == [];
    } else if x < 0x800 {
      DigitsJoin(x / 64, first, second, third);
      assert CharBytes(c)[1..] == [third];
    } else if x < 0x1_0000 {
      DigitsJoin(x / 4096, first, second, third);
      assert CharBytes(c)[1..] == [second, third];
    } else {
      DigitsJoin(x / 262144, first, second, third);
      assert CharBytes(c)[1..] == [first, second, third];
    }
  }

  function Utf8(text: string): (bytes: seq<Byte>)
    ensures |bytes| <= 4 * |text|
  {
    if text == "" then [] else CharBytes(text[0]) + Utf8(text[1..])
  }

  /** ASCII text, which is all the puzzle hashes, is its own encoding. */
  lemma {:induction false} AsciiIsItself(text: string)
    requires forall c :: c in text ==> c as int < 0x80
    ensures |Utf8(text)| == |text| && forall i :: 0 <= i < |text| ==> Utf8(text)[i] == text[i] as int
    decreases |text|
  {
    if text != "" {
      assert text[0] in text && forall c :: c in text[1..] ==> c in text;
      AsciiIsItself(text[1..]);
    }
  }

  function Hash(text: string): string {
    HexDigest(Utf8(text))
  }

  lemma {:induction false} HexHasNoColon(value: nat, n: nat)
    ensures ':' !in Hex(value, n)
  {
    if n > 0 {
      HexHasNoColon(value / 16, n - 1);
    }
  }

  lemma HashHasNoColon(text: string)
    ensures ':' !in Hash(text) && Hash(text) != ""
  {
    var d := Digest(Utf8(text));
    HexHasNoColon(d.a, 8);
    HexHasNoColon(d.b, 8);
    HexHasNoColon(d.c, 8);
    HexHasNoColon(d.d, 8);
    HexHasNoColon(d.e, 8);
    HexHasNoColon(d.f, 8);
    HexHasNoColon(d.g, 8);
    HexHasNoColon(d.h, 8);
    assert |Hash(text)| == 64;
  }

  // ----- issuing and verifying -----

  datatype Challenge = Challenge(
    algorithm: string,
    salt: string,
    challenge: string,
    maxNumber: int,
    expiresAt: int,
    signature: string)

  datatype Solution = Solution(fields: Challenge, number: int)

  const DEFAULT_DIFFICULTY := 500000
  const LIFETIME := 300

  /** The keyed hash under the session secret, which signs nothing but these payloads, and the hash. */
  datatype Crypto = Crypto(mac: string -> string, hash: string -> string)

  ghost predicate Usable(crypto: Crypto) {
    && (forall text: string :: crypto.mac(text) != "")
    && (forall text: string :: crypto.hash(text) != "" && ':' !in crypto.hash(text))
  }

  /** With SHA-256, in hexadecimal, as the hash. */
  function WithSha256(mac: string -> string): Crypto {
    Crypto(mac, text => Hash(text))
  }

  lemma Sha256IsUsable(mac: string -> string)
    requires forall text: string :: mac(text) != ""
    ensures Usable(WithSha256(mac))
  {
    var crypto := WithSha256(mac);
    forall text: string ensures crypto.hash(text) != "" && ':' !in crypto.hash(text) {
      HashHasNoColon(text);
    }
  }

  function Payload(c: Challenge): string {
    c.salt + ":" + c.challenge + ":" + Decimal(c.maxNumber) + ":" + Decimal(c.expiresAt)
  }

  predicate IsSalt(salt: string) {
    |salt| == 32 && forall c :: c in salt ==> '0' <= c <= '9' || 'a' <= c <= 'f'
  }

  function Difficulty(configured: int): int {
    if configured <= 0 then DEFAULT_DIFFICULTY else configured
  }

  function Generate(crypto: Crypto, configured: int, salt: string, target: int, now: int): Challenge {
    var challenge := crypto.hash(salt + Decimal(target));
    var c := Challenge("SHA-256", salt, challenge, Difficulty(configured), now + LIFETIME, "");
    c.(signature := crypto.mac(Payload(c)))
  }

  /** `c` is a challenge the server can have issued: sixteen random bytes and a random target. */
  ghost predicate Issued(crypto: Crypto, c: Challenge) {
    exists configured: int, target: int, now: int ::
      IsSalt(c.salt) && 1 <= target <= Difficulty(configured) && c == Generate(crypto, configured, c.salt, target, now)
  }

  predicate Verified(crypto: Crypto, s: Solution, now: int) {
    && s.fields.algorithm == "SHA-256" && s.fields.salt != "" && s.fields.challenge != "" && s.fields.signature != ""
    && s.number >= 1 && s.fields.maxNumber >= 1 && s.number <= s.fields.maxNumber && s.fields.expiresAt >= now
    && s.fields.signature == crypto.mac(Payload(s.fields))
    && crypto.hash(s.fields.salt + Decimal(s.number)) == s.fields.challenge
  }

  // ----- a payload reads in one way only -----

  lemma NoColonAfter(x: string, d: string)
    requires ':' !in d
    ensures forall i :: |x| < i < |x + ":" + d| ==> (x + ":" + d)[i] != ':'
  {
    forall i | |x| < i < |x + ":" + d| ensures (x + ":" + d)[i] != ':' {
      assert (x + ":" + d)[i] == d[i - |x| - 1];
    }
  }

  lemma NoColonBefore(a: string, b: string)
    requires ':' !in a
    ensures forall i :: 0 <= i < |a| ==> (a + ":" + b)[i] != ':'
  {
    forall i | 0 <= i < |a| ensures (a + ":" + b)[i] != ':' {
      assert (a + ":" + b)[i] == a[i];
    }
  }

  lemma SplitAt(x: string, y: string, d: string, e: string)
    requires x + ":" + d == y + ":" + e && |x| == |y|
    ensures x == y && d == e
  {
    var whole := x + ":" + d;
    assert x == whole[..|x|] == y && d == whole[|x| + 1..] == e;
  }

  lemma SplitAtLastColon(x: string, y: string, d: string, e: string)
    requires x + ":" + d == y + ":" + e && ':' !in d && ':' !in e
    ensures x == y && d == e
  {
    assert (x + ":" + d)[|x|] == ':' && (y + ":" + e)[|y|] == ':';
    NoColonAfter(x, d);
    NoColonAfter(y, e);
    SplitAt(x, y, d, e);
  }

  lemma SplitAtOnlyColon(a: string, b: string, x: string, y: string)
    requires a + ":" + b == x + ":" + y && ':' !in a && ':' !in b
    ensures a == x && b == y
  {
    assert (a + ":" + b)[|a|] == ':' && (x + ":" + y)[|x|] == ':';
    NoColonBefore(a, b);
    NoColonAfter(a, b);
    SplitAt(a, x, b, y);
  }

  lemma DecimalHasNoColon(n: int)
    ensures ':' !in Decimal(n)
  {
  }

  /** Whatever colons a submission hides in its salt or challenge, its payload is that of an issued
      challenge only if its four signed fields are. */
  lemma PayloadsDiffer(issued: Challenge, sent: Challenge)
    requires ':' !in issued.salt && ':' !in issued.challenge && Payload(issued) == Payload(sent)
    ensures issued.salt == sent.salt && issued.challenge == sent.challenge
    ensures issued.maxNumber == sent.maxNumber && issued.expiresAt == sent.expiresAt
  {
    DecimalHasNoColon(issued.expiresAt);
    DecimalHasNoColon(sent.expiresAt);
    DecimalHasNoColon(issued.maxNumber);
    DecimalHasNoColon(sent.maxNumber);
    var ours, theirs := issued.salt + ":" + issued.challenge, sent.salt + ":" + sent.challenge;
    SplitAtLastColon(ours + ":" + Decimal(issued.maxNumber), theirs + ":" + Decimal(sent.maxNumber),
                     Decimal(issued.expiresAt), Decimal(sent.expiresAt));
    SplitAtLastColon(ours, theirs, Decimal(issued.maxNumber), Decimal(sent.maxNumber));
    SplitAtOnlyColon(issued.salt, issued.challenge, sent.salt, sent.challenge);
    DecimalsDiffer(issued.expiresAt, sent.expiresAt);
    DecimalsDiffer(issued.maxNumber, sent.maxNumber);
  }

  /** Nobody without the secret can sign: whoever presents a payload's signature got it with an
      issued challenge that has this payload. */
  ghost predicate Unforgeable(crypto: Crypto, issued: set<Challenge>, s: Solution) {
    s.fields.signature == crypto.mac(Payload(s.fields)) ==> exists c :: c in issued && Payload(c) == Payload(s.fields)
  }

  lemma IssuedHasNoColon(crypto: Crypto, c: Challenge)
    requires Usable(crypto) && Issued(crypto, c)
    ensures ':' !in c.salt && ':' !in c.challenge && c.challenge != ""
  {
    var configured, target, now :|
      IsSalt(c.salt) && 1 <= target <= Difficulty(configured) && c == Generate(crypto, configured, c.salt, target, now);
    assert c.challenge == crypto.hash(c.salt + Decimal(target));
  }

  /** Every accepted submission carries exactly the fields of a challenge that was issued. */
  lemma AcceptedWasIssued(crypto: Crypto, issued: set<Challenge>, s: Solution, now: int)
    requires Usable(crypto) && forall c :: c in issued ==> Issued(crypto, c)
    requires Unforgeable(crypto, issued, s) && Verified(crypto, s, now)
    ensures s.fields in issued
  {
    var c :| c in issued && Payload(c) == Payload(s.fields);
    IssuedHasNoColon(crypto, c);
    PayloadsDiffer(c, s.fields);
    assert c.algorithm == "SHA-256" && c.signature == crypto.mac(Payload(c));
    assert c == s.fields;
  }

  // ----- the solver -----

  predicate Solves(crypto: Crypto, c: Challenge, number: int) {
    1 <= number <= c.maxNumber && crypto.hash(c.salt + Decimal(number)) == c.challenge
  }

  datatype Outcome = Solved(solution: Solution) | Left | Failed

  lemma AttemptIsShort(salt: string, i: int)
    requires |salt| == 32 && 1 <= i < Sha256.SAFE
    ensures |Utf8(salt + Decimal(i))| < 0x4_0000_0000_0000
  {
    assert Pow10(4) == 1_0000 && Pow10(8) == 1_0000_0000 && Pow10(16) == 1_0000_0000_0000_0000;
    DigitsAreFew(i, 16);
  }

  /** `good` holds the numbers that solve `c`. */
  ghost predicate AreSolutions(good: iset<int>, crypto: Crypto, c: Challenge) {
    forall i {:trigger Solves(crypto, c, i)} :: i in good <==> Solves(crypto, c, i)
  }

  lemma SolvesBySha256(mac: string -> string, c: Challenge, i: int)
    ensures Solves(WithSha256(mac), c, i) <==> 1 <= i <= c.maxNumber && Hash(c.salt + Decimal(i)) == c.challenge
  {
  }

  method HashText(hasher: Sha256.Hasher, salt: string, i: int) returns (hash: string)
    requires hasher.W.Length == 64 && |salt| == 32 && 1 <= i < Sha256.SAFE
    modifies hasher.W
    ensures hash == Hash(salt + Decimal(i))
  {
    AttemptIsShort(salt, i);
    hash := hasher.Sha256Hex(Utf8(salt + Decimal(i)));
  }

  method Try(hasher: Sha256.Hasher, ghost mac: string -> string, c: Challenge, i: int, ghost good: iset<int>)
    returns (solves: bool)
    requires hasher.W.Length == 64 && |c.salt| == 32 && c.maxNumber < Sha256.SAFE
    requires 1 <= i <= c.maxNumber && AreSolutions(good, WithSha256(mac), c)
    modifies hasher.W
    ensures solves == (i in good)
  {
    var hash := HashText(hasher, c.salt, i);
    solves := hash == c.challenge;
    SolvesBySha256(mac, c, i);
  }

  /** The loop of the sign-in page: it tries 1, 2, ... and gives up only when the page is left, which
      it notices at the multiples of 1000 in `leaving`. */
  method Solve(hasher: Sha256.Hasher, ghost mac: string -> string, c: Challenge, leaving: set<int>,
               ghost good: iset<int>) returns (outcome: Outcome)
    requires hasher.W.Length == 64 && |c.salt| == 32 && c.maxNumber < Sha256.SAFE
      && AreSolutions(good, WithSha256(mac), c)
    modifies hasher.W
    ensures outcome.Solved? ==> outcome.solution.fields == c && 1 <= outcome.solution.number <= c.maxNumber
    ensures outcome.Solved? ==>
      outcome.solution.number in good && forall i :: 1 <= i < outcome.solution.number ==> i !in good
    ensures outcome.Failed? ==> forall i :: 1 <= i <= c.maxNumber ==> i !in good
    ensures outcome.Left? ==> exists i :: i in leaving && i % 1000 == 0 && 1 <= i <= c.maxNumber
  {
    var i := 1;
    while i <= c.maxNumber
      invariant 1 <= i
      invariant forall j :: 1 <= j < i ==> j !in good
    {
      var solves := Try(hasher, mac, c, i, good);
      if solves {
        return Solved(Solution(c, i));
      }
      if i % 1000 == 0 && i in leaving {
        return Left;
      }
      i := i + 1;
    }
    outcome := Failed;
  }

  /** Every issued challenge has a solution in range, so the solver never fails on one. */
  lemma IssuedIsSolvable(crypto: Crypto, c: Challenge) returns (number: int)
    requires Issued(crypto, c)
    ensures Solves(crypto, c, number)
  {
    var configured, target, now :|
      IsSalt(c.salt) && 1 <= target <= Difficulty(configured) && c == Generate(crypto, configured, c.salt, target, now);
    number := target;
  }

  /** Any number that solves an issued challenge, sent with its fields, is accepted until the expiry
      second is over and never afterwards. */
  lemma SolvedIsAccepted(crypto: Crypto, c: Challenge, number: int, now: int)
    requires Usable(crypto) && Issued(crypto, c)
    ensures Verified(crypto, Solution(c, number), now) <==> Solves(crypto, c, number) && now <= c.expiresAt
  {
    IssuedHasNoColon(crypto, c);
  }

  /** A challenge issued at `now` asks for a number up to the configured difficulty, half a million by default, and
      its target is accepted for five minutes, the last second included. */
  lemma FreshChallengeIsAccepted(crypto: Crypto, configured: int, salt: string, target: int, now: int, later: int)
    requires Usable(crypto) && IsSalt(salt) && 1 <= target <= (if configured > 0 then configured else 500000)
    ensures
      var c := Generate(crypto, configured, salt, target, now);
      && c.salt == salt && |c.salt| == 32 && c.maxNumber == (if configured > 0 then configured else 500000)
      && (Verified(crypto, Solution(c, target), later) <==> later <= now + 5 * 60)
  {
  }

  /** Whatever is accepted names a number in its range whose hash with the salt is the challenge, before it
      expires, under a signature of these very fields. */
  lemma AcceptedMeans(crypto: Crypto, s: Solution, now: int)
    requires Verified(crypto, s, now)
    ensures s.fields.algorithm == "SHA-256" && 1 <= s.number <= s.fields.maxNumber && now <= s.fields.expiresAt
    ensures crypto.hash(s.fields.salt + Decimal(s.number)) == s.fields.challenge
    ensures
      var f := s.fields;
      f.signature == crypto.mac(f.salt + ":" + f.challenge + ":" + Decimal(f.maxNumber) + ":" + Decimal(f.expiresAt))
  {
  }

  lemma SolutionsOf(crypto: Crypto, c: Challenge) returns (good: iset<int>)
    ensures AreSolutions(good, crypto, c)
  {
    good := iset i: int | Solves(crypto, c, i);
  }

  /** From an issued challenge to its acceptance: unless the page is left, the solver ends with a
      submission the server accepts at every moment up to the expiry second, and at none after it. */
  method SolveIssued(ghost mac: string -> string, hasher: Sha256.Hasher, c: Challenge, leaving: set<int>)
    returns (outcome: Outcome)
    requires hasher.W.Length == 64 && c.maxNumber < Sha256.SAFE
    requires Issued(WithSha256(mac), c) && forall text: string :: mac(text) != ""
    modifies hasher.W
    ensures !outcome.Failed? && (leaving == {} ==> outcome.Solved?)
    ensures outcome.Solved? ==> forall now :: Verified(WithSha256(mac), outcome.solution, now) <==> now <= c.expiresAt
  {
    ghost var crypto := WithSha256(mac);
    Sha256IsUsable(mac);
    ghost var good := SolutionsOf(crypto, c);
    ghost var number := IssuedIsSolvable(crypto, c);
    assert number in good by {
      assert Solves(crypto, c, number);
    }
    outcome := Solve(hasher, mac, c, leaving, good);
    if outcome.Solved? {
      assert Solves(crypto, c, outcome.solution.number);
      forall now ensures Verified(crypto, outcome.solution, now) <==> now <= c.expiresAt {
        SolvedIsAccepted(crypto, c, outcome.solution.number, now);
      }
    }
  }

  // ----- spent salts -----

  datatype Spent = Spent(salts: map<string, int>, pruneAt: int)

  const FIRST_PRUNE := 1024

  function Unexpired(salts: map<string, int>, now: int): map<string, int> {
    map s | s in salts && now <= salts[s] :: salts[s]
  }

  predicate IsSpent(p: Spent, salt: string, now: int) {
    salt in p.salts && p.salts[salt] >= now
  }

  predicate Prunes(p: Spent) { |p.salts| >= p.pruneAt }

  function Pruned(p: Spent, now: int): Spent {
    if Prunes(p) then Spent(Unexpired(p.salts, now), Max(FIRST_PRUNE, 2 * |Unexpired(p.salts, now)|)) else p
  }

  /** The set after a spend. */
  function AfterSpend(p: Spent, salt: string, expiresAt: int, now: int): Spent {
    if IsSpent(p, salt, now) then p
    else
      var q := Pruned(p, now);
      q.(salts := q.salts[salt := expiresAt])
  }

  class PoWSpent {
    var salts: map<string, int>
    var pruneAt: int

    constructor ()
      ensures salts == map[] && pruneAt == FIRST_PRUNE
    {
      salts, pruneAt := map[], FIRST_PRUNE;
    }

    method Spend(salt: string, expiresAt: int, now: int) returns (accepted: bool)
      modifies this
      ensures accepted == !IsSpent(Spent(old(salts), old(pruneAt)), salt, now)
      ensures Spent(salts, pruneAt) == AfterSpend(Spent(old(salts), old(pruneAt)), salt, expiresAt, now)
    {
      if salt in salts && salts[salt] >= now {
        return false;
      }
      if |salts| >= pruneAt {
        var rest := salts.Keys;
        ghost var before := salts;
        while rest != {}
          invariant rest <= before.Keys && pruneAt == old(pruneAt)
          invariant salts == map s | s in before && (s in rest || now <= before[s]) :: before[s]
          decreases |rest|
        {
          var s :| s in rest;
          if salts[s] < now {
            salts := salts - {s};
          }
          rest := rest - {s};
        }
        assert salts == Unexpired(before, now);
        pruneAt := Max(1024, 2 * |salts|);
      }
      salts := salts[salt := expiresAt];
      accepted := true;
    }
  }

  /** A submission as it reaches the spent set: whether its signature and work checked out, and the
      clock when its salt was spent. */
  datatype Use = Use(checked: bool, salt: string, expiresAt: int, now: int)

  function After(uses: seq<Use>, n: nat): Spent
    requires n <= |uses|
  {
    if n == 0 then Spent(map[], FIRST_PRUNE)
    else
      var p, u := After(uses, n - 1), uses[n - 1];
      if u.checked then AfterSpend(p, u.salt, u.expiresAt, u.now) else p
  }

  predicate Accepted(uses: seq<Use>, i: nat)
    requires i < |uses|
  {
    uses[i].checked && !IsSpent(After(uses, i), uses[i].salt, uses[i].now)
  }

  /** The clock does not step back. */
  ghost predicate ClockAdvances(uses: seq<Use>) {
    forall i, j :: 0 <= i < j < |uses| ==> uses[i].now <= uses[j].now
  }

  /** Some accepted use among the first `n` still covers `salt` at `now`. */
  ghost predicate Covered(uses: seq<Use>, n: nat, salt: string, now: int)
    requires n <= |uses|
  {
    exists i :: 0 <= i < n && Accepted(uses, i) && uses[i].salt == salt && uses[i].expiresAt >= now
  }

  /** The pruned set answers like a ledger of everything ever accepted. */
  lemma {:induction false} SetIsLedger(uses: seq<Use>, n: nat, salt: string, now: int)
    requires ClockAdvances(uses) && n <= |uses| && (n > 0 ==> uses[n - 1].now <= now)
    ensures IsSpent(After(uses, n), salt, now) <==> Covered(uses, n, salt, now)
  {
    if n > 0 {
      var u := uses[n - 1];
      assert n > 1 ==> uses[n - 2].now <= u.now;
      SetIsLedger(uses, n - 1, salt, now);
      LedgerGrows(uses, n, salt, now);
      if Accepted(uses, n - 1) && u.salt == salt {
        SetIsLedger(uses, n - 1, salt, u.now);
        assert !Covered(uses, n - 1, salt, u.now);
        assert !Covered(uses, n - 1, salt, now);
      }
    }
  }

  lemma LedgerGrows(uses: seq<Use>, n: nat, salt: string, now: int)
    requires 0 < n <= |uses|
    ensures Covered(uses, n, salt, now)
       <==> (Covered(uses, n - 1, salt, now)
             || (Accepted(uses, n - 1) && uses[n - 1].salt == salt && uses[n - 1].expiresAt >= now))
  {
    if Covered(uses, n - 1, salt, now) {
      var i :| 0 <= i < n - 1 && Accepted(uses, i) && uses[i].salt == salt && uses[i].expiresAt >= now;
    }
  }

  /** A checked submission is accepted exactly when no accepted one before it spent the salt for a
      time that is not over; so two spends of a salt are never both accepted before the first expires. */
  lemma SpentOnce(uses: seq<Use>, j: nat)
    requires ClockAdvances(uses) && j < |uses| && uses[j].checked
    ensures Accepted(uses, j)
       <==> forall i :: 0 <= i < j && Accepted(uses, i) && uses[i].salt == uses[j].salt ==>
         uses[i].expiresAt < uses[j].now
  {
    assert j > 0 ==> uses[j - 1].now <= uses[j].now;
    SetIsLedger(uses, j, uses[j].salt, uses[j].now);
  }

  lemma {:induction false} SetStaysBounded(uses: seq<Use>, n: nat)
    requires n <= |uses|
    ensures |After(uses, n).salts| <= After(uses, n).pruneAt && FIRST_PRUNE <= After(uses, n).pruneAt
  {
    if n > 0 {
      SetStaysBounded(uses, n - 1);
    }
  }

  /** Entries looked at by all prunes up to the `n`th use. */
  function Scanned(uses: seq<Use>, n: nat): nat
    requires n <= |uses|
  {
    if n == 0 then 0
    else
      Scanned(uses, n - 1)
      + if Accepted(uses, n - 1) && Prunes(After(uses, n - 1)) then |After(uses, n - 1).salts| else 0
  }

  function AcceptedCount(uses: seq<Use>, n: nat): nat
    requires n <= |uses|
  {
    if n == 0 then 0 else AcceptedCount(uses, n - 1) + if Accepted(uses, n - 1) then 1 else 0
  }

  /** The size of the set right after the last prune. */
  function LastSize(uses: seq<Use>, n: nat): nat
    requires n <= |uses|
  {
    if n == 0 then 0
    else if Accepted(uses, n - 1) && Prunes(After(uses, n - 1)) then
      |Unexpired(After(uses, n - 1).salts, uses[n - 1].now)|
    else LastSize(uses, n - 1)
  }

  /** Each prune is paid for by the spends since the one before it. */
  lemma {:induction false} PrunesArePaid(uses: seq<Use>, n: nat)
    requires n <= |uses|
    ensures Scanned(uses, n) + 2 * (|After(uses, n).salts| - LastSize(uses, n)) <= 2 * AcceptedCount(uses, n)
    ensures After(uses, n).pruneAt >= 2 * LastSize(uses, n) && LastSize(uses, n) <= |After(uses, n).salts|
  {
    if n > 0 {
      PrunesArePaid(uses, n - 1);
      SetStaysBounded(uses, n - 1);
    }
  }

  /** All the prunes of a run together look at no more than two entries per accepted submission. */
  lemma ScanningIsAmortised(uses: seq<Use>, n: nat)
    requires n <= |uses|
    ensures Scanned(uses, n) <= 2 * AcceptedCount(uses, n)
  {
    PrunesArePaid(uses, n);
  }

  // ----- verifying and spending together -----

  /** `checkedAt` and `spentAt` are the two clock readings of one call. */
  method VerifySolution(crypto: Crypto, s: Solution, spent: PoWSpent?, checkedAt: int, spentAt: int)
    returns (accepted: bool)
    modifies spent
    ensures spent == null ==> accepted == Verified(crypto, s, checkedAt)
    ensures spent != null ==>
      var before := Spent(old(spent.salts), old(spent.pruneAt));
      && accepted == (Verified(crypto, s, checkedAt) && !IsSpent(before, s.fields.salt, spentAt))
      && Spent(spent.salts, spent.pruneAt)
         == if Verified(crypto, s, checkedAt) then AfterSpend(before, s.fields.salt, s.fields.expiresAt, spentAt)
           else before
  {
    var c := s.fields;
    if c.algorithm != "SHA-256" || c.salt == "" || c.challenge == "" || c.signature == ""
       || s.number < 1 || c.maxNumber < 1 || s.number > c.maxNumber || c.expiresAt < checkedAt {
      return false;
    }
    if c.signature != crypto.mac(Payload(c)) {
      return false;
    }
    if crypto.hash(c.salt + Decimal(s.number)) != c.challenge {
      return false;
    }
    assert Verified(crypto, s, checkedAt);
    if spent == null {
      return true;
    }
    accepted := spent.Spend(c.salt, c.expiresAt, spentAt);
  }

  datatype Submission = Submission(solution: Solution, checkedAt: int, spentAt: int)

  function Uses(crypto: Crypto, subs: seq<Submission>): (uses: seq<Use>)
    ensures |uses| == |subs|
  {
    seq(|subs|, i requires 0 <= i < |subs| =>
      Use(Verified(crypto, subs[i].solution, subs[i].checkedAt), subs[i].solution.fields.salt,
          subs[i].solution.fields.expiresAt, subs[i].spentAt))
  }

  /** The server's challenges have salts of their own, and nobody else can sign. */
  ghost predicate Honest(crypto: Crypto, issued: set<Challenge>, subs: seq<Submission>) {
    && Usable(crypto) && (forall c :: c in issued ==> Issued(crypto, c))
    && (forall c, d :: c in issued && d in issued && c.salt == d.salt ==> c == d)
    && (forall i :: 0 <= i < |subs| ==> Unforgeable(crypto, issued, subs[i].solution))
  }

  lemma CheckedWasIssued(crypto: Crypto, issued: set<Challenge>, subs: seq<Submission>, i: nat)
    requires Honest(crypto, issued, subs) && i < |subs| && Uses(crypto, subs)[i].checked
    ensures subs[i].solution.fields in issued && subs[i].checkedAt <= subs[i].solution.fields.expiresAt
  {
    AcceptedWasIssued(crypto, issued, subs[i].solution, subs[i].checkedAt);
  }

  /** Once a challenge has bought an attempt it buys another exactly when the clock passes its expiry
      second between the check of a still valid submission and the spending of its salt. */
  lemma OneAttemptPerChallenge(crypto: Crypto, issued: set<Challenge>, subs: seq<Submission>, i: nat, j: nat)
    requires Honest(crypto, issued, subs) && ClockAdvances(Uses(crypto, subs)) && i < j < |subs|
    requires Accepted(Uses(crypto, subs), i) && Uses(crypto, subs)[j].checked
    requires subs[i].solution.fields.salt == subs[j].solution.fields.salt
    ensures subs[i].solution.fields == subs[j].solution.fields && subs[j].checkedAt <= subs[j].solution.fields.expiresAt
    ensures Accepted(Uses(crypto, subs), j) <==> subs[j].solution.fields.expiresAt < subs[j].spentAt
  {
    var uses := Uses(crypto, subs);
    CheckedWasIssued(crypto, issued, subs, i);
    CheckedWasIssued(crypto, issued, subs, j);
    SpentOnce(uses, j);
    if subs[j].solution.fields.expiresAt < subs[j].spentAt {
      forall k | 0 <= k < j && Accepted(uses, k) && uses[k].salt == uses[j].salt
        ensures uses[k].expiresAt < uses[j].now
      {
        CheckedWasIssued(crypto, issued, subs, k);
      }
    }
  }

  /** It does happen: the same solution, checked twice within the expiry second, is accepted twice. */
  lemma ExpiryTickBuysAgain(crypto: Crypto, s: Solution) returns (subs: seq<Submission>)
    requires Verified(crypto, s, s.fields.expiresAt)
    ensures |subs| == 2 && subs[0].solution == subs[1].solution == s && ClockAdvances(Uses(crypto, subs))
    ensures Accepted(Uses(crypto, subs), 0) && Accepted(Uses(crypto, subs), 1)
  {
    var e := s.fields.expiresAt;
    subs := [Submission(s, e, e), Submission(s, e, e + 1)];
    TickBetween(Uses(crypto, subs), e);
  }

  lemma TickBetween(uses: seq<Use>, e: int)
    requires |uses| == 2 && uses[0].checked && uses[1].checked
    requires uses[0].expiresAt == uses[0].now == e && uses[1].now == e + 1
    ensures ClockAdvances(uses) && Accepted(uses, 0) && Accepted(uses, 1)
  {
    SpentOnce(uses, 0);
    SpentOnce(uses, 1);
  }
}
