/** Which address a request counts for (internal/auth/clientip.go), the list of trusted proxies it is
    decided by, and how that list is read (internal/config/config.go:306-349). */
module ClientAddress {
  import opened Basics
  import opened Powers

  // ----- net/netip -----

  /** An address as a number, with the zone an IPv6 one may have. */
  datatype Addr = V4(bits: nat) | V6(bits: nat, zone: string)

  function BitLen(a: Addr): nat { if a.V4? then 32 else 128 }

  predicate IsAddr(a: Addr) { a.bits < Pow2(BitLen(a)) }

  const TOP: nat := 0x1_0000_0000

  predicate Is4In6(a: Addr) { a.V6? && a.bits / TOP == 0xFFFF }

  function Unmap(a: Addr): Addr {
    if Is4In6(a) then V4(a.bits % TOP) else a
  }

  function Mapped(a: Addr): Addr
    requires a.V4?
  {
    V6(0xFFFF * TOP + a.bits, "")
  }

  /** Mapping an IPv4 address into IPv6 and back changes nothing, the other way round neither, and no other address
      is touched. */
  lemma UnmapInverts(a: Addr)
    ensures a.V4? && a.bits < TOP ==> Unmap(Mapped(a)) == a
    ensures Unmap(a) == a || (a.V6? && Unmap(a).V4? && Mapped(Unmap(a)).bits == a.bits)
  {
  }

  datatype Prefix = Prefix(addr: Addr, bits: nat)

  predicate IsPrefix(p: Prefix) {
    IsAddr(p.addr) && p.bits <= BitLen(p.addr) && (p.addr.V6? ==> p.addr.zone == "")
  }

  /** PrefixFrom: it drops the zone and keeps the host bits. */
  function PrefixFrom(a: Addr, bits: nat): Prefix {
    Prefix(if a.V6? then a.(zone := "") else a, bits)
  }

  function Block(p: Prefix): nat
    requires p.bits <= BitLen(p.addr)
  {
    Pow2(BitLen(p.addr) - p.bits)
  }

  function Masked(p: Prefix): Prefix
    requires IsPrefix(p)
  {
    var masked := Floor(p.addr.bits, Block(p));
    Prefix(if p.addr.V4? then V4(masked) else V6(masked, ""), p.bits)
  }

  /** Prefix.Contains: never across families and never an address with a zone. */
  predicate Contains(p: Prefix, a: Addr)
    requires IsPrefix(p)
  {
    && p.addr.V4? == a.V4? && (a.V6? ==> a.zone == "")
    && a.bits / Block(p) == p.addr.bits / Block(p)
  }

  lemma MaskedContains(p: Prefix, a: Addr)
    requires IsPrefix(p)
    ensures IsPrefix(Masked(p)) && (Contains(Masked(p), a) <==> Contains(p, a))
  {
  }

  // ----- strings -----

  function Split(s: string): (parts: seq<string>)
    ensures |parts| > 0
  {
    if s == "" then [""] else Prefixed(s[0], Split(s[1..]))
  }

  /** The parts of `c` followed by a text with these parts. */
  function Prefixed(c: char, parts: seq<string>): (longer: seq<string>)
    requires |parts| > 0
    ensures |longer| > 0
  {
    if c == ',' then [""] + parts else [[c] + parts[0]] + parts[1..]
  }

  lemma PrefixedFirst(c: char, parts: seq<string>, more: seq<string>)
    requires |parts| > 0
    ensures Prefixed(c, parts + more) == Prefixed(c, parts) + more
  {
  }

  function Join(lines: seq<string>): string {
    if lines == [] then ""
    else if |lines| == 1 then lines[0]
    else lines[0] + "," + Join(lines[1..])
  }

  lemma {:induction false} SplitConcat(s: string, t: string)
    ensures Split(s + "," + t) == Split(s) + Split(t)
  {
    var whole := s + "," + t;
    if s == "" {
      assert whole[0] == ',' && whole[1..] == t;
    } else {
      SplitConcat(s[1..], t);
      assert whole[1..] == s[1..] + "," + t && whole[0] == s[0];
      PrefixedFirst(s[0], Split(s[1..]), Split(t));
    }
  }

  lemma {:induction false} JoinConcat(lines: seq<string>, more: seq<string>)
    requires lines != [] && more != []
    ensures Join(lines + more) == Join(lines) + "," + Join(more)
  {
    if |lines| == 1 {
      assert (lines + more)[1..] == more;
    } else {
      JoinConcat(lines[1..], more);
      assert (lines + more)[1..] == lines[1..] + more;
    }
  }

  // ----- the library, as far as its text goes -----

  /** net/netip and net as functions of text: ParseAddr, ParsePrefix, the host of SplitHostPort,
      Addr.String and Prefix.String. */
  datatype Net = Net(parseAddr: string -> Option<Addr>, parsePrefix: string -> Option<Prefix>,
                     host: string -> Option<string>, show: Addr -> string, showPrefix: Prefix -> string)

  /** What is assumed of them: only real addresses and zone-free prefixes come out, and different
      prefixes are written differently. */
  ghost predicate Sound(net: Net) {
    && (forall text: string :: net.parseAddr(text).Some? ==> IsAddr(net.parseAddr(text).value))
    && (forall text: string :: net.parsePrefix(text).Some? ==> IsPrefix(net.parsePrefix(text).value))
    && (forall p: Prefix, q: Prefix :: IsPrefix(p) && IsPrefix(q) && net.showPrefix(p) == net.showPrefix(q) ==> p == q)
  }

  function PeerIP(net: Net, remote: string): string {
    var host := match net.host(remote) case Some(h) => h case None => Trim(remote, c => c == '[' || c == ']');
    match net.parseAddr(host)
    case Some(a) => net.show(Unmap(a))
    case None => host
  }

  function ParseEntry(net: Net, entry: string): Option<Addr> {
    match net.parseAddr(entry)
    case Some(a) => Some(Unmap(a))
    case None =>
      match net.host(entry)
      case None => None
      case Some(host) =>
        match net.parseAddr(host)
        case Some(a) => Some(Unmap(a))
        case None => None
  }

  // ----- the walk -----

  ghost predicate Prefixes(trusted: seq<Prefix>) {
    forall p :: p in trusted ==> IsPrefix(p)
  }

  predicate Trusted(trusted: seq<Prefix>, a: Addr)
    requires Prefixes(trusted)
  {
    exists p :: p in trusted && Contains(p, a)
  }

  method IsTrusted(a: Addr, trusted: seq<Prefix>) returns (found: bool)
    requires Prefixes(trusted)
    ensures found <==> Trusted(trusted, a)
  {
    for i := 0 to |trusted|
      invariant forall j :: 0 <= j < i ==> !Contains(trusted[j], a)
    {
      if Contains(trusted[i], a) {
        return true;
      }
    }
    found := false;
  }

  /** The X-Forwarded-For entries of all header lines, left to right. */
  function Entries(lines: seq<string>): seq<string> { Split(Join(lines)) }

  /** An entry the walk does not pass: it does not parse, or names no trusted proxy. */
  predicate Ends(net: Net, trusted: seq<Prefix>, entry: string)
    requires Prefixes(trusted)
  {
    var parsed := ParseEntry(net, TrimSpace(entry));
    parsed.None? || !Trusted(trusted, parsed.value)
  }

  /** The answer for a trusted peer: entries are passed from the right until one ends the walk. */
  function Walk(net: Net, trusted: seq<Prefix>, peer: string, entries: seq<string>): string
    requires Prefixes(trusted)
  {
    if entries == [] then peer
    else
      var last := |entries| - 1;
      if Ends(net, trusted, entries[last]) then
        match ParseEntry(net, TrimSpace(entries[last])) case None => peer case Some(a) => net.show(a)
      else Walk(net, trusted, peer, entries[..last])
  }

  function Attribution(net: Net, trusted: seq<Prefix>, remote: string, lines: seq<string>): string
    requires Prefixes(trusted)
  {
    var peer := PeerIP(net, remote);
    if net.parseAddr(peer).None? || !Trusted(trusted, net.parseAddr(peer).value) then peer
    else Walk(net, trusted, peer, Entries(lines))
  }

  method ClientIP(net: Net, remote: string, lines: seq<string>, trusted: seq<Prefix>) returns (answer: string)
    requires Prefixes(trusted)
    ensures answer == Attribution(net, trusted, remote, lines)
  {
    var peer := PeerIP(net, remote);
    var peerAddr := net.parseAddr(peer);
    if peerAddr.None? {
      return peer;
    }
    var peerTrusted := IsTrusted(peerAddr.value, trusted);
    if !peerTrusted {
      return peer;
    }
    var parts := Split(Join(lines));
    var i := |parts| - 1;
    assert parts == parts[..i + 1];
    while i >= 0
      invariant -1 <= i < |parts|
      invariant Walk(net, trusted, peer, parts) == Walk(net, trusted, peer, parts[..i + 1])
    {
      assert parts[..i + 1][..i] == parts[..i];
      var addr := ParseEntry(net, TrimSpace(parts[i]));
      if addr.None? {
        return peer;
      }
      var known := IsTrusted(addr.value, trusted);
      if !known {
        return net.show(addr.value);
      }
      i := i - 1;
    }
    answer := peer;
  }

  /** The walk is decided at the rightmost entry that ends it, wherever that is. */
  lemma {:induction false} WalkEndsRightmost(net: Net, trusted: seq<Prefix>, peer: string, entries: seq<string>, i: nat)
    requires Prefixes(trusted) && i < |entries| && Ends(net, trusted, entries[i])
    requires forall j :: i < j < |entries| ==> !Ends(net, trusted, entries[j])
    ensures Walk(net, trusted, peer, entries)
      == match ParseEntry(net, TrimSpace(entries[i])) case None => peer case Some(a) => net.show(a)
    decreases |entries|
  {
    if i < |entries| - 1 {
      WalkEndsRightmost(net, trusted, peer, entries[..|entries| - 1], i);
    }
  }

  /** The answer is the peer, or an address that is no trusted proxy and no IPv4 address in IPv6
      clothing. */
  lemma {:induction false} WalkFindsUntrusted(net: Net, trusted: seq<Prefix>, peer: string, entries: seq<string>)
    requires Prefixes(trusted) && Sound(net)
    ensures Walk(net, trusted, peer, entries) == peer
         || exists a ::
              Walk(net, trusted, peer, entries) == net.show(a) && !Trusted(trusted, a) && !Is4In6(a) && IsAddr(a)
    decreases |entries|
  {
    if entries != [] {
      var last := |entries| - 1;
      if Ends(net, trusted, entries[last]) {
        if ParseEntry(net, TrimSpace(entries[last])).Some? {
          EntryIsPlain(net, TrimSpace(entries[last]));
        }
      } else {
        WalkFindsUntrusted(net, trusted, peer, entries[..last]);
      }
    }
  }

  /** What the last entry does: an address, bare or with a port, is passed when it is a trusted proxy and is the
      answer when not, without its port and as IPv4 if it is a mapped one; anything else leaves the peer. */
  lemma LastEntryDecides(net: Net, trusted: seq<Prefix>, peer: string, front: seq<string>, entry: string)
    requires Prefixes(trusted)
    ensures
      var text, answer := TrimSpace(entry), Walk(net, trusted, peer, front + [entry]);
      && (forall a, host ::
        || net.parseAddr(text) == Some(a)
        || (net.parseAddr(text) == None && net.host(text) == Some(host) && net.parseAddr(host) == Some(a)) ==>
        answer == if Trusted(trusted, Unmap(a)) then Walk(net, trusted, peer, front) else net.show(Unmap(a)))
      && (net.parseAddr(text) == None && net.host(text) == None ==> answer == peer)
      && (forall host :: net.parseAddr(text) == None && net.host(text) == Some(host) && net.parseAddr(host) == None ==>
        answer == peer)
  {
    WalkByLast(net, trusted, peer, front, entry);
  }

  /** The peer is the host of the remote address without its port, an IPv6 one without brackets, a mapped one as
      IPv4; text that is no address stays as it is. */
  lemma PeerIsHost(net: Net, remote: string)
    ensures forall host, a :: net.host(remote) == Some(host) && net.parseAddr(host) == Some(a) ==>
      PeerIP(net, remote) == net.show(Unmap(a))
    ensures forall host :: net.host(remote) == Some(host) && net.parseAddr(host) == None ==> PeerIP(net, remote) == host
    ensures net.host(remote) == None && '[' !in remote && ']' !in remote ==>
      PeerIP(net, remote)
        == match net.parseAddr(remote) case Some(a) => net.show(Unmap(a)) case None => remote
  {
    if net.host(remote) == None && '[' !in remote && ']' !in remote {
      NothingTrimmed(remote, c => c == '[' || c == ']');
    }
  }

  lemma NothingTrimmed(text: string, cut: char -> bool)
    requires forall c :: c in text ==> !cut(c)
    ensures Trim(text, cut) == text
  {
    if text != "" {
      assert text[0] in text && text[|text| - 1] in text;
    }
  }

  lemma EntryIsPlain(net: Net, entry: string)
    requires Sound(net) && ParseEntry(net, entry).Some?
    ensures !Is4In6(ParseEntry(net, entry).value) && IsAddr(ParseEntry(net, entry).value)
  {
    Pow2Of32();
  }

  /** Some entry ends the walk. */
  predicate Decides(net: Net, trusted: seq<Prefix>, entries: seq<string>)
    requires Prefixes(trusted)
  {
    exists e :: e in entries && Ends(net, trusted, e)
  }

  lemma DecidesByLast(net: Net, trusted: seq<Prefix>, entries: seq<string>)
    requires Prefixes(trusted) && entries != []
    ensures
      var last := |entries| - 1;
      Decides(net, trusted, entries) <==> Ends(net, trusted, entries[last]) || Decides(net, trusted, entries[..last])
  {
    var last := |entries| - 1;
    assert entries == entries[..last] + [entries[last]] && entries[last] in entries;
    if e :| e in entries[..last] && Ends(net, trusted, e) {
      assert e in entries;
    }
  }

  lemma WalkByLast(net: Net, trusted: seq<Prefix>, peer: string, front: seq<string>, last: string)
    requires Prefixes(trusted)
    ensures Walk(net, trusted, peer, front + [last])
         == if !Ends(net, trusted, last) then Walk(net, trusted, peer, front)
            else match ParseEntry(net, TrimSpace(last)) case None => peer case Some(a) => net.show(a)
  {
    assert (front + [last])[..|front|] == front;
  }

  /** What stands before the entries the proxies appended changes nothing if the walk ends among
      those; if it does not, the answer is what the entries before them give. */
  lemma {:induction false} WalkIgnoresForged(net: Net, trusted: seq<Prefix>, peer: string, forged: seq<string>,
                                             entries: seq<string>)
    requires Prefixes(trusted)
    ensures Walk(net, trusted, peer, forged + entries)
         == if Decides(net, trusted, entries) then Walk(net, trusted, peer, entries)
            else Walk(net, trusted, peer, forged)
    decreases |entries|
  {
    if entries == [] {
      assert forged + entries == forged;
    } else {
      DecidesByLast(net, trusted, entries);
      var front, last := entries[..|entries| - 1], entries[|entries| - 1];
      assert entries == front + [last] && forged + entries == (forged + front) + [last];
      WalkByLast(net, trusted, peer, front, last);
      WalkByLast(net, trusted, peer, forged + front, last);
      WalkIgnoresForged(net, trusted, peer, forged, front);
    }
  }

  /** Header lines a caller sends ahead of those of the proxies: for an untrusted peer they never
      count, and for a trusted one only if every entry the proxies sent is itself a trusted proxy. */
  lemma ForgedLines(net: Net, trusted: seq<Prefix>, remote: string, forged: seq<string>, lines: seq<string>)
    requires Prefixes(trusted) && lines != []
    ensures Decides(net, trusted, Entries(lines))
         ==> Attribution(net, trusted, remote, forged + lines) == Attribution(net, trusted, remote, lines)
    ensures net.parseAddr(PeerIP(net, remote)).None? || !Trusted(trusted, net.parseAddr(PeerIP(net, remote)).value)
         ==> Attribution(net, trusted, remote, forged + lines) == PeerIP(net, remote)
  {
    if forged == [] {
      assert forged + lines == lines;
    } else {
      JoinConcat(forged, lines);
      SplitConcat(Join(forged), Join(lines));
      WalkIgnoresForged(net, trusted, PeerIP(net, remote), Entries(forged), Entries(lines));
    }
  }

  /** The same for a header line the proxies appended to: text before the comma is as good as a line. */
  lemma ForgedText(forged: string, first: string, lines: seq<string>)
    ensures Entries([forged + "," + first] + lines) == Entries([forged] + ([first] + lines))
  {
    var one, two, rest := [forged + "," + first] + lines, [forged] + ([first] + lines), [first] + lines;
    assert two[1..] == rest && one[1..] == lines && rest[1..] == lines;
    assert Join(two) == forged + "," + Join(rest);
    if lines == [] {
      assert Join(one) == forged + "," + first && Join(rest) == first;
    } else {
      assert Join(one) == forged + "," + first + "," + Join(lines) && Join(rest) == first + "," + Join(lines);
    }
    assert Join(one) == Join(two);
  }

  // ----- reading the list of trusted proxies -----

  function UnmapPrefix(p: Prefix): Prefix {
    if !Is4In6(p.addr) || p.bits < 96 then p else PrefixFrom(Unmap(p.addr), p.bits - 96)
  }

  lemma QuotientBelow(l: nat, k: nat, q: nat)
    requires q > 0 && l < k * q
    ensures l / q < k
  {
    assert (k - l / q) * q == k * q - l / q * q;
    MultiplesAreFarApart(k - l / q, q);
  }

  /** Dividing `h` and `l`, written after each other in base `k * q`, by `q`. */
  lemma HighDigits(h: nat, l: nat, k: nat, q: nat)
    requires q > 0 && l < k * q
    ensures (h * (k * q) + l) / q == h * k + l / q && l / q < k
  {
    assert h * (k * q) == (h * k) * q;
    DivPlus(h * k, l, q);
    QuotientBelow(l, k, q);
  }

  /** Two numbers in base `k` are equal exactly when their digits are. */
  lemma SameDigits(h: nat, l: nat, g: nat, m: nat, k: nat)
    requires l < k && m < k
    ensures h * k + l == g * k + m <==> h == g && l == m
  {
    if h * k + l == g * k + m {
      DivUnique(h * k + l, h, k, l);
      DivUnique(g * k + m, g, k, m);
    }
  }

  lemma SameBlock(x: nat, h: nat, l: nat, k: nat, q: nat)
    requires q > 0 && k > 0 && k * q == TOP && l < TOP
    ensures x / q == (h * TOP + l) / q <==> x / TOP == h && x % TOP / q == l / q
  {
    HighDigits(x / TOP, x % TOP, k, q);
    HighDigits(h, l, k, q);
    SameDigits(x / TOP, x % TOP / q, h, l / q, k);
  }

  /** Rewriting an IPv4-mapped prefix keeps exactly its IPv4 members; a prefix too short to be
      rewritten matches no IPv4 address at all. */
  lemma UnmapPrefixKeepsMembers(p: Prefix, a: Addr)
    requires IsPrefix(p) && p.addr.V6? && a.V4? && IsAddr(a)
    ensures IsPrefix(UnmapPrefix(p))
    ensures Contains(UnmapPrefix(p), a) <==> p.bits >= 96 && Contains(p, Mapped(a))
  {
    Pow2Of32();
    if p.bits >= 96 {
      var m := 128 - p.bits;
      Pow2Adds(32 - m, m);
      SameBlock(p.addr.bits, 0xFFFF, a.bits, Pow2(32 - m), Pow2(m));
    }
  }

  datatype Reason = BadCidr | TrustsEveryAddress | BadIp

  datatype Parsed = Ok(prefixes: seq<Prefix>) | Err(reason: Reason, field: string)

  /** What one trimmed, nonempty field becomes, or why it is refused. */
  function ParseField(net: Net, field: string): Parsed
    requires Sound(net)
  {
    if '/' in field then
      match net.parsePrefix(field)
      case None => Err(BadCidr, field)
      case Some(p) =>
        assert IsPrefix(UnmapPrefix(p)) by { UnmapIsPrefix(p); }
        if UnmapPrefix(p).bits == 0 then Err(TrustsEveryAddress, field) else Ok([Masked(UnmapPrefix(p))])
    else
      match net.parseAddr(field)
      case None => Err(BadIp, field)
      case Some(a) => Ok([PrefixFrom(Unmap(a), BitLen(Unmap(a)))])
  }

  lemma UnmapIsPrefix(p: Prefix)
    requires IsPrefix(p)
    ensures IsPrefix(UnmapPrefix(p))
  {
    Pow2Of32();
  }

  /** The prefixes of all fields in order, blanks skipped, or the first refusal. */
  function ParseFields(net: Net, fields: seq<string>): Parsed
    requires Sound(net)
  {
    if fields == [] then Ok([])
    else
      var last := |fields| - 1;
      match ParseFields(net, fields[..last])
      case Err(reason, field) => Err(reason, field)
      case Ok(prefixes) =>
        var field := TrimSpace(fields[last]);
        if field == "" then Ok(prefixes)
        else
          match ParseField(net, field)
          case Err(reason, bad) => Err(reason, bad)
          case Ok(more) => Ok(prefixes + more)
  }

  method ParseTrustedProxies(net: Net, raw: string) returns (parsed: Parsed)
    requires Sound(net)
    ensures parsed == ParseFields(net, Split(raw))
  {
    var fields := Split(raw);
    var out := [];
    for i := 0 to |fields|
      invariant ParseFields(net, fields[..i]) == Ok(out)
    {
      assert fields[..i + 1][..i] == fields[..i];
      var field := TrimSpace(fields[i]);
      if field != "" {
        var one := ParseField(net, field);
        if one.Err? {
          RefusalStands(net, fields, i + 1);
          return one;
        }
        out := out + one.prefixes;
      }
    }
    assert fields[..|fields|] == fields;
    parsed := Ok(out);
  }

  lemma {:induction false} RefusalStands(net: Net, fields: seq<string>, n: nat)
    requires Sound(net) && n <= |fields| && ParseFields(net, fields[..n]).Err?
    ensures ParseFields(net, fields) == ParseFields(net, fields[..n])
    decreases |fields| - n
  {
    if n == |fields| {
      assert fields[..n] == fields;
    } else {
      assert fields[..n + 1][..n] == fields[..n];
      RefusalStands(net, fields, n + 1);
    }
  }

  /** A list is read exactly when every field that is not blank is an address, or a CIDR block that
      does not mean a whole family. */
  lemma {:induction false} ReadWhenEveryFieldIs(net: Net, fields: seq<string>)
    requires Sound(net)
    ensures ParseFields(net, fields).Ok?
       <==> forall f :: f in fields && TrimSpace(f) != "" ==> ParseField(net, TrimSpace(f)).Ok?
  {
    if fields != [] {
      var last := |fields| - 1;
      assert fields == fields[..last] + [fields[last]] && fields[last] in fields;
      assert forall f :: f in fields[..last] ==> f in fields;
      ReadWhenEveryFieldIs(net, fields[..last]);
    }
  }

  /** Why a field is refused: it is neither an address nor, with a slash, a block, or the block is a whole family,
      IPv4 written as IPv6-mapped included. */
  lemma FieldIsRefusedFor(net: Net, field: string)
    requires Sound(net)
    ensures ParseField(net, field) == Err(BadIp, field) <==> '/' !in field && net.parseAddr(field) == None
    ensures ParseField(net, field) == Err(BadCidr, field) <==> '/' in field && net.parsePrefix(field) == None
    ensures ParseField(net, field) == Err(TrustsEveryAddress, field) <==>
      && '/' in field && net.parsePrefix(field).Some?
      && var p := net.parsePrefix(field).value; p.bits == 0 || (Is4In6(p.addr) && p.bits == 96)
    ensures ParseField(net, field).Err? ==> ParseField(net, field).field == field
  {
    if '/' in field && net.parsePrefix(field).Some? {
      UnmapIsPrefix(net.parsePrefix(field).value);
    }
  }

  /** A list that is refused is refused for its first field that is. */
  lemma {:induction false} RefusedForTheFirst(net: Net, fields: seq<string>) returns (i: nat)
    requires Sound(net) && ParseFields(net, fields).Err?
    ensures i < |fields| && TrimSpace(fields[i]) != ""
    ensures ParseField(net, TrimSpace(fields[i])) == ParseFields(net, fields)
    ensures forall j :: 0 <= j < i && TrimSpace(fields[j]) != "" ==> ParseField(net, TrimSpace(fields[j])).Ok?
  {
    i := |fields| - 1;
    if ParseFields(net, fields[..i]).Err? {
      i := RefusedForTheFirst(net, fields[..i]);
    } else {
      ReadWhenEveryFieldIs(net, fields[..i]);
      assert forall j :: 0 <= j < i ==> fields[j] in fields[..i];
    }
  }

  /** The addresses a field names: all of a CIDR block's, IPv4 ones also by their IPv6-mapped form;
      a bare address by itself, whatever its zone. */
  ghost predicate Names(net: Net, field: string, a: Addr)
    requires Sound(net)
  {
    && (a.V6? ==> a.zone == "")
    && if '/' in field then
         && net.parsePrefix(field).Some?
         && var p := net.parsePrefix(field).value;
            if p.addr.V6? && a.V4? then p.bits >= 96 && Contains(p, Mapped(a)) else Contains(p, a)
       else
         net.parseAddr(field).Some? && a.V4? == Unmap(net.parseAddr(field).value).V4?
           && a.bits == Unmap(net.parseAddr(field).value).bits
  }

  lemma PlainNotInMapped(p: Prefix, a: Addr)
    requires IsPrefix(p) && Is4In6(p.addr) && p.bits >= 96 && a.V6? && !Is4In6(a)
    ensures !Contains(p, a)
  {
    Pow2Of32();
    var m := 128 - p.bits;
    Pow2Adds(32 - m, m);
    assert p.addr.bits == 0xFFFF * TOP + p.addr.bits % TOP;
    SameBlock(a.bits, 0xFFFF, p.addr.bits % TOP, Pow2(32 - m), Pow2(m));
  }

  lemma FieldTrustsWhatItNames(net: Net, field: string, a: Addr)
    requires Sound(net) && ParseField(net, field).Ok? && IsAddr(a) && !Is4In6(a)
    ensures |ParseField(net, field).prefixes| == 1 && IsPrefix(ParseField(net, field).prefixes[0])
    ensures ParseField(net, field).prefixes[0].bits > 0
    ensures Contains(ParseField(net, field).prefixes[0], a) <==> Names(net, field, a)
  {
    Pow2Of32();
    if '/' in field {
      var p := net.parsePrefix(field).value;
      UnmapIsPrefix(p);
      MaskedContains(UnmapPrefix(p), a);
      if p.addr.V6? && a.V4? {
        UnmapPrefixKeepsMembers(p, a);
      } else if a.V6? && Is4In6(p.addr) && p.bits >= 96 {
        PlainNotInMapped(p, a);
      }
    } else {
      assert Pow2(0) == 1;
    }
  }

  /** The accepted list is the union of its fields: an address as peers and entries are read is
      trusted exactly when some field names it. */
  lemma {:induction false} ListIsUnion(net: Net, fields: seq<string>, a: Addr)
    requires Sound(net) && ParseFields(net, fields).Ok? && IsAddr(a) && !Is4In6(a)
    ensures Prefixes(ParseFields(net, fields).prefixes)
    ensures Trusted(ParseFields(net, fields).prefixes, a)
       <==> exists f :: f in fields && TrimSpace(f) != "" && Names(net, TrimSpace(f), a)
  {
    if fields != [] {
      var last := |fields| - 1;
      var before, field := fields[..last], TrimSpace(fields[last]);
      ListIsUnion(net, before, a);
      assert fields == before + [fields[last]];
      if field != "" {
        FieldTrustsWhatItNames(net, field, a);
        var one := ParseField(net, field).prefixes;
        assert ParseFields(net, fields).prefixes == ParseFields(net, before).prefixes + one;
        TrustedByEither(ParseFields(net, before).prefixes, one[0], a);
        assert one == [one[0]];
      }
      NamedByEither(net, before, fields[last], a);
    }
  }

  lemma TrustedByEither(prefixes: seq<Prefix>, p: Prefix, a: Addr)
    requires Prefixes(prefixes) && IsPrefix(p)
    ensures Prefixes(prefixes + [p])
    ensures Trusted(prefixes + [p], a) <==> Trusted(prefixes, a) || Contains(p, a)
  {
    assert p in prefixes + [p];
    assert forall q :: q in prefixes ==> q in prefixes + [p];
  }

  lemma NamedByEither(net: Net, fields: seq<string>, field: string, a: Addr)
    requires Sound(net)
    ensures (exists f :: f in fields + [field] && TrimSpace(f) != "" && Names(net, TrimSpace(f), a))
       <==> (exists f :: f in fields && TrimSpace(f) != "" && Names(net, TrimSpace(f), a))
            || (TrimSpace(field) != "" && Names(net, TrimSpace(field), a))
  {
    assert field in fields + [field];
    assert forall f :: f in fields ==> f in fields + [field];
  }

  /** No accepted prefix has zero bits, so each leaves out some address of its family. */
  lemma {:induction false} AcceptedLeavesSomeOut(net: Net, fields: seq<string>, p: Prefix)
    requires Sound(net) && ParseFields(net, fields).Ok? && p in ParseFields(net, fields).prefixes
    ensures IsPrefix(p) && p.bits > 0
    ensures exists a :: IsAddr(a) && a.V4? == p.addr.V4? && (a.V6? ==> a.zone == "") && !Contains(p, a)
  {
    var last := |fields| - 1;
    var field := TrimSpace(fields[last]);
    if p in ParseFields(net, fields[..last]).prefixes {
      AcceptedLeavesSomeOut(net, fields[..last], p);
    } else {
      FieldTrustsWhatItNames(net, field, V4(0));
      SomeLeftOut(p);
    }
  }

  lemma SomeLeftOut(p: Prefix)
    requires IsPrefix(p) && p.bits > 0
    ensures exists a :: IsAddr(a) && a.V4? == p.addr.V4? && (a.V6? ==> a.zone == "") && !Contains(p, a)
  {
    var size, half := BitLen(p.addr), Pow2(BitLen(p.addr) - 1);
    Pow2Adds(p.bits - 1, size - p.bits);
    DivUnique(half, Pow2(p.bits - 1), Block(p), 0);
    var top := if p.addr.bits < half then half else 0;
    if p.addr.bits < half {
      QuotientBelow(p.addr.bits, Pow2(p.bits - 1), Block(p));
    } else {
      OneOrMore(p.addr.bits, Pow2(p.bits - 1), Block(p));
    }
    var a := if p.addr.V4? then V4(top) else V6(top, "");
    assert !Contains(p, a);
  }

  lemma OneOrMore(x: nat, k: nat, q: nat)
    requires q > 0 && k > 0 && x >= k * q
    ensures x / q > 0
  {
    MultiplesAreFarApart(k, q);
    assert x == x / q * q + x % q;
  }

  // ----- what a whole list leaves out -----

  function At(v4: bool, bits: nat): Addr {
    if v4 then V4(bits) else V6(bits, "")
  }

  predicate InFamily(a: Addr, v4: bool) {
    IsAddr(a) && a == At(v4, a.bits)
  }

  /** The number right after the last address of the prefix. */
  function Next(p: Prefix): nat
    requires IsPrefix(p)
  {
    Floor(p.addr.bits, Block(p)) + Block(p)
  }

  ghost predicate TrustsFamily(trusted: seq<Prefix>, v4: bool)
    requires Prefixes(trusted)
  {
    forall a :: InFamily(a, v4) ==> Trusted(trusted, a)
  }

  /** Address zero is trusted, and so is the one after each prefix that ends before the family does. */
  ghost predicate NoGap(trusted: seq<Prefix>, v4: bool)
    requires Prefixes(trusted)
  {
    && Trusted(trusted, At(v4, 0))
    && forall p :: p in trusted && p.addr.V4? == v4 && Next(p) < Pow2(BitLen(p.addr)) ==>
      Trusted(trusted, At(v4, Next(p)))
  }

  /** One past an address of a prefix is in the prefix or right after it. */
  lemma StaysOrLeaves(p: Prefix, x: nat)
    requires IsPrefix(p) && x / Block(p) == p.addr.bits / Block(p)
    ensures (x + 1) / Block(p) == p.addr.bits / Block(p) || x + 1 == Next(p)
  {
    SameFloor(x, p.addr.bits, Block(p));
    NextQuotient(x, Block(p));
  }

  lemma {:induction false} NoGapReaches(trusted: seq<Prefix>, v4: bool, x: nat)
    requires Prefixes(trusted) && NoGap(trusted, v4) && x < Pow2(BitLen(At(v4, 0)))
    ensures Trusted(trusted, At(v4, x))
  {
    if x > 0 {
      NoGapReaches(trusted, v4, x - 1);
      var p :| p in trusted && Contains(p, At(v4, x - 1));
      StaysOrLeaves(p, x - 1);
      if x / Block(p) == p.addr.bits / Block(p) {
        assert Contains(p, At(v4, x));
      }
    }
  }

  /** A list trusts every address of a family exactly when it trusts address zero and, for each prefix of
      the family that ends below its top, also the address right after that prefix. */
  lemma TrustsFamilyWithoutGap(trusted: seq<Prefix>, v4: bool)
    requires Prefixes(trusted)
    ensures TrustsFamily(trusted, v4) <==> NoGap(trusted, v4)
  {
    if NoGap(trusted, v4) {
      forall a | InFamily(a, v4) ensures Trusted(trusted, a) {
        NoGapReaches(trusted, v4, a.bits);
      }
    } else {
      assert InFamily(At(v4, 0), v4);
      assert forall p :: p in trusted && p.addr.V4? == v4 && Next(p) < Pow2(BitLen(p.addr)) ==>
        InFamily(At(v4, Next(p)), v4);
    }
  }

  const LOWER_HALF := Prefix(V4(0), 1)
  const UPPER_HALF := Prefix(V4(0x8000_0000), 1)

  lemma HalvesArePrefixes()
    ensures IsPrefix(LOWER_HALF) && IsPrefix(UPPER_HALF)
    ensures Block(LOWER_HALF) == Block(UPPER_HALF) == 0x8000_0000
  {
    Pow2Of32();
    assert Pow2(32) == 2 * Pow2(31);
  }

  lemma {:induction false} SplitPlain(s: string)
    requires ',' !in s
    ensures Split(s) == [s]
  {
    if s != "" {
      SplitPlain(s[1..]);
      assert s == [s[0]] + s[1..];
    }
  }

  lemma MultipleIsMasked(p: Prefix, k: nat)
    requires IsPrefix(p) && p.addr == V4(k * Block(p))
    ensures Masked(p) == p
  {
    DivUnique(p.addr.bits, k, Block(p), 0);
  }

  lemma MaskedIsRead(net: Net, field: string, p: Prefix)
    requires Sound(net) && '/' in field && net.parsePrefix(field) == Some(p)
    requires IsPrefix(p) && p.addr.V4? && p.bits > 0 && Masked(p) == p
    ensures ParseField(net, field) == Ok([p])
  {
  }

  lemma HalvesAreMasked()
    ensures IsPrefix(LOWER_HALF) && Masked(LOWER_HALF) == LOWER_HALF
    ensures IsPrefix(UPPER_HALF) && Masked(UPPER_HALF) == UPPER_HALF
  {
    HalvesArePrefixes();
    MultipleIsMasked(LOWER_HALF, 0);
    MultipleIsMasked(UPPER_HALF, 1);
  }

  lemma HalvesAreRead(net: Net, a: string, b: string)
    requires Sound(net) && ',' !in a && ',' !in b && '/' in TrimSpace(a) && '/' in TrimSpace(b)
    requires net.parsePrefix(TrimSpace(a)) == Some(LOWER_HALF) && net.parsePrefix(TrimSpace(b)) == Some(UPPER_HALF)
    ensures ParseFields(net, Split(a + "," + b)) == Ok([LOWER_HALF, UPPER_HALF])
  {
    SplitConcat(a, b);
    SplitPlain(a);
    SplitPlain(b);
    HalvesAreMasked();
    MaskedIsRead(net, TrimSpace(a), LOWER_HALF);
    MaskedIsRead(net, TrimSpace(b), UPPER_HALF);
    BothAreRead(net, a, b, LOWER_HALF, UPPER_HALF);
  }

  /** The guard is per entry: a list that names a half each is accepted, and trusts all of IPv4. */
  lemma TwoHalvesTrustEveryAddress(net: Net, a: string, b: string)
    requires Sound(net) && ',' !in a && ',' !in b && '/' in TrimSpace(a) && '/' in TrimSpace(b)
    requires net.parsePrefix(TrimSpace(a)) == Some(LOWER_HALF) && net.parsePrefix(TrimSpace(b)) == Some(UPPER_HALF)
    ensures
      var halves := [LOWER_HALF, UPPER_HALF];
      ParseFields(net, Split(a + "," + b)) == Ok(halves) && Prefixes(halves) && TrustsFamily(halves, true)
  {
    HalvesAreRead(net, a, b);
    HalvesLeaveNoGap();
    TrustsFamilyWithoutGap([LOWER_HALF, UPPER_HALF], true);
  }

  lemma HalvesLeaveNoGap()
    ensures Prefixes([LOWER_HALF, UPPER_HALF]) && NoGap([LOWER_HALF, UPPER_HALF], true)
  {
    HalvesArePrefixes();
    Pow2Of32();
    NextAfter(LOWER_HALF, 0, 0x8000_0000);
    NextAfter(UPPER_HALF, 0x8000_0000, 0x8000_0000);
    TwoLeaveNoGap(LOWER_HALF, UPPER_HALF);
  }

  lemma NextAfter(p: Prefix, bits: nat, size: nat)
    requires IsPrefix(p) && p.addr == V4(bits) && Block(p) == size && bits % size == 0
    ensures Next(p) == bits + size
  {
  }

  lemma TwoLeaveNoGap(low: Prefix, high: Prefix)
    requires IsPrefix(low) && IsPrefix(high) && low.addr == V4(0) && high.addr == V4(Next(low))
      && Next(high) == Pow2(32)
    ensures Prefixes([low, high]) && NoGap([low, high], true)
  {
    var both := [low, high];
    assert low in both && high in both;
    assert Contains(low, V4(0)) && Contains(high, V4(Next(low)));
  }

  lemma BothAreRead(net: Net, a: string, b: string, p: Prefix, q: Prefix)
    requires Sound(net) && TrimSpace(a) != "" && TrimSpace(b) != ""
    requires ParseField(net, TrimSpace(a)) == Ok([p]) && ParseField(net, TrimSpace(b)) == Ok([q])
    ensures ParseFields(net, [a, b]) == Ok([p, q])
  {
    assert [a, b][..1] == [a] && [a][..0] == [];
    assert ParseFields(net, [a]) == Ok([p]);
  }

  // ----- rate limits -----

  function RateLimitKey(net: Net, ip: string): string
    requires Sound(net)
  {
    match net.parseAddr(ip)
    case None => ip
    case Some(a) => if a.V4? || Is4In6(a) then ip else net.showPrefix(Masked(PrefixFrom(a, 64)))
  }

  /** IPv4 addresses, mapped ones and text that is no address are their own keys. */
  lemma OthersAreTheirOwnKey(net: Net, ip: string)
    requires Sound(net)
    ensures net.parseAddr(ip) == None ==> RateLimitKey(net, ip) == ip
    ensures forall a :: net.parseAddr(ip) == Some(a) && (a.V4? || a.bits / TOP == 0xFFFF) ==>
      RateLimitKey(net, ip) == ip
  {
  }

  /** Two plain IPv6 addresses share a key exactly when their top 64 bits agree. */
  lemma KeyIsTop64Bits(net: Net, x: string, y: string)
    requires Sound(net) && net.parseAddr(x).Some? && net.parseAddr(y).Some?
    requires var a := net.parseAddr(x).value; a.V6? && !Is4In6(a)
    requires var b := net.parseAddr(y).value; b.V6? && !Is4In6(b)
    ensures RateLimitKey(net, x) == RateLimitKey(net, y)
       <==> net.parseAddr(x).value.bits / Pow2(64) == net.parseAddr(y).value.bits / Pow2(64)
  {
    var a, b := net.parseAddr(x).value, net.parseAddr(y).value;
    SameFloor(a.bits, b.bits, Pow2(64));
  }
}
