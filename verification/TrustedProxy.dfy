/** Trusted ingress proxies and the client address behind them. Parsing of address text is a
    parameter: `Syntax` gives the pure parsers of the standard library. */
module TrustedProxy {
  import opened Text

  /** An IP address. `bits` is its value, most significant bit first. */
  datatype Addr = Addr(v6: bool, bits: nat, zoned: bool)

  /** An address prefix; prefixes carry no zone. */
  datatype Prefix = Prefix(v6: bool, bits: nat, length: nat)

  datatype Syntax = Syntax(
    parseAddr: string -> Option<Addr>,
    parsePrefix: string -> Option<Prefix>,
    splitHostPort: string -> Option<string>,
    urlOk: string -> bool)

  function Pow2(n: nat): (p: nat)
    ensures p > 0
  {
    if n == 0 then 1 else 2 * Pow2(n - 1)
  }

  function Width(v6: bool): nat {
    if v6 then 128 else 32
  }

  // ---- addresses ----

  predicate Is4In6(a: Addr) {
    a.v6 && a.bits / Pow2(32) == 0xffff
  }

  function Unmap(a: Addr): Addr {
    if Is4In6(a) then Addr(false, a.bits % Pow2(32), false) else a
  }

  predicate IsUnspecified(a: Addr) {
    a.bits == 0 && !a.zoned
  }

  predicate IsMulticast(a: Addr) {
    var u := Unmap(a);
    if u.v6 then u.bits / Pow2(120) == 0xff else u.bits / Pow2(28) == 0xe
  }

  predicate Usable(a: Addr) {
    !a.zoned && !IsUnspecified(a) && !IsMulticast(a)
  }

  /** The addresses that are never accepted: the unspecified ones, and multicast, which is 224.0.0.0/4 (also
      when mapped into IPv6) and ff00::/8. */
  lemma UsableMeans(a: Addr)
    requires a.bits < Pow2(Width(a.v6))
    ensures var u := if a.v6 && 0xffff_0000_0000 <= a.bits < 0x1_0000_0000_0000
                     then Addr(false, a.bits - 0xffff_0000_0000, false) else a;
      && Unmap(a) == u
      && (Usable(a) <==>
            && !a.zoned && a.bits != 0
            && if u.v6 then u.bits < 0xff00_0000_0000_0000_0000_0000_0000_0000
               else u.bits < 0xe000_0000 || 0xf000_0000 <= u.bits)
  {
    hide Pow2;
    FewPowers();
    MorePowers();
    assert a.bits == a.bits / 0x1_0000_0000 * 0x1_0000_0000 + a.bits % 0x1_0000_0000;
  }

  // ---- prefixes ----

  predicate ValidPrefix(p: Prefix) {
    p.length <= Width(p.v6)
  }

  function Block(p: Prefix): (size: nat)
    requires ValidPrefix(p)
    ensures size > 0
  {
    Pow2(Width(p.v6) - p.length)
  }

  function AlignDown(x: nat, m: nat): nat
    requires m > 0
  {
    x / m * m
  }

  function Masked(p: Prefix): Prefix
    requires ValidPrefix(p)
  {
    p.(bits := AlignDown(p.bits, Block(p)))
  }

  predicate Holds(p: Prefix, a: Addr)
    requires ValidPrefix(p)
  {
    !a.zoned && p.v6 == a.v6 && p.bits / Block(p) == a.bits / Block(p)
  }

  /** A prefix of length `n` leaves all but its first `n` bits free. */
  lemma BlockSize(p: Prefix)
    requires ValidPrefix(p)
    ensures Block(p) * Pow2(p.length) == Pow2(if p.v6 then 128 else 32)
  {
    PowersAdd(Width(p.v6) - p.length, p.length);
  }

  /** A prefix holds exactly the unzoned addresses of its family in one aligned block. */
  lemma HoldsIsBlock(p: Prefix, a: Addr)
    requires ValidPrefix(p)
    ensures Holds(p, a) <==>
      !a.zoned && p.v6 == a.v6 && Masked(p).bits <= a.bits < Masked(p).bits + Block(p)
  {
    var m := Block(p);
    SameQuotient(p.bits, a.bits, m);
  }

  lemma {:induction false} MultiplesApart(a: nat, b: nat, m: nat)
    ensures a < b ==> a * m + m <= b * m
    decreases b
  {
    if a + 1 < b {
      MultiplesApart(a, b - 1, m);
    }
    assert b > 0 ==> b * m == (b - 1) * m + m;
  }

  lemma SameQuotient(x: nat, y: nat, m: nat)
    requires m > 0
    ensures x / m == y / m <==> x / m * m <= y < x / m * m + m
  {
    assert y == y / m * m + y % m;
    MultiplesApart(x / m, y / m, m);
    MultiplesApart(y / m, x / m, m);
  }

  lemma AlignedQuotient(x: nat, m: nat)
    requires m > 0
    ensures AlignDown(x, m) / m == x / m
    ensures AlignDown(AlignDown(x, m), m) == AlignDown(x, m)
  {
    var q := x / m;
    var y := q * m;
    assert y == y / m * m + y % m;
    MultiplesApart(q, y / m, m);
    MultiplesApart(y / m, q, m);
    assert y / m == q;
  }

  /** Masking a prefix changes which address it names, not which addresses it holds. */
  lemma MaskingKeepsMembership(p: Prefix, a: Addr)
    requires ValidPrefix(p)
    ensures Holds(Masked(p), a) <==> Holds(p, a)
    ensures Masked(Masked(p)) == Masked(p)
  {
    AlignedQuotient(p.bits, Block(p));
  }

  // ---- configuration entries ----

  function EntryPrefix(syn: Syntax, entry: string): Option<Prefix> {
    if '/' in entry then syn.parsePrefix(entry)
    else match syn.parseAddr(entry)
      case None => None
      case Some(a) => Some(PrefixFrom(a, Width(a.v6)))
  }

  function WithoutZone(a: Addr): Addr {
    a.(zoned := false)
  }

  /** A prefix of an address; the zone of the address is dropped first. */
  function PrefixFrom(a: Addr, length: nat): Prefix {
    var plain := WithoutZone(a);
    Prefix(plain.v6, plain.bits, length)
  }

  /** The address a prefix is written with. */
  function AddrOf(p: Prefix): Addr {
    Addr(p.v6, p.bits, false)
  }

  /** An address that may be trusted as an entry of its own. */
  predicate Trustable(a: Addr) {
    !a.zoned && !IsUnspecified(a) && !IsMulticast(a) && !Is4In6(a)
  }

  function ParseEntry(syn: Syntax, raw: string): (r: Option<Prefix>)
    ensures r.Some? ==> ValidPrefix(r.value)
  {
    var entry := Trim(raw);
    if entry == "" then None
    else match EntryPrefix(syn, entry)
      case None => None
      case Some(p) =>
        if !ValidPrefix(p) || !Trustable(AddrOf(p)) then None
        else Some(Masked(p))
  }

  /** An entry is accepted when it is an address or a prefix and not unspecified, multicast, or IPv4 mapped
      into IPv6; an address stands for its own prefix of full length. */
  lemma EntryMeans(syn: Syntax, raw: string)
    requires forall a | syn.parseAddr(Trim(raw)) == Some(a) :: a.bits < Pow2(Width(a.v6))
    requires forall p | syn.parsePrefix(Trim(raw)) == Some(p) :: p.bits < Pow2(Width(p.v6))
    ensures var entry := Trim(raw);
      var p := if '/' in entry then syn.parsePrefix(entry)
               else if syn.parseAddr(entry).Some? then
                 var a := syn.parseAddr(entry).value; Some(Prefix(a.v6, a.bits, if a.v6 then 128 else 32))
               else None;
      && (ParseEntry(syn, raw).Some? <==>
            && entry != "" && p.Some? && p.value.length <= (if p.value.v6 then 128 else 32) && p.value.bits != 0
            && if p.value.v6
               then p.value.bits < 0xff00_0000_0000_0000_0000_0000_0000_0000
                 && !(0xffff_0000_0000 <= p.value.bits < 0x1_0000_0000_0000)
               else p.value.bits < 0xe000_0000 || 0xf000_0000 <= p.value.bits)
      && (ParseEntry(syn, raw).Some? ==> ParseEntry(syn, raw) == Some(Masked(p.value)))
  {
    hide Trim, Pow2, Block;
    var entry := Trim(raw);
    if EntryPrefix(syn, entry).Some? {
      var p := EntryPrefix(syn, entry).value;
      UsableMeans(AddrOf(p));
      MappedMeans(AddrOf(p));
    }
  }

  lemma MappedMeans(a: Addr)
    ensures Is4In6(a) <==> a.v6 && 0xffff_0000_0000 <= a.bits < 0x1_0000_0000_0000
  {
    FewPowers();
  }

  /** The zone check on a bare address never decides: the entry is accepted if and only if its address
      without the zone may be trusted, and it then trusts that address and no other. */
  lemma BareEntryIgnoresItsZone(syn: Syntax, raw: string, a: Addr)
    requires Trim(raw) != "" && '/' !in Trim(raw) && syn.parseAddr(Trim(raw)) == Some(a)
    ensures ParseEntry(syn, raw).Some? <==> Trustable(WithoutZone(a))
    ensures Trustable(WithoutZone(a)) ==>
      forall b :: Holds(ParseEntry(syn, raw).value, b) <==> b == WithoutZone(a)
  {
    var p := PrefixFrom(a, Width(a.v6));
    assert Block(p) == 1;
    if Trustable(WithoutZone(a)) {
      forall b
        ensures Holds(ParseEntry(syn, raw).value, b) <==> b == WithoutZone(a)
      {
        MaskingKeepsMembership(p, b);
        HoldsIsBlock(p, b);
      }
    }
  }

  /** Such an entry: a link-local address with its zone is accepted, and trusted on every link. */
  lemma ZonedEntryIsAccepted(syn: Syntax)
    requires syn.parseAddr("fe80::1%e") == Some(Addr(true, 0xfe80_0000_0000_0000_0000_0000_0000_0001, true))
    ensures ParseEntry(syn, "fe80::1%e") == Some(Prefix(true, 0xfe80_0000_0000_0000_0000_0000_0000_0001, 128))
  {
    var entry := "fe80::1%e";
    var a := Addr(true, 0xfe80_0000_0000_0000_0000_0000_0000_0001, true);
    assert TrimLeft(entry) == entry && TrimRight(entry) == entry;
    FewPowers();
    assert Trustable(WithoutZone(a));
    BareEntryIgnoresItsZone(syn, entry, a);
    assert Block(PrefixFrom(a, 128)) == 1;
  }

  lemma FewPowers()
    ensures Pow2(32) == 0x1_0000_0000 && Pow2(120) == 0x100_0000_0000_0000_0000_0000_0000_0000
  {
    PowerProduct(2, 2, 4, 4);
    PowerProduct(4, 4, 16, 16);
    PowerProduct(8, 8, 0x100, 0x100);
    PowerProduct(16, 16, 0x1_0000, 0x1_0000);
    PowerProduct(32, 32, 0x1_0000_0000, 0x1_0000_0000);
    PowerProduct(64, 32, 0x1_0000_0000_0000_0000, 0x1_0000_0000);
    PowerProduct(96, 16, 0x1_0000_0000_0000_0000_0000_0000, 0x1_0000);
    PowerProduct(112, 8, 0x1_0000_0000_0000_0000_0000_0000_0000, 0x100);
  }

  lemma MorePowers()
    ensures Pow2(28) == 0x1000_0000 && Pow2(128) == 0x1_0000_0000_0000_0000_0000_0000_0000_0000
  {
    FewPowers();
    PowerProduct(2, 2, 4, 4);
    PowerProduct(4, 4, 16, 16);
    PowerProduct(8, 8, 0x100, 0x100);
    PowerProduct(16, 8, 0x1_0000, 0x100);
    PowerProduct(24, 4, 0x100_0000, 0x10);
    PowerProduct(120, 8, 0x100_0000_0000_0000_0000_0000_0000_0000, 0x100);
  }

  lemma PowerProduct(m: nat, n: nat, v: nat, w: nat)
    requires Pow2(m) == v && Pow2(n) == w
    ensures Pow2(m + n) == v * w
  {
    PowersAdd(m, n);
  }

  lemma {:induction false} PowersAdd(m: nat, n: nat)
    ensures Pow2(m + n) == Pow2(m) * Pow2(n)
  {
    if n > 0 {
      PowersAdd(m, n - 1);
      assert Pow2(m + n) == 2 * (Pow2(m) * Pow2(n - 1));
    }
  }

  /** The policy named by a list of entries, or nothing when one of them is not acceptable. */
  function Policy(syn: Syntax, entries: seq<string>): (r: Option<seq<Prefix>>)
    ensures r.Some? ==> |r.value| == |entries| && forall p | p in r.value :: ValidPrefix(p)
  {
    if entries == [] then Some([])
    else match (Policy(syn, entries[..|entries| - 1]), ParseEntry(syn, entries[|entries| - 1]))
      case (Some(front), Some(last)) => Some(front + [last])
      case _ => None
  }

  /** The addresses a policy trusts are those held by the prefixes as written in the configuration:
      normalising an entry to its block changes nothing. */
  lemma PolicyTrustsEntries(syn: Syntax, entries: seq<string>, a: Addr)
    requires Policy(syn, entries).Some?
    ensures Trusts(Policy(syn, entries).value, a) <==>
      exists i :: 0 <= i < |entries| && EntryPrefix(syn, Trim(entries[i])).Some?
        && ValidPrefix(EntryPrefix(syn, Trim(entries[i])).value) && Holds(EntryPrefix(syn, Trim(entries[i])).value, a)
  {
    hide Holds, EntryPrefix, Trustable;
    if entries != [] {
      var front := entries[..|entries| - 1];
      var last := Trim(entries[|entries| - 1]);
      PolicyTrustsEntries(syn, front, a);
      var p := EntryPrefix(syn, last).value;
      MaskingKeepsMembership(p, a);
      var policy := Policy(syn, entries).value;
      assert policy == Policy(syn, front).value + [Masked(p)];
      forall i | 0 <= i < |front|
        ensures entries[i] == front[i]
      {
      }
      assert Trusts(policy, a) <==> Trusts(Policy(syn, front).value, a) || Holds(Masked(p), a);
    }
  }

  /** A policy exists when every entry is acceptable, and has one prefix for each. */
  lemma {:induction false} PolicyMeans(syn: Syntax, entries: seq<string>)
    ensures Policy(syn, entries).Some? <==> forall i | 0 <= i < |entries| :: ParseEntry(syn, entries[i]).Some?
    ensures Policy(syn, entries).Some? ==>
      forall i | 0 <= i < |entries| :: Some(Policy(syn, entries).value[i]) == ParseEntry(syn, entries[i])
  {
    hide ParseEntry;
    if entries != [] {
      var n := |entries| - 1;
      PolicyMeans(syn, entries[..n]);
      forall i | 0 <= i < n
        ensures entries[..n][i] == entries[i]
      {
      }
    }
  }

  method ParseTrustedProxyPrefixes(syn: Syntax, entries: seq<string>) returns (r: Option<seq<Prefix>>)
    ensures r == Policy(syn, entries)
    ensures r.Some? <==> forall i | 0 <= i < |entries| :: ParseEntry(syn, entries[i]).Some?
    ensures r.Some? ==> |r.value| == |entries| && forall i | 0 <= i < |entries| :: Some(r.value[i]) == ParseEntry(syn, entries[i])
  {
    PolicyMeans(syn, entries);
    hide ParseEntry;
    var prefixes := [];
    for i := 0 to |entries|
      invariant Policy(syn, entries[..i]) == Some(prefixes)
    {
      var prefix := ParseEntry(syn, entries[i]);
      assert entries[..i + 1][..i] == entries[..i];
      if prefix.None? {
        return None;
      }
      prefixes := prefixes + [prefix.value];
    }
    assert entries[..|entries|] == entries;
    return Some(prefixes);
  }

  // ---- client resolution ----

  ghost predicate ValidPolicy(policy: seq<Prefix>) {
    forall p | p in policy :: ValidPrefix(p)
  }

  predicate Trusts(policy: seq<Prefix>, a: Addr)
    requires ValidPolicy(policy)
  {
    exists p | p in policy :: Holds(p, a)
  }

  function ParsePeer(syn: Syntax, remote: string): Option<Addr> {
    var value := Trim(remote);
    if value == "" then None
    else
      var split := syn.splitHostPort(value);
      match syn.parseAddr(if split.Some? then split.value else value)
      case None => None
      case Some(a) => if Usable(a) then Some(Unmap(a)) else None
  }

  function ParseHop(syn: Syntax, part: string): Option<Addr> {
    match syn.parseAddr(Trim(part))
    case None => None
    case Some(a) => if Usable(a) then Some(Unmap(a)) else None
  }

  /** A chain with one more address, if both can be read. */
  function WithLast(x: Option<seq<Addr>>, last: Option<Addr>): Option<seq<Addr>> {
    if x.Some? && last.Some? then Some(x.value + [last.value]) else None
  }

  /** A peer is an address, with or without a port, that may be used; an IPv4 address mapped into IPv6 is the
      IPv4 address. A hop of a forwarding header is the same without a port. */
  lemma PeersAndHopsMean(syn: Syntax, text: string, x: Addr)
    ensures ParsePeer(syn, text) == Some(x) <==>
      && Trim(text) != ""
      && exists a ::
        && syn.parseAddr(if syn.splitHostPort(Trim(text)).Some? then syn.splitHostPort(Trim(text)).value else Trim(text)) == Some(a)
        && Usable(a) && x == Unmap(a)
    ensures ParseHop(syn, text) == Some(x) <==> exists a :: syn.parseAddr(Trim(text)) == Some(a) && Usable(a) && x == Unmap(a)
  {
    hide Trim, Usable, Unmap;
  }

  function Hops(syn: Syntax, parts: seq<string>): (r: Option<seq<Addr>>)
    ensures r.Some? ==> |r.value| == |parts|
  {
    if parts == [] then Some([])
    else WithLast(Hops(syn, parts[..|parts| - 1]), ParseHop(syn, parts[|parts| - 1]))
  }

  function Chain(syn: Syntax, forwarded: string): Option<seq<Addr>> {
    if Blank(forwarded) then None else Hops(syn, Split(forwarded, ','))
  }

  method ParseForwardedFor(syn: Syntax, value: string) returns (r: Option<seq<Addr>>)
    ensures r == Chain(syn, value)
  {
    if Blank(value) {
      return None;
    }
    var parts := Split(value, ',');
    var chain := [];
    for i := 0 to |parts|
      invariant Hops(syn, parts[..i]) == Some(chain)
    {
      var hop := ParseHop(syn, parts[i]);
      assert parts[..i + 1][..i] == parts[..i];
      if hop.None? {
        assert Hops(syn, parts[..i + 1]).None?;
        if Hops(syn, parts).Some? {
          HopsAt(syn, parts, i);
        }
        return None;
      }
      chain := chain + [hop.value];
    }
    assert parts[..|parts|] == parts;
    return Some(chain);
  }

  lemma {:induction false} HopsAt(syn: Syntax, parts: seq<string>, i: nat)
    requires i < |parts| && Hops(syn, parts).Some?
    ensures ParseHop(syn, parts[i]) == Some(Hops(syn, parts).value[i])
  {
    if i < |parts| - 1 {
      HopsAt(syn, parts[..|parts| - 1], i);
    }
  }

  /** The declared choice: the rightmost address the policy does not trust. */
  ghost predicate IsChoice(policy: seq<Prefix>, addrs: seq<Addr>, k: int)
    requires ValidPolicy(policy)
  {
    && 0 <= k < |addrs| && !Trusts(policy, addrs[k])
    && forall j | k < j < |addrs| :: Trusts(policy, addrs[j])
  }

  datatype Client = Rejected | Client(addr: Addr)

  /** The chain of addresses a request came through, its direct peer last. A chain that cannot be
      read matters only when the peer is trusted. */
  ghost function Path(syn: Syntax, policy: seq<Prefix>, remote: string, forwarded: string): Option<seq<Addr>>
    requires ValidPolicy(policy)
  {
    match ParsePeer(syn, remote)
    case None => None
    case Some(peer) =>
      if !Trusts(policy, peer) then Some([peer])
      else match Chain(syn, forwarded)
        case None => None
        case Some(chain) => Some(chain + [peer])
  }

  method ResolveClientAddress(syn: Syntax, policy: seq<Prefix>, remote: string, forwarded: string) returns (r: Client)
    requires ValidPolicy(policy)
    ensures r == Resolved(syn, policy, remote, forwarded)
  {
    var peer := ParsePeer(syn, remote);
    if peer.None? {
      return Rejected;
    }
    if !Trusts(policy, peer.value) {
      assert IsChoice(policy, [peer.value], 0);
      ChoiceUnique(policy, [peer.value]);
      return Client(peer.value);
    }
    var chain := ParseForwardedFor(syn, forwarded);
    if chain.None? {
      return Rejected;
    }
    ghost var path := chain.value + [peer.value];
    ChoiceUnique(policy, path);
    var i := |chain.value| - 1;
    while i >= 0
      invariant -1 <= i < |chain.value|
      invariant forall j | i < j < |path| :: Trusts(policy, path[j])
    {
      if !Trusts(policy, chain.value[i]) {
        assert IsChoice(policy, path, i);
        return Client(chain.value[i]);
      }
      i := i - 1;
    }
    return Rejected;
  }

  lemma ChoiceUnique(policy: seq<Prefix>, addrs: seq<Addr>)
    requires ValidPolicy(policy)
    ensures forall k, m | IsChoice(policy, addrs, k) && IsChoice(policy, addrs, m) :: k == m
  {
  }

  /** Client resolution as declared: the choice on the path, or a rejection when there is no path or
      no choice. */
  ghost function Resolved(syn: Syntax, policy: seq<Prefix>, remote: string, forwarded: string): Client
    requires ValidPolicy(policy)
  {
    match Path(syn, policy, remote, forwarded)
    case None => Rejected
    case Some(path) =>
      if exists k :: IsChoice(policy, path, k) then
        var k :| IsChoice(policy, path, k);
        Client(path[k])
      else Rejected
  }

  lemma HopsSnoc(syn: Syntax, front: seq<string>, part: string)
    ensures Hops(syn, front + [part]) == WithLast(Hops(syn, front), ParseHop(syn, part))
  {
    hide ParseHop;
    assert (front + [part])[..|front|] == front;
  }

  /** Both chains one after the other, if both can be read. */
  function Joined(x: Option<seq<Addr>>, y: Option<seq<Addr>>): Option<seq<Addr>> {
    if x.Some? && y.Some? then Some(x.value + y.value) else None
  }

  lemma JoinedLast(x: Option<seq<Addr>>, y: Option<seq<Addr>>, last: Option<Addr>)
    ensures Joined(x, WithLast(y, last)) == WithLast(Joined(x, y), last)
  {
    if x.Some? && y.Some? && last.Some? {
      assert x.value + (y.value + [last.value]) == x.value + y.value + [last.value];
    }
  }

  lemma HopsAppendNone(syn: Syntax, a: seq<string>)
    ensures Hops(syn, a + []) == Joined(Hops(syn, a), Hops(syn, []))
  {
    assert a + [] == a;
    if Hops(syn, a).Some? {
      assert Hops(syn, a).value + [] == Hops(syn, a).value;
    }
  }

  lemma {:induction false} HopsAppend(syn: Syntax, a: seq<string>, b: seq<string>)
    ensures Hops(syn, a + b) == Joined(Hops(syn, a), Hops(syn, b))
    decreases |b|
  {
    hide Hops, Joined;
    if b == [] {
      HopsAppendNone(syn, a);
    } else {
      var front := b[..|b| - 1];
      HopsAppend(syn, a, front);
      HopsAppendOne(syn, a, front, b[|b| - 1]);
      assert front + [b[|b| - 1]] == b;
    }
  }

  lemma HopsAppendOne(syn: Syntax, a: seq<string>, front: seq<string>, last: string)
    requires Hops(syn, a + front) == Joined(Hops(syn, a), Hops(syn, front))
    ensures Hops(syn, a + (front + [last])) == Joined(Hops(syn, a), Hops(syn, front + [last]))
  {
    hide Hops, ParseHop, Joined;
    HopsSnoc(syn, front, last);
    HopsSnoc(syn, a + front, last);
    assert a + (front + [last]) == a + front + [last];
    JoinedLast(Hops(syn, a), Hops(syn, front), ParseHop(syn, last));
  }

  lemma CommaNotBlank(s: string)
    requires ',' in s
    ensures !Blank(s)
  {
    TrimKeepsComma(s);
  }

  lemma TrimKeepsComma(s: string)
    requires ',' in s
    ensures ',' in Trim(s)
  {
    LeftKeepsComma(s);
    RightKeepsComma(TrimLeft(s));
  }

  lemma LeftKeepsComma(s: string)
    requires ',' in s
    ensures ',' in TrimLeft(s)
  {
  }

  lemma RightKeepsComma(s: string)
    requires ',' in s
    ensures ',' in TrimRight(s)
  {
    if IsSpace(s[|s| - 1]) {
      var k :| 0 <= k < |s| && s[k] == ',';
      assert s[..|s| - 1][k] == ',';
    }
  }

  lemma PrefixKeepsChoice(policy: seq<Prefix>, front: seq<Addr>, path: seq<Addr>, k: int)
    requires ValidPolicy(policy) && IsChoice(policy, path, k)
    ensures IsChoice(policy, front + path, |front| + k) && (front + path)[|front| + k] == path[k]
  {
    forall j | |front| + k < j < |front + path|
      ensures Trusts(policy, (front + path)[j])
    {
      assert (front + path)[j] == path[j - |front|];
    }
  }

  /** The chain of a text with more text in front of it: both parts must be readable. */
  lemma ChainAcross(syn: Syntax, left: string, forwarded: string)
    ensures Chain(syn, left + [','] + forwarded) == Joined(Hops(syn, Split(left, ',')), Hops(syn, Split(forwarded, ',')))
  {
    var text := left + [','] + forwarded;
    assert text[|left|] == ',';
    CommaNotBlank(text);
    SplitAcross(left, forwarded, ',');
    HopsAppend(syn, Split(left, ','), Split(forwarded, ','));
  }

  lemma ChosenOnPath(syn: Syntax, policy: seq<Prefix>, remote: string, forwarded: string, k: int)
    requires ValidPolicy(policy) && Path(syn, policy, remote, forwarded).Some?
    requires IsChoice(policy, Path(syn, policy, remote, forwarded).value, k)
    ensures Resolved(syn, policy, remote, forwarded) == Client(Path(syn, policy, remote, forwarded).value[k])
  {
    ChoiceUnique(policy, Path(syn, policy, remote, forwarded).value);
  }

  /** Text in front of an accepted chain changes the answer exactly when it cannot be read, and then
      only to a rejection; behind an untrusted peer it is never looked at. */
  lemma LeftTextCannotChoose(syn: Syntax, policy: seq<Prefix>, remote: string, left: string, forwarded: string)
    requires ValidPolicy(policy) && Resolved(syn, policy, remote, forwarded).Client?
    ensures Resolved(syn, policy, remote, left + [','] + forwarded) ==
      if !Trusts(policy, ParsePeer(syn, remote).value) || Hops(syn, Split(left, ',')).Some?
      then Resolved(syn, policy, remote, forwarded) else Rejected
  {
    hide Hops, Split, ParsePeer;
    var peer := ParsePeer(syn, remote).value;
    var readable := Hops(syn, Split(left, ','));
    ChainAcross(syn, left, forwarded);
    if Trusts(policy, peer) && readable.Some? {
      var chain := Chain(syn, forwarded).value;
      var path := chain + [peer];
      var k :| IsChoice(policy, path, k);
      PrefixKeepsChoice(policy, readable.value, path, k);
      assert readable.value + path == readable.value + chain + [peer];
      ChosenOnPath(syn, policy, remote, forwarded, k);
      ChosenOnPath(syn, policy, remote, left + [','] + forwarded, |readable.value| + k);
    }
  }

  /** A larger trusted set moves the choice left along the path, or rejects. */
  lemma MoreTrustMovesLeft(policy: seq<Prefix>, larger: seq<Prefix>, path: seq<Addr>, k: int)
    requires ValidPolicy(policy) && ValidPolicy(larger) && IsChoice(larger, path, k)
    requires forall a :: Trusts(policy, a) ==> Trusts(larger, a)
    ensures exists m :: k <= m && IsChoice(policy, path, m)
  {
    var m := |path| - 1;
    while Trusts(policy, path[m])
      invariant k <= m < |path|
      invariant forall j | m < j < |path| :: Trusts(policy, path[j])
      decreases m
    {
      assert m != k;
      m := m - 1;
    }
    assert IsChoice(policy, path, m);
  }

  /** Adding trusted entries to a configuration never turns a rejected request into an accepted one,
      and never moves an accepted choice towards the peer. */
  lemma AddingEntriesIsMonotone(syn: Syntax, policy: seq<Prefix>, more: seq<Prefix>, remote: string, forwarded: string)
    requires ValidPolicy(policy) && ValidPolicy(policy + more)
    requires Resolved(syn, policy + more, remote, forwarded).Client?
    ensures Resolved(syn, policy, remote, forwarded).Client?
    ensures Trusts(policy, ParsePeer(syn, remote).value) ==>
      var path := Path(syn, policy, remote, forwarded).value;
      exists k, m :: k <= m && IsChoice(policy + more, path, k) && IsChoice(policy, path, m)
        && Resolved(syn, policy + more, remote, forwarded).addr == path[k]
        && Resolved(syn, policy, remote, forwarded).addr == path[m]
  {
    var larger := policy + more;
    forall a | Trusts(policy, a)
      ensures Trusts(larger, a)
    {
      var p :| p in policy && Holds(p, a);
      assert p in larger;
    }
    var peer := ParsePeer(syn, remote).value;
    if !Trusts(policy, peer) {
      assert IsChoice(policy, [peer], 0);
    } else {
      var path := Path(syn, larger, remote, forwarded).value;
      var k :| IsChoice(larger, path, k);
      MoreTrustMovesLeft(policy, larger, path, k);
      var m :| k <= m && IsChoice(policy, path, m);
      ChoiceUnique(policy, path);
      ChoiceUnique(larger, path);
    }
  }

  // ---- when two policies resolve every client alike ----

  ghost predicate ClientsAlike(syn: Syntax, p: seq<Prefix>, q: seq<Prefix>)
    requires ValidPolicy(p) && ValidPolicy(q)
  {
    forall remote, forwarded :: Resolved(syn, p, remote, forwarded) == Resolved(syn, q, remote, forwarded)
  }

  /** The two policies agree about every address a peer can have. */
  ghost predicate PeersAgree(syn: Syntax, p: seq<Prefix>, q: seq<Prefix>)
    requires ValidPolicy(p) && ValidPolicy(q)
  {
    forall remote | ParsePeer(syn, remote).Some? ::
      Trusts(p, ParsePeer(syn, remote).value) <==> Trusts(q, ParsePeer(syn, remote).value)
  }

  /** The two policies agree about every address a forwarding header can name. */
  ghost predicate HopsAgree(syn: Syntax, p: seq<Prefix>, q: seq<Prefix>)
    requires ValidPolicy(p) && ValidPolicy(q)
  {
    forall part | ',' !in part && ParseHop(syn, part).Some? ::
      Trusts(p, ParseHop(syn, part).value) <==> Trusts(q, ParseHop(syn, part).value)
  }

  /** Some peer is trusted, so that forwarding headers are looked at. */
  ghost predicate SomePeerTrusted(syn: Syntax, p: seq<Prefix>)
    requires ValidPolicy(p)
  {
    exists remote :: ParsePeer(syn, remote).Some? && Trusts(p, ParsePeer(syn, remote).value)
  }

  lemma {:induction false} PartsHaveNoComma(s: string)
    ensures forall part | part in Split(s, ',') :: ',' !in part
    decreases |s|
  {
    SplitFirst(s, ',');
    if ',' in s {
      BeforeShorter(s, ',');
      PartsHaveNoComma(s[|Before(s, ',')| + 1..]);
    }
  }

  lemma HopsOfChainAgree(syn: Syntax, p: seq<Prefix>, q: seq<Prefix>, forwarded: string, i: nat)
    requires ValidPolicy(p) && ValidPolicy(q) && HopsAgree(syn, p, q)
    requires Chain(syn, forwarded).Some? && i < |Chain(syn, forwarded).value|
    ensures Trusts(p, Chain(syn, forwarded).value[i]) <==> Trusts(q, Chain(syn, forwarded).value[i])
  {
    hide Trusts, ParseHop, Split;
    var parts := Split(forwarded, ',');
    PartsHaveNoComma(forwarded);
    HopsAt(syn, parts, i);
    assert parts[i] in parts;
  }

  lemma SameChoice(p: seq<Prefix>, q: seq<Prefix>, path: seq<Addr>)
    requires ValidPolicy(p) && ValidPolicy(q)
    requires forall i | 0 <= i < |path| :: Trusts(p, path[i]) <==> Trusts(q, path[i])
    ensures forall k :: IsChoice(p, path, k) <==> IsChoice(q, path, k)
  {
    hide Trusts;
  }

  lemma AgreeingPoliciesResolveAlike(syn: Syntax, p: seq<Prefix>, q: seq<Prefix>, remote: string, forwarded: string)
    requires ValidPolicy(p) && ValidPolicy(q) && PeersAgree(syn, p, q)
    requires SomePeerTrusted(syn, p) ==> HopsAgree(syn, p, q)
    ensures Resolved(syn, p, remote, forwarded) == Resolved(syn, q, remote, forwarded)
  {
    hide Trusts, IsChoice, Chain, ParsePeer;
    var path := Path(syn, p, remote, forwarded);
    if path.Some? {
      var peer := ParsePeer(syn, remote).value;
      forall i | 0 <= i < |path.value|
        ensures Trusts(p, path.value[i]) <==> Trusts(q, path.value[i])
      {
        if i < |path.value| - 1 {
          HopsOfChainAgree(syn, p, q, forwarded, i);
        }
      }
      SameChoice(p, q, path.value);
      ChoiceUnique(p, path.value);
    }
  }

  /** A peer that only one of two policies trusts: without a header, only the other accepts it. */
  lemma PeerTellsApart(syn: Syntax, p: seq<Prefix>, q: seq<Prefix>, remote: string)
    requires ValidPolicy(p) && ValidPolicy(q) && ParsePeer(syn, remote).Some?
    requires Trusts(p, ParsePeer(syn, remote).value) && !Trusts(q, ParsePeer(syn, remote).value)
    ensures Resolved(syn, p, remote, "").Rejected? && Resolved(syn, q, remote, "") == Client(ParsePeer(syn, remote).value)
  {
    hide Trusts, ParsePeer;
    assert Blank("");
    assert IsChoice(q, [ParsePeer(syn, remote).value], 0);
    ChosenOnPath(syn, q, remote, "", 0);
  }

  /** A hop that only one of two policies trusts, named twice behind a peer that both trust. */
  lemma HopTellsApart(syn: Syntax, p: seq<Prefix>, q: seq<Prefix>, remote: string, part: string)
    requires ValidPolicy(p) && ValidPolicy(q) && ParsePeer(syn, remote).Some?
    requires Trusts(p, ParsePeer(syn, remote).value) && Trusts(q, ParsePeer(syn, remote).value)
    requires ',' !in part && ParseHop(syn, part).Some?
    requires Trusts(p, ParseHop(syn, part).value) && !Trusts(q, ParseHop(syn, part).value)
    ensures Resolved(syn, p, remote, part + [','] + part).Rejected?
    ensures Resolved(syn, q, remote, part + [','] + part) == Client(ParseHop(syn, part).value)
  {
    hide Trusts, ParsePeer, ParseHop;
    var hop, peer, text := ParseHop(syn, part).value, ParsePeer(syn, remote).value, part + [','] + part;
    SplitFirst(part, ',');
    OneHop(syn, part);
    ChainAcross(syn, part, part);
    assert [hop] + [hop] + [peer] == [hop, hop, peer];
    assert Path(syn, p, remote, text) == Some([hop, hop, peer]) == Path(syn, q, remote, text);
    assert IsChoice(q, [hop, hop, peer], 1);
    ChosenOnPath(syn, q, remote, text, 1);
  }

  lemma OneHop(syn: Syntax, part: string)
    requires ParseHop(syn, part).Some?
    ensures Hops(syn, [part]) == Some([ParseHop(syn, part).value])
  {
    HopsSnoc(syn, [], part);
    assert [] + [part] == [part] && [] + [ParseHop(syn, part).value] == [ParseHop(syn, part).value];
  }

  /** Two policies resolve every client alike if and only if they agree about every address a peer can have
      and, when some peer is trusted, about every address a forwarding header can name. */
  lemma PoliciesAlikeExactly(syn: Syntax, p: seq<Prefix>, q: seq<Prefix>)
    requires ValidPolicy(p) && ValidPolicy(q)
    ensures ClientsAlike(syn, p, q) <==> PeersAgree(syn, p, q) && (SomePeerTrusted(syn, p) ==> HopsAgree(syn, p, q))
  {
    hide Trusts, ParsePeer, ParseHop, Resolved;
    if PeersAgree(syn, p, q) && (SomePeerTrusted(syn, p) ==> HopsAgree(syn, p, q)) {
      forall remote, forwarded
        ensures Resolved(syn, p, remote, forwarded) == Resolved(syn, q, remote, forwarded)
      {
        AgreeingPoliciesResolveAlike(syn, p, q, remote, forwarded);
      }
    } else if !PeersAgree(syn, p, q) {
      var remote :| ParsePeer(syn, remote).Some?
        && Trusts(p, ParsePeer(syn, remote).value) != Trusts(q, ParsePeer(syn, remote).value);
      if Trusts(p, ParsePeer(syn, remote).value) {
        PeerTellsApart(syn, p, q, remote);
      } else {
        PeerTellsApart(syn, q, p, remote);
      }
    } else {
      var remote :| ParsePeer(syn, remote).Some? && Trusts(p, ParsePeer(syn, remote).value);
      var part :| ',' !in part && ParseHop(syn, part).Some?
        && Trusts(p, ParseHop(syn, part).value) != Trusts(q, ParseHop(syn, part).value);
      if Trusts(p, ParseHop(syn, part).value) {
        HopTellsApart(syn, p, q, remote, part);
      } else {
        HopTellsApart(syn, q, p, remote, part);
      }
    }
  }
}
