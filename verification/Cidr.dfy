/** Addresses as bit strings, the blocks networks stand for, and the allowlist test made on them. */
module Cidr {

  datatype Family = IPv4 | IPv6

  function Width(f: Family): nat {
    if f.IPv4? then 32 else 128
  }

  datatype Ip = Ip(family: Family, bits: nat)

  /** An address with the number of leading bits that count; the rest may hold anything. */
  datatype Network = Network(family: Family, address: nat, prefix: nat)

  predicate ValidNetwork(n: Network) {
    n.prefix <= Width(n.family)
  }

  function HostBits(n: Network): nat
    requires ValidNetwork(n)
  {
    Width(n.family) - n.prefix
  }

  /** `x` without its last `n` bits. */
  function Shift(x: nat, n: nat): nat {
    if n == 0 then x else Shift(x / 2, n - 1)
  }

  /** `x` with its last `n` bits cleared. */
  function Masked(x: nat, n: nat): nat {
    if n == 0 then x else 2 * Masked(x / 2, n - 1)
  }

  predicate Covers(n: Network, ip: Ip)
    requires ValidNetwork(n)
  {
    n.family == ip.family && Shift(ip.bits, HostBits(n)) == Shift(n.address, HostBits(n))
  }

  /** Postgres' `a >>= b`: b lies within a, or equals it. */
  predicate ContainsNetwork(a: Network, b: Network)
    requires ValidNetwork(a) && ValidNetwork(b)
  {
    a.prefix <= b.prefix && Covers(a, Ip(b.family, b.address))
  }

  ghost predicate ShareAddress(a: Network, b: Network)
    requires ValidNetwork(a) && ValidNetwork(b)
  {
    exists ip :: Covers(a, ip) && Covers(b, ip)
  }

  function Single(ip: Ip): (n: Network)
    ensures ValidNetwork(n)
  {
    Network(ip.family, ip.bits, Width(ip.family))
  }

  /** The /24 (IPv4) or /64 (IPv6) around an address. */
  function Surrounding(ip: Ip): (n: Network)
    ensures ValidNetwork(n)
  {
    var prefix := if ip.family.IPv4? then 24 else 64;
    Network(ip.family, Masked(ip.bits, Width(ip.family) - prefix), prefix)
  }

  // ---- blocks are nested or disjoint ----------------------------------------------------

  lemma {:induction false} ShiftTwice(x: nat, m: nat, n: nat)
    ensures Shift(x, m + n) == Shift(Shift(x, m), n)
    decreases m
  {
    if m > 0 {
      ShiftTwice(x / 2, m - 1, n);
    }
  }

  lemma {:induction false} ShiftMasked(x: nat, n: nat)
    ensures Shift(Masked(x, n), n) == Shift(x, n)
  {
    if n > 0 {
      ShiftMasked(x / 2, n - 1);
      assert Masked(x, n) / 2 == Masked(x / 2, n - 1);
    }
  }

  lemma SurroundingCovers(ip: Ip)
    ensures Covers(Surrounding(ip), ip)
  {
    ShiftMasked(ip.bits, HostBits(Surrounding(ip)));
  }

  function Power(n: nat): nat {
    if n == 0 then 1 else 2 * Power(n - 1)
  }

  /** Dropping the last bits is dividing by the power of two. */
  lemma {:induction false} ShiftDivides(x: nat, n: nat)
    ensures Power(n) * Shift(x, n) <= x < Power(n) * (Shift(x, n) + 1)
  {
    if n > 0 {
      ShiftDivides(x / 2, n - 1);
      Doubled(Power(n - 1), Shift(x / 2, n - 1), x);
    }
  }

  lemma Doubled(p: nat, s: nat, x: nat)
    requires p * s <= x / 2 < p * (s + 1)
    ensures (2 * p) * s <= x < (2 * p) * (s + 1)
  {
    var low, high := p * s, p * (s + 1);
    assert (2 * p) * s == 2 * low && (2 * p) * (s + 1) == 2 * high;
  }

  /** The network around an address holds the addresses that differ in the last byte, or in the last 64 bits, at most. */
  lemma SurroundingIs(ip: Ip, other: Ip)
    ensures Covers(Surrounding(ip), other) <==>
      other.family == ip.family && (var last := if ip.family.IPv4? then 8 else 64; Shift(other.bits, last) == Shift(ip.bits, last))
  {
    ShiftMasked(ip.bits, HostBits(Surrounding(ip)));
  }

  /** A single-address network covers that address only. */
  lemma SingleCoversOnly(ip: Ip, other: Ip)
    ensures Covers(Single(ip), other) <==> other == ip
  {
  }

  /** Two networks share an address exactly when one contains the other. */
  lemma NestedOrDisjoint(a: Network, b: Network)
    requires ValidNetwork(a) && ValidNetwork(b)
    ensures ShareAddress(a, b) <==> ContainsNetwork(a, b) || ContainsNetwork(b, a)
  {
    if ip :| Covers(a, ip) && Covers(b, ip) {
      if a.prefix <= b.prefix {
        WiderContains(a, b, ip);
      } else {
        WiderContains(b, a, ip);
      }
    }
    if ContainsNetwork(a, b) {
      assert Covers(b, Ip(b.family, b.address));
    }
    if ContainsNetwork(b, a) {
      assert Covers(a, Ip(a.family, a.address));
    }
  }

  lemma WiderContains(a: Network, b: Network, ip: Ip)
    requires ValidNetwork(a) && ValidNetwork(b) && a.prefix <= b.prefix
    requires Covers(a, ip) && Covers(b, ip)
    ensures ContainsNetwork(a, b)
  {
    var more := b.prefix - a.prefix;
    ShiftTwice(ip.bits, HostBits(b), more);
    ShiftTwice(b.address, HostBits(b), more);
  }

  // ---- the allowlist --------------------------------------------------------------------

  predicate AllValid(entries: seq<Network>) {
    forall i :: 0 <= i < |entries| ==> ValidNetwork(entries[i])
  }

  /** Membership in the block list built from the entries. */
  predicate Listed(entries: seq<Network>, ip: Ip)
    requires AllValid(entries)
  {
    exists i :: 0 <= i < |entries| && Covers(entries[i], ip)
  }

  /** The test made before a network is banned: an entry starts inside it, or its own address is on the list. */
  predicate TouchesAllowlist(entries: seq<Network>, n: Network)
    requires AllValid(entries) && ValidNetwork(n)
  {
    exists i :: 0 <= i < |entries| && entries[i].family == n.family
             && (Covers(n, Ip(entries[i].family, entries[i].address)) || Listed(entries, Ip(n.family, n.address)))
  }

  /** The test is true exactly when some allowlisted address lies inside the network. */
  lemma TouchesIffSharesAddress(entries: seq<Network>, n: Network)
    requires AllValid(entries) && ValidNetwork(n)
    ensures TouchesAllowlist(entries, n) <==> exists ip :: Listed(entries, ip) && Covers(n, ip)
  {
    if TouchesAllowlist(entries, n) {
      var i :| 0 <= i < |entries| && entries[i].family == n.family
            && (Covers(n, Ip(entries[i].family, entries[i].address)) || Listed(entries, Ip(n.family, n.address)));
      var ip := if Listed(entries, Ip(n.family, n.address)) then Ip(n.family, n.address)
                else Ip(entries[i].family, entries[i].address);
      assert Covers(entries[i], Ip(entries[i].family, entries[i].address));
      assert Listed(entries, ip) && Covers(n, ip);
    }
    if ip :| Listed(entries, ip) && Covers(n, ip) {
      var i :| 0 <= i < |entries| && Covers(entries[i], ip);
      assert ShareAddress(entries[i], n);
      NestedOrDisjoint(entries[i], n);
      if ContainsNetwork(entries[i], n) {
        assert Listed(entries, Ip(n.family, n.address));
      }
    }
  }
}
