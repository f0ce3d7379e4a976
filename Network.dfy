/**
 * IPv4 and IPv6 addresses and CIDR networks as integers: the part of Python's
 * `ipaddress` library that the allocator relies on. Text parsing and
 * formatting are not modelled; an address is its integer value together with
 * its family, a network is its (masked) network address, prefix length and
 * family.
 */
module IpNetwork {

  // ---------------------------------------------------------------------------
  // Arithmetic
  // ---------------------------------------------------------------------------

  function Pow2(k: nat): (r: nat)
    ensures r > k
  {
    if k == 0 then 1 else 2 * Pow2(k - 1)
  }

  lemma {:induction false} Pow2Add(a: nat, b: nat)
    ensures Pow2(a + b) == Pow2(a) * Pow2(b)
    decreases a
  {
    if a == 0 {
      assert a + b == b;
    } else {
      Pow2Add(a - 1, b);
      assert a + b - 1 == (a - 1) + b;
      DoubleProduct(Pow2(a - 1), Pow2(b));
    }
  }

  lemma DoubleProduct(x: int, y: int)
    ensures 2 * (x * y) == (2 * x) * y
  {
  }

  /** The sizes of IPv4 blocks of 8, 16 and 24 host bits. */
  lemma Pow2Small()
    ensures Pow2(8) == 0x100 && Pow2(16) == 0x1_0000 && Pow2(24) == 0x100_0000
  {
    Pow2Add(8, 8);
    Pow2Add(16, 8);
  }

  /** The block sizes that occur in the model's concrete networks. */
  lemma Pow2Values()
    ensures Pow2(8) == 0x100
    ensures Pow2(16) == 0x1_0000
    ensures Pow2(20) == 0x10_0000
    ensures Pow2(24) == 0x100_0000
    ensures Pow2(32) == V4Space
    ensures Pow2(48) == 0x1_0000_0000_0000
    ensures Pow2(64) == 0x1_0000_0000_0000_0000
    ensures Pow2(80) == 0x1_0000_0000_0000_0000_0000
    ensures Pow2(112) == 0x1_0000_0000_0000_0000_0000_0000_0000
    ensures Pow2(128) == V6Space
  {
    assert Pow2(4) == 0x10;
    assert Pow2(8) == 0x100;
    Pow2Add(8, 8);
    Pow2Add(16, 4);
    Pow2Add(16, 8);
    Pow2Add(16, 16);
    Pow2Add(32, 16);
    Pow2Add(32, 32);
    Pow2Add(64, 16);
    Pow2Add(64, 48);
    Pow2Add(64, 64);
  }

  lemma MulAtLeast(k: int, s: int)
    requires k >= 1 && s > 0
    ensures k * s >= s
  {
  }

  lemma MulDistributes(q: int, d: int, s: int)
    ensures q * s - d * s == (q - d) * s
  {
  }

  /** Euclidean division is unique: the quotient and remainder are determined. */
  lemma DivModUnique(a: nat, s: nat, k: nat, r: nat)
    requires s > 0 && r < s && a == k * s + r
    ensures a / s == k && a % s == r
  {
    var d, m := a / s, a % s;
    assert a == d * s + m;
    MulDistributes(k, d, s);
    assert (k - d) * s == m - r;
    if k > d {
      MulAtLeast(k - d, s);
    } else if k < d {
      MulAtLeast(d - k, s);
      MulDistributes(d, k, s);
    }
  }

  /** a with its low bits cleared: the largest multiple of s not above a. */
  function AlignDown(a: nat, s: nat): (r: nat)
    requires s > 0
    ensures r % s == 0 && r <= a < r + s
  {
    var q := a / s;
    assert a - a % s == q * s;
    DivModUnique(q * s, s, q, 0);
    a - a % s
  }

  // ---------------------------------------------------------------------------
  // Addresses and networks
  // ---------------------------------------------------------------------------

  const V4Space: nat := 0x1_0000_0000
  const V6Space: nat := 0x1_0000_0000_0000_0000_0000_0000_0000_0000

  /** Number of bits in an address of the family. */
  function Width(v6: bool): nat {
    if v6 then 128 else 32
  }

  /** Number of addresses of the family (2^Width). */
  function SpaceSize(v6: bool): nat {
    if v6 then V6Space else V4Space
  }

  /** An IP address: its integer value and whether it is an IPv6 address. */
  datatype Address = Address(value: nat, v6: bool)

  /** A parsed CIDR text "address/prefix" whose host bits may be set. */
  datatype Cidr = Cidr(address: nat, prefix: nat, v6: bool)

  /** A network: network address, prefix length and family. */
  datatype Net = Net(base: nat, prefix: nat, v6: bool)

  /** What the parser guarantees of a CIDR it accepts. */
  predicate CidrValid(c: Cidr) {
    c.prefix <= Width(c.v6) && c.address < SpaceSize(c.v6)
  }

  function HostBits(n: Net): nat {
    if n.prefix <= Width(n.v6) then Width(n.v6) - n.prefix else 0
  }

  /** Number of addresses in the network. */
  function Size(n: Net): nat {
    Pow2(HostBits(n))
  }

  /** The highest address of the network (`broadcast_address`). */
  function Last(n: Net): nat {
    n.base + Size(n) - 1
  }

  /** A network as the library builds it: its host bits are zero. */
  predicate NetValid(n: Net) {
    n.prefix <= Width(n.v6) && n.base < SpaceSize(n.v6) && n.base % Size(n) == 0
  }

  /** Membership `address in network`: false across families. */
  predicate Contains(n: Net, a: Address) {
    a.v6 == n.v6 && n.base <= a.value <= Last(n)
  }

  /**
   * `ip_network(text, strict=False)`: the network of the given prefix length
   * that contains the given address, its host bits masked off.
   */
  function Normalize(c: Cidr): (n: Net)
    requires CidrValid(c)
    ensures NetValid(n) && n.prefix == c.prefix && n.v6 == c.v6
    ensures Contains(n, Address(c.address, c.v6))
  {
    var size := Pow2(Width(c.v6) - c.prefix);
    var base := AlignDown(c.address, size);
    assert Size(Net(base, c.prefix, c.v6)) == size;
    Net(base, c.prefix, c.v6)
  }

  /** The network Normalize picks is the only aligned block holding the address. */
  lemma NormalizeUnique(c: Cidr, n: Net)
    requires CidrValid(c) && NetValid(n)
    requires n.prefix == c.prefix && n.v6 == c.v6
    requires Contains(n, Address(c.address, c.v6))
    ensures n == Normalize(c)
  {
    var size := Size(n);
    var q := n.base / size;
    assert n.base == q * size;
    DivModUnique(c.address, size, q, c.address - n.base);
  }

  /**
   * Two CIDR texts with the same prefix length name the same network exactly
   * when the second address lies inside the first's network, whatever host
   * bits either has set.
   */
  lemma SameNetwork(c1: Cidr, c2: Cidr)
    requires CidrValid(c1) && CidrValid(c2)
    requires c1.prefix == c2.prefix && c1.v6 == c2.v6
    ensures Normalize(c1) == Normalize(c2) <==> Contains(Normalize(c1), Address(c2.address, c2.v6))
  {
    if Contains(Normalize(c1), Address(c2.address, c2.v6)) {
      NormalizeUnique(c2, Normalize(c1));
    }
  }

  /** `a.subnet_of(b)` for two networks of the same family. */
  predicate SubnetOf(a: Net, b: Net) {
    b.base <= a.base && Last(a) <= Last(b)
  }

  lemma SubnetContains(a: Net, b: Net, x: Address)
    requires a.v6 == b.v6 && SubnetOf(a, b) && Contains(a, x)
    ensures Contains(b, x)
  {
  }

  /**
   * `a.overlaps(b)`: some end of one network lies inside the other, tested
   * in the library's own order (a's ends in b, then b's ends in a).
   */
  predicate NetOverlaps(a: Net, b: Net) {
    || Contains(b, Address(a.base, a.v6))
    || Contains(b, Address(Last(a), a.v6))
    || Contains(a, Address(b.base, b.v6))
    || Contains(a, Address(Last(b), b.v6))
  }

  /** The end-point test is exactly "the two networks share an address". */
  lemma OverlapsIffShared(a: Net, b: Net)
    requires a.v6 == b.v6
    ensures NetOverlaps(a, b) <==> exists x :: Contains(a, x) && Contains(b, x)
  {
    if NetOverlaps(a, b) {
      var w := Address(if a.base <= b.base then b.base else a.base, a.v6);
      assert Contains(a, w) && Contains(b, w);
    }
  }

  lemma OverlapsSymmetric(a: Net, b: Net)
    ensures NetOverlaps(a, b) == NetOverlaps(b, a)
  {
  }

  lemma OverlapsReflexive(a: Net)
    ensures NetOverlaps(a, a)
  {
  }

  // ---------------------------------------------------------------------------
  // Host enumeration: `network.hosts()`
  // ---------------------------------------------------------------------------

  /**
   * First address yielded by `hosts()`. For a /31 or /32 (IPv4) and a /127 or
   * /128 (IPv6) the library yields every address of the network; otherwise
   * it skips the network address. IPv6 has no broadcast address, so the last
   * address of an IPv6 network is yielded (fd00::3 of fd00::/126 in
   * test/IpamPoolTest.py:118).
   */
  function HostFirst(n: Net): nat {
    if HostBits(n) <= 1 then n.base else n.base + 1
  }

  /**
   * Number of addresses yielded by `hosts()`: all of a network with at most
   * one host bit; otherwise all but the network address and, for IPv4, the
   * broadcast address.
   */
  function HostCount(n: Net): nat {
    if HostBits(n) <= 1 then Size(n)
    else if n.v6 then Size(n) - 1
    else Size(n) - 2
  }

  /** The i-th address of the enumeration. */
  function Host(n: Net, i: nat): Address {
    Address(HostFirst(n) + i, n.v6)
  }

  predicate IsHost(n: Net, x: Address) {
    x.v6 == n.v6 && HostFirst(n) <= x.value < HostFirst(n) + HostCount(n)
  }

  /** The enumeration is ascending and has no gaps: x is its (x - first)-th address. */
  lemma HostIndex(n: Net, x: Address)
    requires IsHost(n, x)
    ensures x.value - HostFirst(n) < HostCount(n) && Host(n, x.value - HostFirst(n)) == x
  {
  }

  /**
   * Which addresses of a network `hosts()` yields: every address, except for
   * networks with at least two host bits the network address and, for IPv4,
   * the broadcast address.
   */
  lemma HostsOfNet(n: Net, x: Address)
    ensures IsHost(n, x) <==>
      && Contains(n, x)
      && (HostBits(n) >= 2 ==> x.value != n.base && (n.v6 || x.value != Last(n)))
  {
  }
}
