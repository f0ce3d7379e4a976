/**
 * Concrete runs of the allocator taken from test/IpamPoolTest.py: each
 * method drives a `Pool` object through the calls one test makes and states
 * the answers the test expects. The lemmas beside them establish the single
 * steps.
 */
module IpamScenarios {
  import opened IpNetwork
  import opened IpamTypes
  import opened IpamPool

  /** The IPv4 address a.b.c.d. */
  function V4(a: nat, b: nat, c: nat, d: nat): Address {
    Address(a * 0x100_0000 + b * 0x1_0000 + c * 0x100 + d, false)
  }

  /** The IPv6 address whose upper 64 bits are hi and lower 64 bits are lo. */
  function V6(hi: nat, lo: nat): Address {
    Address(hi * 0x1_0000_0000_0000_0000 + lo, true)
  }

  /** 127.0.0.d */
  function Lo(d: nat): Address {
    V4(127, 0, 0, d)
  }

  function Granted(a: Address, prefix: nat): Result<Assigned> {
    Ok(Assigned(a, prefix))
  }

  // ---------------------------------------------------------------------------
  // Construction (test/IpamPoolTest.py:8-61)
  // ---------------------------------------------------------------------------

  // The CIDR arguments are parameters fixed by the preconditions rather than
  // literals, which keeps the verifier from evaluating the masking eagerly.

  /**
   * A sub-range outside the range is refused. (Construction without any
   * argument or with a sub-range alone is refused by Configure's own contract.)
   */
  lemma SubRangeOutside(pool: Cidr, outside: Cidr, d: Draw)
    requires pool == Cidr(0x7F00_0000, 24, false) && outside == Cidr(0x7F01_0203, 24, false) && Drawable(d)
    ensures Configure(Given(pool), Given(outside), None, d) == Err(NotSubnet)
  {
    OutsideNotSubnet(pool, outside);
  }

  // Kept apart so that the masked literals do not reach the Configure proof.
  lemma OutsideNotSubnet(pool: Cidr, outside: Cidr)
    requires pool == Cidr(0x7F00_0000, 24, false) && outside == Cidr(0x7F01_0203, 24, false)
    ensures !SubnetOf(Normalize(outside), Normalize(pool))
  {
    MaskOutside(pool, outside);
    ApartSlash24();
  }

  lemma MaskOutside(pool: Cidr, outside: Cidr)
    requires pool == Cidr(0x7F00_0000, 24, false) && outside == Cidr(0x7F01_0203, 24, false)
    ensures Normalize(pool) == Net(0x7F00_0000, 24, false)
    ensures Normalize(outside) == Net(0x7F01_0200, 24, false)
  {
    assert Pow2(8) == 0x100;
  }

  lemma ApartSlash24()
    ensures !SubnetOf(Net(0x7F01_0200, 24, false), Net(0x7F00_0000, 24, false))
  {
    assert Pow2(8) == 0x100;
  }

  /** Host bits of the given IPv4 range are masked off: 127.0.0.1/24 names 127.0.0.0/24. */
  lemma NormalizedConstructionIPv4(pool: Cidr, d: Draw)
    requires pool == Cidr(0x7F00_0001, 24, false) && Drawable(d)
    ensures Configure(Given(pool), Missing, None, d)
         == Ok(Ranges(Net(0x7F00_0000, 24, false), Net(0x7F00_0000, 24, false)))
  {
    assert Pow2(8) == 0x100;
    assert Normalize(pool) == Net(0x7F00_0000, 24, false);
  }

  /** Host bits of the given IPv4 range and sub-range are masked off. */
  lemma NormalizedSubRangeIPv4(pool: Cidr, subPool: Cidr, d: Draw)
    requires pool == Cidr(0x7F00_0001, 8, false) && subPool == Cidr(0x7F00_0002, 24, false) && Drawable(d)
    ensures Configure(Given(pool), Given(subPool), None, d)
         == Ok(Ranges(Net(0x7F00_0000, 8, false), Net(0x7F00_0000, 24, false)))
  {
    Pow2Small();
    NormalizeUnique(pool, Net(0x7F00_0000, 8, false));
    assert Normalize(subPool) == Net(0x7F00_0000, 24, false);
  }

  /** The same for a = fd00:a:b:c:1:2:3:4 as a /48 range with a /64 sub-range. */
  lemma NormalizedConstructionsIPv6(a: nat, d: Draw)
    requires a == V6(0xfd00_000a_000b_000c, 0x0001_0002_0003_0004).value && Drawable(d)
    ensures Configure(Given(Cidr(a, 48, true)), Given(Cidr(a, 64, true)), None, d)
         == Ok(Ranges(Net(V6(0xfd00_000a_000b_0000, 0).value, 48, true), Net(V6(0xfd00_000a_000b_000c, 0).value, 64, true)))
  {
    MaskFd00(a);
    Pow2Values();
    assert SubnetOf(Net(V6(0xfd00_000a_000b_000c, 0).value, 64, true), Net(V6(0xfd00_000a_000b_0000, 0).value, 48, true));
  }

  lemma MaskFd00(a: nat)
    requires a == V6(0xfd00_000a_000b_000c, 0x0001_0002_0003_0004).value
    ensures Normalize(Cidr(a, 48, true)) == Net(V6(0xfd00_000a_000b_0000, 0).value, 48, true)
    ensures Normalize(Cidr(a, 64, true)) == Net(V6(0xfd00_000a_000b_000c, 0).value, 64, true)
  {
    Pow2Values();
    assert Size(Net(V6(0xfd00_000a_000b_0000, 0).value, 48, true)) == 0x1_0000_0000_0000_0000_0000;
    assert Size(Net(V6(0xfd00_000a_000b_000c, 0).value, 64, true)) == 0x1_0000_0000_0000_0000;
    NormalizeUnique(Cidr(a, 48, true), Net(V6(0xfd00_000a_000b_0000, 0).value, 48, true));
    NormalizeUnique(Cidr(a, 64, true), Net(V6(0xfd00_000a_000b_000c, 0).value, 64, true));
  }

  // ---------------------------------------------------------------------------
  // Overlap (test/IpamPoolTest.py:79-93)
  // ---------------------------------------------------------------------------

  /** 127.0.0.1/24 and 127.0.2.3/16 name overlapping networks, each overlapping itself. */
  lemma OverlapExamplesIPv4(c1: Cidr, c2: Cidr)
    requires c1 == Cidr(0x7F00_0001, 24, false) && c2 == Cidr(0x7F00_0203, 16, false)
    ensures NetOverlaps(Normalize(c1), Normalize(c1)) && NetOverlaps(Normalize(c2), Normalize(c2))
    ensures NetOverlaps(Normalize(c1), Normalize(c2)) && NetOverlaps(Normalize(c2), Normalize(c1))
  {
    MaskOverlapIPv4(c1, c2);
    Pow2Small();
  }

  lemma MaskOverlapIPv4(c1: Cidr, c2: Cidr)
    requires c1 == Cidr(0x7F00_0001, 24, false) && c2 == Cidr(0x7F00_0203, 16, false)
    ensures Normalize(c1) == Net(0x7F00_0000, 24, false) && Normalize(c2) == Net(0x7F00_0000, 16, false)
  {
    Pow2Small();
    NormalizeUnique(c1, Net(0x7F00_0000, 24, false));
    NormalizeUnique(c2, Net(0x7F00_0000, 16, false));
  }

  const Fe80: nat := 0xfe80_0000_0000_0000

  /** fe80::/64 and fe80::1:2:3:4/72 name overlapping networks, each overlapping itself. */
  lemma OverlapExamplesIPv6(c1: Cidr, c2: Cidr)
    requires c1 == Cidr(V6(Fe80, 0).value, 64, true)
    requires c2 == Cidr(V6(Fe80, 0x0001_0002_0003_0004).value, 72, true)
    ensures NetOverlaps(Normalize(c1), Normalize(c1)) && NetOverlaps(Normalize(c2), Normalize(c2))
    ensures NetOverlaps(Normalize(c1), Normalize(c2)) && NetOverlaps(Normalize(c2), Normalize(c1))
  {
    SameBaseIPv6(c1, c2);
    SharedBaseOverlaps(Normalize(c1), Normalize(c2));
    OverlapsReflexive(Normalize(c1));
    OverlapsReflexive(Normalize(c2));
  }

  // Kept apart so that the masked literals do not reach the overlap proof.
  lemma SameBaseIPv6(c1: Cidr, c2: Cidr)
    requires c1 == Cidr(V6(Fe80, 0).value, 64, true)
    requires c2 == Cidr(V6(Fe80, 0x0001_0002_0003_0004).value, 72, true)
    ensures Normalize(c1).base == Normalize(c2).base && Normalize(c1).v6 == Normalize(c2).v6
  {
    MaskSlash64(c1);
    MaskSlash72(c2);
  }

  /** Two networks of one family with the same network address overlap, both ways. */
  lemma SharedBaseOverlaps(a: Net, b: Net)
    requires a.base == b.base && a.v6 == b.v6
    ensures NetOverlaps(a, b) && NetOverlaps(b, a)
  {
    assert Contains(a, Address(b.base, b.v6)) && Contains(b, Address(a.base, a.v6));
  }

  lemma MaskSlash64(c1: Cidr)
    requires c1 == Cidr(V6(Fe80, 0).value, 64, true)
    ensures Normalize(c1) == Net(V6(Fe80, 0).value, 64, true)
  {
    Pow2HostBits();
    MaskFe80(c1, 64, 0x1_0000_0000_0000_0000);
  }

  lemma MaskSlash72(c2: Cidr)
    requires c2 == Cidr(V6(Fe80, 0x0001_0002_0003_0004).value, 72, true)
    ensures Normalize(c2) == Net(V6(Fe80, 0).value, 72, true)
  {
    Pow2HostBits();
    MaskFe80(c2, 72, 0x100_0000_0000_0000);
  }

  lemma Pow2HostBits()
    ensures Pow2(64) == 0x1_0000_0000_0000_0000 && Pow2(56) == 0x100_0000_0000_0000
  {
    Pow2Values();
    Pow2Add(48, 8);
  }

  /** A CIDR inside the upper 64 bits fe80:0:0:0 masks to fe80:: when its host bits cover the lower 64. */
  lemma MaskFe80(c: Cidr, prefix: nat, size: nat)
    requires c.v6 && c.prefix == prefix && 64 <= prefix <= 128 && size == Pow2(128 - prefix)
    requires V6(Fe80, 0).value <= c.address < V6(Fe80, 0).value + size
    requires size == 0x1_0000_0000_0000_0000 || size == 0x100_0000_0000_0000
    ensures Normalize(c) == Net(V6(Fe80, 0).value, prefix, true)
  {
    var n := Net(V6(Fe80, 0).value, prefix, true);
    if size == 0x1_0000_0000_0000_0000 {
      assert V6(Fe80, 0).value == (Fe80 * 0x1_0000_0000_0000_0000) + 0;
      DivModUnique(V6(Fe80, 0).value, size, Fe80, 0);
    } else {
      DivModUnique(V6(Fe80, 0).value, size, Fe80 * 0x100, 0);
    }
    NormalizeUnique(c, n);
  }

  // ---------------------------------------------------------------------------
  // 127.0.0.0/30: two hosts, then refusals (test/IpamPoolTest.py:97-112, 134-143)
  // ---------------------------------------------------------------------------

  const R30: Net := Net(0x7F00_0000, 30, false)

  lemma R30Facts()
    ensures Formed(R30, R30) && HostBits(R30) == 2 && HostCount(R30) == 2 && Last(R30) == Lo(3).value
    ensures Host(R30, 0) == Lo(1) && Host(R30, 1) == Lo(2)
  {
    assert Size(R30) == 4;
  }

  lemma R30Steps()
    ensures AllocateStep(R30, R30, PoolState({}, 0), Missing) == Step(Granted(Lo(1), 30), PoolState({Lo(1)}, 1))
    ensures AllocateStep(R30, R30, PoolState({Lo(1)}, 1), Missing)
         == Step(Granted(Lo(2), 30), PoolState({Lo(1), Lo(2)}, 2))
  {
    R30Facts();
    FirstFreeIs(R30, {}, 0, 0);
    FirstFreeIs(R30, {Lo(1)}, 1, 1);
    assert {} + {Lo(1)} == {Lo(1)};
    assert {Lo(1)} + {Lo(2)} == {Lo(1), Lo(2)};
  }

  lemma R30Full()
    ensures AllocateStep(R30, R30, PoolState({Lo(1), Lo(2)}, 2), Missing)
         == Step(Err(NoFreeAddress), PoolState({Lo(1), Lo(2)}, 2))
  {
    R30Facts();
    FirstFreeIs(R30, {Lo(1), Lo(2)}, 2, 2);
    FirstFreeIs(R30, {Lo(1), Lo(2)}, 0, 2);
  }

  lemma R30Refusals()
    ensures Rejection(R30, {Lo(1), Lo(2)}, V4(126, 255, 255, 255)) == Some(OutsidePool)
    ensures Rejection(R30, {Lo(1), Lo(2)}, Lo(0)) == Some(NetworkAddress)
    ensures Rejection(R30, {Lo(1), Lo(2)}, Lo(1)) == Some(AlreadyUsed(Lo(1)))
    ensures Rejection(R30, {Lo(1), Lo(2)}, Lo(2)) == Some(AlreadyUsed(Lo(2)))
    ensures Rejection(R30, {Lo(1), Lo(2)}, Lo(3)) == Some(BroadcastAddress)
    ensures Rejection(R30, {Lo(1), Lo(2)}, Lo(4)) == Some(OutsidePool)
  {
    R30Facts();
  }

  /** The two hosts in order, then a refusal for every other address of or near the range. */
  method SmallPoolIPv4() returns (results: seq<Result<Assigned>>)
    ensures results == [Granted(Lo(1), 30), Granted(Lo(2), 30), Err(NoFreeAddress),
                        Err(OutsidePool), Err(NetworkAddress), Err(AlreadyUsed(Lo(1))),
                        Err(AlreadyUsed(Lo(2))), Err(BroadcastAddress), Err(OutsidePool)]
  {
    R30Facts();
    R30Steps();
    R30Full();
    R30Refusals();
    var p := new Pool(Ranges(R30, R30));
    var r1 := p.Allocate(Missing);
    var r2 := p.Allocate(Missing);
    var r3 := p.Allocate(Missing);
    var r4 := p.Allocate(Given(V4(126, 255, 255, 255)));
    var r5 := p.Allocate(Given(Lo(0)));
    var r6 := p.Allocate(Given(Lo(1)));
    var r7 := p.Allocate(Given(Lo(2)));
    var r8 := p.Allocate(Given(Lo(3)));
    var r9 := p.Allocate(Given(Lo(4)));
    results := [r1, r2, r3, r4, r5, r6, r7, r8, r9];
  }

  // ---------------------------------------------------------------------------
  // fd00::/126: three hosts, the last address included (test/IpamPoolTest.py:114-130, 145-155)
  // ---------------------------------------------------------------------------

  const Fd: nat := 0xfd00_0000_0000_0000
  const R126: Net := Net(V6(Fd, 0).value, 126, true)

  /** fd00::k */
  function Fd00(k: nat): Address {
    V6(Fd, k)
  }

  lemma R126Facts()
    ensures Formed(R126, R126) && HostBits(R126) == 2 && HostCount(R126) == 3
    ensures Host(R126, 0) == Fd00(1) && Host(R126, 1) == Fd00(2) && Host(R126, 2) == Fd00(3)
  {
    assert Size(R126) == 4;
  }

  /** The automatic sequence fd00::1, fd00::2, fd00::3, then nothing: FreshPoolYieldsHostsInOrder applied. */
  lemma SmallPoolIPv6Order()
    ensures AllocateAll(R126, R126, Fresh(), Automatic(4)).results
         == [Granted(Fd00(1), 126), Granted(Fd00(2), 126), Granted(Fd00(3), 126), Err(NoFreeAddress)]
  {
    R126Facts();
    FreshPoolYieldsHostsInOrder(R126, R126);
  }

  lemma R126Refusals()
    ensures var taken := {Fd00(1), Fd00(2), Fd00(3)};
      && Rejection(R126, taken, V6(0xfcff_ffff_ffff_ffff, 0xffff_ffff_ffff_ffff)) == Some(OutsidePool)
      && Rejection(R126, taken, Fd00(0)) == Some(NetworkAddress)
      && Rejection(R126, taken, Fd00(1)) == Some(AlreadyUsed(Fd00(1)))
      && Rejection(R126, taken, Fd00(2)) == Some(AlreadyUsed(Fd00(2)))
      && Rejection(R126, taken, Fd00(3)) == Some(AlreadyUsed(Fd00(3)))
      && Rejection(R126, taken, Fd00(4)) == Some(OutsidePool)
  {
    R126Facts();
  }

  // ---------------------------------------------------------------------------
  // A sub-range of two hosts in a /8 (test/IpamPoolTest.py:208-219)
  // ---------------------------------------------------------------------------

  const R8: Net := Net(0x7F00_0000, 8, false)

  /** The manual allocations of the test: anywhere in the range, one inside the sub-range. */
  function Manuals(): set<Address> {
    {Lo(2), V4(127, 1, 2, 3), V4(127, 255, 0, 5), V4(127, 248, 255, 11), V4(127, 71, 12, 14)}
  }

  lemma SubRangeFacts()
    ensures Formed(R8, R30) && Last(R8) == V4(127, 255, 255, 255).value
  {
    Pow2Small();
    assert Size(R30) == 4;
  }

  lemma SubRangeManualSteps()
    ensures AllocateStep(R8, R30, PoolState({}, 0), Given(Lo(2))) == Step(Granted(Lo(2), 8), PoolState({Lo(2)}, 0))
    ensures AllocateStep(R8, R30, PoolState({Lo(2)}, 0), Given(V4(127, 1, 2, 3)))
         == Step(Granted(V4(127, 1, 2, 3), 8), PoolState({Lo(2), V4(127, 1, 2, 3)}, 0))
    ensures AllocateStep(R8, R30, PoolState({Lo(2), V4(127, 1, 2, 3)}, 0), Given(V4(127, 255, 0, 5)))
         == Step(Granted(V4(127, 255, 0, 5), 8), PoolState({Lo(2), V4(127, 1, 2, 3), V4(127, 255, 0, 5)}, 0))
  {
    SubRangeFacts();
    R30Facts();
    assert {} + {Lo(2)} == {Lo(2)};
    assert {Lo(2)} + {V4(127, 1, 2, 3)} == {Lo(2), V4(127, 1, 2, 3)};
    assert {Lo(2), V4(127, 1, 2, 3)} + {V4(127, 255, 0, 5)} == {Lo(2), V4(127, 1, 2, 3), V4(127, 255, 0, 5)};
  }

  lemma SubRangeManualSteps2()
    ensures AllocateStep(R8, R30, PoolState({Lo(2), V4(127, 1, 2, 3), V4(127, 255, 0, 5)}, 0), Given(V4(127, 248, 255, 11)))
         == Step(Granted(V4(127, 248, 255, 11), 8),
                 PoolState({Lo(2), V4(127, 1, 2, 3), V4(127, 255, 0, 5), V4(127, 248, 255, 11)}, 0))
    ensures AllocateStep(R8, R30, PoolState({Lo(2), V4(127, 1, 2, 3), V4(127, 255, 0, 5), V4(127, 248, 255, 11)}, 0),
                         Given(V4(127, 71, 12, 14)))
         == Step(Granted(V4(127, 71, 12, 14), 8), PoolState(Manuals(), 0))
  {
    SubRangeFacts();
    R30Facts();
    assert {Lo(2), V4(127, 1, 2, 3), V4(127, 255, 0, 5)} + {V4(127, 248, 255, 11)}
        == {Lo(2), V4(127, 1, 2, 3), V4(127, 255, 0, 5), V4(127, 248, 255, 11)};
    assert {Lo(2), V4(127, 1, 2, 3), V4(127, 255, 0, 5), V4(127, 248, 255, 11)} + {V4(127, 71, 12, 14)} == Manuals();
  }

  lemma SubRangeAutomaticSteps()
    ensures AllocateStep(R8, R30, PoolState(Manuals(), 0), Missing)
         == Step(Granted(Lo(1), 8), PoolState(Manuals() + {Lo(1)}, 1))
    ensures AllocateStep(R8, R30, PoolState(Manuals() + {Lo(1)}, 1), Missing)
         == Step(Err(NoFreeAddress), PoolState(Manuals() + {Lo(1)}, 2))
    ensures AllocateStep(R8, R30, PoolState(Manuals() + {Lo(1)}, 2), Given(Lo(3)))
         == Step(Granted(Lo(3), 8), PoolState(Manuals() + {Lo(1), Lo(3)}, 2))
  {
    SubRangeFacts();
    R30Facts();
    FirstFreeIs(R30, Manuals(), 0, 0);
    FirstFreeIs(R30, Manuals() + {Lo(1)}, 1, 2);
    FirstFreeIs(R30, Manuals() + {Lo(1)}, 0, 2);
    assert Manuals() + {Lo(1)} + {Lo(3)} == Manuals() + {Lo(1), Lo(3)};
  }

  /**
   * Automatic allocation gives 127.0.0.1 and then reports no free address,
   * although 127.0.0.3, the sub-range's broadcast address, is still free in
   * the range and is then granted on request.
   */
  method SubRangeIncomplete() returns (results: seq<Result<Assigned>>)
    ensures results == [Granted(Lo(2), 8), Granted(V4(127, 1, 2, 3), 8), Granted(V4(127, 255, 0, 5), 8),
                        Granted(V4(127, 248, 255, 11), 8), Granted(V4(127, 71, 12, 14), 8),
                        Granted(Lo(1), 8), Err(NoFreeAddress), Granted(Lo(3), 8)]
  {
    SubRangeFacts();
    SubRangeManualSteps();
    SubRangeManualSteps2();
    SubRangeAutomaticSteps();
    var p := new Pool(Ranges(R8, R30));
    var r1 := p.Allocate(Given(Lo(2)));
    var r2 := p.Allocate(Given(V4(127, 1, 2, 3)));
    var r3 := p.Allocate(Given(V4(127, 255, 0, 5)));
    var r4 := p.Allocate(Given(V4(127, 248, 255, 11)));
    var r5 := p.Allocate(Given(V4(127, 71, 12, 14)));
    var r6 := p.Allocate(Missing);
    var r7 := p.Allocate(Missing);
    var r8 := p.Allocate(Given(Lo(3)));
    results := [r1, r2, r3, r4, r5, r6, r7, r8];
  }

  // ---------------------------------------------------------------------------
  // Allocation and release in 127.0.0.0/29 (test/IpamPoolTest.py:259-276)
  // ---------------------------------------------------------------------------

  const R29: Net := Net(0x7F00_0000, 29, false)

  lemma R29Facts()
    ensures Formed(R29, R29) && HostBits(R29) == 3 && HostCount(R29) == 6 && Last(R29) == Lo(7).value
    ensures forall i :: 0 <= i < 6 ==> Host(R29, i) == Lo(i + 1)
  {
    assert Size(R29) == 8;
  }

  lemma ReleaseManualSteps()
    ensures AllocateStep(R29, R29, PoolState({}, 0), Given(Lo(3))) == Step(Granted(Lo(3), 29), PoolState({Lo(3)}, 0))
    ensures AllocateStep(R29, R29, PoolState({Lo(3)}, 0), Given(Lo(5)))
         == Step(Granted(Lo(5), 29), PoolState({Lo(3), Lo(5)}, 0))
  {
    R29Facts();
    assert {} + {Lo(3)} == {Lo(3)};
    assert {Lo(3)} + {Lo(5)} == {Lo(3), Lo(5)};
  }

  lemma ReleaseFirstSteps()
    ensures AllocateStep(R29, R29, PoolState({Lo(3), Lo(5)}, 0), Missing)
         == Step(Granted(Lo(1), 29), PoolState({Lo(1), Lo(3), Lo(5)}, 1))
    ensures AllocateStep(R29, R29, PoolState({Lo(1), Lo(3), Lo(5)}, 1), Missing)
         == Step(Granted(Lo(2), 29), PoolState({Lo(1), Lo(2), Lo(3), Lo(5)}, 2))
    ensures Release(PoolState({Lo(1), Lo(2), Lo(3), Lo(5)}, 2), Lo(3)) == PoolState({Lo(1), Lo(2), Lo(5)}, 2)
  {
    R29Facts();
    FirstFreeIs(R29, {Lo(3), Lo(5)}, 0, 0);
    FirstFreeIs(R29, {Lo(1), Lo(3), Lo(5)}, 1, 1);
    assert {Lo(3), Lo(5)} + {Lo(1)} == {Lo(1), Lo(3), Lo(5)};
    assert {Lo(1), Lo(3), Lo(5)} + {Lo(2)} == {Lo(1), Lo(2), Lo(3), Lo(5)};
    assert {Lo(1), Lo(2), Lo(3), Lo(5)} - {Lo(3)} == {Lo(1), Lo(2), Lo(5)};
  }

  lemma ReleaseMiddleSteps()
    ensures AllocateStep(R29, R29, PoolState({Lo(1), Lo(2), Lo(5)}, 2), Missing)
         == Step(Granted(Lo(3), 29), PoolState({Lo(1), Lo(2), Lo(3), Lo(5)}, 3))
    ensures AllocateStep(R29, R29, PoolState({Lo(1), Lo(2), Lo(3), Lo(5)}, 3), Missing)
         == Step(Granted(Lo(4), 29), PoolState({Lo(1), Lo(2), Lo(3), Lo(4), Lo(5)}, 4))
    ensures AllocateStep(R29, R29, PoolState({Lo(1), Lo(2), Lo(3), Lo(4), Lo(5)}, 4), Missing)
         == Step(Granted(Lo(6), 29), PoolState({Lo(1), Lo(2), Lo(3), Lo(4), Lo(5), Lo(6)}, 6))
  {
    R29Facts();
    FirstFreeIs(R29, {Lo(1), Lo(2), Lo(5)}, 2, 2);
    FirstFreeIs(R29, {Lo(1), Lo(2), Lo(3), Lo(5)}, 3, 3);
    FirstFreeIs(R29, {Lo(1), Lo(2), Lo(3), Lo(4), Lo(5)}, 4, 5);
    assert {Lo(1), Lo(2), Lo(5)} + {Lo(3)} == {Lo(1), Lo(2), Lo(3), Lo(5)};
    assert {Lo(1), Lo(2), Lo(3), Lo(5)} + {Lo(4)} == {Lo(1), Lo(2), Lo(3), Lo(4), Lo(5)};
    assert {Lo(1), Lo(2), Lo(3), Lo(4), Lo(5)} + {Lo(6)} == {Lo(1), Lo(2), Lo(3), Lo(4), Lo(5), Lo(6)};
  }

  lemma ReleaseFullSteps()
    ensures AllocateStep(R29, R29, PoolState({Lo(1), Lo(2), Lo(3), Lo(4), Lo(5), Lo(6)}, 6), Missing)
         == Step(Err(NoFreeAddress), PoolState({Lo(1), Lo(2), Lo(3), Lo(4), Lo(5), Lo(6)}, 6))
    ensures Release(PoolState({Lo(1), Lo(2), Lo(3), Lo(4), Lo(5), Lo(6)}, 6), Lo(5))
         == PoolState({Lo(1), Lo(2), Lo(3), Lo(4), Lo(6)}, 6)
    ensures AllocateStep(R29, R29, PoolState({Lo(1), Lo(2), Lo(3), Lo(4), Lo(6)}, 6), Missing)
         == Step(Granted(Lo(5), 29), PoolState({Lo(1), Lo(2), Lo(3), Lo(4), Lo(5), Lo(6)}, 5))
  {
    R29Facts();
    FirstFreeIs(R29, {Lo(1), Lo(2), Lo(3), Lo(4), Lo(5), Lo(6)}, 6, 6);
    FirstFreeIs(R29, {Lo(1), Lo(2), Lo(3), Lo(4), Lo(5), Lo(6)}, 0, 6);
    FirstFreeIs(R29, {Lo(1), Lo(2), Lo(3), Lo(4), Lo(6)}, 6, 6);
    FirstFreeIs(R29, {Lo(1), Lo(2), Lo(3), Lo(4), Lo(6)}, 0, 4);
    assert {Lo(1), Lo(2), Lo(3), Lo(4), Lo(5), Lo(6)} - {Lo(5)} == {Lo(1), Lo(2), Lo(3), Lo(4), Lo(6)};
    assert {Lo(1), Lo(2), Lo(3), Lo(4), Lo(6)} + {Lo(5)} == {Lo(1), Lo(2), Lo(3), Lo(4), Lo(5), Lo(6)};
  }

  lemma ReleaseLastSteps()
    ensures Release(Release(PoolState({Lo(1), Lo(2), Lo(3), Lo(4), Lo(5), Lo(6)}, 5), Lo(1)), Lo(2))
         == PoolState({Lo(3), Lo(4), Lo(5), Lo(6)}, 5)
    ensures AllocateStep(R29, R29, PoolState({Lo(3), Lo(4), Lo(5), Lo(6)}, 5), Given(Lo(2)))
         == Step(Granted(Lo(2), 29), PoolState({Lo(2), Lo(3), Lo(4), Lo(5), Lo(6)}, 5))
    ensures AllocateStep(R29, R29, PoolState({Lo(2), Lo(3), Lo(4), Lo(5), Lo(6)}, 5), Missing)
         == Step(Granted(Lo(1), 29), PoolState({Lo(1), Lo(2), Lo(3), Lo(4), Lo(5), Lo(6)}, 1))
  {
    R29Facts();
    assert {Lo(1), Lo(2), Lo(3), Lo(4), Lo(5), Lo(6)} - {Lo(1)} == {Lo(2), Lo(3), Lo(4), Lo(5), Lo(6)};
    assert {Lo(2), Lo(3), Lo(4), Lo(5), Lo(6)} - {Lo(2)} == {Lo(3), Lo(4), Lo(5), Lo(6)};
    assert {Lo(3), Lo(4), Lo(5), Lo(6)} + {Lo(2)} == {Lo(2), Lo(3), Lo(4), Lo(5), Lo(6)};
    FirstFreeIs(R29, {Lo(2), Lo(3), Lo(4), Lo(5), Lo(6)}, 5, 6);
    FirstFreeIs(R29, {Lo(2), Lo(3), Lo(4), Lo(5), Lo(6)}, 0, 0);
    assert {Lo(2), Lo(3), Lo(4), Lo(5), Lo(6)} + {Lo(1)} == {Lo(1), Lo(2), Lo(3), Lo(4), Lo(5), Lo(6)};
  }

  /**
   * The cursor persists: a released address behind it is found only after
   * the rest of the enumeration is used up, and the released 127.0.0.3 just
   * ahead of it is found at once.
   */
  method AllocateRelease() returns (results: seq<Result<Assigned>>)
    ensures results == [Granted(Lo(3), 29), Granted(Lo(5), 29), Granted(Lo(1), 29), Granted(Lo(2), 29),
                        Granted(Lo(3), 29), Granted(Lo(4), 29), Granted(Lo(6), 29), Err(NoFreeAddress),
                        Granted(Lo(5), 29), Granted(Lo(2), 29), Granted(Lo(1), 29)]
  {
    R29Facts();
    ReleaseManualSteps();
    ReleaseFirstSteps();
    ReleaseMiddleSteps();
    ReleaseFullSteps();
    ReleaseLastSteps();
    var p := new Pool(Ranges(R29, R29));
    var r1 := p.Allocate(Given(Lo(3)));
    var r2 := p.Allocate(Given(Lo(5)));
    var r3 := p.Allocate(Missing);
    var r4 := p.Allocate(Missing);
    p.Deallocate(Lo(3));
    var r5 := p.Allocate(Missing);
    var r6 := p.Allocate(Missing);
    var r7 := p.Allocate(Missing);
    var r8 := p.Allocate(Missing);
    p.Deallocate(Lo(5));
    var r9 := p.Allocate(Missing);
    p.Deallocate(Lo(1));
    p.Deallocate(Lo(2));
    var r10 := p.Allocate(Given(Lo(2)));
    var r11 := p.Allocate(Missing);
    results := [r1, r2, r3, r4, r5, r6, r7, r8, r9, r10, r11];
  }
}
