# pyipam address allocator, modelled in Dafny

This project models the in-memory IP address allocator of the Docker IPAM
plugin `pyipam` (lib/Ipam.py) and proves properties of it.

- **Pool.** A pool is one network range plus a sub-range used for automatic
  allocation. It holds:
  - the set of allocated addresses;
  - a scan cursor that persists between calls, an index into the ascending
    enumeration of the sub-range's hosts.

  Its operations are construction with validation, equality, overlap, a
  manual or automatic `allocate`, and `deallocate`.
- **Space.** A space is a named registry with one map per IP family, from a
  pool's identifier to the pool. Its operations are `add_pool`, `get_pool`
  and `remove_pool`.

The files:

- `Network.dfy` (module `IpNetwork`): the part of Python's `ipaddress`
  library the allocator relies on, on integers.
  - An address is its value and family.
  - A network is its masked network address, prefix length and family.
  - The module also covers non-strict parsing (host bits masked), `subnet_of`,
    `overlaps` and the enumeration `hosts()`.
  - `hosts()` is modelled with the library's special cases. A network with at
    most one host bit yields every address. Otherwise IPv4 skips the network
    and broadcast addresses. IPv6 has no broadcast address and skips only
    the network address, so the last address of an IPv6 sub-range is handed
    out (fd00::3 of fd00::/126 in test/IpamPoolTest.py:118).
- `Types.dfy` (module `IpamTypes`): optional arguments, results, and the
  reasons an operation is refused.
- `Pool.dfy` (module `IpamPool`):
  - Specification functions: `Configure`, `Scan`, `Rejection`, `AllocateStep`
    and `Release` say what each pool operation does to a pool's state.
  - Lemmas about them and about runs of calls (`AllocateAll`, `Session`).
  - `class Pool`, whose methods change the fields in place and are proved to
    follow those functions. `FindNextAddress` is the two-pass loop of
    `_find_next_address` over the persistent cursor.
- `Space.dfy` (module `IpamSpace`): `class Space` with its two maps, and the
  invariant `Registry`: every pool is stored under its own range, and no two
  pools in one map overlap (`RegistryIds`, `RegistryDisjoint`).
- `Scenarios.dfy` (module `IpamScenarios`): runs taken from
  test/IpamPoolTest.py.
  - Methods drive a `Pool` object through a test's calls and state the answers
    the test expects.
  - Lemmas fix the concrete construction and refusal cases.

How some things are represented:

- **Randomness.** A pool's range is chosen at random when none is given. The
  random values are a `Draw` parameter, constrained to the values
  `random.randrange` and `random_hex` can produce.
- **Errors.** Every refusal is an `Err`, `Fail` or `Exhausted` value, not an
  exception.
- **Identifiers.** A pool identifier, the text of the pool's range, is
  represented by the range itself. The text is in one-to-one correspondence
  with it.
- **`__str__`.** `Pool.Id` returns the range.
- **`__eq__` and `_is_allocated`.** `Pool.Same` and `Pool.IsAllocated` are
  predicates on the pool's fields. Their properties are the lemmas
  `SameIsEquivalence` and `SameOverlaps`, and the contracts of `FindNextAddress`
  and `Allocate`, which use `IsAllocated`.

## Model

| member | source | states |
|---|---|---|
| IpNetwork.Normalize | lib/Ipam.py:36-38 | non-strict parsing yields a network with the given prefix and family, host bits zero, that contains the given address |
| IpNetwork.NormalizeUnique | lib/Ipam.py:36-38 | that network is the only aligned block of that prefix containing the address |
| IpNetwork.SameNetwork | lib/Ipam.py:36 | two texts with the same prefix name the same network iff the second address lies in the first's network |
| IpNetwork.SubnetContains | lib/Ipam.py:42 | a subnet's addresses are addresses of the enclosing network |
| IpNetwork.OverlapsIffShared | lib/Ipam.py:56 | the end-point overlap test holds iff the two networks share an address |
| IpNetwork.OverlapsSymmetric | lib/Ipam.py:56 | overlap is symmetric |
| IpNetwork.OverlapsReflexive | lib/Ipam.py:56 | every network overlaps itself |
| IpNetwork.HostIndex | lib/Ipam.py:46 | the host enumeration is ascending without gaps: a host is the (value - first)-th element |
| IpNetwork.HostsOfNet | lib/Ipam.py:46 | an address is enumerated iff it is in the network and, with two or more host bits, is not the network address nor (IPv4) the broadcast |
| IpamPool.RandomRange | lib/Ipam.py:31-34 | a random range is a valid IPv4 /24 inside 172.16.0.0/12, or a valid IPv6 /64 inside fd00::/16 |
| IpamPool.Configure | lib/Ipam.py:13-43 | each refusal happens exactly in its case: sub-range without range, range without family, mixed families, sub-range of the same family not a subnet of the range. On success: normalised range (or the random one), sub-range defaulting to the range, sub-range inside the range |
| IpamPool.Pool.constructor | lib/Ipam.py:45-48 | a new pool is valid, keeps the ranges, has no allocations and its cursor at the first host |
| IpamPool.Pool.Create | lib/Ipam.py:12-48 | construction fails with Configure's error or yields a fresh valid pool with Configure's ranges |
| IpamPool.Release | lib/Ipam.py:91-95 | deallocation removes exactly the given address, whether or not it was allocated, and leaves the cursor |
| IpamPool.FreshIsConsistent | lib/Ipam.py:45-46 | a freshly constructed pool satisfies the pool invariant |
| IpamPool.ConfigureIgnoresHostBits | lib/Ipam.py:36 | two range texts that differ only in host bits construct the same pool |
| IpamPool.SameIsEquivalence | lib/Ipam.py:50-51 | pool equality is reflexive, symmetric and transitive |
| IpamPool.Pool.Same | lib/Ipam.py:50-51 | equal pools have the same identifier |
| IpamPool.Pool.Id | lib/Ipam.py:97-98 | a well-formed pool's identifier is a valid network of the pool's family |
| IpamPool.Pool.IsAllocated | lib/Ipam.py:58-59 | in a valid pool an allocated address is allocatable in the range |
| IpamPool.Pool.Overlaps | lib/Ipam.py:53-56 | the overlap test is refused exactly when the families differ |
| IpamPool.OverlapsMeansShared | lib/Ipam.py:53-56 | for pools of one family, overlap answers whether the ranges share an address |
| IpamPool.PoolOverlapsSymmetric | lib/Ipam.py:53-56 | overlap of pools is symmetric, refusal included |
| IpamPool.SameOverlaps | lib/Ipam.py:50-56 | a pool overlaps itself and every pool equal to it |
| IpamPool.FirstFree | lib/Ipam.py:62-64 | the first host index at or after a point that is not taken, with all hosts before it taken, or the end |
| IpamPool.Scan | lib/Ipam.py:61-69 | the scan finds a free host; if that host is behind the cursor, every host from the cursor on is taken, and so is every host before it. It reports nothing iff every host is taken |
| IpamPool.Pool.FindNextAddress | lib/Ipam.py:61-69 | the two loops return Scan's host and leave the cursor just past it, or at the end when both passes fail; allocations are unchanged |
| IpamPool.Rejection | lib/Ipam.py:77-86 | an address is accepted iff it lies in the range, is neither the network address nor (IPv4) the broadcast, and is free; "already used" iff only the last condition fails |
| IpamPool.AllocateStep | lib/Ipam.py:71-89 | success adds exactly the returned address, an allocatable one not allocated before, with the range's prefix; failure leaves the allocations alone; a manual request leaves the cursor alone |
| IpamPool.Pool.Allocate | lib/Ipam.py:71-89 | the result and new state are those of AllocateStep, and the pool stays valid |
| IpamPool.AllocateKeepsConsistent | lib/Ipam.py:77-87 | every allocation keeps the pool invariant: the cursor is in bounds and every allocated address is allocatable in the range |
| IpamPool.ManualAllocation | lib/Ipam.py:74-89 | a manual request succeeds iff the address is allocatable in the range and free, whatever the sub-range; it returns the address with the range's prefix |
| IpamPool.ManualRejections | lib/Ipam.py:77-86 | the network address, the IPv4 broadcast and outside addresses are refused with their own errors, an allocated address with "already used" naming it, and a refusal changes nothing |
| IpamPool.AutomaticPicksScannedHost | lib/Ipam.py:72-73 | an automatic allocation hands out only the scanned host of the sub-range and moves the cursor as the scan does |
| IpamPool.SubRangeHostsAllocatable | lib/Ipam.py:77-82 | every enumerated host of a sub-range with two or more host bits passes the range checks |
| IpamPool.AutomaticFailsOnlyWhenFull | lib/Ipam.py:61-69 | with two or more host bits, an automatic allocation fails only with "no free addresses", and does so iff every host of the sub-range is allocated |
| IpamPool.SubRangeEndsNeverScanned | lib/Ipam.py:61-69 | a sub-range's own network address and (IPv4) broadcast can be allocatable in the range yet are never scanned, so automatic allocation reports exhaustion while they are free |
| IpamPool.Pool.Deallocate | lib/Ipam.py:91-95 | the new state is Release of the old one and the pool stays valid |
| IpamPool.ReleaseKeepsConsistent | lib/Ipam.py:91-95 | deallocation removes exactly that address, keeps the invariant and leaves the cursor |
| IpamPool.ReleaseAbsentIsNoop | lib/Ipam.py:91-95 | deallocating changes nothing iff the address is not allocated; deallocating twice is deallocating once |
| IpamPool.ReleaseThenRequest | lib/Ipam.py:71-95 | a deallocated address can be requested manually again at once |
| IpamPool.AllocateAll | lib/Ipam.py:71-89 | a run of allocate calls yields one result per call and keeps the cursor in bounds |
| IpamPool.HandedOutOnce | lib/Ipam.py:84-87 | across any run of allocations, granted addresses are pairwise distinct, were free before the run and are allocated after it |
| IpamPool.Session | lib/Ipam.py:71-95 | a run of allocate and deallocate calls yields at most one result per call and keeps the cursor in bounds |
| IpamPool.SessionAppend | lib/Ipam.py:71-95 | running two call sequences one after the other is running their concatenation |
| IpamPool.SessionKeepsConsistent | lib/Ipam.py:71-95 | any interleaving of allocations and deallocations keeps the pool invariant |
| IpamPool.AutomaticNextHost | lib/Ipam.py:61-64 | with hosts 0..j-1 allocated and the cursor at j, the next automatic allocation grants host j and moves the cursor to j+1 |
| IpamPool.AutomaticWhenFull | lib/Ipam.py:65-69 | with every host allocated, automatic allocation fails and changes nothing |
| IpamPool.YieldsRemainingHosts | lib/Ipam.py:61-69 | from hosts 0..j-1 allocated, automatic allocations yield hosts j, j+1, ... in order and then fail |
| IpamPool.FreshPoolYieldsHostsInOrder | lib/Ipam.py:61-69 | a fresh pool whose sub-range has N hosts yields them in ascending order for N calls, then fails on call N+1 |
| IpamSpace.Space.constructor | lib/Ipam.py:102-105 | a new space has its name and two empty maps |
| IpamSpace.RegistryIds | lib/Ipam.py:114-115 | in a registry every pool is stored under its own identifier and has the map's family |
| IpamSpace.RegistryDisjoint | lib/Ipam.py:107-115 | in a registry the ranges of two different entries share no address |
| IpamSpace.Search | lib/Ipam.py:108-113 | the loop over the map: an equal entry is reported as such; an overlapping entry only if it is not equal; no match only if no entry is equal or overlapping; a refusal only with an entry of the other family |
| IpamSpace.SearchAnswer | lib/Ipam.py:109-115 | in a registry, the loop's answer is exact: an equal entry is the one under the pool's range, an overlapping one means no entry is equal, no match means the pool overlaps no entry |
| IpamSpace.SameIsOnlyOverlap | lib/Ipam.py:109-113 | in a registry, an entry equal to the pool is the only entry overlapping it, so the answer does not depend on visiting order |
| IpamSpace.OverlapExcludesSame | lib/Ipam.py:110-113 | an overlapping entry that is not equal to the pool rules out an equal entry |
| IpamSpace.InsertKeepsRegistry | lib/Ipam.py:114-115 | inserting a pool that overlaps no entry adds a new key and keeps "no two entries overlap" |
| IpamSpace.Space.AddPool | lib/Ipam.py:107-115 | an equal pool yields its id and changes nothing. If no entry is equal, an overlapping pool gets an error naming an overlapping entry and changes nothing. Otherwise the pool is inserted under its range. The other family's map never changes and the space stays valid |
| IpamSpace.AddTwice | lib/Ipam.py:107-115 | adding an equal pool again returns the same id and leaves the pool stored |
| IpamSpace.Space.GetPool | lib/Ipam.py:117-124 | succeeds iff the id is in either map, answering from the IPv4 map first; otherwise an unknown-pool error. In a valid space no id is in both maps, and the answer is the pool of that range |
| IpamSpace.Space.RemovePool | lib/Ipam.py:126-133 | deletes the id from the IPv4 map if there, else from the IPv6 map, else fails with unknown pool; nothing else changes |
| IpamScenarios.SubRangeOutside | test/IpamPoolTest.py:17-19 | range 127.0.0.0/24 with sub-range 127.1.2.3/24 is refused as not a subnet |
| IpamScenarios.NormalizedConstructionIPv4 | test/IpamPoolTest.py:33-37 | 127.0.0.1/24 constructs the range 127.0.0.0/24 |
| IpamScenarios.MaskFd00 | test/IpamPoolTest.py:39-43 | fd00:a:b:c:1:2:3:4 masks to fd00:a:b::/48 and fd00:a:b:c::/64 |
| IpamScenarios.NormalizedSubRangeIPv4 | test/IpamPoolTest.py:45-52 | 127.0.0.1/8 with 127.0.0.2/24 constructs 127.0.0.0/8 with sub-range 127.0.0.0/24 |
| IpamScenarios.NormalizedConstructionsIPv6 | test/IpamPoolTest.py:54-61 | the /48 range and /64 sub-range of fd00:a:b:c:1:2:3:4 construct fd00:a:b::/48 and fd00:a:b:c::/64 |
| IpamScenarios.OverlapExamplesIPv4 | test/IpamPoolTest.py:79-85 | 127.0.0.1/24 and 127.0.2.3/16 each overlap themselves and each other |
| IpamScenarios.OverlapExamplesIPv6 | test/IpamPoolTest.py:87-93 | fe80::/64 and fe80::1:2:3:4/72 each overlap themselves and each other |
| IpamScenarios.SharedBaseOverlaps | lib/Ipam.py:56 | two networks of one family with the same network address overlap both ways |
| IpamScenarios.SmallPoolIPv4 | test/IpamPoolTest.py:97-112 | 127.0.0.0/30 grants .1 and .2, then exhausts, then refuses .255 below, the network, both used hosts, the broadcast and the address above |
| IpamScenarios.R126Refusals | test/IpamPoolTest.py:114-130 | in a full fd00::/126 the address below, the network address, the three used hosts and the address above are refused |
| IpamScenarios.SmallPoolIPv6Order | test/IpamPoolTest.py:145-155 | fd00::/126 grants fd00::1, ::2, ::3 (the last address included) and then reports no free address |
| IpamScenarios.SubRangeIncomplete | test/IpamPoolTest.py:208-219 | in 127.0.0.0/8 with sub-range 127.0.0.0/30: the manual grants, then .1, then "no free address" while 127.0.0.3 is free, which is then granted on request |
| IpamScenarios.AllocateRelease | test/IpamPoolTest.py:259-276 | in 127.0.0.0/29 the persistent cursor decides the order after releases: the whole expected sequence of eleven answers |

## Left out

- Text parsing and formatting of addresses and networks (the `ipaddress`
  library) are not modelled. Inputs are parsed values. The text
  `address/prefix` that `allocate` returns is the pair `Assigned(address,
  prefix)`.
- `__str__` is not modelled as text. `Pool.Id` returns the range, and the
  identifier text is taken to correspond one-to-one with the range.
- For a /32 or /128 network, `hosts()` returns a list, and iterating it starts
  over each time. The model uses the same cursor as for every other network.
  With a single host this gives the same answers.
- Dictionary insertion order is not modelled. When several pools overlap a new
  one, `Space.AddPool` names one of them, not necessarily the first inserted.
  Every other answer of `add_pool` is independent of the order
  (`SameIsOnlyOverlap`).
- `random.randrange` and `random_hex` are a `Draw` parameter.
- The single exception type `InputValidationException` is the `Error`
  datatype, one constructor per message. The message text is not modelled.
- Python's `TypeError` from `subnet_of` on a range and a sub-range of
  different families is the `MixedVersions` refusal.
- The `options` argument of `Pool.__init__` is never used and is not
  modelled.
- The repeated checks at lib/Ipam.py:25-29 cannot fire after lines 20-23, so
  `Configure` performs them once.
- lib/IpamDriver.py, lib/IpamDriverData.py and run.py are not part of this
  model. They are the HTTP adapter, the global table of spaces with its
  external-id split, and process start-up.
- Concurrency is not modelled: the allocator has no locking, and the model is
  sequential.
- Automatic allocation is proved for sub-ranges with at least two host bits
  (`AutomaticFailsOnlyWhenFull`, `YieldsRemainingHosts`). For a /31, /32,
  /127 or /128 sub-range, `AllocateStep` still gives the exact answer.
- IpamScenarios.SmallPoolIPv6Order: states the first of the three refusals at
  test/IpamPoolTest.py:150-155. `AutomaticWhenFull` shows that the state is
  then unchanged, so every further call is refused the same way.
- IpamScenarios.SmallPoolIPv4: also stands for test/IpamPoolTest.py:134-143.
  Its third answer is the first refusal of that test, and
  `AutomaticWhenFull` covers the repeats.
- These tests are not replayed as scenarios; the general lemmas above cover
  what they check:
  - random construction (test/IpamPoolTest.py:23-31), covered by `RandomRange`;
  - equality (64-75), covered by `ConfigureIgnoresHostBits`;
  - large pools (157-165) and the /28 and /124 manual runs (168-206);
  - the other sub-range runs (221-256);
  - the IPv6 release run (278-296).
