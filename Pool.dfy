/**
 * One address pool (class `Pool` of lib/Ipam.py): a range, a sub-range that
 * automatic allocation scans, the set of allocated addresses and a scan
 * cursor that persists between calls. The functions say what each operation
 * does to a pool's state; class Pool performs the operations in place and is
 * proved to follow them.
 */
module IpamPool {
  import opened IpNetwork
  import opened IpamTypes

  // ---------------------------------------------------------------------------
  // Construction
  // ---------------------------------------------------------------------------

  /**
   * The random values drawn for a range nobody gave: the second and third
   * octets of an IPv4 /24 (`random.randrange(16, 32)`, `random.randrange(0, 256)`)
   * and the three 16-bit groups of an IPv6 /64 (three `random_hex()` strings of
   * four hex digits).
   */
  datatype Draw = Draw(second: nat, third: nat, g1: nat, g2: nat, g3: nat)

  predicate Drawable(d: Draw) {
    && 16 <= d.second < 32 && d.third < 0x100
    && d.g1 < 0x1_0000 && d.g2 < 0x1_0000 && d.g3 < 0x1_0000
  }

  /** 172.16.0.0/12, the private block random IPv4 ranges come from. */
  const PrivateBlock: Net := Net(0xAC10_0000, 12, false)

  /** fd00::/16, the unique-local block random IPv6 ranges come from. */
  const UniqueLocalBlock: Net := Net(0xfd00_0000_0000_0000_0000_0000_0000_0000, 16, true)

  /** `172.<second>.<third>.0/24` or `fd00:<g1>:<g2>:<g3>::/64`. */
  function RandomRange(v6: bool, d: Draw): (n: Net)
    requires Drawable(d)
    ensures NetValid(n) && n.v6 == v6
    ensures !v6 ==> n.prefix == 24 && SubnetOf(n, PrivateBlock)
    ensures v6 ==> n.prefix == 64 && SubnetOf(n, UniqueLocalBlock)
  {
    Pow2Values();
    if v6 then
      var k := 0xfd00 * 0x1_0000_0000_0000 + d.g1 * 0x1_0000_0000 + d.g2 * 0x1_0000 + d.g3;
      DivModUnique(k * 0x1_0000_0000_0000_0000, 0x1_0000_0000_0000_0000, k, 0);
      Net(k * 0x1_0000_0000_0000_0000, 64, true)
    else
      var k := 0xAC_0000 + d.second * 0x100 + d.third;
      DivModUnique(k * 0x100, 0x100, k, 0);
      Net(k * 0x100, 24, false)
  }

  /** Range and sub-range as construction fixes them. */
  datatype Ranges = Ranges(range: Net, subRange: Net)

  /** What a pool's pair of networks satisfies once constructed. */
  predicate Formed(range: Net, sub: Net) {
    NetValid(range) && NetValid(sub) && sub.v6 == range.v6 && SubnetOf(sub, range)
  }

  predicate ArgValid(a: Arg<Cidr>) {
    a.Given? ==> CidrValid(a.value)
  }

  /**
   * The checks and choices of `Pool.__init__`: an empty string counts as
   * absent; a sub-range needs a range; a random range needs a family; given
   * networks are normalised; the sub-range defaults to the range and must lie
   * inside it.
   */
  function Configure(pool: Arg<Cidr>, subPool: Arg<Cidr>, v6: Option<bool>, d: Draw): (r: Result<Ranges>)
    requires ArgValid(pool) && ArgValid(subPool) && Drawable(d)
    ensures r == Err(SubPoolWithoutPool) <==> !pool.Given? && subPool.Given?
    ensures r == Err(VersionUnspecified) <==> !pool.Given? && !subPool.Given? && v6.None?
    ensures r == Err(MixedVersions) <==> pool.Given? && subPool.Given? && pool.value.v6 != subPool.value.v6
    ensures r.Ok? ==> Formed(r.value.range, r.value.subRange)
    ensures r.Ok? && pool.Given? ==> r.value.range == Normalize(pool.value)
    ensures r.Ok? && !pool.Given? ==> r.value.range == RandomRange(v6.value, d)
    ensures r.Ok? && !subPool.Given? ==> r.value.subRange == r.value.range
    ensures r.Ok? && subPool.Given? ==> r.value.subRange == Normalize(subPool.value)
    ensures pool.Given? && !subPool.Given? ==> r.Ok?
    ensures !pool.Given? && !subPool.Given? && v6.Some? ==> r.Ok?
    ensures pool.Given? && subPool.Given? && pool.value.v6 == subPool.value.v6 ==>
      (r.Ok? <==> SubnetOf(Normalize(subPool.value), Normalize(pool.value)))
    ensures r == Err(NotSubnet) <==>
      && pool.Given? && subPool.Given? && pool.value.v6 == subPool.value.v6
      && !SubnetOf(Normalize(subPool.value), Normalize(pool.value))
  {
    var pool, subPool := Present(pool), Present(subPool);
    if pool.None? && subPool.Some? then Err(SubPoolWithoutPool)
    else if pool.None? && v6.None? then Err(VersionUnspecified)
    else
      var range := if pool.Some? then Normalize(pool.value) else RandomRange(v6.value, d);
      var sub := if subPool.Some? then Normalize(subPool.value) else range;
      if sub.v6 != range.v6 then Err(MixedVersions)
      else if !SubnetOf(sub, range) then Err(NotSubnet)
      else Ok(Ranges(range, sub))
  }

  // ---------------------------------------------------------------------------
  // Pool state and the step functions
  // ---------------------------------------------------------------------------

  /**
   * The mutable part of a pool: the allocated addresses and the cursor, an
   * index into the sub-range's host enumeration (the number of hosts means
   * "the enumeration is used up").
   */
  datatype PoolState = PoolState(allocations: set<Address>, cursor: nat)

  /** A freshly constructed pool: nothing allocated, cursor at the first host. */
  function Fresh(): PoolState {
    PoolState({}, 0)
  }

  /** What `allocate` returns: the address with the range's prefix length. */
  datatype Assigned = Assigned(address: Address, prefix: nat)

  /** The result of an allocation and the pool state after it. */
  datatype Step = Step(result: Result<Assigned>, state: PoolState)

  /**
   * May the address be given to a host of the range at all: it lies in the
   * range and is neither the network address nor, for IPv4, the broadcast.
   */
  predicate Allocatable(range: Net, a: Address) {
    Contains(range, a) && a.value != range.base && (range.v6 || a.value != Last(range))
  }

  /** The pool's invariant. */
  ghost predicate Consistent(range: Net, sub: Net, st: PoolState) {
    && Formed(range, sub)
    && st.cursor <= HostCount(sub)
    && forall a :: a in st.allocations ==> Allocatable(range, a)
  }

  /**
   * Index of the first host at or after `from` that is not taken, or the
   * number of hosts when there is none.
   */
  function FirstFree(sub: Net, taken: set<Address>, from: nat): (k: nat)
    requires from <= HostCount(sub)
    ensures from <= k <= HostCount(sub)
    ensures k < HostCount(sub) ==> Host(sub, k) !in taken
    ensures forall i :: from <= i < k ==> Host(sub, i) in taken
    decreases HostCount(sub) - from
  {
    if from == HostCount(sub) || Host(sub, from) !in taken then from
    else FirstFree(sub, taken, from + 1)
  }

  /** The first free host index from some point is the one with everything before it taken. */
  lemma FirstFreeIs(sub: Net, taken: set<Address>, from: nat, k: nat)
    requires from <= k <= HostCount(sub)
    requires k < HostCount(sub) ==> Host(sub, k) !in taken
    requires forall i :: from <= i < k ==> Host(sub, i) in taken
    ensures FirstFree(sub, taken, from) == k
  {
  }

  datatype ScanResult = Found(index: nat) | Exhausted

  /**
   * `_find_next_address`: the first free host at or after the cursor; when
   * the rest of the enumeration has none, the first free host from the start;
   * when that pass finds none either, nothing.
   */
  function Scan(sub: Net, taken: set<Address>, cursor: nat): (r: ScanResult)
    requires cursor <= HostCount(sub)
    ensures r.Found? ==> r.index < HostCount(sub) && Host(sub, r.index) !in taken
    ensures r.Found? && cursor <= r.index ==> forall i :: cursor <= i < r.index ==> Host(sub, i) in taken
    ensures r.Found? && r.index < cursor ==>
      && (forall i :: cursor <= i < HostCount(sub) ==> Host(sub, i) in taken)
      && (forall i :: 0 <= i < r.index ==> Host(sub, i) in taken)
    ensures r.Exhausted? <==> forall i :: 0 <= i < HostCount(sub) ==> Host(sub, i) in taken
  {
    var k := FirstFree(sub, taken, cursor);
    if k < HostCount(sub) then Found(k)
    else
      var j := FirstFree(sub, taken, 0);
      if j < HostCount(sub) then Found(j) else Exhausted
  }

  /** The cursor after a scan: just past the host found, or at the end. */
  function CursorAfter(sub: Net, r: ScanResult): nat {
    if r.Found? then r.index + 1 else HostCount(sub)
  }

  /**
   * The checks `allocate` applies to the address, in the source's order:
   * network address, IPv4 broadcast, outside the range, already allocated.
   */
  function Rejection(range: Net, taken: set<Address>, a: Address): (e: Option<Error>)
    ensures e.None? <==> Allocatable(range, a) && a !in taken
    ensures e == Some(AlreadyUsed(a)) <==> Allocatable(range, a) && a in taken
  {
    if a == Address(range.base, range.v6) then Some(NetworkAddress)
    else if !range.v6 && a == Address(Last(range), false) then Some(BroadcastAddress)
    else if !Contains(range, a) then Some(OutsidePool)
    else if a in taken then Some(AlreadyUsed(a))
    else None
  }

  function Admit(range: Net, st: PoolState, a: Address): Step {
    match Rejection(range, st.allocations, a)
    case Some(e) => Step(Err(e), st)
    case None => Step(Ok(Assigned(a, range.prefix)), st.(allocations := st.allocations + {a}))
  }

  /**
   * `Pool.allocate`: scan for an address when none (or the empty string) is
   * given, otherwise take the given one; then check it against the range.
   */
  function AllocateStep(range: Net, sub: Net, st: PoolState, request: Arg<Address>): (s: Step)
    requires st.cursor <= HostCount(sub)
    ensures s.result.Ok? ==>
      && Allocatable(range, s.result.value.address)
      && s.result.value.address !in st.allocations
      && s.result.value.prefix == range.prefix
      && s.state.allocations == st.allocations + {s.result.value.address}
    ensures s.result.Err? ==> s.state.allocations == st.allocations
    ensures s.state.cursor <= HostCount(sub)
    ensures request.Given? ==> s.state.cursor == st.cursor
  {
    match Present(request)
    case Some(a) => Admit(range, st, a)
    case None =>
      var scan := Scan(sub, st.allocations, st.cursor);
      var st' := st.(cursor := CursorAfter(sub, scan));
      match scan
      case Exhausted => Step(Err(NoFreeAddress), st')
      case Found(i) => Admit(range, st', Host(sub, i))
  }

  /** `Pool.deallocate`: forget the address if it is allocated. */
  function Release(st: PoolState, a: Address): (r: PoolState)
    ensures r.allocations == st.allocations - {a} && r.cursor == st.cursor
  {
    if a in st.allocations then st.(allocations := st.allocations - {a}) else st
  }

  // ---------------------------------------------------------------------------
  // Properties of single operations
  // ---------------------------------------------------------------------------

  /** Construction yields a consistent fresh pool. */
  lemma FreshIsConsistent(range: Net, sub: Net)
    requires Formed(range, sub)
    ensures Consistent(range, sub, Fresh())
  {
  }

  /** Every allocation keeps the pool's invariant. */
  lemma AllocateKeepsConsistent(range: Net, sub: Net, st: PoolState, request: Arg<Address>)
    requires Consistent(range, sub, st)
    ensures Consistent(range, sub, AllocateStep(range, sub, st, request).state)
  {
  }

  /**
   * A manual allocation succeeds exactly when the address may be handed out
   * from the RANGE and is free, whatever the sub-range is; it moves no cursor.
   */
  lemma ManualAllocation(range: Net, sub: Net, st: PoolState, a: Address)
    requires st.cursor <= HostCount(sub)
    ensures var s := AllocateStep(range, sub, st, Given(a));
      && (s.result.Ok? <==> Allocatable(range, a) && a !in st.allocations)
      && (s.result.Ok? ==> s.result.value == Assigned(a, range.prefix))
      && s.state == (if s.result.Ok? then st.(allocations := st.allocations + {a}) else st)
  {
  }

  /** Rejected addresses: the network address, the IPv4 broadcast, outsiders, duplicates. */
  lemma ManualRejections(range: Net, sub: Net, st: PoolState, a: Address)
    requires Consistent(range, sub, st)
    ensures var s := AllocateStep(range, sub, st, Given(a));
      && (a == Address(range.base, range.v6) ==> s.result == Err(NetworkAddress))
      && (!range.v6 && a == Address(Last(range), false) && a.value != range.base ==>
            s.result == Err(BroadcastAddress))
      && (!Contains(range, a) ==> s.result == Err(OutsidePool))
      && (a in st.allocations ==> s.result == Err(AlreadyUsed(a)))
      && (s.result.Err? ==> s.state == st)
  {
  }

  /**
   * An automatic allocation only ever hands out the host the scan found, so
   * an address outside the sub-range's enumeration is never chosen.
   */
  lemma AutomaticPicksScannedHost(range: Net, sub: Net, st: PoolState)
    requires st.cursor <= HostCount(sub)
    ensures var s := AllocateStep(range, sub, st, Missing);
      var scan := Scan(sub, st.allocations, st.cursor);
      && s.state.cursor == CursorAfter(sub, scan)
      && (s.result.Ok? ==> scan.Found? && s.result.value.address == Host(sub, scan.index))
      && (s.result.Ok? ==> IsHost(sub, s.result.value.address) && Contains(sub, s.result.value.address))
  {
    var scan := Scan(sub, st.allocations, st.cursor);
    if scan.Found? {
      HostsOfNet(sub, Host(sub, scan.index));
    }
  }

  /** Every host of a sub-range with at least two host bits may be handed out from the range. */
  lemma SubRangeHostsAllocatable(range: Net, sub: Net, i: nat)
    requires Formed(range, sub) && HostBits(sub) >= 2 && i < HostCount(sub)
    ensures Allocatable(range, Host(sub, i))
  {
    HostsOfNet(sub, Host(sub, i));
  }

  /**
   * For a sub-range with at least two host bits, an automatic allocation
   * fails only with "no free addresses", and does so exactly when every host
   * of the sub-range is allocated: the second pass makes the scan complete
   * over the sub-range's enumeration.
   */
  lemma AutomaticFailsOnlyWhenFull(range: Net, sub: Net, st: PoolState)
    requires Consistent(range, sub, st) && HostBits(sub) >= 2
    ensures var s := AllocateStep(range, sub, st, Missing);
      && (s.result.Err? ==> s.result == Err(NoFreeAddress))
      && (s.result.Err? <==> forall i :: 0 <= i < HostCount(sub) ==> Host(sub, i) in st.allocations)
  {
    var scan := Scan(sub, st.allocations, st.cursor);
    if scan.Found? {
      SubRangeHostsAllocatable(range, sub, scan.index);
    }
  }

  /**
   * The documented incompleteness: for a sub-range with at least two host
   * bits, the sub-range's own network address (when it is not the range's)
   * and, for IPv4, its broadcast address (when it is not the range's) may be
   * handed out from the range, yet the scan never yields them. So once all
   * scanned hosts are allocated, automatic allocation fails while such an
   * address is still free.
   */
  lemma SubRangeEndsNeverScanned(range: Net, sub: Net, st: PoolState, a: Address)
    requires Consistent(range, sub, st) && HostBits(sub) >= 2
    requires a.v6 == sub.v6
    requires (a.value == sub.base && sub.base != range.base)
          || (!sub.v6 && a.value == Last(sub) && Last(sub) != Last(range))
    requires forall i :: 0 <= i < HostCount(sub) ==> Host(sub, i) in st.allocations
    ensures Allocatable(range, a) && !IsHost(sub, a)
    ensures AllocateStep(range, sub, st, Missing).result == Err(NoFreeAddress)
  {
    HostsOfNet(sub, a);
    AutomaticFailsOnlyWhenFull(range, sub, st);
  }

  /** Deallocation keeps the invariant and leaves the cursor where it was. */
  lemma ReleaseKeepsConsistent(range: Net, sub: Net, st: PoolState, a: Address)
    requires Consistent(range, sub, st)
    ensures Consistent(range, sub, Release(st, a))
    ensures Release(st, a).cursor == st.cursor
    ensures Release(st, a).allocations == st.allocations - {a}
  {
  }

  /** Deallocating an address that is not allocated changes nothing; twice is once. */
  lemma ReleaseAbsentIsNoop(st: PoolState, a: Address)
    ensures a !in st.allocations <==> Release(st, a) == st
    ensures Release(Release(st, a), a) == Release(st, a)
  {
    if a in st.allocations {
      assert a !in Release(st, a).allocations;
    }
  }

  /** A released address can be taken back at once by asking for it. */
  lemma ReleaseThenRequest(range: Net, sub: Net, st: PoolState, a: Address)
    requires Consistent(range, sub, st) && a in st.allocations
    ensures AllocateStep(range, sub, Release(st, a), Given(a)).result == Ok(Assigned(a, range.prefix))
  {
  }

  // ---------------------------------------------------------------------------
  // Sequences of allocations
  // ---------------------------------------------------------------------------

  /** The results of a run of `allocate` calls and the state after the last. */
  datatype Trace = Trace(results: seq<Result<Assigned>>, state: PoolState)

  function AllocateAll(range: Net, sub: Net, st: PoolState, requests: seq<Arg<Address>>): (t: Trace)
    requires st.cursor <= HostCount(sub)
    ensures |t.results| == |requests| && t.state.cursor <= HostCount(sub)
    decreases |requests|
  {
    if requests == [] then Trace([], st)
    else
      var s := AllocateStep(range, sub, st, requests[0]);
      var rest := AllocateAll(range, sub, s.state, requests[1..]);
      Trace([s.result] + rest.results, rest.state)
  }

  /**
   * No address is handed out twice: across any run of allocations, the
   * addresses returned are pairwise distinct, none was allocated before the
   * run, and all are allocated after it.
   */
  lemma {:induction false} HandedOutOnce(range: Net, sub: Net, st: PoolState, requests: seq<Arg<Address>>)
    requires st.cursor <= HostCount(sub)
    ensures var t := AllocateAll(range, sub, st, requests);
      && st.allocations <= t.state.allocations
      && (forall i :: 0 <= i < |requests| && t.results[i].Ok? ==>
            t.results[i].value.address !in st.allocations && t.results[i].value.address in t.state.allocations)
      && (forall i, j :: 0 <= i < j < |requests| && t.results[i].Ok? && t.results[j].Ok? ==>
            t.results[i].value.address != t.results[j].value.address)
    decreases |requests|
  {
    if requests != [] {
      var s := AllocateStep(range, sub, st, requests[0]);
      HandedOutOnce(range, sub, s.state, requests[1..]);
      var t := AllocateAll(range, sub, st, requests);
      var rest := AllocateAll(range, sub, s.state, requests[1..]);
      assert t.results == [s.result] + rest.results;
      forall i | 0 <= i < |requests| && t.results[i].Ok?
        ensures t.results[i].value.address !in st.allocations && t.results[i].value.address in t.state.allocations
      {
        if i > 0 { assert t.results[i] == rest.results[i - 1]; }
      }
      forall i, j | 0 <= i < j < |requests| && t.results[i].Ok? && t.results[j].Ok?
        ensures t.results[i].value.address != t.results[j].value.address
      {
        assert t.results[j] == rest.results[j - 1];
        if i > 0 { assert t.results[i] == rest.results[i - 1]; }
      }
    }
  }

  /** A call on a pool: `allocate(address)` or `deallocate(address)`. */
  datatype Call = Allocation(request: Arg<Address>) | Deallocation(address: Address)

  /** The results of the `allocate` calls of a run of calls, and the state after the last. */
  function Session(range: Net, sub: Net, st: PoolState, calls: seq<Call>): (t: Trace)
    requires st.cursor <= HostCount(sub)
    ensures |t.results| <= |calls| && t.state.cursor <= HostCount(sub)
    decreases |calls|
  {
    if calls == [] then Trace([], st)
    else match calls[0]
      case Allocation(request) =>
        var s := AllocateStep(range, sub, st, request);
        var rest := Session(range, sub, s.state, calls[1..]);
        Trace([s.result] + rest.results, rest.state)
      case Deallocation(a) => Session(range, sub, Release(st, a), calls[1..])
  }

  /** A run of calls split in two: the second part starts from the state the first leaves. */
  lemma {:induction false} SessionAppend(range: Net, sub: Net, st: PoolState, first: seq<Call>, second: seq<Call>)
    requires st.cursor <= HostCount(sub)
    ensures var t1 := Session(range, sub, st, first);
      var t2 := Session(range, sub, t1.state, second);
      Session(range, sub, st, first + second) == Trace(t1.results + t2.results, t2.state)
    decreases |first|
  {
    if first == [] {
      assert first + second == second;
    } else {
      assert (first + second)[0] == first[0];
      assert (first + second)[1..] == first[1..] + second;
      match first[0]
      case Allocation(request) =>
        var s := AllocateStep(range, sub, st, request);
        SessionAppend(range, sub, s.state, first[1..], second);
        var t1 := Session(range, sub, s.state, first[1..]);
        var t2 := Session(range, sub, t1.state, second);
        assert [s.result] + (t1.results + t2.results) == ([s.result] + t1.results) + t2.results;
      case Deallocation(a) =>
        SessionAppend(range, sub, Release(st, a), first[1..], second);
    }
  }

  /** Any interleaving of allocations and deallocations keeps the pool's invariant. */
  lemma {:induction false} SessionKeepsConsistent(range: Net, sub: Net, st: PoolState, calls: seq<Call>)
    requires Consistent(range, sub, st)
    ensures Consistent(range, sub, Session(range, sub, st, calls).state)
    decreases |calls|
  {
    if calls != [] {
      match calls[0]
      case Allocation(request) =>
        AllocateKeepsConsistent(range, sub, st, request);
        SessionKeepsConsistent(range, sub, AllocateStep(range, sub, st, request).state, calls[1..]);
      case Deallocation(a) =>
        ReleaseKeepsConsistent(range, sub, st, a);
        SessionKeepsConsistent(range, sub, Release(st, a), calls[1..]);
    }
  }

  /** k automatic requests (no address given). */
  function Automatic(k: nat): (reqs: seq<Arg<Address>>)
    ensures |reqs| == k && forall i :: 0 <= i < k ==> reqs[i] == Missing
  {
    seq(k, _ => Missing)
  }

  /** The first k hosts of the enumeration. */
  function HostsBelow(sub: Net, k: nat): set<Address> {
    set i: nat | i < k :: Host(sub, i)
  }

  /** From hosts 0..j-1 allocated and the cursor at j < N, the next automatic allocation is host j. */
  lemma AutomaticNextHost(range: Net, sub: Net, j: nat)
    requires Formed(range, sub) && HostBits(sub) >= 2 && j < HostCount(sub)
    ensures AllocateStep(range, sub, PoolState(HostsBelow(sub, j), j), Missing)
         == Step(Ok(Assigned(Host(sub, j), range.prefix)), PoolState(HostsBelow(sub, j + 1), j + 1))
  {
    var st := PoolState(HostsBelow(sub, j), j);
    assert Host(sub, j) !in st.allocations;
    FirstFreeIs(sub, st.allocations, j, j);
    SubRangeHostsAllocatable(range, sub, j);
    assert HostsBelow(sub, j) + {Host(sub, j)} == HostsBelow(sub, j + 1) by {
      forall x | x in HostsBelow(sub, j + 1) ensures x in HostsBelow(sub, j) + {Host(sub, j)} {
        var i: nat :| i < j + 1 && x == Host(sub, i);
        if i < j { assert x in HostsBelow(sub, j); }
      }
    }
  }

  /** With every host allocated and the cursor at the end, automatic allocation fails. */
  lemma AutomaticWhenFull(range: Net, sub: Net)
    requires Formed(range, sub)
    ensures var n := HostCount(sub);
      AllocateStep(range, sub, PoolState(HostsBelow(sub, n), n), Missing)
        == Step(Err(NoFreeAddress), PoolState(HostsBelow(sub, n), n))
  {
    var n := HostCount(sub);
    forall i | 0 <= i < n ensures Host(sub, i) in HostsBelow(sub, n) { }
  }

  /**
   * From the state in which hosts 0..j-1 are allocated and the cursor is at
   * j, automatic allocations yield hosts j, j+1, ... in ascending order, and
   * the call after the last host fails with "no free addresses".
   */
  ghost predicate YieldsFrom(range: Net, sub: Net, j: nat)
    requires j <= HostCount(sub)
  {
    var k := HostCount(sub) - j;
    var t := AllocateAll(range, sub, PoolState(HostsBelow(sub, j), j), Automatic(k + 1));
    && (forall i :: 0 <= i < k ==> t.results[i] == Ok(Assigned(Host(sub, j + i), range.prefix)))
    && t.results[k] == Err(NoFreeAddress)
  }

  lemma {:induction false} YieldsRemainingHosts(range: Net, sub: Net, j: nat)
    requires Formed(range, sub) && HostBits(sub) >= 2 && j <= HostCount(sub)
    ensures YieldsFrom(range, sub, j)
    decreases HostCount(sub) - j
  {
    if j == HostCount(sub) {
      RunWhenFull(range, sub);
    } else {
      AutomaticNextHost(range, sub, j);
      YieldsRemainingHosts(range, sub, j + 1);
      ContinueRun(range, sub, j);
    }
  }

  /** The base case of YieldsRemainingHosts: one more request once every host is allocated. */
  lemma RunWhenFull(range: Net, sub: Net)
    requires Formed(range, sub)
    ensures YieldsFrom(range, sub, HostCount(sub))
  {
    AutomaticWhenFull(range, sub);
    assert Automatic(1) == [Missing];
  }

  /** The inductive step of YieldsRemainingHosts. */
  lemma ContinueRun(range: Net, sub: Net, j: nat)
    requires Formed(range, sub) && HostBits(sub) >= 2 && j < HostCount(sub)
    requires AllocateStep(range, sub, PoolState(HostsBelow(sub, j), j), Missing)
         == Step(Ok(Assigned(Host(sub, j), range.prefix)), PoolState(HostsBelow(sub, j + 1), j + 1))
    requires YieldsFrom(range, sub, j + 1)
    ensures YieldsFrom(range, sub, j)
  {
    var k := HostCount(sub) - j;
    var st := PoolState(HostsBelow(sub, j), j);
    var st' := PoolState(HostsBelow(sub, j + 1), j + 1);
    var t := AllocateAll(range, sub, st, Automatic(k + 1));
    assert Automatic(k + 1)[1..] == Automatic(k);
    var rest := AllocateAll(range, sub, st', Automatic(k));
    assert t.results == [Ok(Assigned(Host(sub, j), range.prefix))] + rest.results;
    forall i | 0 <= i < k ensures t.results[i] == Ok(Assigned(Host(sub, j + i), range.prefix)) {
      if i > 0 {
        assert t.results[i] == rest.results[i - 1];
        assert j + i == j + 1 + (i - 1);
      }
    }
    assert t.results[k] == rest.results[k - 1];
  }

  /**
   * On a fresh pool whose sub-range has N hosts (at least two host bits),
   * N + 1 automatic allocations yield the N hosts once each in ascending order
   * and then fail with "no free addresses".
   */
  lemma FreshPoolYieldsHostsInOrder(range: Net, sub: Net)
    requires Formed(range, sub) && HostBits(sub) >= 2
    ensures var n := HostCount(sub);
      var t := AllocateAll(range, sub, Fresh(), Automatic(n + 1));
      && (forall i :: 0 <= i < n ==> t.results[i] == Ok(Assigned(Host(sub, i), range.prefix)))
      && t.results[n] == Err(NoFreeAddress)
  {
    assert HostsBelow(sub, 0) == {};
    YieldsRemainingHosts(range, sub, 0);
  }

  // ---------------------------------------------------------------------------
  // The pool object
  // ---------------------------------------------------------------------------

  class Pool {
    /** `self.pool`: the range every allocation is checked against. */
    const range: Net
    /** `self.subpool`: the part of the range automatic allocation scans. */
    const subRange: Net
    /** `self.v6`: the family of the range. */
    const v6: bool
    /** `self.allocations`: the addresses in use. */
    var allocations: set<Address>
    /** `self.current`: position in the enumeration of the sub-range's hosts. */
    var cursor: nat

    /** The fixed configuration is well formed. */
    predicate WellFormed() {
      v6 == range.v6 && Formed(range, subRange)
    }

    ghost function State(): PoolState
      reads this
    {
      PoolState(allocations, cursor)
    }

    ghost predicate Valid()
      reads this
    {
      WellFormed() && Consistent(range, subRange, State())
    }

    constructor (ranges: Ranges)
      requires Formed(ranges.range, ranges.subRange)
      ensures Valid()
      ensures range == ranges.range && subRange == ranges.subRange && v6 == ranges.range.v6
      ensures State() == Fresh()
    {
      range := ranges.range;
      subRange := ranges.subRange;
      allocations := {};
      cursor := 0;
      v6 := ranges.range.v6;
    }

    /** `Pool(pool, subPool, v6)`: validate the arguments, then construct. */
    static method Create(pool: Arg<Cidr>, subPool: Arg<Cidr>, v6: Option<bool>, draw: Draw) returns (r: Result<Pool>)
      requires ArgValid(pool) && ArgValid(subPool) && Drawable(draw)
      ensures var c := Configure(pool, subPool, v6, draw);
        && (c.Err? ==> r == Err(c.error))
        && (c.Ok? ==>
              && r.Ok? && fresh(r.value) && r.value.Valid()
              && r.value.range == c.value.range && r.value.subRange == c.value.subRange
              && r.value.State() == Fresh())
    {
      var c := Configure(pool, subPool, v6, draw);
      if c.Err? {
        return Err(c.error);
      }
      var p := new Pool(c.value);
      return Ok(p);
    }

    /** `__str__`: the pool is identified by its range. */
    function Id(): (r: Net)
      ensures WellFormed() ==> NetValid(r) && r.v6 == v6
    {
      range
    }

    /** `__eq__`: same family, range and sub-range; allocations play no part. */
    predicate Same(other: Pool): (r: bool)
      ensures r ==> Id() == other.Id()
    {
      v6 == other.v6 && range == other.range && subRange == other.subRange
    }

    /** `overlaps`: refused across families, else whether the ranges overlap. */
    function Overlaps(other: Pool): (r: Result<bool>)
      ensures r.Err? <==> v6 != other.v6
      ensures r.Err? ==> r.error == VersionMismatch
    {
      if v6 != other.v6 then Err(VersionMismatch) else Ok(NetOverlaps(range, other.range))
    }

    /** `_is_allocated`: in a valid pool only addresses the range may hand out are allocated. */
    predicate IsAllocated(a: Address): (r: bool)
      reads this
      ensures Valid() && r ==> Allocatable(range, a)
    {
      a in allocations
    }

    /** `_find_next_address`: the two-pass scan from the persistent cursor. */
    method FindNextAddress() returns (r: Result<Address>)
      requires Valid()
      modifies this`cursor
      ensures Valid() && allocations == old(allocations)
      ensures var scan := Scan(subRange, allocations, old(cursor));
        && cursor == CursorAfter(subRange, scan)
        && r == (if scan.Found? then Ok(Host(subRange, scan.index)) else Err(NoFreeAddress))
    {
      var n := HostCount(subRange);
      ghost var start := cursor;
      // First pass: the rest of the current enumeration.
      while cursor < n
        invariant start <= cursor <= n
        invariant forall i :: start <= i < cursor ==> Host(subRange, i) in allocations
      {
        var a := Host(subRange, cursor);
        cursor := cursor + 1;
        if !IsAllocated(a) {
          FirstFreeIs(subRange, allocations, start, cursor - 1);
          return Ok(a);
        }
      }
      FirstFreeIs(subRange, allocations, start, n);
      // Second pass: a new enumeration from the first host.
      cursor := 0;
      while cursor < n
        invariant cursor <= n
        invariant forall i :: 0 <= i < cursor ==> Host(subRange, i) in allocations
      {
        var a := Host(subRange, cursor);
        cursor := cursor + 1;
        if !IsAllocated(a) {
          FirstFreeIs(subRange, allocations, 0, cursor - 1);
          return Ok(a);
        }
      }
      FirstFreeIs(subRange, allocations, 0, n);
      return Err(NoFreeAddress);
    }

    /** `allocate`: the given address, or the scan's, checked and recorded. */
    method Allocate(address: Arg<Address>) returns (r: Result<Assigned>)
      requires Valid()
      modifies this
      ensures Valid()
      ensures Step(r, State()) == AllocateStep(range, subRange, old(State()), address)
    {
      var a: Address;
      if address.Given? {
        a := address.value;
      } else {
        var found := FindNextAddress();
        if found.Err? {
          return Err(found.error);
        }
        a := found.value;
      }
      var rejection := Rejection(range, allocations, a);
      if rejection.Some? {
        return Err(rejection.value);
      }
      allocations := allocations + {a};
      return Ok(Assigned(a, range.prefix));
    }

    /** `deallocate`: remove the address if it is allocated; silently nothing otherwise. */
    method Deallocate(address: Address)
      requires Valid()
      modifies this`allocations
      ensures Valid()
      ensures State() == Release(old(State()), address)
    {
      if IsAllocated(address) {
        allocations := allocations - {address};
      }
    }
  }

  // ---------------------------------------------------------------------------
  // Equality and overlap of pools
  // ---------------------------------------------------------------------------

  /**
   * Two pools given the same range text apart from host bits (and no
   * sub-range) are equal, as `Pool('127.0.0.1/8') == Pool('127.0.0.2/8')`.
   */
  lemma ConfigureIgnoresHostBits(c1: Cidr, c2: Cidr, v6: Option<bool>, d: Draw)
    requires CidrValid(c1) && CidrValid(c2) && Drawable(d)
    requires c1.prefix == c2.prefix && c1.v6 == c2.v6
    requires Contains(Normalize(c1), Address(c2.address, c2.v6))
    ensures Configure(Given(c1), Missing, v6, d) == Configure(Given(c2), Missing, v6, d)
  {
    SameNetwork(c1, c2);
  }

  /**
   * Equality of pools is an equivalence. It reads no mutable field, so
   * allocating or releasing addresses never changes it.
   */
  lemma SameIsEquivalence(p: Pool, q: Pool, o: Pool)
    ensures p.Same(p)
    ensures p.Same(q) == q.Same(p)
    ensures p.Same(q) && q.Same(o) ==> p.Same(o)
  {
  }


  /** Overlap is decided by the ranges alone and means "they share an address". */
  lemma OverlapsMeansShared(p: Pool, q: Pool)
    requires p.WellFormed() && q.WellFormed() && p.v6 == q.v6
    ensures p.Overlaps(q) == Ok(exists x :: Contains(p.range, x) && Contains(q.range, x))
  {
    OverlapsIffShared(p.range, q.range);
  }

  /** Overlap is symmetric, in its result and in its refusal. */
  lemma PoolOverlapsSymmetric(p: Pool, q: Pool)
    ensures p.Overlaps(q) == q.Overlaps(p)
  {
    OverlapsSymmetric(p.range, q.range);
  }

  /** Every pool overlaps itself and every pool equal to it. */
  lemma SameOverlaps(p: Pool, q: Pool)
    requires p.Same(q)
    ensures p.Overlaps(q) == Ok(true) && p.Overlaps(p) == Ok(true)
  {
    OverlapsReflexive(p.range);
  }
}
