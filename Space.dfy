/**
 * A named registry of pools (class `Space` of lib/Ipam.py): one map per IP
 * family from a pool's identifier, the canonical text of its range, to the
 * pool. The identifier is represented by the range itself, which that text
 * renders one-to-one.
 */
module IpamSpace {
  import opened IpNetwork
  import opened IpamTypes
  import opened IpamPool

  /**
   * The invariant of one family's map: every entry is a well-formed pool of
   * that family keyed by its own range, and no two entries overlap.
   */
  ghost predicate Registry(m: map<Net, Pool>, v6: bool) {
    && (forall id :: id in m ==> m[id].WellFormed() && m[id].range == id && m[id].v6 == v6)
    && (forall id1, id2 :: id1 in m && id2 in m && id1 != id2 ==> !NetOverlaps(id1, id2))
  }

  /** Every pool of a registry is stored under its own identifier, `str(pool)`. */
  lemma RegistryIds(m: map<Net, Pool>, v6: bool, id: Net)
    requires Registry(m, v6) && id in m
    ensures m[id].Id() == id && id.v6 == v6
  {
  }

  /** In a registry, two distinct entries share no address. */
  lemma RegistryDisjoint(m: map<Net, Pool>, v6: bool, id1: Net, id2: Net, x: Address)
    requires Registry(m, v6) && id1 in m && id2 in m && id1 != id2
    ensures !(Contains(id1, x) && Contains(id2, x))
  {
    OverlapsIffShared(id1, id2);
  }

  /** Some entry is equal to the pool. */
  ghost predicate HasSame(m: map<Net, Pool>, pool: Pool) {
    exists id :: id in m && m[id].Same(pool)
  }

  /** Some entry's range overlaps the pool's range. */
  ghost predicate HasOverlap(m: map<Net, Pool>, pool: Pool) {
    exists id :: id in m && NetOverlaps(pool.range, id)
  }

  /**
   * An entry equal to the pool is the only entry that overlaps it, so the
   * answer of `add_pool` does not depend on the order it visits the entries.
   */
  lemma SameIsOnlyOverlap(m: map<Net, Pool>, v6: bool, pool: Pool, id: Net, other: Net)
    requires Registry(m, v6) && id in m && m[id].Same(pool)
    requires other in m && other != id
    ensures !NetOverlaps(pool.range, other)
  {
    assert pool.range == id;
  }

  /** An entry that overlaps the pool without being equal to it rules out an equal entry. */
  lemma OverlapExcludesSame(m: map<Net, Pool>, v6: bool, pool: Pool, id: Net)
    requires Registry(m, v6) && id in m && !m[id].Same(pool)
    requires NetOverlaps(pool.range, id)
    ensures !HasSame(m, pool)
  {
  }

  /**
   * Inserting a pool that overlaps no entry under its own range adds a new
   * key and keeps the invariant.
   */
  lemma InsertKeepsRegistry(m: map<Net, Pool>, v6: bool, pool: Pool)
    requires Registry(m, v6) && pool.WellFormed() && pool.v6 == v6
    requires !HasOverlap(m, pool)
    ensures pool.range !in m
    ensures Registry(m[pool.range := pool], v6)
  {
    OverlapsReflexive(pool.range);
    var m' := m[pool.range := pool];
    forall id1, id2 | id1 in m' && id2 in m' && id1 != id2
      ensures !NetOverlaps(id1, id2)
    {
      OverlapsSymmetric(id1, id2);
      if id1 != pool.range && id2 != pool.range {
        assert id1 in m && id2 in m;
      } else if id1 == pool.range {
        assert id2 in m;
      } else {
        assert id1 in m;
      }
    }
  }

  /** What the loop of `add_pool` stops at. */
  datatype Match = NoMatch | Equal(id: Net) | Overlapping(id: Net)

  /**
   * The loop of `add_pool` over one map: the first entry visited that is
   * equal to the pool or overlaps it, or none. The overlap test refuses an
   * entry of the other family, which a map of one family never holds.
   */
  method Search(check: map<Net, Pool>, pool: Pool) returns (r: Result<Match>)
    ensures r.Err? ==> r.error == VersionMismatch && exists id :: id in check && check[id].v6 != pool.v6
    ensures (forall id :: id in check ==> check[id].v6 == pool.v6) ==> r.Ok?
    ensures r == Ok(NoMatch) ==> forall id :: id in check ==> !check[id].Same(pool) && !NetOverlaps(pool.range, check[id].range)
    ensures r.Ok? && r.value.Equal? ==> r.value.id in check && check[r.value.id].Same(pool)
    ensures r.Ok? && r.value.Overlapping? ==>
      && r.value.id in check && !check[r.value.id].Same(pool) && NetOverlaps(pool.range, check[r.value.id].range)
  {
    var keys := check.Keys;
    while keys != {}
      invariant keys <= check.Keys
      invariant forall id :: id in check && id !in keys ==> !check[id].Same(pool) && !NetOverlaps(pool.range, check[id].range)
      decreases keys
    {
      var id :| id in keys;
      var p := check[id];
      if pool.Same(p) {
        return Ok(Equal(id));
      }
      var overlaps := pool.Overlaps(p);
      if overlaps.Err? {
        assert id in check && check[id].v6 != pool.v6;
        return Err(overlaps.error);
      }
      if overlaps.value {
        return Ok(Overlapping(id));
      }
      keys := keys - {id};
    }
    return Ok(NoMatch);
  }

  /** How the entry the loop stops at decides the answer of `add_pool`. */
  lemma SearchAnswer(m: map<Net, Pool>, pool: Pool, found: Match)
    requires Registry(m, pool.v6) && pool.WellFormed()
    requires found == NoMatch ==> forall id :: id in m ==> !m[id].Same(pool) && !NetOverlaps(pool.range, m[id].range)
    requires found.Equal? ==> found.id in m && m[found.id].Same(pool)
    requires found.Overlapping? ==> found.id in m && !m[found.id].Same(pool) && NetOverlaps(pool.range, m[found.id].range)
    ensures found.Equal? ==> HasSame(m, pool) && found.id == pool.range
    ensures found.Overlapping? ==> !HasSame(m, pool) && HasOverlap(m, pool)
    ensures found.NoMatch? ==> !HasOverlap(m, pool) && !HasSame(m, pool)
  {
    if found.Overlapping? {
      OverlapExcludesSame(m, pool.v6, pool, found.id);
    }
  }

  class Space {
    /** `self.name`: the space's name, "local" or "global" in the driver. */
    const name: string
    /** `self.pools`: the IPv4 pools. */
    var pools: map<Net, Pool>
    /** `self.pools6`: the IPv6 pools. */
    var pools6: map<Net, Pool>

    ghost predicate Valid()
      reads this
    {
      Registry(pools, false) && Registry(pools6, true)
    }

    /** The map of one family. */
    function Family(v6: bool): map<Net, Pool>
      reads this
    {
      if v6 then pools6 else pools
    }

    constructor (name: string)
      ensures Valid() && this.name == name
      ensures pools == map[] && pools6 == map[]
    {
      this.name := name;
      pools := map[];
      pools6 := map[];
    }

    /**
     * `add_pool`: the identifier of an equal pool if there is one; a refusal
     * naming an overlapping pool; otherwise the pool is registered under its
     * range.
     */
    method AddPool(pool: Pool) returns (r: Result<Net>)
      requires Valid() && pool.WellFormed()
      modifies this
      ensures Valid()
      ensures var m := old(Family(pool.v6));
        && Family(!pool.v6) == old(Family(!pool.v6))
        && (r.Ok? ==> r.value == pool.range && r.value in Family(pool.v6) && Family(pool.v6)[r.value].Same(pool))
        && (HasSame(m, pool) ==> r.Ok? && Family(pool.v6) == m)
        && (!HasSame(m, pool) && HasOverlap(m, pool) ==>
              && r.Err? && r.error.OverlapsPool? && r.error.id in m
              && NetOverlaps(pool.range, r.error.id) && Family(pool.v6) == m)
        && (!HasOverlap(m, pool) ==> r.Ok? && Family(pool.v6) == m[pool.range := pool])
    {
      var check := if pool.v6 then pools6 else pools;
      var found := Search(check, pool);
      if found.Err? {
        // Every entry of the map is of the pool's family.
        assert false;
      }
      SearchAnswer(check, pool, found.value);
      match found.value
      case Equal(id) =>
        return Ok(id);
      case Overlapping(id) =>
        return Err(OverlapsPool(id));
      case NoMatch =>
      InsertKeepsRegistry(check, pool.v6, pool);
      if pool.v6 {
        pools6 := pools6[pool.range := pool];
      } else {
        pools := pools[pool.range := pool];
      }
      return Ok(pool.range);
    }

    /**
     * `get_pool`: the IPv4 map is searched first, then the IPv6 map. In a
     * valid space an identifier names at most one pool, whose range it is.
     */
    function GetPool(id: Net): (r: Result<Pool>)
      reads this
      ensures r.Ok? <==> id in pools || id in pools6
      ensures r.Err? ==> r.error == UnknownPool(id)
      ensures r.Ok? ==> r.value == (if id in pools then pools[id] else pools6[id])
      ensures Valid() ==> !(id in pools && id in pools6)
      ensures Valid() && r.Ok? ==> r.value.range == id && r.value.v6 == id.v6 && r.value.WellFormed()
    {
      if id in pools then Ok(pools[id])
      else if id in pools6 then Ok(pools6[id])
      else Err(UnknownPool(id))
    }

    /** `remove_pool`: delete the identifier from the map that holds it. */
    method RemovePool(id: Net) returns (r: Outcome)
      requires Valid()
      modifies this
      ensures Valid()
      ensures id in old(pools) ==> r == Pass && pools == old(pools) - {id} && pools6 == old(pools6)
      ensures id !in old(pools) && id in old(pools6) ==>
        r == Pass && pools6 == old(pools6) - {id} && pools == old(pools)
      ensures id !in old(pools) && id !in old(pools6) ==>
        r == Fail(UnknownPool(id)) && pools == old(pools) && pools6 == old(pools6)
    {
      if id in pools {
        pools := pools - {id};
      } else if id in pools6 {
        pools6 := pools6 - {id};
      } else {
        return Fail(UnknownPool(id));
      }
      return Pass;
    }
  }

  /**
   * Asking twice for the same pool in one space yields the same identifier
   * both times, and the pool stays registered under it.
   */
  method AddTwice(space: Space, pool: Pool, again: Pool) returns (first: Result<Net>, second: Result<Net>)
    requires space.Valid() && pool.WellFormed() && again.Same(pool)
    modifies space
    ensures space.Valid()
    ensures first.Ok? ==> second == first && first.value == pool.range
    ensures first.Ok? ==> first.value in space.Family(pool.v6) && space.Family(pool.v6)[first.value].Same(pool)
    ensures space.Family(!pool.v6) == old(space.Family(!pool.v6))
  {
    first := space.AddPool(pool);
    ghost var afterFirst := space.Family(pool.v6);
    second := space.AddPool(again);
    if first.Ok? {
      assert afterFirst[first.value].Same(again);
      assert HasSame(afterFirst, again);
    }
  }
}
