/** The cache as the process keeps it: a map and a generation, changed between the awaits of each request. */
module CacheProcess {
  import opened Base
  import opened PrincipalCache

  class Cache {
    const ttl: int
    var entries: map<string, Entry>
    var generation: nat

    constructor (ttl: int)
      ensures this.ttl == ttl && entries == map[] && generation == 0
    {
      this.ttl, entries, generation := ttl, map[], 0;
    }

    /** A request up to its load: the hit it is served, or the generation its load starts in. */
    method Lookup(key: string, now: int) returns (hit: Option<Principal>, started: nat)
      modifies this`entries
      ensures hit.Some? <==> key in old(entries) && old(entries)[key].expiresAt > now
      ensures hit.Some? ==> hit.value == old(entries)[key].principal && entries == old(entries)
      ensures hit.None? ==> entries == old(entries) - {key} && started == generation
    {
      if key in entries && entries[key].expiresAt > now {
        return Some(entries[key].principal), generation;
      }
      entries := entries - {key};
      return None, generation;
    }

    /** The rest of the request once its load has answered; `spared` are the keys a prune at the limit leaves. */
    method Loaded(key: string, started: nat, p: Principal, access: int, now: int, spared: set<string>)
      modifies this`entries
      ensures entries == Keep(old(entries), generation, ttl, key, started, p, access, now, spared)
    {
      if ttl > 0 && started == generation {
        if |entries| >= MAX_ENTRIES {
          entries := map k | k in entries && k in spared :: entries[k];
        }
        var expiresAt := if access < now + ttl then access else now + ttl;
        for i := 0 to |p.guests|
          invariant expiresAt == Earliest(if access < now + ttl then access else now + ttl, p.guests[..i])
        {
          assert p.guests[..i + 1][..i] == p.guests[..i];
          if p.guests[i] < expiresAt { expiresAt := p.guests[i]; }
        }
        assert p.guests[..|p.guests|] == p.guests;
        entries := entries[key := Entry(p, access, now, expiresAt)];
      }
    }

    /** Forget every entry the committed change affects, and every load that overlaps. */
    method Forget(change: Change)
      modifies this
      ensures entries == Without(old(entries), change) && generation == old(generation) + 1
      ensures change.OfSession? ==> forall k ::
        k in entries <==> k in old(entries) && old(entries)[k].principal.id.session != change.session
      ensures change.OfPerson? ==> forall k ::
        k in entries <==> k in old(entries) && old(entries)[k].principal.id.person != change.person
      ensures forall k :: k in entries ==> entries[k] == old(entries)[k]
    {
      ghost var was := entries;
      generation := generation + 1;
      var left := entries.Keys;
      while left != {}
        invariant generation == old(generation) + 1 && left <= entries.Keys <= was.Keys
        invariant forall k :: k in was && (k in left || !Matches(change, was[k].principal.id)) ==> k in entries
        invariant forall k :: k in entries ==>
          entries[k] == was[k] && (k in left || !Matches(change, was[k].principal.id))
        decreases |left|
      {
        var key :| key in left;
        left := left - {key};
        if Matches(change, entries[key].principal.id) {
          entries := entries - {key};
        }
      }
      assert entries == Without(was, change);
    }
  }
}
