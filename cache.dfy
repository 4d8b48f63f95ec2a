/** The web application's in-memory answer caches (INSPECT_CACHE,
    ANALYSIS_CACHE): `_cache_get` and `_cache_set`, with the clock passed
    in as whole seconds. */
module Cache {
  import opened Common

  /** CACHE_TTL_SECONDS. */
  const TtlSeconds: int := 900

  /** An entry stored at `storedAt` is stale once more than the time to
      live has passed. */
  predicate Stale(storedAt: int, now: int) { now - storedAt > TtlSeconds }

  /** What a lookup at `now` answers: the data of a present, fresh entry. */
  function Lookup<D>(entries: map<string, (int, D)>, key: string, now: int): (r: Option<D>)
    ensures r.Some? <==> key in entries && !Stale(entries[key].0, now)
    ensures r.Some? ==> r.value == entries[key].1
  {
    if key in entries && !Stale(entries[key].0, now) then Some(entries[key].1) else None
  }

  /** What a lookup at `now` leaves behind: a stale entry is evicted. */
  function AfterLookup<D>(entries: map<string, (int, D)>, key: string, now: int): (r: map<string, (int, D)>)
    ensures key in entries && Stale(entries[key].0, now) ==> key !in r && r == entries - {key}
    ensures !(key in entries && Stale(entries[key].0, now)) ==> r == entries
  {
    if key in entries && Stale(entries[key].0, now) then entries - {key} else entries
  }

  class TtlCache<D> {
    var entries: map<string, (int, D)>

    constructor ()
      ensures entries == map[]
    {
      entries := map[];
    }

    /** `_cache_get`. */
    method Get(key: string, now: int) returns (r: Option<D>)
      modifies this
      ensures r == Lookup(old(entries), key, now)
      ensures entries == AfterLookup(old(entries), key, now)
    {
      if key !in entries {
        return None;
      }
      var (storedAt, data) := entries[key];
      if now - storedAt > TtlSeconds {
        entries := entries - {key};
        return None;
      }
      r := Some(data);
    }

    /** `_cache_set`: stores the data stamped with `now` and returns it. */
    method Set(key: string, data: D, now: int) returns (r: D)
      modifies this
      ensures r == data
      ensures entries == old(entries)[key := (now, data)]
    {
      entries := entries[key := (now, data)];
      r := data;
    }
  }

  /** A value just stored is found for the next 900 seconds, and not after. */
  lemma SetThenGet<D>(entries: map<string, (int, D)>, key: string, data: D, storedAt: int, now: int)
    ensures Lookup(entries[key := (storedAt, data)], key, now) == (if now - storedAt <= TtlSeconds then Some(data) else None)
  {
  }

  /** A lookup only ever removes the key it asked for, and only when it
      answers None; every other entry stays as it was. */
  lemma LookupEvictsOnlyStale<D>(entries: map<string, (int, D)>, key: string, now: int)
    ensures forall k :: k in entries && k != key ==>
              (k in AfterLookup(entries, key, now) && AfterLookup(entries, key, now)[k] == entries[k])
    ensures AfterLookup(entries, key, now) != entries ==> Lookup(entries, key, now).None?
    ensures Lookup(AfterLookup(entries, key, now), key, now) == Lookup(entries, key, now)
  {
  }
}
