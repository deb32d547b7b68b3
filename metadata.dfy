/**
 * The metadata store: the compatibility table (group id -> name and
 * supported-version range), refreshed as a whole from a cached snapshot or
 * from a fresh fetch when the cache is older than seven days.
 */
module Metadata {
  import opened Types

  const MetadataUpdateIntervalInDays := 7

  /** The refresh interval in seconds: 7 * 24 * 60 * 60. */
  const UpdateIntervalSeconds: real := (MetadataUpdateIntervalInDays * 24 * 60 * 60) as real

  /** The synthetic entry answered for the engine's reserved group id. */
  const JavaEngineItem := DependencyCheckItem("Java Engine", ">=21")

  /**
   * What parsing the fetched text produced. The parser is foreign; a
   * payload it rejects is `Unparsable`.
   */
  datatype Payload = Parsed(table: DependencyCheckMetadata) | Unparsable

  /** fetchDependencyCheckMetadata after the download: an unparsable payload becomes the empty table. */
  function FetchDependencyCheckMetadata(payload: Payload): (t: DependencyCheckMetadata)
    ensures payload.Unparsable? ==> t == map[]
    ensures payload.Parsed? ==> t == payload.table
  {
    match payload
    case Parsed(table) => table
    case Unparsable => map[]
  }

  /** `metadata?.lastUpdatedTs ?? 0` */
  function LastUpdated(item: MementoItem): real {
    match item.lastUpdatedTs
    case Some(ts) => ts
    case None => 0.0
  }

  /** The refresh rule: no cached item, or a cached item more than seven days old. */
  predicate NeedsRefresh(cached: Option<MementoItem>, nowTs: real) {
    cached.None? || nowTs - LastUpdated(cached.value) > UpdateIntervalSeconds
  }

  /** `metadata.data ?? {}` */
  function CachedTable(item: MementoItem): DependencyCheckMetadata {
    match item.data
    case Some(t) => t
    case None => map[]
  }

  /**
   * A snapshot written at `ts` stays fresh for exactly seven days: at
   * `ts + d` it needs a refresh iff `d` exceeds 604800 seconds.
   */
  lemma FreshForSevenDays(ts: real, data: Option<DependencyCheckMetadata>, d: real)
    ensures NeedsRefresh(Some(MementoItem(Some(ts), data)), ts + d) <==> d > 604800.0
  {
  }

  /** Once stale, a cached item stays stale as time goes on. */
  lemma StaleStaysStale(cached: Option<MementoItem>, t1: real, t2: real)
    requires t1 <= t2 && NeedsRefresh(cached, t1)
    ensures NeedsRefresh(cached, t2)
  {
  }

  /**
   * The lookup of getDependencyMetadata in a given table: the engine's
   * reserved group id short-circuits to the synthetic entry whatever the
   * table holds; any other id is a plain table lookup with no fallback key.
   */
  function DependencyMetadata(table: DependencyCheckMetadata, groupId: string): (r: Option<DependencyCheckItem>)
    ensures groupId == EngineGroupId ==> r == Some(JavaEngineItem)
    ensures groupId != EngineGroupId ==> (r.Some? <==> groupId in table)
    ensures groupId != EngineGroupId && r.Some? ==> r.value == table[groupId]
  {
    if groupId == EngineGroupId then Some(JavaEngineItem)
    else if groupId in table then Some(table[groupId])
    else None
  }

  class MetadataManager {
    var dependencyCheckMetadata: DependencyCheckMetadata

    constructor ()
      ensures dependencyCheckMetadata == map[]
    {
      dependencyCheckMetadata := map[];
    }

    /** getDependencyMetadata, on the table currently held. */
    function GetDependencyMetadata(groupId: string): Option<DependencyCheckItem>
      reads this
    {
      DependencyMetadata(dependencyCheckMetadata, groupId)
    }

    /**
     * tryRefreshMetadata. The cached item read from storage, the clock and
     * the parsed download are inputs; the returned value is what is written
     * back to storage (none when nothing is written). The download is used
     * only when a refresh is due.
     */
    method TryRefreshMetadata(cached: Option<MementoItem>, nowTs: real, payload: Payload)
      returns (cacheWrite: Option<MementoItem>)
      modifies this
      ensures NeedsRefresh(cached, nowTs) ==>
        && dependencyCheckMetadata == FetchDependencyCheckMetadata(payload)
        && cacheWrite == Some(MementoItem(Some(nowTs), Some(dependencyCheckMetadata)))
      ensures !NeedsRefresh(cached, nowTs) ==>
        cacheWrite.None? && dependencyCheckMetadata == CachedTable(cached.value)
    {
      if cached.None? || nowTs - LastUpdated(cached.value) > UpdateIntervalSeconds {
        var newMetadata := FetchDependencyCheckMetadata(payload);
        cacheWrite := Some(MementoItem(Some(nowTs), Some(newMetadata)));
        dependencyCheckMetadata := newMetadata;
        return;
      } else {
        cacheWrite := None;
        dependencyCheckMetadata := CachedTable(cached.value);
      }
    }
  }
}
