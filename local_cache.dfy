/** The in-memory fallback of the Pi node's cache: one insertion-ordered
    dictionary holding video results under "video:<hash>", upload counters
    under "ip:<hash>:<ip hash>" and the node counters under "node:stats",
    with oldest-first eviction after each video write. The Redis branch is
    not part of this model. */
module PiLocalCache {
  import opened Wrappers
  import opened Text

  /** What a key holds: a video's result record, an upload counter, or the
      node counters. */
  datatype Entry = Video(data: map<string, string>) | UploadCount(n: int) | NodeStats(fields: map<string, int>)

  const VideoPrefix: string := "video:"
  const IpPrefix: string := "ip:"
  const StatsKey: string := "node:stats"

  function VideoKey(contentHash: string): string
  {
    VideoPrefix + contentHash
  }

  function IpKey(contentHash: string, ipHash: string): string
  {
    IpPrefix + contentHash + ":" + ipHash
  }

  /** Each kind of key holds its own kind of entry. */
  predicate Typed(key: string, e: Entry)
  {
    (StartsWith(key, VideoPrefix) ==> e.Video?) &&
    (StartsWith(key, IpPrefix) ==> e.UploadCount?) &&
    (key == StatsKey ==> e.NodeStats?)
  }

  /** The three key families never meet. */
  lemma KeyFamiliesDisjoint(contentHash: string, ipHash: string)
    ensures StartsWith(VideoKey(contentHash), VideoPrefix) && !StartsWith(VideoKey(contentHash), IpPrefix)
    ensures StartsWith(IpKey(contentHash, ipHash), IpPrefix) && !StartsWith(IpKey(contentHash, ipHash), VideoPrefix)
    ensures VideoKey(contentHash) != StatsKey && IpKey(contentHash, ipHash) != StatsKey
    ensures !StartsWith(StatsKey, VideoPrefix) && !StartsWith(StatsKey, IpPrefix)
  {
    assert VideoKey(contentHash)[0] == 'v' && IpKey(contentHash, ipHash)[0] == 'i' && StatsKey[0] == 'n';
    assert VideoKey(contentHash)[..|VideoPrefix|] == VideoPrefix;
    assert IpKey(contentHash, ipHash)[..|IpPrefix|] == IpPrefix;
  }

  /** The entries whose keys are still listed. */
  function Restrict(entries: map<string, Entry>, keep: seq<string>): map<string, Entry>
  {
    map k | k in entries && k in keep :: entries[k]
  }

  /** How many of n keys `_enforce_memory_limit` drops: the excess over the
      limit, or every key when the limit is negative (the slice is cut at
      the length). */
  function Excess(n: nat, maxEntries: int): (r: nat)
    ensures r <= n
    ensures maxEntries >= 0 && n > maxEntries ==> n - r == maxEntries
    ensures maxEntries < 0 ==> r == n
    ensures n <= maxEntries ==> r == 0
  {
    if n <= maxEntries then 0 else if n - maxEntries > n then n else n - maxEntries
  }

  /** Dropping the oldest listed key from the entries. */
  lemma RestrictDropFirst(entries: map<string, Entry>, ks: seq<string>)
    requires Distinct(ks) && |ks| > 0
    ensures Restrict(entries, ks) - {ks[0]} == Restrict(entries, ks[1..])
    ensures Distinct(ks[1..])
  {
    assert ks[0] !in ks[1..];
    forall k
      ensures k in ks[1..] <==> k in ks && k != ks[0]
    {
      if k in ks && k != ks[0] {
        var j :| 0 <= j < |ks| && ks[j] == k;
        assert ks[1..][j - 1] == k;
      }
    }
  }

  class LocalCache {
    /** The dictionary's keys in insertion order. */
    var keys: seq<string>
    var entries: map<string, Entry>
    const maxEntries: int

    ghost predicate Valid()
      reads this
    {
      Distinct(keys) &&
      (forall k :: k in entries <==> k in keys) &&
      (forall k :: k in entries ==> Typed(k, entries[k]))
    }

    /** The number of entries (`get_cache_size`). */
    function Size(): (n: nat)
      reads this
      requires Valid()
      ensures n == |keys|
    {
      DistinctCard(keys);
      assert entries.Keys == set k | k in keys;
      |entries|
    }

    constructor (maxEntries: int)
      ensures Valid() && keys == [] && entries == map[] && this.maxEntries == maxEntries
    {
      keys := [];
      entries := map[];
      this.maxEntries := maxEntries;
    }

    /** `has_video`. */
    predicate HasVideo(contentHash: string)
      reads this
    {
      VideoKey(contentHash) in entries
    }

    /** `get_video`: the stored record, if any. */
    function GetVideo(contentHash: string): (r: Option<map<string, string>>)
      reads this
      requires Valid()
      ensures r.Some? <==> HasVideo(contentHash)
      ensures r.Some? ==> entries[VideoKey(contentHash)] == Video(r.value)
    {
      var key := VideoKey(contentHash);
      KeyFamiliesDisjoint(contentHash, "");
      if key in entries then Some(entries[key].data) else None
    }

    /** `_enforce_memory_limit`: once there are more entries than the limit,
      drop the oldest ones until the limit is met. */
    method EnforceMemoryLimit()
      requires Valid()
      modifies this
      ensures Valid()
      ensures keys == old(keys)[Excess(|old(keys)|, maxEntries)..]
      ensures entries == Restrict(old(entries), keys)
    {
      var size := Size();
      var excess := Excess(size, maxEntries);
      ghost var start, startEntries := keys, entries;
      assert entries == Restrict(startEntries, start);
      var toRemove := keys[..excess];
      var i := 0;
      while i < |toRemove|
        invariant 0 <= i <= excess
        invariant keys == start[i..] && Distinct(keys)
        invariant entries == Restrict(startEntries, keys)
      {
        var k := toRemove[i];
        assert k == keys[0];
        RestrictDropFirst(startEntries, keys);
        entries := entries - {k};
        keys := keys[1..];
        i := i + 1;
      }
    }

    /** `set_video`: store the record (a known key keeps its place in the
      order), then enforce the limit. */
    method SetVideo(contentHash: string, data: map<string, string>)
      requires Valid()
      modifies this
      ensures Valid()
      ensures var key := VideoKey(contentHash);
        var ks := if key in old(entries) then old(keys) else old(keys) + [key];
        keys == ks[Excess(|ks|, maxEntries)..] &&
        entries == Restrict(old(entries)[key := Video(data)], keys)
    {
      var key := VideoKey(contentHash);
      KeyFamiliesDisjoint(contentHash, "");
      if key !in entries {
        keys := keys + [key];
      }
      entries := entries[key := Video(data)];
      EnforceMemoryLimit();
    }

    /** `delete_video`; a missing key is left alone. */
    method DeleteVideo(contentHash: string)
      requires Valid()
      modifies this
      ensures Valid() && !HasVideo(contentHash)
      ensures keys == Without(old(keys), VideoKey(contentHash))
      ensures entries == map k | k in old(entries) && k != VideoKey(contentHash) :: old(entries)[k]
    {
      var key := VideoKey(contentHash);
      WithoutDistinct(keys, key);
      keys := Without(keys, key);
      entries := map k | k in entries && k != key :: entries[k];
    }

    /** `get_ip_upload_count`: 0 for a pair never seen. */
    function GetIpUploadCount(contentHash: string, ipHash: string): (n: int)
      reads this
      requires Valid()
      ensures IpKey(contentHash, ipHash) !in entries ==> n == 0
      ensures IpKey(contentHash, ipHash) in entries ==> entries[IpKey(contentHash, ipHash)] == UploadCount(n)
    {
      var key := IpKey(contentHash, ipHash);
      KeyFamiliesDisjoint(contentHash, ipHash);
      if key in entries then entries[key].n else 0
    }

    /** `record_ip_upload`: one more upload of this video from this address;
      the limit is not enforced here. */
    method RecordIpUpload(contentHash: string, ipHash: string) returns (count: int)
      requires Valid()
      modifies this
      ensures Valid()
      ensures count == old(GetIpUploadCount(contentHash, ipHash)) + 1
      ensures GetIpUploadCount(contentHash, ipHash) == count
      ensures var key := IpKey(contentHash, ipHash);
        entries == old(entries)[key := UploadCount(count)] &&
        keys == if key in old(entries) then old(keys) else old(keys) + [key]
    {
      var key := IpKey(contentHash, ipHash);
      KeyFamiliesDisjoint(contentHash, ipHash);
      count := GetIpUploadCount(contentHash, ipHash) + 1;
      if key !in entries {
        keys := keys + [key];
      }
      entries := entries[key := UploadCount(count)];
    }

    /** `get_stats`: a copy of the node counters, empty before the first
      increment. */
    function GetStats(): (r: map<string, int>)
      reads this
      requires Valid()
      ensures StatsKey in entries ==> entries[StatsKey] == NodeStats(r)
      ensures StatsKey !in entries ==> r == map[]
    {
      if StatsKey in entries then entries[StatsKey].fields else map[]
    }

    /** `increment_stat`: add `amount` to one counter (absent counts as 0);
      the other counters are unchanged. */
    method IncrementStat(field: string, amount: int)
      requires Valid()
      modifies this
      ensures Valid()
      ensures var before := old(GetStats());
        GetStats() == before[field := (if field in before then before[field] else 0) + amount]
      ensures entries == old(entries)[StatsKey := NodeStats(GetStats())]
      ensures keys == if StatsKey in old(entries) then old(keys) else old(keys) + [StatsKey]
    {
      KeyFamiliesDisjoint("", "");
      var stats := GetStats();
      if StatsKey !in entries {
        keys := keys + [StatsKey];
      }
      var current := if field in stats then stats[field] else 0;
      entries := entries[StatsKey := NodeStats(stats[field := current + amount])];
    }

    /** `clear`. */
    method Clear()
      modifies this
      ensures keys == [] && entries == map[] && Valid()
    {
      keys := [];
      entries := map[];
    }
  }

  /** After a video write the cache holds at most `max_entries` entries
      (none at all for a negative limit), and the oldest are the ones
      dropped: what survives is the newest suffix of the order. */
  lemma SetVideoBound(keys: seq<string>, maxEntries: int)
    ensures |keys[Excess(|keys|, maxEntries)..]| <= if maxEntries < 0 then 0 else maxEntries
    ensures |keys| <= maxEntries ==> keys[Excess(|keys|, maxEntries)..] == keys
  {
  }

  /** A newly written video survives its own eviction under a positive
      limit: it is the newest key. */
  lemma NewVideoSurvives(keys: seq<string>, key: string, maxEntries: int)
    requires maxEntries >= 1
    ensures var ks := keys + [key];
      key in ks[Excess(|ks|, maxEntries)..]
  {
    var ks := keys + [key];
    var e := Excess(|ks|, maxEntries);
    assert ks[e..][|ks| - 1 - e] == key;
  }

  /** Rewriting a video keeps the key's old place, so when the cache is over
      its limit (upload counters and node counters are added without
      eviction) a rewritten video among the oldest keys is dropped by its
      own write. */
  lemma RewrittenVideoEvicted(keys: seq<string>, i: int, maxEntries: int)
    requires Distinct(keys) && 0 <= i < |keys| && i < |keys| - maxEntries
    ensures keys[i] !in keys[Excess(|keys|, maxEntries)..]
  {
    var e := Excess(|keys|, maxEntries);
    assert i < e;
    forall j | e <= j < |keys|
      ensures keys[j] != keys[i]
    {
    }
  }
}
