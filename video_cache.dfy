/** The fingerprint cache: a table of detection results keyed by content hash
    (SHA-256), with a perceptual hash and five LSH band columns per row. The
    SQLite table is the map `rows`; each statement is one atomic update of
    it; the current time is a parameter (seconds). */
module VideoCache {
  import opened Wrappers
  import opened VideoHashing
  import opened DetectionResults

  /** The table has exactly five band columns. */
  const BandColumns: nat := 5

  /** `now - timedelta(days=daysOld)`, in seconds. */
  function Cutoff(now: int, daysOld: int): int
  {
    now - daysOld * 86400
  }

  /** A perceptual match: the key of the matched row and its distance. */
  datatype Match = Match(key: string, distance: nat)

  datatype HitType = Exact | Perceptual(distance: nat)

  /** What `check_cache` returns: the rebuilt result and how it was found. */
  datatype CacheHit = CacheHit(result: DetectionResult, hitType: HitType)

  /** The fields `store_analysis_result` reads from its dictionary;
      `confidence` is None when the key is absent. */
  datatype AnalysisResult = AnalysisResult(
    isDeepfake: bool,
    confidence: Option<real>,
    lipsyncScore: Option<real>,
    factCheckScore: Option<real>)

  datatype CacheStats = CacheStats(
    totalEntries: nat,
    deepfakeCount: nat,
    authenticCount: int,
    totalLookups: int,
    cacheHits: int,
    cacheHitRate: real,
    averageConfidence: real,
    hammingThreshold: int,
    lshBands: int)

  // ---------------------------------------------------------------------
  // Table-level specification
  // ---------------------------------------------------------------------

  /** Each row is stored under its own content hash, fills the five band
      columns and has been seen at least once. */
  ghost predicate ValidRows(rows: map<string, CacheRow>)
  {
    forall k :: k in rows ==> rows[k].videoHash == k && |rows[k].bands| == BandColumns && rows[k].detectionCount >= 1
  }

  /** Rows whose band column i holds the query's band i, for some i < n. */
  function CandidatesUpTo(rows: map<string, CacheRow>, queryBands: seq<string>, n: nat): set<string>
    requires ValidRows(rows) && n <= |queryBands| <= BandColumns
  {
    set k | k in rows && exists i :: 0 <= i < n && rows[k].bands[i] == queryBands[i]
  }

  /** LSH candidates: rows sharing at least one band with the query. */
  function Candidates(rows: map<string, CacheRow>, queryBands: seq<string>): set<string>
    requires ValidRows(rows) && |queryBands| <= BandColumns
  {
    CandidatesUpTo(rows, queryBands, |queryBands|)
  }

  /** Some row carries exactly the query's perceptual hash. */
  predicate SameHashRow(rows: map<string, CacheRow>, perceptualHash: string)
  {
    exists k :: k in rows && rows[k].perceptualHash == perceptualHash
  }

  /** `_lookup_perceptual_lsh` has something to return: a row with the same
      perceptual hash, or an LSH candidate within the threshold. */
  ghost predicate HasPerceptualMatch(rows: map<string, CacheRow>, perceptualHash: string, queryBands: seq<string>, threshold: int)
  {
    ValidRows(rows) && |queryBands| <= BandColumns &&
    (SameHashRow(rows, perceptualHash) ||
     exists k :: k in Candidates(rows, queryBands) && TotalDistance(perceptualHash, rows[k].perceptualHash) <= threshold)
  }

  /** Row `key` at distance `d` is an answer `_lookup_perceptual_lsh` may
      give: a same-hash row at distance 0 when there is one, otherwise a
      candidate within the threshold that no candidate beats. */
  ghost predicate IsPerceptualMatch(rows: map<string, CacheRow>, perceptualHash: string, queryBands: seq<string>,
                                    threshold: int, key: string, d: nat)
  {
    ValidRows(rows) && |queryBands| <= BandColumns && key in rows &&
    if SameHashRow(rows, perceptualHash) then rows[key].perceptualHash == perceptualHash && d == 0
    else
      var cands := Candidates(rows, queryBands);
      key in cands && d == TotalDistance(perceptualHash, rows[key].perceptualHash) <= threshold &&
      forall k :: k in cands ==> d <= TotalDistance(perceptualHash, rows[k].perceptualHash)
  }

  /** Some answer `_lookup_perceptual_lsh` may give is a row whose lip-sync
      score is NULL. */
  ghost predicate MatchWithoutLipsync(rows: map<string, CacheRow>, perceptualHash: string, queryBands: seq<string>, threshold: int)
  {
    exists k, d :: IsPerceptualMatch(rows, perceptualHash, queryBands, threshold, k, d) && rows[k].lipsyncScore.None?
  }

  /** `_update_access_stats`: one more detection and a new last-seen time;
      nothing happens for an absent key. */
  function Touch(rows: map<string, CacheRow>, key: string, now: int): map<string, CacheRow>
  {
    if key in rows then rows[key := rows[key].(detectionCount := rows[key].detectionCount + 1, lastSeen := now)]
    else rows
  }

  /** Touching changes only the count (+1) and the last-seen time of that one
      row, and keeps the table valid. */
  lemma TouchChangesOnlyStats(rows: map<string, CacheRow>, key: string, now: int)
    requires ValidRows(rows)
    ensures ValidRows(Touch(rows, key, now))
    ensures Touch(rows, key, now).Keys == rows.Keys
    ensures forall k :: k in rows && k != key ==> Touch(rows, key, now)[k] == rows[k]
    ensures key in rows ==>
      var r, t := rows[key], Touch(rows, key, now)[key];
      t.detectionCount == r.detectionCount + 1 && t.lastSeen == now &&
      t == r.(detectionCount := t.detectionCount, lastSeen := t.lastSeen)
  {
  }

  /** Bands padded with "" up to the five columns, as stored. */
  function StoredBands(bands: seq<string>): (r: seq<string>)
    ensures |r| == BandColumns
    ensures forall i :: 0 <= i < BandColumns ==> r[i] == if i < |bands| then bands[i] else ""
  {
    if |bands| >= BandColumns then bands[..BandColumns]
    else bands + seq(BandColumns - |bands|, _ => "")
  }

  /** INSERT OR REPLACE with COALESCE: the new row keeps the first-seen time
      and adds one to the count of the row it replaces. */
  function Upsert(rows: map<string, CacheRow>, key: string, perceptualHash: string, bands: seq<string>,
                  isDeepfake: bool, confidence: real, lipsyncScore: Option<real>,
                  factCheckScore: Option<real>, metadata: string, now: int): map<string, CacheRow>
  {
    var firstSeen := if key in rows then rows[key].firstSeen else now;
    var count := if key in rows then rows[key].detectionCount else 0;
    rows[key := CacheRow(key, perceptualHash, StoredBands(bands), isDeepfake, confidence, lipsyncScore,
                         factCheckScore, firstSeen, now, count + 1, Some(metadata))]
  }

  /** A new key is stored with count 1 and first = last = now; an existing key
      keeps its first-seen time, counts one more detection, and has every other
      column overwritten; other rows are untouched and the table stays valid. */
  lemma UpsertSemantics(rows: map<string, CacheRow>, key: string, perceptualHash: string, bands: seq<string>,
                        isDeepfake: bool, confidence: real, lipsyncScore: Option<real>,
                        factCheckScore: Option<real>, metadata: string, now: int)
    requires ValidRows(rows)
    ensures var u := Upsert(rows, key, perceptualHash, bands, isDeepfake, confidence, lipsyncScore,
                            factCheckScore, metadata, now);
      ValidRows(u) && u.Keys == rows.Keys + {key} &&
      (forall k :: k in rows && k != key ==> u[k] == rows[k]) &&
      u[key].perceptualHash == perceptualHash && u[key].isDeepfake == isDeepfake &&
      u[key].confidence == confidence && u[key].lipsyncScore == lipsyncScore &&
      u[key].factCheckScore == factCheckScore && u[key].metadata == Some(metadata) &&
      u[key].lastSeen == now &&
      (forall i :: 0 <= i < |bands| && i < BandColumns ==> u[key].bands[i] == bands[i]) &&
      (key !in rows ==> u[key].detectionCount == 1 && u[key].firstSeen == now) &&
      (key in rows ==> u[key].detectionCount == rows[key].detectionCount + 1 &&
                       u[key].firstSeen == rows[key].firstSeen)
  {
  }

  /** Rows not seen since the cutoff. */
  function Stale(rows: map<string, CacheRow>, cutoff: int): set<string>
  {
    set k | k in rows && rows[k].lastSeen < cutoff
  }

  /** The table after `DELETE ... WHERE last_seen < cutoff`. */
  function Recent(rows: map<string, CacheRow>, cutoff: int): map<string, CacheRow>
  {
    map k | k in rows && !(rows[k].lastSeen < cutoff) :: rows[k]
  }

  /** Cleanup deletes exactly the stale rows, keeps the others unchanged, and
      the number of deleted rows is the size difference. */
  lemma RecentPartition(rows: map<string, CacheRow>, cutoff: int)
    ensures Recent(rows, cutoff).Keys == rows.Keys - Stale(rows, cutoff)
    ensures forall k :: k in Recent(rows, cutoff) ==> Recent(rows, cutoff)[k] == rows[k] && rows[k].lastSeen >= cutoff
    ensures |Stale(rows, cutoff)| == |rows| - |Recent(rows, cutoff)|
  {
    var kept := Recent(rows, cutoff).Keys;
    var gone := Stale(rows, cutoff);
    assert kept == rows.Keys - gone;
    assert rows.Keys == kept + gone;
    assert kept * gone == {};
    assert |rows.Keys| == |kept| + |gone|;
  }

  // ---------------------------------------------------------------------
  // Statistics
  // ---------------------------------------------------------------------

  /** SUM(detection_count) over the given keys. */
  ghost function SumCounts(rows: map<string, CacheRow>, keys: set<string>): int
    requires keys <= rows.Keys
  {
    if keys == {} then 0
    else
      var k :| k in keys;
      rows[k].detectionCount + SumCounts(rows, keys - {k})
  }

  /** SUM(confidence) over the given keys. */
  ghost function SumConfidence(rows: map<string, CacheRow>, keys: set<string>): real
    requires keys <= rows.Keys
  {
    if keys == {} then 0.0
    else
      var k :| k in keys;
      rows[k].confidence + SumConfidence(rows, keys - {k})
  }

  /** The sum does not depend on the order the keys are taken in. */
  lemma {:induction false} SumCountsRemove(rows: map<string, CacheRow>, keys: set<string>, k: string)
    requires keys <= rows.Keys && k in keys
    ensures SumCounts(rows, keys) == rows[k].detectionCount + SumCounts(rows, keys - {k})
    decreases |keys|
  {
    var j :| j in keys && SumCounts(rows, keys) == rows[j].detectionCount + SumCounts(rows, keys - {j});
    if j != k {
      SumCountsRemove(rows, keys - {j}, k);
      SumCountsRemove(rows, keys - {k}, j);
      assert keys - {j} - {k} == keys - {k} - {j};
    }
  }

  /** Every row counts at least once, so the hit total is at least the row
      count. */
  lemma {:induction false} SumCountsAtLeastSize(rows: map<string, CacheRow>, keys: set<string>)
    requires ValidRows(rows) && keys <= rows.Keys
    ensures SumCounts(rows, keys) >= |keys|
    decreases |keys|
  {
    if keys != {} {
      var k :| k in keys && SumCounts(rows, keys) == rows[k].detectionCount + SumCounts(rows, keys - {k});
      SumCountsAtLeastSize(rows, keys - {k});
    }
  }

  /** `get_stats` over a table (database size on disk is not modelled). */
  ghost function Stats(rows: map<string, CacheRow>, hammingThreshold: int, lshBands: int): (s: CacheStats)
    ensures s.totalEntries == |rows|
    ensures s.deepfakeCount <= s.totalEntries && s.authenticCount == s.totalEntries - s.deepfakeCount
    ensures s.cacheHits >= 0
    ensures ValidRows(rows) ==> s.cacheHits == s.totalLookups - s.totalEntries
    ensures ValidRows(rows) ==> 0.0 <= s.cacheHitRate < 1.0
  {
    var total := |rows|;
    var deepfakes := set k | k in rows && rows[k].isDeepfake;
    assert deepfakes <= rows.Keys;
    SubsetCard(deepfakes, rows.Keys);
    var hits := SumCounts(rows, rows.Keys);
    var avg := if total == 0 then 0.0 else SumConfidence(rows, rows.Keys) / total as real;
    var cacheHits := hits - total;
    var rate := if hits > total then cacheHits as real / (if hits > 1 then hits else 1) as real else 0.0;
    if ValidRows(rows) then SumCountsAtLeastSize(rows, rows.Keys); RateBelowOne(cacheHits, hits, total);
      CacheStats(total, |deepfakes|, total - |deepfakes|, hits, if cacheHits > 0 then cacheHits else 0,
        rate, avg, hammingThreshold, lshBands)
    else
      CacheStats(total, |deepfakes|, total - |deepfakes|, hits, if cacheHits > 0 then cacheHits else 0,
        rate, avg, hammingThreshold, lshBands)
  }

  lemma SubsetCard<T>(a: set<T>, b: set<T>)
    requires a <= b
    ensures |a| <= |b|
  {
    assert b == a + (b - a);
  }

  lemma RateBelowOne(cacheHits: int, hits: int, total: nat)
    requires cacheHits == hits - total && hits >= total && (total == 0 ==> hits == 0)
    ensures 0.0 <= (if hits > total then cacheHits as real / (if hits > 1 then hits else 1) as real else 0.0) < 1.0
  {
    if hits > total {
      var d := (if hits > 1 then hits else 1) as real;
      assert d == hits as real;
      assert 0.0 <= cacheHits as real < d;
      assert 0.0 <= cacheHits as real / d < 1.0;
    }
  }

  // ---------------------------------------------------------------------
  // The cache object
  // ---------------------------------------------------------------------

  class FingerprintCache {
    var rows: map<string, CacheRow>
    const numFrames: int
    const hammingThreshold: int
    const lshBands: int

    ghost predicate Valid()
      reads this
    {
      ValidRows(rows) && lshBands <= BandColumns
    }

    /** An empty table. A band count of 0 divides by zero in the source;
        more than five bands do not fit the table. */
    constructor (numFrames: int, hammingThreshold: int, lshBands: int)
      requires lshBands != 0 && lshBands <= BandColumns
      ensures Valid() && rows == map[]
      ensures this.numFrames == numFrames && this.hammingThreshold == hammingThreshold && this.lshBands == lshBands
    {
      this.numFrames := numFrames;
      this.hammingThreshold := hammingThreshold;
      this.lshBands := lshBands;
      rows := map[];
    }

    /** `_lookup_exact`. */
    function LookupExact(contentHash: string): (r: Option<CacheRow>)
      reads this
      ensures r.Some? <==> contentHash in rows
      ensures r.Some? ==> r.value == rows[contentHash]
    {
      if contentHash in rows then Some(rows[contentHash]) else None
    }

    /** `_lookup_perceptual_lsh`: a row with the same perceptual hash at
        distance 0; otherwise, of the rows sharing a band with the query, one
        at minimum total distance provided that distance is within the
        threshold. Candidates are visited in an unspecified order. */
    method LookupPerceptual(perceptualHash: string, queryBands: seq<string>) returns (m: Option<Match>)
      requires Valid() && |queryBands| <= BandColumns
      ensures m.Some? ==> m.value.key in rows
      ensures (exists k :: k in rows && rows[k].perceptualHash == perceptualHash) ==>
        m.Some? && rows[m.value.key].perceptualHash == perceptualHash && m.value.distance == 0
      ensures !(exists k :: k in rows && rows[k].perceptualHash == perceptualHash) ==>
        var cands := Candidates(rows, queryBands);
        (m.Some? <==> exists k :: k in cands && TotalDistance(perceptualHash, rows[k].perceptualHash) <= hammingThreshold) &&
        (m.Some? ==>
          m.value.key in cands &&
          m.value.distance == TotalDistance(perceptualHash, rows[m.value.key].perceptualHash) <= hammingThreshold &&
          forall k :: k in cands ==> m.value.distance <= TotalDistance(perceptualHash, rows[k].perceptualHash))
      ensures m.Some? <==> HasPerceptualMatch(rows, perceptualHash, queryBands, hammingThreshold)
      ensures m.Some? ==> IsPerceptualMatch(rows, perceptualHash, queryBands, hammingThreshold, m.value.key, m.value.distance)
    {
      if k :| k in rows && rows[k].perceptualHash == perceptualHash {
        return Some(Match(k, 0));
      }
      var candidates := CollectCandidates(queryBands);
      m := BestCandidate(perceptualHash, candidates);
    }

    /** The band queries of `_lookup_perceptual_lsh`: every row sharing some
        band with the query. */
    method CollectCandidates(queryBands: seq<string>) returns (candidates: set<string>)
      requires Valid() && |queryBands| <= BandColumns
      ensures candidates == Candidates(rows, queryBands)
    {
      candidates := {};
      var b := 0;
      while b < |queryBands|
        invariant 0 <= b <= |queryBands|
        invariant candidates == CandidatesUpTo(rows, queryBands, b)
      {
        candidates := candidates + set k | k in rows && rows[k].bands[b] == queryBands[b];
        b := b + 1;
      }
    }

    /** The distance loop of `_lookup_perceptual_lsh`: the best candidate so
        far starts at distance threshold + 1 and is replaced only by a
        strictly closer similar candidate. */
    method BestCandidate(perceptualHash: string, candidates: set<string>) returns (m: Option<Match>)
      requires candidates <= rows.Keys
      ensures m.Some? <==> exists k :: k in candidates && TotalDistance(perceptualHash, rows[k].perceptualHash) <= hammingThreshold
      ensures m.Some? ==>
        m.value.key in candidates &&
        m.value.distance == TotalDistance(perceptualHash, rows[m.value.key].perceptualHash) <= hammingThreshold &&
        forall k :: k in candidates ==> m.value.distance <= TotalDistance(perceptualHash, rows[k].perceptualHash)
    {
      m := None;
      var bestDistance := hammingThreshold + 1;
      var remaining := candidates;
      while remaining != {}
        invariant remaining <= candidates
        invariant m.None? ==> bestDistance == hammingThreshold + 1
        invariant m.None? ==> forall k :: k in candidates - remaining ==>
          TotalDistance(perceptualHash, rows[k].perceptualHash) > hammingThreshold
        invariant m.Some? ==>
          m.value.key in candidates - remaining &&
          m.value.distance == bestDistance == TotalDistance(perceptualHash, rows[m.value.key].perceptualHash) <= hammingThreshold &&
          forall k :: k in candidates - remaining ==> bestDistance <= TotalDistance(perceptualHash, rows[k].perceptualHash)
        decreases |remaining|
      {
        var c :| c in remaining;
        var isSimilar, distance := AreVideosSimilar(perceptualHash, rows[c].perceptualHash, hammingThreshold);
        if isSimilar && distance < bestDistance {
          m := Some(Match(c, distance));
          bestDistance := distance;
        }
        remaining := remaining - {c};
      }
      assert candidates - remaining == candidates;
    }

    /** `_update_access_stats`. */
    method UpdateAccessStats(key: string, now: int)
      requires Valid()
      modifies this
      ensures Valid()
      ensures rows == Touch(old(rows), key, now)
    {
      TouchChangesOnlyStats(rows, key, now);
      if key in rows {
        rows := rows[key := rows[key].(detectionCount := rows[key].detectionCount + 1, lastSeen := now)];
      }
    }

    /** `check_cache`: hash the video (a hashing failure is a miss), then the
        exact tier, then the perceptual tier; a hit touches the row it came
        from. Rebuilding the result fails on a NULL lip-sync score, before
        the row is touched. */
    method CheckCache(video: VideoSource, sha256: seq<bv8> -> string, decode: string -> Option<Metadata>, now: int)
      returns (r: Result<Option<CacheHit>, FromCacheError>)
      requires Valid()
      modifies this
      ensures Valid()
      ensures r.Ok? && r.value.Some? ==>
        var hashes := VideoHashSpec(video, numFrames, lshBands, sha256);
        hashes.Ok? &&
        var key := r.value.value.result.videoHash;
        key in old(rows) && rows == Touch(old(rows), key, now) &&
        Ok(r.value.value.result) == FromCache(old(rows)[key], decode) &&
        (r.value.value.hitType == Exact <==> hashes.value.contentHash in old(rows))
      ensures r.Ok? && r.value.None? ==> rows == old(rows)
      ensures r.Err? ==> rows == old(rows)
      ensures VideoHashSpec(video, numFrames, lshBands, sha256).Err? ==> r == Ok(None)
      ensures var hashes := VideoHashSpec(video, numFrames, lshBands, sha256);
        (hashes.Ok? && hashes.value.contentHash in old(rows)) ==>
          (r.Ok? <==> old(rows)[hashes.value.contentHash].lipsyncScore.Some?) &&
          (r.Ok? ==> r.value.Some? && r.value.value.hitType == Exact)
      ensures var hashes := VideoHashSpec(video, numFrames, lshBands, sha256);
        (hashes.Ok? && hashes.value.contentHash !in old(rows)) ==>
          var ph, qb := hashes.value.perceptualHash, hashes.value.lshBands;
          (!HasPerceptualMatch(old(rows), ph, qb, hammingThreshold) ==> r == Ok(None)) &&
          (HasPerceptualMatch(old(rows), ph, qb, hammingThreshold) ==> r.Err? || r.value.Some?) &&
          (r.Ok? && r.value.Some? ==>
            r.value.value.hitType.Perceptual? &&
            IsPerceptualMatch(old(rows), ph, qb, hammingThreshold, r.value.value.result.videoHash, r.value.value.hitType.distance)) &&
          (r.Err? ==> MatchWithoutLipsync(old(rows), ph, qb, hammingThreshold))
    {
      var hashes := ComputeVideoHash(video, numFrames, lshBands, sha256);
      if hashes.Err? {
        return Ok(None);
      }
      var h := hashes.value;
      var exact := LookupExact(h.contentHash);
      if exact.Some? {
        var result := FromCache(exact.value, decode);
        if result.Err? {
          return Err(result.error);
        }
        UpdateAccessStats(h.contentHash, now);
        return Ok(Some(CacheHit(result.value, Exact)));
      }
      var m := LookupPerceptual(h.perceptualHash, h.lshBands);
      if m.None? {
        return Ok(None);
      }
      var result := FromCache(rows[m.value.key], decode);
      if result.Err? {
        return Err(result.error);
      }
      UpdateAccessStats(m.value.key, now);
      return Ok(Some(CacheHit(result.value, Perceptual(m.value.distance))));
    }

    /** The padding loop of `store_result`. */
    static method PadBands(bands: seq<string>) returns (padded: seq<string>)
      ensures |padded| >= |bands| && padded[..|bands|] == bands
      ensures |padded| >= BandColumns && padded[..BandColumns] == StoredBands(bands)
    {
      padded := bands;
      while |padded| < BandColumns
        invariant |bands| <= |padded| && padded[..|bands|] == bands
        invariant forall i :: |bands| <= i < |padded| ==> padded[i] == ""
        decreases BandColumns - |padded|
      {
        padded := padded + [""];
      }
    }

    /** `store_result`: hash the video (a hashing failure stores nothing) and
        upsert the result under its content hash; the caller's result is
        updated with both hashes and serialised into the metadata column. */
    method StoreResult(video: VideoSource, sha256: seq<bv8> -> string, result: DetectionResult,
                       toJson: DetectionResult -> string, now: int)
      returns (stored: Option<DetectionResult>)
      requires Valid()
      modifies this
      ensures Valid()
      ensures VideoHashSpec(video, numFrames, lshBands, sha256).Err? ==> rows == old(rows) && stored.None?
      ensures VideoHashSpec(video, numFrames, lshBands, sha256).Ok? ==>
        var h := VideoHashSpec(video, numFrames, lshBands, sha256).value;
        stored == Some(result.(videoHash := h.contentHash, perceptualHash := Some(h.perceptualHash))) &&
        rows == Upsert(old(rows), h.contentHash, h.perceptualHash, h.lshBands, result.isDeepfake,
                       result.confidence, Some(result.lipsyncScore), result.factCheckScore,
                       toJson(stored.value), now)
    {
      var hashes := ComputeVideoHash(video, numFrames, lshBands, sha256);
      if hashes.Err? {
        return None;
      }
      var h := hashes.value;
      var updated := result.(videoHash := h.contentHash, perceptualHash := Some(h.perceptualHash));
      var padded := PadBands(h.lshBands);
      var firstSeen := if h.contentHash in rows then rows[h.contentHash].firstSeen else now;
      var count := if h.contentHash in rows then rows[h.contentHash].detectionCount else 0;
      var metadata := toJson(updated);
      ghost var target := Upsert(rows, h.contentHash, h.perceptualHash, h.lshBands, result.isDeepfake, result.confidence,
        Some(result.lipsyncScore), result.factCheckScore, metadata, now);
      UpsertSemantics(rows, h.contentHash, h.perceptualHash, h.lshBands, result.isDeepfake, result.confidence,
        Some(result.lipsyncScore), result.factCheckScore, metadata, now);
      var row := CacheRow(h.contentHash, h.perceptualHash, padded[..BandColumns],
        result.isDeepfake, result.confidence, Some(result.lipsyncScore), result.factCheckScore,
        firstSeen, now, count + 1, Some(metadata));
      assert target == rows[h.contentHash := row];
      rows := rows[h.contentHash := row];
      return Some(updated);
    }

    /** `store_analysis_result`: upsert under a plain key, which doubles as
        the perceptual hash, with empty bands and a default confidence of
        0.5. */
    method StoreAnalysisResult(key: string, result: AnalysisResult, toJson: AnalysisResult -> string, now: int)
      requires Valid()
      modifies this
      ensures Valid()
      ensures rows == Upsert(old(rows), key, key, [], result.isDeepfake, result.confidence.GetOr(0.5),
                             result.lipsyncScore, result.factCheckScore, toJson(result), now)
    {
      UpsertSemantics(rows, key, key, [], result.isDeepfake, result.confidence.GetOr(0.5),
        result.lipsyncScore, result.factCheckScore, toJson(result), now);
      var firstSeen := if key in rows then rows[key].firstSeen else now;
      var count := if key in rows then rows[key].detectionCount else 0;
      assert StoredBands([]) == ["", "", "", "", ""];
      rows := rows[key := CacheRow(key, key, ["", "", "", "", ""], result.isDeepfake, result.confidence.GetOr(0.5),
        result.lipsyncScore, result.factCheckScore, firstSeen, now, count + 1, Some(toJson(result)))];
    }

    /** `check_duplicate`: the decoded metadata of the row under the key, or
        None when there is no row, no metadata, or it does not decode. */
    function CheckDuplicate(key: string, decode: string -> Option<Metadata>): (r: Option<Metadata>)
      reads this
      ensures r.Some? ==> key in rows && rows[key].metadata.Some? && rows[key].metadata.value != "" &&
                          r == decode(rows[key].metadata.value)
      ensures key in rows && rows[key].metadata.Some? && rows[key].metadata.value != "" ==>
                          r == decode(rows[key].metadata.value)
    {
      if key in rows && rows[key].metadata.Some? && rows[key].metadata.value != "" then
        decode(rows[key].metadata.value)
      else None
    }

    /** `get_stats`. */
    ghost function GetStats(): (s: CacheStats)
      reads this
      ensures s == Stats(rows, hammingThreshold, lshBands)
      ensures Valid() ==> s.cacheHits == s.totalLookups - s.totalEntries
    {
      Stats(rows, hammingThreshold, lshBands)
    }

    /** `cleanup`: delete the rows not seen in the last `daysOld` days and
        return how many there were. */
    method Cleanup(daysOld: int, now: int) returns (deleted: nat)
      requires Valid()
      modifies this
      ensures Valid()
      ensures rows == Recent(old(rows), Cutoff(now, daysOld))
      ensures deleted == |Stale(old(rows), Cutoff(now, daysOld))|
    {
      var cutoff := Cutoff(now, daysOld);
      RecentPartition(rows, cutoff);
      var before := |rows|;
      rows := Recent(rows, cutoff);
      deleted := before - |rows|;
    }

    /** `clear`. */
    method Clear()
      requires Valid()
      modifies this
      ensures Valid() && rows == map[]
    {
      rows := map[];
    }
  }

  /** Why the perceptual tier finds near-duplicates: a row stored for one
      video is an LSH candidate of any video hashed from as many frames whose
      perceptual hash is fewer bits away than there are bands. */
  lemma NearDuplicateIsCandidate(rows: map<string, CacheRow>, key: string, frames1: seq<Frame>, frames2: seq<Frame>,
                                 lshBands: int, sha256: seq<bv8> -> string)
    requires ValidRows(rows) && 0 < lshBands <= BandColumns
    requires |frames1| == |frames2| >= 1
    requires key in rows && rows[key].bands == StoredBands(VideoHashesOf(frames2, lshBands, sha256).lshBands)
    requires TotalDistance(VideoHashesOf(frames1, lshBands, sha256).perceptualHash,
                           VideoHashesOf(frames2, lshBands, sha256).perceptualHash) < lshBands
    ensures key in Candidates(rows, VideoHashesOf(frames1, lshBands, sha256).lshBands)
  {
    NearDuplicatesShareBand(frames1, frames2, lshBands, sha256);
    var q := VideoHashesOf(frames1, lshBands, sha256).lshBands;
    var b :| 0 <= b < lshBands && q[b] == VideoHashesOf(frames2, lshBands, sha256).lshBands[b];
    assert rows[key].bands[b] == q[b];
  }
}
