/** The result record of the detection pipeline: field normalisation on
    construction, the verdict / confidence-level / risk-level classifications,
    and the rebuilding of a result from a cache row. Scores are reals; IEEE
    rounding is not modelled. */
module DetectionResults {
  import opened Wrappers

  /** A decoded metadata object (JSON decoding itself is a parameter). */
  type Metadata = map<string, string>

  datatype DetectionResult = DetectionResult(
    videoHash: string,
    isDeepfake: bool,
    confidence: real,
    lipsyncScore: real,
    factCheckScore: Option<real>,
    detectionMethod: string,
    timestamp: int,
    perceptualHash: Option<string>,
    celebrityDetected: bool,
    metadata: Metadata)

  /** `max(0.0, min(1.0, x))`. */
  function Clamp(x: real): (r: real)
    ensures 0.0 <= r <= 1.0
    ensures (0.0 <= x <= 1.0) <==> r == x
    ensures x < 0.0 ==> r == 0.0
    ensures x > 1.0 ==> r == 1.0
  {
    if x < 0.0 then 0.0 else if x > 1.0 then 1.0 else x
  }

  function ClampOpt(x: Option<real>): (r: Option<real>)
    ensures r.Some? <==> x.Some?
    ensures r.Some? ==> r.value == Clamp(x.value)
  {
    match x
    case None => None
    case Some(v) => Some(Clamp(v))
  }

  /** A result with every score in [0, 1]. */
  predicate Normalized(d: DetectionResult)
  {
    0.0 <= d.confidence <= 1.0 && 0.0 <= d.lipsyncScore <= 1.0 &&
    (d.factCheckScore.Some? ==> 0.0 <= d.factCheckScore.value <= 1.0)
  }

  /** Construction followed by `__post_init__`: the three scores are clamped,
      every other field is kept. */
  function Make(videoHash: string, isDeepfake: bool, confidence: real, lipsyncScore: real,
                factCheckScore: Option<real>, detectionMethod: string, timestamp: int,
                perceptualHash: Option<string>, celebrityDetected: bool, metadata: Metadata)
    : (d: DetectionResult)
    ensures Normalized(d)
    ensures d.confidence == Clamp(confidence) && d.lipsyncScore == Clamp(lipsyncScore)
    ensures d.factCheckScore == ClampOpt(factCheckScore)
    ensures d.videoHash == videoHash && d.isDeepfake == isDeepfake
    ensures d.detectionMethod == detectionMethod && d.timestamp == timestamp
    ensures d.perceptualHash == perceptualHash && d.celebrityDetected == celebrityDetected
    ensures d.metadata == metadata
  {
    DetectionResult(videoHash, isDeepfake, Clamp(confidence), Clamp(lipsyncScore),
      ClampOpt(factCheckScore), detectionMethod, timestamp, perceptualHash, celebrityDetected, metadata)
  }

  /** Normalising an already normalised result changes nothing. */
  lemma MakeIdempotent(d: DetectionResult)
    requires Normalized(d)
    ensures Make(d.videoHash, d.isDeepfake, d.confidence, d.lipsyncScore, d.factCheckScore,
                 d.detectionMethod, d.timestamp, d.perceptualHash, d.celebrityDetected, d.metadata) == d
  {
  }

  /** How many of the verdict cut points 0.5, 0.7 and 0.9 the confidence reaches. */
  function VerdictTier(c: real): (t: nat)
    ensures t <= 3
    ensures t >= 1 <==> c >= 0.5
    ensures t >= 2 <==> c >= 0.7
    ensures t == 3 <==> c >= 0.9
  {
    if c >= 0.9 then 3 else if c >= 0.7 then 2 else if c >= 0.5 then 1 else 0
  }

  /** The `verdict` property. */
  function Verdict(isDeepfake: bool, confidence: real): string
  {
    if isDeepfake then
      if confidence >= 0.9 then "HIGHLY LIKELY DEEPFAKE"
      else if confidence >= 0.7 then "LIKELY DEEPFAKE"
      else if confidence >= 0.5 then "POSSIBLY DEEPFAKE"
      else "SUSPECTED DEEPFAKE (LOW CONFIDENCE)"
    else
      if confidence >= 0.9 then "HIGHLY LIKELY AUTHENTIC"
      else if confidence >= 0.7 then "LIKELY AUTHENTIC"
      else if confidence >= 0.5 then "POSSIBLY AUTHENTIC"
      else "UNCLEAR - MANUAL REVIEW RECOMMENDED"
  }

  /** The eight verdict strings, deepfake ones first, by tier. */
  const Verdicts: seq<string> := [
    "SUSPECTED DEEPFAKE (LOW CONFIDENCE)", "POSSIBLY DEEPFAKE", "LIKELY DEEPFAKE", "HIGHLY LIKELY DEEPFAKE",
    "UNCLEAR - MANUAL REVIEW RECOMMENDED", "POSSIBLY AUTHENTIC", "LIKELY AUTHENTIC", "HIGHLY LIKELY AUTHENTIC"]

  /** The verdict is one of the eight strings, picked by the deepfake flag and
      the confidence tier alone. */
  lemma VerdictTable(isDeepfake: bool, confidence: real)
    ensures Verdict(isDeepfake, confidence) == Verdicts[(if isDeepfake then 0 else 4) + VerdictTier(confidence)]
  {
  }

  /** Two results share a verdict exactly when they agree on the flag and on
      the confidence tier. */
  lemma VerdictDistinguishes(d1: bool, c1: real, d2: bool, c2: real)
    ensures Verdict(d1, c1) == Verdict(d2, c2) <==> (d1 == d2 && VerdictTier(c1) == VerdictTier(c2))
  {
    VerdictTable(d1, c1);
    VerdictTable(d2, c2);
    var i, j := (if d1 then 0 else 4) + VerdictTier(c1), (if d2 then 0 else 4) + VerdictTier(c2);
    if i != j {
      assert Verdicts[i] != Verdicts[j] by {
        assert forall a, b :: 0 <= a < b < 8 ==> Verdicts[a] != Verdicts[b];
      }
    }
  }

  /** The `confidence_level` property. */
  function ConfidenceLevel(c: real): string
  {
    if c >= 0.9 then "VERY HIGH"
    else if c >= 0.7 then "HIGH"
    else if c >= 0.5 then "MEDIUM"
    else if c >= 0.3 then "LOW"
    else "VERY LOW"
  }

  /** Position of a confidence level on the scale, lowest first. */
  function LevelRank(level: string): int
  {
    if level == "VERY LOW" then 0
    else if level == "LOW" then 1
    else if level == "MEDIUM" then 2
    else if level == "HIGH" then 3
    else if level == "VERY HIGH" then 4
    else -1
  }

  /** More confidence never gives a lower level, and each level is the band
      between its cut points. */
  lemma ConfidenceLevelMonotone(c1: real, c2: real)
    requires c1 <= c2
    ensures 0 <= LevelRank(ConfidenceLevel(c1)) <= LevelRank(ConfidenceLevel(c2)) <= 4
  {
  }

  lemma ConfidenceLevelBands(c: real)
    ensures ConfidenceLevel(c) == "VERY HIGH" <==> c >= 0.9
    ensures ConfidenceLevel(c) == "HIGH" <==> 0.7 <= c < 0.9
    ensures ConfidenceLevel(c) == "MEDIUM" <==> 0.5 <= c < 0.7
    ensures ConfidenceLevel(c) == "LOW" <==> 0.3 <= c < 0.5
    ensures ConfidenceLevel(c) == "VERY LOW" <==> c < 0.3
  {
  }

  /** The `risk_level` property. */
  function RiskLevel(celebrityDetected: bool, isDeepfake: bool, confidence: real): string
  {
    if celebrityDetected && isDeepfake then "CRITICAL"
    else if celebrityDetected then "HIGH"
    else if isDeepfake && confidence >= 0.7 then "HIGH"
    else if isDeepfake then "MEDIUM"
    else "LOW"
  }

  function RiskRank(level: string): int
  {
    if level == "LOW" then 0
    else if level == "MEDIUM" then 1
    else if level == "HIGH" then 2
    else if level == "CRITICAL" then 3
    else -1
  }

  /** CRITICAL is exactly a deepfake of a celebrity, LOW exactly an authentic
      video without one; a celebrity or a deepfake flag never lowers the
      risk. */
  lemma RiskLevelCases(celebrity: bool, deepfake: bool, c: real)
    ensures RiskLevel(celebrity, deepfake, c) == "CRITICAL" <==> celebrity && deepfake
    ensures RiskLevel(celebrity, deepfake, c) == "LOW" <==> !celebrity && !deepfake
    ensures RiskLevel(celebrity, deepfake, c) == "HIGH" <==>
      (celebrity && !deepfake) || (!celebrity && deepfake && c >= 0.7)
    ensures RiskRank(RiskLevel(false, deepfake, c)) <= RiskRank(RiskLevel(true, deepfake, c))
    ensures RiskRank(RiskLevel(celebrity, false, c)) <= RiskRank(RiskLevel(celebrity, true, c))
  {
  }

  /** A row of the fingerprint table as `from_cache` sees it. */
  datatype CacheRow = CacheRow(
    videoHash: string,
    perceptualHash: string,
    bands: seq<string>,
    isDeepfake: bool,
    confidence: real,
    lipsyncScore: Option<real>,
    factCheckScore: Option<real>,
    firstSeen: int,
    lastSeen: int,
    detectionCount: int,
    metadata: Option<string>)

  datatype FromCacheError = LipsyncScoreIsNull

  /** `from_cache`: the row's verdict and scores as a 'cached' result stamped
      with the row's last access. Metadata that is absent, empty or not
      decodable becomes the empty object. A NULL lip-sync score makes
      `float(None)` fail. */
  function FromCache(row: CacheRow, decode: string -> Option<Metadata>): (r: Result<DetectionResult, FromCacheError>)
  {
    if row.lipsyncScore.None? then Err(LipsyncScoreIsNull)
    else
      var metadata :=
        if row.metadata.None? || row.metadata.value == "" then map[]
        else decode(row.metadata.value).GetOr(map[]);
      Ok(Make(row.videoHash, row.isDeepfake, row.confidence, row.lipsyncScore.value, row.factCheckScore,
              "cached", row.lastSeen, Some(row.perceptualHash), false, metadata))
  }

  /** A rebuilt result is always marked 'cached', normalised, and keeps the
      row's key, perceptual hash, flag and (clamped) scores; it fails only on
      a NULL lip-sync score; decodable metadata is decoded and anything else
      gives the empty object. */
  lemma FromCacheFields(row: CacheRow, decode: string -> Option<Metadata>)
    ensures FromCache(row, decode).Err? <==> row.lipsyncScore.None?
    ensures FromCache(row, decode).Ok? ==>
      var d := FromCache(row, decode).value;
      d.detectionMethod == "cached" && Normalized(d) &&
      d.videoHash == row.videoHash && d.isDeepfake == row.isDeepfake &&
      d.confidence == Clamp(row.confidence) && d.lipsyncScore == Clamp(row.lipsyncScore.value) &&
      d.timestamp == row.lastSeen &&
      d.perceptualHash == Some(row.perceptualHash) && d.factCheckScore == ClampOpt(row.factCheckScore) &&
      !d.celebrityDetected &&
      (row.metadata.None? || row.metadata.value == "" ==> d.metadata == map[]) &&
      (row.metadata.Some? && row.metadata.value != "" && decode(row.metadata.value).None? ==> d.metadata == map[]) &&
      (row.metadata.Some? && row.metadata.value != "" && decode(row.metadata.value).Some? ==>
        d.metadata == decode(row.metadata.value).value)
  {
  }
}
