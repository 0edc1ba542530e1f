/** The Raspberry Pi's lightweight analyzer: the guard clauses of `analyze`,
    the frame-position guard of `_sample_frames`, the video perceptual hash
    built from the top half of each frame's 64-bit pHash, and the weighted
    aggregation of the five handcrafted feature scores. Reading the file,
    decoding frames, the DCT, SHA-256 and the feature extractors themselves
    are inputs. */
module PiVideoAnalyzer {
  import opened Wrappers
  import opened Bits
  import opened Text
  import opened Numerals
  import opened VideoHashing
  import opened HashUtils

  // ---------------------------------------------------------------------
  // Perceptual hash
  // ---------------------------------------------------------------------

  /** The hex digits kept of each frame hash. */
  const SegmentDigits: nat := 8

  /** `hex(h)[2:].zfill(2w)[:w].upper()`. */
  function SegmentOf(h: nat, w: nat): string
  {
    Upper(PyPrefix(ZFill(ToHexMinimal(h, false), 2 * w), w))
  }

  /** A frame's segment: `hex(h)[2:].zfill(16)[:8].upper()`. */
  function Segment(h: nat): string
  {
    SegmentOf(h, SegmentDigits)
  }

  lemma DivBelow(h: nat, a: nat, b: nat)
    requires a > 0 && h < a * b
    ensures h / a < b
  {
    var q := h / a;
    assert a * q <= h;
    if q >= b {
      MulMono(b, q, a);
      assert false;
    }
  }

  /** The zero-filled digits are the fixed-width digits, so the segment is
      their first half, upper-cased. */
  lemma SegmentIsPrefix(h: nat, w: nat)
    requires w >= 1 && h < Pow16(2 * w)
    ensures SegmentOf(h, w) == Upper(ToHexFixed(h, 2 * w, false)[..w])
  {
    HexFixedIsZFilled(h, 2 * w, false);
    var full := ToHexFixed(h, 2 * w, false);
    assert PyPrefix(full, w) == full[..w];
  }

  /** The quotient by 16^w of a number below 16^(2w) is below 16^w. */
  lemma UpperHalfFits(h: nat, w: nat)
    requires h < Pow16(2 * w)
    ensures h / Pow16(w) < Pow2(4 * w)
  {
    Pow16IsPow2(2 * w);
    Pow16IsPow2(w);
    Pow2Add(4 * w, 4 * w);
    assert 4 * w + 4 * w == 4 * (2 * w);
    DivBelow(h, Pow16(w), Pow16(w));
  }

  /** The segment is the upper half of the fixed-width digits, upper-cased. */
  lemma SegmentIsUpperHalf(h: nat, w: nat)
    requires w >= 1 && h < Pow16(2 * w)
    ensures SegmentOf(h, w) == ToHexFixed(h / Pow16(w), w, true)
  {
    var q := h / Pow16(w);
    var full := ToHexFixed(h, 2 * w, false);
    var low := ToHexFixed(q, w, false);
    SegmentIsPrefix(h, w);
    assert full == ToHexFixed(h, w + w, false);
    HexFixedPrefix(h, w, w, false);
    assert full[..w] == low;
    UpperHexFixed(q, w);
  }

  /** Keeping the first w of 2w zero-filled hex digits keeps exactly the
      upper half of a hash that fits in 2w digits: w upper-case digits
      without '-' that parse back to `h / 16^w`. */
  lemma SegmentIsTopHalf(h: nat, w: nat)
    requires w >= 1 && h < Pow16(2 * w)
    ensures SegmentOf(h, w) == ToHexFixed(h / Pow16(w), w, true)
    ensures |SegmentOf(h, w)| == w && '-' !in SegmentOf(h, w)
    ensures ParseHex(SegmentOf(h, w)) == Some(h / Pow16(w))
  {
    var q := h / Pow16(w);
    var seg := ToHexFixed(q, w, true);
    SegmentIsUpperHalf(h, w);
    UpperHalfFits(h, w);
    HexWidthRoundTrip(q, w);
    assert '-' !in seg && ParseHex(seg) == Some(q);
  }

  /** The 64-bit pHash of one frame's low-frequency DCT block: the bits
      above `np.median`, first coefficient most significant. */
  function FrameHash(c: Coefficients): (h: nat)
    ensures h < Pow16(2 * SegmentDigits)
  {
    PHashDecode(c, 0);
    Pow16IsPow2(2 * SegmentDigits);
    PHash(c)
  }

  function Segments(frames: seq<Coefficients>): (r: seq<string>)
    ensures |r| == |frames|
  {
    seq(|frames|, i requires 0 <= i < |frames| => Segment(FrameHash(frames[i])))
  }

  /** `_compute_perceptual_hash`: one segment per frame, joined by '-'. */
  method ComputePerceptualHash(frames: seq<Coefficients>) returns (s: string)
    ensures s == Join(Segments(frames), '-')
  {
    var hashes: seq<string> := [];
    var i := 0;
    while i < |frames|
      invariant 0 <= i <= |frames| && |hashes| == i
      invariant forall k :: 0 <= k < i ==> hashes[k] == Segment(FrameHash(frames[k]))
    {
      var h := PHash(frames[i]);
      hashes := hashes + [Segment(h)];
      i := i + 1;
    }
    assert hashes == Segments(frames);
    s := Join(hashes, '-');
  }

  /** The perceptual hash of at least one frame splits back at '-' into one
      eight-digit segment per frame, segment i being the top 32 bits of
      frame i's pHash. */
  lemma PerceptualHashSegments(frames: seq<Coefficients>)
    requires |frames| >= 1
    ensures var parts := Split(Join(Segments(frames), '-'), '-');
      |parts| == |frames| &&
      forall i :: 0 <= i < |frames| ==>
        |parts[i]| == SegmentDigits && ParseHex(parts[i]) == Some(FrameHash(frames[i]) / Pow16(SegmentDigits))
  {
    var segs := Segments(frames);
    forall i | 0 <= i < |segs|
      ensures '-' !in segs[i] && |segs[i]| == SegmentDigits && ParseHex(segs[i]) == Some(FrameHash(frames[i]) / Pow16(SegmentDigits))
    {
      SegmentIsTopHalf(FrameHash(frames[i]), SegmentDigits);
    }
    SplitJoin(segs, '-');
  }

  // ---------------------------------------------------------------------
  // Frame sampling
  // ---------------------------------------------------------------------

  /** `np.linspace(0, n - 1, f, dtype=int)` for f >= 2: f positions from
      the first frame to the last, in order. */
  function Linspace(n: int, f: int): (r: seq<int>)
    requires n >= 1 && f >= 2
    ensures |r| == f && r[0] == 0 && r[f - 1] == n - 1
    ensures forall i, j :: 0 <= i <= j < f ==> 0 <= r[i] <= r[j] < n
  {
    var t, d := n - 1, f - 1;
    var r := seq(f, i requires 0 <= i < f => i * t / d);
    LinspaceSpread(r, t, d);
    r
  }

  lemma LinspaceSpread(r: seq<int>, t: nat, d: nat)
    requires d >= 1 && |r| == d + 1
    requires forall i :: 0 <= i <= d ==> r[i] == i * t / d
    ensures r[0] == 0 && r[d] == t
    ensures forall i, j :: 0 <= i <= j <= d ==> 0 <= r[i] <= r[j] <= t
  {
    forall i, j | 0 <= i <= j <= d
      ensures 0 <= r[i] <= r[j] <= t
    {
      SpreadIndex(i, j, t, d);
    }
    MulDivCancel(d, t);
    assert d * t == t * d;
  }

  /** The frame positions `_sample_frames` reads: none for a video that
      reports no frames; otherwise `np.linspace(0, N - 1, F, dtype=int)`,
      where a negative count is a ValueError (None). */
  function SampleIndices(totalFrames: int, maxFrames: int): (r: Option<seq<int>>)
    ensures totalFrames <= 0 ==> r == Some([])
    ensures r.None? <==> totalFrames > 0 && maxFrames < 0
    ensures r.Some? && totalFrames > 0 ==>
      |r.value| == maxFrames &&
      forall i :: 0 <= i < |r.value| ==> 0 <= r.value[i] < totalFrames
    ensures r.Some? && totalFrames > 0 && maxFrames >= 2 ==>
      r.value[0] == 0 && r.value[maxFrames - 1] == totalFrames - 1
  {
    if totalFrames <= 0 then Some([])
    else if maxFrames < 0 then None
    else if maxFrames == 0 then Some([])
    else if maxFrames == 1 then Some([0])
    else Some(Linspace(totalFrames, maxFrames))
  }

  /** The frames read at the sampled positions; a failed read is skipped. */
  function ReadAt(read: int -> Option<Coefficients>, idx: seq<int>): (r: seq<Coefficients>)
    ensures |r| <= |idx|
  {
    if |idx| == 0 then []
    else
      var rest := ReadAt(read, idx[..|idx| - 1]);
      match read(idx[|idx| - 1])
      case None => rest
      case Some(f) => rest + [f]
  }

  // ---------------------------------------------------------------------
  // Aggregation
  // ---------------------------------------------------------------------

  datatype FeatureScores = FeatureScores(opticalFlow: real, colorHistogram: real, edgeDetection: real, frequencyAnalysis: real, noiseAnalysis: real)

  /** The weighted average of the five scores. */
  function Confidence(s: FeatureScores): real
  {
    s.opticalFlow * 0.25 + s.colorHistogram * 0.15 + s.edgeDetection * 0.20 + s.frequencyAnalysis * 0.25 + s.noiseAnalysis * 0.15
  }

  predicate InPercentRange(x: real)
  {
    0.0 <= x <= 100.0
  }

  predicate AllInRange(s: FeatureScores)
  {
    InPercentRange(s.opticalFlow) && InPercentRange(s.colorHistogram) && InPercentRange(s.edgeDetection) &&
    InPercentRange(s.frequencyAnalysis) && InPercentRange(s.noiseAnalysis)
  }

  /** Every score of s is at most the same score of t. */
  predicate Dominated(s: FeatureScores, t: FeatureScores)
  {
    s.opticalFlow <= t.opticalFlow && s.colorHistogram <= t.colorHistogram && s.edgeDetection <= t.edgeDetection &&
    s.frequencyAnalysis <= t.frequencyAnalysis && s.noiseAnalysis <= t.noiseAnalysis
  }

  /** The weights sum to one, so scores on the 0–100 scale give a
      confidence on the same scale, and raising any score never lowers it. */
  lemma ConfidenceBounds(s: FeatureScores, t: FeatureScores)
    ensures AllInRange(s) ==> InPercentRange(Confidence(s))
    ensures Dominated(s, t) ==> Confidence(s) <= Confidence(t)
  {
  }

  /** `max(0, 100 - optical_flow)`. */
  function LipsyncScore(opticalFlow: real): (r: real)
    ensures r >= 0.0 && r >= 100.0 - opticalFlow
    ensures r == 0.0 || r == 100.0 - opticalFlow
    ensures InPercentRange(opticalFlow) ==> InPercentRange(r)
  {
    if 100.0 - opticalFlow > 0.0 then 100.0 - opticalFlow else 0.0
  }

  datatype AnalysisResult = AnalysisResult(
    contentHash: string, perceptualHash: string, isDeepfake: bool, confidence: real,
    lipsyncScore: real, factCheckScore: real, scores: Option<FeatureScores>,
    frameCount: nat, durationSeconds: real, error: string)

  function ErrorResult(contentHash: string, frameCount: nat, duration: real, error: string): AnalysisResult
  {
    AnalysisResult(contentHash, "", false, 0.0, 0.0, 0.0, None, frameCount, duration, error)
  }

  /** What `analyze` sees of a file: whether it exists, its size, whether
      the decoder opens it, its reported frame rate and frame count, its
      SHA-256, and the frame read at each position. */
  datatype VideoFile = VideoFile(
    exists_: bool, sizeBytes: nat, opens: bool, fps: real, frameCount: int,
    sha256: string, read: int -> Option<Coefficients>)

  /** `analyze` for an analyzer with the given limits. `extract` stands for
      the five feature extractors. A negative `max_frames` on a non-empty
      video raises out of `analyze` (Err). The size figures in the
      "File too large" message are not modelled. */
  function Analyze(path: string, file: VideoFile, maxFrames: int, confidenceThreshold: real, maxFileSizeMb: real,
                   extract: seq<Coefficients> -> FeatureScores): (r: Result<AnalysisResult, string>)
    ensures !file.exists_ ==> r == Ok(ErrorResult("", 0, 0.0, "File not found: " + path))
    ensures file.exists_ && file.sizeBytes as real / 1048576.0 > maxFileSizeMb ==> r == Ok(ErrorResult("", 0, 0.0, "File too large"))
    ensures file.exists_ && file.sizeBytes as real / 1048576.0 <= maxFileSizeMb && !file.opens ==>
      r == Ok(ErrorResult(file.sha256, 0, 0.0, "Cannot open video file"))
    ensures (file.exists_ && file.sizeBytes as real / 1048576.0 <= maxFileSizeMb && file.opens &&
             SampleIndices(file.frameCount, maxFrames).Some?) ==>
      var frames := ReadAt(file.read, SampleIndices(file.frameCount, maxFrames).value);
      r.Ok? && r.value.frameCount == |frames| &&
      (r.value.error == "" <==> |frames| >= 2) &&
      (|frames| < 2 ==> r.value.error == "Not enough frames extracted" && r.value.contentHash == file.sha256) &&
      (|frames| >= 2 ==>
        r.value.perceptualHash == Join(Segments(frames), '-') && r.value.scores == Some(extract(frames)))
    ensures r.Ok? && r.value.error == "" ==>
      r.value.frameCount >= 2 && r.value.contentHash == file.sha256 && r.value.scores.Some? &&
      r.value.confidence == Confidence(r.value.scores.value) &&
      (r.value.isDeepfake <==> r.value.confidence >= confidenceThreshold) &&
      r.value.lipsyncScore == LipsyncScore(r.value.scores.value.opticalFlow) &&
      r.value.factCheckScore == 0.0
    ensures r.Ok? && r.value.error != "" ==> r.value.perceptualHash == "" && !r.value.isDeepfake && r.value.confidence == 0.0
    ensures r.Ok? && r.value.error == "Not enough frames extracted" ==> r.value.frameCount < 2
    ensures r.Err? ==> file.frameCount > 0 && maxFrames < 0
  {
    if !file.exists_ then Ok(ErrorResult("", 0, 0.0, "File not found: " + path))
    else if file.sizeBytes as real / 1048576.0 > maxFileSizeMb then Ok(ErrorResult("", 0, 0.0, "File too large"))
    else if !file.opens then Ok(ErrorResult(file.sha256, 0, 0.0, "Cannot open video file"))
    else
      var fps := if file.fps == 0.0 then 30.0 else file.fps;
      var duration := if fps > 0.0 then file.frameCount as real / fps else 0.0;
      match SampleIndices(file.frameCount, maxFrames)
      case None => Err("Number of samples must be non-negative")
      case Some(idx) =>
        var frames := ReadAt(file.read, idx);
        if |frames| < 2 then Ok(ErrorResult(file.sha256, |frames|, duration, "Not enough frames extracted"))
        else
          var scores := extract(frames);
          var confidence := Confidence(scores);
          Ok(AnalysisResult(file.sha256, Join(Segments(frames), '-'), confidence >= confidenceThreshold, confidence,
                            LipsyncScore(scores.opticalFlow), 0.0, Some(scores), |frames|, duration, ""))
  }
}
