/** The stand-alone hash helpers: the DCT perceptual hash and the difference
    hash of one image, the content digest of raw bytes or of a list of
    frames, the decimal "h1-h2-..." video fingerprint and the average-distance
    comparison of two such fingerprints. Image decoding, resizing and the DCT
    happen before the model starts: a pHash sees the cropped DCT coefficients
    in row-major order, a dHash the resized grey-level grid. The digest
    algorithms themselves are a parameter. */
module HashUtils {
  import opened Wrappers
  import opened Bits
  import opened Text
  import opened Numerals
  import opened Sorting
  import DetectionResults
  import VideoHashing

  // ---------------------------------------------------------------------
  // Perceptual hash (pHash)
  // ---------------------------------------------------------------------

  /** `np.median`: the middle of the sorted values for an odd count, the mean
      of the two middle values for an even count. */
  function NpMedian(c: seq<real>): real
    requires |c| > 0
  {
    Middle(SortBy(c, RealLe))
  }

  /** The middle element of a sorted sequence, or the mean of the two middle
      elements when its length is even. */
  function Middle(s: seq<real>): (m: real)
    requires |s| > 0
    ensures s[(|s| - 1) / 2] <= s[|s| / 2] ==> s[(|s| - 1) / 2] <= m <= s[|s| / 2]
  {
    if |s| % 2 == 1 then s[|s| / 2] else (s[|s| / 2 - 1] + s[|s| / 2]) / 2.0
  }

  /** `(dct_cropped > median).flatten()`; no coefficients give no bits. */
  function PHashBits(dct: seq<real>): (bits: seq<bool>)
    ensures |bits| == |dct|
  {
    if |dct| == 0 then [] else seq(|dct|, i requires 0 <= i < |dct| => dct[i] > NpMedian(dct))
  }

  /** The pHash value: the above-median bits, first coefficient most
      significant. */
  function PHash(dct: seq<real>): nat
  {
    BitsToNat(PHashBits(dct))
  }

  /** `compute_perceptual_hash` after the DCT: compare with the median, then
      shift the bits in one by one. */
  method ComputePerceptualHash(dct: seq<real>) returns (h: nat)
    ensures h == PHash(dct)
  {
    var bits: seq<bool> := [];
    if |dct| > 0 {
      var median := NpMedian(dct);
      bits := seq(|dct|, i requires 0 <= i < |dct| => dct[i] > median);
    }
    h := PackBits(bits);
  }

  /** The hash has one bit per coefficient: read back most significant first,
      bit k says whether coefficient k lies above the median. */
  lemma PHashDecode(dct: seq<real>, k: int)
    requires 0 <= k < |dct|
    ensures PHash(dct) < Pow2(|dct|)
    ensures NatToBits(PHash(dct), |dct|)[k] == (dct[k] > NpMedian(dct))
  {
    BitsToNatBound(PHashBits(dct));
    BitsRoundTrip(PHashBits(dct));
  }

  /** The sorted coefficients are in increasing order. */
  lemma SortedRealsLe(c: seq<real>, i: int, j: int)
    requires 0 <= i <= j < |c|
    ensures SortBy(c, RealLe)[i] <= SortBy(c, RealLe)[j]
  {
    if i < j {
      RealLeTotal();
      SortBySorted(c, RealLe);
      assert RealLe(SortBy(c, RealLe)[i], SortBy(c, RealLe)[j]);
    }
  }

  /** The median is never below the lower middle element of the sorted
      coefficients. */
  lemma NpMedianAboveLowerMiddle(c: seq<real>)
    requires |c| > 0
    ensures SortBy(c, RealLe)[(|c| - 1) / 2] <= NpMedian(c)
  {
    SortedRealsLe(c, (|c| - 1) / 2, |c| / 2);
  }

  /** The set bits are the coefficients above the median, counted in sorted
      order. */
  lemma PHashBitsCount(dct: seq<real>)
    requires |dct| > 0
    ensures CountTrue(PHashBits(dct)) == VideoHashing.CountAbove(SortBy(dct, RealLe), NpMedian(dct))
  {
    var n := |dct|;
    var m := NpMedian(dct);
    VideoHashing.AboveBitsCount(dct, m, n);
    assert dct[..n] == dct;
    assert PHashBits(dct) == seq(n, i requires 0 <= i < n => dct[i] > m);
    SortByPermutation(dct, RealLe);
    VideoHashing.CountAbovePermutation(dct, SortBy(dct, RealLe), m);
  }

  /** The first (n - 1) / 2 + 1 sorted coefficients are not above the
      median. */
  lemma AtMostHalfAbove(dct: seq<real>)
    requires |dct| > 0
    ensures VideoHashing.CountAbove(SortBy(dct, RealLe), NpMedian(dct)) <= |dct| / 2
  {
    var n := |dct|;
    var m := NpMedian(dct);
    var t := SortBy(dct, RealLe);
    var low := (n - 1) / 2 + 1;
    NpMedianAboveLowerMiddle(dct);
    forall i | 0 <= i < low
      ensures t[i] <= m
    {
      SortedRealsLe(dct, i, (n - 1) / 2);
    }
    CountAboveTail(t, m, low);
    UpperHalfSize(n);
  }

  /** When the first `low` values are not above m, at most the rest are. */
  lemma CountAboveTail(t: seq<real>, m: real, low: nat)
    requires low <= |t| && forall i :: 0 <= i < low ==> t[i] <= m
    ensures VideoHashing.CountAbove(t, m) <= |t| - low
  {
    VideoHashing.CountAboveNone(t[..low], m);
    assert t == t[..low] + t[low..];
    VideoHashing.CountAboveAppend(t[..low], t[low..], m);
  }

  /** Above the lower middle lie at most half of n >= 1 positions. */
  lemma UpperHalfSize(n: int)
    requires n >= 1
    ensures n - ((n - 1) / 2 + 1) <= n / 2
  {
  }

  /** At most half of the bits are set: only coefficients strictly above the
      median contribute, and at least half of the coefficients are not. */
  lemma PHashAtMostHalfSet(dct: seq<real>)
    ensures CountTrue(PHashBits(dct)) <= |dct| / 2
    ensures PopCount(PHash(dct)) <= |dct| / 2
  {
    PopCountOfBits(PHashBits(dct));
    if |dct| > 0 {
      PHashBitsCount(dct);
      AtMostHalfAbove(dct);
    }
  }

  // ---------------------------------------------------------------------
  // Difference hash (dHash)
  // ---------------------------------------------------------------------

  /** One bit per adjacent pair of a row: set when the right pixel is
      brighter. */
  function DiffRow(row: seq<int>): (bits: seq<bool>)
    ensures |bits| == if |row| == 0 then 0 else |row| - 1
  {
    if |row| <= 1 then [] else seq(|row| - 1, j requires 0 <= j < |row| - 1 => row[j + 1] > row[j])
  }

  /** `(resized[:, 1:] > resized[:, :-1]).flatten()`: the row bits, row by
      row. */
  function DiffBits(grid: seq<seq<int>>): seq<bool>
  {
    if |grid| == 0 then [] else DiffBits(grid[..|grid| - 1]) + DiffRow(grid[|grid| - 1])
  }

  function DHash(grid: seq<seq<int>>): nat
  {
    BitsToNat(DiffBits(grid))
  }

  /** `compute_dhash` after the resize. */
  method ComputeDHash(grid: seq<seq<int>>) returns (h: nat)
    ensures h == DHash(grid)
  {
    var diff := DiffBits(grid);
    h := PackBits(diff);
  }

  predicate Rectangular(grid: seq<seq<int>>, width: nat)
  {
    forall r :: 0 <= r < |grid| ==> |grid[r]| == width
  }

  lemma PredTimes(n: int, w: int)
    ensures (n - 1) * w + w == n * w
  {
  }

  /** Where row r's bits start in the flattened grid. */
  lemma RowOffsets(r: int, j: int, w: nat, n: nat)
    requires 0 <= r < n && 0 <= j < w
    ensures (n - 1) * w + w == n * w
    ensures 0 <= r * w + j < n * w
    ensures r < n - 1 ==> r * w + j < (n - 1) * w
    ensures r == n - 1 ==> r * w + j - (n - 1) * w == j
  {
    MulMono(0, r, w);
    if r < n - 1 {
      MulMono(r + 1, n - 1, w);
      assert (r + 1) * w == r * w + w;
    }
    assert (n - 1) * w + w == n * w;
  }

  /** A grid of rows w + 1 pixels wide gives w bits per row. */
  lemma {:induction false} DiffBitsLength(grid: seq<seq<int>>, w: nat)
    requires Rectangular(grid, w + 1)
    ensures |DiffBits(grid)| == |grid| * w
  {
    if |grid| > 0 {
      var n := |grid|;
      var init := grid[..n - 1];
      assert Rectangular(init, w + 1);
      DiffBitsLength(init, w);
      assert |DiffRow(grid[n - 1])| == w;
      assert |DiffBits(grid)| == (n - 1) * w + w;
      PredTimes(n, w);
    }
  }

  /** The bit of row r and column j sits at position r * w + j. */
  lemma {:induction false} DiffBitsAt(grid: seq<seq<int>>, w: nat, r: int, j: int)
    requires Rectangular(grid, w + 1) && 0 <= r < |grid| && 0 <= j < w
    ensures |DiffBits(grid)| == |grid| * w
    ensures 0 <= r * w + j < |grid| * w
    ensures DiffBits(grid)[r * w + j] == (grid[r][j + 1] > grid[r][j])
  {
    var n := |grid|;
    var init := grid[..n - 1];
    assert Rectangular(init, w + 1) && |init| == n - 1;
    DiffBitsLength(grid, w);
    DiffBitsLength(init, w);
    RowOffsets(r, j, w, n);
    assert |DiffBits(init)| == (n - 1) * w;
    if r < n - 1 {
      DiffBitsAt(init, w, r, j);
      DiffBitsInit(grid, r * w + j);
    } else {
      DiffBitsLastRow(grid, j);
    }
  }

  /** Bits before the last row's are those of the grid without it. */
  lemma DiffBitsInit(grid: seq<seq<int>>, k: int)
    requires |grid| > 0 && 0 <= k < |DiffBits(grid[..|grid| - 1])|
    ensures k < |DiffBits(grid)| && DiffBits(grid)[k] == DiffBits(grid[..|grid| - 1])[k]
  {
  }

  /** The last row's bits close the sequence. */
  lemma DiffBitsLastRow(grid: seq<seq<int>>, j: int)
    requires |grid| > 0 && 0 <= j < |grid[|grid| - 1]| - 1
    ensures |DiffBits(grid[..|grid| - 1])| + j < |DiffBits(grid)|
    ensures DiffBits(grid)[|DiffBits(grid[..|grid| - 1])| + j] == (grid[|grid| - 1][j + 1] > grid[|grid| - 1][j])
  {
    var row := grid[|grid| - 1];
    var head, last := DiffBits(grid[..|grid| - 1]), DiffRow(row);
    assert last == seq(|row| - 1, i requires 0 <= i < |row| - 1 => row[i + 1] > row[i]);
    assert DiffBits(grid) == head + last;
    assert (head + last)[|head| + j] == last[j];
  }

  /** A dHash of a (w + 1)-wide grid holds |grid| * w bits; read back most
      significant first, bit r * w + j compares pixels j + 1 and j of row r. */
  lemma DHashDecode(grid: seq<seq<int>>, w: nat, r: int, j: int)
    requires Rectangular(grid, w + 1) && 0 <= r < |grid| && 0 <= j < w
    ensures DHash(grid) < Pow2(|grid| * w)
    ensures 0 <= r * w + j < |grid| * w
    ensures NatToBits(DHash(grid), |grid| * w)[r * w + j] == (grid[r][j + 1] > grid[r][j])
  {
    DiffBitsAt(grid, w, r, j);
    BitsToNatBound(DiffBits(grid));
    BitsRoundTrip(DiffBits(grid));
  }

  // ---------------------------------------------------------------------
  // Content hash
  // ---------------------------------------------------------------------

  datatype HashAlgorithm = Sha256 | Md5 | Sha1

  /** The algorithm names `compute_content_hash` accepts. */
  function AlgorithmNamed(name: string): (r: Option<HashAlgorithm>)
    ensures r.Some? <==> name in {"sha256", "md5", "sha1"}
  {
    if name == "sha256" then Some(Sha256)
    else if name == "md5" then Some(Md5)
    else if name == "sha1" then Some(Sha1)
    else None
  }

  /** What can be hashed: raw bytes, one frame's bytes, a list of frames
      (each already turned into its bytes), or anything else, which feeds
      the hasher nothing. */
  datatype ContentData = Raw(bytes: seq<bv8>) | OneFrame(frame: seq<bv8>) | FrameList(frames: seq<seq<bv8>>) | Other

  function Flatten(chunks: seq<seq<bv8>>): seq<bv8>
  {
    if |chunks| == 0 then [] else Flatten(chunks[..|chunks| - 1]) + chunks[|chunks| - 1]
  }

  /** All the bytes the hasher is fed, in order. */
  function Payload(data: ContentData): seq<bv8>
  {
    match data
    case Raw(b) => b
    case OneFrame(f) => f
    case FrameList(fs) => Flatten(fs)
    case Other => []
  }

  /** Hashing a list of frames in two batches feeds the same bytes as hashing
      it at once. */
  lemma {:induction false} FlattenAppend(a: seq<seq<bv8>>, b: seq<seq<bv8>>)
    ensures Flatten(a + b) == Flatten(a) + Flatten(b)
  {
    if |b| == 0 {
      assert a + b == a;
    } else {
      var init, x := b[..|b| - 1], b[|b| - 1];
      assert (a + b)[..|a + b| - 1] == a + init && (a + b)[|a + b| - 1] == x;
      assert Flatten(a + b) == Flatten(a + init) + x;
      assert Flatten(b) == Flatten(init) + x;
      FlattenAppend(a, init);
    }
  }

  /** `compute_content_hash`: an unknown algorithm name is a ValueError;
      otherwise every chunk is fed to the hasher in order and the hex digest
      of all of them is returned. */
  method ContentHash(data: ContentData, algorithm: string, digest: (HashAlgorithm, seq<bv8>) -> string)
    returns (r: Result<string, string>)
    ensures r.Err? <==> AlgorithmNamed(algorithm).None?
    ensures r.Err? ==> r.error == "Unknown algorithm: " + algorithm
    ensures r.Ok? ==> r.value == digest(AlgorithmNamed(algorithm).value, Payload(data))
  {
    var alg := AlgorithmNamed(algorithm);
    if alg.None? {
      return Err("Unknown algorithm: " + algorithm);
    }
    var fed: seq<bv8> := [];
    match data {
      case Raw(b) =>
        fed := b;
      case OneFrame(f) =>
        fed := f;
      case FrameList(fs) =>
        var i := 0;
        while i < |fs|
          invariant 0 <= i <= |fs|
          invariant fed == Flatten(fs[..i])
        {
          assert fs[..i + 1][..i] == fs[..i];
          fed := fed + fs[i];
          i := i + 1;
        }
        assert fs[..i] == fs;
      case Other =>
    }
    r := Ok(digest(alg.value, fed));
  }

  // ---------------------------------------------------------------------
  // Fingerprints and their comparison
  // ---------------------------------------------------------------------

  /** `'-'.join(str(h) for h in hashes)`. */
  function Fingerprint(hashes: seq<nat>): string
  {
    Join(seq(|hashes|, i requires 0 <= i < |hashes| => ToDecimal(hashes[i])), '-')
  }

  /** A frame as the fingerprint sees it: its raw bytes and its cropped DCT
      coefficients. */
  datatype VideoFrame = VideoFrame(bytes: seq<bv8>, dct: seq<real>)

  function FrameBytes(frames: seq<VideoFrame>): (r: seq<seq<bv8>>)
    ensures |r| == |frames| && forall i :: 0 <= i < |frames| ==> r[i] == frames[i].bytes
  {
    seq(|frames|, i requires 0 <= i < |frames| => frames[i].bytes)
  }

  function FramePHashes(frames: seq<VideoFrame>): (r: seq<nat>)
    ensures |r| == |frames| && forall i :: 0 <= i < |frames| ==> r[i] == PHash(frames[i].dct)
  {
    seq(|frames|, i requires 0 <= i < |frames| => PHash(frames[i].dct))
  }

  /** `compute_video_fingerprint`: the SHA-256 digest of all frame bytes and
      the decimal pHashes of the frames joined by '-'. */
  method ComputeVideoFingerprint(frames: seq<VideoFrame>, digest: (HashAlgorithm, seq<bv8>) -> string)
    returns (contentHash: string, perceptualHash: string)
    ensures contentHash == digest(Sha256, Flatten(FrameBytes(frames)))
    ensures perceptualHash == Fingerprint(FramePHashes(frames))
  {
    var content := ContentHash(FrameList(FrameBytes(frames)), "sha256", digest);
    contentHash := content.value;
    var phashes: seq<string> := [];
    var i := 0;
    while i < |frames|
      invariant 0 <= i <= |frames| && |phashes| == i
      invariant forall k :: 0 <= k < i ==> phashes[k] == ToDecimal(PHash(frames[k].dct))
    {
      var phash := ComputePerceptualHash(frames[i].dct);
      phashes := phashes + [ToDecimal(phash)];
      i := i + 1;
    }
    var hs := FramePHashes(frames);
    assert phashes == seq(|hs|, k requires 0 <= k < |hs| => ToDecimal(hs[k]));
    perceptualHash := Join(phashes, '-');
  }

  /** Splitting a fingerprint of at least one frame on '-' gives one segment
      per frame, each parsing back to that frame's hash. (With no frames the
      fingerprint is "", which splits into one unparsable segment.) */
  lemma FingerprintSegments(hashes: seq<nat>)
    requires |hashes| >= 1
    ensures Split(Fingerprint(hashes), '-') == seq(|hashes|, i requires 0 <= i < |hashes| => ToDecimal(hashes[i]))
    ensures forall i :: 0 <= i < |hashes| ==> ParseDecimal(Split(Fingerprint(hashes), '-')[i]) == Some(hashes[i])
  {
    var parts := seq(|hashes|, i requires 0 <= i < |hashes| => ToDecimal(hashes[i]));
    forall i | 0 <= i < |parts|
      ensures '-' !in parts[i] && ParseDecimal(parts[i]) == Some(hashes[i])
    {
      DecimalNoDash(hashes[i]);
      DecimalRoundTrip(hashes[i]);
    }
    SplitJoin(parts, '-');
  }

  /** The average distance of `are_videos_similar`, infinite when the
      fingerprints cannot be compared. */
  datatype AvgDistance = Finite(value: real) | Infinite

  /** Sum of the Hamming distances of the paired segments, or None as soon as
      a segment on either side is not a decimal number. */
  function SegmentTotal(s1: seq<string>, s2: seq<string>): Option<nat>
    requires |s1| == |s2|
  {
    if |s1| == 0 then Some(0)
    else
      var n := |s1|;
      match SegmentTotal(s1[..n - 1], s2[..n - 1])
      case None => None
      case Some(t) =>
        match (ParseDecimal(s1[n - 1]), ParseDecimal(s2[n - 1]))
        case (Some(a), Some(b)) => Some(t + Hamming(a, b))
        case _ => None
  }

  /** `are_videos_similar`: fingerprints of different segment counts, or with
      a non-numeric segment, are not similar and infinitely far apart;
      otherwise the average per-segment distance decides. */
  function Similarity(p1: string, p2: string, threshold: int): (r: (bool, AvgDistance))
    ensures r.1.Infinite? ==> !r.0
    ensures r.1.Finite? ==> r.1.value >= 0.0 && (r.0 <==> r.1.value <= threshold as real)
  {
    var s1, s2 := Split(p1, '-'), Split(p2, '-');
    if |s1| != |s2| then (false, Infinite)
    else match SegmentTotal(s1, s2)
      case None => (false, Infinite)
      case Some(t) =>
        var avg := t as real / |s1| as real;
        (avg <= threshold as real, Finite(avg))
  }

  /** Once a prefix fails to parse, so does the whole list. */
  lemma {:induction false} SegmentTotalNoneExtends(s1: seq<string>, s2: seq<string>, k: nat)
    requires |s1| == |s2| && k <= |s1|
    requires SegmentTotal(s1[..k], s2[..k]).None?
    ensures SegmentTotal(s1, s2).None?
    decreases |s1| - k
  {
    if k < |s1| {
      assert s1[..k + 1][..k] == s1[..k];
      assert s2[..k + 1][..k] == s2[..k];
      SegmentTotalNoneExtends(s1, s2, k + 1);
    } else {
      assert s1[..k] == s1 && s2[..k] == s2;
    }
  }

  /** The loop of `are_videos_similar`, with its early exits. */
  method AreVideosSimilar(p1: string, p2: string, threshold: int) returns (similar: bool, avg: AvgDistance)
    ensures (similar, avg) == Similarity(p1, p2, threshold)
  {
    var hashes1 := Split(p1, '-');
    var hashes2 := Split(p2, '-');
    if |hashes1| != |hashes2| {
      return false, Infinite;
    }
    var total: nat := 0;
    var i := 0;
    while i < |hashes1|
      invariant 0 <= i <= |hashes1|
      invariant SegmentTotal(hashes1[..i], hashes2[..i]) == Some(total)
    {
      assert hashes1[..i + 1][..i] == hashes1[..i];
      assert hashes2[..i + 1][..i] == hashes2[..i];
      var h1 := ParseDecimal(hashes1[i]);
      var h2 := ParseDecimal(hashes2[i]);
      if h1.None? || h2.None? {
        SegmentTotalNoneExtends(hashes1, hashes2, i + 1);
        return false, Infinite;
      }
      total := total + Hamming(h1.value, h2.value);
      i := i + 1;
    }
    assert hashes1[..i] == hashes1 && hashes2[..i] == hashes2;
    var d := total as real / |hashes1| as real;
    similar, avg := d <= threshold as real, Finite(d);
  }

  lemma DivLeIff(t: nat, n: nat, threshold: int)
    requires n > 0
    ensures t as real / n as real <= threshold as real <==> t <= threshold * n
  {
    var q := t as real / n as real;
    assert q * n as real == t as real;
    assert (threshold * n) as real == threshold as real * n as real;
    if q <= threshold as real {
      assert q * n as real <= threshold as real * n as real;
    } else {
      assert q * n as real > threshold as real * n as real;
    }
  }

  /** The outcome, stated without the division: comparable fingerprints are
      similar exactly when the total distance is at most threshold times the
      segment count. */
  lemma SimilarityCases(p1: string, p2: string, threshold: int)
    ensures var s1, s2 := Split(p1, '-'), Split(p2, '-');
      Similarity(p1, p2, threshold).1.Infinite? <==> (|s1| != |s2| || SegmentTotal(s1, s2).None?)
    ensures var s1, s2 := Split(p1, '-'), Split(p2, '-');
      |s1| == |s2| && SegmentTotal(s1, s2).Some? ==>
        var t := SegmentTotal(s1, s2).value;
        Similarity(p1, p2, threshold).1 == Finite(t as real / |s1| as real) &&
        (Similarity(p1, p2, threshold).0 <==> t <= threshold * |s1|)
  {
    var s1, s2 := Split(p1, '-'), Split(p2, '-');
    if |s1| == |s2| && SegmentTotal(s1, s2).Some? {
      DivLeIff(SegmentTotal(s1, s2).value, |s1|, threshold);
    }
  }

  lemma {:induction false} SegmentTotalSymmetric(s1: seq<string>, s2: seq<string>)
    requires |s1| == |s2|
    ensures SegmentTotal(s1, s2) == SegmentTotal(s2, s1)
  {
    if |s1| > 0 {
      var n := |s1|;
      SegmentTotalSymmetric(s1[..n - 1], s2[..n - 1]);
      var a, b := ParseDecimal(s1[n - 1]), ParseDecimal(s2[n - 1]);
      if a.Some? && b.Some? {
        HammingMetric(a.value, b.value);
      }
    }
  }

  /** The comparison does not depend on the order of the fingerprints. */
  lemma SimilaritySymmetric(p1: string, p2: string, threshold: int)
    ensures Similarity(p1, p2, threshold) == Similarity(p2, p1, threshold)
  {
    var s1, s2 := Split(p1, '-'), Split(p2, '-');
    if |s1| == |s2| {
      SegmentTotalSymmetric(s1, s2);
    }
  }

  /** Total Hamming distance of two equally long lists of frame hashes. */
  function HammingSum(hs1: seq<nat>, hs2: seq<nat>): nat
    requires |hs1| == |hs2|
  {
    if |hs1| == 0 then 0
    else HammingSum(hs1[..|hs1| - 1], hs2[..|hs2| - 1]) + Hamming(hs1[|hs1| - 1], hs2[|hs2| - 1])
  }

  lemma {:induction false} SegmentTotalOfDecimals(hs1: seq<nat>, hs2: seq<nat>)
    requires |hs1| == |hs2|
    ensures SegmentTotal(seq(|hs1|, i requires 0 <= i < |hs1| => ToDecimal(hs1[i])),
                         seq(|hs2|, i requires 0 <= i < |hs2| => ToDecimal(hs2[i]))) == Some(HammingSum(hs1, hs2))
  {
    if |hs1| > 0 {
      var n := |hs1|;
      var d1 := seq(n, i requires 0 <= i < n => ToDecimal(hs1[i]));
      var d2 := seq(n, i requires 0 <= i < n => ToDecimal(hs2[i]));
      SegmentTotalOfDecimals(hs1[..n - 1], hs2[..n - 1]);
      assert d1[..n - 1] == seq(n - 1, i requires 0 <= i < n - 1 => ToDecimal(hs1[..n - 1][i]));
      assert d2[..n - 1] == seq(n - 1, i requires 0 <= i < n - 1 => ToDecimal(hs2[..n - 1][i]));
      DecimalRoundTrip(hs1[n - 1]);
      DecimalRoundTrip(hs2[n - 1]);
    }
  }

  /** Two fingerprints of the same number (at least one) of frames are
      compared by the mean Hamming distance of their frame hashes. */
  lemma FingerprintDistance(hs1: seq<nat>, hs2: seq<nat>, threshold: int)
    requires |hs1| == |hs2| >= 1
    ensures Similarity(Fingerprint(hs1), Fingerprint(hs2), threshold).1 ==
      Finite(HammingSum(hs1, hs2) as real / |hs1| as real)
  {
    FingerprintSegments(hs1);
    FingerprintSegments(hs2);
    SegmentTotalOfDecimals(hs1, hs2);
  }

  lemma {:induction false} HammingSumSelf(hs: seq<nat>)
    ensures HammingSum(hs, hs) == 0
  {
    if |hs| > 0 {
      HammingSumSelf(hs[..|hs| - 1]);
      HammingMetric(hs[|hs| - 1], hs[|hs| - 1]);
    }
  }

  /** A fingerprint of at least one frame is at distance 0 from itself, and
      so similar under any threshold that is not negative. */
  lemma FingerprintSelfSimilar(hs: seq<nat>, threshold: int)
    requires |hs| >= 1
    ensures Similarity(Fingerprint(hs), Fingerprint(hs), threshold) == (threshold >= 0, Finite(0.0))
  {
    FingerprintDistance(hs, hs, threshold);
    HammingSumSelf(hs);
  }

  /** A fingerprint of no frames is the empty string, whose one segment does
      not parse: it is not similar even to itself. */
  lemma EmptyFingerprintNotSimilar(threshold: int)
    ensures Similarity(Fingerprint([]), Fingerprint([]), threshold) == (false, Infinite)
  {
    assert Fingerprint([]) == "";
    assert Split("", '-') == [""];
    assert SegmentTotal([], []) == Some(0);
    assert [""][..0] == [];
  }

  /** `hash_similarity_score`: 0 for incomparable fingerprints, otherwise
      `1 - avg / max_distance` clamped to [0, 1]; a zero `max_distance` with
      a finite average divides by zero (None). */
  function SimilarityScore(p1: string, p2: string, maxDistance: int): (r: Option<real>)
    ensures r.Some? ==> 0.0 <= r.value <= 1.0
  {
    match Similarity(p1, p2, maxDistance).1
    case Infinite => Some(0.0)
    case Finite(avg) =>
      if maxDistance == 0 then None
      else Some(DetectionResults.Clamp(1.0 - avg / maxDistance as real))
  }

  /** The score fails only on a zero maximum, is 0 for incomparable
      fingerprints, and with a positive maximum is 1 exactly when the average
      distance is 0 and 0 once the average reaches the maximum. */
  lemma SimilarityScoreCases(p1: string, p2: string, maxDistance: int)
    ensures var avg := Similarity(p1, p2, maxDistance).1;
      SimilarityScore(p1, p2, maxDistance).None? <==> (avg.Finite? && maxDistance == 0)
    ensures Similarity(p1, p2, maxDistance).1.Infinite? ==> SimilarityScore(p1, p2, maxDistance) == Some(0.0)
    ensures var avg := Similarity(p1, p2, maxDistance).1;
      maxDistance > 0 && avg.Finite? ==>
        (SimilarityScore(p1, p2, maxDistance) == Some(1.0) <==> avg.value == 0.0) &&
        (avg.value >= maxDistance as real ==> SimilarityScore(p1, p2, maxDistance) == Some(0.0))
  {
    var avg := Similarity(p1, p2, maxDistance).1;
    if maxDistance > 0 && avg.Finite? {
      RatioFacts(avg.value, maxDistance as real);
    }
  }

  lemma RatioFacts(a: real, m: real)
    requires a >= 0.0 && m > 0.0
    ensures a / m >= 0.0
    ensures a / m == 0.0 <==> a == 0.0
    ensures a >= m ==> a / m >= 1.0
  {
    var q := a / m;
    assert q * m == a;
  }

  /** Identical fingerprints of at least one frame score 1 under any positive
      maximum. */
  lemma FingerprintSelfScore(hs: seq<nat>, maxDistance: int)
    requires |hs| >= 1 && maxDistance > 0
    ensures SimilarityScore(Fingerprint(hs), Fingerprint(hs), maxDistance) == Some(1.0)
  {
    FingerprintSelfSimilar(hs, maxDistance);
  }
}
