/** Hashing of videos for the detection cache: key-frame sampling, the 64-bit
    DCT perceptual hash of a frame, the '-'-joined hexadecimal perceptual hash
    of a video, the LSH band signatures used to find candidates, and the total
    Hamming distance between two perceptual hashes.

    The image operations (decoding, grayscale, 32x32 resize, DCT) are outside
    the model: a frame arrives with its raw pixel bytes and the 64
    low-frequency DCT coefficients of its thumbnail. SHA-256 is a parameter. */
module VideoHashing {
  import opened Wrappers
  import opened Bits
  import opened Numerals
  import opened Text
  import opened Sorting

  /** Bits per frame hash. */
  const HashBits: nat := 64

  /** Hexadecimal digits per frame hash. */
  const HashDigits: nat := 16

  /** The top-left 8x8 block of the DCT, flattened row by row. */
  type Coefficients = s: seq<real> | |s| == 64 witness seq(64, _ => 0.0)

  datatype Frame = Frame(pixels: seq<bv8>, lowFreq: Coefficients)

  /** An opened (or unopenable) video: its reported frame count and the frame
      read at each position, None when the read fails. */
  datatype VideoSource = VideoSource(isOpen: bool, frameCount: int, read: int -> Option<Frame>)

  datatype HashError =
    | CannotOpenVideo
    | VideoHasNoFrames
    | FrameIndexDivisionByZero
    | NoFramesExtracted
    | CannotReadImage

  datatype VideoHashes = VideoHashes(contentHash: string, perceptualHash: string, lshBands: seq<string>)

  // ---------------------------------------------------------------------
  // Key frames
  // ---------------------------------------------------------------------

  /** Positions of the frames to sample: all of them for a short video,
      otherwise `numFrames` positions spread evenly from the first to the last
      frame (`int(i * (N - 1) / (F - 1))`). A single requested frame divides
      by zero. */
  function KeyFrameIndices(total: int, numFrames: int): Result<seq<int>, HashError>
  {
    if total == 0 then Err(VideoHasNoFrames)
    else if total < numFrames then Ok(seq(if total > 0 then total else 0, i => i))
    else if numFrames <= 0 then Ok([])
    else if numFrames == 1 then Err(FrameIndexDivisionByZero)
    else Ok(seq(numFrames, i => i * (total - 1) / (numFrames - 1)))
  }

  /** Position k of f + 1 evenly spread positions over 0..t. */
  lemma SpreadIndex(k: int, l: int, t: int, f: int)
    requires 0 <= k <= l <= f && f >= 1 && t >= 0
    ensures 0 <= k * t / f <= l * t / f <= t
  {
    ProductsOrdered(k, l, f, t);
    MulDivCancel(f, t);
    DivChain(k * t, l * t, f * t, f);
  }

  lemma DivChain(x: int, y: int, z: int, f: int)
    requires 0 <= x <= y <= z && f >= 1
    ensures 0 <= x / f <= y / f <= z / f
  {
    DivMono(x, y, f);
    DivMono(y, z, f);
  }

  lemma ProductsOrdered(k: int, l: int, f: int, t: int)
    requires 0 <= k <= l <= f && t >= 0
    ensures 0 <= k * t <= l * t <= f * t
  {
    MulMono(0, k, t);
    MulMono(k, l, t);
    MulMono(l, f, t);
  }

  /** Sampled positions are real frame positions in non-decreasing order; a
      long video is sampled at exactly `numFrames` positions from its first to
      its last frame. */
  lemma KeyFrameIndicesSpread(total: int, numFrames: int)
    requires KeyFrameIndices(total, numFrames).Ok?
    ensures var idx := KeyFrameIndices(total, numFrames).value;
      (forall k :: 0 <= k < |idx| ==> 0 <= idx[k] < total) &&
      (forall k, l :: 0 <= k <= l < |idx| ==> idx[k] <= idx[l]) &&
      |idx| <= (if numFrames > 0 then numFrames else 0) &&
      (0 < total < numFrames ==> |idx| == total && forall k :: 0 <= k < |idx| ==> idx[k] == k) &&
      (total >= numFrames >= 2 ==> |idx| == numFrames && idx[0] == 0 && idx[|idx| - 1] == total - 1)
  {
    var idx := KeyFrameIndices(total, numFrames).value;
    if total >= numFrames >= 2 {
      var t, f := total - 1, numFrames - 1;
      assert forall k :: 0 <= k < |idx| ==> idx[k] == k * t / f;
      forall k, l | 0 <= k <= l < |idx| ensures 0 <= idx[k] <= idx[l] <= t {
        SpreadIndex(k, l, t, f);
      }
      assert idx[0] == 0;
      assert idx[f] == t by {
        MulDivCancel(f, t);
        assert f * t == t * f;
      }
    }
  }

  /** The frames that could be read, in sampling order. */
  function ReadFrames(read: int -> Option<Frame>, idx: seq<int>): (fs: seq<Frame>)
    ensures |fs| <= |idx|
  {
    if |idx| == 0 then []
    else
      var last := match read(idx[|idx| - 1]) case Some(f) => [f] case None => [];
      ReadFrames(read, idx[..|idx| - 1]) + last
  }

  /** When every read succeeds, the frames are those at the positions, in order. */
  lemma {:induction false} ReadFramesAll(read: int -> Option<Frame>, idx: seq<int>)
    requires forall k :: 0 <= k < |idx| ==> read(idx[k]).Some?
    ensures |ReadFrames(read, idx)| == |idx|
    ensures forall k :: 0 <= k < |idx| ==> ReadFrames(read, idx)[k] == read(idx[k]).value
  {
    if |idx| > 0 {
      ReadFramesAll(read, idx[..|idx| - 1]);
    }
  }

  lemma {:induction false} ReadFramesFrom(read: int -> Option<Frame>, idx: seq<int>)
    ensures forall k :: 0 <= k < |ReadFrames(read, idx)| ==>
      exists j :: 0 <= j < |idx| && read(idx[j]) == Some(ReadFrames(read, idx)[k])
  {
    if |idx| > 0 {
      var p := idx[..|idx| - 1];
      ReadFramesFrom(read, p);
      var fs := ReadFrames(read, idx);
      forall k | 0 <= k < |fs| ensures exists j :: 0 <= j < |idx| && read(idx[j]) == Some(fs[k]) {
        if k < |ReadFrames(read, p)| {
          assert fs[k] == ReadFrames(read, p)[k];
          var j :| 0 <= j < |p| && read(p[j]) == Some(ReadFrames(read, p)[k]);
          assert read(idx[j]) == Some(fs[k]);
        } else {
          assert read(idx[|idx| - 1]) == Some(fs[k]);
        }
      }
    } else {
      assert ReadFrames(read, idx) == [];
    }
  }

  /** `_extract_key_frames`: the frames read at the sampled positions, or the
      reason there are none. */
  function KeyFrames(video: VideoSource, numFrames: int): Result<seq<Frame>, HashError>
  {
    if !video.isOpen then Err(CannotOpenVideo)
    else match KeyFrameIndices(video.frameCount, numFrames)
      case Err(e) => Err(e)
      case Ok(idx) =>
        var fs := ReadFrames(video.read, idx);
        if |fs| == 0 then Err(NoFramesExtracted) else Ok(fs)
  }

  /** Extraction yields between one and `numFrames` frames, each of them the
      frame read at a real position of the video. */
  lemma KeyFramesSampled(video: VideoSource, numFrames: int)
    requires KeyFrames(video, numFrames).Ok?
    ensures var fs := KeyFrames(video, numFrames).value;
      1 <= |fs| <= numFrames &&
      (forall k :: 0 <= k < |fs| ==>
        exists j :: 0 <= j < video.frameCount && video.read(j) == Some(fs[k])) &&
      (video.frameCount < numFrames && (forall j :: 0 <= j < video.frameCount ==> video.read(j).Some?) ==>
        |fs| == video.frameCount && forall k :: 0 <= k < |fs| ==> video.read(k) == Some(fs[k]))
  {
    KeyFrameIndicesSpread(video.frameCount, numFrames);
    var idx := KeyFrameIndices(video.frameCount, numFrames).value;
    ReadFramesFrom(video.read, idx);
    if video.frameCount < numFrames && (forall j :: 0 <= j < video.frameCount ==> video.read(j).Some?) {
      ReadFramesAll(video.read, idx);
    }
    var fs := KeyFrames(video, numFrames).value;
    forall k | 0 <= k < |fs|
      ensures exists j :: 0 <= j < video.frameCount && video.read(j) == Some(fs[k])
    {
      var j :| 0 <= j < |idx| && video.read(idx[j]) == Some(fs[k]);
      assert 0 <= idx[j] < video.frameCount;
    }
  }

  method ExtractKeyFrames(video: VideoSource, numFrames: int) returns (r: Result<seq<Frame>, HashError>)
    ensures r == KeyFrames(video, numFrames)
  {
    if !video.isOpen {
      return Err(CannotOpenVideo);
    }
    var indices := KeyFrameIndices(video.frameCount, numFrames);
    if indices.Err? {
      return Err(indices.error);
    }
    var idx := indices.value;
    var frames: seq<Frame> := [];
    var i := 0;
    while i < |idx|
      invariant 0 <= i <= |idx|
      invariant frames == ReadFrames(video.read, idx[..i])
    {
      assert idx[..i + 1][..i] == idx[..i];
      var frame := video.read(idx[i]);
      if frame.Some? {
        frames := frames + [frame.value];
      }
      i := i + 1;
    }
    assert idx[..i] == idx;
    if |frames| == 0 {
      return Err(NoFramesExtracted);
    }
    return Ok(frames);
  }

  // ---------------------------------------------------------------------
  // Frame perceptual hash
  // ---------------------------------------------------------------------

  /** `sorted(c)[len(c) // 2]`: the upper median. */
  function Median(c: seq<real>): real
    requires |c| > 0
  {
    SortBy(c, RealLe)[|c| / 2]
  }

  /** One bit per coefficient, set when the coefficient exceeds the median. */
  function AboveMedian(c: seq<real>): (bits: seq<bool>)
    requires |c| > 0
    ensures |bits| == |c|
  {
    seq(|c|, i requires 0 <= i < |c| => c[i] > Median(c))
  }

  /** The 64-bit perceptual hash of a frame: the above-median bits, first
      coefficient most significant. */
  function FrameHashValue(c: Coefficients): nat
  {
    BitsToNat(AboveMedian(c))
  }

  method FramePHash(c: Coefficients) returns (h: nat)
    ensures h == FrameHashValue(c)
  {
    var sorted := SortBy(c, RealLe);
    var median := sorted[|c| / 2];
    ghost var bits := AboveMedian(c);
    assert median == Median(c);
    h := 0;
    var i := 0;
    while i < |c|
      invariant 0 <= i <= |c|
      invariant h == BitsToNat(bits[..i])
    {
      assert bits[..i + 1][..i] == bits[..i];
      assert bits[i] == (c[i] > median);
      h := 2 * h + (if c[i] > median then 1 else 0);
      i := i + 1;
    }
    assert bits[..i] == bits;
  }

  /** Number of entries greater than m. */
  function CountAbove(s: seq<real>, m: real): (r: nat)
    ensures r <= |s|
  {
    if |s| == 0 then 0 else CountAbove(s[..|s| - 1], m) + (if s[|s| - 1] > m then 1 else 0)
  }

  lemma {:induction false} CountAboveAppend(a: seq<real>, b: seq<real>, m: real)
    ensures CountAbove(a + b, m) == CountAbove(a, m) + CountAbove(b, m)
  {
    if |b| == 0 {
      assert a + b == a;
    } else {
      assert (a + b)[..|a + b| - 1] == a + b[..|b| - 1];
      CountAboveAppend(a, b[..|b| - 1], m);
    }
  }

  /** Removing entry j takes away exactly its own contribution. */
  lemma CountAboveRemove(b: seq<real>, j: int, m: real)
    requires 0 <= j < |b|
    ensures CountAbove(b, m) == CountAbove(b[..j] + b[j + 1..], m) + (if b[j] > m then 1 else 0)
  {
    assert b == b[..j] + ([b[j]] + b[j + 1..]);
    CountAboveAppend(b[..j], [b[j]] + b[j + 1..], m);
    CountAboveAppend([b[j]], b[j + 1..], m);
    CountAboveAppend(b[..j], b[j + 1..], m);
    assert CountAbove([b[j]], m) == (if b[j] > m then 1 else 0) by {
      assert [b[j]][..0] == [];
    }
  }

  /** CountAbove depends only on the multiset of entries. */
  lemma {:induction false} CountAbovePermutation(a: seq<real>, b: seq<real>, m: real)
    requires multiset(a) == multiset(b)
    ensures CountAbove(a, m) == CountAbove(b, m)
    decreases |a|
  {
    if |a| == 0 {
      assert |b| == |multiset(b)| == 0;
    } else {
      var x := a[|a| - 1];
      var a' := a[..|a| - 1];
      assert a == a' + [x];
      assert x in multiset(b);
      var j :| 0 <= j < |b| && b[j] == x;
      var b' := b[..j] + b[j + 1..];
      assert b == b[..j] + [x] + b[j + 1..];
      assert multiset(b') == multiset(a') by {
        assert multiset(b) == multiset(b[..j]) + multiset{x} + multiset(b[j + 1..]);
        assert multiset(b') == multiset(b[..j]) + multiset(b[j + 1..]);
        assert multiset(a) == multiset(a') + multiset{x};
        assert multiset(b') == multiset(b) - multiset{x};
      }
      CountAbovePermutation(a', b', m);
      CountAboveRemove(b, j, m);
    }
  }

  lemma {:induction false} CountAboveNone(s: seq<real>, m: real)
    requires forall i :: 0 <= i < |s| ==> s[i] <= m
    ensures CountAbove(s, m) == 0
  {
    if |s| > 0 {
      CountAboveNone(s[..|s| - 1], m);
    }
  }

  lemma {:induction false} AboveBitsCount(c: seq<real>, m: real, n: nat)
    requires n <= |c|
    ensures CountTrue(seq(n, i requires 0 <= i < n => c[i] > m)) == CountAbove(c[..n], m)
  {
    if n > 0 {
      AboveBitsCount(c, m, n - 1);
      var bits := seq(n, i requires 0 <= i < n => c[i] > m);
      assert bits[..n - 1] == seq(n - 1, i requires 0 <= i < n - 1 => c[i] > m);
      assert c[..n][..n - 1] == c[..n - 1];
    }
  }

  /** Fewer than half of a frame hash's 64 bits are set: only coefficients
      strictly above the upper median contribute, and at most 31 of the 64
      lie above it. The hash also fits in 64 bits. */
  lemma FrameHashBits(c: Coefficients)
    ensures FrameHashValue(c) < Pow2(HashBits)
    ensures PopCount(FrameHashValue(c)) <= 31
  {
    BitsToNatBound(AboveMedian(c));
    PopCountOfBits(AboveMedian(c));
    var t := SortBy(c, RealLe);
    var m := Median(c);
    AboveBitsCount(c, m, 64);
    assert c[..64] == c;
    assert AboveMedian(c) == seq(64, i requires 0 <= i < 64 => c[i] > m);
    SortByPermutation(c, RealLe);
    CountAbovePermutation(c, t, m);
    SortedAboveMedian(c);
  }

  /** In sorted order the median is element 32, so only the last 31
      coefficients can lie above it. */
  lemma SortedAboveMedian(c: Coefficients)
    ensures CountAbove(SortBy(c, RealLe), Median(c)) <= 31
  {
    var t := SortBy(c, RealLe);
    var m := Median(c);
    RealLeTotal();
    SortBySorted(c, RealLe);
    var low, high := t[..33], t[33..];
    forall i | 0 <= i < 33 ensures low[i] <= m {
      assert RealLe(t[i], t[32]) || i == 32;
    }
    assert t == low + high;
    CountAboveAppend(low, high, m);
    CountAboveNone(low, m);
  }

  // ---------------------------------------------------------------------
  // Perceptual hash strings and LSH bands
  // ---------------------------------------------------------------------

  /** `format(h & 0xFFFFFFFFFFFFFFFF, '016X')`. */
  function FrameHex(h: nat): string
  {
    ToHexFixed(h % Pow2(HashBits), HashDigits, true)
  }

  /** Sixteen upper-case digits without '-', which parse back to any 64-bit
      hash (`_hex_to_int(_int_to_hex(h)) == h`). */
  lemma FrameHexRoundTrip(h: nat)
    requires h < Pow2(HashBits)
    ensures |FrameHex(h)| == HashDigits && '-' !in FrameHex(h)
    ensures ParseHex(FrameHex(h)) == Some(h)
  {
    HexWidthRoundTrip(h, HashDigits);
  }

  /** The same for any number of digits. */
  lemma HexWidthRoundTrip(h: nat, digits: nat)
    requires digits >= 1 && h < Pow2(4 * digits)
    ensures h % Pow2(4 * digits) == h
    ensures '-' !in ToHexFixed(h, digits, true)
    ensures ParseHex(ToHexFixed(h, digits, true)) == Some(h)
  {
    ModSmall(h, Pow2(4 * digits));
    Pow16IsPow2(digits);
    ParseHexFixed(h, digits, true);
    HexFixedNoDash(h, digits, true);
  }

  function FrameHexes(hs: seq<nat>): (r: seq<string>)
    ensures |r| == |hs|
  {
    seq(|hs|, i requires 0 <= i < |hs| => FrameHex(hs[i]))
  }

  /** The perceptual hash of a video: its frame hashes joined by '-'. */
  function PerceptualHashOf(hs: seq<nat>): string
  {
    Join(FrameHexes(hs), '-')
  }

  /** The 64 bits of each frame hash, frame after frame, most significant
      first. */
  function FrameBitsOf(hs: seq<nat>): (bits: seq<bool>)
    ensures |bits| == HashBits * |hs|
  {
    if |hs| == 0 then [] else FrameBitsOf(hs[..|hs| - 1]) + NatToBits(hs[|hs| - 1], HashBits)
  }

  function FrameHashesOf(frames: seq<Frame>): (hs: seq<nat>)
    ensures |hs| == |frames|
  {
    seq(|frames|, i requires 0 <= i < |frames| => FrameHashValue(frames[i].lowFreq))
  }

  /** First bit of band b when `total` bits are cut into `bands` bands. */
  function BandStart(b: int, total: nat, bands: int): int
    requires bands > 0
  {
    b * total / bands
  }

  lemma BandBounds(b: int, total: nat, bands: int)
    requires 0 <= b < bands
    ensures 0 <= BandStart(b, total, bands) <= BandStart(b + 1, total, bands) <= total
  {
    assert b * total <= (b + 1) * total <= bands * total;
    DivMono(b * total, (b + 1) * total, bands);
    DivMono((b + 1) * total, bands * total, bands);
    MulDivCancel(bands, total);
  }

  /** The bits of band b. */
  function BandBits(bits: seq<bool>, b: int, bands: int): (r: seq<bool>)
    requires 0 <= b < bands
    ensures |r| == BandStart(b + 1, |bits|, bands) - BandStart(b, |bits|, bands)
  {
    BandBounds(b, |bits|, bands);
    bits[BandStart(b, |bits|, bands)..BandStart(b + 1, |bits|, bands)]
  }

  /** The bits of the first k bands. */
  function BandsPrefix(bits: seq<bool>, k: int, bands: int): seq<bool>
    requires 0 <= k <= bands && bands > 0
  {
    if k == 0 then [] else
      BandBounds(k - 1, |bits|, bands);
      bits[..BandStart(k, |bits|, bands)]
  }

  lemma BandsPrefixStep(bits: seq<bool>, k: int, bands: int)
    requires 0 < k <= bands
    ensures BandsPrefix(bits, k, bands) == BandsPrefix(bits, k - 1, bands) + BandBits(bits, k - 1, bands)
  {
    BandBounds(k - 1, |bits|, bands);
    var lo, hi := BandStart(k - 1, |bits|, bands), BandStart(k, |bits|, bands);
    if k == 1 {
      assert lo == 0;
    } else {
      BandBounds(k - 2, |bits|, bands);
    }
    assert bits[..hi] == bits[..lo] + bits[lo..hi];
  }

  lemma BandsPrefixAll(bits: seq<bool>, bands: int)
    requires bands > 0
    ensures BandsPrefix(bits, bands, bands) == bits
  {
    MulDivCancel(bands, |bits|);
    assert BandStart(bands, |bits|, bands) == |bits|;
    assert bits[..|bits|] == bits;
  }

  /** `format(band_int, 'X')` of the bits of band b. */
  function BandSignature(bits: seq<bool>, b: int, bands: int): string
    requires 0 <= b < bands
  {
    ToHexMinimal(BitsToNat(BandBits(bits, b, bands)), true)
  }

  /** `_compute_lsh_bands`: one signature per band (none for a non-positive
      band count). */
  function LshBands(bits: seq<bool>, bands: int): (r: seq<string>)
    ensures |r| == if bands > 0 then bands else 0
  {
    if bands <= 0 then [] else seq(bands, b requires 0 <= b < bands => BandSignature(bits, b, bands))
  }

  method ComputeLshBands(bits: seq<bool>, bands: int) returns (r: seq<string>)
    ensures r == LshBands(bits, bands)
  {
    r := [];
    if bands <= 0 {
      return;
    }
    var b := 0;
    while b < bands
      invariant 0 <= b <= bands
      invariant |r| == b
      invariant forall k :: 0 <= k < b ==> r[k] == BandSignature(bits, k, bands)
    {
      BandBounds(b, |bits|, bands);
      var start := (b * |bits|) / bands;
      var end := ((b + 1) * |bits|) / bands;
      var bandBits := bits[start..end];
      assert bandBits == BandBits(bits, b, bands);
      var bandInt := PackBits(bandBits);
      r := r + [ToHexMinimal(bandInt, true)];
      b := b + 1;
    }
    assert r == LshBands(bits, bands);
  }

  /** Equal band signatures come from equal band bits. */
  lemma BandSignatureSeparates(bits1: seq<bool>, bits2: seq<bool>, b: int, bands: int)
    requires |bits1| == |bits2| && 0 <= b < bands
    requires BandSignature(bits1, b, bands) == BandSignature(bits2, b, bands)
    ensures BandBits(bits1, b, bands) == BandBits(bits2, b, bands)
  {
    var s1, s2 := BandBits(bits1, b, bands), BandBits(bits2, b, bands);
    assert |s1| == |s2|;
    ParseHexMinimal(BitsToNat(s1), true);
    ParseHexMinimal(BitsToNat(s2), true);
    assert BitsToNat(s1) == BitsToNat(s2);
    BitsRoundTrip(s1);
    BitsRoundTrip(s2);
  }

  /** Pigeonhole over bands: if the first k bands all differ, the bits of
      those bands differ in at least k positions. */
  lemma {:induction false} DifferingBandsCount(bits1: seq<bool>, bits2: seq<bool>, bands: int, k: int)
    requires |bits1| == |bits2| && 0 < bands && 0 <= k <= bands
    requires forall b :: 0 <= b < k ==> BandSignature(bits1, b, bands) != BandSignature(bits2, b, bands)
    ensures |BandsPrefix(bits1, k, bands)| == |BandsPrefix(bits2, k, bands)|
    ensures BitDiff(BandsPrefix(bits1, k, bands), BandsPrefix(bits2, k, bands)) >= k
  {
    if k > 0 {
      DifferingBandsCount(bits1, bits2, bands, k - 1);
      DifferingBandStep(bits1, bits2, bands, k);
    }
  }

  /** One more differing band adds at least one differing bit. */
  lemma DifferingBandStep(bits1: seq<bool>, bits2: seq<bool>, bands: int, k: int)
    requires |bits1| == |bits2| && 0 < k <= bands
    requires BandSignature(bits1, k - 1, bands) != BandSignature(bits2, k - 1, bands)
    requires |BandsPrefix(bits1, k - 1, bands)| == |BandsPrefix(bits2, k - 1, bands)|
    ensures |BandsPrefix(bits1, k, bands)| == |BandsPrefix(bits2, k, bands)|
    ensures BitDiff(BandsPrefix(bits1, k, bands), BandsPrefix(bits2, k, bands))
         >= BitDiff(BandsPrefix(bits1, k - 1, bands), BandsPrefix(bits2, k - 1, bands)) + 1
  {
    BandsPrefixStep(bits1, k, bands);
    BandsPrefixStep(bits2, k, bands);
    var p1, p2 := BandsPrefix(bits1, k - 1, bands), BandsPrefix(bits2, k - 1, bands);
    var d1, d2 := BandBits(bits1, k - 1, bands), BandBits(bits2, k - 1, bands);
    if d1 == d2 {
      assert false;
    }
    BitDiffZero(d1, d2);
    BitDiffAppend(p1, d1, p2, d2);
  }

  /** The LSH guarantee: bit lists that differ in fewer positions than there
      are bands agree on at least one band signature. */
  lemma LshSharedBand(bits1: seq<bool>, bits2: seq<bool>, bands: int)
    requires |bits1| == |bits2| && bands > 0
    requires BitDiff(bits1, bits2) < bands
    ensures exists b :: 0 <= b < bands && LshBands(bits1, bands)[b] == LshBands(bits2, bands)[b]
  {
    BandsPrefixAll(bits1, bands);
    BandsPrefixAll(bits2, bands);
    if forall b :: 0 <= b < bands ==> BandSignature(bits1, b, bands) != BandSignature(bits2, b, bands) {
      DifferingBandsCount(bits1, bits2, bands, bands);
      assert false;
    }
    var b :| 0 <= b < bands && BandSignature(bits1, b, bands) == BandSignature(bits2, b, bands);
    assert LshBands(bits1, bands)[b] == LshBands(bits2, bands)[b];
  }

  // ---------------------------------------------------------------------
  // Video and image hashes
  // ---------------------------------------------------------------------

  /** The bytes fed to SHA-256, frame after frame. */
  function Pixels(frames: seq<Frame>): seq<bv8>
  {
    if |frames| == 0 then [] else Pixels(frames[..|frames| - 1]) + frames[|frames| - 1].pixels
  }

  function VideoHashesOf(frames: seq<Frame>, lshBands: int, sha256: seq<bv8> -> string): VideoHashes
  {
    var hs := FrameHashesOf(frames);
    VideoHashes(sha256(Pixels(frames)), PerceptualHashOf(hs), LshBands(FrameBitsOf(hs), lshBands))
  }

  /** `compute_video_hash`: content hash, perceptual hash and band signatures
      of the sampled frames. */
  function VideoHashSpec(video: VideoSource, numFrames: int, lshBands: int, sha256: seq<bv8> -> string)
    : Result<VideoHashes, HashError>
  {
    match KeyFrames(video, numFrames)
    case Err(e) => Err(e)
    case Ok(frames) => Ok(VideoHashesOf(frames, lshBands, sha256))
  }

  /** The inner bit loop: the 64 bits of h, most significant first
      (`(h >> (63 - i)) & 1`), appended to bits. */
  method AppendHashBits(bits: seq<bool>, h: nat) returns (r: seq<bool>)
    ensures r == bits + NatToBits(h, HashBits)
  {
    r := bits;
    var i := 0;
    while i < HashBits
      invariant 0 <= i <= HashBits
      invariant r == bits + NatToBits(h, HashBits)[..i]
    {
      NatToBitsAt(h, HashBits, i);
      assert NatToBits(h, HashBits)[..i + 1] == NatToBits(h, HashBits)[..i] + [NatToBits(h, HashBits)[i]];
      r := r + [(h / Pow2(HashBits - 1 - i)) % 2 == 1];
      i := i + 1;
    }
    assert NatToBits(h, HashBits)[..HashBits] == NatToBits(h, HashBits);
  }

  /** The bytes of the sampled frames, concatenated for SHA-256. */
  method ConcatPixels(frames: seq<Frame>) returns (data: seq<bv8>)
    ensures data == Pixels(frames)
  {
    data := [];
    var i := 0;
    while i < |frames|
      invariant 0 <= i <= |frames|
      invariant data == Pixels(frames[..i])
    {
      assert frames[..i + 1][..i] == frames[..i];
      data := data + frames[i].pixels;
      i := i + 1;
    }
    assert frames[..i] == frames;
  }

  /** The per-frame loop of `compute_video_hash`: each frame's hex segment
      and its 64 bits. */
  method HashFrames(frames: seq<Frame>) returns (frameHashes: seq<string>, allBits: seq<bool>)
    ensures frameHashes == FrameHexes(FrameHashesOf(frames))
    ensures allBits == FrameBitsOf(FrameHashesOf(frames))
  {
    ghost var hs := FrameHashesOf(frames);
    frameHashes := [];
    allBits := [];
    var i := 0;
    while i < |frames|
      invariant 0 <= i <= |frames|
      invariant frameHashes == FrameHexes(hs[..i])
      invariant allBits == FrameBitsOf(hs[..i])
    {
      var h := FramePHash(frames[i].lowFreq);
      frameHashes := frameHashes + [FrameHex(h)];
      allBits := AppendHashBits(allBits, h);
      assert hs[..i + 1][..i] == hs[..i];
      i := i + 1;
    }
    assert hs[..i] == hs;
  }

  method ComputeVideoHash(video: VideoSource, numFrames: int, lshBands: int, sha256: seq<bv8> -> string)
    returns (r: Result<VideoHashes, HashError>)
    ensures r == VideoHashSpec(video, numFrames, lshBands, sha256)
  {
    var extracted := ExtractKeyFrames(video, numFrames);
    if extracted.Err? {
      return Err(extracted.error);
    }
    var frames := extracted.value;
    var data := ConcatPixels(frames);
    var contentHash := sha256(data);
    var frameHashes, allBits := HashFrames(frames);
    var perceptualHash := Join(frameHashes, '-');
    var bands := ComputeLshBands(allBits, lshBands);
    return Ok(VideoHashes(contentHash, perceptualHash, bands));
  }

  /** `compute_image_hash`: a single frame whose hash is repeated
      `numFrames` times (no copies for a non-positive count). */
  function ImageHashSpec(image: Option<Frame>, numFrames: int, lshBands: int, sha256: seq<bv8> -> string)
    : Result<VideoHashes, HashError>
  {
    match image
    case None => Err(CannotReadImage)
    case Some(frame) =>
      var n := if numFrames > 0 then numFrames else 0;
      var hs := seq(n, _ => FrameHashValue(frame.lowFreq));
      Ok(VideoHashes(sha256(frame.pixels), PerceptualHashOf(hs), LshBands(FrameBitsOf(hs), lshBands)))
  }

  method ComputeImageHash(image: Option<Frame>, numFrames: int, lshBands: int, sha256: seq<bv8> -> string)
    returns (r: Result<VideoHashes, HashError>)
    ensures r == ImageHashSpec(image, numFrames, lshBands, sha256)
  {
    if image.None? {
      return Err(CannotReadImage);
    }
    var frame := image.value;
    var contentHash := sha256(frame.pixels);
    var h := FramePHash(frame.lowFreq);
    var n := if numFrames > 0 then numFrames else 0;
    ghost var hs := seq(n, _ => h);
    var frameHashes := seq(n, _ => FrameHex(h));
    assert frameHashes == FrameHexes(hs);
    var perceptualHash := Join(frameHashes, '-');
    var allBits: seq<bool> := [];
    var k := 0;
    while k < n
      invariant 0 <= k <= n
      invariant allBits == FrameBitsOf(hs[..k])
    {
      allBits := AppendHashBits(allBits, h);
      assert hs[..k + 1][..k] == hs[..k];
      k := k + 1;
    }
    assert hs[..k] == hs;
    var bands := ComputeLshBands(allBits, lshBands);
    return Ok(VideoHashes(contentHash, perceptualHash, bands));
  }

  /** An image hashes like a video whose sampled frames are all that image
      (apart from the content hash). */
  lemma ImageHashMatchesVideoFormat(frame: Frame, numFrames: nat, lshBands: int, sha256: seq<bv8> -> string)
    ensures var img := ImageHashSpec(Some(frame), numFrames, lshBands, sha256).value;
      var vid := VideoHashesOf(seq(numFrames, _ => frame), lshBands, sha256);
      img.perceptualHash == vid.perceptualHash && img.lshBands == vid.lshBands
  {
    assert FrameHashesOf(seq(numFrames, _ => frame)) == seq(numFrames, _ => FrameHashValue(frame.lowFreq));
  }

  // ---------------------------------------------------------------------
  // Distance
  // ---------------------------------------------------------------------

  /** Distance between two frame segments: the Hamming distance of their
      values, or the full 64 bits when either is not hexadecimal. */
  function SegmentDistance(a: string, b: string): nat
  {
    match (ParseHex(a), ParseHex(b))
    case (Some(x), Some(y)) => Hamming(x, y)
    case _ => HashBits
  }

  function PrefixDistance(s1: seq<string>, s2: seq<string>, n: nat): nat
    requires n <= |s1| && n <= |s2|
  {
    if n == 0 then 0 else PrefixDistance(s1, s2, n - 1) + SegmentDistance(s1[n - 1], s2[n - 1])
  }

  function Min(a: int, b: int): int { if a <= b then a else b }

  /** `compute_total_hamming_distance`: segment distances over the common
      frames plus 64 for every frame only one of the hashes has. */
  function TotalDistance(p1: string, p2: string): nat
  {
    var h1, h2 := Split(p1, '-'), Split(p2, '-');
    PrefixDistance(h1, h2, Min(|h1|, |h2|)) +
      (if |h1| >= |h2| then |h1| - |h2| else |h2| - |h1|) * HashBits
  }

  method TotalHammingDistance(p1: string, p2: string) returns (d: nat)
    ensures d == TotalDistance(p1, p2)
  {
    var hashes1 := Split(p1, '-');
    var hashes2 := Split(p2, '-');
    var minLen := Min(|hashes1|, |hashes2|);
    d := 0;
    var i := 0;
    while i < minLen
      invariant 0 <= i <= minLen
      invariant d == PrefixDistance(hashes1, hashes2, i)
    {
      var h1 := ParseHex(hashes1[i]);
      var h2 := ParseHex(hashes2[i]);
      if h1.Some? && h2.Some? {
        d := d + Hamming(h1.value, h2.value);
      } else {
        d := d + HashBits;
      }
      i := i + 1;
    }
    var diff := if |hashes1| >= |hashes2| then |hashes1| - |hashes2| else |hashes2| - |hashes1|;
    d := d + diff * HashBits;
  }

  /** `are_videos_similar`: similar when the total distance is within the
      threshold. */
  method AreVideosSimilar(p1: string, p2: string, threshold: int) returns (similar: bool, d: nat)
    ensures d == TotalDistance(p1, p2)
    ensures similar <==> d <= threshold
  {
    d := TotalHammingDistance(p1, p2);
    similar := d <= threshold;
  }

  lemma {:induction false} PrefixDistanceSymmetric(s1: seq<string>, s2: seq<string>, n: nat)
    requires n <= |s1| && n <= |s2|
    ensures PrefixDistance(s1, s2, n) == PrefixDistance(s2, s1, n)
  {
    if n > 0 {
      PrefixDistanceSymmetric(s1, s2, n - 1);
      var a, b := s1[n - 1], s2[n - 1];
      if ParseHex(a).Some? && ParseHex(b).Some? {
        HammingMetric(ParseHex(a).value, ParseHex(b).value);
      }
    }
  }

  /** The distance does not depend on the order of its arguments. */
  lemma TotalDistanceSymmetric(p1: string, p2: string)
    ensures TotalDistance(p1, p2) == TotalDistance(p2, p1)
  {
    var h1, h2 := Split(p1, '-'), Split(p2, '-');
    PrefixDistanceSymmetric(h1, h2, Min(|h1|, |h2|));
  }

  /** Every frame hash in `hs` fits in 64 bits. */
  predicate HashesFit(hs: seq<nat>)
  {
    forall i :: 0 <= i < |hs| ==> hs[i] < Pow2(HashBits)
  }

  lemma {:induction false} PrefixDistanceEncoded(hs1: seq<nat>, hs2: seq<nat>, n: nat)
    requires |hs1| == |hs2| && n <= |hs1|
    requires HashesFit(hs1) && HashesFit(hs2)
    ensures PrefixDistance(FrameHexes(hs1), FrameHexes(hs2), n) == BitDiff(FrameBitsOf(hs1[..n]), FrameBitsOf(hs2[..n]))
  {
    if n > 0 {
      PrefixDistanceEncoded(hs1, hs2, n - 1);
      PrefixDistanceStep(hs1, hs2, n);
    }
  }

  /** Appending one frame to both prefixes adds that frame's segment distance. */
  lemma PrefixDistanceStep(hs1: seq<nat>, hs2: seq<nat>, n: nat)
    requires |hs1| == |hs2| && 1 <= n <= |hs1|
    requires hs1[n - 1] < Pow2(HashBits) && hs2[n - 1] < Pow2(HashBits)
    ensures BitDiff(FrameBitsOf(hs1[..n]), FrameBitsOf(hs2[..n]))
         == BitDiff(FrameBitsOf(hs1[..n - 1]), FrameBitsOf(hs2[..n - 1])) + SegmentDistance(FrameHex(hs1[n - 1]), FrameHex(hs2[n - 1]))
    ensures PrefixDistance(FrameHexes(hs1), FrameHexes(hs2), n)
         == PrefixDistance(FrameHexes(hs1), FrameHexes(hs2), n - 1) + SegmentDistance(FrameHex(hs1[n - 1]), FrameHex(hs2[n - 1]))
  {
    var x, y := hs1[n - 1], hs2[n - 1];
    assert FrameHexes(hs1)[n - 1] == FrameHex(x) && FrameHexes(hs2)[n - 1] == FrameHex(y);
    var p1, p2 := FrameBitsOf(hs1[..n - 1]), FrameBitsOf(hs2[..n - 1]);
    EncodedSegmentDistance(x, y);
    FrameBitsOfPrefix(hs1, n);
    FrameBitsOfPrefix(hs2, n);
    BitDiffAppend(p1, NatToBits(x, HashBits), p2, NatToBits(y, HashBits));
  }

  /** Two encoded 64-bit frame hashes are as far apart as their bits. */
  lemma EncodedSegmentDistance(x: nat, y: nat)
    requires x < Pow2(HashBits) && y < Pow2(HashBits)
    ensures SegmentDistance(FrameHex(x), FrameHex(y)) == BitDiff(NatToBits(x, HashBits), NatToBits(y, HashBits))
  {
    FrameHexRoundTrip(x);
    FrameHexRoundTrip(y);
    HammingIsBitDiff(x, y, HashBits);
  }

  lemma FrameBitsOfPrefix(hs: seq<nat>, n: nat)
    requires 1 <= n <= |hs|
    ensures FrameBitsOf(hs[..n]) == FrameBitsOf(hs[..n - 1]) + NatToBits(hs[n - 1], HashBits)
  {
    assert hs[..n][..n - 1] == hs[..n - 1];
  }

  /** For two perceptual hashes built from the same number of 64-bit frame
      hashes, the total distance counts the differing bits of their bit
      vectors: it is a true Hamming distance over all frames. */
  lemma EncodedDistanceIsBitDiff(hs1: seq<nat>, hs2: seq<nat>)
    requires |hs1| == |hs2| >= 1
    requires HashesFit(hs1) && HashesFit(hs2)
    ensures TotalDistance(PerceptualHashOf(hs1), PerceptualHashOf(hs2)) == BitDiff(FrameBitsOf(hs1), FrameBitsOf(hs2))
  {
    var e1, e2 := FrameHexes(hs1), FrameHexes(hs2);
    forall i | 0 <= i < |hs1| ensures '-' !in e1[i] && '-' !in e2[i] {
      FrameHexRoundTrip(hs1[i]);
      FrameHexRoundTrip(hs2[i]);
    }
    SplitJoin(e1, '-');
    SplitJoin(e2, '-');
    PrefixDistanceEncoded(hs1, hs2, |hs1|);
    assert hs1[..|hs1|] == hs1 && hs2[..|hs2|] == hs2;
  }

  /** A perceptual hash is at distance zero from itself when it is built from
      at least one 64-bit frame hash. */
  lemma EncodedDistanceToSelf(hs: seq<nat>)
    requires |hs| >= 1
    requires HashesFit(hs)
    ensures TotalDistance(PerceptualHashOf(hs), PerceptualHashOf(hs)) == 0
  {
    EncodedDistanceIsBitDiff(hs, hs);
    BitDiffZero(FrameBitsOf(hs), FrameBitsOf(hs));
  }

  lemma FrameHashesFit(frames: seq<Frame>)
    ensures HashesFit(FrameHashesOf(frames))
  {
    forall i | 0 <= i < |frames| ensures FrameHashesOf(frames)[i] < Pow2(HashBits) {
      FrameHashBits(frames[i].lowFreq);
    }
  }

  /** Why LSH lookup finds near-duplicates: two videos hashed from the same
      number of frames whose perceptual hashes are fewer bits apart than there
      are bands share at least one band signature, so each is a lookup
      candidate of the other. */
  lemma NearDuplicatesShareBand(frames1: seq<Frame>, frames2: seq<Frame>, lshBands: int, sha256: seq<bv8> -> string)
    requires |frames1| == |frames2| >= 1
    requires lshBands > 0
    requires TotalDistance(VideoHashesOf(frames1, lshBands, sha256).perceptualHash,
                           VideoHashesOf(frames2, lshBands, sha256).perceptualHash) < lshBands
    ensures exists b :: (0 <= b < lshBands &&
      VideoHashesOf(frames1, lshBands, sha256).lshBands[b] == VideoHashesOf(frames2, lshBands, sha256).lshBands[b])
  {
    var hs1, hs2 := FrameHashesOf(frames1), FrameHashesOf(frames2);
    FrameHashesFit(frames1);
    FrameHashesFit(frames2);
    EncodedDistanceIsBitDiff(hs1, hs2);
    LshSharedBand(FrameBitsOf(hs1), FrameBitsOf(hs2), lshBands);
  }
}
