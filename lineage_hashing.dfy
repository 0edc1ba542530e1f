/** The hash arithmetic of the lineage engine: LSH bands cut from the hex
    characters of a perceptual hash (a different scheme from the fingerprint
    cache's bit bands), the whole-hash Hamming distance with its
    character-mismatch fallback, and the hash-distance mutation tags. */
module LineageHashing {
  import opened Wrappers
  import opened Bits
  import opened Text
  import opened Numerals

  /** The hash with every '-' removed. */
  function CleanHash(h: string): (r: string)
    ensures '-' !in r && |r| <= |h|
  {
    RemoveChar(h, '-')
  }

  /** First character of band i when every band has `size` characters. */
  lemma BandOffsets(i: int, size: nat, bands: int, len: nat)
    requires 0 <= i < bands && size * bands <= len
    ensures 0 <= i * size <= i * size + size <= len
    ensures i < bands - 1 ==> i * size + size == (i + 1) * size
  {
    MulMono(0, i, size);
    MulMono(i + 1, bands, size);
    assert (i + 1) * size == i * size + size;
    assert bands * size == size * bands;
  }

  lemma BandSizeFits(len: nat, bands: int)
    requires bands > 0
    ensures len / bands * bands <= len
  {
    assert len == bands * (len / bands) + len % bands;
  }

  /** Band i of the cleaned hash when bands are `size` characters wide: the
      last band runs to the end. */
  function BandSlice(clean: string, i: int, bands: int, size: nat): string
    requires 0 <= i < bands && size * bands <= |clean|
  {
    BandOffsets(i, size, bands, |clean|);
    clean[i * size..if i < bands - 1 then i * size + size else |clean|]
  }

  /** Band i of the cleaned hash: `len // bands` characters, the last band
      running to the end. */
  function HexBand(clean: string, i: int, bands: int): string
    requires 0 <= i < bands
  {
    BandSizeFits(|clean|, bands);
    assert |clean| / bands * bands == (|clean| / bands) * bands;
    BandSlice(clean, i, bands, |clean| / bands)
  }

  /** `_compute_lsh_bands` of the lineage engine: exactly `bands` slices (none
      for a negative band count; zero bands divide by zero in the source). */
  function HexBands(h: string, bands: int): (r: seq<string>)
    requires bands != 0
    ensures |r| == if bands > 0 then bands else 0
  {
    if bands < 0 then []
    else
      var clean := CleanHash(h);
      seq(bands, i requires 0 <= i < bands => HexBand(clean, i, bands))
  }

  function Concat(parts: seq<string>): string
  {
    if |parts| == 0 then "" else Concat(parts[..|parts| - 1]) + parts[|parts| - 1]
  }

  /** The first k bands of width `size`, concatenated, are the first k * size
      characters. */
  lemma {:induction false} BandSlicesPrefix(clean: string, bands: int, size: nat, k: nat)
    requires 0 < bands && k < bands && size * bands <= |clean|
    ensures k * size <= |clean|
    ensures Concat(seq(k, i requires 0 <= i < k => BandSlice(clean, i, bands, size))) == clean[..k * size]
  {
    if k == 0 {
      assert k * size == 0;
    } else {
      var parts := seq(k, i requires 0 <= i < k => BandSlice(clean, i, bands, size));
      BandSlicesPrefix(clean, bands, size, k - 1);
      BandOffsets(k - 1, size, bands, |clean|);
      var lo := (k - 1) * size;
      assert k * size == lo + size;
      assert parts[..k - 1] == seq(k - 1, i requires 0 <= i < k - 1 => BandSlice(clean, i, bands, size));
      assert parts[k - 1] == clean[lo..lo + size];
      assert clean[..lo + size] == clean[..lo] + clean[lo..lo + size];
    }
  }

  /** The bands tile the cleaned hash: concatenated they give it back. */
  lemma HexBandsConcat(h: string, bands: int)
    requires bands > 0
    ensures Concat(HexBands(h, bands)) == CleanHash(h)
  {
    var clean := CleanHash(h);
    var size := |clean| / bands;
    BandSizeFits(|clean|, bands);
    assert HexBands(h, bands) == seq(bands, i requires 0 <= i < bands => BandSlice(clean, i, bands, size));
    SlicesConcat(clean, bands, size);
  }

  /** Bands of width `size`, the last one running to the end, tile the
      text. */
  lemma SlicesConcat(clean: string, bands: int, size: nat)
    requires bands > 0 && size * bands <= |clean|
    ensures Concat(seq(bands, i requires 0 <= i < bands => BandSlice(clean, i, bands, size))) == clean
  {
    var parts := seq(bands, i requires 0 <= i < bands => BandSlice(clean, i, bands, size));
    BandSlicesPrefix(clean, bands, size, bands - 1);
    var lo := (bands - 1) * size;
    assert parts[..bands - 1] == seq(bands - 1, i requires 0 <= i < bands - 1 => BandSlice(clean, i, bands, size));
    assert parts[bands - 1] == clean[lo..];
    assert clean == clean[..lo] + clean[lo..];
  }

  /** Every band but the last has exactly `len // bands` characters. */
  lemma HexBandWidth(h: string, bands: int, i: int)
    requires 0 <= i < bands - 1
    ensures |HexBands(h, bands)[i]| == |CleanHash(h)| / bands
  {
    var clean := CleanHash(h);
    BandSizeFits(|clean|, bands);
    BandOffsets(i, |clean| / bands, bands, |clean|);
  }

  /** One pass of the band loop cuts exactly band i. */
  lemma BandStep(clean: string, i: int, bands: int, bandSize: nat, start: int, end: int)
    requires 0 <= i < bands && bandSize == |clean| / bands
    requires start == i * bandSize && end == if i < bands - 1 then start + bandSize else |clean|
    ensures 0 <= start <= end <= |clean| && HexBand(clean, i, bands) == clean[start..end]
  {
    BandSizeFits(|clean|, bands);
    BandOffsets(i, bandSize, bands, |clean|);
  }

  /** The loop of `_compute_lsh_bands`. */
  method ComputeHexBands(h: string, bands: int) returns (r: seq<string>)
    requires bands != 0
    ensures r == HexBands(h, bands)
  {
    var clean := RemoveChar(h, '-');
    r := [];
    if bands < 0 {
      return;
    }
    var bandSize := |clean| / bands;
    var i := 0;
    while i < bands
      invariant 0 <= i <= bands && |r| == i
      invariant forall k :: 0 <= k < i ==> r[k] == HexBand(clean, k, bands)
    {
      var start := i * bandSize;
      var end := if i < bands - 1 then start + bandSize else |clean|;
      BandStep(clean, i, bands, bandSize, start, end);
      var band := clean[start..end];
      BandsGrow(r, band, clean, i, bands);
      r := r + [band];
      i := i + 1;
    }
    AllBands(r, h, bands);
  }

  lemma BandsGrow(r: seq<string>, band: string, clean: string, i: int, bands: int)
    requires 0 <= i < bands && |r| == i && band == HexBand(clean, i, bands)
    requires forall k :: 0 <= k < i ==> r[k] == HexBand(clean, k, bands)
    ensures forall k :: 0 <= k < i + 1 ==> (r + [band])[k] == HexBand(clean, k, bands)
  {
  }

  lemma AllBands(r: seq<string>, h: string, bands: int)
    requires bands > 0 && |r| == bands
    requires forall k :: 0 <= k < bands ==> r[k] == HexBand(CleanHash(h), k, bands)
    ensures r == HexBands(h, bands)
  {
  }

  /** Positions where two strings differ, over their common prefix length
      (`sum(c1 != c2 for c1, c2 in zip(a, b))`). */
  function Mismatches(a: string, b: string): (r: nat)
    ensures r <= |a| && r <= |b|
  {
    if |a| == 0 || |b| == 0 then 0 else (if a[0] != b[0] then 1 else 0) + Mismatches(a[1..], b[1..])
  }

  lemma {:induction false} MismatchesSymmetric(a: string, b: string)
    ensures Mismatches(a, b) == Mismatches(b, a)
  {
    if |a| > 0 && |b| > 0 {
      MismatchesSymmetric(a[1..], b[1..]);
    }
  }

  lemma {:induction false} MismatchesSelf(a: string)
    ensures Mismatches(a, a) == 0
  {
    if |a| > 0 {
      MismatchesSelf(a[1..]);
    }
  }

  /** `_hamming_distance`: the differing bits of the two de-dashed hashes read
      as hexadecimal numbers, or the mismatching characters when either does
      not parse. */
  function HexDistance(h1: string, h2: string): nat
  {
    var c1, c2 := CleanHash(h1), CleanHash(h2);
    match (ParseHex(c1), ParseHex(c2))
    case (Some(x), Some(y)) => Hamming(x, y)
    case _ => Mismatches(c1, c2)
  }

  /** The distance is symmetric and zero from a hash to itself. */
  lemma HexDistanceSymmetric(h1: string, h2: string)
    ensures HexDistance(h1, h2) == HexDistance(h2, h1)
  {
    var c1, c2 := CleanHash(h1), CleanHash(h2);
    if ParseHex(c1).Some? && ParseHex(c2).Some? {
      HammingMetric(ParseHex(c1).value, ParseHex(c2).value);
    } else {
      MismatchesSymmetric(c1, c2);
    }
  }

  lemma HexDistanceSelf(h: string)
    ensures HexDistance(h, h) == 0
  {
    var c := CleanHash(h);
    if ParseHex(c).Some? {
      HammingMetric(ParseHex(c).value, ParseHex(c).value);
    } else {
      MismatchesSelf(c);
    }
  }

  /** Two valid hexadecimal hashes are at distance zero exactly when they
      denote the same number. */
  lemma HexDistanceZero(h1: string, h2: string)
    requires ParseHex(CleanHash(h1)).Some? && ParseHex(CleanHash(h2)).Some?
    ensures HexDistance(h1, h2) == 0 <==> ParseHex(CleanHash(h1)) == ParseHex(CleanHash(h2))
  {
    HammingMetric(ParseHex(CleanHash(h1)).value, ParseHex(CleanHash(h2)).value);
  }

  /** The hash-distance bucket of `_detect_mutations`. */
  function HashMutationTags(d: nat): (tags: seq<string>)
    ensures |tags| <= 1
  {
    if 1 <= d <= 5 then ["minor_compression"]
    else if 6 <= d <= 15 then ["moderate_edit"]
    else if 16 <= d <= 30 then ["significant_modification"]
    else if d > 30 then ["major_transformation"]
    else []
  }

  /** Distance 0 gives no tag, any other distance exactly one, by bucket. */
  lemma HashMutationTagsBuckets(d: nat)
    ensures HashMutationTags(d) == [] <==> d == 0
    ensures HashMutationTags(d) == ["minor_compression"] <==> 1 <= d <= 5
    ensures HashMutationTags(d) == ["moderate_edit"] <==> 6 <= d <= 15
    ensures HashMutationTags(d) == ["significant_modification"] <==> 16 <= d <= 30
    ensures HashMutationTags(d) == ["major_transformation"] <==> d > 30
  {
  }

  /** `_detect_mutations`: the hash tag (when both hashes are non-empty)
      followed by the tags found in the video file, which are an input here;
      nothing found is "unknown_modification". */
  function DetectMutations(newHash: string, parentHash: string, fileTags: seq<string>): (tags: seq<string>)
    ensures |tags| >= 1
    ensures |tags| <= |fileTags| + 1
    ensures |fileTags| <= |tags| && tags[|tags| - |fileTags|..] == fileTags
  {
    var hashTags := if newHash != "" && parentHash != "" then HashMutationTags(HexDistance(newHash, parentHash)) else [];
    var all := hashTags + fileTags;
    if |all| == 0 then ["unknown_modification"] else all
  }

  /** Identical non-empty hashes and no file evidence give the placeholder
      tag. */
  lemma DetectMutationsIdentical(h: string)
    requires h != ""
    ensures DetectMutations(h, h, []) == ["unknown_modification"]
  {
    HexDistanceSelf(h);
  }
}
