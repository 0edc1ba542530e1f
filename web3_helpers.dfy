/** The blockchain client's value conversions (hex text to `bytes32` and
    back, confidence to basis points, coordinates to micro-degrees) and the
    guard clauses in front of its contract calls. The contract calls,
    signing and the RPC connection are not part of this model. */
module Web3Helpers {
  import opened Wrappers
  import opened Text
  import opened Numerals

  /** One byte, 0 to 255. */
  type Byte = b: int | 0 <= b < 256

  /** The characters `bytes.fromhex` skips between byte pairs: ASCII
      whitespace. */
  predicate IsSpace(c: char)
  {
    c == ' ' || c == '\t' || c == '\n' || c == '\r' || c == 11 as char || c == 12 as char
  }

  /** `bytes.fromhex(s)` when `skipSpace` holds: whitespace before a byte
      pair is skipped, a pair needs two hex digits, anything else is a
      ValueError (None). With `skipSpace` false no whitespace is accepted. */
  function FromHex(s: string, skipSpace: bool): (r: Option<seq<Byte>>)
    ensures r.Some? && !skipSpace ==> 2 * |r.value| == |s|
  {
    if |s| == 0 then Some([])
    else if skipSpace && IsSpace(s[0]) then FromHex(s[1..], skipSpace)
    else if |s| < 2 then None
    else
      match (HexDigitValue(s[0]), HexDigitValue(s[1]), FromHex(s[2..], skipSpace))
      case (Some(hi), Some(lo), Some(rest)) => Some([hi * 16 + lo] + rest)
      case _ => None
  }

  /** `_bytes32` as written: every "0x" removed, right-padded with '0' to
      64 characters, cut to 64, then `bytes.fromhex`. */
  function Bytes32(hex: string): (r: Option<seq<Byte>>)
    ensures r.Some? ==> |r.value| <= 32
  {
    FromHexShort(Padded64(hex), true);
    FromHex(Padded64(hex), true)
  }

  /** Every byte `bytes.fromhex` yields consumes two characters. */
  lemma {:induction false} FromHexShort(s: string, skipSpace: bool)
    ensures FromHex(s, skipSpace).Some? ==> 2 * |FromHex(s, skipSpace).value| <= |s|
  {
    if |s| > 0 {
      if skipSpace && IsSpace(s[0]) {
        FromHexShort(s[1..], skipSpace);
      } else if |s| >= 2 {
        FromHexShort(s[2..], skipSpace);
      }
    }
  }

  /** The 64 hex characters `_bytes32` hands to `bytes.fromhex`. */
  function Padded64(hex: string): (r: string)
    ensures |r| == 64
  {
    PyPrefix(LJust(RemoveAll(hex, "0x"), 64, '0'), 64)
  }

  /** `_bytes32` with the evident intent: 32 bytes or an error, so the
      padded text must be 64 hex digits with no whitespace. */
  function Bytes32Strict(hex: string): (r: Option<seq<Byte>>)
    ensures r.Some? ==> |r.value| == 32
  {
    FromHex(Padded64(hex), false)
  }

  /** `b.hex()`: two lower-case digits per byte. */
  function HexOfBytes(b: seq<Byte>): (r: string)
    ensures |r| == 2 * |b|
    ensures forall i :: 0 <= i < |r| ==> HexDigitValue(r[i]).Some? && r[i] != 'x' && !IsSpace(r[i])
  {
    if |b| == 0 then ""
    else
      var v := b[0];
      [HexDigit(v / 16, false), HexDigit(v % 16, false)] + HexOfBytes(b[1..])
  }

  /** `_to_hex`. */
  function ToHex(b: seq<Byte>): (r: string)
    ensures |r| == 2 + 2 * |b| && r[..2] == "0x"
  {
    "0x" + HexOfBytes(b)
  }

  /** A leading pair of hex digits is one byte in front of the rest. */
  lemma FromHexPair(c0: char, c1: char, t: string, skipSpace: bool)
    requires HexDigitValue(c0).Some? && HexDigitValue(c1).Some?
    ensures FromHex([c0, c1] + t, skipSpace) ==
      if FromHex(t, skipSpace).None? then None
      else Some([HexDigitValue(c0).value * 16 + HexDigitValue(c1).value] + FromHex(t, skipSpace).value)
  {
    var s := [c0, c1] + t;
    assert s[0] == c0 && s[1] == c1 && s[2..] == t;
    assert !IsSpace(c0);
  }

  lemma {:induction false} FromHexOfBytes(b: seq<Byte>, skipSpace: bool)
    ensures FromHex(HexOfBytes(b), skipSpace) == Some(b)
  {
    if |b| > 0 {
      var v := b[0];
      var hi, lo := HexDigit(v / 16, false), HexDigit(v % 16, false);
      HexDigitRoundTrip(v / 16, false);
      HexDigitRoundTrip(v % 16, false);
      assert HexOfBytes(b) == [hi, lo] + HexOfBytes(b[1..]);
      FromHexOfBytes(b[1..], skipSpace);
      FromHexPair(hi, lo, HexOfBytes(b[1..]), skipSpace);
      assert [b[0]] + b[1..] == b;
    }
  }

  /** Removing a pattern whose last character never occurs leaves the
      text as it is. */
  lemma {:induction false} RemoveAllAbsent(s: string, pat: string)
    requires |pat| > 0 && pat[|pat| - 1] !in s
    ensures RemoveAll(s, pat) == s
  {
    if |s| > 0 {
      if |pat| <= |s| {
        assert s[|pat| - 1] in s;
        assert s[..|pat|][|pat| - 1] != pat[|pat| - 1];
      }
      assert !StartsWith(s, pat);
      RemoveAllAbsent(s[1..], pat);
      assert [s[0]] + s[1..] == s;
    }
  }

  /** `_bytes32(_to_hex(b)) == b` for every 32-byte value, in both the
      as-written and the strict reading. */
  lemma Bytes32RoundTrip(b: seq<Byte>)
    requires |b| == 32
    ensures Bytes32(ToHex(b)) == Some(b)
    ensures Bytes32Strict(ToHex(b)) == Some(b)
  {
    var h := HexOfBytes(b);
    assert StartsWith(ToHex(b), "0x");
    assert ToHex(b)[2..] == h;
    RemoveAllAbsent(h, "0x");
    assert RemoveAll(ToHex(b), "0x") == h;
    assert Padded64(ToHex(b)) == h;
    FromHexOfBytes(b, true);
    FromHexOfBytes(b, false);
  }

  /** `n` pairs of '0' digits. */
  function ZeroPairs(n: nat): (r: string)
    ensures |r| == 2 * n && forall i :: 0 <= i < |r| ==> r[i] == '0'
  {
    if n == 0 then "" else "00" + ZeroPairs(n - 1)
  }

  /** ... which parse to `n` zero bytes. */
  lemma {:induction false} FromHexZeros(n: nat)
    ensures FromHex(ZeroPairs(n), true).Some? && |FromHex(ZeroPairs(n), true).value| == n
  {
    if n > 0 {
      FromHexZeros(n - 1);
      FromHexPair('0', '0', ZeroPairs(n - 1), true);
      assert ZeroPairs(n) == ['0', '0'] + ZeroPairs(n - 1);
    }
  }

  /** Two spaces contain no "0x" and are padded with 62 zeros. */
  lemma PaddedSpaces()
    ensures Padded64("  ") == "  " + ZeroPairs(31)
  {
    RemoveAllAbsent("  ", "0x");
    var l := LJust("  ", 64, '0');
    var p := "  " + ZeroPairs(31);
    assert |l| == 64 == |p|;
    forall i | 0 <= i < 64
      ensures l[i] == p[i]
    {
      if i < 2 {
        assert l[..2] == "  ";
        assert l[i] == l[..2][i];
      }
    }
    assert l == p;
  }

  /** The skipping parse passes over two leading spaces. */
  lemma SkipTwoSpaces(z: string)
    ensures FromHex("  " + z, true) == FromHex(z, true)
  {
    var p := "  " + z;
    assert p[1..] == " " + z;
    assert p[1..][1..] == z;
  }

  /** The strict parse refuses a leading space. */
  lemma StrictRejectsSpace(z: string)
    ensures FromHex("  " + z, false).None?
  {
    assert HexDigitValue(' ').None?;
  }

  /** Because `bytes.fromhex` skips whitespace, `_bytes32` of two spaces
      pads to two spaces and 62 zeros and returns only 31 bytes. */
  lemma Bytes32ShortOnWhitespace()
    ensures Bytes32("  ").Some? && |Bytes32("  ").value| == 31
    ensures Bytes32Strict("  ").None?
  {
    PaddedSpaces();
    SkipTwoSpaces(ZeroPairs(31));
    StrictRejectsSpace(ZeroPairs(31));
    FromHexZeros(31);
  }

  /** Python's `int(x)` on a real: truncation toward zero. */
  function Trunc(x: real): (r: int)
    ensures x >= 0.0 ==> r == x.Floor
    ensures x < 0.0 ==> r == -((-x).Floor)
    ensures -1.0 < x - r as real < 1.0
    ensures r as real <= x <==> x >= 0.0 || r as real == x
  {
    if x >= 0.0 then x.Floor else -((-x).Floor)
  }

  /** `_scale_confidence`: a 0–100 percentage as basis points, clamped to
      0..10000. */
  function ScaleConfidence(value: real): (r: int)
    ensures 0 <= r <= 10000
    ensures 0.0 <= value <= 100.0 ==> r == (value * 100.0).Floor
    ensures value <= 0.0 ==> r == 0
    ensures value >= 100.0 ==> r == 10000
  {
    var v := Trunc(value * 100.0);
    if v < 0 then 0 else if v > 10000 then 10000 else v
  }

  /** `_unscale_confidence`. */
  function UnscaleConfidence(basisPoints: int): real
  {
    basisPoints as real / 100.0
  }

  /** Basis points survive a round trip, and a percentage comes back
      rounded down to the hundredth. */
  lemma ConfidenceRoundTrip(basisPoints: int, value: real)
    ensures 0 <= basisPoints <= 10000 ==> ScaleConfidence(UnscaleConfidence(basisPoints)) == basisPoints
    ensures 0.0 <= value <= 100.0 ==> value - 0.01 < UnscaleConfidence(ScaleConfidence(value)) <= value
  {
    assert UnscaleConfidence(basisPoints) * 100.0 == basisPoints as real;
  }

  /** `_scale_geo`: micro-degrees, truncated toward zero. */
  function ScaleGeo(value: real): int
  {
    Trunc(value * 1000000.0)
  }

  /** `_unscale_geo`. */
  function UnscaleGeo(scaled: int): real
  {
    scaled as real / 1000000.0
  }

  /** Micro-degrees survive a round trip exactly; a coordinate comes back
      within a micro-degree, moved toward zero. */
  lemma GeoRoundTrip(scaled: int, value: real)
    ensures ScaleGeo(UnscaleGeo(scaled)) == scaled
    ensures var back := UnscaleGeo(ScaleGeo(value));
      -0.000001 < back - value < 0.000001 &&
      (value >= 0.0 ==> 0.0 <= back <= value) &&
      (value <= 0.0 ==> value <= back <= 0.0)
  {
    assert UnscaleGeo(scaled) * 1000000.0 == scaled as real;
    var s := ScaleGeo(value);
    assert UnscaleGeo(s) - value == (s as real - value * 1000000.0) / 1000000.0;
  }

  /** The guard of `_load_contract`: an empty address is a ValueError. */
  function LoadContractCheck(name: string, address: string): (r: Option<string>)
    ensures r.Some? <==> address == ""
    ensures r.Some? ==> r.value == "No address for " + name + ". Deploy contracts first."
  {
    if address == "" then Some("No address for " + name + ". Deploy contracts first.") else None
  }

  /** One video of a batch registration. Absent optional keys take the
      defaults of `v.get(…)`. */
  datatype VideoInput = VideoInput(
    contentHash: string, perceptualHash: string, isDeepfake: bool, confidence: real,
    ipAddress: Option<string>, country: Option<string>, city: Option<string>)

  /** The argument columns of `batchRegisterVideos`. */
  datatype BatchCall = BatchCall(
    contentHashes: seq<seq<Byte>>, perceptualHashes: seq<string>, flags: seq<bool>,
    confidences: seq<int>, ipHashes: seq<seq<Byte>>, countries: seq<string>, cities: seq<string>)

  const MaxBatch: nat := 50

  predicate AllHashesValid(videos: seq<VideoInput>)
  {
    forall i :: 0 <= i < |videos| ==> Bytes32Strict(videos[i].contentHash).Some?
  }

  /** `batch_register_videos` up to the contract call: more than 50 videos
      or a malformed content hash is a ValueError; otherwise one column
      entry per video, in order. `hashIp` is `_hash_ip`, a SHA-256 digest. */
  function BatchRegisterArgs(videos: seq<VideoInput>, hashIp: string -> seq<Byte>): (r: Result<BatchCall, string>)
    ensures r.Err? <==> |videos| > MaxBatch || !AllHashesValid(videos)
    ensures |videos| > MaxBatch ==> r == Err("Batch size exceeds 50")
    ensures r.Ok? ==>
      var c := r.value;
      |c.contentHashes| == |c.perceptualHashes| == |c.flags| == |c.confidences| == |c.ipHashes| == |c.countries| == |c.cities| == |videos| &&
      forall i :: 0 <= i < |videos| ==>
        |c.contentHashes[i]| == 32 && Bytes32Strict(videos[i].contentHash) == Some(c.contentHashes[i]) &&
        c.perceptualHashes[i] == videos[i].perceptualHash && c.flags[i] == videos[i].isDeepfake &&
        0 <= c.confidences[i] <= 10000 && c.confidences[i] == ScaleConfidence(videos[i].confidence) &&
        c.ipHashes[i] == hashIp(videos[i].ipAddress.GetOr("0.0.0.0")) &&
        c.countries[i] == videos[i].country.GetOr("") && c.cities[i] == videos[i].city.GetOr("")
  {
    if |videos| > MaxBatch then Err("Batch size exceeds 50")
    else if !AllHashesValid(videos) then Err("non-hexadecimal number found in fromhex()")
    else
      var n := |videos|;
      Ok(BatchCall(
        seq(n, i requires 0 <= i < n => Bytes32Strict(videos[i].contentHash).value),
        seq(n, i requires 0 <= i < n => videos[i].perceptualHash),
        seq(n, i requires 0 <= i < n => videos[i].isDeepfake),
        seq(n, i requires 0 <= i < n => ScaleConfidence(videos[i].confidence)),
        seq(n, i requires 0 <= i < n => hashIp(videos[i].ipAddress.GetOr("0.0.0.0"))),
        seq(n, i requires 0 <= i < n => videos[i].country.GetOr("")),
        seq(n, i requires 0 <= i < n => videos[i].city.GetOr(""))))
  }

  /** What `create_client_from_env` hands to the client constructor. */
  datatype ClientConfig = ClientConfig(
    rpcUrl: string, privateKey: string, chainId: nat,
    videoRegistry: Option<string>, trackingLedger: Option<string>, alertManager: Option<string>)

  const Placeholders: set<string> := {"your_private_key_here", "your_64_char_hex_private_key"}

  /** `os.environ.get(name)` read as text, with "" for an unset variable
      (both are falsy). */
  function EnvText(env: map<string, string>, name: string): string
  {
    if name in env then env[name] else ""
  }

  /** `os.environ.get(name)` for an optional setting. */
  function EnvOption(env: map<string, string>, name: string): Option<string>
  {
    if name in env then Some(env[name]) else None
  }

  /** The key `create_client_from_env` uses: PRIVATE_KEY, or
      WALLET_PRIVATE_KEY when that is unset or empty. */
  function EnvKey(env: map<string, string>): string
  {
    if EnvText(env, "PRIVATE_KEY") != "" then EnvText(env, "PRIVATE_KEY") else EnvText(env, "WALLET_PRIVATE_KEY")
  }

  /** The chain id text, "137" when CHAIN_ID is unset. */
  function ChainText(env: map<string, string>): string
  {
    if "CHAIN_ID" in env then env["CHAIN_ID"] else "137"
  }

  /** `create_client_from_env`: None without web3, without an RPC URL or
      key, with a placeholder key, with a chain id that is not a number, or
      when the constructor (`construct`) fails. */
  function ClientFromEnv(env: map<string, string>, web3Available: bool, construct: ClientConfig -> bool): (r: Option<ClientConfig>)
    ensures !web3Available ==> r.None?
    ensures EnvText(env, "POLYGON_RPC_URL") == "" ==> r.None?
    ensures EnvText(env, "PRIVATE_KEY") == "" && EnvText(env, "WALLET_PRIVATE_KEY") == "" ==> r.None?
    ensures EnvText(env, "PRIVATE_KEY") in Placeholders ==> r.None?
    ensures EnvText(env, "PRIVATE_KEY") == "" && EnvText(env, "WALLET_PRIVATE_KEY") in Placeholders ==> r.None?
    ensures ParseDecimal(if "CHAIN_ID" in env then env["CHAIN_ID"] else "137").None? ==> r.None?
    ensures r.Some? ==>
      r.value.rpcUrl == EnvText(env, "POLYGON_RPC_URL") && r.value.rpcUrl != "" &&
      r.value.privateKey != "" && r.value.privateKey !in Placeholders &&
      r.value.privateKey == (if EnvText(env, "PRIVATE_KEY") != "" then EnvText(env, "PRIVATE_KEY") else EnvText(env, "WALLET_PRIVATE_KEY")) &&
      Some(r.value.chainId) == ParseDecimal(if "CHAIN_ID" in env then env["CHAIN_ID"] else "137") &&
      construct(r.value)
    ensures var key, chain := EnvKey(env), ParseDecimal(ChainText(env));
      (web3Available && EnvText(env, "POLYGON_RPC_URL") != "" && key != "" && key !in Placeholders && chain.Some?) ==>
        var config := ClientConfig(EnvText(env, "POLYGON_RPC_URL"), key, chain.value,
          EnvOption(env, "VIDEO_REGISTRY_ADDRESS"), EnvOption(env, "TRACKING_LEDGER_ADDRESS"),
          EnvOption(env, "ALERT_MANAGER_ADDRESS"));
        r == (if construct(config) then Some(config) else None)
  {
    var rpcUrl := EnvText(env, "POLYGON_RPC_URL");
    var key := EnvKey(env);
    if !web3Available || rpcUrl == "" || key == "" || key in Placeholders then None
    else
      match ParseDecimal(ChainText(env))
      case None => None
      case Some(chainId) =>
        var config := ClientConfig(rpcUrl, key, chainId,
          EnvOption(env, "VIDEO_REGISTRY_ADDRESS"), EnvOption(env, "TRACKING_LEDGER_ADDRESS"),
          EnvOption(env, "ALERT_MANAGER_ADDRESS"));
        if construct(config) then Some(config) else None
  }
}
