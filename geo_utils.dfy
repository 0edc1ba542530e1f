/** IP geolocation for origin tracking: which addresses count as private,
    the fixed demo location they get, the lookup with its time-limited cache
    in front of the HTTP geolocation service, and the flag of a country
    code. The SHA-256 digest, the clock and the HTTP call are inputs; the
    request rate limiter (a sleep) is not modelled. */
module GeoUtils {
  import opened Wrappers
  import opened Text

  /** A location; the creation timestamp is not modelled. */
  datatype GeoLocation = GeoLocation(
    ipHash: string, country: string, countryCode: string, region: string, city: string,
    latitude: real, longitude: real, timezone: string, isp: string)

  // ---------------------------------------------------------------------
  // Private addresses
  // ---------------------------------------------------------------------

  /** The prefixes `_is_private_ip` recognises. */
  const PrivatePrefixes: seq<string> := [
    "127.", "10.", "172.16.", "172.17.", "172.18.", "172.19.",
    "172.20.", "172.21.", "172.22.", "172.23.", "172.24.", "172.25.",
    "172.26.", "172.27.", "172.28.", "172.29.", "172.30.", "172.31.",
    "192.168.", "0.0.", "localhost", "::1"]

  /** `_is_private_ip`: the address starts with one of the prefixes. */
  predicate IsPrivateIp(ip: string)
  {
    exists i :: 0 <= i < |PrivatePrefixes| && StartsWith(ip, PrivatePrefixes[i])
  }

  predicate IsDigit(c: char)
  {
    '0' <= c <= '9'
  }

  /** `172.<second>.` with a second octet written 16 to 31. */
  predicate InPrivate172(ip: string)
  {
    |ip| >= 7 && ip[..4] == "172." && ip[6] == '.' &&
    ((ip[4] == '1' && '6' <= ip[5] <= '9') || (ip[4] == '2' && IsDigit(ip[5])) || (ip[4] == '3' && '0' <= ip[5] <= '1'))
  }

  /** The loopback, 10/8, 172.16/12, 192.168/16 and 0.0 ranges written in
      dotted form, plus the names `localhost` and `::1`. */
  predicate PrivateRange(ip: string)
  {
    StartsWith(ip, "127.") || StartsWith(ip, "10.") || InPrivate172(ip) ||
    StartsWith(ip, "192.168.") || StartsWith(ip, "0.0.") ||
    StartsWith(ip, "localhost") || StartsWith(ip, "::1")
  }

  /** Each listed prefix lies in one of the ranges. */
  lemma ListedInRange(ip: string, i: int)
    requires 0 <= i < |PrivatePrefixes| && StartsWith(ip, PrivatePrefixes[i])
    ensures PrivateRange(ip)
  {
    if 2 <= i <= 17 {
      assert ip[..7] == PrivatePrefixes[i];
      assert ip[..4] == ip[..7][..4];
    }
  }

  /** The position in the prefix list of the second octet `1d`, `2d` or `3d`. */
  function Slot172(a: char, b: char): int
  {
    if a == '1' then b as int - '6' as int + 2
    else if a == '2' then b as int - '0' as int + 6
    else b as int - '0' as int + 16
  }

  lemma Slot172Prefix(a: char, b: char)
    requires (a == '1' && '6' <= b <= '9') || (a == '2' && IsDigit(b)) || (a == '3' && '0' <= b <= '1')
    ensures 2 <= Slot172(a, b) <= 17 && PrivatePrefixes[Slot172(a, b)] == ['1', '7', '2', '.', a, b, '.']
  {
  }

  lemma RangeIsListed(ip: string)
    requires InPrivate172(ip)
    ensures IsPrivateIp(ip)
  {
    Slot172Prefix(ip[4], ip[5]);
    var k := Slot172(ip[4], ip[5]);
    assert ip[..7] == ['1', '7', '2', '.', ip[4], ip[5], '.'];
    assert StartsWith(ip, PrivatePrefixes[k]);
  }

  /** The prefix list is exactly these ranges: 172.16. to 172.31. are
      private, 172.32. and 172.15. are not. */
  lemma PrivateIpIsRange(ip: string)
    ensures IsPrivateIp(ip) <==> PrivateRange(ip)
  {
    if InPrivate172(ip) {
      RangeIsListed(ip);
    }
    if IsPrivateIp(ip) {
      var i :| 0 <= i < |PrivatePrefixes| && StartsWith(ip, PrivatePrefixes[i]);
      ListedInRange(ip, i);
    }
    if StartsWith(ip, "127.") { assert StartsWith(ip, PrivatePrefixes[0]); }
    if StartsWith(ip, "10.") { assert StartsWith(ip, PrivatePrefixes[1]); }
    if StartsWith(ip, "192.168.") { assert StartsWith(ip, PrivatePrefixes[18]); }
    if StartsWith(ip, "0.0.") { assert StartsWith(ip, PrivatePrefixes[19]); }
    if StartsWith(ip, "localhost") { assert StartsWith(ip, PrivatePrefixes[20]); }
    if StartsWith(ip, "::1") { assert StartsWith(ip, PrivatePrefixes[21]); }
  }

  /** 172.16/12 ends at 172.31: the next second octet is public. */
  lemma Private172Boundary(rest: string)
    ensures IsPrivateIp("172.31." + rest)
    ensures !IsPrivateIp("172.32." + rest)
  {
    var inside, outside := "172.31." + rest, "172.32." + rest;
    assert inside[..4] == "172." && inside[4] == '3' && inside[5] == '1' && inside[6] == '.';
    PrivateIpIsRange(inside);
    assert outside[..4] == "172." && outside[4] == '3' && outside[5] == '2';
    assert outside[0] == '1' && outside[1] == '7' && outside[2] == '2' && outside[3] == '.';
    assert outside[..3] != "10." && outside[..4] != "127." && outside[..3] != "::1";
    assert |outside| < 8 || outside[..8] != "192.168.";
    assert outside[..4] != "0.0.";
    assert |outside| < 9 || outside[..9] != "localhost";
    PrivateIpIsRange(outside);
  }

  // ---------------------------------------------------------------------
  // Demo location
  // ---------------------------------------------------------------------

  /** The first 16 hex digits of the address's SHA-256 digest. */
  function IpHash(sha256Hex: string -> string, ip: string): (r: string)
    ensures |r| <= 16 && |r| <= |sha256Hex(ip)| && r == sha256Hex(ip)[..|r|]
  {
    PyPrefix(sha256Hex(ip), 16)
  }

  /** `_get_demo_location`: whatever the address, the fixed Vellore, Tamil
      Nadu location, carrying the address's hash. The code after its
      `return` is unreachable and not modelled. */
  function DemoLocation(ipHash: string): (r: GeoLocation)
    ensures r.ipHash == ipHash && r.countryCode == "IN" && r.country == "India" && r.city == "Vellore"
  {
    GeoLocation(ipHash, "India", "IN", "Tamil Nadu", "Vellore", 12.9692, 79.1559, "Asia/Kolkata", "Local Network")
  }

  /** Every private address gets the same place: demo locations differ
      only in the hash they carry. */
  lemma DemoLocationFixed(h1: string, h2: string)
    ensures DemoLocation(h1) == DemoLocation(h2).(ipHash := h1)
    ensures DemoLocation(h1) == DemoLocation(h2) <==> h1 == h2
  {
  }

  // ---------------------------------------------------------------------
  // Lookup with a time-limited cache
  // ---------------------------------------------------------------------

  /** The decoded JSON reply of the geolocation service: its `status`, its
      text fields by name, and its coordinates when present. */
  datatype ApiReply = ApiReply(status: Option<string>, text: map<string, string>, lat: Option<real>, lon: Option<real>)

  function Field(text: map<string, string>, key: string, default: string): string
  {
    if key in text then text[key] else default
  }

  /** The location built from a successful reply, each missing field
      replaced by its default. */
  function FromReply(ipHash: string, reply: ApiReply): (r: GeoLocation)
    ensures r.ipHash == ipHash
    ensures "countryCode" !in reply.text ==> r.countryCode == "XX"
    ensures "country" !in reply.text ==> r.country == "Unknown"
  {
    GeoLocation(ipHash, Field(reply.text, "country", "Unknown"), Field(reply.text, "countryCode", "XX"),
                Field(reply.text, "regionName", ""), Field(reply.text, "city", ""),
                if reply.lat.Some? then reply.lat.value else 0.0,
                if reply.lon.Some? then reply.lon.value else 0.0,
                Field(reply.text, "timezone", ""), Field(reply.text, "isp", ""))
  }

  /** A cached entry is still fresh while its age is below the TTL. */
  predicate Fresh(storedAt: real, now: real, ttl: int)
  {
    now - storedAt < ttl as real
  }

  class GeoIPService {
    const cacheTtl: int
    /** Location and storage time by address hash. */
    var cache: map<string, (GeoLocation, real)>

    /** Every cached location is filed under its own address hash. */
    ghost predicate Valid()
      reads this
    {
      forall h :: h in cache ==> cache[h].0.ipHash == h
    }

    constructor (cacheTtl: int)
      ensures Valid() && this.cacheTtl == cacheTtl && cache == map[]
    {
      this.cacheTtl := cacheTtl;
      cache := map[];
    }

    /** `lookup`: a private address gets the demo location without a
      request; a cached entry younger than the TTL is returned as is;
      otherwise the service is asked (`fetch`, None when the request or the
      decoding fails) and a successful reply is cached with the time
      `fetchedAt` it arrived; any other outcome gives the demo location
      and leaves the cache alone. */
    method Lookup(ip: string, now: real, fetchedAt: real, sha256Hex: string -> string, fetch: string -> Option<ApiReply>)
      returns (loc: GeoLocation)
      requires Valid()
      modifies this
      ensures Valid()
      ensures loc.ipHash == IpHash(sha256Hex, ip)
      ensures IsPrivateIp(ip) ==> loc == DemoLocation(IpHash(sha256Hex, ip)) && cache == old(cache)
      ensures !IsPrivateIp(ip) ==>
        var h := IpHash(sha256Hex, ip);
        if h in old(cache) && Fresh(old(cache)[h].1, now, cacheTtl) then
          loc == old(cache)[h].0 && cache == old(cache)
        else
          var reply := fetch(ip);
          if reply.Some? && reply.value.status == Some("success") then
            loc == FromReply(h, reply.value) && cache == old(cache)[h := (loc, fetchedAt)]
          else
            loc == DemoLocation(h) && cache == old(cache)
    {
      var h := IpHash(sha256Hex, ip);
      if IsPrivateIp(ip) {
        loc := DemoLocation(h);
        return;
      }
      if h in cache {
        var (cached, timestamp) := cache[h];
        if now - timestamp < cacheTtl as real {
          loc := cached;
          return;
        }
      }
      var reply := fetch(ip);
      if reply.Some? && reply.value.status == Some("success") {
        loc := FromReply(h, reply.value);
        cache := cache[h := (loc, fetchedAt)];
      } else {
        loc := DemoLocation(h);
      }
    }
  }

  // ---------------------------------------------------------------------
  // Country flags
  // ---------------------------------------------------------------------

  /** The country codes with their own flag in `COUNTRY_FLAGS`. */
  const CountryCodes: set<string> := {
    "AD", "AE", "AF", "AG", "AI", "AL", "AM", "AO", "AQ", "AR", "AS", "AT", "AU", "AW", "AX", "AZ",
    "BA", "BB", "BD", "BE", "BF", "BG", "BH", "BI", "BJ", "BL", "BM", "BN", "BO", "BQ", "BR", "BS",
    "BT", "BV", "BW", "BY", "BZ", "CA", "CC", "CD", "CF", "CG", "CH", "CI", "CK", "CL", "CM", "CN",
    "CO", "CR", "CU", "CV", "CW", "CX", "CY", "CZ", "DE", "DJ", "DK", "DM", "DO", "DZ", "EC", "EE",
    "EG", "EH", "ER", "ES", "ET", "FI", "FJ", "FK", "FM", "FO", "FR", "GA", "GB", "GD", "GE", "GF",
    "GG", "GH", "GI", "GL", "GM", "GN", "GP", "GQ", "GR", "GS", "GT", "GU", "GW", "GY", "HK", "HM",
    "HN", "HR", "HT", "HU", "ID", "IE", "IL", "IM", "IN", "IO", "IQ", "IR", "IS", "IT", "JE", "JM",
    "JO", "JP", "KE", "KG", "KH", "KI", "KM", "KN", "KP", "KR", "KW", "KY", "KZ", "LA", "LB", "LC",
    "LI", "LK", "LR", "LS", "LT", "LU", "LV", "LY", "MA", "MC", "MD", "ME", "MF", "MG", "MH", "MK",
    "ML", "MM", "MN", "MO", "MP", "MQ", "MR", "MS", "MT", "MU", "MV", "MW", "MX", "MY", "MZ", "NA",
    "NC", "NE", "NF", "NG", "NI", "NL", "NO", "NP", "NR", "NU", "NZ", "OM", "PA", "PE", "PF", "PG",
    "PH", "PK", "PL", "PM", "PN", "PR", "PS", "PT", "PW", "PY", "QA", "RE", "RO", "RS", "RU", "RW",
    "SA", "SB", "SC", "SD", "SE", "SG", "SH", "SI", "SJ", "SK", "SL", "SM", "SN", "SO", "SR", "SS",
    "ST", "SV", "SX", "SY", "SZ", "TC", "TD", "TF", "TG", "TH", "TJ", "TK", "TL", "TM", "TN", "TO",
    "TR", "TT", "TV", "TW", "TZ", "UA", "UG", "UM", "US", "UY", "UZ", "VA", "VC", "VE", "VG", "VI",
    "VN", "VU", "WF", "WS", "XK", "YE", "YT", "ZA", "ZM", "ZW"
  }

  /** The white flag: `COUNTRY_FLAGS['XX']` and the default. */
  const WhiteFlag: string := "\U{1F3F3}\U{FE0F}"

  predicate IsUpperLetter(c: char)
  {
    'A' <= c <= 'Z'
  }

  /** The regional indicator symbol for an upper-case letter. */
  function RegionalIndicator(c: char): (r: char)
    requires IsUpperLetter(c)
    ensures 0x1F1E6 <= r as int <= 0x1F1FF
  {
    (0x1F1E6 + (c as int - 'A' as int)) as char
  }

  /** A code of the table: two upper-case letters that are listed. */
  predicate IsCountryCode(u: string)
  {
    |u| == 2 && IsUpperLetter(u[0]) && IsUpperLetter(u[1]) && u in CountryCodes
  }

  /** `get_country_flag`: the flag of the upper-cased code; the white flag
      for 'XX' and for every code not in the table. A listed code's flag is
      its two letters as regional indicator symbols. */
  function CountryFlag(code: string): (r: string)
    ensures !IsCountryCode(Upper(code)) ==> r == WhiteFlag
  {
    var u := Upper(code);
    if IsCountryCode(u) then [RegionalIndicator(u[0]), RegionalIndicator(u[1])] else WhiteFlag
  }

  /** Reading a flag back: the letters of a pair of regional indicator
      symbols, nothing for any other text. */
  function FlagLetters(flag: string): (r: Option<string>)
  {
    if |flag| == 2 && 0x1F1E6 <= flag[0] as int <= 0x1F1FF && 0x1F1E6 <= flag[1] as int <= 0x1F1FF then
      Some([(flag[0] as int - 0x1F1E6 + 'A' as int) as char, (flag[1] as int - 0x1F1E6 + 'A' as int) as char])
    else None
  }

  lemma UpperIdempotent(s: string)
    ensures Upper(Upper(s)) == Upper(s)
  {
  }

  /** The lookup ignores case; a listed code's flag reads back as the
      upper-cased code and an unlisted one gives the white flag, so two
      codes have the same non-white flag only when they agree up to case. */
  lemma CountryFlagSpec(code: string, other: string)
    ensures CountryFlag(code) == CountryFlag(Upper(code))
    ensures IsCountryCode(Upper(code)) ==> FlagLetters(CountryFlag(code)) == Some(Upper(code))
    ensures !IsCountryCode(Upper(code)) <==> CountryFlag(code) == WhiteFlag
    ensures CountryFlag(code) == CountryFlag(other) && CountryFlag(code) != WhiteFlag ==> Upper(code) == Upper(other)
  {
    UpperIdempotent(code);
    FlagReadsBack(Upper(code));
    FlagReadsBack(Upper(other));
  }

  lemma FlagReadsBack(u: string)
    ensures IsCountryCode(u) ==> FlagLetters([RegionalIndicator(u[0]), RegionalIndicator(u[1])]) == Some(u)
  {
    if IsCountryCode(u) {
      assert [u[0], u[1]] == u;
    }
  }
}
