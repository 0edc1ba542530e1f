/** Hexadecimal and decimal numerals: Python's `format(n, 'X')`,
    `format(n, '016X')`, `hex(n)[2:]`, `str(n)`, and the digit-string forms
    of `int(s, 16)` and `int(s)`. */
module Numerals {
  import opened Wrappers
  import opened Bits
  import opened Text

  function Pow16(n: nat): (r: nat)
    ensures r >= 1
  {
    if n == 0 then 1 else 16 * Pow16(n - 1)
  }

  lemma {:induction false} Pow16IsPow2(n: nat)
    ensures Pow16(n) == Pow2(4 * n)
  {
    if n > 0 {
      Pow16IsPow2(n - 1);
      var m := 4 * n;
      assert Pow2(m) == 2 * Pow2(m - 1) == 4 * Pow2(m - 2) == 8 * Pow2(m - 3) == 16 * Pow2(m - 4);
    }
  }

  /** One hexadecimal digit, upper or lower case. */
  function HexDigit(d: nat, upper: bool): char
    requires d < 16
  {
    if d < 10 then ('0' as int + d) as char
    else ((if upper then 'A' else 'a') as int + d - 10) as char
  }

  /** The value of a hexadecimal digit of either case. */
  function HexDigitValue(c: char): (r: Option<nat>)
    ensures r.Some? ==> r.value < 16
  {
    if '0' <= c <= '9' then Some(c as int - '0' as int)
    else if 'a' <= c <= 'f' then Some(c as int - 'a' as int + 10)
    else if 'A' <= c <= 'F' then Some(c as int - 'A' as int + 10)
    else None
  }

  lemma HexDigitRoundTrip(d: nat, upper: bool)
    requires d < 16
    ensures HexDigitValue(HexDigit(d, upper)) == Some(d)
    ensures HexDigit(d, upper) != '-'
  {
  }

  /** The low `width` hexadecimal digits of n, most significant first. */
  function ToHexFixed(n: nat, width: nat, upper: bool): (r: string)
    ensures |r| == width
  {
    if width == 0 then "" else ToHexFixed(n / 16, width - 1, upper) + [HexDigit(n % 16, upper)]
  }

  /** The hexadecimal numeral of n without leading zeros ("0" for zero). */
  function ToHexMinimal(n: nat, upper: bool): (r: string)
    ensures |r| >= 1
  {
    if n < 16 then [HexDigit(n, upper)]
    else ToHexMinimal(n / 16, upper) + [HexDigit(n % 16, upper)]
  }

  /** Value of a string of hexadecimal digits; the empty string is 0. */
  function HexDigitsValue(s: string): Option<nat>
  {
    if |s| == 0 then Some(0)
    else match HexDigitsValue(s[..|s| - 1])
      case None => None
      case Some(v) =>
        match HexDigitValue(s[|s| - 1])
        case None => None
        case Some(d) => Some(16 * v + d)
  }

  /** `int(s, 16)` on a non-empty string of hexadecimal digits; anything else
      is a ValueError, modelled as None. */
  function ParseHex(s: string): Option<nat>
  {
    if |s| == 0 then None else HexDigitsValue(s)
  }

  predicate IsHexDigits(s: string)
  {
    forall i :: 0 <= i < |s| ==> HexDigitValue(s[i]).Some?
  }

  lemma {:induction false} HexDigitsValueDefined(s: string)
    ensures HexDigitsValue(s).Some? <==> IsHexDigits(s)
  {
    if |s| > 0 {
      HexDigitsValueDefined(s[..|s| - 1]);
      assert forall i :: 0 <= i < |s| - 1 ==> s[..|s| - 1][i] == s[i];
    }
  }

  /** A hexadecimal string parses exactly when it is non-empty and made of
      hexadecimal digits. */
  lemma ParseHexDefined(s: string)
    ensures ParseHex(s).Some? <==> |s| > 0 && IsHexDigits(s)
  {
    HexDigitsValueDefined(s);
  }

  lemma {:induction false} HexFixedRoundTrip(n: nat, width: nat, upper: bool)
    requires n < Pow16(width)
    ensures HexDigitsValue(ToHexFixed(n, width, upper)) == Some(n)
  {
    if width > 0 {
      HexFixedRoundTrip(n / 16, width - 1, upper);
      var s := ToHexFixed(n, width, upper);
      assert s[..width - 1] == ToHexFixed(n / 16, width - 1, upper);
      HexDigitRoundTrip(n % 16, upper);
    }
  }

  /** Parsing a fixed-width rendering of a number that fits gives it back. */
  lemma ParseHexFixed(n: nat, width: nat, upper: bool)
    requires width >= 1 && n < Pow16(width)
    ensures ParseHex(ToHexFixed(n, width, upper)) == Some(n)
  {
    HexFixedRoundTrip(n, width, upper);
  }

  /** Parsing a minimal rendering gives the number back. */
  lemma {:induction false} ParseHexMinimal(n: nat, upper: bool)
    ensures ParseHex(ToHexMinimal(n, upper)) == Some(n)
  {
    var s := ToHexMinimal(n, upper);
    if n < 16 {
      HexDigitRoundTrip(n, upper);
      assert s[..|s| - 1] == "";
      assert HexDigitsValue(s[..|s| - 1]) == Some(0);
      assert s[|s| - 1] == HexDigit(n, upper);
    } else {
      ParseHexMinimal(n / 16, upper);
      assert s[..|s| - 1] == ToHexMinimal(n / 16, upper);
      HexDigitRoundTrip(n % 16, upper);
    }
  }

  /** No hexadecimal rendering contains the '-' that separates frame hashes. */
  lemma HexFixedNoDash(n: nat, width: nat, upper: bool)
    ensures '-' !in ToHexFixed(n, width, upper)
  {
    var s := ToHexFixed(n, width, upper);
    forall i | 0 <= i < |s| ensures s[i] != '-' {
      HexFixedDigitAt(n, width, upper, i);
    }
  }

  lemma {:induction false} HexFixedDigitAt(n: nat, width: nat, upper: bool, i: nat)
    requires i < width
    ensures HexDigitValue(ToHexFixed(n, width, upper)[i]).Some?
  {
    if i < width - 1 {
      HexFixedDigitAt(n / 16, width - 1, upper, i);
    } else {
      HexDigitRoundTrip(n % 16, upper);
    }
  }

  lemma {:induction false} HexMinimalLength(n: nat, width: nat, upper: bool)
    requires width >= 1 && n < Pow16(width)
    ensures |ToHexMinimal(n, upper)| <= width
  {
    if n >= 16 {
      HexMinimalLength(n / 16, width - 1, upper);
    }
  }

  lemma {:induction false} HexFixedZero(width: nat, upper: bool)
    ensures ToHexFixed(0, width, upper) == seq(width, _ => '0')
  {
    if width > 0 {
      HexFixedZero(width - 1, upper);
    }
  }

  lemma HexFixedSmall(n: nat, width: nat, upper: bool)
    requires width >= 1 && n < 16
    ensures ToHexFixed(n, width, upper) == ZFill(ToHexMinimal(n, upper), width)
  {
    HexFixedZero(width - 1, upper);
    assert n / 16 == 0;
    var z := seq(width - 1, _ => '0');
    assert ToHexFixed(n, width, upper) == z + [HexDigit(n, upper)];
    if width == 1 {
      assert z == [];
    }
  }

  /** A fixed-width rendering is the minimal rendering left-padded with zeros
      (`hex(n)[2:].zfill(w)` equals `format(n, '0wx')` for n < 16^w). */
  lemma {:induction false} HexFixedIsZFilled(n: nat, width: nat, upper: bool)
    requires width >= 1 && n < Pow16(width)
    ensures ToHexFixed(n, width, upper) == ZFill(ToHexMinimal(n, upper), width)
    decreases n, 1
  {
    if n < 16 {
      HexFixedSmall(n, width, upper);
    } else {
      HexFixedLarge(n, width, upper);
    }
  }

  lemma {:induction false} HexFixedLarge(n: nat, width: nat, upper: bool)
    requires width >= 1 && n < Pow16(width) && n >= 16
    ensures ToHexFixed(n, width, upper) == ZFill(ToHexMinimal(n, upper), width)
    decreases n, 0
  {
    assert width >= 2 && n / 16 < Pow16(width - 1) by {
      assert Pow16(width) == 16 * Pow16(width - 1);
    }
    var m := ToHexMinimal(n / 16, upper);
    var d := [HexDigit(n % 16, upper)];
    HexFixedIsZFilled(n / 16, width - 1, upper);
    HexMinimalLength(n / 16, width - 1, upper);
    ZFillAppend(m, d, width - 1);
    calc {
      ToHexFixed(n, width, upper);
      ToHexFixed(n / 16, width - 1, upper) + d;
      ZFill(m, width - 1) + d;
      ZFill(m + d, width);
      ZFill(ToHexMinimal(n, upper), width);
    }
  }

  lemma ZFillAppend(m: string, d: string, w: nat)
    requires |m| <= w
    ensures ZFill(m, w) + d == ZFill(m + d, w + |d|)
  {
    if w > |m| {
      var z := seq(w - |m|, _ => '0');
      assert ZFill(m, w) == z + m;
      assert ZFill(m + d, w + |d|) == z + (m + d);
    }
  }

  lemma DivDiv16(n: nat, p: nat)
    requires p >= 1
    ensures (n / 16) / p == n / (16 * p)
  {
    DivDiv(n, 16, p);
  }

  /** The first `a` of `a + b` fixed-width digits are the fixed-width digits of
      n with its `b` low digits dropped. */
  lemma {:induction false} HexFixedPrefix(n: nat, a: nat, b: nat, upper: bool)
    ensures ToHexFixed(n, a + b, upper)[..a] == ToHexFixed(n / Pow16(b), a, upper)
  {
    if b > 0 {
      HexFixedPrefix(n / 16, a, b - 1, upper);
      DivDiv16(n, Pow16(b - 1));
    }
  }

  lemma {:induction false} UpperHexFixed(n: nat, width: nat)
    ensures Upper(ToHexFixed(n, width, false)) == ToHexFixed(n, width, true)
  {
    if width > 0 {
      UpperHexFixed(n / 16, width - 1);
      var s := ToHexFixed(n, width, false);
      var t := ToHexFixed(n, width, true);
      forall i | 0 <= i < width ensures Upper(s)[i] == t[i] {
        if i == width - 1 {
          assert UpperChar(HexDigit(n % 16, false)) == HexDigit(n % 16, true);
        } else {
          assert s[i] == ToHexFixed(n / 16, width - 1, false)[i];
          assert t[i] == ToHexFixed(n / 16, width - 1, true)[i];
          assert Upper(s)[i] == UpperChar(s[i]) == Upper(ToHexFixed(n / 16, width - 1, false))[i];
        }
      }
    }
  }

  // ---- decimal ----

  function DecDigit(d: nat): char
    requires d < 10
  {
    ('0' as int + d) as char
  }

  function DecDigitValue(c: char): (r: Option<nat>)
    ensures r.Some? ==> r.value < 10
  {
    if '0' <= c <= '9' then Some(c as int - '0' as int) else None
  }

  /** `str(n)` for a natural. */
  function ToDecimal(n: nat): (r: string)
    ensures |r| >= 1
  {
    if n < 10 then [DecDigit(n)] else ToDecimal(n / 10) + [DecDigit(n % 10)]
  }

  function DecDigitsValue(s: string): Option<nat>
  {
    if |s| == 0 then Some(0)
    else match DecDigitsValue(s[..|s| - 1])
      case None => None
      case Some(v) =>
        match DecDigitValue(s[|s| - 1])
        case None => None
        case Some(d) => Some(10 * v + d)
  }

  /** `int(s)` on a non-empty string of decimal digits; anything else is a
      ValueError, modelled as None. */
  function ParseDecimal(s: string): Option<nat>
  {
    if |s| == 0 then None else DecDigitsValue(s)
  }

  /** Parsing `str(n)` gives n back. */
  lemma {:induction false} DecimalRoundTrip(n: nat)
    ensures ParseDecimal(ToDecimal(n)) == Some(n)
  {
    var s := ToDecimal(n);
    if n < 10 {
      assert s[..|s| - 1] == "";
      assert DecDigitsValue(s[..|s| - 1]) == Some(0);
      assert s[|s| - 1] == DecDigit(n);
    } else {
      DecimalRoundTrip(n / 10);
      assert s[..|s| - 1] == ToDecimal(n / 10);
    }
  }

  lemma {:induction false} DecimalNoDash(n: nat)
    ensures '-' !in ToDecimal(n)
  {
    if n >= 10 {
      DecimalNoDash(n / 10);
    }
  }
}
