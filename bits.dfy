/** Arbitrary-precision bit arithmetic on naturals: the bitwise exclusive or,
    the population count, and packing a most-significant-bit-first bit list
    into an integer (`h = (h << 1) | b` repeated). */
module Bits {

  function Pow2(n: nat): (r: nat)
    ensures r >= 1
  {
    if n == 0 then 1 else 2 * Pow2(n - 1)
  }

  lemma {:induction false} Pow2Add(a: nat, b: nat)
    ensures Pow2(a + b) == Pow2(a) * Pow2(b)
  {
    if a > 0 {
      Pow2Add(a - 1, b);
    }
  }

  /** Bitwise exclusive or of two naturals (Python's `^` on non-negative ints). */
  function Xor(a: nat, b: nat): nat
    decreases a + b
  {
    if a == 0 && b == 0 then 0
    else 2 * Xor(a / 2, b / 2) + (if a % 2 != b % 2 then 1 else 0)
  }

  /** Number of one bits (Python's `bin(x).count('1')` on a natural). */
  function PopCount(n: nat): nat
  {
    if n == 0 then 0 else n % 2 + PopCount(n / 2)
  }

  /** Hamming distance of two integer hashes: the bits in which they differ. */
  function Hamming(a: nat, b: nat): nat
  {
    PopCount(Xor(a, b))
  }

  lemma {:induction false} XorComm(a: nat, b: nat)
    ensures Xor(a, b) == Xor(b, a)
    decreases a + b
  {
    if !(a == 0 && b == 0) {
      XorComm(a / 2, b / 2);
    }
  }

  lemma {:induction false} XorZeroIff(a: nat, b: nat)
    ensures Xor(a, b) == 0 <==> a == b
    decreases a + b
  {
    if !(a == 0 && b == 0) {
      XorZeroIff(a / 2, b / 2);
    }
  }

  lemma {:induction false} PopCountZeroIff(n: nat)
    ensures PopCount(n) == 0 <==> n == 0
  {
    if n != 0 {
      PopCountZeroIff(n / 2);
    }
  }

  /** The Hamming distance is a symmetric measure that vanishes exactly on
      equal hashes. */
  lemma HammingMetric(a: nat, b: nat)
    ensures Hamming(a, b) == Hamming(b, a)
    ensures Hamming(a, b) == 0 <==> a == b
  {
    XorComm(a, b);
    XorZeroIff(a, b);
    PopCountZeroIff(Xor(a, b));
  }

  /** Xor of two numbers below 2^w stays below 2^w. */
  lemma {:induction false} XorBound(a: nat, b: nat, w: nat)
    requires a < Pow2(w) && b < Pow2(w)
    ensures Xor(a, b) < Pow2(w)
    decreases a + b
  {
    if !(a == 0 && b == 0) {
      assert w > 0;
      XorBound(a / 2, b / 2, w - 1);
    }
  }

  /** The population count of a number below 2^w is at most w, so a 64-bit
      Hamming distance is at most 64. */
  lemma {:induction false} PopCountBound(n: nat, w: nat)
    requires n < Pow2(w)
    ensures PopCount(n) <= w
  {
    if n != 0 {
      assert w > 0;
      PopCountBound(n / 2, w - 1);
    }
  }

  lemma HammingBound(a: nat, b: nat, w: nat)
    requires a < Pow2(w) && b < Pow2(w)
    ensures Hamming(a, b) <= w
  {
    XorBound(a, b, w);
    PopCountBound(Xor(a, b), w);
  }

  /** Packs a bit list, most significant bit first. */
  function BitsToNat(bits: seq<bool>): nat
  {
    if |bits| == 0 then 0
    else 2 * BitsToNat(bits[..|bits| - 1]) + (if bits[|bits| - 1] then 1 else 0)
  }

  /** The `width` low bits of n, most significant first (`(n >> (width-1-i)) & 1`). */
  function NatToBits(n: nat, width: nat): (r: seq<bool>)
    ensures |r| == width
  {
    if width == 0 then [] else NatToBits(n / 2, width - 1) + [n % 2 == 1]
  }

  lemma {:induction false} BitsToNatBound(bits: seq<bool>)
    ensures BitsToNat(bits) < Pow2(|bits|)
  {
    if |bits| > 0 {
      BitsToNatBound(bits[..|bits| - 1]);
    }
  }

  /** Unpacking a packed bit list gives the list back. */
  lemma {:induction false} BitsRoundTrip(bits: seq<bool>)
    ensures NatToBits(BitsToNat(bits), |bits|) == bits
  {
    if |bits| > 0 {
      var init := bits[..|bits| - 1];
      BitsRoundTrip(init);
      var n := BitsToNat(bits);
      assert n / 2 == BitsToNat(init);
      assert (n % 2 == 1) == bits[|bits| - 1];
      assert init + [bits[|bits| - 1]] == bits;
    }
  }

  /** Packing the low bits of a number below 2^width gives the number back. */
  lemma {:induction false} NatRoundTrip(n: nat, width: nat)
    requires n < Pow2(width)
    ensures BitsToNat(NatToBits(n, width)) == n
  {
    if width > 0 {
      NatRoundTrip(n / 2, width - 1);
      var bs := NatToBits(n, width);
      assert bs[..width - 1] == NatToBits(n / 2, width - 1);
    } else {
      assert n == 0;
    }
  }

  /** Packing a concatenation shifts the first part left by the length of the
      second. */
  lemma {:induction false} BitsToNatAppend(a: seq<bool>, b: seq<bool>)
    ensures BitsToNat(a + b) == BitsToNat(a) * Pow2(|b|) + BitsToNat(b)
  {
    if |b| == 0 {
      assert a + b == a;
    } else {
      var b' := b[..|b| - 1];
      var last := if b[|b| - 1] then 1 else 0;
      assert (a + b)[..|a + b| - 1] == a + b';
      BitsToNatAppend(a, b');
      var x, p := BitsToNat(a), Pow2(|b'|);
      calc {
        BitsToNat(a + b);
        2 * BitsToNat(a + b') + last;
        2 * (x * p + BitsToNat(b')) + last;
        { DoubleProduct(x, p); }
        x * (2 * p) + (2 * BitsToNat(b') + last);
        x * Pow2(|b|) + BitsToNat(b);
      }
    }
  }

  lemma DoubleProduct(x: int, p: int)
    ensures 2 * (x * p) == x * (2 * p)
  {
  }

  /** Reference loop: the running `h = (h << 1) | bit` accumulation used by
      every hash in the system. */
  method PackBits(bits: seq<bool>) returns (h: nat)
    ensures h == BitsToNat(bits)
    ensures h < Pow2(|bits|)
  {
    h := 0;
    var i := 0;
    while i < |bits|
      invariant 0 <= i <= |bits|
      invariant h == BitsToNat(bits[..i])
    {
      assert bits[..i + 1][..i] == bits[..i];
      h := 2 * h + (if bits[i] then 1 else 0);
      i := i + 1;
    }
    assert bits[..i] == bits;
    BitsToNatBound(bits);
  }

  lemma MulMono(a: int, b: int, c: int)
    requires a <= b && c >= 0
    ensures a * c <= b * c
  {
    assert b * c - a * c == (b - a) * c;
  }

  /** The arithmetic of `DivDiv` without division in sight. */
  lemma DivDivCore(n: nat, a: nat, p: nat, m: nat, s: nat, q: nat, r2: nat)
    requires n == a * m + s && s < a
    requires m == p * q + r2 && r2 < p
    ensures a * p > 0
    ensures n == (a * p) * q + (a * r2 + s) && a * r2 + s < a * p
  {
    MulDistrib(a, p * q, r2);
    MulAssoc(a, p, q);
    MulMono(r2, p - 1, a);
    MulDistrib(a, p, -1);
    MulMono(1, p, a);
  }

  lemma MulAssoc(a: int, b: int, c: int)
    ensures a * (b * c) == (a * b) * c
  {
  }

  lemma MulAtLeast(d: nat, k: int)
    requires d > 0 && k >= 1
    ensures d * k >= d
  {
  }

  /** Quotients are unique. */
  lemma DivUnique(n: nat, d: nat, q: nat, r: nat)
    requires d > 0 && n == d * q + r && r < d
    ensures n / d == q
  {
    var q0, r0 := n / d, n % d;
    assert d * q0 + r0 == d * q + r;
    if q > q0 {
      MulAtLeast(d, q - q0);
    } else if q < q0 {
      MulAtLeast(d, q0 - q);
    }
  }

  lemma ModSmall(n: nat, d: nat)
    requires n < d
    ensures n % d == n
  {
    DivUnique(n, d, 0, n);
  }

  lemma DivMono(x: int, y: int, d: int)
    requires 0 <= x <= y && d > 0
    ensures x / d <= y / d
  {
    var qx, qy := x / d, y / d;
    var rx, ry := x % d, y % d;
    assert x == d * qx + rx && 0 <= rx;
    assert y == d * qy + ry && ry < d;
    if qx > qy {
      MulMono(qy + 1, qx, d);
      MulDistrib(d, qy, 1);
    }
  }

  lemma MulDistrib(a: int, b: int, c: int)
    ensures a * (b + c) == a * b + a * c
  {
  }

  lemma MulDivCancel(a: nat, b: nat)
    requires a > 0
    ensures (a * b) / a == b
  {
    DivUnique(a * b, a, b, 0);
  }

  /** Dividing twice is dividing by the product. */
  lemma DivDiv(n: nat, a: nat, p: nat)
    requires a >= 1 && p >= 1
    ensures (n / a) / p == n / (a * p)
  {
    var m, s := n / a, n % a;
    var q, r2 := m / p, m % p;
    DivDivCore(n, a, p, m, s, q, r2);
    DivUnique(n, a * p, q, a * r2 + s);
  }

  /** Bit i (from the most significant end) of the width-bit rendering of n is
      `(n >> (width - 1 - i)) & 1`. */
  lemma {:induction false} NatToBitsAt(n: nat, width: nat, i: nat)
    requires i < width
    ensures NatToBits(n, width)[i] == ((n / Pow2(width - 1 - i)) % 2 == 1)
  {
    if i < width - 1 {
      NatToBitsAt(n / 2, width - 1, i);
      DivDiv(n, 2, Pow2(width - 2 - i));
    }
  }

  /** Number of positions at which two equally long bit lists differ. */
  function BitDiff(a: seq<bool>, b: seq<bool>): nat
    requires |a| == |b|
  {
    if |a| == 0 then 0
    else BitDiff(a[..|a| - 1], b[..|b| - 1]) + (if a[|a| - 1] != b[|b| - 1] then 1 else 0)
  }

  lemma {:induction false} BitDiffAppend(a1: seq<bool>, a2: seq<bool>, b1: seq<bool>, b2: seq<bool>)
    requires |a1| == |b1| && |a2| == |b2|
    ensures BitDiff(a1 + a2, b1 + b2) == BitDiff(a1, b1) + BitDiff(a2, b2)
  {
    if |a2| == 0 {
      assert a1 + a2 == a1 && b1 + b2 == b1;
    } else {
      var n := |a2|;
      assert (a1 + a2)[..|a1| + n - 1] == a1 + a2[..n - 1];
      assert (b1 + b2)[..|b1| + n - 1] == b1 + b2[..n - 1];
      BitDiffAppend(a1, a2[..n - 1], b1, b2[..n - 1]);
    }
  }

  lemma {:induction false} BitDiffZero(a: seq<bool>, b: seq<bool>)
    requires |a| == |b|
    ensures BitDiff(a, b) == 0 <==> a == b
  {
    if |a| > 0 {
      BitDiffZero(a[..|a| - 1], b[..|b| - 1]);
      assert a == a[..|a| - 1] + [a[|a| - 1]];
      assert b == b[..|b| - 1] + [b[|b| - 1]];
    }
  }

  /** The Hamming distance of two numbers below 2^w counts the positions at
      which their w-bit renderings differ. */
  lemma {:induction false} HammingIsBitDiff(x: nat, y: nat, w: nat)
    requires x < Pow2(w) && y < Pow2(w)
    ensures Hamming(x, y) == BitDiff(NatToBits(x, w), NatToBits(y, w))
  {
    if w == 0 {
      assert x == 0 && y == 0;
    } else {
      HammingIsBitDiff(x / 2, y / 2, w - 1);
      var xs, ys := NatToBits(x, w), NatToBits(y, w);
      assert xs[..w - 1] == NatToBits(x / 2, w - 1);
      assert ys[..w - 1] == NatToBits(y / 2, w - 1);
      if x == 0 && y == 0 {
        assert Xor(x, y) == 0;
      } else {
        var z := Xor(x, y);
        assert z == 2 * Xor(x / 2, y / 2) + (if x % 2 != y % 2 then 1 else 0);
        assert z % 2 == (if x % 2 != y % 2 then 1 else 0);
        assert z / 2 == Xor(x / 2, y / 2);
      }
    }
  }

  /** Number of true entries. */
  function CountTrue(bits: seq<bool>): (r: nat)
    ensures r <= |bits|
  {
    if |bits| == 0 then 0
    else CountTrue(bits[..|bits| - 1]) + (if bits[|bits| - 1] then 1 else 0)
  }

  /** The population count of a packed bit list is its number of set bits. */
  lemma {:induction false} PopCountOfBits(bits: seq<bool>)
    ensures PopCount(BitsToNat(bits)) == CountTrue(bits)
  {
    if |bits| > 0 {
      PopCountOfBits(bits[..|bits| - 1]);
      var n := BitsToNat(bits);
      assert n / 2 == BitsToNat(bits[..|bits| - 1]);
      assert n % 2 == (if bits[|bits| - 1] then 1 else 0);
      if n == 0 {
        assert !bits[|bits| - 1];
        PopCountZeroIff(BitsToNat(bits[..|bits| - 1]));
      }
    }
  }
}
