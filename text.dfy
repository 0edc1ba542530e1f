/** String operations with Python's `str` semantics, over `seq<char>`. */
module Text {

  function UpperChar(c: char): char
  {
    if 'a' <= c <= 'z' then (c as int - 32) as char else c
  }

  function LowerChar(c: char): char
  {
    if 'A' <= c <= 'Z' then (c as int + 32) as char else c
  }

  /** `s.upper()` restricted to ASCII letters. */
  function Upper(s: string): (r: string)
    ensures |r| == |s|
    ensures forall i :: 0 <= i < |s| ==> r[i] == UpperChar(s[i])
  {
    if |s| == 0 then [] else [UpperChar(s[0])] + Upper(s[1..])
  }

  /** `s.lower()` restricted to ASCII letters. */
  function Lower(s: string): (r: string)
    ensures |r| == |s|
    ensures forall i :: 0 <= i < |s| ==> r[i] == LowerChar(s[i])
  {
    if |s| == 0 then [] else [LowerChar(s[0])] + Lower(s[1..])
  }

  predicate StartsWith(s: string, prefix: string)
  {
    |prefix| <= |s| && s[..|prefix|] == prefix
  }

  /** `s.split(sep)` for a one-character separator: always at least one part. */
  function Split(s: string, sep: char): (parts: seq<string>)
    ensures |parts| >= 1
  {
    if |s| == 0 then [""]
    else
      var rest := Split(s[1..], sep);
      if s[0] == sep then [""] + rest
      else [[s[0]] + rest[0]] + rest[1..]
  }

  /** `sep.join(parts)`. */
  function Join(parts: seq<string>, sep: char): string
  {
    if |parts| == 0 then ""
    else if |parts| == 1 then parts[0]
    else parts[0] + [sep] + Join(parts[1..], sep)
  }

  lemma {:induction false} SplitNoSep(s: string, sep: char)
    requires sep !in s
    ensures Split(s, sep) == [s]
  {
    if |s| > 0 {
      SplitNoSep(s[1..], sep);
      assert [s[0]] + s[1..] == s;
    }
  }

  lemma {:induction false} SplitPrefix(a: string, b: string, sep: char)
    requires sep !in a
    ensures Split(a + [sep] + b, sep) == [a] + Split(b, sep)
  {
    if |a| == 0 {
      assert a + [sep] + b == [sep] + b;
      assert ([sep] + b)[1..] == b;
    } else {
      SplitPrefix(a[1..], b, sep);
      assert (a + [sep] + b)[1..] == a[1..] + [sep] + b;
      assert [a[0]] + a[1..] == a;
    }
  }

  /** Splitting a joined list gives the list back when no part holds the
      separator. */
  lemma {:induction false} SplitJoin(parts: seq<string>, sep: char)
    requires |parts| >= 1
    requires forall i :: 0 <= i < |parts| ==> sep !in parts[i]
    ensures Split(Join(parts, sep), sep) == parts
  {
    if |parts| == 1 {
      SplitNoSep(parts[0], sep);
    } else {
      SplitJoin(parts[1..], sep);
      SplitPrefix(parts[0], Join(parts[1..], sep), sep);
      assert [parts[0]] + parts[1..] == parts;
    }
  }

  /** `s.replace(c, '')` for one character. */
  function RemoveChar(s: string, c: char): (r: string)
    ensures c !in r
    ensures |r| <= |s|
  {
    if |s| == 0 then ""
    else (if s[0] == c then "" else [s[0]]) + RemoveChar(s[1..], c)
  }

  lemma {:induction false} RemoveCharAbsent(s: string, c: char)
    requires c !in s
    ensures RemoveChar(s, c) == s
  {
    if |s| > 0 {
      RemoveCharAbsent(s[1..], c);
      assert [s[0]] + s[1..] == s;
    }
  }

  /** `s.replace(pat, '')`: one left-to-right pass removing non-overlapping
      occurrences of a non-empty pattern. */
  function RemoveAll(s: string, pat: string): (r: string)
    requires |pat| > 0
    ensures |r| <= |s|
  {
    if |s| == 0 then ""
    else if StartsWith(s, pat) then RemoveAll(s[|pat|..], pat)
    else [s[0]] + RemoveAll(s[1..], pat)
  }

  /** `s.ljust(width, fill)`. */
  function LJust(s: string, width: int, fill: char): (r: string)
    ensures |r| == if width > |s| then width else |s|
    ensures r[..|s|] == s
    ensures forall i :: |s| <= i < |r| ==> r[i] == fill
  {
    if width > |s| then s + seq(width - |s|, _ => fill) else s
  }

  /** `s.zfill(width)` for a string without a sign. */
  function ZFill(s: string, width: int): (r: string)
    ensures |r| == if width > |s| then width else |s|
  {
    if width > |s| then seq(width - |s|, _ => '0') + s else s
  }

  /** Python `s[:n]`, including a negative n (which counts from the end). */
  function PyPrefix<T>(s: seq<T>, n: int): (r: seq<T>)
    ensures |r| <= |s|
  {
    if n >= 0 then (if n <= |s| then s[..n] else s)
    else (if -n <= |s| then s[..|s| + n] else [])
  }

  /** Python `s[-n:]` for an integer n: the last n items when n > 0, the whole
      sequence when n == 0 (as `-0 == 0`), and all but the first -n items when
      n < 0. */
  function PyTail<T>(s: seq<T>, n: int): (r: seq<T>)
    ensures |r| <= |s|
    ensures r == s[|s| - |r|..]
  {
    if n > 0 then (if n <= |s| then s[|s| - n..] else s)
    else if n == 0 then s
    else (if -n <= |s| then s[-n..] else [])
  }

  /** Text after the last occurrence of c, or the whole string when c does not
      occur (`s.split(c)[-1]` and, when c occurs, `s.rsplit(c, 1)[1]`). */
  function AfterLast(s: string, c: char): (r: string)
    ensures c !in r
    ensures |r| <= |s| && r == s[|s| - |r|..]
    ensures c !in s ==> r == s
    ensures c in s ==> |r| < |s| && s[|s| - |r| - 1] == c
  {
    if |s| == 0 then ""
    else if c in s[1..] then
      var r := AfterLast(s[1..], c);
      SuffixOfTail(s, r);
      r
    else if s[0] == c then s[1..]
    else s
  }

  /** A suffix of the tail is a suffix of the whole. */
  lemma SuffixOfTail(s: string, r: string)
    requires |s| > 0 && |r| <= |s| - 1 && r == s[1..][|s| - 1 - |r|..]
    ensures r == s[|s| - |r|..]
  {
  }

  lemma {:induction false} SplitSingle(s: string, c: char)
    ensures |Split(s, c)| == 1 <==> c !in s
  {
    if |s| > 0 {
      SplitSingle(s[1..], c);
      assert s == [s[0]] + s[1..];
    }
  }

  /** The last part of `s.split(c)` is the text after the last c. */
  lemma {:induction false} LastPartOfSplit(s: string, c: char)
    ensures Split(s, c)[|Split(s, c)| - 1] == AfterLast(s, c)
  {
    if |s| > 0 {
      if c in s[1..] {
        LastPartOfSplit(s[1..], c);
        LastPartSkipsHead(s, c);
      } else {
        LastPartNoSepAfter(s, c);
      }
    }
  }

  /** A later separator leaves the last part of the split to the tail. */
  lemma LastPartSkipsHead(s: string, c: char)
    requires |s| > 0 && c in s[1..]
    ensures Split(s, c)[|Split(s, c)| - 1] == Split(s[1..], c)[|Split(s[1..], c)| - 1]
  {
    SplitSingle(s[1..], c);
    var rest := Split(s[1..], c);
    assert |rest| >= 2;
  }

  /** Without a separator after the head, the last part is the tail when
      the head is the separator and the whole text otherwise. */
  lemma LastPartNoSepAfter(s: string, c: char)
    requires |s| > 0 && c !in s[1..]
    ensures Split(s, c)[|Split(s, c)| - 1] == AfterLast(s, c)
  {
    SplitNoSep(s[1..], c);
    if s[0] != c {
      assert s == [s[0]] + s[1..];
    }
  }

  /** No value is listed twice. */
  predicate Distinct<T(==)>(s: seq<T>)
  {
    forall i, j :: 0 <= i < j < |s| ==> s[i] != s[j]
  }

  /** The list without one key. */
  function Without<T(==,!new)>(keys: seq<T>, key: T): (r: seq<T>)
    ensures forall k :: k in r <==> k in keys && k != key
    ensures key !in keys ==> r == keys
  {
    if |keys| == 0 then []
    else if keys[0] == key then Without(keys[1..], key)
    else [keys[0]] + Without(keys[1..], key)
  }

  lemma {:induction false} WithoutDistinct<T(!new)>(keys: seq<T>, key: T)
    requires Distinct(keys)
    ensures Distinct(Without(keys, key))
    ensures key in keys ==> |Without(keys, key)| == |keys| - 1
  {
    if |keys| > 0 {
      var rest := keys[1..];
      assert Distinct(rest);
      WithoutDistinct(rest, key);
      if keys[0] == key {
        assert key !in rest;
      } else {
        assert keys[0] !in rest;
        assert keys[0] !in Without(rest, key);
        assert Without(keys, key) == [keys[0]] + Without(rest, key);
      }
    }
  }

  lemma {:induction false} DistinctCard<T>(keys: seq<T>)
    requires Distinct(keys)
    ensures |set k | k in keys| == |keys|
  {
    if |keys| > 0 {
      DistinctCard(keys[1..]);
      assert (set k | k in keys) == (set k | k in keys[1..]) + {keys[0]};
      assert keys[0] !in keys[1..];
    }
  }
}
