/** Ordering by a caller-supplied "less than or equal" relation: a sort (the
    behaviour of `list.sort(key=…)` and of SQL `ORDER BY`) and the first
    minimal element (the behaviour of `min(…, key=…)`). */
module Sorting {

  ghost predicate TotalPreorder<T(!new)>(le: (T, T) -> bool)
  {
    (forall a, b :: le(a, b) || le(b, a)) &&
    (forall a, b, c :: le(a, b) && le(b, c) ==> le(a, c))
  }

  /** The usual order on reals, as a relation value. */
  function RealLe(a: real, b: real): bool
  {
    a <= b
  }

  lemma RealLeTotal()
    ensures TotalPreorder(RealLe)
  {
  }

  predicate Sorted<T>(s: seq<T>, le: (T, T) -> bool)
  {
    forall i, j :: 0 <= i < j < |s| ==> le(s[i], s[j])
  }

  /** Inserts x in front of the first element it is not greater than. */
  function Insert<T>(x: T, s: seq<T>, le: (T, T) -> bool): (r: seq<T>)
    ensures |r| == |s| + 1
  {
    if |s| == 0 then [x]
    else if le(x, s[0]) then [x] + s
    else [s[0]] + Insert(x, s[1..], le)
  }

  /** Insertion sort; equal elements keep their relative order. */
  function SortBy<T>(s: seq<T>, le: (T, T) -> bool): (r: seq<T>)
    ensures |r| == |s|
  {
    if |s| == 0 then [] else Insert(s[0], SortBy(s[1..], le), le)
  }

  lemma {:induction false} InsertMultiset<T>(x: T, s: seq<T>, le: (T, T) -> bool)
    ensures multiset(Insert(x, s, le)) == multiset(s) + multiset{x}
  {
    if |s| > 0 && !le(x, s[0]) {
      InsertMultiset(x, s[1..], le);
      assert s == [s[0]] + s[1..];
    }
  }

  lemma {:induction false} InsertSorted<T(!new)>(x: T, s: seq<T>, le: (T, T) -> bool)
    requires TotalPreorder(le)
    requires Sorted(s, le)
    ensures Sorted(Insert(x, s, le), le)
  {
    if |s| > 0 {
      if le(x, s[0]) {
        var r := [x] + s;
        forall i, j | 0 <= i < j < |r| ensures le(r[i], r[j]) {
          if i == 0 && j > 1 {
            assert le(s[0], s[j - 1]);
          }
        }
      } else {
        InsertSorted(x, s[1..], le);
        var t := Insert(x, s[1..], le);
        var r := [s[0]] + t;
        InsertMultiset(x, s[1..], le);
        forall k | 0 <= k < |t| ensures le(s[0], t[k]) {
          assert t[k] in multiset(t);
          assert t[k] in multiset(s[1..]) + multiset{x};
          if t[k] != x || t[k] in multiset(s[1..]) {
            if t[k] in multiset(s[1..]) {
              var m :| 0 <= m < |s[1..]| && s[1..][m] == t[k];
              assert le(s[0], s[m + 1]);
            }
          }
        }
        assert Sorted(r, le);
      }
    }
  }

  /** The sort returns its input in order... */
  lemma {:induction false} SortBySorted<T(!new)>(s: seq<T>, le: (T, T) -> bool)
    requires TotalPreorder(le)
    ensures Sorted(SortBy(s, le), le)
  {
    if |s| > 0 {
      SortBySorted(s[1..], le);
      InsertSorted(s[0], SortBy(s[1..], le), le);
    }
  }

  /** ... and is a permutation of it. */
  lemma {:induction false} SortByPermutation<T>(s: seq<T>, le: (T, T) -> bool)
    ensures multiset(SortBy(s, le)) == multiset(s)
  {
    if |s| > 0 {
      SortByPermutation(s[1..], le);
      InsertMultiset(s[0], SortBy(s[1..], le), le);
      assert s == [s[0]] + s[1..];
    }
  }

  /** Index of the first element not greater than any element: what
      `min(s, key=…)` returns, since it only replaces its candidate by a
      strictly smaller one. */
  function FirstMinIndex<T>(s: seq<T>, le: (T, T) -> bool): (i: nat)
    requires |s| > 0
    ensures i < |s|
  {
    if |s| == 1 then 0
    else
      var j := FirstMinIndex(s[..|s| - 1], le);
      if !le(s[j], s[|s| - 1]) then |s| - 1 else j
  }

  lemma {:induction false} FirstMinIndexIsFirstMinimum<T(!new)>(s: seq<T>, le: (T, T) -> bool)
    requires |s| > 0 && TotalPreorder(le)
    ensures forall k :: 0 <= k < |s| ==> le(s[FirstMinIndex(s, le)], s[k])
    ensures forall k :: 0 <= k < FirstMinIndex(s, le) ==> !le(s[k], s[FirstMinIndex(s, le)])
  {
    if |s| > 1 {
      var p := s[..|s| - 1];
      FirstMinIndexIsFirstMinimum(p, le);
      var j := FirstMinIndex(p, le);
      assert forall k :: 0 <= k < |p| ==> p[k] == s[k];
    }
  }

  /** In a sorted non-empty sequence the first minimum is the first element. */
  lemma SortedFirstMin<T(!new)>(s: seq<T>, le: (T, T) -> bool)
    requires |s| > 0 && TotalPreorder(le) && Sorted(s, le)
    ensures FirstMinIndex(s, le) == 0
  {
    FirstMinIndexIsFirstMinimum(s, le);
  }
}
