/** The merge sort of the member lists, on sequences. `ChildLists` proves the linked-list code against it. */
module Sorting {
  import opened Bytes

  predicate KeyLess<T>(a: T, b: T, key: T -> CString) {
    Less(key(a), key(b))
  }

  /** The test that leaves a list alone: every element strictly before its successor. */
  predicate Ascending<T>(s: seq<T>, key: T -> CString) {
    forall i :: 0 <= i < |s| - 1 ==> KeyLess(s[i], s[i + 1], key)
  }

  function Merge<T>(a: seq<T>, b: seq<T>, key: T -> CString): seq<T> {
    if a == [] then b
    else if b == [] then a
    else if KeyLess(a[0], b[0], key) then [a[0]] + Merge(a[1..], b, key)
    else [b[0]] + Merge(a, b[1..], key)
  }

  /** `cJSONUtils_SortList`: split after the first half, rounded up; take from the second list on a tie. */
  function SortBy<T>(s: seq<T>, key: T -> CString): seq<T>
    decreases |s|
  {
    if |s| < 2 || Ascending(s, key) then s
    else
      var m := (|s| + 1) / 2;
      Merge(SortBy(s[..m], key), SortBy(s[m..], key), key)
  }

  ghost predicate Sorted<T>(s: seq<T>, key: T -> CString) {
    forall i, j :: 0 <= i < j < |s| ==> Cmp(key(s[i]), key(s[j])) <= 0
  }

  ghost predicate StrictlySorted<T>(s: seq<T>, key: T -> CString) {
    forall i, j :: 0 <= i < j < |s| ==> KeyLess(s[i], s[j], key)
  }

  ghost predicate Distinct<T>(s: seq<T>, key: T -> CString) {
    forall i, j :: 0 <= i < j < |s| ==> key(s[i]) != key(s[j])
  }

  lemma {:induction false} MergePermutes<T>(a: seq<T>, b: seq<T>, key: T -> CString)
    ensures multiset(Merge(a, b, key)) == multiset(a) + multiset(b)
    ensures |Merge(a, b, key)| == |a| + |b|
  {
    if a != [] && b != [] {
      assert a == [a[0]] + a[1..] && b == [b[0]] + b[1..];
      if KeyLess(a[0], b[0], key) {
        MergePermutes(a[1..], b, key);
      } else {
        MergePermutes(a, b[1..], key);
      }
    }
  }

  /** Sorting only reorders. */
  lemma {:induction false} SortPermutes<T>(s: seq<T>, key: T -> CString)
    ensures multiset(SortBy(s, key)) == multiset(s)
    ensures |SortBy(s, key)| == |s|
    decreases |s|
  {
    hide Merge, Ascending;
    if !(|s| < 2 || Ascending(s, key)) {
      var m := (|s| + 1) / 2;
      SortPermutes(s[..m], key);
      SortPermutes(s[m..], key);
      MergePermutes(SortBy(s[..m], key), SortBy(s[m..], key), key);
      assert s == s[..m] + s[m..];
    }
  }

  lemma {:induction false} AscendingSorted<T>(s: seq<T>, key: T -> CString)
    requires Ascending(s, key)
    ensures StrictlySorted(s, key)
    decreases |s|
  {
    if |s| > 1 {
      AscendingSorted(s[1..], key) by {
        forall i | 0 <= i < |s[1..]| - 1 ensures KeyLess(s[1..][i], s[1..][i + 1], key) {
          assert KeyLess(s[i + 1], s[i + 2], key);
        }
      }
      forall i, j | 0 <= i < j < |s| ensures KeyLess(s[i], s[j], key) {
        assert KeyLess(s[0], s[1], key);
        if i > 0 {
          assert KeyLess(s[1..][i - 1], s[1..][j - 1], key);
        } else if j > 1 {
          assert KeyLess(s[1..][0], s[1..][j - 1], key);
          LessTransitive(key(s[0]), key(s[1]), key(s[j]));
        }
      }
    }
  }

  lemma HeadLeast<T>(a: seq<T>, x: T, key: T -> CString)
    requires Sorted(a, key) && x in a
    ensures Cmp(key(a[0]), key(x)) <= 0
  {
    CmpZero(key(x), key(x));
  }

  lemma {:induction false} MergeSorted<T>(a: seq<T>, b: seq<T>, key: T -> CString)
    requires Sorted(a, key) && Sorted(b, key)
    ensures Sorted(Merge(a, b, key), key)
  {
    if a != [] && b != [] {
      var takeA := KeyLess(a[0], b[0], key);
      var h := if takeA then a[0] else b[0];
      var a', b' := if takeA then a[1..] else a, if takeA then b else b[1..];
      MergeSorted(a', b', key);
      MergePermutes(a', b', key);
      var rest := Merge(a', b', key);
      CmpAntisymmetric(key(a[0]), key(b[0]));
      CmpZero(key(h), key(h));
      forall j | 0 <= j < |rest| ensures Cmp(key(h), key(rest[j])) <= 0 {
        assert rest[j] in multiset(rest);
        assert rest[j] in a' || rest[j] in b';
        HeadLeast(if rest[j] in a' then a else b, rest[j], key);
        LessTransitive(key(h), key(if rest[j] in a' then a[0] else b[0]), key(rest[j]));
      }
    }
  }

  /** The result is in non-decreasing order. */
  lemma {:induction false} SortSorts<T>(s: seq<T>, key: T -> CString)
    ensures Sorted(SortBy(s, key), key)
    decreases |s|
  {
    if |s| < 2 {
    } else if Ascending(s, key) {
      AscendingSorted(s, key);
      assert forall i, j :: 0 <= i < j < |s| ==> KeyLess(s[i], s[j], key);
    } else {
      var m := (|s| + 1) / 2;
      SortSorts(s[..m], key);
      SortSorts(s[m..], key);
      MergeSorted(SortBy(s[..m], key), SortBy(s[m..], key), key);
    }
  }

  /** An element at two places of `t` is at two places of every permutation of `t`. */
  lemma OccursTwice<T>(s: seq<T>, t: seq<T>, i: nat, j: nat) returns (p: nat, q: nat)
    requires multiset(s) == multiset(t) && i < j < |t| && t[i] == t[j]
    ensures p < q < |s| && s[p] == s[q] == t[i]
  {
    var x := t[i];
    assert t == t[..j] + [x] + t[j + 1..] && t[..j][i] == x;
    assert multiset(t[..j])[x] >= 1 && multiset(s)[x] >= 2;
    p :| 0 <= p < |s| && s[p] == x;
    assert s == s[..p] + [x] + s[p + 1..];
    assert multiset(s[..p])[x] >= 1 || multiset(s[p + 1..])[x] >= 1;
    if multiset(s[..p])[x] >= 1 {
      q := p;
      p :| 0 <= p < q && s[..q][p] == x;
    } else {
      var r :| 0 <= r < |s| - p - 1 && s[p + 1..][r] == x;
      q := p + 1 + r;
    }
  }

  lemma PermutationDistinct<T>(s: seq<T>, t: seq<T>, key: T -> CString)
    requires multiset(s) == multiset(t) && Distinct(s, key)
    ensures Distinct(t, key)
  {
    forall i, j | 0 <= i < j < |t| ensures key(t[i]) != key(t[j]) {
      if t[i] == t[j] {
        var p, q := OccursTwice(s, t, i, j);
      } else {
        assert t[i] in multiset(t) && t[j] in multiset(t);
        assert t[i] in s && t[j] in s;
      }
    }
  }

  /** With distinct keys the sorted list is strictly ascending. */
  lemma SortDistinct<T>(s: seq<T>, key: T -> CString)
    requires Distinct(s, key)
    ensures StrictlySorted(SortBy(s, key), key) && Distinct(SortBy(s, key), key)
  {
    SortSorts(s, key);
    SortPermutes(s, key);
    PermutationDistinct(s, SortBy(s, key), key);
    var t := SortBy(s, key);
    forall i, j | 0 <= i < j < |t| ensures KeyLess(t[i], t[j], key) {
      CmpZero(key(t[i]), key(t[j]));
    }
  }

  // ----- elements with one key

  function OfKey<T>(s: seq<T>, key: T -> CString, k: CString): seq<T> {
    if s == [] then [] else (if key(s[0]) == k then [s[0]] else []) + OfKey(s[1..], key, k)
  }

  function Backwards<T>(s: seq<T>): seq<T> {
    if s == [] then [] else Backwards(s[1..]) + [s[0]]
  }

  lemma Joins<T>(a: seq<T>, b: seq<T>, c: seq<T>)
    ensures a + (b + c) == a + b + c
  {}

  lemma {:induction false} OfKeyConcat<T>(a: seq<T>, b: seq<T>, key: T -> CString, k: CString)
    ensures OfKey(a + b, key, k) == OfKey(a, key, k) + OfKey(b, key, k)
  {
    if a == [] {
      assert a + b == b;
    } else {
      assert (a + b)[1..] == a[1..] + b && (a + b)[0] == a[0];
      OfKeyConcat(a[1..], b, key, k);
      Joins(if key(a[0]) == k then [a[0]] else [], OfKey(a[1..], key, k), OfKey(b, key, k));
    }
  }

  lemma {:induction false} BackwardsConcat<T>(a: seq<T>, b: seq<T>)
    ensures Backwards(a + b) == Backwards(b) + Backwards(a)
  {
    if a == [] {
      assert a + b == b;
    } else {
      assert (a + b)[1..] == a[1..] + b;
      BackwardsConcat(a[1..], b);
    }
  }

  lemma {:induction false} NoneOfKey<T>(s: seq<T>, key: T -> CString, k: CString)
    requires forall x | x in s :: key(x) != k
    ensures OfKey(s, key, k) == []
  {
    if s != [] {
      NoneOfKey(s[1..], key, k);
    }
  }

  lemma {:induction false} OneOfKey<T>(s: seq<T>, key: T -> CString, k: CString)
    requires Distinct(s, key)
    ensures |OfKey(s, key, k)| < 2
  {
    if s != [] {
      OneOfKey(s[1..], key, k);
      if key(s[0]) == k {
        forall x | x in s[1..] ensures key(x) != k {
          var i :| 0 <= i < |s| - 1 && s[1..][i] == x;
          assert key(s[0]) != key(s[i + 1]);
        }
        NoneOfKey(s[1..], key, k);
      }
    }
  }

  lemma SmallerHead<T>(x: T, s: seq<T>, key: T -> CString)
    requires s != [] && KeyLess(x, s[0], key) && Sorted(s, key)
    ensures OfKey(s, key, key(x)) == []
  {
    forall y | y in s ensures key(y) != key(x) {
      HeadLeast(s, y, key);
      LessTransitive(key(x), key(s[0]), key(y));
      CmpZero(key(x), key(x));
    }
    NoneOfKey(s, key, key(x));
  }

  lemma {:induction false} MergeTies<T>(a: seq<T>, b: seq<T>, key: T -> CString, k: CString)
    requires Sorted(a, key) && Sorted(b, key)
    ensures OfKey(Merge(a, b, key), key, k) == OfKey(b, key, k) + OfKey(a, key, k)
  {
    if a != [] && b != [] {
      if KeyLess(a[0], b[0], key) {
        MergeTies(a[1..], b, key, k);
        if key(a[0]) == k {
          SmallerHead(a[0], b, key);
        }
      } else {
        MergeTies(a, b[1..], key, k);
      }
    }
  }

  lemma KeysDiffer<T>(s: seq<T>, key: T -> CString)
    requires |s| < 2 || Ascending(s, key)
    ensures Distinct(s, key)
  {
    if |s| >= 2 {
      AscendingSorted(s, key);
      forall i, j | 0 <= i < j < |s| ensures key(s[i]) != key(s[j]) {
        assert KeyLess(s[i], s[j], key);
        CmpZero(key(s[i]), key(s[j]));
      }
    }
  }

  lemma Short<T>(s: seq<T>)
    requires |s| < 2
    ensures Backwards(s) == s
  {
    if s != [] {
      assert s[1..] == [] && Backwards(s[1..]) == [];
    }
  }

  /** The sort is stable back to front: elements with one key come out in the opposite order. */
  lemma {:induction false} SortTurnsEqual<T>(s: seq<T>, key: T -> CString, k: CString)
    ensures OfKey(SortBy(s, key), key, k) == Backwards(OfKey(s, key, k))
    decreases |s|
  {
    hide OfKey, Backwards, Merge, Sorted;
    if |s| < 2 || Ascending(s, key) {
      KeysDiffer(s, key);
      OneOfKey(s, key, k);
      Short(OfKey(s, key, k));
    } else {
      hide Ascending;
      var m := (|s| + 1) / 2;
      var a, b := s[..m], s[m..];
      SortTurnsEqual(a, key, k);
      SortTurnsEqual(b, key, k);
      SortSorts(a, key);
      SortSorts(b, key);
      MergeTies(SortBy(a, key), SortBy(b, key), key, k);
      assert s == a + b;
      OfKeyConcat(a, b, key, k);
      BackwardsConcat(OfKey(a, key, k), OfKey(b, key, k));
    }
  }
}
