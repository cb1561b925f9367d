/** Ordering and sorting as the collectors use them: `sort.Strings` and `sort.Slice`
    by name compare strings byte-wise, which for UTF-8 text is the lexicographic
    order of code points; `sort.Ints` is the numeric order. */
module Sorting {

  /** Lexicographic "a comes no later than b" on strings. */
  predicate LessEq(a: string, b: string)
    decreases |a|
  {
    |a| == 0 || (|b| > 0 && (a[0] < b[0] || (a[0] == b[0] && LessEq(a[1..], b[1..]))))
  }

  lemma LessEqTotal(a: string, b: string)
    ensures LessEq(a, b) || LessEq(b, a)
    decreases |a|
  {
    if |a| > 0 && |b| > 0 && a[0] == b[0] {
      LessEqTotal(a[1..], b[1..]);
    }
  }

  lemma LessEqTrans(a: string, b: string, c: string)
    requires LessEq(a, b) && LessEq(b, c)
    ensures LessEq(a, c)
    decreases |a|
  {
    if |a| > 0 && |b| > 0 && |c| > 0 && a[0] == b[0] && b[0] == c[0] {
      LessEqTrans(a[1..], b[1..], c[1..]);
    }
  }

  lemma LessEqAntisym(a: string, b: string)
    requires LessEq(a, b) && LessEq(b, a)
    ensures a == b
    decreases |a|
  {
    if |a| > 0 {
      LessEqAntisym(a[1..], b[1..]);
      assert a == [a[0]] + a[1..] && b == [b[0]] + b[1..];
    }
  }

  predicate SortedBy<T>(s: seq<T>, key: T -> string) {
    forall i, j :: 0 <= i < j < |s| ==> LessEq(key(s[i]), key(s[j]))
  }

  function InsertBy<T(==)>(x: T, s: seq<T>, key: T -> string): (r: seq<T>)
    requires SortedBy(s, key)
    ensures SortedBy(r, key)
    ensures multiset(r) == multiset(s) + multiset{x}
    ensures |r| == |s| + 1
  {
    if |s| == 0 then [x]
    else if LessEq(key(x), key(s[0])) then
      assert forall j :: 0 < j < |s| ==> LessEq(key(s[0]), key(s[j]));
      forall j | 0 < j < |s| ensures LessEq(key(x), key(s[j])) {
        LessEqTrans(key(x), key(s[0]), key(s[j]));
      }
      assert s == [s[0]] + s[1..];
      [x] + s
    else
      LessEqTotal(key(x), key(s[0]));
      var rest := InsertBy(x, s[1..], key);
      assert s == [s[0]] + s[1..];
      forall j | 0 <= j < |rest| ensures LessEq(key(s[0]), key(rest[j])) {
        assert rest[j] in multiset(rest);
        if rest[j] != x {
          assert rest[j] in multiset(s[1..]);
          var k :| 1 <= k < |s| && s[k] == rest[j];
        }
      }
      [s[0]] + rest
  }

  /** An insertion sort by `key`: the result is ordered and a permutation of the input. */
  function SortBy<T(==)>(s: seq<T>, key: T -> string): (r: seq<T>)
    ensures SortedBy(r, key)
    ensures multiset(r) == multiset(s)
    ensures |r| == |s|
  {
    if |s| == 0 then []
    else
      assert s == s[..|s| - 1] + [s[|s| - 1]];
      InsertBy(s[|s| - 1], SortBy(s[..|s| - 1], key), key)
  }

  function Id(s: string): string { s }

  predicate Sorted(s: seq<string>) {
    forall i, j :: 0 <= i < j < |s| ==> LessEq(s[i], s[j])
  }

  /** sort.Strings. */
  function SortStrings(s: seq<string>): (r: seq<string>)
    ensures Sorted(r)
    ensures multiset(r) == multiset(s)
    ensures |r| == |s|
  {
    var r := SortBy(s, Id);
    assert forall i, j :: 0 <= i < j < |r| ==> LessEq(Id(r[i]), Id(r[j]));
    r
  }

  /** Sorting copies of one name changes nothing. */
  lemma SortStringsConstant(s: seq<string>, x: string)
    requires forall i :: 0 <= i < |s| ==> s[i] == x
    ensures SortStrings(s) == s
  {
    var r := SortStrings(s);
    forall i | 0 <= i < |r| ensures r[i] == s[i] {
      assert r[i] in multiset(r);
      assert r[i] in s;
    }
  }

  predicate SortedInts(s: seq<int>) {
    forall i, j :: 0 <= i < j < |s| ==> s[i] <= s[j]
  }

  function InsertInt(x: int, s: seq<int>): (r: seq<int>)
    requires SortedInts(s)
    ensures SortedInts(r)
    ensures multiset(r) == multiset(s) + multiset{x}
  {
    if |s| == 0 || x <= s[0] then [x] + s
    else
      var rest := InsertInt(x, s[1..]);
      assert s == [s[0]] + s[1..];
      forall j | 0 <= j < |rest| ensures s[0] <= rest[j] {
        assert rest[j] in multiset(rest);
        if rest[j] != x {
          assert rest[j] in multiset(s[1..]);
        }
      }
      [s[0]] + rest
  }

  /** sort.Ints. */
  function SortInts(s: seq<int>): (r: seq<int>)
    ensures SortedInts(r)
    ensures multiset(r) == multiset(s)
  {
    if |s| == 0 then []
    else
      assert s == s[..|s| - 1] + [s[|s| - 1]];
      InsertInt(s[|s| - 1], SortInts(s[..|s| - 1]))
  }

  /** A subsequence kept by membership in `keep`, in order. */
  function KeepOnly<T(!new)>(s: seq<T>, keep: set<T>): (r: seq<T>)
    ensures |r| <= |s|
    ensures forall x :: x in r <==> x in s && x in keep
  {
    if |s| == 0 then []
    else if s[0] in keep then [s[0]] + KeepOnly(s[1..], keep)
    else KeepOnly(s[1..], keep)
  }

  lemma KeepOnlyAppend<T(!new)>(a: seq<T>, b: seq<T>, keep: set<T>)
    ensures KeepOnly(a + b, keep) == KeepOnly(a, keep) + KeepOnly(b, keep)
  {
    if |a| > 0 {
      assert (a + b)[1..] == a[1..] + b;
    } else {
      assert a + b == b;
    }
  }

  /** Filtering keeps the order of what it keeps. */
  lemma KeepOnlySorted(s: seq<string>, keep: set<string>)
    requires Sorted(s)
    ensures Sorted(KeepOnly(s, keep))
  {
    if |s| > 0 {
      KeepOnlySorted(s[1..], keep);
      var r := KeepOnly(s[1..], keep);
      forall j | 0 <= j < |r| ensures LessEq(s[0], r[j]) {
        assert r[j] in s[1..];
      }
    }
  }

  /** Filtering a permutation gives a permutation of the filtered sequence. */
  lemma KeepOnlyMultiset<T(!new)>(s: seq<T>, keep: set<T>, x: T)
    ensures multiset(KeepOnly(s, keep))[x] == if x in keep then multiset(s)[x] else 0
  {
    if |s| > 0 {
      KeepOnlyMultiset(s[1..], keep, x);
      assert s == [s[0]] + s[1..];
    }
  }
}
