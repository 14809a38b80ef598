/** Sequence operations the source gets from Go's library or writes as loops:
    sorting by a key (the stand-in for `sort.Slice` and for `ORDER BY`), filtering,
    and mapping. */
module Seqs {

  ghost predicate SortedBy<T>(s: seq<T>, key: T -> int) {
    forall i, j :: 0 <= i < j < |s| ==> key(s[i]) <= key(s[j])
  }

  /** Inserts `x` into a sorted sequence before the first element whose key is not smaller. */
  function InsertBy<T>(x: T, s: seq<T>, key: T -> int): (r: seq<T>)
    requires SortedBy(s, key)
    ensures |r| == |s| + 1
    ensures r[0] == x || (|s| > 0 && r[0] == s[0])
    ensures SortedBy(r, key)
    ensures multiset(r) == multiset(s) + multiset{x}
    decreases |s|
  {
    if |s| == 0 || key(x) <= key(s[0]) then [x] + s
    else
      var rest := InsertBy(x, s[1..], key);
      assert s == [s[0]] + s[1..];
      assert key(s[0]) <= key(rest[0]);
      [s[0]] + rest
  }

  /** Sorts by a key: the result is sorted and a permutation of the input. Being an
      insertion sort it also keeps equal keys in input order, which `sort.Slice` does
      not promise. */
  function SortBy<T>(s: seq<T>, key: T -> int): (r: seq<T>)
    ensures |r| == |s|
    ensures SortedBy(r, key)
    ensures multiset(r) == multiset(s)
    decreases |s|
  {
    if |s| == 0 then []
    else
      assert s == [s[0]] + s[1..];
      InsertBy(s[0], SortBy(s[1..], key), key)
  }

  /** The elements that satisfy `p`, in their original order. */
  function Filter<T>(p: T -> bool, s: seq<T>): (r: seq<T>)
    ensures |r| <= |s|
    ensures forall i :: 0 <= i < |r| ==> r[i] in s && p(r[i])
    ensures forall i :: 0 <= i < |s| && p(s[i]) ==> s[i] in r
    decreases |s|
  {
    if |s| == 0 then []
    else (if p(s[0]) then [s[0]] else []) + Filter(p, s[1..])
  }

  /** Filtering keeps every element that satisfies `p` as often as it occurs, and
      no other. */
  lemma {:induction false} FilterMultiset<T>(p: T -> bool, s: seq<T>)
    ensures forall x :: multiset(Filter(p, s))[x] == if p(x) then multiset(s)[x] else 0
    decreases |s|
  {
    if |s| > 0 {
      FilterMultiset(p, s[1..]);
      assert s == [s[0]] + s[1..];
    }
  }

  /** Filtering a sequence extended by one element extends the filtered sequence
      by that element when it satisfies the predicate: together with `Filter(p, [])
      == []` this fixes the result, the kept elements in their original order. */
  lemma {:induction false} FilterSnoc<T>(p: T -> bool, s: seq<T>, x: T)
    ensures Filter(p, s + [x]) == Filter(p, s) + (if p(x) then [x] else [])
    decreases |s|
  {
    if |s| == 0 {
      assert s + [x] == [x];
    } else {
      assert (s + [x])[1..] == s[1..] + [x];
      FilterSnoc(p, s[1..], x);
    }
  }

  function MapSeq<T, U>(f: T -> U, s: seq<T>): (r: seq<U>)
    ensures |r| == |s|
    ensures forall i :: 0 <= i < |s| ==> r[i] == f(s[i])
  {
    seq(|s|, i requires 0 <= i < |s| => f(s[i]))
  }

  /** When `f` keeps the key, mapping `f` over an insertion is the insertion of the image. */
  lemma {:induction false} InsertByMap<T, U>(f: T -> U, x: T, s: seq<T>, k1: T -> int, k2: U -> int)
    requires forall y :: k2(f(y)) == k1(y)
    requires SortedBy(s, k1)
    ensures SortedBy(MapSeq(f, s), k2)
    ensures MapSeq(f, InsertBy(x, s, k1)) == InsertBy(f(x), MapSeq(f, s), k2)
    decreases |s|
  {
    if |s| > 0 && k1(x) > k1(s[0]) {
      InsertByMap(f, x, s[1..], k1, k2);
      assert MapSeq(f, s)[1..] == MapSeq(f, s[1..]);
    }
  }

  /** When `f` keeps the key, sorting commutes with mapping `f`. */
  lemma {:induction false} SortByMap<T, U>(f: T -> U, s: seq<T>, k1: T -> int, k2: U -> int)
    requires forall y :: k2(f(y)) == k1(y)
    ensures MapSeq(f, SortBy(s, k1)) == SortBy(MapSeq(f, s), k2)
    decreases |s|
  {
    if |s| > 0 {
      var ms := MapSeq(f, s);
      assert ms[0] == f(s[0]) && ms[1..] == MapSeq(f, s[1..]);
      calc {
        MapSeq(f, SortBy(s, k1));
        MapSeq(f, InsertBy(s[0], SortBy(s[1..], k1), k1));
        { InsertByMap(f, s[0], SortBy(s[1..], k1), k1, k2); }
        InsertBy(f(s[0]), MapSeq(f, SortBy(s[1..], k1)), k2);
        { SortByMap(f, s[1..], k1, k2); }
        InsertBy(ms[0], SortBy(ms[1..], k2), k2);
        SortBy(ms, k2);
      }
    }
  }

  /** Consequence: the images of a sorted copy are a permutation of the images of the input. */
  lemma SortByMapPermutation<T, U>(f: T -> U, s: seq<T>, k1: T -> int, k2: U -> int)
    requires forall y :: k2(f(y)) == k1(y)
    ensures multiset(MapSeq(f, SortBy(s, k1))) == multiset(MapSeq(f, s))
  {
    SortByMap(f, s, k1, k2);
  }

  /** No two elements share a key. */
  ghost predicate DistinctBy<T>(s: seq<T>, key: T -> int) {
    forall i, j :: 0 <= i < j < |s| ==> key(s[i]) != key(s[j])
  }

  /** Filtering keeps keys distinct. */
  lemma {:induction false} FilterDistinct<T>(p: T -> bool, s: seq<T>, key: T -> int)
    requires DistinctBy(s, key)
    ensures DistinctBy(Filter(p, s), key)
    decreases |s|
  {
    if |s| > 0 {
      FilterDistinct(p, s[1..], key);
      var rest := Filter(p, s[1..]);
      forall j | 0 <= j < |rest| ensures key(s[0]) != key(rest[j]) {
        var m :| 0 <= m < |s[1..]| && s[1..][m] == rest[j];
        assert s[m + 1] == rest[j];
      }
    }
  }
}
