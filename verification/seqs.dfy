/**
 Sequence helpers behind the application's list idioms: `Array.filter`,
 the insertion order of a `Set` / `Map`, and "keeps the others in order".
 */
module Seqs {

  /** `b` contains the elements of `a`, in the same order, possibly with others between them. */
  ghost predicate IsSubsequence<T>(a: seq<T>, b: seq<T>)
    decreases |b|
  {
    a == [] || (b != [] && if a[0] == b[0] then IsSubsequence(a[1..], b[1..]) else IsSubsequence(a, b[1..]))
  }

  lemma {:induction false} SubsequenceOfSelf<T>(a: seq<T>)
    ensures IsSubsequence(a, a)
  {
    if a != [] {
      SubsequenceOfSelf(a[1..]);
    }
  }

  /** Dropping the first element of `a` keeps it a subsequence. */
  lemma {:induction false} SubsequenceDropFirst<T>(a: seq<T>, c: seq<T>)
    requires a != [] && IsSubsequence(a, c)
    ensures IsSubsequence(a[1..], c)
    decreases |a| + |c|, 1
  {
    if a[0] == c[0] {
      if a[1..] != [] {
        SubsequenceExtend(a[1..], c);
      }
    } else {
      SubsequenceDropFirst(a, c[1..]);
      if a[1..] != [] {
        SubsequenceExtend(a[1..], c);
      }
    }
  }

  /** A subsequence of the tail of `b` is a subsequence of `b`. */
  lemma {:induction false} SubsequenceExtend<T>(a: seq<T>, b: seq<T>)
    requires b != [] && IsSubsequence(a, b[1..])
    ensures IsSubsequence(a, b)
    decreases |a| + |b|, 0
  {
    if a != [] && a[0] == b[0] {
      SubsequenceDropFirst(a, b[1..]);
    }
  }

  lemma SplitHead<T>(a: seq<T>, x: seq<T>)
    requires a != []
    ensures a + x == [a[0]] + (a[1..] + x)
  {
  }

  /** Being a subsequence is transitive. */
  lemma {:induction false} SubsequenceTrans<T>(a: seq<T>, b: seq<T>, c: seq<T>)
    requires IsSubsequence(a, b) && IsSubsequence(b, c)
    ensures IsSubsequence(a, c)
    decreases |c|
  {
    if a != [] {
      if b[0] == c[0] {
        if a[0] == b[0] {
          SubsequenceTrans(a[1..], b[1..], c[1..]);
        } else {
          SubsequenceTrans(a, b[1..], c[1..]);
          SubsequenceExtend(a, c);
        }
      } else {
        SubsequenceTrans(a, b, c[1..]);
        SubsequenceExtend(a, c);
      }
    }
  }

  /** A prefix is a subsequence. */
  lemma {:induction false} PrefixIsSubsequence<T>(s: seq<T>, j: nat)
    requires j <= |s|
    ensures IsSubsequence(s[..j], s)
  {
    if j > 0 {
      PrefixIsSubsequence(s[1..], j - 1);
      assert s[..j][1..] == s[1..][..j - 1];
    }
  }

  /** A suffix is a subsequence. */
  lemma {:induction false} SuffixIsSubsequence<T>(s: seq<T>, i: nat)
    requires i <= |s|
    ensures IsSubsequence(s[i..], s)
  {
    if i == 0 {
      SubsequenceOfSelf(s);
    } else {
      SuffixIsSubsequence(s[1..], i - 1);
      assert s[1..][i - 1..] == s[i..];
      SubsequenceExtend(s[i..], s);
    }
  }

  /** `s.filter(p)` */
  function Filter<T(!new)>(s: seq<T>, p: T -> bool): (r: seq<T>)
    ensures |r| <= |s|
    ensures forall x :: x in r <==> x in s && p(x)
    ensures forall i :: 0 <= i < |r| ==> p(r[i])
  {
    if s == [] then [] else (if p(s[0]) then [s[0]] else []) + Filter(s[1..], p)
  }

  lemma {:induction false} FilterIsSubsequence<T(!new)>(s: seq<T>, p: T -> bool)
    ensures IsSubsequence(Filter(s, p), s)
  {
    if s != [] {
      FilterIsSubsequence(s[1..], p);
      var r := Filter(s, p);
      if p(s[0]) {
        assert r[1..] == Filter(s[1..], p);
      } else {
        assert r == Filter(s[1..], p);
      }
    }
  }

  lemma {:induction false} FilterAppend<T(!new)>(a: seq<T>, b: seq<T>, p: T -> bool)
    ensures Filter(a + b, p) == Filter(a, p) + Filter(b, p)
  {
    if a == [] {
      assert a + b == b;
    } else {
      assert (a + b)[1..] == a[1..] + b;
      FilterAppend(a[1..], b, p);
    }
  }

  /** Filtering keeps every copy of a passing element and no copy of a failing one. */
  lemma {:induction false} FilterMultiplicity<T(!new)>(s: seq<T>, p: T -> bool, x: T)
    ensures multiset(Filter(s, p))[x] == if p(x) then multiset(s)[x] else 0
  {
    if s != [] {
      FilterMultiplicity(s[1..], p, x);
      assert s == [s[0]] + s[1..];
    }
  }

  /** Filtering keeps everything exactly when every element passes. */
  lemma {:induction false} FilterKeepsAll<T(!new)>(s: seq<T>, p: T -> bool)
    ensures Filter(s, p) == s <==> forall i :: 0 <= i < |s| ==> p(s[i])
  {
    if s != [] {
      FilterKeepsAll(s[1..], p);
      assert forall i :: 1 <= i < |s| ==> s[i] == s[1..][i - 1];
    }
  }

  /** Filtering twice with the same predicate changes nothing more. */
  lemma FilterIdempotent<T(!new)>(s: seq<T>, p: T -> bool)
    ensures Filter(Filter(s, p), p) == Filter(s, p)
  {
    var r := Filter(s, p);
    FilterKeepsAll(r, p);
  }

  lemma FilterNone<T(!new)>(s: seq<T>, p: T -> bool)
    requires forall i :: 0 <= i < |s| ==> !p(s[i])
    ensures Filter(s, p) == []
  {
  }

  /** Index of the first occurrence of `x` in `s`. */
  function FirstIndex<T(==)>(s: seq<T>, x: T): (i: nat)
    requires x in s
    ensures i < |s| && s[i] == x
    ensures forall j :: 0 <= j < i ==> s[j] != x
  {
    if s[0] == x then 0 else 1 + FirstIndex(s[1..], x)
  }

  lemma FirstIndexPrefix<T>(s: seq<T>, y: T, x: T)
    requires x in s
    ensures FirstIndex(s + [y], x) == FirstIndex(s, x)
  {
    var i := FirstIndex(s + [y], x);
    var k := FirstIndex(s, x);
    assert (s + [y])[k] == x;
    assert i <= k;
    assert s[i] == x;
  }

  ghost predicate NoDuplicates<T>(s: seq<T>) {
    forall i, j :: 0 <= i < j < |s| ==> s[i] != s[j]
  }

  /**
   The distinct elements of `s` in the order of their first appearance, the
   iteration order of `new Set(s)` and of a `Map` filled from `s`.
   */
  function Distinct<T(==,!new)>(s: seq<T>): (r: seq<T>)
    ensures NoDuplicates(r)
    ensures forall x :: x in r <==> x in s
    ensures forall i, j :: 0 <= i < j < |r| ==> FirstIndex(s, r[i]) < FirstIndex(s, r[j])
  {
    if s == [] then []
    else
      var p := s[..|s| - 1];
      var x := s[|s| - 1];
      var d := Distinct(p);
      assert s == p + [x];
      assert forall y :: y in d ==> FirstIndex(s, y) == FirstIndex(p, y) by {
        forall y | y in d ensures FirstIndex(s, y) == FirstIndex(p, y) {
          FirstIndexPrefix(p, x, y);
        }
      }
      if x in p then d
      else
        assert FirstIndex(s, x) == |p|;
        d + [x]
  }
  // ---------------------------------------------------------------- stable sort by a key from a finite set

  /** `x => key(x) === v`, named so that every use denotes the same function. */
  function KeyIs<T>(key: T -> int, v: int): T -> bool {
    x => key(x) == v
  }

  function KeyIn<T>(key: T -> int, domain: seq<int>): T -> bool {
    x => key(x) in domain
  }

  predicate StrictlyIncreasing(s: seq<int>) {
    forall i, j :: 0 <= i < j < |s| ==> s[i] < s[j]
  }

  /**
   `s.sort((a, b) => key(a) - key(b))` for a stable sort when every key lies
   in the strictly increasing `domain`: the elements with the smallest key
   in their original order, then those with the next key, and so on.
   */
  function BucketSort<T(!new)>(s: seq<T>, key: T -> int, domain: seq<int>): (r: seq<T>)
    requires StrictlyIncreasing(domain)
    ensures forall i :: 0 <= i < |r| ==> key(r[i]) in domain
    ensures forall i, j :: 0 <= i < j < |r| ==> key(r[i]) <= key(r[j])
    decreases |domain|
  {
    if domain == [] then []
    else
      var bucket := Filter(s, KeyIs(key, domain[0]));
      assert StrictlyIncreasing(domain[1..]);
      var rest := BucketSort(s, key, domain[1..]);
      assert forall i :: 0 <= i < |rest| ==> domain[0] < key(rest[i]) by {
        forall i | 0 <= i < |rest| ensures domain[0] < key(rest[i]) {
          var k :| 0 <= k < |domain[1..]| && domain[1..][k] == key(rest[i]);
          assert domain[k + 1] == key(rest[i]);
        }
      }
      assert forall i :: 0 <= i < |bucket| ==> key(bucket[i]) == domain[0] by {
        forall i | 0 <= i < |bucket| ensures key(bucket[i]) == domain[0] {
          assert KeyIs(key, domain[0])(bucket[i]);
        }
      }
      bucket + rest
  }

  lemma HeadNotInTail(domain: seq<int>)
    requires domain != [] && StrictlyIncreasing(domain)
    ensures domain[0] !in domain[1..]
    ensures StrictlyIncreasing(domain[1..])
  {
    forall k | 0 <= k < |domain[1..]| ensures domain[1..][k] != domain[0] {
      assert domain[0] < domain[k + 1];
    }
  }

  /** Filtering for one key finds nothing among elements that all carry another key. */
  lemma OtherKeyFiltersEmpty<T(!new)>(s: seq<T>, key: T -> int, d: int, v: int)
    requires d != v
    ensures Filter(Filter(s, KeyIs(key, d)), KeyIs(key, v)) == []
  {
    var bucket := Filter(s, KeyIs(key, d));
    forall i | 0 <= i < |bucket| ensures !KeyIs(key, v)(bucket[i]) {
      assert KeyIs(key, d)(bucket[i]);
    }
    FilterNone(bucket, KeyIs(key, v));
  }

  /** Keys outside the domain are dropped. */
  lemma {:induction false} BucketSortOutside<T(!new)>(s: seq<T>, key: T -> int, domain: seq<int>, v: int)
    requires StrictlyIncreasing(domain) && v !in domain
    ensures Filter(BucketSort(s, key, domain), KeyIs(key, v)) == []
    decreases |domain|
  {
    if domain != [] {
      HeadNotInTail(domain);
      var bucket := Filter(s, KeyIs(key, domain[0]));
      var rest := BucketSort(s, key, domain[1..]);
      assert BucketSort(s, key, domain) == bucket + rest;
      BucketSortOutside(s, key, domain[1..], v);
      FilterAppend(bucket, rest, KeyIs(key, v));
      OtherKeyFiltersEmpty(s, key, domain[0], v);
    }
  }

  /**
   Stability and completeness: for a key in the domain the sorted sequence
   holds exactly the elements with that key, in their original order.
   */
  lemma {:induction false} BucketSortPerKey<T(!new)>(s: seq<T>, key: T -> int, domain: seq<int>, v: int)
    requires StrictlyIncreasing(domain) && v in domain
    ensures Filter(BucketSort(s, key, domain), KeyIs(key, v)) == Filter(s, KeyIs(key, v))
    decreases |domain|
  {
    HeadNotInTail(domain);
    var bucket := Filter(s, KeyIs(key, domain[0]));
    var rest := BucketSort(s, key, domain[1..]);
    assert BucketSort(s, key, domain) == bucket + rest;
    FilterAppend(bucket, rest, KeyIs(key, v));
    if v == domain[0] {
      FilterIdempotent(s, KeyIs(key, v));
      BucketSortOutside(s, key, domain[1..], v);
    } else {
      assert domain == [domain[0]] + domain[1..];
      BucketSortPerKey(s, key, domain[1..], v);
      OtherKeyFiltersEmpty(s, key, domain[0], v);
    }
  }

  /** Splitting a filter by two exclusive predicates splits its multiset. */
  lemma {:induction false} FilterSplitMultiset<T(!new)>(s: seq<T>, p: T -> bool, q: T -> bool, both: T -> bool)
    requires forall x :: both(x) == (p(x) || q(x)) && !(p(x) && q(x))
    ensures multiset(Filter(s, both)) == multiset(Filter(s, p)) + multiset(Filter(s, q))
  {
    if s != [] {
      FilterSplitMultiset(s[1..], p, q, both);
    }
  }

  lemma SplitDomain<T>(key: T -> int, domain: seq<int>, x: T)
    requires domain != [] && StrictlyIncreasing(domain)
    ensures KeyIn(key, domain)(x) == (KeyIs(key, domain[0])(x) || KeyIn(key, domain[1..])(x))
    ensures !(KeyIs(key, domain[0])(x) && KeyIn(key, domain[1..])(x))
  {
    HeadNotInTail(domain);
    assert domain == [domain[0]] + domain[1..];
  }

  /** With every key in the domain the sort only rearranges: same elements, same multiplicities. */
  lemma {:induction false} BucketSortPermutes<T(!new)>(s: seq<T>, key: T -> int, domain: seq<int>)
    requires StrictlyIncreasing(domain)
    ensures multiset(BucketSort(s, key, domain)) == multiset(Filter(s, KeyIn(key, domain)))
    decreases |domain|
  {
    if domain == [] {
      FilterNone(s, KeyIn(key, domain));
    } else {
      HeadNotInTail(domain);
      BucketSortPermutes(s, key, domain[1..]);
      forall x {
        SplitDomain(key, domain, x);
      }
      FilterSplitMultiset(s, KeyIs(key, domain[0]), KeyIn(key, domain[1..]), KeyIn(key, domain));
    }
  }

  /** When every key lies in the domain, the bucket sort is a permutation. */
  lemma BucketSortPermutesAll<T(!new)>(s: seq<T>, key: T -> int, domain: seq<int>)
    requires StrictlyIncreasing(domain)
    requires forall i :: 0 <= i < |s| ==> key(s[i]) in domain
    ensures multiset(BucketSort(s, key, domain)) == multiset(s)
  {
    BucketSortPermutes(s, key, domain);
    FilterKeepsAll(s, KeyIn(key, domain));
  }
}
