/** Sequence utilities: filtering in order and a stable sort by an integer
    key (the `ORDER BY` of a queryset and JavaScript's `Array.sort` with a
    numeric comparator). */
module Seqs {

  /** The elements satisfying `p`, in their original order. */
  function Filter<T(!new)>(s: seq<T>, p: T -> bool): (r: seq<T>)
    ensures |r| <= |s|
    ensures forall x :: x in r <==> x in s && p(x)
    ensures forall k :: 0 <= k < |r| ==> p(r[k])
  {
    if s == [] then []
    else if p(s[0]) then [s[0]] + Filter(s[1..], p)
    else Filter(s[1..], p)
  }

  /** Two predicates that split a third between them, without overlap,
      split its filtering. */
  lemma {:induction false} FilterPartition<T(!new)>(s: seq<T>, whole: T -> bool, left: T -> bool, right: T -> bool)
    requires forall x :: whole(x) == (left(x) || right(x))
    requires forall x :: !(left(x) && right(x))
    ensures multiset(Filter(s, left)) + multiset(Filter(s, right)) == multiset(Filter(s, whole))
  {
    if s != [] {
      FilterPartition(s[1..], whole, left, right);
    }
  }

  /** Two predicates that agree on the elements filter alike. */
  lemma {:induction false} FilterCongruent<T(!new)>(s: seq<T>, p: T -> bool, q: T -> bool)
    requires forall k :: 0 <= k < |s| ==> p(s[k]) == q(s[k])
    ensures Filter(s, p) == Filter(s, q)
  {
    if s != [] {
      FilterCongruent(s[1..], p, q);
    }
  }

  /** Filtering distributes over concatenation. */
  lemma {:induction false} FilterAppend<T(!new)>(a: seq<T>, b: seq<T>, p: T -> bool)
    ensures Filter(a + b, p) == Filter(a, p) + Filter(b, p)
  {
    if a != [] {
      FilterAppend(a[1..], b, p);
      FilterAppendStep(a, b, p);
    } else {
      assert a + b == b;
    }
  }

  /** The step of `FilterAppend`: from the tail of `a` to `a`. */
  lemma FilterAppendStep<T(!new)>(a: seq<T>, b: seq<T>, p: T -> bool)
    requires a != [] && Filter(a[1..] + b, p) == Filter(a[1..], p) + Filter(b, p)
    ensures Filter(a + b, p) == Filter(a, p) + Filter(b, p)
  {
    var head: seq<T> := if p(a[0]) then [a[0]] else [];
    var rest, fb := Filter(a[1..], p), Filter(b, p);
    SplitHead(a, b);
    FilterCons(a[0], a[1..] + b, p);
    assert Filter(a + b, p) == head + (rest + fb);
    assert [a[0]] + a[1..] == a;
    FilterCons(a[0], a[1..], p);
    assert Filter(a, p) == head + rest;
    AppendAssoc(head, rest, fb);
  }

  lemma SplitHead<T>(a: seq<T>, b: seq<T>)
    requires a != []
    ensures a + b == [a[0]] + (a[1..] + b)
  {
    assert a == [a[0]] + a[1..];
    AppendAssoc([a[0]], a[1..], b);
  }

  /** A prefix one longer is the prefix and the next element. */
  lemma TakeSnoc<T>(s: seq<T>, j: nat)
    requires j < |s|
    ensures s[..j + 1] == s[..j] + [s[j]]
  {
  }

  lemma AppendAssoc<T>(x: seq<T>, y: seq<T>, z: seq<T>)
    ensures x + (y + z) == (x + y) + z
  {
  }

  /** Keys are ascending along the sequence. */
  ghost predicate SortedBy<T>(s: seq<T>, key: T -> int) {
    forall i, j :: 0 <= i < j < |s| ==> key(s[i]) <= key(s[j])
  }

  /** Prepending an element no larger than the rest keeps a sequence sorted. */
  lemma SortedCons<T>(a: T, s: seq<T>, key: T -> int)
    requires SortedBy(s, key)
    requires forall k :: 0 <= k < |s| ==> key(a) <= key(s[k])
    ensures SortedBy([a] + s, key)
  {
    forall i, j | 0 <= i < j < |[a] + s| ensures key(([a] + s)[i]) <= key(([a] + s)[j]) {
      if i > 0 {
        assert ([a] + s)[i] == s[i - 1];
      }
    }
  }

  /** Inserts `x` before the first element whose key is not smaller. */
  function Insert<T>(x: T, s: seq<T>, key: T -> int): (r: seq<T>)
    requires SortedBy(s, key)
    ensures SortedBy(r, key)
    ensures multiset(r) == multiset(s) + multiset{x}
    ensures |r| == |s| + 1
  {
    if s == [] then [x]
    else if key(x) <= key(s[0]) then
      SortedCons(x, s, key);
      [x] + s
    else
      var rest := Insert(x, s[1..], key);
      assert s == [s[0]] + s[1..];
      assert forall k :: 0 <= k < |rest| ==> key(s[0]) <= key(rest[k]) by {
        forall k | 0 <= k < |rest| ensures key(s[0]) <= key(rest[k]) {
          assert rest[k] in multiset(rest);
          if rest[k] != x {
            assert rest[k] in multiset(s[1..]);
            var j :| 0 <= j < |s[1..]| && s[1..][j] == rest[k];
            assert s[j + 1] == rest[k];
          }
        }
      }
      SortedCons(s[0], rest, key);
      [s[0]] + rest
  }

  /** Insertion sort: ascending by `key` and a permutation of `s`. */
  function SortBy<T>(s: seq<T>, key: T -> int): (r: seq<T>)
    ensures SortedBy(r, key)
    ensures multiset(r) == multiset(s)
    ensures |r| == |s|
  {
    if s == [] then []
    else
      assert s == [s[0]] + s[1..];
      Insert(s[0], SortBy(s[1..], key), key)
  }

  lemma FilterCons<T(!new)>(a: T, s: seq<T>, p: T -> bool)
    ensures Filter([a] + s, p) == (if p(a) then [a] else []) + Filter(s, p)
  {
    assert ([a] + s)[1..] == s;
  }

  /** Among the elements of one key, `x` lands in front of those already in
      `s`. */
  lemma {:induction false} InsertKeyGroup<T(!new)>(x: T, s: seq<T>, key: T -> int, k: int, p: T -> bool)
    requires SortedBy(s, key)
    requires forall y :: p(y) == (key(y) == k)
    ensures Filter(Insert(x, s, key), p) == (if p(x) then [x] else []) + Filter(s, p)
  {
    if s == [] {
    } else if key(x) <= key(s[0]) {
      FilterCons(x, s, p);
    } else {
      var rest := s[1..];
      assert SortedBy(rest, key) by {
        forall i, j | 0 <= i < j < |rest| ensures key(rest[i]) <= key(rest[j]) {
          assert rest[i] == s[i + 1] && rest[j] == s[j + 1];
        }
      }
      var r := Insert(x, rest, key);
      InsertKeyGroup(x, rest, key, k, p);
      assert Insert(x, s, key) == [s[0]] + r;
      FilterCons(s[0], r, p);
      assert s == [s[0]] + rest;
      FilterCons(s[0], rest, p);
      assert p(x) ==> !p(s[0]);
    }
  }

  /** The sort is stable: the elements of each key keep their order. */
  lemma {:induction false} SortByStable<T(!new)>(s: seq<T>, key: T -> int, k: int, p: T -> bool)
    requires forall y :: p(y) == (key(y) == k)
    ensures Filter(SortBy(s, key), p) == Filter(s, p)
  {
    if s != [] {
      SortByStable(s[1..], key, k, p);
      InsertKeyGroup(s[0], SortBy(s[1..], key), key, k, p);
    }
  }

  /** Filtering twice is filtering by both predicates. */
  lemma {:induction false} FilterFilter<T(!new)>(s: seq<T>, p: T -> bool, q: T -> bool, pq: T -> bool)
    requires forall x :: pq(x) == (p(x) && q(x))
    ensures Filter(Filter(s, p), q) == Filter(s, pq)
  {
    if s != [] {
      FilterFilter(s[1..], p, q, pq);
    }
  }

  /** Values of `f` strictly increase along the sequence. */
  ghost predicate StrictlyBy<T>(s: seq<T>, f: T -> int) {
    forall i, j :: 0 <= i < j < |s| ==> f(s[i]) < f(s[j])
  }

  /** An element below everything in a strictly ordered sequence can go in
      front of it. */
  lemma StrictlyCons<T>(x: T, t: seq<T>, f: T -> int)
    requires StrictlyBy(t, f) && forall y :: y in t ==> f(x) < f(y)
    ensures StrictlyBy([x] + t, f)
  {
    var r := [x] + t;
    forall i, j | 0 <= i < j < |r| ensures f(r[i]) < f(r[j]) {
      assert r[j] == t[j - 1];
      if i > 0 {
        assert r[i] == t[i - 1];
      }
    }
  }

  /** A filtered sequence keeps any strict ordering of the original along
      its positions. */
  lemma {:induction false} FilterKeepsOrder<T(!new)>(s: seq<T>, p: T -> bool, f: T -> int)
    requires StrictlyBy(s, f)
    ensures StrictlyBy(Filter(s, p), f)
  {
    if s != [] {
      FilterKeepsOrder(s[1..], p, f);
      if p(s[0]) {
        var tail := Filter(s[1..], p);
        forall y | y in tail ensures f(s[0]) < f(y) {
          var k :| 0 <= k < |s[1..]| && s[1..][k] == y;
          assert s[k + 1] == y;
        }
        StrictlyCons(s[0], tail, f);
      }
    }
  }

  /** Filtering keeps a sequence sorted. */
  lemma {:induction false} FilterSorted<T(!new)>(s: seq<T>, p: T -> bool, key: T -> int)
    requires SortedBy(s, key)
    ensures SortedBy(Filter(s, p), key)
  {
    if s != [] {
      FilterSorted(s[1..], p, key);
      if p(s[0]) {
        var tail := Filter(s[1..], p);
        forall k | 0 <= k < |tail| ensures key(s[0]) <= key(tail[k]) {
          assert tail[k] in tail;
          var m :| 0 <= m < |s[1..]| && s[1..][m] == tail[k];
          assert s[m + 1] == tail[k];
        }
        SortedCons(s[0], tail, key);
      }
    }
  }

  /** Filtering by a predicate every element satisfies changes nothing. */
  lemma {:induction false} FilterAll<T(!new)>(s: seq<T>, p: T -> bool)
    requires forall k :: 0 <= k < |s| ==> p(s[k])
    ensures Filter(s, p) == s
  {
    if s != [] {
      FilterAll(s[1..], p);
    }
  }

  /** `a` is `b` with some elements deleted. */
  predicate Subsequence<T(==)>(a: seq<T>, b: seq<T>)
    decreases |b|
  {
    if b == [] then a == []
    else (a != [] && a[0] == b[0] && Subsequence(a[1..], b[1..])) || Subsequence(a, b[1..])
  }

  /** Filtering deletes elements and reorders nothing. */
  lemma {:induction false} FilterSubsequence<T(!new)>(s: seq<T>, p: T -> bool)
    ensures Subsequence(Filter(s, p), s)
  {
    if s != [] {
      FilterSubsequence(s[1..], p);
      if p(s[0]) {
        assert Filter(s, p)[1..] == Filter(s[1..], p);
      }
    }
  }

  lemma {:induction false} SubsequenceRefl<T>(s: seq<T>)
    ensures Subsequence(s, s)
    decreases |s|
  {
    if s != [] {
      SubsequenceRefl(s[1..]);
    }
  }

  /** Deleting elements twice is deleting elements once. */
  lemma {:induction false} SubsequenceTrans<T>(a: seq<T>, b: seq<T>, c: seq<T>)
    requires Subsequence(a, b) && Subsequence(b, c)
    ensures Subsequence(a, c)
    decreases |c|
  {
    if c != [] {
      if b != [] && b[0] == c[0] && Subsequence(b[1..], c[1..]) {
        if a != [] && a[0] == b[0] && Subsequence(a[1..], b[1..]) {
          SubsequenceTrans(a[1..], b[1..], c[1..]);
        } else {
          SubsequenceTrans(a, b[1..], c[1..]);
        }
      } else {
        SubsequenceTrans(a, b, c[1..]);
      }
    }
  }

  /** A filter applied only when `apply` holds. */
  function FilterIf<T(!new)>(apply: bool, s: seq<T>, p: T -> bool): (r: seq<T>)
    ensures forall x :: x in r <==> x in s && (apply ==> p(x))
    ensures Subsequence(r, s)
  {
    if apply then
      FilterSubsequence(s, p);
      Filter(s, p)
    else
      SubsequenceRefl(s);
      s
  }
}
