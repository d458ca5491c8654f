/**
 Sorting: the ranking of the detector's candidates, and stable sorting by an integer
 key, which the uplink uses twice. The latter is pinned down by what a stable sort
 promises: the result is ordered and keeps, for every key, the elements with that
 key in their original order. Any two results with these properties are equal.
 */
module StableSort {
  // ----- insertion sort for any order -----

  /** `x` placed before the first element it may precede. */
  function Insert<T>(x: T, s: seq<T>, first: (T, T) -> bool): seq<T> {
    if s == [] || first(x, s[0]) then [x] + s
    else [s[0]] + Insert(x, s[1..], first)
  }

  function Arrange<T>(s: seq<T>, first: (T, T) -> bool): seq<T> {
    if s == [] then [] else Insert(s[0], Arrange(s[1..], first), first)
  }

  ghost predicate Arranged<T>(s: seq<T>, first: (T, T) -> bool) {
    forall i, j :: 0 <= i < j < |s| ==> first(s[i], s[j])
  }

  lemma {:induction false} InsertContents<T>(x: T, s: seq<T>, first: (T, T) -> bool)
    ensures multiset(Insert(x, s, first)) == multiset([x] + s) && |Insert(x, s, first)| == |s| + 1
  {
    if s != [] && !first(x, s[0]) {
      InsertContents(x, s[1..], first);
      assert [x] + s == [x] + [s[0]] + s[1..];
    }
  }

  lemma {:induction false} ArrangeContents<T>(s: seq<T>, first: (T, T) -> bool)
    ensures multiset(Arrange(s, first)) == multiset(s) && |Arrange(s, first)| == |s|
  {
    if s != [] {
      ArrangeContents(s[1..], first);
      InsertContents(s[0], Arrange(s[1..], first), first);
      assert s == [s[0]] + s[1..];
    }
  }

  lemma {:induction false} InsertArranged<T>(x: T, s: seq<T>, first: (T, T) -> bool)
    requires forall a, b, c :: first(a, b) && first(b, c) ==> first(a, c)
    requires Arranged(s, first) && forall i :: 0 <= i < |s| ==> first(x, s[i]) || first(s[i], x)
    ensures Arranged(Insert(x, s, first), first)
  {
    if s == [] {
    } else if first(x, s[0]) {
      forall i | 0 <= i < |s| ensures first(x, s[i]) { assert i > 0 ==> first(s[0], s[i]); }
    } else {
      var rest := s[1..];
      var t := Insert(x, rest, first);
      InsertArranged(x, rest, first);
      InsertContents(x, rest, first);
      forall i | 0 <= i < |t| ensures first(s[0], t[i]) {
        assert t[i] in multiset(t);
        assert t[i] == x || t[i] in rest;
      }
    }
  }

  /** A transitive order that relates any two elements is established. */
  lemma {:induction false} ArrangeArranges<T>(s: seq<T>, first: (T, T) -> bool)
    requires forall a, b, c :: first(a, b) && first(b, c) ==> first(a, c)
    requires forall i, j :: 0 <= i < j < |s| ==> first(s[i], s[j]) || first(s[j], s[i])
    ensures Arranged(Arrange(s, first), first)
  {
    if s != [] {
      var rest := s[1..];
      var t := Arrange(rest, first);
      ArrangeArranges(rest, first);
      ArrangeContents(rest, first);
      forall i | 0 <= i < |t| ensures first(s[0], t[i]) || first(t[i], s[0]) {
        assert t[i] in multiset(t);
        assert t[i] in rest;
      }
      InsertArranged(s[0], t, first);
    }
  }

  // ----- stable sorting by a key -----

  function ByKey<T>(key: T -> int): (T, T) -> bool { (a: T, b: T) => key(a) <= key(b) }

  function Sort<T>(s: seq<T>, key: T -> int): seq<T> { Arrange(s, ByKey(key)) }

  ghost predicate Ordered<T>(s: seq<T>, key: T -> int) {
    forall i, j :: 0 <= i <= j < |s| ==> key(s[i]) <= key(s[j])
  }

  /** The elements with key `k`, in order. */
  function WithKey<T>(s: seq<T>, key: T -> int, k: int): seq<T> {
    if s == [] then []
    else (if key(s[0]) == k then [s[0]] else []) + WithKey(s[1..], key, k)
  }

  lemma SortOrdered<T>(s: seq<T>, key: T -> int)
    ensures Ordered(Sort(s, key), key) && multiset(Sort(s, key)) == multiset(s) && |Sort(s, key)| == |s|
  {
    ArrangeContents(s, ByKey(key));
    ArrangeArranges(s, ByKey(key));
    ArrangedIsOrdered(Sort(s, key), key);
  }

  lemma ArrangedIsOrdered<T>(s: seq<T>, key: T -> int)
    requires Arranged(s, ByKey(key))
    ensures Ordered(s, key)
  {
    forall i, j | 0 <= i <= j < |s| ensures key(s[i]) <= key(s[j]) {
      if i < j { assert ByKey(key)(s[i], s[j]); }
    }
  }

  lemma {:induction false} InsertStable<T>(x: T, s: seq<T>, key: T -> int, k: int)
    ensures WithKey(Insert(x, s, ByKey(key)), key, k) == WithKey([x] + s, key, k)
  {
    if s != [] && key(x) > key(s[0]) {
      var tail := s[1..];
      InsertStable(x, tail, key, k);
      ConsWithKey(s[0], Insert(x, tail, ByKey(key)), key, k);
      ConsWithKey(s[0], [x] + tail, key, k);
      SwapWithKey(x, s[0], tail, key, k);
      assert s == [s[0]] + tail;
    }
  }

  /** Elements with different keys may change places. */
  lemma SwapWithKey<T>(x: T, y: T, s: seq<T>, key: T -> int, k: int)
    requires key(x) != key(y)
    ensures WithKey([x] + ([y] + s), key, k) == WithKey([y] + ([x] + s), key, k)
  {
    ConsWithKey(x, [y] + s, key, k);
    ConsWithKey(y, [x] + s, key, k);
    ConsWithKey(x, s, key, k);
    ConsWithKey(y, s, key, k);
  }

  lemma ConsWithKey<T>(x: T, s: seq<T>, key: T -> int, k: int)
    ensures WithKey([x] + s, key, k) == (if key(x) == k then [x] else []) + WithKey(s, key, k)
  {
    assert ([x] + s)[1..] == s;
  }

  lemma {:induction false} SortStable<T>(s: seq<T>, key: T -> int, k: int)
    ensures WithKey(Sort(s, key), key, k) == WithKey(s, key, k)
  {
    if s != [] {
      SortStable(s[1..], key, k);
      InsertStable(s[0], Sort(s[1..], key), key, k);
      ConsWithKey(s[0], Sort(s[1..], key), key, k);
    }
  }

  lemma {:induction false} WithKeyMember<T>(s: seq<T>, key: T -> int, k: int)
    ensures WithKey(s, key, k) != [] ==> exists i :: 0 <= i < |s| && key(s[i]) == k
    ensures (exists i :: 0 <= i < |s| && key(s[i]) == k) ==> WithKey(s, key, k) != []
  {
    if s != [] {
      WithKeyMember(s[1..], key, k);
      if i :| 0 <= i < |s[1..]| && key(s[1..][i]) == k { assert key(s[i + 1]) == k; }
      if i :| 0 <= i < |s| && key(s[i]) == k { if i > 0 { assert key(s[1..][i - 1]) == k; } }
    }
  }

  /** Every stable sort of `s` is this one. */
  lemma {:induction false} StableSortUnique<T>(a: seq<T>, b: seq<T>, key: T -> int)
    requires Ordered(a, key) && Ordered(b, key)
    requires forall k :: WithKey(a, key, k) == WithKey(b, key, k)
    ensures a == b
  {
    if a == [] || b == [] {
      if a != [] { WithKeyMember(a, key, key(a[0])); WithKeyMember(b, key, key(a[0])); }
      if b != [] { WithKeyMember(b, key, key(b[0])); WithKeyMember(a, key, key(b[0])); }
    } else {
      WithKeyMember(a, key, key(b[0]));
      WithKeyMember(b, key, key(a[0]));
      assert key(a[0]) == key(b[0]);
      var k0 := key(a[0]);
      assert WithKey(a, key, k0)[0] == a[0] && WithKey(b, key, k0)[0] == b[0];
      forall k ensures WithKey(a[1..], key, k) == WithKey(b[1..], key, k) {
        assert WithKey(a, key, k) == WithKey(b, key, k);
        if k == k0 {
          assert WithKey(a, key, k)[1..] == WithKey(a[1..], key, k);
          assert WithKey(b, key, k)[1..] == WithKey(b[1..], key, k);
        } else {
          assert WithKey(a, key, k) == WithKey(a[1..], key, k);
          assert WithKey(b, key, k) == WithKey(b[1..], key, k);
        }
      }
      StableSortUnique(a[1..], b[1..], key);
    }
  }

  // ----- totals do not depend on order -----

  function Total<T>(s: seq<T>, weight: T -> nat): nat {
    if s == [] then 0 else weight(s[0]) + Total(s[1..], weight)
  }

  lemma {:induction false} TotalOfConcat<T>(a: seq<T>, b: seq<T>, weight: T -> nat)
    ensures Total(a + b, weight) == Total(a, weight) + Total(b, weight)
  {
    if a == [] {
      assert a + b == b;
    } else {
      assert (a + b)[1..] == a[1..] + b;
      TotalOfConcat(a[1..], b, weight);
    }
  }

  lemma {:induction false} TotalWithout<T>(s: seq<T>, k: nat, weight: T -> nat)
    requires k < |s|
    ensures Total(s, weight) == weight(s[k]) + Total(s[..k] + s[k + 1..], weight)
  {
    var rest := s[..k] + s[k + 1..];
    if k == 0 {
      assert rest == s[1..];
    } else {
      TotalWithout(s[1..], k - 1, weight);
      assert rest[1..] == s[1..][..k - 1] + s[1..][k..];
    }
  }

  lemma {:induction false} TotalOfPermutation<T>(a: seq<T>, b: seq<T>, weight: T -> nat)
    requires multiset(a) == multiset(b)
    ensures Total(a, weight) == Total(b, weight) && |a| == |b|
  {
    if a == [] {
      assert |multiset(b)| == |b|;
    } else {
      var k := MatchingPosition(a, b);
      TotalWithout(b, k, weight);
      TotalOfPermutation(a[1..], b[..k] + b[k + 1..], weight);
    }
  }

  lemma MatchingPosition<T>(a: seq<T>, b: seq<T>) returns (k: nat)
    requires a != [] && multiset(a) == multiset(b)
    ensures k < |b| && b[k] == a[0] && multiset(a[1..]) == multiset(b[..k] + b[k + 1..])
  {
    assert a[0] in multiset(b);
    k :| 0 <= k < |b| && b[k] == a[0];
    RemoveOne(b, k);
    TailContents(a);
  }

  lemma TailContents<T>(a: seq<T>)
    requires a != []
    ensures multiset(a[1..]) == multiset(a) - multiset{a[0]}
  {
    assert a == [a[0]] + a[1..];
  }

  lemma RemoveOne<T>(s: seq<T>, k: nat)
    requires k < |s|
    ensures multiset(s[..k] + s[k + 1..]) == multiset(s) - multiset{s[k]}
  {
    assert s == s[..k] + [s[k]] + s[k + 1..];
  }

  // ----- the largest true position -----

  function LargestUpTo(p: nat -> bool, n: nat): (k: nat)
    ensures k <= n
  {
    if n == 0 || p(n) then n else LargestUpTo(p, n - 1)
  }

  lemma {:induction false} LargestUpToIs(p: nat -> bool, n: nat)
    requires p(0)
    ensures p(LargestUpTo(p, n)) && forall m :: LargestUpTo(p, n) < m <= n ==> !p(m)
  {
    if n > 0 && !p(n) { LargestUpToIs(p, n - 1); }
  }

  /** Once false, false from there on. */
  ghost predicate Downward(p: nat -> bool, n: nat) {
    forall i: nat, j: nat :: i <= j <= n && !p(i) ==> !p(j)
  }

  lemma LargestOfDownward(p: nat -> bool, n: nat, k: nat)
    requires Downward(p, n) && k < n && p(k) && !p(k + 1)
    ensures LargestUpTo(p, n) == k
  {
    LargestUpToUnique(p, n, k);
  }

  lemma {:induction false} LargestUpToUnique(p: nat -> bool, n: nat, k: nat)
    requires k <= n && (k == 0 || p(k)) && forall m :: k < m <= n ==> !p(m)
    ensures LargestUpTo(p, n) == k
  {
    if k < n { LargestUpToUnique(p, n - 1, k); }
  }
}
