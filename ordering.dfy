/**
 * Orders over keys, the ascending walk of a finite key set (how a sorted
 * container or a database cursor visits its keys) and an in-place sort of an
 * array under a total preorder (what std::sort promises for a comparator).
 */
module Ordering {

  ghost predicate StrictTotalOrder<K(!new)>(less: (K, K) -> bool)
  {
    && (forall a :: !less(a, a))
    && (forall a, b, c :: less(a, b) && less(b, c) ==> less(a, c))
    && (forall a, b :: a != b ==> less(a, b) || less(b, a))
  }

  ghost predicate StrictlySorted<K>(s: seq<K>, less: (K, K) -> bool)
  {
    forall i, j :: 0 <= i < j < |s| ==> less(s[i], s[j])
  }

  /** The order of std::map keys that are numbers. */
  predicate NatLess(a: nat, b: nat) { a < b }

  lemma NatOrder()
    ensures StrictTotalOrder(NatLess)
  {
  }

  /** A finite non-empty set has a least element under a strict total order. */
  lemma {:induction false} MinimumExists<K(!new)>(s: set<K>, less: (K, K) -> bool)
    requires s != {} && StrictTotalOrder(less)
    ensures exists m :: m in s && forall x :: x in s ==> !less(x, m)
  {
    var y :| y in s;
    var m := y;
    if s - {y} != {} {
      MinimumExists(s - {y}, less);
      var m' :| m' in s - {y} && forall x :: x in s - {y} ==> !less(x, m');
      if !less(y, m') {
        m := m';
      } else {
        forall x | x in s ensures !less(x, y) {
          if x != y {
            assert !less(x, m');
            assert less(x, y) ==> less(x, m');
          }
        }
      }
    } else {
      forall x | x in s ensures x == y {
        assert x !in s - {y};
      }
    }
    assert m in s && forall x :: x in s ==> !less(x, m);
  }

  /** The least element of a non-empty finite set. */
  ghost function Least<K(!new)>(s: set<K>, less: (K, K) -> bool): (m: K)
    requires s != {} && StrictTotalOrder(less)
    ensures m in s
    ensures forall x :: x in s && x != m ==> less(m, x)
  {
    MinimumExists(s, less);
    var m :| m in s && forall x :: x in s ==> !less(x, m);
    m
  }

  /** An element below every other element of s is its least element. */
  lemma LeastUnique<K(!new)>(s: set<K>, less: (K, K) -> bool, m: K)
    requires StrictTotalOrder(less)
    requires m in s && forall x :: x in s ==> !less(x, m)
    ensures m == Least(s, less)
  {
    var l := Least(s, less);
    assert !less(l, m);
    assert l != m ==> less(l, m);
  }

  /** The keys of s in ascending order: the reference for every cursor walk of this model. */
  ghost function SortedSeq<K(!new)>(s: set<K>, less: (K, K) -> bool): (r: seq<K>)
    requires StrictTotalOrder(less)
    ensures StrictlySorted(r, less)
    ensures forall x :: x in r <==> x in s
    ensures |r| == |s|
    decreases |s|
  {
    if s == {} then []
    else
      var m := Least(s, less);
      var rest := SortedSeq(s - {m}, less);
      assert forall j :: 0 <= j < |rest| ==> rest[j] in s - {m};
      [m] + rest
  }

  /**
   * Visits the keys of s in ascending order: the walk of a sorted container
   * from its first key to its end.
   */
  method Ascending<K(==,!new)>(s: set<K>, less: (K, K) -> bool) returns (r: seq<K>)
    requires StrictTotalOrder(less)
    ensures r == SortedSeq(s, less)
  {
    r := [];
    var rest := s;
    while rest != {}
      invariant r + SortedSeq(rest, less) == SortedSeq(s, less)
      decreases |rest|
    {
      MinimumExists(rest, less);
      var m :| m in rest && forall x :: x in rest ==> !less(x, m);
      SortedSeqStep(rest, less, m);
      AppendAssoc(r, [m], SortedSeq(rest - {m}, less));
      r := r + [m];
      rest := rest - {m};
    }
  }

  lemma AppendAssoc<K>(a: seq<K>, b: seq<K>, c: seq<K>)
    ensures (a + b) + c == a + (b + c)
  {
  }

  /** The walk starts at the least key and goes on with the walk of the others. */
  lemma SortedSeqStep<K(!new)>(s: set<K>, less: (K, K) -> bool, m: K)
    requires StrictTotalOrder(less)
    requires m in s && forall x :: x in s ==> !less(x, m)
    ensures SortedSeq(s, less) == [m] + SortedSeq(s - {m}, less)
  {
    LeastUnique(s, less, m);
  }

  /** A strictly sorted sequence holding exactly the keys of s is the walk of s. */
  lemma {:induction false} SortedSeqUnique<K(!new)>(s: set<K>, less: (K, K) -> bool, r: seq<K>)
    requires StrictTotalOrder(less)
    requires StrictlySorted(r, less)
    requires forall x :: x in r <==> x in s
    ensures r == SortedSeq(s, less)
    decreases |r|
  {
    if r == [] {
      assert forall x :: x !in s;
    } else {
      SortedHead(s, less, r);
      SortedTail(s, less, r);
      SortedSeqUnique(s - {r[0]}, less, r[1..]);
      SortedSeqStep(s, less, r[0]);
      ConsSlice(r);
    }
  }

  lemma SortedHead<K(!new)>(s: set<K>, less: (K, K) -> bool, r: seq<K>)
    requires StrictTotalOrder(less)
    requires StrictlySorted(r, less)
    requires forall x :: x in r <==> x in s
    requires r != []
    ensures r[0] in s && forall x :: x in s ==> !less(x, r[0])
  {
    forall x | x in s ensures !less(x, r[0]) {
      var j :| 0 <= j < |r| && r[j] == x;
      assert j > 0 ==> less(r[0], x);
    }
  }

  lemma SortedTail<K(!new)>(s: set<K>, less: (K, K) -> bool, r: seq<K>)
    requires StrictTotalOrder(less)
    requires StrictlySorted(r, less)
    requires forall x :: x in r <==> x in s
    requires r != []
    ensures StrictlySorted(r[1..], less)
    ensures forall x :: x in r[1..] <==> x in s - {r[0]}
  {
    var rest := r[1..];
    forall x ensures x in rest <==> x in s - {r[0]} {
      if x in rest {
        var j :| 0 <= j < |rest| && rest[j] == x;
        assert less(r[0], r[j + 1]);
      }
      if x in s - {r[0]} {
        var j :| 0 <= j < |r| && r[j] == x;
        assert rest[j - 1] == x;
      }
    }
    forall i, j | 0 <= i < j < |rest| ensures less(rest[i], rest[j]) {
      assert rest[i] == r[i + 1] && rest[j] == r[j + 1];
    }
  }

  lemma ConsSlice<K>(r: seq<K>)
    requires r != []
    ensures r == [r[0]] + r[1..]
  {
  }

  /** One more step of a loop over a prefix of xs. */
  lemma PrefixStep<K>(xs: seq<K>, i: nat)
    requires i < |xs|
    ensures xs[..i + 1][..i] == xs[..i] && xs[..i + 1][i] == xs[i] && |xs[..i + 1]| == i + 1
  {
  }

  lemma PrefixAll<K>(xs: seq<K>, i: nat)
    requires i == |xs|
    ensures xs[..i] == xs
  {
  }

  /** The keys of s that satisfy p. */
  function Where<K(!new)>(s: set<K>, p: K -> bool): (r: set<K>)
    ensures forall x :: x in r <==> x in s && p(x)
  {
    set x | x in s && p(x)
  }

  /** The longest prefix of xs whose elements satisfy p: a walk that stops at the first key failing p. */
  function TakeWhile<K>(xs: seq<K>, p: K -> bool): (r: seq<K>)
    ensures |r| <= |xs| && r == xs[..|r|]
    ensures forall i :: 0 <= i < |r| ==> p(xs[i])
    ensures |r| < |xs| ==> !p(xs[|r|])
  {
    if xs == [] || !p(xs[0]) then [] else [xs[0]] + TakeWhile(xs[1..], p)
  }

  /**
   * Walking the keys of s in order while p holds visits exactly the keys
   * that satisfy p, when p holds below any key that satisfies it.
   */
  lemma SortedTakeWhile<K(!new)>(s: set<K>, less: (K, K) -> bool, p: K -> bool)
    requires StrictTotalOrder(less)
    requires forall a, b :: a in s && b in s && less(a, b) && p(b) ==> p(a)
    ensures TakeWhile(SortedSeq(s, less), p) == SortedSeq(Where(s, p), less)
  {
    var r := SortedSeq(s, less);
    var t := TakeWhile(r, p);
    var sub := Where(s, p);
    forall x ensures x in t <==> x in sub {
      if x in sub {
        var i :| 0 <= i < |r| && r[i] == x;
        assert |t| < |r| ==> !p(r[|t|]);
        assert i < |t|;
        assert t[i] == x;
      }
    }
    SortedSeqUnique(sub, less, t);
  }

  /** The first key of an ascending walk that satisfies p is the least key satisfying p. */
  lemma SortedFirstWhere<K(!new)>(s: set<K>, less: (K, K) -> bool, p: K -> bool, i: nat)
    requires StrictTotalOrder(less)
    requires i < |SortedSeq(s, less)| && p(SortedSeq(s, less)[i])
    requires forall j :: 0 <= j < i ==> !p(SortedSeq(s, less)[j])
    ensures Where(s, p) != {}
    ensures SortedSeq(s, less)[i] == Least(Where(s, p), less)
  {
    var r := SortedSeq(s, less);
    var sub := Where(s, p);
    assert r[i] in sub;
    forall x | x in sub ensures !less(x, r[i]) {
      var j :| 0 <= j < |r| && r[j] == x;
      assert j >= i;
    }
    LeastUnique(sub, less, r[i]);
  }

  /** When n is where the walk first fails p (or the end), the walk is the first n keys. */
  lemma TakeWhileExact<K>(xs: seq<K>, p: K -> bool, n: nat)
    requires n <= |xs|
    requires forall j :: 0 <= j < n ==> p(xs[j])
    requires n == |xs| || !p(xs[n])
    ensures TakeWhile(xs, p) == xs[..n]
  {
    var r := TakeWhile(xs, p);
    assert |r| == n;
  }

  /** The keys of xs that satisfy q, in the order of xs. */
  function Filter<K(!new)>(xs: seq<K>, q: K -> bool): (r: seq<K>)
    ensures forall x :: x in r <==> x in xs && q(x)
    ensures |r| <= |xs|
    decreases |xs|
  {
    if xs == [] then []
    else
      var init := Filter(xs[..|xs| - 1], q);
      assert forall x :: x in xs <==> x in xs[..|xs| - 1] || x == xs[|xs| - 1];
      if q(xs[|xs| - 1]) then init + [xs[|xs| - 1]] else init
  }

  lemma {:induction false} FilterSorted<K(!new)>(xs: seq<K>, less: (K, K) -> bool, q: K -> bool)
    requires StrictlySorted(xs, less)
    ensures StrictlySorted(Filter(xs, q), less)
    decreases |xs|
  {
    if xs != [] {
      var init := xs[..|xs| - 1];
      FilterSorted(init, less, q);
      var f := Filter(init, q);
      forall i | 0 <= i < |f| ensures less(f[i], xs[|xs| - 1]) {
        assert f[i] in init;
      }
    }
  }

  /** Filtering the walk of s visits the filtered keys of s in order. */
  lemma SortedFilter<K(!new)>(s: set<K>, less: (K, K) -> bool, q: K -> bool)
    requires StrictTotalOrder(less)
    ensures Filter(SortedSeq(s, less), q) == SortedSeq(Where(s, q), less)
  {
    FilterSorted(SortedSeq(s, less), less, q);
    SortedSeqUnique(Where(s, q), less, Filter(SortedSeq(s, less), q));
  }

  /** The set of the elements of xs. */
  function Elements<K(!new)>(xs: seq<K>): (r: set<K>)
    ensures forall x :: x in r <==> x in xs
    decreases |xs|
  {
    if xs == [] then {}
    else
      assert forall x :: x in xs <==> x in xs[..|xs| - 1] || x == xs[|xs| - 1];
      Elements(xs[..|xs| - 1]) + {xs[|xs| - 1]}
  }

  lemma ElementsSnoc<K(!new)>(xs: seq<K>, x: K)
    ensures Elements(xs + [x]) == Elements(xs) + {x}
  {
    assert (xs + [x])[..|xs|] == xs;
  }

  function Reverse<K>(xs: seq<K>): (r: seq<K>)
    ensures |r| == |xs|
    ensures forall i :: 0 <= i < |xs| ==> r[i] == xs[|xs| - 1 - i]
  {
    if xs == [] then [] else Reverse(xs[1..]) + [xs[0]]
  }

  ghost predicate TotalPreorder<T(!new)>(le: (T, T) -> bool)
  {
    && (forall a, b :: le(a, b) || le(b, a))
    && (forall a, b, c :: le(a, b) && le(b, c) ==> le(a, c))
  }

  ghost predicate SortedBy<T>(s: seq<T>, le: (T, T) -> bool)
  {
    forall i, j :: 0 <= i < j < |s| ==> le(s[i], s[j])
  }

  /** Rearranges a in place so that it is sorted under le. */
  method InsertionSort<T(!new)>(a: array<T>, le: (T, T) -> bool)
    requires TotalPreorder(le)
    modifies a
    ensures SortedBy(a[..], le)
    ensures multiset(a[..]) == multiset(old(a[..]))
  {
    var i := 0;
    while i < a.Length
      invariant 0 <= i <= a.Length
      invariant forall p, q :: 0 <= p < q < i ==> le(a[p], a[q])
      invariant multiset(a[..]) == multiset(old(a[..]))
    {
      InsertLast(a, i, le);
      i := i + 1;
    }
  }

  /** Moves a[i] down into the sorted prefix a[..i], so that a[..i + 1] is sorted. */
  method InsertLast<T(!new)>(a: array<T>, i: nat, le: (T, T) -> bool)
    requires TotalPreorder(le)
    requires i < a.Length
    requires forall p, q :: 0 <= p < q < i ==> le(a[p], a[q])
    modifies a
    ensures forall p, q :: 0 <= p < q <= i ==> le(a[p], a[q])
    ensures multiset(a[..]) == multiset(old(a[..]))
  {
    var j := i;
    while j > 0 && !le(a[j - 1], a[j])
      invariant 0 <= j <= i
      invariant forall p, q :: 0 <= p < q <= i && p != j && q != j ==> le(a[p], a[q])
      invariant forall q :: j < q <= i ==> le(a[j], a[q])
      invariant multiset(a[..]) == multiset(old(a[..]))
    {
      Swap(a, j - 1, j);
      j := j - 1;
    }
  }

  /** Exchanges two elements of a. */
  method Swap<T>(a: array<T>, p: nat, q: nat)
    requires p < a.Length && q < a.Length
    modifies a
    ensures a[..] == old(a[..])[p := old(a[q])][q := old(a[p])]
    ensures multiset(a[..]) == multiset(old(a[..]))
  {
    a[p], a[q] := a[q], a[p];
  }
}
