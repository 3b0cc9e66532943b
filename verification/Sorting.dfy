/** Sorting: a reference definition, and an in-place sort of an array prefix that stands in for
    `std::sort`. */
module Sorting {
  predicate Sorted(s: seq<int>) {
    forall i, j :: 0 <= i < j < |s| ==> s[i] <= s[j]
  }

  function Insert(x: int, s: seq<int>): (r: seq<int>)
    ensures |r| == |s| + 1
  {
    if s == [] || x <= s[0] then [x] + s else [s[0]] + Insert(x, s[1..])
  }

  function Sort(s: seq<int>): (r: seq<int>)
    ensures |r| == |s|
  {
    if s == [] then [] else Insert(s[0], Sort(s[1..]))
  }

  lemma {:induction false} InsertPermutes(x: int, s: seq<int>)
    ensures multiset(Insert(x, s)) == multiset(s) + multiset{x}
  {
    if s != [] && x > s[0] {
      InsertPermutes(x, s[1..]);
      assert s == [s[0]] + s[1..];
    }
  }

  lemma {:induction false} InsertAbove(x: int, s: seq<int>, low: int)
    requires low <= x && forall i :: 0 <= i < |s| ==> low <= s[i]
    ensures forall i :: 0 <= i < |s| + 1 ==> low <= Insert(x, s)[i]
  {
    if s != [] && x > s[0] {
      InsertAbove(x, s[1..], low);
    }
  }

  lemma {:induction false} InsertSorted(x: int, s: seq<int>)
    requires Sorted(s)
    ensures Sorted(Insert(x, s))
  {
    if s != [] && x > s[0] {
      InsertSorted(x, s[1..]);
      InsertAbove(x, s[1..], s[0]);
    }
  }

  lemma {:induction false} SortSorts(s: seq<int>)
    ensures Sorted(Sort(s)) && multiset(Sort(s)) == multiset(s)
  {
    if s != [] {
      SortSorts(s[1..]);
      InsertSorted(s[0], Sort(s[1..]));
      InsertPermutes(s[0], Sort(s[1..]));
      assert s == [s[0]] + s[1..];
    }
  }

  /** How many elements are below `bound`. */
  function CountBelow(s: seq<int>, bound: int): (n: nat)
    ensures n <= |s|
  {
    if s == [] then 0 else (if s[0] < bound then 1 else 0) + CountBelow(s[1..], bound)
  }

  lemma {:induction false} InsertCount(x: int, s: seq<int>, bound: int)
    ensures CountBelow(Insert(x, s), bound) == CountBelow(s, bound) + (if x < bound then 1 else 0)
  {
    if s == [] || x <= s[0] {
      assert ([x] + s)[1..] == s;
    } else {
      InsertCount(x, s[1..], bound);
      assert Insert(x, s)[1..] == Insert(x, s[1..]);
    }
  }

  lemma {:induction false} SortCount(s: seq<int>, bound: int)
    ensures CountBelow(Sort(s), bound) == CountBelow(s, bound)
  {
    if s != [] {
      SortCount(s[1..], bound);
      InsertCount(s[0], Sort(s[1..]), bound);
    }
  }

  lemma {:induction false} NoneBelow(s: seq<int>, bound: int)
    requires forall i :: 0 <= i < |s| ==> s[i] >= bound
    ensures CountBelow(s, bound) == 0
  {
    if s != [] {
      NoneBelow(s[1..], bound);
    }
  }

  /** In a sorted sequence the elements below `bound` are the first ones. */
  lemma {:induction false} BelowIffCounted(s: seq<int>, i: nat, bound: int)
    requires Sorted(s) && i < |s|
    ensures s[i] < bound <==> i < CountBelow(s, bound)
  {
    if s[0] >= bound {
      NoneBelow(s, bound);
    } else if i > 0 {
      BelowIffCounted(s[1..], i - 1, bound);
    }
  }

  lemma RankBelow(s: seq<int>, i: nat, bound: int)
    requires i < |s|
    ensures Sort(s)[i] < bound <==> i < CountBelow(s, bound)
  {
    SortSorts(s);
    SortCount(s, bound);
    BelowIffCounted(Sort(s), i, bound);
  }

  /** The element at rank `i`: at most `i` elements are below it, and more than `i` not above it. */
  lemma RankOfSorted(s: seq<int>, i: nat, x: int)
    requires i < |s| && x == Sort(s)[i]
    ensures CountBelow(s, x) <= i < CountBelow(s, x + 1)
  {
    RankBelow(s, i, x);
    RankBelow(s, i, x + 1);
  }

  lemma SortKeeps(s: seq<int>, i: nat)
    requires i < |s|
    ensures Sort(s)[i] in s
  {
    SortSorts(s);
    assert Sort(s)[i] in multiset(Sort(s));
  }

  /** A multiset has one sorted sequence. */
  lemma {:induction false} SortedUnique(a: seq<int>, b: seq<int>)
    requires Sorted(a) && Sorted(b) && |a| == |b| && multiset(a) == multiset(b)
    ensures a == b
  {
    if a != [] {
      SameHead(a, b);
      WithoutHead(a);
      WithoutHead(b);
      SortedUnique(a[1..], b[1..]);
      assert a == [a[0]] + a[1..];
      assert b == [b[0]] + b[1..];
    }
  }

  lemma SameHead(a: seq<int>, b: seq<int>)
    requires Sorted(a) && Sorted(b) && a != [] && b != [] && multiset(a) == multiset(b)
    ensures a[0] == b[0]
  {
    assert b[0] in multiset(b) && a[0] in multiset(a);
    HeadIsLeast(a, b[0]);
    HeadIsLeast(b, a[0]);
  }

  lemma HeadIsLeast(s: seq<int>, x: int)
    requires Sorted(s) && x in multiset(s)
    ensures s != [] && s[0] <= x
  {
  }

  lemma WithoutHead(s: seq<int>)
    requires s != [] && Sorted(s)
    ensures multiset(s[1..]) == multiset(s) - multiset{s[0]} && Sorted(s[1..])
  {
    assert s == [s[0]] + s[1..];
  }

  /** Sorts `a[..n]` in place and leaves the rest alone. */
  method SortPrefix(a: array<int>, n: nat)
    requires n <= a.Length
    modifies a
    ensures a[..n] == Sort(old(a[..n])) && a[n..] == old(a[n..])
  {
    var i := 0;
    while i < n
      invariant i <= n && Sorted(a[..i])
      invariant multiset(a[..n]) == multiset(old(a[..n])) && a[n..] == old(a[n..])
    {
      SinkInto(a, i, n);
      i := i + 1;
    }
    SortSorts(old(a[..n]));
    SortedUnique(a[..n], Sort(old(a[..n])));
  }

  /** Moves `a[i]` down to its place in the sorted `a[..i]`. */
  method SinkInto(a: array<int>, i: nat, n: nat)
    requires i < n <= a.Length && Sorted(a[..i])
    modifies a
    ensures Sorted(a[..i + 1])
    ensures multiset(a[..n]) == multiset(old(a[..n])) && a[n..] == old(a[n..])
  {
    var j := i;
    while j > 0 && a[j - 1] > a[j]
      invariant 0 <= j <= i
      invariant forall p, q :: 0 <= p < q <= i && q != j ==> a[p] <= a[q]
      invariant multiset(a[..n]) == multiset(old(a[..n])) && a[n..] == old(a[n..])
    {
      SwapDown(a, j, n);
      j := j - 1;
    }
  }

  method SwapDown(a: array<int>, j: nat, n: nat)
    requires 0 < j < n <= a.Length
    modifies a
    ensures a[j - 1] == old(a[j]) && a[j] == old(a[j - 1])
    ensures forall k :: 0 <= k < n && k != j - 1 && k != j ==> a[k] == old(a[k])
    ensures a[n..] == old(a[n..])
    ensures multiset(a[..n]) == multiset(old(a[..n]))
  {
    ghost var was := a[..n];
    a[j - 1], a[j] := a[j], a[j - 1];
    assert a[..n] == was[j - 1 := was[j]][j := was[j - 1]];
  }
}
