/** The JavaScript array operations the catalog code is built from:
    `filter`, `find`, `slice`, `[...new Set(xs)]`, `Math.ceil(n / d)` and a
    stable `sort`, each with the property it is relied on for. */
module Seqs {
  import opened Wrappers

  function Min(a: int, b: int): int {
    if a <= b then a else b
  }

  /** `Math.ceil(n / d)` for a positive divisor: the least multiple count
      that covers `n`. */
  function CeilDiv(n: nat, d: nat): (r: nat)
    requires d > 0
    ensures n <= r * d
    ensures r == 0 || (r - 1) * d < n
  {
    if n == 0 then 0 else 1 + CeilDiv(if n <= d then 0 else n - d, d)
  }

  /** A page `k` ends before `n` items exactly when it is not the last of
      the `CeilDiv(n, d)` pages. */
  lemma CeilDivAbove(n: nat, d: nat, k: nat)
    requires d > 0
    ensures k * d < n <==> k < CeilDiv(n, d)
  {
    var r := CeilDiv(n, d);
    if k < r {
      MulMonotone(k, r - 1, d);
    } else {
      MulMonotone(r, k, d);
    }
  }

  lemma MulMonotone(a: nat, b: nat, d: nat)
    requires a <= b
    ensures a * d <= b * d
  {
    assert b * d == a * d + (b - a) * d;
  }

  /** `xs.slice(start, end)` for non-negative bounds: JavaScript clamps both
      bounds to the length, and a reversed range is empty. */
  function Slice<T>(s: seq<T>, start: nat, end: nat): (r: seq<T>)
    ensures |r| == if start < end && start < |s| then Min(end, |s|) - start else 0
    ensures forall k :: 0 <= k < |r| ==> r[k] == s[start + k]
  {
    var lo := Min(start, |s|);
    var hi := Min(end, |s|);
    if lo < hi then s[lo..hi] else []
  }

  /** `xs.filter(f)`. */
  function Filter<T>(s: seq<T>, f: T -> bool): (r: seq<T>)
    ensures |r| <= |s|
    ensures forall k :: 0 <= k < |r| ==> f(r[k])
  {
    if s == [] then []
    else
      assert s == [s[0]] + s[1..];
      (if f(s[0]) then [s[0]] else []) + Filter(s[1..], f)
  }

  /** An element is kept exactly when it is in the input and passes the test. */
  lemma {:induction false} FilterMembership<T>(s: seq<T>, f: T -> bool, x: T)
    ensures x in Filter(s, f) <==> x in s && f(x)
  {
    if s != [] {
      FilterMembership(s[1..], f, x);
      assert s == [s[0]] + s[1..];
    }
  }

  /** Filtering keeps some of the elements, each at most as often as before. */
  lemma {:induction false} FilterSubMultiset<T>(s: seq<T>, f: T -> bool)
    ensures multiset(Filter(s, f)) <= multiset(s)
  {
    if s != [] {
      FilterSubMultiset(s[1..], f);
      assert s == [s[0]] + s[1..];
    }
  }

  /** Filtering distributes over concatenation. */
  lemma {:induction false} FilterConcat<T>(a: seq<T>, b: seq<T>, f: T -> bool)
    ensures Filter(a + b, f) == Filter(a, f) + Filter(b, f)
  {
    if a != [] {
      var head := if f(a[0]) then [a[0]] else [];
      assert (a + b)[0] == a[0];
      assert (a + b)[1..] == a[1..] + b;
      assert Filter(a + b, f) == head + Filter(a[1..] + b, f);
      FilterConcat(a[1..], b, f);
      assert Filter(a, f) == head + Filter(a[1..], f);
    } else {
      assert a + b == b;
    }
  }

  /** Filtering a sequence with one more element. */
  lemma FilterSnoc<T>(s: seq<T>, x: T, f: T -> bool)
    ensures Filter(s + [x], f) == Filter(s, f) + (if f(x) then [x] else [])
  {
    FilterConcat(s, [x], f);
    assert [x][1..] == [];
  }

  /** Two successive filters keep what one filter by the conjunction keeps. */
  lemma {:induction false} FilterFusion<T>(s: seq<T>, f: T -> bool, g: T -> bool, h: T -> bool)
    requires forall x :: h(x) == (f(x) && g(x))
    ensures Filter(Filter(s, f), g) == Filter(s, h)
  {
    if s != [] {
      var head := if f(s[0]) then [s[0]] else [];
      var rest := Filter(s[1..], f);
      assert Filter(s, f) == head + rest;
      FilterConcat(head, rest, g);
      FilterFusion(s[1..], f, g, h);
      if f(s[0]) {
        assert head[1..] == [];
        assert Filter(head, g) == (if g(s[0]) then [s[0]] else []) + Filter([], g);
      }
      assert Filter(head, g) == (if h(s[0]) then [s[0]] else []);
    }
  }

  /** A filter that every element passes keeps the whole sequence. */
  lemma {:induction false} FilterAll<T>(s: seq<T>, f: T -> bool)
    requires forall k :: 0 <= k < |s| ==> f(s[k])
    ensures Filter(s, f) == s
  {
    if s != [] {
      FilterAll(s[1..], f);
      assert s == [s[0]] + s[1..];
    }
  }

  /** Tests that agree on every element keep the same elements. */
  lemma {:induction false} FilterCongruent<T>(s: seq<T>, f: T -> bool, g: T -> bool)
    requires forall k :: 0 <= k < |s| ==> f(s[k]) == g(s[k])
    ensures Filter(s, f) == Filter(s, g)
  {
    if s != [] {
      assert forall k :: 0 <= k < |s[1..]| ==> s[1..][k] == s[k + 1];
      FilterCongruent(s[1..], f, g);
    }
  }

  /** A filter removes something exactly when some element fails the test. */
  lemma {:induction false} FilterShrinks<T>(s: seq<T>, f: T -> bool)
    ensures |Filter(s, f)| == |s| <==> forall k :: 0 <= k < |s| ==> f(s[k])
  {
    if s != [] {
      FilterShrinks(s[1..], f);
      assert forall k :: 1 <= k < |s| ==> s[k] == s[1..][k - 1];
    }
  }

  /** The index `xs.findIndex(f)` returns (`None` for -1). */
  function FindIndex<T>(s: seq<T>, f: T -> bool): (r: Option<nat>)
    ensures r.Some? ==> r.value < |s| && f(s[r.value]) && forall j :: 0 <= j < r.value ==> !f(s[j])
    ensures r.None? ==> forall j :: 0 <= j < |s| ==> !f(s[j])
  {
    if s == [] then None
    else if f(s[0]) then Some(0)
    else match FindIndex(s[1..], f)
      case None => None
      case Some(i) => Some(i + 1)
  }

  /** `xs.find(f)`: the first element that passes the test. */
  function Find<T>(s: seq<T>, f: T -> bool): Option<T> {
    match FindIndex(s, f)
    case None => None
    case Some(i) => Some(s[i])
  }

  /** What `Find` promises its callers. */
  lemma FindFirst<T>(s: seq<T>, f: T -> bool)
    ensures Find(s, f).Some? ==>
      exists i :: 0 <= i < |s| && s[i] == Find(s, f).value && f(s[i]) && forall j :: 0 <= j < i ==> !f(s[j])
    ensures Find(s, f).None? <==> forall x :: x in s ==> !f(x)
  {
    var r := FindIndex(s, f);
    if r.Some? {
      assert s[r.value] in s;
    }
  }

  predicate NoDuplicates<T(==)>(s: seq<T>) {
    forall i, j :: 0 <= i < j < |s| ==> s[i] != s[j]
  }

  /** A list without duplicates holds each value at most once. */
  lemma {:induction false} AtMostOnce<T>(s: seq<T>, x: T)
    requires NoDuplicates(s)
    ensures multiset(s)[x] <= 1
  {
    if s != [] {
      assert s == [s[0]] + s[1..];
      assert forall i :: 0 <= i < |s[1..]| ==> s[1..][i] == s[i + 1];
      AtMostOnce(s[1..], x);
      if s[0] == x {
        assert x !in s[1..];
      }
    }
  }

  /** Reordering keeps a list free of duplicates. */
  lemma PermutationKeepsNoDuplicates<T>(a: seq<T>, b: seq<T>)
    requires multiset(a) == multiset(b)
    requires NoDuplicates(a)
    ensures NoDuplicates(b)
  {
    forall i, j | 0 <= i < j < |b| ensures b[i] != b[j] {
      var x := b[i];
      AtMostOnce(a, x);
      assert b == b[..j] + b[j..];
      assert b[..j][i] == x;
      assert multiset(b)[x] == multiset(b[..j])[x] + multiset(b[j..])[x];
      assert b[j..][0] == b[j];
    }
  }

  /** The position of the first occurrence of `x`. */
  function FirstIndex<T(==)>(s: seq<T>, x: T): (r: nat)
    requires x in s
    ensures r < |s| && s[r] == x
    ensures forall j :: 0 <= j < r ==> s[j] != x
  {
    if s[0] == x then 0 else 1 + FirstIndex(s[1..], x)
  }

  /** `[...new Set(xs)]`: each value once, kept where it first occurs. */
  function Dedup<T(==)>(s: seq<T>): (r: seq<T>)
    ensures forall k :: 0 <= k < |r| ==> r[k] in s
    ensures forall k :: 0 <= k < |s| ==> s[k] in r
    ensures NoDuplicates(r)
  {
    if s == [] then []
    else
      var d := Dedup(s[..|s| - 1]);
      assert s == s[..|s| - 1] + [s[|s| - 1]];
      if s[|s| - 1] in d then d else d + [s[|s| - 1]]
  }

  /** `Dedup` lists values in the order of their first occurrences. */
  lemma {:induction false} DedupFirstOccurrenceOrder<T>(s: seq<T>, i: nat, j: nat)
    requires i < j < |Dedup(s)|
    ensures FirstIndex(s, Dedup(s)[i]) < FirstIndex(s, Dedup(s)[j])
  {
    var p := s[..|s| - 1];
    var z := s[|s| - 1];
    assert s == p + [z];
    var d := Dedup(p);
    var r := Dedup(s);
    assert r[i] in s && r[j] in s;
    if j < |d| {
      assert r[i] == d[i] && r[j] == d[j];
      DedupFirstOccurrenceOrder(p, i, j);
      FirstIndexExtend(p, z, d[i]);
      FirstIndexExtend(p, z, d[j]);
    } else {
      assert r[j] == z && z !in p;
      assert r[i] == d[i] && d[i] in p;
      FirstIndexExtend(p, z, d[i]);
      assert FirstIndex(p, d[i]) < |p|;
    }
  }

  lemma FirstIndexExtend<T>(p: seq<T>, z: T, x: T)
    requires x in p
    ensures FirstIndex(p + [z], x) == FirstIndex(p, x)
    ensures z !in p ==> FirstIndex(p + [z], z) == |p|
  {
    var s := p + [z];
    assert forall j :: 0 <= j < |p| ==> s[j] == p[j];
    assert s[|p|] == z;
  }

  /** A total preorder, which is what a comparator for `sort` must describe. */
  ghost predicate TotalPreorder<T(!new)>(le: (T, T) -> bool) {
    && (forall x, y :: le(x, y) || le(y, x))
    && (forall x, y, z :: le(x, y) && le(y, z) ==> le(x, z))
  }

  predicate Sorted<T>(s: seq<T>, le: (T, T) -> bool) {
    forall i, j :: 0 <= i < j < |s| ==> le(s[i], s[j])
  }

  /** Places `x` after the last element of `s` that `le` puts at or before it. */
  function Insert<T>(s: seq<T>, x: T, le: (T, T) -> bool): seq<T> {
    if s == [] then [x]
    else if le(s[|s| - 1], x) then s + [x]
    else Insert(s[..|s| - 1], x, le) + [s[|s| - 1]]
  }

  /** Stable insertion sort: the reference for `Array.prototype.sort` with a
      comparator, and for SQL `ORDER BY`. */
  function Sort<T>(s: seq<T>, le: (T, T) -> bool): seq<T> {
    if s == [] then [] else Insert(Sort(s[..|s| - 1], le), s[|s| - 1], le)
  }

  lemma {:induction false} InsertPermutation<T>(s: seq<T>, x: T, le: (T, T) -> bool)
    ensures multiset(Insert(s, x, le)) == multiset(s) + multiset{x}
  {
    if s != [] && !le(s[|s| - 1], x) {
      InsertPermutation(s[..|s| - 1], x, le);
      assert s == s[..|s| - 1] + [s[|s| - 1]];
    }
  }

  /** Sorting only reorders: the result is a permutation of the input. */
  lemma {:induction false} SortPermutation<T>(s: seq<T>, le: (T, T) -> bool)
    ensures multiset(Sort(s, le)) == multiset(s)
    ensures |Sort(s, le)| == |s|
  {
    if s != [] {
      SortPermutation(s[..|s| - 1], le);
      InsertPermutation(Sort(s[..|s| - 1], le), s[|s| - 1], le);
      assert s == s[..|s| - 1] + [s[|s| - 1]];
    }
    assert |multiset(Sort(s, le))| == |Sort(s, le)|;
  }

  lemma {:induction false} InsertSorted<T(!new)>(s: seq<T>, x: T, le: (T, T) -> bool)
    requires TotalPreorder(le)
    requires Sorted(s, le)
    ensures Sorted(Insert(s, x, le), le)
  {
    if s == [] {
    } else if le(s[|s| - 1], x) {
      var r := s + [x];
      forall i, j | 0 <= i < j < |r| ensures le(r[i], r[j]) {
        if j == |s| && i < |s| - 1 {
          assert le(s[i], s[|s| - 1]);
        }
      }
    } else {
      var p := s[..|s| - 1];
      var last := s[|s| - 1];
      assert Sorted(p, le);
      InsertSorted(p, x, le);
      var q := Insert(p, x, le);
      InsertPermutation(p, x, le);
      var r := q + [last];
      forall i, j | 0 <= i < j < |r| ensures le(r[i], r[j]) {
        if j == |q| {
          assert r[i] in multiset(q);
          assert r[i] in multiset(p) || r[i] == x;
          if r[i] != x {
            var k :| 0 <= k < |p| && p[k] == r[i];
            assert le(s[k], s[|s| - 1]);
          }
        }
      }
    }
  }

  /** Under a total preorder the result is in order. */
  lemma {:induction false} SortSorted<T(!new)>(s: seq<T>, le: (T, T) -> bool)
    requires TotalPreorder(le)
    ensures Sorted(Sort(s, le), le)
  {
    if s != [] {
      SortSorted(s[..|s| - 1], le);
      InsertSorted(Sort(s[..|s| - 1], le), s[|s| - 1], le);
    }
  }

  /** The elements `le` cannot tell apart from `e`. */
  function Ties<T>(le: (T, T) -> bool, e: T): T -> bool {
    y => le(y, e) && le(e, y)
  }

  lemma FilterSingle<T>(x: T, f: T -> bool)
    ensures Filter([x], f) == if f(x) then [x] else []
  {
    assert [x][1..] == [];
  }

  /** Inserting `x` adds it after every element that ties with it. */
  lemma {:induction false} InsertTies<T(!new)>(s: seq<T>, x: T, le: (T, T) -> bool, e: T)
    requires TotalPreorder(le)
    ensures Filter(Insert(s, x, le), Ties(le, e)) == Filter(s, Ties(le, e)) + Filter([x], Ties(le, e))
  {
    var f := Ties(le, e);
    if s == [] {
      assert Insert(s, x, le) == [x];
    } else if le(s[|s| - 1], x) {
      FilterConcat(s, [x], f);
    } else {
      var p := s[..|s| - 1];
      var last := s[|s| - 1];
      assert s == p + [last];
      InsertTies(p, x, le, e);
      FilterConcat(Insert(p, x, le), [last], f);
      FilterConcat(p, [last], f);
      FilterSingle(last, f);
      FilterSingle(x, f);
    }
  }

  /** The sort is stable: the elements that tie with any `e` keep their
      relative order. */
  lemma {:induction false} SortStable<T(!new)>(s: seq<T>, le: (T, T) -> bool, e: T)
    requires TotalPreorder(le)
    ensures Filter(Sort(s, le), Ties(le, e)) == Filter(s, Ties(le, e))
  {
    if s != [] {
      var p := s[..|s| - 1];
      var z := s[|s| - 1];
      assert s == p + [z];
      SortStable(p, le, e);
      InsertTies(Sort(p, le), z, le, e);
      FilterConcat(p, [z], Ties(le, e));
    }
  }

  /** `a.sort(cmp)` in place, by insertion; the outcome is `Sort` of the
      original contents. */
  method SortInPlace<T>(a: array<T>, le: (T, T) -> bool)
    modifies a
    ensures a[..] == Sort(old(a[..]), le)
  {
    ghost var orig := a[..];
    var i := 0;
    while i < a.Length
      invariant 0 <= i <= a.Length
      invariant a[..] == Sort(orig[..i], le) + orig[i..]
    {
      SortStep(orig, i, le);
      InsertLast(a, i, le);
      i := i + 1;
    }
    assert orig[..a.Length] == orig;
  }

  lemma SortStep<T>(orig: seq<T>, i: nat, le: (T, T) -> bool)
    requires i < |orig|
    ensures |Sort(orig[..i], le)| == i
    ensures (Sort(orig[..i], le) + orig[i..])[..i] == Sort(orig[..i], le)
    ensures (Sort(orig[..i], le) + orig[i..])[i] == orig[i]
    ensures (Sort(orig[..i], le) + orig[i..])[i + 1..] == orig[i + 1..]
    ensures Sort(orig[..i + 1], le) + orig[i + 1..] == Insert(Sort(orig[..i], le), orig[i], le) + orig[i + 1..]
  {
    var sorted := Sort(orig[..i], le);
    SortPermutation(orig[..i], le);
    assert orig[..i + 1][..i] == orig[..i];
    assert Sort(orig[..i + 1], le) == Insert(sorted, orig[i], le);
    assert (sorted + orig[i..])[..i] == sorted;
    assert orig[i..] == [orig[i]] + orig[i + 1..];
  }

  /** One step of insertion sort: moves `a[i]` left past every element of the
      sorted prefix `a[..i]` that must come after it. */
  method InsertLast<T>(a: array<T>, i: nat, le: (T, T) -> bool)
    requires i < a.Length
    modifies a
    ensures a[..] == Insert(old(a[..i]), old(a[i]), le) + old(a[i + 1..])
  {
    ghost var sorted := a[..i];
    ghost var rest := a[i + 1..];
    var x := a[i];
    assert a[..] == sorted[..i] + [x] + sorted[i..] + rest;
    var j := i;
    while j > 0 && !le(a[j - 1], x)
      invariant j <= i
      invariant a[..] == sorted[..j] + [x] + sorted[j..] + rest
      invariant forall k :: j <= k < i ==> !le(sorted[k], x)
    {
      ghost var before := a[..];
      ShapeAt(sorted, j, x, rest);
      var y := a[j - 1];
      a[j - 1] := x;
      a[j] := y;
      assert a[..] == before[j - 1 := x][j := y];
      SwapDownShape(sorted, j, x, rest);
      j := j - 1;
    }
    if j > 0 {
      ShapeAt(sorted, j, x, rest);
    }
    InsertSplit(sorted, j, x, le);
  }

  /** `Insert` puts `x` right after the last element that may precede it. */
  lemma {:induction false} InsertSplit<T>(sorted: seq<T>, j: nat, x: T, le: (T, T) -> bool)
    requires j <= |sorted|
    requires j > 0 ==> le(sorted[j - 1], x)
    requires forall k :: j <= k < |sorted| ==> !le(sorted[k], x)
    ensures Insert(sorted, x, le) == sorted[..j] + [x] + sorted[j..]
    decreases |sorted|
  {
    if j < |sorted| {
      var p := sorted[..|sorted| - 1];
      assert p[..j] == sorted[..j];
      InsertSplit(p, j, x, le);
      assert sorted[j..] == p[j..] + [sorted[|sorted| - 1]];
    } else {
      assert sorted[..j] == sorted;
    }
  }

  lemma ShapeAt<T>(sorted: seq<T>, j: nat, x: T, rest: seq<T>)
    requires 0 < j <= |sorted|
    ensures (sorted[..j] + [x] + sorted[j..] + rest)[j - 1] == sorted[j - 1]
  {
  }

  lemma SwapDownShape<T>(sorted: seq<T>, j: nat, x: T, rest: seq<T>)
    requires 0 < j <= |sorted|
    ensures (sorted[..j] + [x] + sorted[j..] + rest)[j - 1 := x][j := sorted[j - 1]]
            == sorted[..j - 1] + [x] + sorted[j - 1..] + rest
  {
    assert sorted[j - 1..] == [sorted[j - 1]] + sorted[j..];
  }
}
