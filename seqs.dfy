/** Order and uniqueness facts about sequences, shared by the tag editor and
    the explore view. */
module Seqs {

  /** `a` can be obtained from `b` by deleting elements: same relative order. */
  predicate IsSubseq<T(==)>(a: seq<T>, b: seq<T>)
    decreases |b|
  {
    if a == [] then true
    else if b == [] then false
    else if a[0] == b[0] then IsSubseq(a[1..], b[1..])
    else IsSubseq(a, b[1..])
  }

  lemma {:induction false} SubseqRefl<T>(s: seq<T>)
    ensures IsSubseq(s, s)
  {
    if s != [] { SubseqRefl(s[1..]); }
  }

  /** Every element of a subsequence occurs in the original. */
  lemma {:induction false} SubseqMembers<T>(a: seq<T>, b: seq<T>, x: T)
    requires IsSubseq(a, b) && x in a
    ensures x in b
    decreases |b|
  {
    if a[0] == b[0] {
      if x != a[0] { SubseqMembers(a[1..], b[1..], x); }
    } else {
      SubseqMembers(a, b[1..], x);
    }
  }

  /** Appending the same element to both sides keeps the subsequence relation. */
  lemma {:induction false} SubseqSnoc<T>(a: seq<T>, b: seq<T>, x: T)
    requires IsSubseq(a, b)
    ensures IsSubseq(a + [x], b + [x])
    decreases |b|
  {
    if a == [] {
      assert a + [x] == [x];
      SubseqOfSingleton(b, x);
    } else {
      assert (a + [x])[0] == a[0] && (a + [x])[1..] == a[1..] + [x];
      assert (b + [x])[0] == b[0] && (b + [x])[1..] == b[1..] + [x];
      if a[0] == b[0] {
        SubseqSnoc(a[1..], b[1..], x);
      } else {
        SubseqSnoc(a, b[1..], x);
      }
    }
  }

  lemma {:induction false} SubseqOfSingleton<T>(b: seq<T>, x: T)
    ensures IsSubseq([x], b + [x])
    decreases |b|
  {
    if b == [] {
      assert [x][1..] == [];
    } else {
      assert (b + [x])[1..] == b[1..] + [x];
      if b[0] == x { assert [x][1..] == []; } else { SubseqOfSingleton(b[1..], x); }
    }
  }

  /** A subsequence of `b` is also one of `b` extended at the end. */
  lemma {:induction false} SubseqExtend<T>(a: seq<T>, b: seq<T>, x: T)
    requires IsSubseq(a, b)
    ensures IsSubseq(a, b + [x])
    decreases |b|
  {
    if a != [] {
      assert (b + [x])[0] == b[0] && (b + [x])[1..] == b[1..] + [x];
      if a[0] == b[0] { SubseqExtend(a[1..], b[1..], x); } else { SubseqExtend(a, b[1..], x); }
    }
  }

  /** No element occurs twice. */
  predicate NoDup<T(==)>(s: seq<T>) {
    forall i, j :: 0 <= i < j < |s| ==> s[i] != s[j]
  }

  /** Index of the first occurrence of `x` in `s`. */
  function FirstIndex<T(==)>(s: seq<T>, x: T): (i: nat)
    requires x in s
    ensures i < |s| && s[i] == x && x !in s[..i]
  {
    if s[0] == x then 0
    else
      var i := 1 + FirstIndex(s[1..], x);
      assert s[..i] == [s[0]] + s[1..][..i - 1];
      i
  }

  lemma FirstIndexPrefix<T>(s: seq<T>, n: nat, x: T)
    requires n <= |s| && x in s[..n]
    ensures FirstIndex(s, x) == FirstIndex(s[..n], x)
  {
    var i := FirstIndex(s[..n], x);
    assert s[..n][..i] == s[..i];
  }

  /** `Array.from(new Set(s))`: each distinct element once, in the order of
      its first occurrence. */
  function Distinct<T(==)>(s: seq<T>): (r: seq<T>)
    ensures NoDup(r)
    ensures forall k :: 0 <= k < |r| ==> r[k] in s
    ensures forall k :: 0 <= k < |s| ==> s[k] in r
  {
    if s == [] then []
    else
      var p := s[..|s| - 1];
      var d := Distinct(p);
      var x := s[|s| - 1];
      assert s == p + [x];
      if x in d then d else d + [x]
  }

  /** Earlier elements of `Distinct(s)` first occur earlier in `s`. */
  lemma {:induction false} DistinctFirstOccurrenceOrder<T>(s: seq<T>, i: nat, j: nat)
    requires i < j < |Distinct(s)|
    ensures FirstIndex(s, Distinct(s)[i]) < FirstIndex(s, Distinct(s)[j])
  {
    var p := s[..|s| - 1];
    var d := Distinct(p);
    var x := s[|s| - 1];
    assert s == p + [x];
    FirstIndexPrefix(s, |s| - 1, Distinct(s)[i]);
    if j < |d| {
      FirstIndexPrefix(s, |s| - 1, d[j]);
      DistinctFirstOccurrenceOrder(p, i, j);
    } else {
      assert x !in p;
      assert FirstIndex(s, x) == |s| - 1;
    }
  }

  /** The distinct elements keep their order: they form a subsequence. */
  lemma {:induction false} DistinctIsSubseq<T>(s: seq<T>)
    ensures IsSubseq(Distinct(s), s)
  {
    if s != [] {
      var p := s[..|s| - 1];
      var x := s[|s| - 1];
      assert s == p + [x];
      DistinctIsSubseq(p);
      if x in Distinct(p) { SubseqExtend(Distinct(p), p, x); } else { SubseqSnoc(Distinct(p), p, x); }
    }
  }

  /** `s.filter(f)`: the elements satisfying `f`, in their original order. */
  function Filter<T>(s: seq<T>, f: T -> bool): (r: seq<T>)
    ensures |r| <= |s|
    ensures forall k :: 0 <= k < |r| ==> f(r[k]) && r[k] in s
    ensures forall k :: 0 <= k < |s| && f(s[k]) ==> s[k] in r
  {
    if s == [] then []
    else if f(s[0]) then [s[0]] + Filter(s[1..], f)
    else Filter(s[1..], f)
  }

  lemma {:induction false} FilterIsSubseq<T>(s: seq<T>, f: T -> bool)
    ensures IsSubseq(Filter(s, f), s)
  {
    if s != [] {
      FilterIsSubseq(s[1..], f);
      if f(s[0]) {
        assert Filter(s, f)[0] == s[0] && Filter(s, f)[1..] == Filter(s[1..], f);
      } else {
        SubseqSkip(Filter(s[1..], f), s[0], s[1..]);
      }
    }
  }

  /** `filter` keeps every copy of a passing element and no copy of a failing
      one. With `FilterIsSubseq` this fixes the result, duplicates included. */
  lemma {:induction false} FilterCounts<T>(s: seq<T>, f: T -> bool, x: T)
    ensures multiset(Filter(s, f))[x] == if f(x) then multiset(s)[x] else 0
  {
    if s != [] {
      FilterCounts(s[1..], f, x);
      assert s == [s[0]] + s[1..];
      assert multiset(s) == multiset{s[0]} + multiset(s[1..]);
      if f(s[0]) {
        assert multiset(Filter(s, f)) == multiset{s[0]} + multiset(Filter(s[1..], f));
      }
    }
  }

  /** A subsequence of the tail is a subsequence of the whole. */
  lemma {:induction false} SubseqSkip<T>(a: seq<T>, x: T, b: seq<T>)
    requires IsSubseq(a, b)
    ensures IsSubseq(a, [x] + b)
    decreases |b|, 1
  {
    if a != [] {
      assert ([x] + b)[0] == x && ([x] + b)[1..] == b;
      if a[0] == x { SubseqTail(a, b); }
    }
  }

  /** Dropping the first element keeps a subsequence. */
  lemma {:induction false} SubseqTail<T>(a: seq<T>, b: seq<T>)
    requires a != [] && IsSubseq(a, b)
    ensures IsSubseq(a[1..], b)
    decreases |b|, 0
  {
    assert [b[0]] + b[1..] == b;
    if a[0] == b[0] {
      SubseqSkip(a[1..], b[0], b[1..]);
    } else {
      SubseqTail(a, b[1..]);
      SubseqSkip(a[1..], b[0], b[1..]);
    }
  }

  /** Filtering by two tests in turn is filtering once by their conjunction. */
  lemma {:induction false} FilterFuse<T>(s: seq<T>, f: T -> bool, g: T -> bool, h: T -> bool)
    requires forall x :: h(x) == (f(x) && g(x))
    ensures Filter(Filter(s, f), g) == Filter(s, h)
  {
    if s != [] {
      FilterFuse(s[1..], f, g, h);
      if f(s[0]) {
        assert Filter(s, f) == [s[0]] + Filter(s[1..], f);
        assert Filter(s, f)[1..] == Filter(s[1..], f);
      }
    }
  }

  /** Filters by tests that agree everywhere give the same result. */
  lemma {:induction false} FilterExt<T>(s: seq<T>, f: T -> bool, g: T -> bool)
    requires forall x :: f(x) == g(x)
    ensures Filter(s, f) == Filter(s, g)
  {
    if s != [] { FilterExt(s[1..], f, g); }
  }

  /** The order of two filters does not matter. */
  lemma FilterCommute<T>(s: seq<T>, f: T -> bool, g: T -> bool)
    ensures Filter(Filter(s, f), g) == Filter(Filter(s, g), f)
  {
    var h := x => f(x) && g(x);
    FilterFuse(s, f, g, h);
    FilterFuse(s, g, f, h);
  }

  /** A test every element passes keeps the whole sequence. */
  lemma {:induction false} FilterAll<T>(s: seq<T>, f: T -> bool)
    requires forall k :: 0 <= k < |s| ==> f(s[k])
    ensures Filter(s, f) == s
  {
    if s != [] {
      FilterAll(s[1..], f);
      assert [s[0]] + s[1..] == s;
    }
  }
}
