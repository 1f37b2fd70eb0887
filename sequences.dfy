/** Generic sequence operations behind the directory's list handling:
    `Array.prototype.filter`, and the first-occurrence de-duplication that
    spreading a `Set` built from an array performs. */
module Sequences {

  /** `a` can be obtained from `b` by deleting elements, so `a` keeps the
      relative order of the elements of `b` it retains. */
  ghost predicate IsSubsequence<T>(a: seq<T>, b: seq<T>)
    decreases |b|
  {
    a == [] ||
    (b != [] && ((a[0] == b[0] && IsSubsequence(a[1..], b[1..])) || IsSubsequence(a, b[1..])))
  }

  lemma {:induction false} SubsequenceReflexive<T>(s: seq<T>)
    ensures IsSubsequence(s, s)
  {
    if s != [] {
      SubsequenceReflexive(s[1..]);
    }
  }

  /** Deleting elements never adds to how often an element occurs. */
  lemma {:induction false} SubsequenceMultiset<T>(a: seq<T>, b: seq<T>)
    requires IsSubsequence(a, b)
    ensures multiset(a) <= multiset(b)
    decreases |b|
  {
    if a != [] {
      if a[0] == b[0] && IsSubsequence(a[1..], b[1..]) {
        SubsequenceMultiset(a[1..], b[1..]);
        assert a == [a[0]] + a[1..] && b == [b[0]] + b[1..];
      } else {
        SubsequenceMultiset(a, b[1..]);
        assert b == [b[0]] + b[1..];
      }
    }
  }

  /** Array filtering: the elements of `s` satisfying `keep`, in their order. */
  function Filter<T>(s: seq<T>, keep: T -> bool): (r: seq<T>)
    ensures |r| <= |s|
    ensures forall x :: x in r ==> x in s && keep(x)
    ensures forall i :: 0 <= i < |s| && keep(s[i]) ==> s[i] in r
    ensures forall i :: 0 <= i < |r| ==> keep(r[i])
    ensures IsSubsequence(r, s)
  {
    if s == [] then []
    else if keep(s[0]) then [s[0]] + Filter(s[1..], keep)
    else Filter(s[1..], keep)
  }

  /** A filter keeps every copy of each element that passes the test and no
      copy of one that fails it. */
  lemma {:induction false} FilterCounts<T>(s: seq<T>, keep: T -> bool)
    ensures forall x :: multiset(Filter(s, keep))[x] == if keep(x) then multiset(s)[x] else 0
  {
    if s != [] {
      FilterCounts(s[1..], keep);
      assert s == [s[0]] + s[1..];
      assert multiset(s) == multiset{s[0]} + multiset(s[1..]);
    }
  }

  /** The part of `[x]` a filter keeps. */
  function Kept<T>(x: T, keep: T -> bool): seq<T> {
    if keep(x) then [x] else []
  }

  /** One step of a filter: the head is kept or dropped, the rest filtered. */
  lemma FilterCons<T>(x: T, rest: seq<T>, keep: T -> bool)
    ensures Filter([x] + rest, keep) == Kept(x, keep) + Filter(rest, keep)
  {
    assert ([x] + rest)[0] == x && ([x] + rest)[1..] == rest;
  }

  /** Putting the same head in front of two lists keeps a relation between
      what a filter retains of them. */
  lemma FilterConsSame<T>(h: T, r: seq<T>, u: seq<T>, extra: seq<T>, keep: T -> bool)
    requires Filter(u, keep) == Filter(r, keep) + extra
    ensures Filter([h] + u, keep) == Filter([h] + r, keep) + extra
  {
    FilterCons(h, u, keep);
    FilterCons(h, r, keep);
    ConcatAssoc(Kept(h, keep), Filter(r, keep), extra);
  }

  /** Filtering one more element at the end. */
  lemma FilterSnoc<T>(front: seq<T>, last: T, keep: T -> bool)
    ensures Filter(front + [last], keep) == Filter(front, keep) + Kept(last, keep)
  {
    FilterAppend(front, [last], keep);
    FilterCons(last, [], keep);
    assert [last] + [] == [last];
  }

  lemma SplitLast<T>(s: seq<T>)
    requires s != []
    ensures s == s[..|s| - 1] + [s[|s| - 1]]
  {
  }

  lemma SplitHead<T>(a: seq<T>, b: seq<T>)
    requires a != []
    ensures a == [a[0]] + a[1..] && a + b == [a[0]] + (a[1..] + b)
  {
  }

  lemma ConcatAssoc<T>(a: seq<T>, b: seq<T>, c: seq<T>)
    ensures a + (b + c) == (a + b) + c
  {
  }

  /** Filtering a concatenation filters each part. */
  lemma {:induction false} FilterAppend<T>(a: seq<T>, b: seq<T>, keep: T -> bool)
    ensures Filter(a + b, keep) == Filter(a, keep) + Filter(b, keep)
  {
    if a == [] {
      assert a + b == b;
    } else {
      FilterAppend(a[1..], b, keep);
      SplitHead(a, b);
      FilterConsSame(a[0], a[1..], a[1..] + b, Filter(b, keep), keep);
    }
  }

  /** A filter whose test every element passes keeps the whole sequence. */
  lemma {:induction false} FilterKeepsAll<T>(s: seq<T>, keep: T -> bool)
    requires forall i :: 0 <= i < |s| ==> keep(s[i])
    ensures Filter(s, keep) == s
  {
    if s != [] {
      FilterKeepsAll(s[1..], keep);
    }
  }

  /** A filter whose test no element passes keeps nothing. */
  lemma {:induction false} FilterKeepsNone<T>(s: seq<T>, keep: T -> bool)
    requires forall i :: 0 <= i < |s| ==> !keep(s[i])
    ensures Filter(s, keep) == []
  {
    if s != [] {
      FilterKeepsNone(s[1..], keep);
    }
  }

  /** A stricter test keeps a subsequence of what a looser test keeps. */
  lemma {:induction false} FilterMonotone<T>(s: seq<T>, strict: T -> bool, loose: T -> bool)
    requires forall x :: strict(x) ==> loose(x)
    ensures IsSubsequence(Filter(s, strict), Filter(s, loose))
  {
    if s != [] {
      FilterMonotone(s[1..], strict, loose);
      var a, b := Filter(s[1..], strict), Filter(s[1..], loose);
      if strict(s[0]) {
        assert Filter(s, strict) == [s[0]] + a && Filter(s, loose) == [s[0]] + b;
        assert ([s[0]] + a)[1..] == a && ([s[0]] + b)[1..] == b;
      } else if loose(s[0]) {
        assert Filter(s, loose) == [s[0]] + b && ([s[0]] + b)[1..] == b;
      }
    }
  }

  ghost predicate NoDuplicates<T>(s: seq<T>) {
    forall i, j :: 0 <= i < j < |s| ==> s[i] != s[j]
  }

  /** The position of the first occurrence of `v` in `xs`. */
  function FirstIndex<T(==)>(xs: seq<T>, v: T): (k: nat)
    requires v in xs
    ensures k < |xs| && xs[k] == v
    ensures forall j :: 0 <= j < k ==> xs[j] != v
  {
    if xs[0] == v then 0 else 1 + FirstIndex(xs[1..], v)
  }

  /** A first occurrence inside a prefix is the first occurrence in the whole sequence. */
  lemma {:induction false} FirstIndexInPrefix<T>(xs: seq<T>, n: nat, v: T)
    requires n <= |xs| && v in xs[..n]
    ensures v in xs && FirstIndex(xs, v) == FirstIndex(xs[..n], v)
  {
    assert xs[..n][0] == xs[0];
    if xs[0] != v {
      assert xs[..n][1..] == xs[1..][..n - 1];
      FirstIndexInPrefix(xs[1..], n - 1, v);
    }
  }

  /** Spreading a `Set` built from `xs`: the distinct elements of `xs`, each where it first occurs. */
  function Dedup<T(==)>(xs: seq<T>): (r: seq<T>)
    ensures DistinctInOrder(xs, r)
  {
    if xs == [] then []
    else
      var front, last := xs[..|xs| - 1], xs[|xs| - 1];
      var d := Dedup(front);
      assert xs == front + [last];
      DistinctInOrderAppend(front, last, d);
      if last in d then d else d + [last]
  }

  /** `r` lists the distinct elements of `xs`, each once, in the order of
      their first occurrences. */
  ghost predicate DistinctInOrder<T>(xs: seq<T>, r: seq<T>) {
    NoDuplicates(r) &&
    (forall v :: v in r ==> v in xs) &&
    (forall i :: 0 <= i < |xs| ==> xs[i] in r) &&
    (forall i, j :: 0 <= i < j < |r| ==> FirstIndex(xs, r[i]) < FirstIndex(xs, r[j]))
  }

  /** Appending one element keeps the listing of distinct elements: it is
      added at the end exactly when it is new. */
  lemma DistinctInOrderAppend<T>(front: seq<T>, last: T, d: seq<T>)
    requires DistinctInOrder(front, d)
    ensures DistinctInOrder(front + [last], if last in d then d else d + [last])
  {
    FirstIndexAfterAppend(front, last, d);
  }

  /** Appending an element moves no first occurrence of an earlier element; an
      element new to the sequence first occurs at the end. */
  lemma FirstIndexAfterAppend<T>(front: seq<T>, last: T, d: seq<T>)
    requires forall i :: 0 <= i < |d| ==> d[i] in front
    ensures forall i :: 0 <= i < |d| ==> FirstIndex(front + [last], d[i]) == FirstIndex(front, d[i])
    ensures last !in front ==> FirstIndex(front + [last], last) == |front|
  {
    var xs := front + [last];
    assert xs[..|front|] == front;
    forall i | 0 <= i < |d| ensures FirstIndex(xs, d[i]) == FirstIndex(front, d[i]) {
      FirstIndexInPrefix(xs, |front|, d[i]);
    }
    assert xs[|front|] == last;
  }
}
