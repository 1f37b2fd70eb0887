/** The three orders `render()` can sort by, and the stable sort it relies on
    (ECMA-262 requires `Array.prototype.sort` to be stable since its 2019 edition).
    Each comparator, a difference of two keys, is modelled by an integer rank:
    the sort puts records in ascending rank and keeps equal ranks in their
    previous order. */
module Sorting {
  import opened Sequences
  import opened Directory

  datatype Order = ByRating | ByReviews | ById

  /** The value of the order control: "rating", "reviews", or anything else
      (the default "relevance") for the natural id order. */
  function OrderOf(value: string): (o: Order)
    ensures o == ByRating <==> value == "rating"
    ensures o == ByReviews <==> value == "reviews"
    ensures o == ById <==> value != "rating" && value != "reviews"
  {
    if value == "rating" then ByRating else if value == "reviews" then ByReviews else ById
  }

  /** The rating and reviews comparators subtract the first record's key from
      the second's, which sorts by descending key, so the rank is the negated
      key; the natural order subtracts the other way round and ranks by the id. */
  function Rank(o: Order, p: Professional): int {
    match o
    case ByRating => -p.rating
    case ByReviews => -p.reviews
    case ById => p.id
  }

  /** The records whose rank is `k`. */
  function RankIs(o: Order, k: int): Professional -> bool {
    p => Rank(o, p) == k
  }

  ghost predicate Sorted(s: seq<Professional>, o: Order) {
    forall i, j :: 0 <= i < j < |s| ==> Rank(o, s[i]) <= Rank(o, s[j])
  }

  /** Put `x` after every record of `t` whose rank is not above its own. */
  function Insert(t: seq<Professional>, x: Professional, o: Order): seq<Professional> {
    if t == [] || Rank(o, x) < Rank(o, t[0]) then [x] + t
    else [t[0]] + Insert(t[1..], x, o)
  }

  /** Stable insertion sort, taking the records in input order. */
  function SortBy(s: seq<Professional>, o: Order): seq<Professional> {
    if s == [] then [] else Insert(SortBy(s[..|s| - 1], o), s[|s| - 1], o)
  }

  lemma {:induction false} InsertPermutes(t: seq<Professional>, x: Professional, o: Order)
    ensures multiset(Insert(t, x, o)) == multiset(t) + multiset{x}
  {
    if t != [] && Rank(o, x) >= Rank(o, t[0]) {
      InsertPermutes(t[1..], x, o);
      assert t == [t[0]] + t[1..];
    }
  }

  lemma {:induction false} InsertKeepsSorted(t: seq<Professional>, x: Professional, o: Order)
    requires Sorted(t, o)
    ensures Sorted(Insert(t, x, o), o)
  {
    if t != [] && Rank(o, x) >= Rank(o, t[0]) {
      var rest := t[1..];
      assert Sorted(rest, o);
      InsertKeepsSorted(rest, x, o);
      InsertPermutes(rest, x, o);
      var r := Insert(rest, x, o);
      forall j | 0 <= j < |r| ensures Rank(o, t[0]) <= Rank(o, r[j]) {
        assert r[j] in multiset(rest) + multiset{x};
        if r[j] != x {
          assert r[j] in rest;
        }
      }
      ConsSorted(t[0], r, o);
    }
  }

  /** A head ranked no higher than anything after it keeps a sorted list sorted. */
  lemma ConsSorted(h: Professional, r: seq<Professional>, o: Order)
    requires Sorted(r, o)
    requires forall j :: 0 <= j < |r| ==> Rank(o, h) <= Rank(o, r[j])
    ensures Sorted([h] + r, o)
  {
    var s := [h] + r;
    forall i, j | 0 <= i < j < |s| ensures Rank(o, s[i]) <= Rank(o, s[j]) {
      assert s[j] == r[j - 1];
      if i > 0 {
        assert s[i] == r[i - 1];
      }
    }
  }

  /** The sort reorders its input and nothing more. */
  lemma {:induction false} SortByPermutes(s: seq<Professional>, o: Order)
    ensures multiset(SortBy(s, o)) == multiset(s)
  {
    if s != [] {
      SortByPermutes(s[..|s| - 1], o);
      InsertPermutes(SortBy(s[..|s| - 1], o), s[|s| - 1], o);
      assert s == s[..|s| - 1] + [s[|s| - 1]];
    }
  }

  /** The sort leaves ranks ascending. */
  lemma {:induction false} SortBySorted(s: seq<Professional>, o: Order)
    ensures Sorted(SortBy(s, o), o)
  {
    if s != [] {
      SortBySorted(s[..|s| - 1], o);
      InsertKeepsSorted(SortBy(s[..|s| - 1], o), s[|s| - 1], o);
    }
  }

  /** Inserting into a sorted list only adds `x` to the records of its own rank, last. */
  lemma {:induction false} InsertStable(t: seq<Professional>, x: Professional, o: Order, k: int)
    requires Sorted(t, o)
    ensures Filter(Insert(t, x, o), RankIs(o, k)) == Filter(t, RankIs(o, k)) + Kept(x, RankIs(o, k))
  {
    if t == [] || Rank(o, x) < Rank(o, t[0]) {
      InsertInFront(t, x, o, k);
    } else {
      InsertStable(t[1..], x, o, k);
      FilterConsSame(t[0], t[1..], Insert(t[1..], x, o), Kept(x, RankIs(o, k)), RankIs(o, k));
      SplitHead(t, []);
    }
  }

  /** `x` goes in front of a sorted list whose records all rank above it. */
  lemma InsertInFront(t: seq<Professional>, x: Professional, o: Order, k: int)
    requires Sorted(t, o) && (t == [] || Rank(o, x) < Rank(o, t[0]))
    ensures Filter([x] + t, RankIs(o, k)) == Filter(t, RankIs(o, k)) + Kept(x, RankIs(o, k))
  {
    var keep := RankIs(o, k);
    FilterCons(x, t, keep);
    if keep(x) {
      FilterKeepsNone(t, keep);
    } else {
      assert Filter(t, keep) + [] == Filter(t, keep);
    }
  }

  /** Stability: the records of each rank come out in the order they went in. */
  lemma {:induction false} SortByStable(s: seq<Professional>, o: Order, k: int)
    ensures Filter(SortBy(s, o), RankIs(o, k)) == Filter(s, RankIs(o, k))
  {
    if s != [] {
      var front, last := s[..|s| - 1], s[|s| - 1];
      var keep := RankIs(o, k);
      SortBySorted(front, o);
      InsertStable(SortBy(front, o), last, o, k);
      SortByStable(front, o, k);
      FilterSnoc(front, last, keep);
      SplitLast(s);
    }
  }

  /** Where `x` lands: after the `j` records not ranked above it. */
  lemma {:induction false} InsertAt(t: seq<Professional>, x: Professional, o: Order, j: nat)
    requires j <= |t|
    requires forall m :: 0 <= m < j ==> Rank(o, t[m]) <= Rank(o, x)
    requires forall m :: j <= m < |t| ==> Rank(o, t[m]) > Rank(o, x)
    ensures Insert(t, x, o) == t[..j] + [x] + t[j..]
  {
    if j > 0 {
      InsertAt(t[1..], x, o, j - 1);
      assert t[1..][..j - 1] == t[1..j] && t[1..][j - 1..] == t[j..];
      assert t[..j] == [t[0]] + t[1..j];
    }
  }

  /** An input already in order comes out unchanged. */
  lemma {:induction false} SortBySortedInput(s: seq<Professional>, o: Order)
    requires Sorted(s, o)
    ensures SortBy(s, o) == s
  {
    if s != [] {
      var front, last := s[..|s| - 1], s[|s| - 1];
      assert Sorted(front, o);
      SortBySortedInput(front, o);
      InsertLast(front, last, o);
      SplitLast(s);
    }
  }

  /** A record ranked no lower than everything in the list goes at its end. */
  lemma InsertLast(t: seq<Professional>, x: Professional, o: Order)
    requires forall m :: 0 <= m < |t| ==> Rank(o, t[m]) <= Rank(o, x)
    ensures Insert(t, x, o) == t + [x]
  {
    InsertAt(t, x, o, |t|);
    assert t[..|t|] == t && t[|t|..] == [];
  }

  /** With unique ids, the id order is strict. */
  lemma SortByIdStrict(s: seq<Professional>)
    requires UniqueIds(s)
    ensures AscendingIds(SortBy(s, ById))
  {
    var r := SortBy(s, ById);
    SortBySorted(s, ById);
    SortByPermutes(s, ById);
    forall i, j | 0 <= i < j < |r| ensures r[i].id < r[j].id {
      if r[i].id == r[j].id {
        SameIdTwice(s, r, i, j);
      }
    }
  }

  /** Two positions of a permutation of `s` cannot hold records of the same
      id when the ids of `s` are unique. */
  lemma SameIdTwice(s: seq<Professional>, r: seq<Professional>, i: nat, j: nat)
    requires UniqueIds(s) && multiset(r) == multiset(s)
    requires i < j < |r|
    ensures r[i].id != r[j].id
  {
    if r[i] == r[j] {
      var x := r[i];
      assert r == r[..j] + [x] + r[j + 1..];
      assert x in r[..j];
      assert multiset(r)[x] >= 2 by {
        assert multiset(r) == multiset(r[..j]) + multiset{x} + multiset(r[j + 1..]);
      }
      var a :| 0 <= a < |s| && s[a] == x;
      TwiceInSequence(s, x, a);
    } else {
      var a :| 0 <= a < |s| && s[a] == r[i] by { assert r[i] in multiset(s); }
      var b :| 0 <= b < |s| && s[b] == r[j] by { assert r[j] in multiset(s); }
      assert a != b;
    }
  }

  /** In a sequence with unique ids, each record occurs once. */
  lemma TwiceInSequence(s: seq<Professional>, x: Professional, a: nat)
    requires UniqueIds(s) && a < |s| && s[a] == x
    ensures multiset(s)[x] == 1
  {
    assert s == s[..a] + [x] + s[a + 1..];
    assert x !in s[..a];
    assert forall m :: a < m < |s| ==> s[m] != x;
    assert x !in s[a + 1..];
    assert multiset(s) == multiset(s[..a]) + multiset{x} + multiset(s[a + 1..]);
  }

  /** Sorting the narrowed copy in place: a stable insertion sort. */
  method SortInPlace(a: array<Professional>, o: Order)
    modifies a
    ensures a[..] == SortBy(old(a[..]), o)
  {
    ghost var input := a[..];
    var i := 0;
    while i < a.Length
      invariant 0 <= i <= a.Length
      invariant a[..i] == SortBy(input[..i], o)
      invariant a[i..] == input[i..]
    {
      ghost var before := a[..];
      SortBySorted(input[..i], o);
      assert before[..i] == SortBy(input[..i], o);
      assert before[i] == input[i] && before[i + 1..] == input[i + 1..] by {
        assert before[i..] == input[i..];
        assert before[i..][0] == before[i] && before[i..][1..] == before[i + 1..];
        assert input[i..][0] == input[i] && input[i..][1..] == input[i + 1..];
      }
      InsertIntoPrefix(a, i, o);
      SortByExtend(input, i, o);
      i := i + 1;
    }
    assert input[..a.Length] == input;
  }

  /** The sort of a longer prefix inserts the next record into the sort of the shorter one. */
  lemma SortByExtend(s: seq<Professional>, i: nat, o: Order)
    requires i < |s|
    ensures SortBy(s[..i + 1], o) == Insert(SortBy(s[..i], o), s[i], o)
  {
    assert s[..i + 1][..i] == s[..i] && s[..i + 1][i] == s[i];
  }

  lemma SortedPrefixBelow(t: seq<Professional>, x: Professional, o: Order, j: nat)
    requires Sorted(t, o) && j <= |t|
    requires j > 0 ==> Rank(o, t[j - 1]) <= Rank(o, x)
    ensures forall m :: 0 <= m < j ==> Rank(o, t[m]) <= Rank(o, x)
  {
  }

  /** After the records ranked above `x` moved one place right and `x` was
      written into the gap, the prefix is `t` with `x` inserted at `j`. */
  lemma ShiftedPrefix(s: seq<Professional>, t: seq<Professional>, x: Professional, j: nat)
    requires j <= |t| < |s|
    requires forall m :: 0 <= m < j ==> s[m] == t[m]
    requires s[j] == x
    requires forall m :: j < m <= |t| ==> s[m] == t[m - 1]
    ensures s[..|t| + 1] == t[..j] + [x] + t[j..]
  {
  }

  /** `s` with the records at `j..i-1` moved one place right; position `j`
      still holds its old record (the gap the insertion will fill). */
  function ShiftedRight(s: seq<Professional>, j: nat, i: nat): (r: seq<Professional>)
    requires j <= i < |s|
    ensures |r| == |s|
  {
    seq(|s|, m requires 0 <= m < |s| => if j < m <= i then s[m - 1] else s[m])
  }

  /** Where each record of a shifted sequence came from. */
  lemma ShiftedRightAt(s: seq<Professional>, j: nat, i: nat)
    requires j <= i < |s|
    ensures forall m :: 0 <= m < j ==> ShiftedRight(s, j, i)[m] == s[m]
    ensures forall m :: j < m <= i ==> ShiftedRight(s, j, i)[m] == s[m - 1]
    ensures forall m :: i < m < |s| ==> ShiftedRight(s, j, i)[m] == s[m]
  {
  }

  /** Below the stretch a shift leaves every record where it was, and moving
      one more record right widens the stretch by one. */
  lemma ShiftOneMore(s: seq<Professional>, j: nat, i: nat)
    requires 0 < j <= i < |s|
    ensures ShiftedRight(s, j, i)[j - 1] == s[j - 1]
    ensures ShiftedRight(s, j, i)[j := s[j - 1]] == ShiftedRight(s, j - 1, i)
  {
  }

  /** `p` comes strictly after `x` in the order `o`. */
  predicate RanksAbove(o: Order, p: Professional, x: Professional) {
    Rank(o, p) > Rank(o, x)
  }

  /** The inner loop of one insertion pass: move the records of `a[..i]`
      ranked above `x` one place right, and return the gap they leave. */
  method ShiftAbove(a: array<Professional>, i: nat, x: Professional, o: Order) returns (j: nat)
    requires i < a.Length
    modifies a
    ensures j <= i
    ensures a[..] == ShiftedRight(old(a[..]), j, i)
    ensures forall m :: j <= m < i ==> RanksAbove(o, old(a[m]), x)
    ensures j > 0 ==> !RanksAbove(o, old(a[j - 1]), x)
  {
    ghost var before := a[..];
    j := i;
    assert a[..] == ShiftedRight(before, i, i);
    while j > 0 && RanksAbove(o, a[j - 1], x)
      invariant j <= i
      invariant a[..] == ShiftedRight(before, j, i)
      invariant forall m :: j <= m < i ==> RanksAbove(o, before[m], x)
    {
      ShiftOneMore(before, j, i);
      a[j] := a[j - 1];
      j := j - 1;
    }
    if j > 0 {
      ShiftOneMore(before, j, i);
    }
  }

  /** One pass of the insertion sort: move `a[i]` left into the sorted prefix `a[..i]`. */
  method InsertIntoPrefix(a: array<Professional>, i: nat, o: Order)
    requires i < a.Length && Sorted(a[..i], o)
    modifies a
    ensures a[..i + 1] == Insert(old(a[..i]), old(a[i]), o)
    ensures a[i + 1..] == old(a[i + 1..])
  {
    ghost var before := a[..];
    var x := a[i];
    var j := ShiftAbove(a, i, x, o);
    ghost var mid := a[..];
    a[j] := x;
    assert a[..] == mid[j := x];
    PlaceInGap(before, mid, i, j, x, o);
  }

  /** The array contents around one insertion pass, as sequences: `before`
      when the pass starts, `mid` once the records ranked above `x` have moved
      right; writing `x` into the gap then gives the insertion. */
  lemma PlaceInGap(before: seq<Professional>, mid: seq<Professional>, i: nat, j: nat, x: Professional, o: Order)
    requires j <= i < |before| && Sorted(before[..i], o)
    requires mid == ShiftedRight(before, j, i)
    requires forall m :: j <= m < i ==> Rank(o, before[m]) > Rank(o, x)
    requires j > 0 ==> Rank(o, before[j - 1]) <= Rank(o, x)
    ensures mid[j := x][..i + 1] == Insert(before[..i], x, o)
    ensures mid[j := x][i + 1..] == before[i + 1..]
  {
    var t := before[..i];
    assert forall m :: 0 <= m < i ==> t[m] == before[m];
    ShiftedRightAt(before, j, i);
    GapPrefix(t, mid, j, x, o);
    GapSuffix(before, mid, i, j, x);
  }

  /** Beyond position `i` the pass changes nothing. */
  lemma GapSuffix(before: seq<Professional>, mid: seq<Professional>, i: nat, j: nat, x: Professional)
    requires i < |before| == |mid| && j <= i
    requires forall m :: i < m < |mid| ==> mid[m] == before[m]
    ensures mid[j := x][i + 1..] == before[i + 1..]
  {
  }

  /** Writing `x` into the gap at `j` of the shifted prefix inserts it into `t`. */
  lemma GapPrefix(t: seq<Professional>, mid: seq<Professional>, j: nat, x: Professional, o: Order)
    requires j <= |t| < |mid| && Sorted(t, o)
    requires forall m :: 0 <= m < j ==> mid[m] == t[m]
    requires forall m :: j < m <= |t| ==> mid[m] == t[m - 1]
    requires forall m :: j <= m < |t| ==> Rank(o, t[m]) > Rank(o, x)
    requires j > 0 ==> Rank(o, t[j - 1]) <= Rank(o, x)
    ensures mid[j := x][..|t| + 1] == Insert(t, x, o)
  {
    SortedPrefixBelow(t, x, o, j);
    InsertAt(t, x, o, j);
    ShiftedPrefix(mid[j := x], t, x, j);
  }
}
