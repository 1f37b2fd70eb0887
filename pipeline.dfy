/** `render()`'s query pipeline: narrow a copy of the store by the search
    term, the favourites flag, the refine term and the role, sort what is
    left, and describe how many were found. The live control values are an
    explicit `Query`. */
module Pipeline {
  import opened Text
  import opened Sequences
  import opened Directory
  import opened Sorting

  /** The values `render()` reads from the page's controls. */
  datatype Query = Query(
    search: string,
    refine: string,
    role: string,
    order: string,
    favoritesOnly: bool)

  /** What "show all" and "clear" leave in the controls. */
  const DefaultQuery := Query("", "", "", "relevance", false)

  /** A control's text as the search stages use it: trimmed, then lower-cased.
      It is empty, so the stage is switched off, exactly when the text is blank. */
  function NormalizeTerm(value: string): (term: string)
    ensures |term| <= |value|
    ensures term == [] <==> forall m :: 0 <= m < |value| ==> IsSpace(value[m])
  {
    TrimEmptyIffBlank(value);
    Lower(Trim(value))
  }

  /** Lower-cased name, role or city contains the term. */
  predicate Matches(p: Professional, term: string): (b: bool)
    ensures b <==>
      ((exists i: nat :: OccursAt(Lower(p.name), term, i)) ||
       (exists i: nat :: OccursAt(Lower(p.role), term, i)) ||
       (exists i: nat :: OccursAt(Lower(p.city), term, i)))
  {
    Contains(Lower(p.name), term) || Contains(Lower(p.role), term) || Contains(Lower(p.city), term)
  }

  /** The tests the stages pass to `filter`. */
  function MatchesTerm(term: string): Professional -> bool {
    p => Matches(p, term)
  }

  function IsFavorite(): Professional -> bool {
    (p: Professional) => p.favorite
  }

  function HasRole(role: string): Professional -> bool {
    (p: Professional) => p.role == role
  }

  /** The search stage, and the refine stage applied to an already narrowed list. */
  function SearchStage(s: seq<Professional>, term: string): (r: seq<Professional>)
    ensures IsSubsequence(r, s)
    ensures term == [] ==> r == s
    ensures forall p :: p in r ==> p in s && (term == [] || Matches(p, term))
    ensures forall i :: 0 <= i < |s| && (term == [] || Matches(s[i], term)) ==> s[i] in r
    ensures forall p :: multiset(r)[p] == if term == [] || Matches(p, term) then multiset(s)[p] else 0
  {
    if term == [] then SubsequenceReflexive(s); s
    else FilterCounts(s, MatchesTerm(term)); Filter(s, MatchesTerm(term))
  }

  /** The favourites stage: with the flag on, only favourites are kept. */
  function FavoritesStage(s: seq<Professional>, on: bool): (r: seq<Professional>)
    ensures IsSubsequence(r, s)
    ensures !on ==> r == s
    ensures forall p :: p in r ==> p in s && (!on || p.favorite)
    ensures forall i :: 0 <= i < |s| && (!on || s[i].favorite) ==> s[i] in r
    ensures forall p :: multiset(r)[p] == if !on || p.favorite then multiset(s)[p] else 0
  {
    if !on then SubsequenceReflexive(s); s
    else FilterCounts(s, IsFavorite()); Filter(s, IsFavorite())
  }

  /** The role stage: an exact, case-sensitive comparison with the selected role. */
  function RoleStage(s: seq<Professional>, role: string): (r: seq<Professional>)
    ensures IsSubsequence(r, s)
    ensures role == [] ==> r == s
    ensures forall p :: p in r ==> p in s && (role == [] || p.role == role)
    ensures forall i :: 0 <= i < |s| && (role == [] || s[i].role == role) ==> s[i] in r
    ensures forall p :: multiset(r)[p] == if role == [] || p.role == role then multiset(s)[p] else 0
  {
    if role == [] then SubsequenceReflexive(s); s
    else FilterCounts(s, HasRole(role)); Filter(s, HasRole(role))
  }

  /** The four stages in `render()`'s order. */
  function Narrowed(store: seq<Professional>, q: Query): seq<Professional> {
    var afterSearch := SearchStage(store, NormalizeTerm(q.search));
    var afterFavorites := FavoritesStage(afterSearch, q.favoritesOnly);
    var afterRefine := SearchStage(afterFavorites, NormalizeTerm(q.refine));
    RoleStage(afterRefine, q.role)
  }

  /** The list `render()` shows for query `q`. */
  function Results(store: seq<Professional>, q: Query): seq<Professional> {
    SortBy(Narrowed(store, q), OrderOf(q.order))
  }

  /** Whether a record passes every stage of query `q`. */
  predicate Admits(q: Query, p: Professional) {
    var search, refine := NormalizeTerm(q.search), NormalizeTerm(q.refine);
    (search == [] || Matches(p, search)) &&
    (!q.favoritesOnly || p.favorite) &&
    (refine == [] || Matches(p, refine)) &&
    (q.role == [] || p.role == q.role)
  }

  function AdmittedBy(q: Query): Professional -> bool {
    p => Admits(q, p)
  }

  /** The staged narrowing is a single filter by all the query's tests together. */
  lemma {:induction false} NarrowedIsFilter(store: seq<Professional>, q: Query)
    ensures Narrowed(store, q) == Filter(store, AdmittedBy(q))
  {
    if store != [] {
      var x, rest := store[0], store[1..];
      NarrowedIsFilter(rest, q);
      assert store == [x] + rest;
      StagesDistribute(x, rest, q);
    }
  }

  /** Every stage handles the first record on its own and the rest separately. */
  lemma StagesDistribute(x: Professional, rest: seq<Professional>, q: Query)
    ensures Narrowed([x] + rest, q) == (if Admits(q, x) then [x] else []) + Narrowed(rest, q)
  {
    NarrowedAppend([x], rest, q);
    NarrowedSingle(x, q);
  }

  /** The stages distribute over concatenation. */
  lemma NarrowedAppend(a: seq<Professional>, b: seq<Professional>, q: Query)
    ensures Narrowed(a + b, q) == Narrowed(a, q) + Narrowed(b, q)
  {
    var st, rt := NormalizeTerm(q.search), NormalizeTerm(q.refine);
    SearchAppend(a, b, st);
    var a1, b1 := SearchStage(a, st), SearchStage(b, st);
    FavoritesAppend(a1, b1, q.favoritesOnly);
    var a2, b2 := FavoritesStage(a1, q.favoritesOnly), FavoritesStage(b1, q.favoritesOnly);
    SearchAppend(a2, b2, rt);
    var a3, b3 := SearchStage(a2, rt), SearchStage(b2, rt);
    RoleAppend(a3, b3, q.role);
  }

  /** A single record comes through the stages exactly when it is admitted. */
  lemma NarrowedSingle(x: Professional, q: Query)
    ensures Narrowed([x], q) == if Admits(q, x) then [x] else []
  {
    var st, rt := NormalizeTerm(q.search), NormalizeTerm(q.refine);
    var none: seq<Professional> := [];
    SearchSingle(x, st);
    FavoritesSingle(x, q.favoritesOnly);
    SearchSingle(x, rt);
    RoleSingle(x, q.role);
    assert SearchStage(none, rt) == none && FavoritesStage(none, q.favoritesOnly) == none;
    assert RoleStage(none, q.role) == none;
  }

  /** The search stage on a one-record list. */
  lemma SearchSingle(x: Professional, term: string)
    ensures SearchStage([x], term) == if term == [] || Matches(x, term) then [x] else []
  {
    if term != [] {
      FilterCons(x, [], MatchesTerm(term));
      assert [x] + [] == [x];
    }
  }

  /** The favourites stage on a one-record list. */
  lemma FavoritesSingle(x: Professional, on: bool)
    ensures FavoritesStage([x], on) == if !on || x.favorite then [x] else []
  {
    if on {
      FilterCons(x, [], IsFavorite());
      assert [x] + [] == [x];
    }
  }

  /** The role stage on a one-record list. */
  lemma RoleSingle(x: Professional, role: string)
    ensures RoleStage([x], role) == if role == [] || x.role == role then [x] else []
  {
    if role != [] {
      FilterCons(x, [], HasRole(role));
      assert [x] + [] == [x];
    }
  }

  lemma SearchAppend(a: seq<Professional>, b: seq<Professional>, term: string)
    ensures SearchStage(a + b, term) == SearchStage(a, term) + SearchStage(b, term)
  {
    if term != [] {
      FilterAppend(a, b, MatchesTerm(term));
    }
  }

  lemma FavoritesAppend(a: seq<Professional>, b: seq<Professional>, on: bool)
    ensures FavoritesStage(a + b, on) == FavoritesStage(a, on) + FavoritesStage(b, on)
  {
    if on {
      FilterAppend(a, b, IsFavorite());
    }
  }

  lemma RoleAppend(a: seq<Professional>, b: seq<Professional>, role: string)
    ensures RoleStage(a + b, role) == RoleStage(a, role) + RoleStage(b, role)
  {
    if role != [] {
      FilterAppend(a, b, HasRole(role));
    }
  }

  /** The records shown are the store's records that pass every stage, each as
      often as in the store, sorted by the selected order. */
  lemma ResultsAreAdmitted(store: seq<Professional>, q: Query)
    ensures multiset(Results(store, q)) == multiset(Filter(store, AdmittedBy(q)))
    ensures forall p :: multiset(Results(store, q))[p] == if Admits(q, p) then multiset(store)[p] else 0
    ensures multiset(Results(store, q)) <= multiset(store)
    ensures forall p :: p in Results(store, q) <==> p in store && Admits(q, p)
  {
    NarrowedIsFilter(store, q);
    var f := Filter(store, AdmittedBy(q));
    FilterCounts(store, AdmittedBy(q));
    SortByPermutes(f, OrderOf(q.order));
    SubsequenceMultiset(f, store);
    forall p ensures p in Results(store, q) <==> p in store && Admits(q, p) {
      assert p in Results(store, q) <==> p in multiset(f);
      if p in store && Admits(q, p) {
        var i :| 0 <= i < |store| && store[i] == p;
      }
    }
  }

  /** The sort order of the result: "rating" gives non-increasing ratings,
      "reviews" non-increasing review counts, anything else rising ids (strictly,
      when the store's ids are unique). */
  lemma ResultsOrdered(store: seq<Professional>, q: Query)
    ensures q.order == "rating" ==> forall i, j :: 0 <= i < j < |Results(store, q)| ==>
      Results(store, q)[i].rating >= Results(store, q)[j].rating
    ensures q.order == "reviews" ==> forall i, j :: 0 <= i < j < |Results(store, q)| ==>
      Results(store, q)[i].reviews >= Results(store, q)[j].reviews
    ensures q.order != "rating" && q.order != "reviews" ==> forall i, j :: 0 <= i < j < |Results(store, q)| ==>
      Results(store, q)[i].id <= Results(store, q)[j].id
    ensures q.order != "rating" && q.order != "reviews" && UniqueIds(store) ==>
      AscendingIds(Results(store, q))
  {
    var n := Narrowed(store, q);
    var o := OrderOf(q.order);
    SortBySorted(n, o);
    if o == ById && UniqueIds(store) {
      NarrowedUniqueIds(store, q);
      SortByIdStrict(n);
    }
  }

  /** A subsequence of a store with unique ids has unique ids. */
  lemma NarrowedUniqueIds(store: seq<Professional>, q: Query)
    requires UniqueIds(store)
    ensures UniqueIds(Narrowed(store, q))
  {
    var n := Narrowed(store, q);
    NarrowedIsFilter(store, q);
    SubsequenceUniqueIds(n, store);
  }

  lemma {:induction false} SubsequenceUniqueIds(a: seq<Professional>, b: seq<Professional>)
    requires IsSubsequence(a, b) && UniqueIds(b)
    ensures UniqueIds(a)
    decreases |b|
  {
    if a != [] {
      assert UniqueIds(b[1..]) by {
        forall i, j | 0 <= i < j < |b| - 1 ensures b[1..][i].id != b[1..][j].id {
          assert b[1..][i] == b[i + 1] && b[1..][j] == b[j + 1];
        }
      }
      if a[0] == b[0] && IsSubsequence(a[1..], b[1..]) {
        SubsequenceUniqueIds(a[1..], b[1..]);
        SubsequenceMultiset(a[1..], b[1..]);
        forall j | 0 < j < |a| ensures a[0].id != a[j].id {
          assert a[j] == a[1..][j - 1];
          assert a[j] in multiset(b[1..]);
          var k :| 0 <= k < |b| - 1 && b[1..][k] == a[j];
          assert b[k + 1] == a[j];
        }
        forall i, j | 0 <= i < j < |a| ensures a[i].id != a[j].id {
          if i > 0 {
            assert a[i] == a[1..][i - 1] && a[j] == a[1..][j - 1];
          }
        }
      } else {
        SubsequenceUniqueIds(a, b[1..]);
      }
    }
  }

  /** Stability: records that tie on the sort key keep the order the stages left them in. */
  lemma ResultsStable(store: seq<Professional>, q: Query, k: int)
    ensures Filter(Results(store, q), RankIs(OrderOf(q.order), k)) ==
      Filter(Narrowed(store, q), RankIs(OrderOf(q.order), k))
  {
    SortByStable(Narrowed(store, q), OrderOf(q.order), k);
  }

  /** With every control at its default, a store in its natural order is shown whole. */
  lemma DefaultShowsAll(store: seq<Professional>)
    requires AscendingIds(store)
    ensures Results(store, DefaultQuery) == store
  {
    assert NormalizeTerm("") == "";
    SortBySortedInput(store, ById);
  }

  /** With every control but the order at its default, no stage removes anything. */
  lemma DefaultsNarrowNothing(store: seq<Professional>, order: string)
    ensures Narrowed(store, DefaultQuery.(order := order)) == store
  {
    assert NormalizeTerm("") == "";
  }

  /** ...and the page's own store is shown whole, in id order 1, 2, 3, 4. */
  lemma DefaultShowsStore()
    ensures Results(Professionals, DefaultQuery) == Professionals
  {
    StoreIsAscending();
    DefaultShowsAll(Professionals);
  }

  /** Adding constraints never adds records: a query whose tests are stricter
      shows a sub-multiset of what the looser query shows. */
  lemma StricterQueryShowsFewer(store: seq<Professional>, strict: Query, loose: Query)
    requires forall p :: Admits(strict, p) ==> Admits(loose, p)
    ensures multiset(Results(store, strict)) <= multiset(Results(store, loose))
  {
    ResultsAreAdmitted(store, strict);
    ResultsAreAdmitted(store, loose);
    FilterMonotone(store, AdmittedBy(strict), AdmittedBy(loose));
    SubsequenceMultiset(Filter(store, AdmittedBy(strict)), Filter(store, AdmittedBy(loose)));
  }

  /** Switching the favourites flag on narrows the result. */
  lemma FavoritesNarrows(store: seq<Professional>, q: Query)
    ensures multiset(Results(store, q.(favoritesOnly := true))) <= multiset(Results(store, q.(favoritesOnly := false)))
  {
    StricterQueryShowsFewer(store, q.(favoritesOnly := true), q.(favoritesOnly := false));
  }

  /** Search and refine terms are compared case-insensitively: two terms that
      lower-case alike give the same result. */
  lemma SearchIgnoresCase(store: seq<Professional>, q: Query, t1: string, t2: string)
    requires Lower(t1) == Lower(t2)
    ensures Results(store, q.(search := t1)) == Results(store, q.(search := t2))
    ensures Results(store, q.(refine := t1)) == Results(store, q.(refine := t2))
  {
    NormalizeIgnoresCase(t1, t2);
  }

  lemma NormalizeIgnoresCase(t1: string, t2: string)
    requires Lower(t1) == Lower(t2)
    ensures NormalizeTerm(t1) == NormalizeTerm(t2)
  {
    TrimLower(t1);
    TrimLower(t2);
  }

  /** The count line: the number, then the noun and participle, both with a
      plural "s" unless the number is exactly 1. */
  function CountText(n: nat): (text: string)
    ensures n == 1 ==> text == "1 profissional encontrado"
    ensures n != 1 ==> text == NatToString(n) + " profissionals encontrados"
  {
    var plural := if n != 1 then "s" else "";
    assert n == 1 ==> NatToString(n) == [DigitChar(1)] == "1";
    NatToString(n) + " profissional" + plural + " encontrado" + plural
  }

  /** The count can be read back from the text. */
  lemma CountTextNumber(n: nat)
    ensures LeadingNumber(CountText(n)) == n
  {
    var rest := CountText(n)[|NatToString(n)|..];
    assert CountText(n) == NatToString(n) + rest;
    assert rest[0] == ' ';
    DigitPrefixOf(NatToString(n), rest);
    NatToStringRoundTrip(n);
  }

  /** The filtering half of `render()`: starting from the whole store,
      each stage that is switched on replaces the list by its filtered copy. */
  method Narrow(store: seq<Professional>, q: Query) returns (filtered: seq<Professional>)
    ensures filtered == Narrowed(store, q)
  {
    filtered := store;
    var searchTerm := NormalizeTerm(q.search);
    if searchTerm != [] {
      filtered := Filter(filtered, MatchesTerm(searchTerm));
    }
    assert filtered == SearchStage(store, searchTerm);
    ghost var afterSearch := filtered;
    if q.favoritesOnly {
      filtered := Filter(filtered, IsFavorite());
    }
    assert filtered == FavoritesStage(afterSearch, q.favoritesOnly);
    ghost var afterFavorites := filtered;
    var refineTerm := NormalizeTerm(q.refine);
    if refineTerm != [] {
      filtered := Filter(filtered, MatchesTerm(refineTerm));
    }
    assert filtered == SearchStage(afterFavorites, refineTerm);
    ghost var afterRefine := filtered;
    var roleValue := q.role;
    if roleValue != [] {
      filtered := Filter(filtered, HasRole(roleValue));
    }
  }

  /** `render()`: narrow a copy of the store stage by stage, sort the copy in
      place, and build the count text. */
  method Render(store: seq<Professional>, q: Query) returns (shown: seq<Professional>, count: string)
    ensures shown == Results(store, q)
    ensures count == CountText(|shown|)
  {
    var filtered := Narrow(store, q);
    shown := SortedCopy(filtered, OrderOf(q.order));
    count := CountText(|shown|);
  }

  /** The narrowed list placed in an array and sorted there in place. */
  method SortedCopy(filtered: seq<Professional>, o: Order) returns (shown: seq<Professional>)
    ensures shown == SortBy(filtered, o)
  {
    var buffer := new Professional[|filtered|](i requires 0 <= i < |filtered| => filtered[i]);
    assert buffer[..] == filtered;
    SortInPlace(buffer, o);
    shown := buffer[..];
  }
}
