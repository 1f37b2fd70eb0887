/** Queries on the page's own store and what `render()` shows for them. */
module Scenarios {
  import opened Text
  import opened Sequences
  import opened Directory
  import opened Sorting
  import opened Pipeline

  /** One step of a filter over a suffix: its head is kept or dropped, the rest filtered. */
  lemma FilterFrom(s: seq<Professional>, keep: Professional -> bool, i: nat)
    requires i < |s|
    ensures Filter(s[i..], keep) == Kept(s[i], keep) + Filter(s[i + 1..], keep)
  {
    assert s[i..][0] == s[i] && s[i..][1..] == s[i + 1..];
  }

  /** A filter over a four-record list, record by record. */
  lemma FilterFour(s: seq<Professional>, keep: Professional -> bool)
    requires |s| == 4
    ensures Filter(s, keep) == Kept(s[0], keep) + (Kept(s[1], keep) + (Kept(s[2], keep) + Kept(s[3], keep)))
  {
    var k0, k1, k2, k3 := Kept(s[0], keep), Kept(s[1], keep), Kept(s[2], keep), Kept(s[3], keep);
    calc {
      Filter(s, keep);
      { assert s[0..] == s; }
      Filter(s[0..], keep);
      { FilterFrom(s, keep, 0); }
      k0 + Filter(s[1..], keep);
      { FilterFrom(s, keep, 1); }
      k0 + (k1 + Filter(s[2..], keep));
      { FilterFrom(s, keep, 2); }
      k0 + (k1 + (k2 + Filter(s[3..], keep)));
      { FilterFrom(s, keep, 3); assert s[4..] == []; assert k3 + [] == k3; }
      k0 + (k1 + (k2 + k3));
    }
  }

  /** A filter that keeps exactly one of four records yields that record. */
  lemma FilterKeepsOne(s: seq<Professional>, keep: Professional -> bool, k: nat)
    requires |s| == 4 && k < 4
    requires keep(s[0]) == (k == 0) && keep(s[1]) == (k == 1)
    requires keep(s[2]) == (k == 2) && keep(s[3]) == (k == 3)
    ensures Filter(s, keep) == [s[k]]
  {
    FilterFour(s, keep);
    if k == 0 {} else if k == 1 {} else if k == 2 {} else {}
  }

  /** A single record is already sorted, whatever the order. */
  lemma SortSingle(x: Professional, o: Order)
    ensures SortBy([x], o) == [x]
  {
    assert [x][..0] == [];
  }

  /** When exactly one record of a four-record store passes a query, the
      page shows that record alone. */
  lemma OnlyOneAdmitted(s: seq<Professional>, q: Query, k: nat)
    requires |s| == 4 && k < 4
    requires Admits(q, s[0]) == (k == 0) && Admits(q, s[1]) == (k == 1)
    requires Admits(q, s[2]) == (k == 2) && Admits(q, s[3]) == (k == 3)
    ensures Results(s, q) == [s[k]]
  {
    FilterKeepsOne(s, AdmittedBy(q), k);
    NarrowedIsFilter(s, q);
    SortSingle(s[k], OrderOf(q.order));
  }

  /** When no record of a four-record store passes a query, the page shows nothing. */
  lemma NoneAdmitted(s: seq<Professional>, q: Query)
    requires |s| == 4
    requires !Admits(q, s[0]) && !Admits(q, s[1]) && !Admits(q, s[2]) && !Admits(q, s[3])
    ensures Results(s, q) == []
  {
    FilterFour(s, AdmittedBy(q));
    NarrowedIsFilter(s, q);
  }

  /** Under a query that only picks a role and an order, a record passes when
      it has that role, or no role is picked. */
  lemma AdmitsRoleOnly(v: string, order: string, p: Professional)
    ensures Admits(DefaultQuery.(role := v, order := order), p) <==> v == [] || p.role == v
  {
    assert NormalizeTerm("") == [];
  }

  /** Filtering by the DevOps role (and ordering by rating) shows Lucas alone. */
  lemma DevOpsByRating()
    ensures Results(Professionals, DefaultQuery.(role := "DevOps", order := "rating")) == [Professionals[1]]
  {
    var q := DefaultQuery.(role := "DevOps", order := "rating");
    var s := Professionals;
    AdmitsRoleOnly("DevOps", "rating", s[0]);
    AdmitsRoleOnly("DevOps", "rating", s[1]);
    AdmitsRoleOnly("DevOps", "rating", s[2]);
    AdmitsRoleOnly("DevOps", "rating", s[3]);
    OnlyOneAdmitted(s, q, 1);
  }

  /** A term holding a character the text lacks does not occur in it. */
  lemma MissingCharNotContained(hay: string, needle: string, k: nat)
    requires k < |needle| && needle[k] !in hay
    ensures !Contains(hay, needle)
  {
  }

  /** The search field's "São Paulo" as the search stage uses it. */
  lemma SaoPauloTerm()
    ensures NormalizeTerm("São Paulo") == "são paulo"
  {
    TrimUnchanged("São Paulo");
  }

  /** Plain ASCII text stays ASCII when lower-cased, so it holds no `'ã'`. */
  lemma AsciiLacksTilde(x: string)
    requires forall i :: 0 <= i < |x| ==> x[i] as int < 0x80
    ensures 'ã' !in Lower(x)
  {
    forall i | 0 <= i < |x| ensures Lower(x)[i] != 'ã' {
      assert Lower(x)[i] == LowerChar(x[i]);
    }
  }

  /** A record whose searched fields are ASCII does not match "são paulo". */
  lemma NotInSaoPaulo(p: Professional)
    requires forall i :: 0 <= i < |p.name| ==> p.name[i] as int < 0x80
    requires forall i :: 0 <= i < |p.role| ==> p.role[i] as int < 0x80
    requires forall i :: 0 <= i < |p.city| ==> p.city[i] as int < 0x80
    ensures !Matches(p, "são paulo")
  {
    var term := "são paulo";
    AsciiLacksTilde(p.name);
    AsciiLacksTilde(p.role);
    AsciiLacksTilde(p.city);
    MissingCharNotContained(Lower(p.name), term, 1);
    MissingCharNotContained(Lower(p.role), term, 1);
    MissingCharNotContained(Lower(p.city), term, 1);
  }

  /** Mariana's city, lower-cased, is the term itself. */
  lemma MarianaInSaoPaulo()
    ensures Matches(Professionals[0], "são paulo")
  {
    var city := Lower(Professionals[0].city);
    assert city == "são paulo";
    assert OccursAt(city, "são paulo", 0);
  }

  /** Under a query that only searches, a record passes when it matches the
      normalised search term, or the term is blank. */
  lemma AdmitsSearchOnly(v: string, p: Professional)
    ensures Admits(DefaultQuery.(search := v), p) <==>
      NormalizeTerm(v) == [] || Matches(p, NormalizeTerm(v))
  {
    assert NormalizeTerm("") == [];
  }

  /** Mariana passes the "São Paulo" search. */
  lemma SaoPauloAdmitsMariana()
    ensures Admits(DefaultQuery.(search := "São Paulo"), Professionals[0])
  {
    SaoPauloTerm();
    MarianaInSaoPaulo();
    AdmitsSearchOnly("São Paulo", Professionals[0]);
  }

  /** A record whose searched fields are ASCII fails the "São Paulo" search. */
  lemma SaoPauloRejectsAscii(p: Professional)
    requires forall i :: 0 <= i < |p.name| ==> p.name[i] as int < 0x80
    requires forall i :: 0 <= i < |p.role| ==> p.role[i] as int < 0x80
    requires forall i :: 0 <= i < |p.city| ==> p.city[i] as int < 0x80
    ensures !Admits(DefaultQuery.(search := "São Paulo"), p)
  {
    SaoPauloTerm();
    NotInSaoPaulo(p);
    AdmitsSearchOnly("São Paulo", p);
  }

  /** Lucas, Ana and Pedro fail the "São Paulo" search. */
  lemma SaoPauloRejectsLucas()
    ensures !Admits(DefaultQuery.(search := "São Paulo"), Professionals[1])
  {
    SaoPauloRejectsAscii(Professionals[1]);
  }

  lemma SaoPauloRejectsAna()
    ensures !Admits(DefaultQuery.(search := "São Paulo"), Professionals[2])
  {
    SaoPauloRejectsAscii(Professionals[2]);
  }

  lemma SaoPauloRejectsPedro()
    ensures !Admits(DefaultQuery.(search := "São Paulo"), Professionals[3])
  {
    SaoPauloRejectsAscii(Professionals[3]);
  }

  /** Searching for "São Paulo" finds Mariana, whose city it is. */
  lemma SearchSaoPaulo()
    ensures Results(Professionals, DefaultQuery.(search := "São Paulo")) == [Professionals[0]]
  {
    SaoPauloAdmitsMariana();
    SaoPauloRejectsLucas();
    SaoPauloRejectsAna();
    SaoPauloRejectsPedro();
    OnlyOneAdmitted(Professionals, DefaultQuery.(search := "São Paulo"), 0);
  }

  /** Under a query that only asks for favourites, a record passes exactly
      when it is a favourite. */
  lemma AdmitsFavoritesOnly(p: Professional)
    ensures Admits(DefaultQuery.(favoritesOnly := true), p) <==> p.favorite
  {
    assert NormalizeTerm("") == [];
  }

  /** No record starts as a favourite, so the favourites filter empties the list. */
  lemma FavoritesOnDefaults()
    ensures Results(Professionals, DefaultQuery.(favoritesOnly := true)) == []
  {
    var q := DefaultQuery.(favoritesOnly := true);
    var s := Professionals;
    AdmitsFavoritesOnly(s[0]);
    AdmitsFavoritesOnly(s[1]);
    AdmitsFavoritesOnly(s[2]);
    AdmitsFavoritesOnly(s[3]);
    NoneAdmitted(s, q);
  }

  /** The count line for an empty result. */
  lemma NoneFound()
    ensures CountText(0) == "0 profissionals encontrados"
  {
    assert NatToString(0) == "0";
  }

  /** The store in descending order of reviews: 57, 45, 34, 28. */
  lemma StoreByReviews()
    ensures SortBy(Professionals, ByReviews) ==
      [Professionals[0], Professionals[2], Professionals[1], Professionals[3]]
  {
    var s := Professionals;
    var p0, p1, p2, p3 := s[0], s[1], s[2], s[3];
    assert s[..1] == [p0] && s[..2] == [p0, p1] && s[..3] == [p0, p1, p2];
    assert s[..3][..2] == s[..2] && s[..2][..1] == s[..1] && s[..|s| - 1] == s[..3];
    assert SortBy(s[..1], ByReviews) == [p0];
    assert SortBy(s[..2], ByReviews) == Insert([p0], p1, ByReviews) == [p0, p1];
    assert SortBy(s[..3], ByReviews) == Insert([p0, p1], p2, ByReviews) == [p0, p2, p1];
    assert SortBy(s, ByReviews) == Insert([p0, p2, p1], p3, ByReviews);
    InsertAt([p0, p2, p1], p3, ByReviews, 3);
    assert [p0, p2, p1][..3] == [p0, p2, p1] && [p0, p2, p1][3..] == [];
  }

  /** Choosing the reviews order with every other control at its default
      lists the whole store by reviews. */
  lemma ByReviewsOnDefaults()
    ensures Results(Professionals, DefaultQuery.(order := "reviews")) ==
      [Professionals[0], Professionals[2], Professionals[1], Professionals[3]]
  {
    DefaultsNarrowNothing(Professionals, "reviews");
    StoreByReviews();
  }

  /** An upper-case search finds what the lower-case one does. */
  lemma SearchUpperCase()
    ensures Results(Professionals, DefaultQuery.(search := "MARIANA")) ==
      Results(Professionals, DefaultQuery.(search := "mariana"))
  {
    assert Lower("MARIANA") == Lower("mariana");
    SearchIgnoresCase(Professionals, DefaultQuery, "MARIANA", "mariana");
  }
}
