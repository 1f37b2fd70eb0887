/** The record store: the fixed list of professionals, lookup by id for the
    detail overlay, and the distinct roles offered by the role filter. */
module Directory {
  import opened Sequences

  datatype Option<T> = None | Some(value: T)

  /** One professional. `rating` is kept in tenths of a star (4.9 is 49), so
      the comparisons the sort makes on it are exact. */
  datatype Professional = Professional(
    id: int,
    name: string,
    role: string,
    city: string,
    rating: int,
    reviews: int,
    bio: string,
    favorite: bool)

  /** The store the page starts with; nothing creates or removes a record later. */
  const Professionals: seq<Professional> := [
    Professional(1, "Mariana Silva", "Fullstack", "São Paulo", 49, 57,
      "Especialista em desenvolvimento web fullstack com foco em React e Node.js.", false),
    Professional(2, "Lucas Pereira", "DevOps", "Belo Horizonte", 47, 34,
      "Engenheiro DevOps com experiência em AWS e automação de infraestrutura.", false),
    Professional(3, "Ana Costa", "UI/UX Designer", "Rio de Janeiro", 48, 45,
      "Designer com foco em experiência do usuário e interfaces intuitivas.", false),
    Professional(4, "Pedro Gomes", "Data Scientist", "Curitiba", 46, 28,
      "Cientista de dados com experiência em Machine Learning e análise preditiva.", false)
  ]

  /** No two records share an id. */
  ghost predicate UniqueIds(s: seq<Professional>) {
    forall i, j :: 0 <= i < j < |s| ==> s[i].id != s[j].id
  }

  /** Ids rise from each record to the next: the store's natural order. */
  ghost predicate AscendingIds(s: seq<Professional>) {
    forall i, j :: 0 <= i < j < |s| ==> s[i].id < s[j].id
  }

  lemma StoreIsAscending()
    ensures AscendingIds(Professionals) && UniqueIds(Professionals)
  {
    var s := Professionals;
    assert |s| == 4 && s[0].id == 1 && s[1].id == 2 && s[2].id == 3 && s[3].id == 4;
  }

  /** No record before position `k` has id `id`. */
  ghost predicate NoIdBefore(s: seq<Professional>, id: int, k: int) {
    forall j :: 0 <= j < k && j < |s| ==> s[j].id != id
  }

  /** Array lookup by id: the first record with that id, if any. */
  function FindById(s: seq<Professional>, id: int): (r: Option<Professional>)
    ensures r.None? <==> forall i :: 0 <= i < |s| ==> s[i].id != id
    ensures r.Some? ==> r.value.id == id && r.value in s
    ensures r.Some? ==> exists k :: 0 <= k < |s| && s[k] == r.value && NoIdBefore(s, id, k)
  {
    if s == [] then None
    else if s[0].id == id then Some(s[0])
    else
      var r := FindById(s[1..], id);
      assert r.Some? ==> exists k :: 0 <= k < |s| && s[k] == r.value && NoIdBefore(s, id, k) by {
        if r.Some? {
          var k :| 0 <= k < |s| - 1 && s[1..][k] == r.value && NoIdBefore(s[1..], id, k);
          assert s[k + 1] == r.value && NoIdBefore(s, id, k + 1);
        }
      }
      r
  }

  /** In a store with unique ids, looking up a record's id finds that record. */
  lemma {:induction false} FindOwnId(s: seq<Professional>, i: nat)
    requires UniqueIds(s) && i < |s|
    ensures FindById(s, s[i].id) == Some(s[i])
  {
    if i > 0 {
      assert UniqueIds(s[1..]) by {
        forall a, b | 0 <= a < b < |s| - 1 ensures s[1..][a].id != s[1..][b].id {
          assert s[1..][a] == s[a + 1] && s[1..][b] == s[b + 1];
        }
      }
      assert s[1..][i - 1] == s[i];
      FindOwnId(s[1..], i - 1);
    }
  }

  /** The role of each record, in store order. */
  function RoleColumn(s: seq<Professional>): (r: seq<string>)
    ensures |r| == |s|
    ensures forall i :: 0 <= i < |s| ==> r[i] == s[i].role
  {
    seq(|s|, i requires 0 <= i < |s| => s[i].role)
  }

  /** The options of the role filter: each role once, in order of first appearance. */
  function DistinctRoles(s: seq<Professional>): (roles: seq<string>)
    ensures DistinctInOrder(RoleColumn(s), roles)
  {
    Dedup(RoleColumn(s))
  }

  /** The role options: no role twice, every record's role present, nothing
      else present, and roles listed in the order they first occur in the store. */
  lemma DistinctRolesSpec(s: seq<Professional>)
    ensures NoDuplicates(DistinctRoles(s))
    ensures forall i :: 0 <= i < |s| ==> s[i].role in DistinctRoles(s)
    ensures forall v :: v in DistinctRoles(s) ==> exists i :: 0 <= i < |s| && s[i].role == v
    ensures forall a, b :: 0 <= a < b < |DistinctRoles(s)| ==>
      FirstIndex(RoleColumn(s), DistinctRoles(s)[a]) < FirstIndex(RoleColumn(s), DistinctRoles(s)[b])
  {
    var col := RoleColumn(s);
    forall v | v in DistinctRoles(s) ensures exists i :: 0 <= i < |s| && s[i].role == v {
      var i := FirstIndex(col, v);
      assert s[i].role == v;
    }
    forall i | 0 <= i < |s| ensures s[i].role in DistinctRoles(s) {
      assert col[i] == s[i].role;
    }
  }

  /** The detail overlay: its heading, its text, and whether it is shown. */
  class DetailView {
    var title: string
    var description: string
    var isOpen: bool

    constructor ()
      ensures title == "" && description == "" && !isOpen
    {
      title, description, isOpen := "", "", false;
    }

    /** Opening the detail overlay: show the record with that id; an unknown id changes nothing. */
    method Open(store: seq<Professional>, id: int)
      modifies this
      ensures FindById(store, id).None? ==>
        title == old(title) && description == old(description) && isOpen == old(isOpen)
      ensures FindById(store, id).Some? ==>
        title == FindById(store, id).value.name &&
        description == FindById(store, id).value.bio && isOpen
    {
      var found := FindById(store, id);
      if found.None? {
        return;
      }
      var p := found.value;
      title := p.name;
      description := p.bio;
      isOpen := true;
    }
  }
}
