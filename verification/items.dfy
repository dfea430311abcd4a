/** The item catalog as the item routes and the invoice routes use it: a collection of
    records in insertion order, each with a store-assigned id, a name, a unit price and an
    on-hand quantity. `findOne({ name })` is the first record with that name and
    `findById(id)` the first with that id. */
module Items {
  import opened Outcomes
  import opened Schema

  type ItemId = nat

  datatype CatalogItem = CatalogItem(id: ItemId, name: string, unitPrice: real, quantity: int)

  type Catalog = seq<CatalogItem>

  /** The item search returns at most this many records. */
  const SearchLimit: nat := 10

  /** The position of the first record satisfying `p`, if there is one. */
  function FirstWhere(c: Catalog, p: CatalogItem -> bool): (r: Option<nat>)
    ensures r.Some? ==> r.value < |c| && p(c[r.value])
    ensures r.Some? ==> forall j :: 0 <= j < r.value ==> !p(c[j])
    ensures r.None? ==> forall j :: 0 <= j < |c| ==> !p(c[j])
    decreases |c|
  {
    if |c| == 0 then None
    else if p(c[0]) then Some(0)
    else match FirstWhere(c[1..], p)
      case None => None
      case Some(k) => Some(k + 1)
  }

  /** `Item.findOne({ name })`. */
  function FindByName(c: Catalog, name: string): (r: Option<nat>)
    ensures r.Some? ==> r.value < |c| && c[r.value].name == name
    ensures r.Some? ==> forall j :: 0 <= j < r.value ==> c[j].name != name
    ensures r.None? <==> forall j :: 0 <= j < |c| ==> c[j].name != name
  {
    FirstWhere(c, (it: CatalogItem) => it.name == name)
  }

  /** `Item.findById(id)`. */
  function FindById(c: Catalog, id: ItemId): (r: Option<nat>)
    ensures r.Some? ==> r.value < |c| && c[r.value].id == id
    ensures r.Some? ==> forall j :: 0 <= j < r.value ==> c[j].id != id
    ensures r.None? <==> forall j :: 0 <= j < |c| ==> c[j].id != id
  {
    FirstWhere(c, (it: CatalogItem) => it.id == id)
  }

  /** The catalog's name index is unique; so is the store's id. */
  predicate UniqueNames(c: Catalog) {
    forall i, j :: 0 <= i < j < |c| ==> c[i].name != c[j].name
  }

  predicate UniqueIds(c: Catalog) {
    forall i, j :: 0 <= i < j < |c| ==> c[i].id != c[j].id
  }

  predicate WellFormed(c: Catalog) {
    UniqueNames(c) && UniqueIds(c)
  }

  /** With unique names, the record found by name is the only one carrying that name. */
  lemma FindByNameUnique(c: Catalog, i: nat)
    requires UniqueNames(c) && i < |c|
    ensures FindByName(c, c[i].name) == Some(i)
  {
  }

  /** The item create handler: a name already in the catalog is refused with a 400 and the
      catalog is left alone; otherwise the record is written, where the schema's required
      check refuses an empty name and the store refuses an id already in use. */
  function CreateItem(c: Catalog, id: ItemId, name: string, unitPrice: real, quantity: int)
    : (r: Step<Catalog, CatalogItem>)
    ensures (exists j :: 0 <= j < |c| && c[j].name == name) ==> r == Step(c, Err(AlreadyExists))
    ensures ((forall j :: 0 <= j < |c| ==> c[j].name != name) && name == "") ==>
      r == Step(c, Err(Invalid))
    ensures ((forall j :: 0 <= j < |c| ==> c[j].name != name) && name != ""
             && (exists j :: 0 <= j < |c| && c[j].id == id)) ==> r == Step(c, Err(DuplicateKey))
    ensures r.result.Ok? <==>
      name != "" && forall j :: 0 <= j < |c| ==> c[j].name != name && c[j].id != id
    ensures r.result.Err? ==> r.next == c
    ensures r.result.Ok? ==>
      && |r.next| == |c| + 1 && r.next[..|c|] == c
      && r.next[|c|] == CatalogItem(id, name, unitPrice, quantity)
      && r.result.value == r.next[|c|]
    ensures WellFormed(c) ==> WellFormed(r.next)
  {
    if FindByName(c, name).Some? then Step(c, Err(AlreadyExists))
    else if !Present(name) then Step(c, Err(Invalid))
    else if FindById(c, id).Some? then Step(c, Err(DuplicateKey))
    else
      var item := CatalogItem(id, name, unitPrice, quantity);
      Step(c + [item], Ok(item))
  }

  /** The item patch handler: an unknown id is a 404 and changes nothing; otherwise the
      record's quantity is overwritten and everything else stays as it was. */
  function PatchQuantity(c: Catalog, id: ItemId, quantity: int): (r: Step<Catalog, CatalogItem>)
    ensures (forall j :: 0 <= j < |c| ==> c[j].id != id) ==> r == Step(c, Err(NotFound))
    ensures r.result.Ok? <==> exists j :: 0 <= j < |c| && c[j].id == id
    ensures |r.next| == |c|
    ensures r.result.Ok? ==>
      exists i :: 0 <= i < |c| && c[i].id == id
        && r.next[i] == c[i].(quantity := quantity) && r.result.value == r.next[i]
        && forall j :: 0 <= j < |c| && j != i ==> r.next[j] == c[j]
    ensures forall j :: 0 <= j < |c| ==> r.next[j].id == c[j].id && r.next[j].name == c[j].name
    ensures WellFormed(c) ==> WellFormed(r.next)
  {
    match FindById(c, id)
    case None => Step(c, Err(NotFound))
    case Some(i) =>
      var item := c[i].(quantity := quantity);
      Step(c[i := item], Ok(item))
  }

  /** Setting the same quantity twice is the same as setting it once. */
  lemma PatchIdempotent(c: Catalog, id: ItemId, quantity: int)
    ensures PatchQuantity(PatchQuantity(c, id, quantity).next, id, quantity)
            == PatchQuantity(c, id, quantity)
  {
    var once := PatchQuantity(c, id, quantity);
    if once.result.Ok? {
      var i := FindById(c, id).value;
      assert FindById(once.next, id) == Some(i) by {
        assert forall j :: 0 <= j < |c| ==> once.next[j].id == c[j].id;
      }
      assert once.next[i := once.next[i].(quantity := quantity)] == once.next;
    }
  }

  /** The records of `c`, in order, whose names `matches` accepts. */
  function Filter(c: Catalog, matches: string -> bool): (r: seq<CatalogItem>)
    ensures |r| <= |c|
    ensures multiset(r) <= multiset(c)
    ensures forall k :: 0 <= k < |r| ==> r[k] in c && matches(r[k].name)
    ensures forall j :: 0 <= j < |c| && matches(c[j].name) ==> c[j] in r
    decreases |c|
  {
    if |c| == 0 then []
    else
      assert c == [c[0]] + c[1..];
      if matches(c[0].name) then [c[0]] + Filter(c[1..], matches)
      else
        assert forall j :: 1 <= j < |c| ==> c[j] == c[1..][j - 1];
        Filter(c[1..], matches)
  }

  /** The item search: the first ten records whose names match the query. Whether a name
      matches (a case-insensitive regular expression) is a parameter. */
  function Search(c: Catalog, matches: string -> bool): (r: seq<CatalogItem>)
    ensures |r| <= SearchLimit
    ensures multiset(r) <= multiset(c)
    ensures forall k :: 0 <= k < |r| ==> r[k] in c && matches(r[k].name)
    ensures |r| < SearchLimit ==> forall j :: 0 <= j < |c| && matches(c[j].name) ==> c[j] in r
    ensures var all := Filter(c, matches);
      |r| == (if |all| < SearchLimit then |all| else SearchLimit) && r == all[..|r|]
  {
    var all := Filter(c, matches);
    if |all| <= SearchLimit then all
    else
      assert all == all[..SearchLimit] + all[SearchLimit..];
      all[..SearchLimit]
  }

  /** With unique ids, the search never returns the same item twice. */
  lemma SearchDistinct(c: Catalog, matches: string -> bool)
    requires UniqueIds(c)
    ensures var r := Search(c, matches);
      forall a, b :: 0 <= a < b < |r| ==> r[a].id != r[b].id
  {
    var r := Search(c, matches);
    forall a, b | 0 <= a < b < |r|
      ensures r[a].id != r[b].id
    {
      if r[a].id == r[b].id {
        var i :| 0 <= i < |c| && c[i] == r[a];
        var j :| 0 <= j < |c| && c[j] == r[b];
        assert i == j;
        RepeatCountsTwice(r, a, b);
        AtMostOneCopy(c, r[a]);
        assert false;
      }
    }
  }

  /** With unique ids, a catalog holds each record at most once. */
  lemma {:induction false} AtMostOneCopy(c: Catalog, x: CatalogItem)
    requires UniqueIds(c)
    ensures multiset(c)[x] <= 1
    decreases |c|
  {
    if |c| > 0 {
      assert c == [c[0]] + c[1..];
      AtMostOneCopy(c[1..], x);
      if c[0] == x {
        assert x !in c[1..];
      }
    }
  }

  lemma RepeatCountsTwice(r: seq<CatalogItem>, a: nat, b: nat)
    requires a < b < |r| && r[a] == r[b]
    ensures multiset(r)[r[a]] >= 2
  {
    assert r == r[..b] + r[b..];
    assert r[a] in r[..b];
    assert r[b] in r[b..];
  }
}
