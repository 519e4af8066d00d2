/**
 * The authority endpoints: the list with its optional `search` parameter
 * matched against the name or the email ignoring case, descending-id order,
 * `count` over the same queryset, creation and deletion. The authority
 * serializer's validation enters as a function parameter.
 */
module AuthorityView {
  import opened Wrappers
  import opened Text
  import opened Queries
  import opened Records

  function AuthorityId(a: Authority): int {
    a.id
  }

  predicate NameMatches(a: Authority, search: string) {
    ContainsIgnoringCase(a.authorityName, search)
  }

  predicate EmailMatches(a: Authority, search: string) {
    ContainsIgnoringCase(a.email, search)
  }

  /** The `search` filter: the union of the name matches and the email
      matches, as one condition; the whole table when the parameter is
      absent or empty. */
  function Search(rows: seq<Authority>, search: Option<string>): seq<Authority> {
    if Truthy(search) then Filter(rows, (a: Authority) => NameMatches(a, search.value) || EmailMatches(a, search.value))
    else rows
  }

  /** `get_queryset`: the search, then `order_by('-id')`. */
  function ListAuthorities(rows: seq<Authority>, search: Option<string>): seq<Authority> {
    SortDesc(Search(rows, search), AuthorityId)
  }

  /** `count`: the size of the same queryset the list shows. */
  function CountAuthorities(rows: seq<Authority>, search: Option<string>): nat {
    |ListAuthorities(rows, search)|
  }

  /** A search returns exactly the rows of the union of the two single-field
      filters, each row of the table at most once; without a search, every
      row. The list is highest id first and `count` is its size. */
  lemma ListAuthoritiesSpec(rows: seq<Authority>, search: Option<string>)
    ensures Truthy(search) ==> forall a :: a in ListAuthorities(rows, search) <==>
      a in Filter(rows, (x: Authority) => NameMatches(x, search.value)) ||
      a in Filter(rows, (x: Authority) => EmailMatches(x, search.value))
    ensures forall a :: a in ListAuthorities(rows, search) ==> a in rows
    ensures multiset(ListAuthorities(rows, search)) <= multiset(rows)
    ensures !Truthy(search) ==> multiset(ListAuthorities(rows, search)) == multiset(rows)
    ensures SortedDesc(ListAuthorities(rows, search), AuthorityId)
    ensures CountAuthorities(rows, search) == |Search(rows, search)| <= |rows|
  {
    SortDescSameRows(Search(rows, search), AuthorityId);
    if Truthy(search) {
      FilterSubMultiset(rows, (a: Authority) => NameMatches(a, search.value) || EmailMatches(a, search.value));
    }
  }

  /** A filter keeps each row at most as often as the table has it. */
  lemma {:induction false} FilterSubMultiset(rows: seq<Authority>, keep: Authority -> bool)
    ensures multiset(Filter(rows, keep)) <= multiset(rows)
  {
    if rows != [] {
      FilterSubMultiset(rows[1..], keep);
      assert rows == [rows[0]] + rows[1..];
    }
  }

  // ---------------------------------------------------------------------
  // Creation and deletion

  const Registered: string := "Authority registered successfully"
  const DeletedMessage: string := "Authority deleted successfully"

  /** The authority serializer (not part of this model): the row to insert
      under a primary key, or the field errors. */
  type AuthorityValidator = (map<string, string>, nat) -> Result<Authority, map<string, string>>

  datatype AuthorityResponse =
    | Created(message: string, data: Authority)     // 201, success: True
    | Invalid(errors: map<string, string>)          // 400
    | Deleted(message: string)                      // 200, success: True
    | NotFound                                      // 404 from get_object

  function Status(r: AuthorityResponse): nat {
    match r
    case Created(_, _) => 201
    case Invalid(_) => 400
    case Deleted(_) => 200
    case NotFound => 404
  }

  /** `create`: a valid request inserts the serializer's row and answers 201. */
  function Create(rows: seq<Authority>, data: map<string, string>, validate: AuthorityValidator, id: nat)
    : (AuthorityResponse, seq<Authority>)
  {
    match validate(data, id)
    case Ok(a) => (Created(Registered, a), rows + [a])
    case Err(e) => (Invalid(e), rows)
  }

  /** `destroy`: `get_object` looks the id up in the queryset of
      `get_queryset`, so the `search` parameter narrows it; 404 when no
      authority there has the id, otherwise its row is deleted and the
      answer is 200. */
  function Destroy(rows: seq<Authority>, search: Option<string>, id: nat): (AuthorityResponse, seq<Authority>) {
    if forall a :: a in Search(rows, search) ==> a.id != id then (NotFound, rows)
    else (Deleted(DeletedMessage), Filter(rows, Other(id)))
  }

  /** The rows a deletion of `id` keeps. */
  function Other(id: nat): Authority -> bool {
    (a: Authority) => a.id != id
  }

  /** Creation and deletion undo each other: deleting an authority just
      created under an id no other row has answers 200 and gives back the
      table exactly as it was. */
  lemma CreateThenDestroy(rows: seq<Authority>, data: map<string, string>, validate: AuthorityValidator, id: nat)
    requires validate(data, id).Ok?
    requires forall a :: a in rows ==> a.id != validate(data, id).value.id
    ensures Destroy(Create(rows, data, validate, id).1, None, validate(data, id).value.id) == (Deleted(DeletedMessage), rows)
  {
    var a := validate(data, id).value;
    var rows' := rows + [a];
    assert Create(rows, data, validate, id).1 == rows';
    assert a in rows';
    assert !Other(a.id)(a);
    assert forall x :: x in rows ==> Other(a.id)(x);
    FilterSnoc(rows, a, Other(a.id));
    FilterAll(rows, Other(a.id));
    assert Filter(rows', Other(a.id)) == rows;
    assert !(forall x :: x in rows' ==> x.id != a.id);
  }

  /** A created authority is listed, and the unfiltered `count` grows by one. */
  lemma CreateIsListed(rows: seq<Authority>, data: map<string, string>, validate: AuthorityValidator, id: nat)
    requires validate(data, id).Ok?
    ensures Status(Create(rows, data, validate, id).0) == 201
    ensures validate(data, id).value in ListAuthorities(Create(rows, data, validate, id).1, None)
    ensures CountAuthorities(Create(rows, data, validate, id).1, None) == CountAuthorities(rows, None) + 1
  {
    var rows' := Create(rows, data, validate, id).1;
    assert rows' == rows + [validate(data, id).value];
    SortDescSameRows(rows, AuthorityId);
    SortDescSameRows(rows', AuthorityId);
  }

  /** Deletion finds the authority exactly when one has the id and matches
      the `search` parameter by name or email (any authority with the id
      when the parameter is absent or empty); it then removes exactly that
      authority and keeps every other row. Otherwise nothing changes. */
  lemma DestroySpec(rows: seq<Authority>, search: Option<string>, id: nat)
    ensures Destroy(rows, search, id).0 == NotFound <==>
      forall a :: a in rows && (!Truthy(search) || NameMatches(a, search.value) || EmailMatches(a, search.value)) ==> a.id != id
    ensures Destroy(rows, search, id).0 != NotFound ==>
      Status(Destroy(rows, search, id).0) == 200 &&
      forall a :: a in Destroy(rows, search, id).1 <==> a in rows && a.id != id
    ensures Destroy(rows, search, id).0 == NotFound ==> Destroy(rows, search, id).1 == rows
  {
  }
}
