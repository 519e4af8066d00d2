/**
 * The citizen endpoints: the list with its optional case-insensitive email
 * filter and descending-id order, `count` over the same queryset,
 * registration through the citizen serializer, and deletion. The table is
 * a sequence of rows; `make_password` enters as a function parameter.
 */
module CitizenView {
  import opened Wrappers
  import opened Text
  import opened Queries
  import opened Records
  import CitizenSerializer

  function CitizenId(c: Citizen): int {
    c.id
  }

  /** The `email` parameter's filter, applied only when the parameter is non-empty. */
  function EmailMatches(rows: seq<Citizen>, email: Option<string>): seq<Citizen> {
    if Truthy(email) then Filter(rows, (c: Citizen) => ContainsIgnoringCase(c.email, email.value)) else rows
  }

  /** `get_queryset`: the filter, then `order_by('-id')`. */
  function ListCitizens(rows: seq<Citizen>, email: Option<string>): seq<Citizen> {
    SortDesc(EmailMatches(rows, email), CitizenId)
  }

  /** `count`: the size of the same queryset the list shows. */
  function CountCitizens(rows: seq<Citizen>, email: Option<string>): nat {
    |ListCitizens(rows, email)|
  }

  /** The list holds exactly the citizens whose email contains the parameter
      ignoring case (every citizen, each as often as in the table, when the
      parameter is absent or empty), highest id first, and `count` is the
      number of those citizens. */
  lemma ListCitizensSpec(rows: seq<Citizen>, email: Option<string>)
    ensures forall c :: c in ListCitizens(rows, email) <==>
      c in rows && (!Truthy(email) || ContainsIgnoringCase(c.email, email.value))
    ensures SortedDesc(ListCitizens(rows, email), CitizenId)
    ensures !Truthy(email) ==> multiset(ListCitizens(rows, email)) == multiset(rows)
    ensures CountCitizens(rows, email) == |EmailMatches(rows, email)| <= |rows|
    ensures !Truthy(email) ==> CountCitizens(rows, email) == |rows|
  {
    SortDescSameRows(EmailMatches(rows, email), CitizenId);
  }

  // ---------------------------------------------------------------------
  // Registration

  const Registered: string := "Citizen registered successfully"
  const DeletedMessage: string := "Citizen deleted successfully"
  const FieldRequired: string := "This field is required."
  const FieldBlank: string := "This field may not be blank."
  const FieldTooLong: string := "Ensure this field has no more than 64 characters."
  const PasswordTooShort: string := "Ensure this field has at least 8 characters."
  const MinPasswordLength: nat := 8
  /** `max_length` of the name, email and password columns. */
  const MaxColumnLength: nat := 64

  /** The writable fields of the serializer, all required on registration. */
  const RegistrationFields: set<string> := {"name", "email", "password", "confirm_password"}

  /** The fields backed by a `CharField(max_length=64)` column. */
  const ColumnFields: set<string> := {"name", "email", "password"}

  /** `serializer.data` of a citizen: the password fields are write-only. */
  datatype CitizenData = CitizenData(id: nat, name: string, email: string)

  datatype CitizenResponse =
    | Created(message: string, data: CitizenData)   // 201, success: True
    | Invalid(errors: map<string, string>)          // 400
    | Deleted(message: string)                      // 200, success: True
    | NotFound                                      // 404 from get_object
    | ServerError                                   // 500: the insert violates the unique email column

  function Status(r: CitizenResponse): nat {
    match r
    case Created(_, _) => 201
    case Invalid(_) => 400
    case Deleted(_) => 200
    case NotFound => 404
    case ServerError => 500
  }

  /** Which uniqueness check the email field runs: the serializer's check as
      written (on the value given) or the intended one (on the lowercased
      value that is stored). */
  datatype EmailCheck = AsWritten | Intended

  function CheckEmail(check: EmailCheck, citizens: seq<Citizen>, value: string): Result<string, string> {
    match check
    case AsWritten => CitizenSerializer.ValidateEmailAsWritten(citizens, None, value)
    case Intended => CitizenSerializer.ValidateEmail(citizens, None, value)
  }

  /** The first error of one field: missing, blank, longer than its column,
      a short password, a taken email. */
  function FieldError(check: EmailCheck, citizens: seq<Citizen>, data: map<string, string>, f: string): Option<string> {
    if f !in data then Some(FieldRequired)
    else if data[f] == "" then Some(FieldBlank)
    else if f in ColumnFields && |data[f]| > MaxColumnLength then Some(FieldTooLong)
    else if f == "password" && |data[f]| < MinPasswordLength then Some(PasswordTooShort)
    else if f == "email" && CheckEmail(check, citizens, data[f]).Err? then Some(CitizenSerializer.DuplicateEmail)
    else None
  }

  /** Every field is present and non-blank, no column value is too long, and
      the password has at least 8 characters. */
  predicate WellFormed(data: map<string, string>) {
    RegistrationFields <= data.Keys &&
    (forall f :: f in RegistrationFields ==> data[f] != "") &&
    (forall f :: f in ColumnFields ==> |data[f]| <= MaxColumnLength) &&
    |data["password"]| >= MinPasswordLength
  }

  /** The field-level errors, one message per failing field. */
  function FieldErrorsWith(check: EmailCheck, citizens: seq<Citizen>, data: map<string, string>): (errors: map<string, string>)
    ensures errors.Keys <= RegistrationFields
    ensures errors == map[] <==> WellFormed(data) && CheckEmail(check, citizens, data["email"]).Ok?
  {
    var errors := map f | f in RegistrationFields && FieldError(check, citizens, data, f).Some? ::
      FieldError(check, citizens, data, f).value;
    assert errors == map[] <==> forall f :: f in RegistrationFields ==> FieldError(check, citizens, data, f).None? by {
      if exists f :: f in RegistrationFields && FieldError(check, citizens, data, f).Some? {
        var f :| f in RegistrationFields && FieldError(check, citizens, data, f).Some?;
        assert f in errors;
      }
    }
    assert "name" in RegistrationFields && "email" in RegistrationFields;
    assert "password" in RegistrationFields && "confirm_password" in RegistrationFields;
    errors
  }

  /** No citizen has `email`. */
  predicate EmailFree(citizens: seq<Citizen>, email: string) {
    forall c :: c in citizens ==> c.email != email
  }

  lemma EmailTakenIff(citizens: seq<Citizen>, email: string)
    ensures CitizenSerializer.EmailTaken(citizens, email, None) <==> !EmailFree(citizens, email)
  {
    if !EmailFree(citizens, email) {
      var c :| c in citizens && c.email == email;
      var i :| 0 <= i < |citizens| && citizens[i] == c;
    }
  }

  /** The field errors of the serializer as written. */
  function FieldErrors(citizens: seq<Citizen>, data: map<string, string>): (errors: map<string, string>)
    ensures errors == map[] <==>
      WellFormed(data) && forall c :: c in citizens ==> c.email != data["email"]
  {
    EmailTakenIff(citizens, if "email" in data then data["email"] else "");
    FieldErrorsWith(AsWritten, citizens, data)
  }

  /** The validated data: the serializer's fields only, the email lowercased. */
  function ValidatedData(data: map<string, string>): map<string, string> {
    map f | f in data && f in RegistrationFields :: if f == "email" then Lower(data[f]) else data[f]
  }

  /** `create` under a given email check: validation (field checks, then the
      password confirmation), then the insert of the serializer's row under
      the new primary key, which the unique email column refuses when a
      citizen already has the stored (lowercased) email. */
  function RegisterWith(check: EmailCheck, citizens: seq<Citizen>, data: map<string, string>,
                        hash: CitizenSerializer.Hasher, id: nat): (CitizenResponse, seq<Citizen>)
  {
    var errors := FieldErrorsWith(check, citizens, data);
    if errors != map[] then (Invalid(errors), citizens)
    else
      var v0 := ValidatedData(data);
      assert "name" in v0 && "email" in v0 && "password" in v0;
      match CitizenSerializer.Validate(v0)
      case Err(e) => (Invalid(e), citizens)
      case Ok(v) =>
        CitizenSerializer.ValidateSpec(v0);
        var fields := CitizenSerializer.CreateFields(v, hash);
        if exists c :: c in citizens && c.email == fields["email"] then (ServerError, citizens)
        else
          var row := Citizen(id, fields["name"], fields["email"], fields["password"]);
          (Created(Registered, CitizenData(row.id, row.name, row.email)), citizens + [row])
  }

  /** Registration as written. */
  function Register(citizens: seq<Citizen>, data: map<string, string>, hash: CitizenSerializer.Hasher, id: nat)
    : (CitizenResponse, seq<Citizen>)
  {
    RegisterWith(AsWritten, citizens, data, hash, id)
  }

  /** Registration with the email checked in the form it is stored. */
  function RegisterIntended(citizens: seq<Citizen>, data: map<string, string>, hash: CitizenSerializer.Hasher, id: nat)
    : (CitizenResponse, seq<Citizen>)
  {
    RegisterWith(Intended, citizens, data, hash, id)
  }

  /** No two citizens share an email (the column is unique). */
  predicate UniqueEmails(citizens: seq<Citizen>) {
    forall i, j :: 0 <= i < j < |citizens| ==> citizens[i].email != citizens[j].email
  }

  /** What both versions share: a success inserts exactly the row holding
      the name, the lowercased email and the hashed password and keeps
      emails unique; any other answer leaves the table alone; a success or
      a server error needs well-formed, confirmed data. */
  lemma RegisterWithSpec(check: EmailCheck, citizens: seq<Citizen>, data: map<string, string>,
                         hash: CitizenSerializer.Hasher, id: nat)
    ensures var (resp, rows) := RegisterWith(check, citizens, data, hash, id);
      (resp.Created? || resp.ServerError?) ==>
        WellFormed(data) && data["password"] == data["confirm_password"] &&
        CheckEmail(check, citizens, data["email"]).Ok?
    ensures var (resp, rows) := RegisterWith(check, citizens, data, hash, id);
      (resp.Created? <==>
        WellFormed(data) && data["password"] == data["confirm_password"] &&
        CheckEmail(check, citizens, data["email"]).Ok? && EmailFree(citizens, Lower(data["email"]))) &&
      (resp.ServerError? <==>
        WellFormed(data) && data["password"] == data["confirm_password"] &&
        CheckEmail(check, citizens, data["email"]).Ok? && !EmailFree(citizens, Lower(data["email"])))
    ensures var (resp, rows) := RegisterWith(check, citizens, data, hash, id);
      resp.Created? ==>
        rows == citizens + [Citizen(id, data["name"], Lower(data["email"]), hash(data["password"]))] &&
        resp == Created(Registered, CitizenData(id, data["name"], Lower(data["email"])))
    ensures var (resp, rows) := RegisterWith(check, citizens, data, hash, id);
      !resp.Created? ==> rows == citizens
    ensures var (resp, rows) := RegisterWith(check, citizens, data, hash, id);
      resp.Created? || resp.Invalid? || resp.ServerError?
    ensures var (resp, rows) := RegisterWith(check, citizens, data, hash, id);
      UniqueEmails(citizens) ==> UniqueEmails(rows)
  {
    var errors := FieldErrorsWith(check, citizens, data);
    if errors == map[] {
      var v := ValidatedData(data);
      CitizenSerializer.ValidateSpec(v);
      if CitizenSerializer.Validate(v).Ok? {
        CitizenSerializer.CreateFieldsSpec(v, hash);
      }
    }
  }

  /** Registration as written succeeds exactly when the data is well formed
      and confirmed and no citizen has either the email as given or its
      lowercased form. The check only looks at the email as given, so when a
      citizen has the lowercased form alone the insert fails on the unique
      column: a server error (500), with nothing inserted. A stored email
      given again in any case other than the stored one is such a case. */
  lemma RegisterSpec(citizens: seq<Citizen>, data: map<string, string>, hash: CitizenSerializer.Hasher, id: nat)
    ensures Register(citizens, data, hash, id).0.Created? <==>
      WellFormed(data) && data["password"] == data["confirm_password"] &&
      EmailFree(citizens, data["email"]) && EmailFree(citizens, Lower(data["email"]))
    ensures Register(citizens, data, hash, id).0.ServerError? <==>
      WellFormed(data) && data["password"] == data["confirm_password"] &&
      EmailFree(citizens, data["email"]) && !EmailFree(citizens, Lower(data["email"]))
    ensures Register(citizens, data, hash, id).0.Invalid? <==>
      !WellFormed(data) || data["password"] != data["confirm_password"] || !EmailFree(citizens, data["email"])
    ensures Register(citizens, data, hash, id).0.Created? ==>
      Register(citizens, data, hash, id).1 ==
        citizens + [Citizen(id, data["name"], Lower(data["email"]), hash(data["password"]))] &&
      Register(citizens, data, hash, id).0 ==
        Created(Registered, CitizenData(id, data["name"], Lower(data["email"])))
    ensures !Register(citizens, data, hash, id).0.Created? ==> Register(citizens, data, hash, id).1 == citizens
    ensures UniqueEmails(citizens) ==> UniqueEmails(Register(citizens, data, hash, id).1)
  {
    RegisterWithSpec(AsWritten, citizens, data, hash, id);
    if WellFormed(data) {
      EmailTakenIff(citizens, data["email"]);
    }
  }

  /** With the email checked as stored, registration succeeds exactly when
      the data is well formed and confirmed and no citizen has the
      lowercased email; it never ends in a server error, and a taken email
      is a 400 with the email error. */
  lemma RegisterIntendedSpec(citizens: seq<Citizen>, data: map<string, string>, hash: CitizenSerializer.Hasher, id: nat)
    ensures RegisterIntended(citizens, data, hash, id).0.Created? <==>
      WellFormed(data) && data["password"] == data["confirm_password"] &&
      EmailFree(citizens, Lower(data["email"]))
    ensures !RegisterIntended(citizens, data, hash, id).0.ServerError?
    ensures WellFormed(data) && !EmailFree(citizens, Lower(data["email"])) ==>
      RegisterIntended(citizens, data, hash, id).0.Invalid? &&
      "email" in RegisterIntended(citizens, data, hash, id).0.errors
    ensures RegisterIntended(citizens, data, hash, id).0.Created? ==>
      RegisterIntended(citizens, data, hash, id).1 ==
        citizens + [Citizen(id, data["name"], Lower(data["email"]), hash(data["password"]))]
    ensures !RegisterIntended(citizens, data, hash, id).0.Created? ==>
      RegisterIntended(citizens, data, hash, id).1 == citizens
    ensures UniqueEmails(citizens) ==> UniqueEmails(RegisterIntended(citizens, data, hash, id).1)
  {
    RegisterWithSpec(Intended, citizens, data, hash, id);
    if WellFormed(data) {
      var v := data["email"];
      CitizenSerializer.ValidateEmailSpec(citizens, None, v);
      EmailTakenIff(citizens, Lower(v));
      if !EmailFree(citizens, Lower(v)) {
        assert FieldError(Intended, citizens, data, "email").Some?;
      }
    }
  }

  /** Registering an email some citizen already has, exactly as stored and
      in whatever case it was stored, is a 400 and inserts nothing. */
  lemma DuplicateRegistrationRejected(citizens: seq<Citizen>, data: map<string, string>,
                                      hash: CitizenSerializer.Hasher, id: nat)
    requires "email" in data && exists c :: c in citizens && c.email == data["email"]
    ensures Status(Register(citizens, data, hash, id).0) == 400
    ensures Register(citizens, data, hash, id).1 == citizens
  {
    RegisterSpec(citizens, data, hash, id);
  }

  /** When a citizen has the lowercased form of the email but none has the
      email as given, well-formed confirmed data passes the check as written
      and fails on the insert with a server error, where the intended check
      answers 400. */
  lemma CaseCollision(citizens: seq<Citizen>, data: map<string, string>, hash: CitizenSerializer.Hasher, id: nat)
    requires WellFormed(data) && data["password"] == data["confirm_password"]
    requires EmailFree(citizens, data["email"]) && !EmailFree(citizens, Lower(data["email"]))
    ensures Status(Register(citizens, data, hash, id).0) == 500
    ensures Status(RegisterIntended(citizens, data, hash, id).0) == 400
  {
    RegisterSpec(citizens, data, hash, id);
    RegisterIntendedSpec(citizens, data, hash, id);
  }

  /** With "john@example.com" registered, a well-formed registration of
      "John@Example.com" is a server error as written and a 400 as intended. */
  lemma MixedCaseRegistrationServerError(hash: CitizenSerializer.Hasher)
    ensures var citizens := [Citizen(1, "John Doe", "john@example.com", "hashed")];
      var data := map["name" := "Jane Doe", "email" := "John@Example.com",
                      "password" := "password123", "confirm_password" := "password123"];
      Status(Register(citizens, data, hash, 2).0) == 500 &&
      Status(RegisterIntended(citizens, data, hash, 2).0) == 400
  {
    var citizens := [Citizen(1, "John Doe", "john@example.com", "hashed")];
    var data := map["name" := "Jane Doe", "email" := "John@Example.com",
                    "password" := "password123", "confirm_password" := "password123"];
    assert data.Keys == RegistrationFields;
    assert WellFormed(data);
    CitizenSerializer.MixedCaseDuplicateAccepted();
    assert Lower(data["email"]) == "john@example.com";
    assert !EmailFree(citizens, Lower(data["email"])) by {
      assert citizens[0] in citizens;
    }
    assert EmailFree(citizens, data["email"]) by {
      EmailTakenIff(citizens, data["email"]);
    }
    CaseCollision(citizens, data, hash, 2);
  }

  // ---------------------------------------------------------------------
  // Deletion

  /** `destroy`: `get_object` looks the id up in the queryset of
      `get_queryset`, so the `email` parameter narrows it; 404 when no
      citizen there has the id, otherwise that row is deleted and the answer
      is 200. */
  function Destroy(citizens: seq<Citizen>, email: Option<string>, id: nat): (CitizenResponse, seq<Citizen>) {
    if forall c :: c in EmailMatches(citizens, email) ==> c.id != id then (NotFound, citizens)
    else (Deleted(DeletedMessage), Filter(citizens, (c: Citizen) => c.id != id))
  }

  /** Deletion finds the citizen exactly when one has the id and matches the
      `email` parameter (any citizen with the id when the parameter is
      absent or empty); it then removes exactly that citizen and keeps every
      other row. Otherwise nothing changes. */
  lemma DestroySpec(citizens: seq<Citizen>, email: Option<string>, id: nat)
    ensures Destroy(citizens, email, id).0 == NotFound <==>
      forall c :: c in citizens && (!Truthy(email) || ContainsIgnoringCase(c.email, email.value)) ==> c.id != id
    ensures Destroy(citizens, email, id).0 != NotFound ==>
      Status(Destroy(citizens, email, id).0) == 200 &&
      forall c :: c in Destroy(citizens, email, id).1 <==> c in citizens && c.id != id
    ensures Destroy(citizens, email, id).0 == NotFound ==> Destroy(citizens, email, id).1 == citizens
  {
  }
}
