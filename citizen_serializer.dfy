/**
 * Registration and profile updates of citizens: the email check, the
 * password confirmation, and how `create` and `update` turn validated data
 * into the stored row. Validated data is a dictionary from field names to
 * values; `make_password` enters as a function parameter.
 */
module CitizenSerializer {
  import opened Wrappers
  import opened Text
  import opened Records

  const DuplicateEmail: string := "A citizen with this email already exists."
  const PasswordsDiffer: string := "Passwords do not match."

  /** `make_password`. */
  type Hasher = string -> string

  /** Some citizen other than the one being updated (if any) has exactly `email`. */
  predicate EmailTaken(citizens: seq<Citizen>, email: string, instance: Option<nat>) {
    exists i :: 0 <= i < |citizens| && citizens[i].email == email &&
      (instance.None? || citizens[i].id != instance.value)
  }

  /** `validate_email` as written: uniqueness is checked for the value as
      given, but the lowercased value is what gets stored. `instance` is the
      primary key of the citizen being updated, `None` on registration. */
  function ValidateEmailAsWritten(citizens: seq<Citizen>, instance: Option<nat>, value: string): Result<string, string> {
    if EmailTaken(citizens, value, instance) then Err(DuplicateEmail) else Ok(Lower(value))
  }

  /** A registration in mixed case slips past the check although the address
      it stores is taken: with "john@example.com" registered, registering
      "John@Example.com" is accepted as "john@example.com", and the insert
      then violates the unique constraint (a server error instead of a 400). */
  lemma MixedCaseDuplicateAccepted()
    ensures var citizens := [Citizen(1, "John Doe", "john@example.com", "hashed")];
      ValidateEmailAsWritten(citizens, None, "John@Example.com") == Ok("john@example.com") &&
      EmailTaken(citizens, "john@example.com", None)
  {
    var citizens := [Citizen(1, "John Doe", "john@example.com", "hashed")];
    assert Lower("John@Example.com") == "john@example.com";
    assert citizens[0].email == "john@example.com";
    assert "John@Example.com" != "john@example.com" by {
      assert "John@Example.com"[0] != "john@example.com"[0];
    }
  }

  /** `validate_email` with the uniqueness check made on the value that is
      stored, the lowercased one. */
  function ValidateEmail(citizens: seq<Citizen>, instance: Option<nat>, value: string): Result<string, string> {
    if EmailTaken(citizens, Lower(value), instance) then Err(DuplicateEmail) else Ok(Lower(value))
  }

  /** The accepted email is the lowercased input and belongs to no other
      citizen, so storing it keeps emails unique; a rejection means another
      citizen has it. */
  lemma ValidateEmailSpec(citizens: seq<Citizen>, instance: Option<nat>, value: string)
    ensures ValidateEmail(citizens, instance, value).Ok? <==> !EmailTaken(citizens, Lower(value), instance)
    ensures ValidateEmail(citizens, instance, value).Ok? ==>
      var v := ValidateEmail(citizens, instance, value).value;
      v == Lower(value) && Lower(v) == v &&
      forall c :: c in citizens && c.email == v ==> instance.Some? && c.id == instance.value
    ensures ValidateEmail(citizens, instance, value).Err? ==> ValidateEmail(citizens, instance, value).error == DuplicateEmail
  {
    LowerIdempotent(value);
  }

  /** Keeping one's own email on update is allowed when no one else has it. */
  lemma KeepOwnEmail(citizens: seq<Citizen>, me: Citizen)
    requires me in citizens
    requires forall c :: c in citizens && c.email == me.email ==> c.id == me.id
    ensures ValidateEmailAsWritten(citizens, Some(me.id), me.email) == Ok(Lower(me.email))
  {
  }

  /** The two versions differ only on input with upper-case letters. */
  lemma AsWrittenAgreesOnLowerCase(citizens: seq<Citizen>, instance: Option<nat>, value: string)
    requires Lower(value) == value
    ensures ValidateEmailAsWritten(citizens, instance, value) == ValidateEmail(citizens, instance, value)
  {
  }

  /** `validate`: when both passwords are present they must match; the error
      is reported under `confirm_password`. Data passes through unchanged. */
  function Validate(data: map<string, string>): Result<map<string, string>, map<string, string>> {
    if "password" in data && "confirm_password" in data && data["password"] != data["confirm_password"] then
      Err(map["confirm_password" := PasswordsDiffer])
    else Ok(data)
  }

  lemma ValidateSpec(data: map<string, string>)
    ensures Validate(data).Err? <==>
      "password" in data && "confirm_password" in data && data["password"] != data["confirm_password"]
    ensures Validate(data).Ok? ==> Validate(data).value == data
    ensures Validate(data).Err? ==> Validate(data).error.Keys == {"confirm_password"}
  {
  }

  /** The fields of the row `create` inserts: `confirm_password` removed and
      the password replaced by its hash. */
  function CreateFields(validated: map<string, string>, hash: Hasher): (row: map<string, string>)
    requires "password" in validated
  {
    (validated - {"confirm_password"})["password" := hash(validated["password"])]
  }

  lemma CreateFieldsSpec(validated: map<string, string>, hash: Hasher)
    requires "password" in validated
    ensures "confirm_password" !in CreateFields(validated, hash)
    ensures CreateFields(validated, hash)["password"] == hash(validated["password"])
    ensures CreateFields(validated, hash).Keys == validated.Keys - {"confirm_password"}
    ensures forall k :: k in validated && k != "password" && k != "confirm_password" ==>
      CreateFields(validated, hash)[k] == validated[k]
  {
  }

  /** What `update` writes: the validated data, with the password hashed when one is supplied. */
  function UpdateFields(validated: map<string, string>, hash: Hasher): map<string, string> {
    if "password" in validated then validated["password" := hash(validated["password"])] else validated
  }

  /** Every supplied field is written; only the password changes value, and
      only when it is supplied. `confirm_password`, not removed here, is
      written as well. */
  lemma UpdateFieldsSpec(validated: map<string, string>, hash: Hasher)
    ensures UpdateFields(validated, hash).Keys == validated.Keys
    ensures forall k :: k in validated && k != "password" ==> UpdateFields(validated, hash)[k] == validated[k]
    ensures "password" in validated ==> UpdateFields(validated, hash)["password"] == hash(validated["password"])
  {
  }

  /** A citizen model instance: its attributes by name. */
  class CitizenInstance {
    var attrs: map<string, string>

    constructor (attrs0: map<string, string>)
      ensures attrs == attrs0
    {
      attrs := attrs0;
    }

    /** `update`: hash a supplied password, then `setattr` each validated
        field in turn; attributes not supplied keep their values. */
    method Update(validated: map<string, string>, hash: Hasher)
      modifies this
      ensures attrs == old(attrs) + UpdateFields(validated, hash)
      ensures forall k :: k in old(attrs) && k !in validated ==> attrs[k] == old(attrs)[k]
    {
      var fields := UpdateFields(validated, hash);
      var pending := fields.Keys;
      while pending != {}
        invariant pending <= fields.Keys
        invariant attrs == old(attrs) + (fields - pending)
        decreases pending
      {
        var k :| k in pending;
        attrs := attrs[k := fields[k]];
        pending := pending - {k};
      }
    }
  }
}
