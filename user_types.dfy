/**
 * The user record, the three request bodies with their declared constraints,
 * the public (JSON) view of a user, and the construction of a user from a
 * sign-up request.
 */
module Types {
  import opened Wrappers
  import opened ObjectIds

  /** An instant, in nanoseconds since the Unix epoch. */
  type Time = int

  /** Go's zero `time.Time`, January 1 of year 1, UTC. */
  const ZeroTime: Time := -62_135_596_800 * 1_000_000_000

  datatype User = User(
    id: ObjectId,
    firstname: string,
    lastname: string,
    email: string,
    encryptedPassword: string,
    createdAt: Time,
    updatedAt: Time)

  datatype CreateUserInput = CreateUserInput(firstname: string, lastname: string, email: string, password: string)

  datatype LoginInput = LoginInput(email: string, password: string)

  /** A partial update: an empty name means "leave it as it is"; the time is set by the store. */
  datatype UpdateUserInput = UpdateUserInput(firstname: string, lastname: string, updatedAt: Time)

  // ---------------------------------------------------------------------------
  // Declared constraints, evaluated as a schema of rules per field.

  /**
   * One validation tag. Lengths count characters (code points), as the
   * validator counts runes; `EmailFormat` is the validator's own email check,
   * a foreign rule passed in as `emailFormat`.
   */
  datatype Rule = Required | MinLen(n: nat) | MaxLen(n: nat) | EmailFormat

  predicate Holds(rule: Rule, v: string, emailFormat: string -> bool) {
    match rule
    case Required => v != ""
    case MinLen(n) => |v| >= n
    case MaxLen(n) => |v| <= n
    case EmailFormat => emailFormat(v)
  }

  predicate HoldsAll(rules: seq<Rule>, v: string, emailFormat: string -> bool) {
    forall i :: 0 <= i < |rules| ==> Holds(rules[i], v, emailFormat)
  }

  const NameRules: seq<Rule> := [Required, MinLen(3), MaxLen(32)]
  const EmailRules: seq<Rule> := [Required, EmailFormat]
  const NewPasswordRules: seq<Rule> := [Required, MinLen(6), MaxLen(64)]
  const LoginPasswordRules: seq<Rule> := [Required]

  /**
   * A sign-up request is valid exactly when both names are 3 to 32 characters,
   * the email is present and well-formed, and the password is 6 to 64 characters.
   */
  predicate ValidCreateUserInput(input: CreateUserInput, emailFormat: string -> bool)
    ensures ValidCreateUserInput(input, emailFormat) <==>
      && 3 <= |input.firstname| <= 32
      && 3 <= |input.lastname| <= 32
      && input.email != "" && emailFormat(input.email)
      && 6 <= |input.password| <= 64
  {
    HoldsNameRules(input.firstname, emailFormat);
    HoldsNameRules(input.lastname, emailFormat);
    HoldsEmailRules(input.email, emailFormat);
    HoldsNewPasswordRules(input.password, emailFormat);
    && HoldsAll(NameRules, input.firstname, emailFormat)
    && HoldsAll(NameRules, input.lastname, emailFormat)
    && HoldsAll(EmailRules, input.email, emailFormat)
    && HoldsAll(NewPasswordRules, input.password, emailFormat)
  }

  /** A login request is valid exactly when the email is present and well-formed and a password is given. */
  predicate ValidLoginInput(input: LoginInput, emailFormat: string -> bool)
    ensures ValidLoginInput(input, emailFormat) <==>
      input.email != "" && emailFormat(input.email) && input.password != ""
  {
    HoldsEmailRules(input.email, emailFormat);
    HoldsLoginPasswordRules(input.password, emailFormat);
    && HoldsAll(EmailRules, input.email, emailFormat)
    && HoldsAll(LoginPasswordRules, input.password, emailFormat)
  }

  lemma HoldsNameRules(v: string, emailFormat: string -> bool)
    ensures HoldsAll(NameRules, v, emailFormat) <==> 3 <= |v| <= 32
  {
    if 3 <= |v| <= 32 {
      forall i | 0 <= i < |NameRules| ensures Holds(NameRules[i], v, emailFormat) {
      }
    }
    if HoldsAll(NameRules, v, emailFormat) {
      assert Holds(NameRules[1], v, emailFormat) && Holds(NameRules[2], v, emailFormat);
    }
  }

  lemma HoldsNewPasswordRules(v: string, emailFormat: string -> bool)
    ensures HoldsAll(NewPasswordRules, v, emailFormat) <==> 6 <= |v| <= 64
  {
    if 6 <= |v| <= 64 {
      forall i | 0 <= i < |NewPasswordRules| ensures Holds(NewPasswordRules[i], v, emailFormat) {
      }
    }
    if HoldsAll(NewPasswordRules, v, emailFormat) {
      assert Holds(NewPasswordRules[1], v, emailFormat) && Holds(NewPasswordRules[2], v, emailFormat);
    }
  }

  lemma HoldsEmailRules(v: string, emailFormat: string -> bool)
    ensures HoldsAll(EmailRules, v, emailFormat) <==> v != "" && emailFormat(v)
  {
    if v != "" && emailFormat(v) {
      forall i | 0 <= i < |EmailRules| ensures Holds(EmailRules[i], v, emailFormat) {
      }
    }
    if HoldsAll(EmailRules, v, emailFormat) {
      assert Holds(EmailRules[0], v, emailFormat) && Holds(EmailRules[1], v, emailFormat);
    }
  }

  lemma HoldsLoginPasswordRules(v: string, emailFormat: string -> bool)
    ensures HoldsAll(LoginPasswordRules, v, emailFormat) <==> v != ""
  {
    if v != "" {
      forall i | 0 <= i < |LoginPasswordRules| ensures Holds(LoginPasswordRules[i], v, emailFormat) {
      }
    }
    if HoldsAll(LoginPasswordRules, v, emailFormat) {
      assert Holds(LoginPasswordRules[0], v, emailFormat);
    }
  }

  // ---------------------------------------------------------------------------
  // The JSON views.

  datatype Json =
    | JNull
    | JBool(b: bool)
    | JInt(i: int)
    | JString(s: string)
    | JTime(t: Time)
    | JArray(items: seq<Json>)
    | JObject(fields: map<string, Json>)

  const PublicUserKeys: set<string> := {"id", "firstname", "lastname", "email", "created_at", "updated_at"}

  /**
   * How a user is written in a response. The hash is tagged to be skipped; the
   * identifier is always written, as its hexadecimal spelling, because an
   * `omitempty` tag does not drop a fixed-size array.
   */
  function PublicJson(u: User): (j: Json)
    ensures j.JObject? && j.fields.Keys == PublicUserKeys
    ensures "encrypted_password" !in j.fields
  {
    JObject(map[
      "id" := JString(Hex(u.id)),
      "firstname" := JString(u.firstname),
      "lastname" := JString(u.lastname),
      "email" := JString(u.email),
      "created_at" := JTime(u.createdAt),
      "updated_at" := JTime(u.updatedAt)])
  }

  /** The public view does not depend on the password hash ... */
  lemma PublicJsonHidesHash(u: User, hash: string)
    ensures PublicJson(u.(encryptedPassword := hash)) == PublicJson(u)
  {
  }

  /** ... and it is all the hash the view loses: two users with the same view differ at most in their hashes. */
  lemma PublicJsonDeterminesTheRest(u: User, v: User)
    requires PublicJson(u) == PublicJson(v)
    ensures u == v.(encryptedPassword := u.encryptedPassword)
  {
    var fu, fv := PublicJson(u).fields, PublicJson(v).fields;
    assert fu["id"] == fv["id"] && fu["firstname"] == fv["firstname"] && fu["lastname"] == fv["lastname"];
    assert fu["email"] == fv["email"] && fu["created_at"] == fv["created_at"] && fu["updated_at"] == fv["updated_at"];
    ParseHex(u.id);
    ParseHex(v.id);
  }

  /**
   * Decoding an update body: only the two name keys are read. The time field is
   * tagged to be skipped, so a client can never set it; it keeps Go's zero time.
   */
  function DecodeUpdateUserInput(body: map<string, string>): (input: UpdateUserInput)
    ensures input.updatedAt == ZeroTime
    ensures input.firstname == (if "firstname" in body then body["firstname"] else "")
    ensures input.lastname == (if "lastname" in body then body["lastname"] else "")
  {
    UpdateUserInput(
      if "firstname" in body then body["firstname"] else "",
      if "lastname" in body then body["lastname"] else "",
      ZeroTime)
  }

  /** Whatever a client sends under `updated_at` makes no difference to the decoded input. */
  lemma UpdatedAtIsNotClientSupplied(body: map<string, string>, v: string)
    ensures DecodeUpdateUserInput(body["updated_at" := v]) == DecodeUpdateUserInput(body - {"updated_at"})
  {
  }

  // ---------------------------------------------------------------------------
  // Building a user.

  /** The cryptographic primitive is outside the model; it may fail, for instance on an over-long password. */
  type Hasher = string -> Option<string>

  /**
   * A user built from a sign-up request: the three fields copied unchanged, the
   * raw password replaced by its hash, both timestamps the same single instant,
   * and no identifier yet. No user is built when hashing fails.
   */
  function NewUser(input: CreateUserInput, now: Time, hash: Hasher): (r: Option<User>)
    ensures r.None? <==> hash(input.password).None?
    ensures r.Some? ==>
      && r.value.firstname == input.firstname
      && r.value.lastname == input.lastname
      && r.value.email == input.email
      && r.value.encryptedPassword == hash(input.password).value
      && r.value.createdAt == r.value.updatedAt == now
      && r.value.id == NilObjectId
  {
    match hash(input.password)
    case None => None
    case Some(h) => Some(User(NilObjectId, input.firstname, input.lastname, input.email, h, now, now))
  }

  /** The single assumption made about the password codec: a password checks against its own hash. */
  ghost predicate ChecksOwnHash(hash: Hasher, check: (string, string) -> bool) {
    forall p :: hash(p).Some? ==> check(p, hash(p).value)
  }

  /** The stored hash of a new user verifies against the password it was built from. */
  lemma NewUserVerifies(input: CreateUserInput, now: Time, hash: Hasher, check: (string, string) -> bool)
    requires ChecksOwnHash(hash, check)
    requires NewUser(input, now, hash).Some?
    ensures check(input.password, NewUser(input, now, hash).value.encryptedPassword)
  {
  }

  /** The raw password is not kept: two requests whose passwords hash alike build the same user. */
  lemma NewUserKeepsOnlyHash(a: CreateUserInput, pw: string, now: Time, hash: Hasher)
    requires hash(pw) == hash(a.password)
    ensures NewUser(a.(password := pw), now, hash) == NewUser(a, now, hash)
  {
  }
}
