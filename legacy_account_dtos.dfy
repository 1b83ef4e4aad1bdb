/** The transport shapes of the older snapshot: the same fields, but
    `Gender` is only `required` and `UserId` carries no JSON tag. */
module LegacyAccountDtos {
  import opened Common
  import opened Validation
  import opened AccountDtos

  /** Decoding into the older struct: `UserId` has no tag, so a `UserId`
      key of the body fills it; without one it keeps its zero value. */
  function LegacyFromJson(body: JsonBody): (req: CreateAccountRequest)
    ensures body.userId.Some? ==> req.userId == body.userId.value
    ensures body.userId.None? ==> req.userId == NilUuid
    ensures req.(userId := NilUuid) == FromJson(body)
  {
    var id := match body.userId case Some(u) => u case None => NilUuid;
    CreateAccountRequest(id, body.firstname, body.surname, body.patronymic, body.gender, body.birthdate)
  }

  /** The `validate` tags of the older `CreateAccountRequest`, in declaration order. */
  const LegacyAccountConstraints: seq<FieldSpec> := [
    FieldSpec("Firstname", [Required]),
    FieldSpec("Surname", [Required]),
    FieldSpec("Patronymic", []),
    FieldSpec("Gender", [Required]),
    FieldSpec("Birthdate", [Required])
  ]

  /** The request the older table accepts: first name, surname, gender and
      birthdate present; gender of any length. */
  predicate IsValidLegacyRequest(req: CreateAccountRequest)
  {
    req.firstname != "" && req.surname != "" && req.gender != "" && req.birthdate != ""
  }

  /** `validator.New().Struct(request)` on the older struct. */
  function ValidateLegacyCreate(req: CreateAccountRequest): (errs: seq<FieldError>)
    ensures errs == [] <==> IsValidLegacyRequest(req)
  {
    LegacyTableByField(req);
    Validate(LegacyAccountConstraints, FieldValues(req))
  }

  /** The older table spelled out: every field but the patronymic fails only
      `required`, one error per empty field, in declaration order. */
  lemma LegacyTableByField(req: CreateAccountRequest)
    ensures Validate(LegacyAccountConstraints, FieldValues(req)) ==
      RequiredError("Firstname", req.firstname)
      + (RequiredError("Surname", req.surname)
      + (RequiredError("Gender", req.gender)
      + RequiredError("Birthdate", req.birthdate)))
  {
    var values := FieldValues(req);
    var c := LegacyAccountConstraints;
    RequiredOnly("Firstname", req.firstname);
    RequiredOnly("Surname", req.surname);
    LegacyTableTail(req);
    ValidateFrom(c, values, 1);
    ValidateFrom(c, values, 0);
    assert c[0..] == c && values[0..] == values;
  }

  lemma LegacyTableTail(req: CreateAccountRequest)
    ensures Validate(LegacyAccountConstraints[2..], FieldValues(req)[2..]) ==
      RequiredError("Gender", req.gender) + RequiredError("Birthdate", req.birthdate)
  {
    var values := FieldValues(req);
    var c := LegacyAccountConstraints;
    RequiredOnly("Gender", req.gender);
    RequiredOnly("Birthdate", req.birthdate);
    assert FieldErrors(c[2], values[2]) == [];
    ValidateFrom(c, values, 4);
    assert Validate(c[5..], values[5..]) == [];
    ValidateFrom(c, values, 3);
    ValidateFrom(c, values, 2);
  }

  /** A gender longer than one character passes the older table and fails
      the newer one with a `max` error. */
  lemma LongGenderOnlyNewerRejects(req: CreateAccountRequest)
    requires req.firstname != "" && req.surname != "" && req.birthdate != "" && |req.gender| > 1
    ensures ValidateLegacyCreate(req) == []
    ensures ValidateCreate(req) == [FieldError("Gender", "max", "1")]
  {
    ValidateCreateByField(req);
  }

  /** Every request the newer table accepts, the older one accepts too. */
  lemma NewerTableIsStricter(req: CreateAccountRequest)
    ensures ValidateCreate(req) == [] ==> ValidateLegacyCreate(req) == []
  {
  }
}
