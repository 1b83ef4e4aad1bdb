/** The transport shapes of the newer snapshot: `CreateAccountRequest` with
    its constraint table, and `GetAccountResponse`. */
module AccountDtos {
  import opened Common
  import opened Dates
  import opened Validation

  /** `dtos.CreateAccountRequest`. The birthdate stays text until the
      repository parses it. */
  datatype CreateAccountRequest = CreateAccountRequest(
    userId: Uuid,
    firstname: string,
    surname: string,
    patronymic: string,
    gender: string,
    birthdate: string)

  /** `dtos.GetAccountResponse`: the stored fields plus the derived age. */
  datatype GetAccountResponse = GetAccountResponse(
    userId: Uuid,
    firstname: string,
    surname: string,
    patronymic: string,
    gender: string,
    age: int,
    birthdate: Date)

  /** What a JSON request body holds for the request's fields (a missing
      key decodes as ""); `userId` is the value under a `UserId` key, if any. */
  datatype JsonBody = JsonBody(
    firstname: string,
    surname: string,
    patronymic: string,
    gender: string,
    birthdate: string,
    userId: Option<Uuid>)

  /** The outcome of `render.DecodeJSON` on the request body. */
  datatype DecodeOutcome = EmptyBody | MalformedBody | Decoded(body: JsonBody)

  /** Decoding into the newer struct: `UserId` carries `json:"-"`, so no key
      of the body can set it and it keeps its zero value. */
  function FromJson(body: JsonBody): (req: CreateAccountRequest)
    ensures req.userId == NilUuid
    ensures req.firstname == body.firstname && req.surname == body.surname
    ensures req.patronymic == body.patronymic && req.gender == body.gender
    ensures req.birthdate == body.birthdate
  {
    CreateAccountRequest(NilUuid, body.firstname, body.surname, body.patronymic, body.gender, body.birthdate)
  }

  /** Whatever `UserId` a body carries, the decoded request is the same. */
  lemma FromJsonIgnoresUserId(body: JsonBody, u: Option<Uuid>)
    ensures FromJson(body.(userId := u)) == FromJson(body)
  {
  }

  /** The `validate` tags of the newer `CreateAccountRequest`, in declaration
      order. `UserId` has no tag and is left out. */
  const CreateAccountConstraints: seq<FieldSpec> := [
    FieldSpec("Firstname", [Required]),
    FieldSpec("Surname", [Required]),
    FieldSpec("Patronymic", []),
    FieldSpec("Gender", [Required, Min(1), Max(1)]),
    FieldSpec("Birthdate", [Required])
  ]

  function FieldValues(req: CreateAccountRequest): seq<string>
  {
    [req.firstname, req.surname, req.patronymic, req.gender, req.birthdate]
  }

  /** The request the newer constraint table accepts: first name, surname and
      birthdate present, gender exactly one character, patronymic anything. */
  predicate IsValidRequest(req: CreateAccountRequest)
  {
    req.firstname != "" && req.surname != "" && |req.gender| == 1 && req.birthdate != ""
  }

  /** `validator.New().Struct(request)` on the newer struct. */
  function ValidateCreate(req: CreateAccountRequest): (errs: seq<FieldError>)
    ensures errs == [] <==> IsValidRequest(req)
  {
    ValidateCreateByField(req);
    Validate(CreateAccountConstraints, FieldValues(req))
  }

  function RequiredError(field: string, value: string): seq<FieldError>
  {
    if value == "" then [FieldError(field, "required", "")] else []
  }

  function OneCharError(field: string, value: string): seq<FieldError>
  {
    if value == "" then [FieldError(field, "required", "")]
    else if |value| > 1 then [FieldError(field, "max", "1")]
    else []
  }

  /** The constraint table spelled out field by field: one error per failing
      field, in declaration order, naming the first tag it fails; a gender
      longer than one character fails `max=1`, an empty one `required`. */
  lemma ValidateCreateByField(req: CreateAccountRequest)
    ensures Validate(CreateAccountConstraints, FieldValues(req)) ==
      RequiredError("Firstname", req.firstname)
      + (RequiredError("Surname", req.surname)
      + (OneCharError("Gender", req.gender)
      + RequiredError("Birthdate", req.birthdate)))
  {
    var values := FieldValues(req);
    var c := CreateAccountConstraints;
    RequiredOnly("Firstname", req.firstname);
    RequiredOnly("Surname", req.surname);
    ConstraintTableTail(req);
    ValidateFrom(c, values, 1);
    ValidateFrom(c, values, 0);
    assert c[0..] == c && values[0..] == values;
  }

  lemma ConstraintTableTail(req: CreateAccountRequest)
    ensures Validate(CreateAccountConstraints[2..], FieldValues(req)[2..]) ==
      OneCharError("Gender", req.gender) + RequiredError("Birthdate", req.birthdate)
  {
    var values := FieldValues(req);
    var c := CreateAccountConstraints;
    RequiredOneChar("Gender", req.gender);
    RequiredOnly("Birthdate", req.birthdate);
    assert FieldErrors(c[2], values[2]) == [];
    ValidateFrom(c, values, 4);
    assert Validate(c[5..], values[5..]) == [];
    ValidateFrom(c, values, 3);
    ValidateFrom(c, values, 2);
  }

  /** A body missing first name, gender and birthdate yields exactly three
      field errors, not only the first. */
  lemma ThreeMissingFieldsThreeErrors(req: CreateAccountRequest)
    requires req.firstname == "" && req.gender == "" && req.birthdate == "" && req.surname != ""
    ensures ValidateCreate(req) == [
      FieldError("Firstname", "required", ""),
      FieldError("Gender", "required", ""),
      FieldError("Birthdate", "required", "")]
  {
    ValidateCreateByField(req);
  }
}
