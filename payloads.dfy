/** The request payloads `UserCreateDTO` and `UserUpdateDTO` and their bean-validation
    constraints, written as validity predicates. */
module Payloads {
  import opened Wrappers
  import opened Text

  /** The body of `POST /api/users`. */
  datatype UserCreateDto = UserCreateDto(name: Option<string>, email: Option<string>, age: Option<int>)

  /** The body of `PUT /api/users/{id}`: each `JsonNullable` field is `None` when the client left
      it out. */
  datatype UserUpdateDto = UserUpdateDto(name: Option<string>, email: Option<string>, age: Option<int>)

  const MaxNameLength := 15
  const MaxEmailLength := 30
  const MinAge := 1
  const MaxAge := 150

  /** `@NotBlank`: something other than characters `trim` removes. */
  predicate NotBlank(s: string) {
    Trim(s) != []
  }

  /** Index of the last '@' in `e`, or -1 (`String.lastIndexOf('@')`). */
  function LastAt(e: string): (i: int)
    ensures -1 <= i < |e|
    ensures i >= 0 ==> e[i] == '@'
    ensures forall j :: i < j < |e| ==> e[j] != '@'
  {
    if e == [] then -1
    else if e[|e| - 1] == '@' then |e| - 1
    else LastAt(e[..|e| - 1])
  }

  /** `@Email`: the empty string passes; otherwise the last '@' must split a non-empty local part
      from a non-empty domain. */
  predicate EmailShaped(e: string) {
    e == [] || 0 < LastAt(e) < |e| - 1
  }

  /** `@NotBlank @Size(max = 15)`; `@Size` counts UTF-16 code units. */
  predicate ValidName(n: string) {
    NotBlank(n) && Utf16Length(n) <= MaxNameLength
  }

  /** `@Email @Size(max = 30)`. */
  predicate ValidEmail(e: string) {
    EmailShaped(e) && Utf16Length(e) <= MaxEmailLength
  }

  predicate ValidAge(a: int) {
    MinAge <= a <= MaxAge
  }

  /** The constraints of `UserCreateDTO`: a name is required and must not be blank; an email may
      be omitted; an age is required. */
  predicate ValidCreate(dto: UserCreateDto) {
    && dto.name.Some? && ValidName(dto.name.value)
    && (dto.email.Some? ==> ValidEmail(dto.email.value))
    && dto.age.Some? && ValidAge(dto.age.value)
  }

  /** The constraints of `UserUpdateDTO`: a field the client left out is not checked. */
  predicate ValidUpdate(dto: UserUpdateDto) {
    && (dto.name.Some? ==> ValidName(dto.name.value))
    && (dto.email.Some? ==> ValidEmail(dto.email.value))
    && (dto.age.Some? ==> ValidAge(dto.age.value))
  }

  /** The two payloads declare the same constraints on the same fields: a create payload is
      valid exactly when it supplies a name and an age and, read as an update supplying every
      field it has, it is a valid update. */
  lemma CreateIsCompleteUpdate(dto: UserCreateDto)
    ensures ValidCreate(dto) <==>
      dto.name.Some? && dto.age.Some? && ValidUpdate(UserUpdateDto(dto.name, dto.email, dto.age))
  {
  }

  /** A name of eight emoji is eight characters but sixteen UTF-16 code units, too long for
      `@Size(max = 15)`. */
  lemma SupplementaryNameTooLong()
    ensures var n := seq(8, _ => '\U{1F600}'); |n| <= MaxNameLength && !ValidName(n)
  {
    var n := seq(8, _ => '\U{1F600}');
    Utf16LengthSupplementary(n);
  }

  /** An update supplying nothing is valid, and supplying any subset of the fields of a valid
      full update is valid too: omitted fields are never checked. */
  lemma UpdateValiditySubsets(dto: UserUpdateDto, keepName: bool, keepEmail: bool, keepAge: bool)
    requires ValidUpdate(dto)
    ensures ValidUpdate(UserUpdateDto(None, None, None))
    ensures ValidUpdate(UserUpdateDto(
      if keepName then dto.name else None,
      if keepEmail then dto.email else None,
      if keepAge then dto.age else None))
  {
  }

  /** The payload `{name: "", email: "invalid-email", age: 200}` breaks three constraints. */
  lemma RejectedCreateExample()
    ensures var dto := UserCreateDto(Some(""), Some("invalid-email"), Some(200));
      !ValidCreate(dto) && !NotBlank(dto.name.value) && !EmailShaped(dto.email.value) && !ValidAge(dto.age.value)
  {
    assert LastAt("invalid-email") == -1;
  }

  /** Supplying name "" or age 200 in an update is rejected. */
  lemma RejectedUpdateExample(email: Option<string>)
    ensures !ValidUpdate(UserUpdateDto(Some(""), email, None))
    ensures !ValidUpdate(UserUpdateDto(None, email, Some(200)))
  {
  }

  /** A partial update supplying only a good name, or only a good age, is accepted. */
  lemma AcceptedPartialUpdateExample()
    ensures ValidUpdate(UserUpdateDto(Some("Updated Name"), None, None))
    ensures ValidUpdate(UserUpdateDto(None, None, Some(30)))
  {
    var n := "Updated Name";
    assert forall i :: 0 <= i < |n| ==> n[i] as int <= 0x7F;
    assert Utf16Length(n) == 12;
    assert Trim("Updated Name") != [] by {
      TrimIsInfix("Updated Name");
      assert !IsTrimmed("Updated Name"[0]);
    }
  }
}
