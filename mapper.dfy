/** `UserMapper`: the MapStruct conversions between payloads, the entity and the response. */
module Mapper {
  import opened Wrappers
  import opened Users
  import opened Text
  import opened Payloads

  /** `map(UserCreateDTO)`: the target's id and audit timestamps have no source property, so
      they stay null. */
  function FromCreateDto(dto: UserCreateDto): (u: User)
    ensures Transient(u)
    ensures u.name == dto.name && u.email == dto.email && u.age == dto.age
  {
    User(None, dto.name, dto.email, dto.age, None, None)
  }

  /** A payload that passed validation becomes a row whose name is present, not blank and at
      most 15 UTF-16 code units long, whose email, if any, is email-shaped and at most 30 units
      long, and whose age lies between 1 and 150. */
  lemma ValidCreateRow(dto: UserCreateDto)
    requires ValidCreate(dto)
    ensures var u := FromCreateDto(dto);
      && u.name.Some? && NotBlank(u.name.value) && Utf16Length(u.name.value) <= 15
      && (u.email.Some? ==> EmailShaped(u.email.value) && Utf16Length(u.email.value) <= 30)
      && u.age.Some? && 1 <= u.age.value <= 150
  {
  }

  /** `map(User)`: `UserDTO` has no `updatedAt`, every other property is copied. */
  function ToDto(u: User): (d: UserDto)
    ensures d.id == u.id && d.name == u.name && d.email == u.email && d.age == u.age
    ensures d.createdAt == u.createdAt
  {
    UserDto(u.id, u.name, u.email, u.age, u.createdAt)
  }

  /** Two users with the same id, name, email, age and creation time map to the same response;
      `updatedAt` never shows. */
  lemma ToDtoIgnoresUpdatedAt(u: User, t: Option<Instant>)
    ensures ToDto(u.(updatedAt := t)) == ToDto(u)
  {
  }

  function Pick<T>(supplied: Option<T>, current: Option<T>): Option<T> {
    if supplied.Some? then supplied else current
  }

  /** `update(UserUpdateDTO, @MappingTarget User)`: each field the payload supplies overwrites the
      entity's; omitted fields are ignored; id and audit timestamps have no source property. */
  function Update(dto: UserUpdateDto, u: User): (r: User)
    ensures r.id == u.id && r.createdAt == u.createdAt && r.updatedAt == u.updatedAt
  {
    u.(name := Pick(dto.name, u.name), email := Pick(dto.email, u.email), age := Pick(dto.age, u.age))
  }

  /** Supplied fields overwrite, omitted ones are left as they were. */
  lemma UpdateFieldwise(dto: UserUpdateDto, u: User)
    ensures Update(dto, u).name == (if dto.name.Some? then dto.name else u.name)
    ensures Update(dto, u).email == (if dto.email.Some? then dto.email else u.email)
    ensures Update(dto, u).age == (if dto.age.Some? then dto.age else u.age)
  {
  }

  /** An update that supplies nothing is the identity. */
  lemma UpdateNothingIsIdentity(u: User)
    ensures Update(UserUpdateDto(None, None, None), u) == u
  {
  }

  /** Applying the same payload twice is applying it once. */
  lemma UpdateIdempotent(dto: UserUpdateDto, u: User)
    ensures Update(dto, Update(dto, u)) == Update(dto, u)
  {
  }

  /** Two partial updates in a row equal one update whose fields are taken from the second
      payload where it supplies them and from the first otherwise. */
  lemma UpdateComposes(first: UserUpdateDto, second: UserUpdateDto, u: User)
    ensures Update(second, Update(first, u)) ==
      Update(UserUpdateDto(Pick(second.name, first.name), Pick(second.email, first.email), Pick(second.age, first.age)), u)
  {
  }

  /** `fromUsers(List<User>)`: the list of `map(User)` of each element, in order. */
  function FromUsers(users: seq<User>): (r: seq<UserDto>)
    ensures |r| == |users|
    ensures forall i :: 0 <= i < |users| ==> r[i] == ToDto(users[i])
  {
    if users == [] then [] else [ToDto(users[0])] + FromUsers(users[1..])
  }

  /** Mapping a concatenation maps each part. */
  lemma FromUsersAppend(a: seq<User>, b: seq<User>)
    ensures FromUsers(a + b) == FromUsers(a) + FromUsers(b)
  {
    var l, r := FromUsers(a + b), FromUsers(a) + FromUsers(b);
    forall i | 0 <= i < |l| ensures l[i] == r[i] {
      if i < |a| {
        assert (a + b)[i] == a[i];
      } else {
        assert (a + b)[i] == b[i - |a|];
      }
    }
  }
}
