/** The `User` entity of the `users` table and the `UserDTO` the service returns. */
module Users {
  import opened Wrappers

  /** A `LocalDateTime`, as a point on a discrete time line. */
  type Instant = int

  /** A row of the `users` table. Every field is a nullable Java reference: the id is null until
      the store assigns one, and the two audit timestamps are null until the first persist. */
  datatype User = User(
    id: Option<int>,
    name: Option<string>,
    email: Option<string>,
    age: Option<int>,
    updatedAt: Option<Instant>,
    createdAt: Option<Instant>)

  /** The response payload: the entity without `updatedAt`. */
  datatype UserDto = UserDto(
    id: Option<int>,
    name: Option<string>,
    email: Option<string>,
    age: Option<int>,
    createdAt: Option<Instant>)

  /** A user that no save has touched: no id, no audit timestamps. */
  predicate Transient(u: User) {
    u.id.None? && u.updatedAt.None? && u.createdAt.None?
  }

  /** The four-argument constructor `User(id, name, email, age)`. */
  function NewUser(id: Option<int>, name: Option<string>, email: Option<string>, age: Option<int>): (u: User)
    ensures u.updatedAt.None? && u.createdAt.None?
    ensures id.None? ==> Transient(u)
    ensures (u.id, u.name, u.email, u.age) == (id, name, email, age)
  {
    User(id, name, email, age, None, None)
  }

  /** Lombok `equals`: only the id takes part, compared null-safely, so two users that have not
      been saved yet (both ids null) are equal. */
  predicate SameUser(a: User, b: User) {
    a.id == b.id
  }

  lemma SameUserIsEquivalence(a: User, b: User, c: User)
    ensures SameUser(a, a)
    ensures SameUser(a, b) ==> SameUser(b, a)
    ensures SameUser(a, b) && SameUser(b, c) ==> SameUser(a, c)
  {
  }

  const TwoTo32: int := 0x1_0000_0000
  const TwoTo63: int := 0x8000_0000_0000_0000
  const TwoTo64: int := 0x1_0000_0000_0000_0000

  predicate IsInt32(x: int) {
    -0x8000_0000 <= x < 0x8000_0000
  }

  predicate IsLong(x: int) {
    -TwoTo63 <= x < TwoTo63
  }

  /** Java `int` arithmetic: the value reduced to 32-bit two's complement. */
  function Wrap32(x: int): (r: int)
    ensures IsInt32(r)
    ensures (x - r) % TwoTo32 == 0
    ensures IsInt32(x) ==> r == x
  {
    var m := x % TwoTo32;
    if m < 0x8000_0000 then m else m - TwoTo32
  }

  /** `Long.hashCode(v)`: `(int) (v ^ (v >>> 32))`. */
  function LongHash(v: int): (h: int)
    requires IsLong(v)
    ensures IsInt32(h)
  {
    var b := (if v < 0 then v + TwoTo64 else v) as bv64;
    var folded := (b ^ (b >> 32)) & 0xFFFF_FFFF;
    Wrap32(folded as int)
  }

  /** Lombok `hashCode` with only the id included: `59 + (id == null ? 43 : id.hashCode())`. */
  function UserHash(u: User): (h: int)
    requires u.id.Some? ==> IsLong(u.id.value)
    ensures IsInt32(h)
  {
    Wrap32(59 + (match u.id case None => 43 case Some(v) => LongHash(v)))
  }

  /** Users that are equal have equal hashes, whatever their other fields hold. */
  lemma SameUserSameHash(a: User, b: User)
    requires a.id.Some? ==> IsLong(a.id.value)
    requires SameUser(a, b)
    ensures UserHash(a) == UserHash(b)
  {
  }
}
