/** The Kafka event envelopes `UserCreatedEvent` and `UserDeletedEvent` of the shared `core`
    module, their builders, `equals` and `hashCode`, and the messages the user service sends. */
module Events {
  import opened Wrappers
  import opened Text
  import opened Users

  /** A user was created: the envelope (event id, time of building) and the new row's payload. */
  datatype UserCreatedEvent = UserCreatedEvent(
    eventId: Option<string>,
    eventTimestamp: Option<Instant>,
    id: Option<int>,
    name: Option<string>,
    email: Option<string>,
    age: Option<int>,
    createdAt: Option<Instant>)

  /** A user was deleted: the envelope and the deleted row's id and email. */
  datatype UserDeletedEvent = UserDeletedEvent(
    eventId: Option<string>,
    eventTimestamp: Option<Instant>,
    id: Option<int>,
    email: Option<string>)

  /** The public no-argument constructor (used by deserialisation): every field null. */
  function EmptyCreatedEvent(): (e: UserCreatedEvent)
    ensures e.eventId.None? && e.eventTimestamp.None?
    ensures e.id.None? && e.name.None? && e.email.None? && e.age.None? && e.createdAt.None?
  {
    UserCreatedEvent(None, None, None, None, None, None, None)
  }

  /** The public no-argument constructor of the deletion event: every field null. */
  function EmptyDeletedEvent(): (e: UserDeletedEvent)
    ensures e.eventId.None? && e.eventTimestamp.None? && e.id.None? && e.email.None?
  {
    UserDeletedEvent(None, None, None, None)
  }

  /** `UserCreatedEvent.Builder`: the payload collected by the fluent setters. */
  class CreatedEventBuilder {
    var id: Option<int>
    var name: Option<string>
    var email: Option<string>
    var age: Option<int>
    var createdAt: Option<Instant>

    /** `UserCreatedEvent.builder()`: nothing set yet. */
    constructor()
      ensures id.None? && name.None? && email.None? && age.None? && createdAt.None?
    {
      id, name, email, age, createdAt := None, None, None, None, None;
    }

    method Id(v: Option<int>) returns (b: CreatedEventBuilder)
      modifies this
      ensures b == this && id == v
      ensures name == old(name) && email == old(email) && age == old(age) && createdAt == old(createdAt)
    {
      id := v;
      b := this;
    }

    method Name(v: Option<string>) returns (b: CreatedEventBuilder)
      modifies this
      ensures b == this && name == v
      ensures id == old(id) && email == old(email) && age == old(age) && createdAt == old(createdAt)
    {
      name := v;
      b := this;
    }

    method Email(v: Option<string>) returns (b: CreatedEventBuilder)
      modifies this
      ensures b == this && email == v
      ensures id == old(id) && name == old(name) && age == old(age) && createdAt == old(createdAt)
    {
      email := v;
      b := this;
    }

    method Age(v: Option<int>) returns (b: CreatedEventBuilder)
      modifies this
      ensures b == this && age == v
      ensures id == old(id) && name == old(name) && email == old(email) && createdAt == old(createdAt)
    {
      age := v;
      b := this;
    }

    method CreatedAt(v: Option<Instant>) returns (b: CreatedEventBuilder)
      modifies this
      ensures b == this && createdAt == v
      ensures id == old(id) && name == old(name) && email == old(email) && age == old(age)
    {
      createdAt := v;
      b := this;
    }

    /** `build()`: a new event whose payload is the builder's, under the fresh event id and the
        current time the caller supplies for `UUID.randomUUID()` and `LocalDateTime.now()`. */
    method Build(eventId: string, now: Instant) returns (e: UserCreatedEvent)
      ensures e.eventId == Some(eventId) && e.eventTimestamp == Some(now)
      ensures e.id == id && e.name == name && e.email == email && e.age == age && e.createdAt == createdAt
    {
      e := UserCreatedEvent(Some(eventId), Some(now), id, name, email, age, createdAt);
    }
  }

  /** `UserDeletedEvent.Builder`. */
  class DeletedEventBuilder {
    var id: Option<int>
    var email: Option<string>

    constructor()
      ensures id.None? && email.None?
    {
      id, email := None, None;
    }

    method Id(v: Option<int>) returns (b: DeletedEventBuilder)
      modifies this
      ensures b == this && id == v && email == old(email)
    {
      id := v;
      b := this;
    }

    method Email(v: Option<string>) returns (b: DeletedEventBuilder)
      modifies this
      ensures b == this && email == v && id == old(id)
    {
      email := v;
      b := this;
    }

    /** `build()`: the builder's id and email under a fresh event id and the current time. */
    method Build(eventId: string, now: Instant) returns (e: UserDeletedEvent)
      ensures e.eventId == Some(eventId) && e.eventTimestamp == Some(now)
      ensures e.id == id && e.email == email
    {
      e := UserDeletedEvent(Some(eventId), Some(now), id, email);
    }
  }

  /** The argument of `equals(Object)`: null, one of the two event classes, or anything else. */
  datatype JavaObject =
    | Null
    | CreatedObject(created: UserCreatedEvent)
    | DeletedObject(deleted: UserDeletedEvent)
    | OtherObject

  /** `UserCreatedEvent.equals`: another `UserCreatedEvent` with a null-safe equal event id. The
      identity shortcut is subsumed, since an object has its own event id. */
  predicate CreatedEquals(e: UserCreatedEvent, o: JavaObject) {
    match o
    case CreatedObject(c) => e.eventId == c.eventId
    case _ => false
  }

  /** `UserDeletedEvent.equals`. */
  predicate DeletedEquals(e: UserDeletedEvent, o: JavaObject) {
    match o
    case DeletedObject(d) => e.eventId == d.eventId
    case _ => false
  }

  /** `String.hashCode`: `s[0]*31^(n-1) + ... + s[n-1]` in `int` arithmetic. */
  function StringHash(s: string): (h: int)
    ensures IsInt32(h)
  {
    if s == [] then 0 else Wrap32(31 * StringHash(s[..|s| - 1]) + s[|s| - 1] as int)
  }

  /** The same polynomial in unbounded arithmetic. */
  function Polynomial(s: string): int {
    if s == [] then 0 else 31 * Polynomial(s[..|s| - 1]) + s[|s| - 1] as int
  }

  lemma WrapCongruent(x: int, y: int)
    requires (x - y) % TwoTo32 == 0
    ensures Wrap32(x) == Wrap32(y)
  {
    var k := (x - y) / TwoTo32;
    assert x == y + k * TwoTo32;
    assert x % TwoTo32 == y % TwoTo32;
  }

  /** `String.hashCode` is the polynomial hash reduced to 32 bits: wrapping after every step is
      the same as wrapping once at the end. */
  lemma {:induction false} StringHashIsPolynomial(s: string)
    ensures StringHash(s) == Wrap32(Polynomial(s))
  {
    if s != [] {
      var p := s[..|s| - 1];
      var c := s[|s| - 1] as int;
      StringHashIsPolynomial(p);
      WrapStep(Polynomial(p), c);
    }
  }

  /** One hashing step commutes with the reduction to 32 bits. */
  lemma WrapStep(x: int, c: int)
    ensures Wrap32(31 * Wrap32(x) + c) == Wrap32(31 * x + c)
  {
    var w := Wrap32(x);
    ScaledMultiple(x - w);
    assert (31 * x + c) - (31 * w + c) == 31 * (x - w);
    WrapCongruent(31 * x + c, 31 * w + c);
  }

  lemma ScaledMultiple(d: int)
    requires d % TwoTo32 == 0
    ensures (31 * d) % TwoTo32 == 0
  {
    var k := d / TwoTo32;
    assert d == k * TwoTo32;
    assert 31 * d == (31 * k) * TwoTo32;
  }

  /** `Objects.hash(v)`: `31 * 1 + (v == null ? 0 : v.hashCode())` in `int` arithmetic. */
  function ObjectsHash(v: Option<string>): (h: int)
    ensures IsInt32(h)
    ensures v.None? ==> h == 31
  {
    Wrap32(31 + (match v case None => 0 case Some(s) => StringHash(s)))
  }

  /** `UserCreatedEvent.hashCode`. */
  function CreatedHash(e: UserCreatedEvent): int {
    ObjectsHash(e.eventId)
  }

  /** `UserDeletedEvent.hashCode`. */
  function DeletedHash(e: UserDeletedEvent): int {
    ObjectsHash(e.eventId)
  }

  /** `equals` is an equivalence on creation events, is false against null and against an
      object of another class, and compares nothing but the event id. */
  lemma CreatedEqualsContract(a: UserCreatedEvent, b: UserCreatedEvent, c: UserCreatedEvent, d: UserDeletedEvent)
    ensures CreatedEquals(a, CreatedObject(a))
    ensures CreatedEquals(a, CreatedObject(b)) ==> CreatedEquals(b, CreatedObject(a))
    ensures CreatedEquals(a, CreatedObject(b)) && CreatedEquals(b, CreatedObject(c)) ==> CreatedEquals(a, CreatedObject(c))
    ensures !CreatedEquals(a, Null) && !CreatedEquals(a, DeletedObject(d)) && !CreatedEquals(a, OtherObject)
    ensures CreatedEquals(a, CreatedObject(b)) <==> a.eventId == b.eventId
  {
  }

  /** The same for deletion events. */
  lemma DeletedEqualsContract(a: UserDeletedEvent, b: UserDeletedEvent, c: UserDeletedEvent, d: UserCreatedEvent)
    ensures DeletedEquals(a, DeletedObject(a))
    ensures DeletedEquals(a, DeletedObject(b)) ==> DeletedEquals(b, DeletedObject(a))
    ensures DeletedEquals(a, DeletedObject(b)) && DeletedEquals(b, DeletedObject(c)) ==> DeletedEquals(a, DeletedObject(c))
    ensures !DeletedEquals(a, Null) && !DeletedEquals(a, CreatedObject(d)) && !DeletedEquals(a, OtherObject)
    ensures DeletedEquals(a, DeletedObject(b)) <==> a.eventId == b.eventId
  {
  }

  /** Two events built from the same payload under different event ids are different events,
      and the same event id makes any two payloads equal. */
  lemma EqualityIgnoresPayload(a: UserCreatedEvent, b: UserDeletedEvent, id: string, other: string)
    requires id != other
    ensures !CreatedEquals(a.(eventId := Some(id)), CreatedObject(a.(eventId := Some(other))))
    ensures !DeletedEquals(b.(eventId := Some(id)), DeletedObject(b.(eventId := Some(other))))
    ensures forall c: UserCreatedEvent :: CreatedEquals(a.(eventId := Some(id)), CreatedObject(c.(eventId := Some(id))))
    ensures forall c: UserDeletedEvent :: DeletedEquals(b.(eventId := Some(id)), DeletedObject(c.(eventId := Some(id))))
  {
  }

  /** Equal events have equal hash codes. */
  lemma EqualEventsEqualHash(a: UserCreatedEvent, b: JavaObject, c: UserDeletedEvent, d: JavaObject)
    ensures CreatedEquals(a, b) ==> CreatedHash(a) == CreatedHash(b.created)
    ensures DeletedEquals(c, d) ==> DeletedHash(c) == DeletedHash(d.deleted)
  {
  }

  const CreatedTopic := "user-created-events-topic"
  const DeletedTopic := "user-deleted-events-topic"

  /** The value of a record the service sends. */
  datatype EventValue = Created(created: UserCreatedEvent) | Deleted(deleted: UserDeletedEvent)

  /** One `kafkaTemplate.send(topic, key, value)`. */
  datatype Message = Message(topic: string, key: string, value: EventValue)

  /** The event id of the record's value. */
  function MessageEventId(m: Message): Option<string> {
    match m.value
    case Created(e) => e.eventId
    case Deleted(e) => e.eventId
  }
}
