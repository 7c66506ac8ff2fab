/** The user service: the `users` table, the identity counter the table draws ids from, and the
    records the service hands to Kafka, with `findUser`, `createUser`, `updateUser`,
    `deleteUser`, `findAllUsers` and `existsByEmailOrThrowException`. */
module Registry {
  import opened Wrappers
  import opened Text
  import opened Users
  import opened Payloads
  import opened Mapper
  import opened Params
  import opened Specification
  import opened Sorting
  import opened Exceptions
  import opened Events

  /** What the service did to the table and the transport, in order. */
  datatype Effect = Inserted(id: int) | Saved(id: int) | Removed(id: int) | Sent(message: Message)

  /** The records among the effects, in the order they were sent. */
  function SentMessages(t: seq<Effect>): (r: seq<Message>)
    ensures |r| <= |t|
    ensures forall m :: m in r <==> Sent(m) in t
  {
    if t == [] then []
    else
      assert t == t[..|t| - 1] + [t[|t| - 1]];
      SentMessages(t[..|t| - 1]) + (if t[|t| - 1].Sent? then [t[|t| - 1].message] else [])
  }

  lemma SentMessagesAppend(t: seq<Effect>, e: Effect)
    ensures SentMessages(t + [e]) == SentMessages(t) + (if e.Sent? then [e.message] else [])
  {
    assert (t + [e])[..|t|] == t;
  }

  /** `existsByEmail`: some row holds exactly this email (a null argument matches null emails). */
  predicate EmailHeld(rows: map<int, User>, email: Option<string>) {
    exists k :: k in rows && rows[k].email == email
  }

  /** The unique constraint on the email column: no two rows share a non-null email. */
  predicate UniqueEmails(rows: map<int, User>) {
    forall a, b :: a in rows && b in rows && a != b && rows[a].email.Some? ==> rows[a].email != rows[b].email
  }

  /** Saving `u` under key `id` would break the unique constraint: another row has its email. */
  predicate Clash(rows: map<int, User>, id: int, u: User) {
    u.email.Some? && exists k :: k in rows && k != id && rows[k].email == u.email
  }

  /** A persisted row under key `k`: its id is the key, drawn from the counter; both audit
      timestamps are set, creation is no later than the last modification, and neither lies
      after the store's clock. */
  predicate StoredRow(k: int, u: User, nextId: int, clock: Instant) {
    && 1 <= k < nextId
    && u.id == Some(k)
    && u.createdAt.Some? && u.updatedAt.Some?
    && u.createdAt.value <= u.updatedAt.value <= clock
  }

  /** Every record carries an event id and no two records share one. */
  predicate DistinctEventIds(out: seq<Message>) {
    && (forall i :: 0 <= i < |out| ==> MessageEventId(out[i]).Some?)
    && (forall i, j :: 0 <= i < j < |out| ==> MessageEventId(out[i]) != MessageEventId(out[j]))
  }

  /** `String.format("User with id %d not found", id)`. */
  function NotFoundById(id: int): Exception {
    UserNotFound(Some("User with id " + IntToString(id) + " not found"))
  }

  /** The store's report of a unique-constraint violation; its message names the kind of
      constraint. */
  const UniqueViolationMessage := "Unique index or primary key violation"
  const UniqueViolation: Exception := DataIntegrityViolation(Some(UniqueViolationMessage))

  /** The row a successful `save` of an updated entity leaves behind. Auditing touches
      `updatedAt` only when the update changed a column; an update that changed nothing is not
      flushed. */
  function AfterSave(before: User, dto: UserUpdateDto, now: Instant): (u: User)
    ensures u.id == before.id && u.createdAt == before.createdAt
    ensures (u.name, u.email, u.age) == (Update(dto, before).name, Update(dto, before).email, Update(dto, before).age)
    ensures u.updatedAt == (if Update(dto, before) == before then before.updatedAt else Some(now))
  {
    var after := Update(dto, before);
    if after == before then before else after.(updatedAt := Some(now))
  }

  /** A save that changed the row stamps it later than its creation. */
  lemma AfterSaveStamps(before: User, dto: UserUpdateDto, now: Instant)
    requires before.createdAt.Some? && before.createdAt.value < now
    requires Update(dto, before) != before
    ensures AfterSave(dto := dto, before := before, now := now).updatedAt.Some?
    ensures AfterSave(before, dto, now).createdAt.value < AfterSave(before, dto, now).updatedAt.value
  {
  }

  /** The rows under keys `lo` up to `hi`, in key order. */
  function RowsFrom(rows: map<int, User>, lo: int, hi: int): seq<User>
    decreases hi - lo
  {
    if lo >= hi then [] else (if lo in rows then [rows[lo]] else []) + RowsFrom(rows, lo + 1, hi)
  }

  lemma {:induction false} RowsFromContents(rows: map<int, User>, lo: int, hi: int)
    ensures forall u :: u in RowsFrom(rows, lo, hi) <==> exists k :: lo <= k < hi && k in rows && rows[k] == u
    decreases hi - lo
  {
    if lo < hi {
      RowsFromContents(rows, lo + 1, hi);
      forall u ensures u in RowsFrom(rows, lo, hi) <==> exists k :: lo <= k < hi && k in rows && rows[k] == u {
        if u in RowsFrom(rows, lo, hi) && !(lo in rows && rows[lo] == u) {
          assert u in RowsFrom(rows, lo + 1, hi);
        }
        if exists k :: lo <= k < hi && k in rows && rows[k] == u {
          var k :| lo <= k < hi && k in rows && rows[k] == u;
          if k > lo {
            assert u in RowsFrom(rows, lo + 1, hi);
          }
        }
      }
    }
  }

  /** The table a query scans: every row, in key order. */
  function Table(rows: map<int, User>, nextId: int): seq<User> {
    RowsFrom(rows, 1, nextId)
  }

  /** A scan of the table sees exactly the stored rows. */
  lemma TableContents(rows: map<int, User>, nextId: int, clock: Instant)
    requires forall k :: k in rows ==> StoredRow(k, rows[k], nextId, clock)
    ensures forall u :: u in Table(rows, nextId) <==> u in rows.Values
  {
    RowsFromContents(rows, 1, nextId);
    forall u ensures u in Table(rows, nextId) <==> u in rows.Values {
      if u in rows.Values {
        var k :| k in rows && rows[k] == u;
        assert StoredRow(k, rows[k], nextId, clock);
      }
    }
  }

  /** Spring Data's `PropertyReferenceException` for a sort on a property `User` lacks. */
  function NoSuchProperty(name: string): Exception {
    Unexpected(Some("No property '" + name + "' found for type 'User'"))
  }

  /** `findAllUsers`: the specification filters the table, the page request orders the matches
      and cuts one page, and the page is mapped to responses. */
  function Query(table: seq<User>, p: UserParams): (r: Result<seq<UserDto>, Exception>)
    ensures r.Success? <==> ToPageable(p).Success? && ResolveSortField(ToPageable(p).value.sortBy).Some?
    ensures r.Success? ==> |r.value| <= p.size.value
    ensures ToPageable(p).Failure? ==> r == Failure(ToPageable(p).error)
  {
    var matching := Filter(p, table);
    match ToPageable(p)
    case Failure(e) => Failure(e)
    case Success(pg) =>
      match ResolveSortField(pg.sortBy)
      case None => Failure(NoSuchProperty(pg.sortBy))
      case Some(f) => Success(FromUsers(PageOf(SortRows(f, pg.direction, matching), pg.page, pg.size)))
  }

  /** A page holds rows of the sequence it is cut from. */
  lemma PageWithin<T>(rows: seq<T>, page: nat, size: nat)
    ensures forall u :: u in PageOf(rows, page, size) ==> u in rows
  {
    forall u | u in PageOf(rows, page, size) ensures u in rows {
      var i :| 0 <= i < |PageOf(rows, page, size)| && PageOf(rows, page, size)[i] == u;
      assert u == rows[page * size + i];
    }
  }

  /** Every row on a page of the sorted matches is a row of the table the specification accepts. */
  lemma PageRowsMatch(table: seq<User>, p: UserParams, f: SortField, d: Direction, page: nat, size: nat)
    ensures forall u :: u in PageOf(SortRows(f, d, Filter(p, table)), page, size) ==> u in table && Build(p, u)
  {
    var matching := Filter(p, table);
    var sorted := SortRows(f, d, matching);
    PageWithin(sorted, page, size);
    SortRowsPermutes(f, d, matching);
    FilterExact(p, table);
  }

  /** A page holds only responses for rows of the table that the specification accepts. */
  lemma QueryContents(table: seq<User>, p: UserParams)
    requires Query(table, p).Success?
    ensures forall i :: 0 <= i < |Query(table, p).value| ==>
      exists u :: u in table && Build(p, u) && Query(table, p).value[i] == ToDto(u)
  {
    var pg := ToPageable(p).value;
    var f := ResolveSortField(pg.sortBy).value;
    var page := PageOf(SortRows(f, pg.direction, Filter(p, table)), pg.page, pg.size);
    var res := Query(table, p).value;
    assert res == FromUsers(page);
    PageRowsMatch(table, p, f, pg.direction, pg.page, pg.size);
    forall i | 0 <= i < |res| ensures exists u :: u in table && Build(p, u) && res[i] == ToDto(u) {
      assert page[i] in page;
    }
  }

  /** The page is a slice of the matching rows put in the requested order: there is an ordering
      of exactly the matches, sorted on the requested field and direction, whose slice
      `[page * size, page * size + size)` the query returns. */
  lemma QueryIsSortedPage(table: seq<User>, p: UserParams)
    requires Query(table, p).Success?
    ensures exists s ::
      && Sorted(ResolveSortField(ToPageable(p).value.sortBy).value, ToPageable(p).value.direction, s)
      && multiset(s) == multiset(Filter(p, table))
      && Query(table, p).value == FromUsers(PageOf(s, p.page.value, p.size.value))
  {
    var f := ResolveSortField(ToPageable(p).value.sortBy).value;
    var d := ToPageable(p).value.direction;
    var s := SortRows(f, d, Filter(p, table));
    SortRowsSorted(f, d, Filter(p, table));
  }

  /** A well-formed query returns the requested page of the sorted matches. */
  lemma QueryPage(table: seq<User>, p: UserParams)
    requires ToPageable(p).Success? && ResolveSortField(ToPageable(p).value.sortBy).Some?
    ensures Query(table, p) == Success(FromUsers(PageOf(
      SortRows(ResolveSortField(ToPageable(p).value.sortBy).value, ToPageable(p).value.direction, Filter(p, table)), p.page.value, p.size.value)))
  {
  }

  lemma SortNothing(f: SortField, d: Direction)
    ensures SortRows(f, d, []) == []
  {
  }

  lemma {:induction false} FilterRejectsAll(p: UserParams, rows: seq<User>)
    requires forall u :: u in rows ==> !Build(p, u)
    ensures Filter(p, rows) == []
  {
    if rows != [] {
      assert rows[0] in rows;
      FilterRejectsAll(p, rows[1..]);
    }
  }

  /** When nothing matches, a well-formed query returns an empty list rather than failing. */
  lemma QueryNoMatch(table: seq<User>, p: UserParams)
    requires ToPageable(p).Success? && ResolveSortField(ToPageable(p).value.sortBy).Some?
    requires forall u :: u in table ==> !Build(p, u)
    ensures Query(table, p) == Success([])
  {
    QueryPage(table, p);
    FilterRejectsAll(p, table);
    SortNothing(ResolveSortField(ToPageable(p).value.sortBy).value, ToPageable(p).value.direction);
  }

  /** Parameters that pass validation, set both sort fields and name a non-negative page of at
      least one row never make the query fail. Validation alone is not enough: a null sort field
      passes it (NullSortQueryFails). */
  lemma ValidParamsQuerySucceeds(table: seq<User>, p: UserParams)
    requires ValidParams(p) && p.sortBy.Some? && p.sortDirection.Some?
    requires p.page.Some? && p.page.value >= 0 && p.size.Some? && p.size.value >= 1
    ensures Query(table, p).Success?
  {
    ValidSortByResolves(p.sortBy.value);
  }

  /** A request that leaves `sortBy` or `sortDirection` null passes validation, and the query
      fails with the `IllegalArgumentException` of building the sort, which the handler's
      catch-all answers with 500. */
  lemma NullSortQueryFails(table: seq<User>, p: UserParams)
    requires ValidParams(p) && p.page.Some? && p.size.Some?
    requires p.sortBy.None? || p.sortDirection.None?
    ensures Query(table, p).Failure? && Query(table, p).error.IllegalArgument?
    ensures p.sortDirection.None? ==> Query(table, p) == Failure(InvalidDirection(None))
    ensures p.sortDirection.Some? ==> Query(table, p) == Failure(BlankProperty)
  {
  }

  /** `existsByEmailOrThrowException`: passes exactly when some row holds the email. */
  function EmailCheck(rows: map<int, User>, email: Option<string>): (r: Outcome<Exception>)
    ensures r.Pass? <==> EmailHeld(rows, email)
    ensures r.Fail? ==> r.error == UserNotFound(Some("User with email " + JavaString(email) + " does not exist"))
  {
    if EmailHeld(rows, email) then Pass
    else Fail(UserNotFound(Some("User with email " + JavaString(email) + " does not exist")))
  }

  /** `EmailServiceImpl.send`: the message is delivered exactly when some row holds the email. */
  function Send(rows: map<int, User>, email: Option<string>, message: string): (r: Outcome<Exception>)
    ensures r.Pass? <==> EmailHeld(rows, email)
    ensures r.Fail? ==> r.error == UserNotFound(Some("User with email " + JavaString(email) + " not found"))
  {
    if !EmailHeld(rows, email) then Fail(UserNotFound(Some("User with email " + JavaString(email) + " not found")))
    else Pass
  }

  /** `send` and `existsByEmailOrThrowException` agree on which emails pass; neither depends on
      anything but whether a row holds the email, and `send` ignores the message body. */
  lemma SendAgreesWithEmailCheck(rows: map<int, User>, other: map<int, User>, email: Option<string>, m1: string, m2: string)
    requires EmailHeld(rows, email) == EmailHeld(other, email)
    ensures Send(rows, email, m1).Pass? == EmailCheck(rows, email).Pass?
    ensures Send(rows, email, m1) == Send(other, email, m2)
    ensures EmailCheck(rows, email) == EmailCheck(other, email)
  {
  }

  /** The invariant of the service's state: every row is a persisted row, emails are unique, and
      the records sent are exactly the sends among the effects, each with its own event id. */
  ghost predicate Consistent(rows: map<int, User>, nextId: int, clock: Instant, outbox: seq<Message>, trace: seq<Effect>) {
    && nextId >= 1
    && (forall k :: k in rows ==> StoredRow(k, rows[k], nextId, clock))
    && UniqueEmails(rows)
    && outbox == SentMessages(trace)
    && DistinctEventIds(outbox)
  }

  /** A record whose event id is set and differs from those of every record already sent. */
  predicate FreshRecord(outbox: seq<Message>, m: Message) {
    MessageEventId(m).Some? && forall x :: x in outbox ==> MessageEventId(x) != MessageEventId(m)
  }

  lemma SendKeepsDistinct(outbox: seq<Message>, m: Message)
    requires DistinctEventIds(outbox) && FreshRecord(outbox, m)
    ensures DistinctEventIds(outbox + [m])
  {
    var o := outbox + [m];
    forall i, j | 0 <= i < j < |o| ensures MessageEventId(o[i]) != MessageEventId(o[j]) {
      if j == |outbox| {
        assert o[i] in outbox;
      } else {
        assert o[i] == outbox[i] && o[j] == outbox[j];
      }
    }
  }

  /** Inserting a new row under the next id and then sending a fresh record keeps the invariant,
      with the clock at the later reading `last`. */
  lemma InsertKeepsConsistent(rows: map<int, User>, nextId: int, clock: Instant, outbox: seq<Message>, trace: seq<Effect>,
                              u: User, now: Instant, last: Instant, m: Message)
    requires Consistent(rows, nextId, clock, outbox, trace)
    requires now > clock && last >= now
    requires u.id == Some(nextId) && u.createdAt == Some(now) && u.updatedAt == Some(now)
    requires !(u.email.Some? && EmailHeld(rows, u.email))
    requires FreshRecord(outbox, m)
    ensures nextId !in rows
    ensures Consistent(rows[nextId := u], nextId + 1, last, outbox + [m], trace + [Inserted(nextId), Sent(m)])
  {
    var rows' := rows[nextId := u];
    forall a, b | a in rows' && b in rows' && a != b && rows'[a].email.Some? ensures rows'[a].email != rows'[b].email {
      if a == nextId {
        assert rows'[b] == rows[b];
      } else if b == nextId {
        assert rows'[a] == rows[a];
      }
    }
    forall k | k in rows' ensures StoredRow(k, rows'[k], nextId + 1, last) {
      if k != nextId {
        assert StoredRow(k, rows[k], nextId, clock);
      }
    }
    SentMessagesAppend(trace, Inserted(nextId));
    SentMessagesAppend(trace + [Inserted(nextId)], Sent(m));
    assert trace + [Inserted(nextId)] + [Sent(m)] == trace + [Inserted(nextId), Sent(m)];
    SendKeepsDistinct(outbox, m);
  }

  /** Deleting a row and then sending a fresh record keeps the invariant. */
  lemma DeleteKeepsConsistent(rows: map<int, User>, nextId: int, clock: Instant, outbox: seq<Message>, trace: seq<Effect>,
                              id: int, now: Instant, m: Message)
    requires Consistent(rows, nextId, clock, outbox, trace)
    requires now > clock
    requires FreshRecord(outbox, m)
    ensures Consistent(rows - {id}, nextId, now, outbox + [m], trace + [Removed(id), Sent(m)])
  {
    var rows' := rows - {id};
    forall k | k in rows' ensures StoredRow(k, rows'[k], nextId, now) {
      assert StoredRow(k, rows[k], nextId, clock);
    }
    SentMessagesAppend(trace, Removed(id));
    SentMessagesAppend(trace + [Removed(id)], Sent(m));
    assert trace + [Removed(id)] + [Sent(m)] == trace + [Removed(id), Sent(m)];
    SendKeepsDistinct(outbox, m);
  }

  /** Saving an updated row that clashes with no other email keeps the invariant. */
  lemma SaveKeepsConsistent(rows: map<int, User>, nextId: int, clock: Instant, outbox: seq<Message>, trace: seq<Effect>,
                            id: int, dto: UserUpdateDto, now: Instant)
    requires Consistent(rows, nextId, clock, outbox, trace)
    requires now > clock
    requires id in rows && !Clash(rows, id, Update(dto, rows[id]))
    ensures Consistent(rows[id := AfterSave(rows[id], dto, now)], nextId, now, outbox, trace + [Saved(id)])
  {
    var u := AfterSave(rows[id], dto, now);
    if Update(dto, rows[id]) != rows[id] {
      AfterSaveStamps(rows[id], dto, now);
    }
    var rows' := rows[id := u];
    forall k | k in rows' ensures StoredRow(k, rows'[k], nextId, now) {
      assert StoredRow(k, rows[k], nextId, clock);
    }
    forall a, b | a in rows' && b in rows' && a != b && rows'[a].email.Some? ensures rows'[a].email != rows'[b].email {
      if a == id {
        assert rows'[b] == rows[b];
      } else if b == id {
        assert rows'[a] == rows[a];
      }
    }
    SentMessagesAppend(trace, Saved(id));
  }

  /** The record `createUser` sends: a `UserCreatedEvent` built from the response's fields,
      keyed by the new id. */
  method CreatedRecord(result: UserDto, eventId: string, now: Instant) returns (m: Message)
    requires result.id.Some?
    ensures MessageEventId(m) == Some(eventId)
    ensures m == Message(CreatedTopic, IntToString(result.id.value), Created(UserCreatedEvent(
      Some(eventId), Some(now), result.id, result.name, result.email, result.age, result.createdAt)))
  {
    var b := new CreatedEventBuilder();
    b := b.Id(result.id);
    b := b.Name(result.name);
    b := b.Email(result.email);
    b := b.Age(result.age);
    b := b.CreatedAt(result.createdAt);
    var event := b.Build(eventId, now);
    m := Message(CreatedTopic, IntToString(result.id.value), Created(event));
  }

  /** The record `deleteUser` sends: a `UserDeletedEvent` built from the row's id and email,
      keyed by the id. */
  method DeletedRecord(user: User, eventId: string, now: Instant) returns (m: Message)
    requires user.id.Some?
    ensures MessageEventId(m) == Some(eventId)
    ensures m == Message(DeletedTopic, IntToString(user.id.value), Deleted(UserDeletedEvent(
      Some(eventId), Some(now), user.id, user.email)))
  {
    var b := new DeletedEventBuilder();
    b := b.Id(user.id);
    b := b.Email(user.email);
    var event := b.Build(eventId, now);
    m := Message(DeletedTopic, IntToString(user.id.value), Deleted(event));
  }

  /** The service over its table and transport. */
  class UserRegistry {
    /** The `users` table by id. */
    var rows: map<int, User>
    /** The next value of the identity column. */
    var nextId: int
    /** The latest time the service has read from the clock. */
    var clock: Instant
    /** The records handed to `kafkaTemplate.send`, in order. */
    var outbox: seq<Message>
    /** Every table write and every send, in order. */
    ghost var trace: seq<Effect>

    ghost predicate Valid()
      reads this
    {
      Consistent(rows, nextId, clock, outbox, trace)
    }

    /** An empty table, nothing sent yet. */
    constructor(start: Instant)
      ensures Valid()
      ensures rows == map[] && nextId == 1 && clock == start && outbox == [] && trace == []
    {
      rows, nextId, clock, outbox, trace := map[], 1, start, [], [];
    }

    /** `findUser`: the row's response, or NotFound for an id the table lacks. */
    method FindUser(id: int) returns (r: Result<UserDto, Exception>)
      requires Valid()
      ensures r.Success? <==> id in rows
      ensures r.Success? ==> r.value == ToDto(rows[id]) && r.value.id == Some(id)
      ensures r.Failure? ==> r.error == NotFoundById(id)
    {
      if id in rows {
        r := Success(ToDto(rows[id]));
      } else {
        r := Failure(NotFoundById(id));
      }
    }

    /** `findAllUsers`: one page of the filtered, sorted table. Every response on it is a stored
        row the specification accepts. */
    method FindAllUsers(params: UserParams) returns (r: Result<seq<UserDto>, Exception>)
      requires Valid()
      ensures r == Query(Table(rows, nextId), params)
      ensures r.Success? ==> forall i :: 0 <= i < |r.value| ==>
        exists u :: u in rows.Values && Build(params, u) && r.value[i] == ToDto(u)
    {
      var table := Table(rows, nextId);
      r := Query(table, params);
      if r.Success? {
        QueryContents(table, params);
        TableContents(rows, nextId, clock);
      }
    }

    /** `existsByEmailOrThrowException`. */
    method ExistsByEmailOrThrowException(email: Option<string>) returns (r: Outcome<Exception>)
      ensures r.Pass? <==> EmailHeld(rows, email)
      ensures r == EmailCheck(rows, email)
    {
      r := EmailCheck(rows, email);
    }

    /** `createUser`: inserts the payload under the next id with both audit timestamps set to
        `now`, then sends a `UserCreatedEvent` of the stored row keyed by its id. The event
        reads the clock again when it is built: its timestamp is `eventTime`, no earlier than
        the row's `createdAt` and possibly later. A payload whose email another row holds is rejected by the
        store and nothing happens. */
    method CreateUser(dto: UserCreateDto, now: Instant, eventTime: Instant, eventId: string) returns (r: Result<UserDto, Exception>)
      requires Valid()
      requires now > clock && eventTime >= now
      requires forall m :: m in outbox ==> MessageEventId(m) != Some(eventId)
      modifies this
      ensures Valid()
      ensures r.Failure? <==> dto.email.Some? && EmailHeld(old(rows), dto.email)
      ensures r.Failure? ==> r.error == UniqueViolation && unchanged(this)
      ensures r.Success? ==>
        var id := old(nextId);
        var u := User(Some(id), dto.name, dto.email, dto.age, Some(now), Some(now));
        && id !in old(rows)
        && rows == old(rows)[id := u]
        && nextId == id + 1 && clock == eventTime
        && r.value == ToDto(u)
        && outbox == old(outbox) + [Message(CreatedTopic, IntToString(id), Created(UserCreatedEvent(
             Some(eventId), Some(eventTime), r.value.id, r.value.name, r.value.email, r.value.age, r.value.createdAt)))]
        && trace == old(trace) + [Inserted(id), Sent(outbox[|outbox| - 1])]
    {
      if dto.email.Some? && EmailHeld(rows, dto.email) {
        r := Failure(UniqueViolation);
        return;
      }
      var id := nextId;
      var saved := FromCreateDto(dto).(id := Some(id), createdAt := Some(now), updatedAt := Some(now));
      var result := ToDto(saved);
      var message := CreatedRecord(result, eventId, eventTime);
      InsertKeepsConsistent(rows, nextId, clock, outbox, trace, saved, now, eventTime, message);

      rows := rows[id := saved];
      nextId := nextId + 1;
      clock := eventTime;
      trace := trace + [Inserted(id)];
      outbox := outbox + [message];
      trace := trace + [Sent(message)];
      r := Success(result);
    }

    /** `updateUser`: applies the partial update to the row and saves it; no record is sent. An
        unknown id and an email another row holds leave everything as it was. */
    method UpdateUser(id: int, dto: UserUpdateDto, now: Instant) returns (r: Result<UserDto, Exception>)
      requires Valid()
      requires now > clock
      modifies this
      ensures Valid()
      ensures id !in old(rows) ==> r == Failure(NotFoundById(id)) && unchanged(this)
      ensures id in old(rows) && Clash(old(rows), id, Update(dto, old(rows)[id])) ==>
        r == Failure(UniqueViolation) && unchanged(this)
      ensures r.Success? <==> id in old(rows) && !Clash(old(rows), id, Update(dto, old(rows)[id]))
      ensures r.Success? ==>
        var u := AfterSave(old(rows)[id], dto, now);
        && rows == old(rows)[id := u]
        && r.value == ToDto(u) && r.value.id == Some(id)
        && nextId == old(nextId) && clock == now
        && outbox == old(outbox)
        && trace == old(trace) + [Saved(id)]
    {
      if id !in rows {
        r := Failure(NotFoundById(id));
        return;
      }
      var user := rows[id];
      var updated := Update(dto, user);
      if Clash(rows, id, updated) {
        r := Failure(UniqueViolation);
        return;
      }
      var saved := AfterSave(user, dto, now);
      SaveKeepsConsistent(rows, nextId, clock, outbox, trace, id, dto, now);
      rows := rows[id := saved];
      clock := now;
      trace := trace + [Saved(id)];
      r := Success(ToDto(saved));
    }

    /** `deleteUser`: builds a `UserDeletedEvent` from the row, deletes the row, and only then
        sends the event keyed by the id. An unknown id deletes and sends nothing. */
    method DeleteUser(id: int, now: Instant, eventId: string) returns (r: Outcome<Exception>)
      requires Valid()
      requires now > clock
      requires forall m :: m in outbox ==> MessageEventId(m) != Some(eventId)
      modifies this
      ensures Valid()
      ensures r.Fail? <==> id !in old(rows)
      ensures r.Fail? ==> r.error == NotFoundById(id) && unchanged(this)
      ensures r.Pass? ==>
        && rows == old(rows) - {id}
        && nextId == old(nextId) && clock == now
        && outbox == old(outbox) + [Message(DeletedTopic, IntToString(id), Deleted(UserDeletedEvent(
             Some(eventId), Some(now), Some(id), old(rows)[id].email)))]
        && trace == old(trace) + [Removed(id), Sent(outbox[|outbox| - 1])]
    {
      if id !in rows {
        r := Fail(NotFoundById(id));
        return;
      }
      var user := rows[id];
      var message := DeletedRecord(user, eventId, now);
      DeleteKeepsConsistent(rows, nextId, clock, outbox, trace, id, now, message);

      rows := rows - {id};
      clock := now;
      trace := trace + [Removed(id)];
      outbox := outbox + [message];
      trace := trace + [Sent(message)];
      r := Pass;
    }
  }
}
