# User registry with event outbox — a Dafny model

This project models the core of a pair of Spring Boot microservices: a **user service** that
keeps a `users` table and publishes Kafka events, and an **email-notification service** that asks
the user service whether an email belongs to a user.

What is modelled, module by module:

- `Users`, `Payloads`, `Mapper` — the `User` entity (id-only `equals`/`hashCode`, audit
  timestamps), the create and update payloads with their bean-validation constraints as
  predicates, and the MapStruct conversions, the partial `update` among them.
- `Params`, `Specification`, `Sorting` — the query side of `GET /api/users`: the filter
  predicate built from the optional parameters, the page request, the `ORDER BY` and the page
  slice.
- `Events` — the `UserCreatedEvent` and `UserDeletedEvent` envelopes, their fluent builders (as
  classes whose setters update fields in place and return the builder), `equals` on the event id
  and `hashCode` in 32-bit arithmetic.
- `Registry` — the user service `UserService` as a class `UserRegistry` holding the table
  (`map<int, User>`), the identity counter, the clock it has read, and the outbox of records
  handed to `kafkaTemplate.send`, plus a ghost trace of every table write and send in order.
  Its invariant: every row is a persisted row keyed by its id, emails are unique, and the outbox
  is exactly the sends of the trace, each with its own event id. Also `EmailServiceImpl.send`.
- `Handler` — the user service `GlobalExceptionHandler` and the dispatch of an exception to it.
- `EmailNotification` — the Feign error decoder, the circuit-breaker fallback, `checkEmail`,
  the email service's own handler, and the round trip between the two services.
- `Text`, `Wrappers`, `Exceptions` — `String.trim`, `toLowerCase`, `contains`, lexicographic
  order and `Long.toString`; Option/Result/Outcome for nulls and exceptions; the exception
  classes the handlers tell apart.
- `Scenarios` — whole request flows: a create/duplicate/delete/delete lifecycle and the HTTP
  answers for a duplicate email and a missing id.

Nulls are `Option`; a thrown exception is the failure case of `Result` or `Outcome`.
`UUID.randomUUID()` and `LocalDateTime.now()` are parameters: the caller supplies an event id no
earlier record used and a time later than any the service has read. The creation event reads the
clock a second time, after the audit stamps of the saved row, and takes its own time parameter,
no earlier than the first, for that reading. Page, size and the two sort strings of the query object may be null.

## Model

| member | source | states |
|---|---|---|
| Text.TrimStart | UserService/src/main/java/com/artemyakkonen/aston_spring_boot/specification/UserSpecification.java:45 | the result is a suffix of the input, does not start with a character of code at most U+0020, and only such characters were dropped |
| Text.TrimEnd | UserService/src/main/java/com/artemyakkonen/aston_spring_boot/specification/UserSpecification.java:45 | the result is a prefix of the input, does not end with such a character, and only such characters were dropped |
| Text.TrimIsInfix | UserService/src/main/java/com/artemyakkonen/aston_spring_boot/specification/UserSpecification.java:45 | `trim` yields a contiguous piece of the input with no trimmable character at either end; it is empty exactly when every character is trimmable |
| Text.TrimIdempotent | UserService/src/main/java/com/artemyakkonen/aston_spring_boot/specification/UserSpecification.java:45 | trimming twice is trimming once |
| Text.Trim | UserService/src/main/java/com/artemyakkonen/aston_spring_boot/specification/UserSpecification.java:45 | `String.trim`: by TrimStart and TrimEnd, the leading and trailing characters of code at most U+0020 are dropped (TrimIsInfix) |
| Text.Lower | user-service/src/main/java/com/artemyakkonen/aston_spring_boot/handler/GlobalExceptionHandler.java:85-87 | A-Z and the Cyrillic capitals U+0410-U+042F move up by 32, U+0400-U+040F by 80, every other character is kept |
| Text.JavaWhitespace | user-service/src/main/java/com/artemyakkonen/aston_spring_boot/dto/UserParamsDTO.java:63-66 | `Character.isWhitespace`: space, U+0009-U+000D, U+001C-U+001F and the Unicode space, line and paragraph separators other than the no-break spaces |
| Text.HasText | user-service/src/main/java/com/artemyakkonen/aston_spring_boot/dto/UserParamsDTO.java:63-66 | `StringUtils.hasText`: some character is not whitespace |
| Text.ToLower | UserService/src/main/java/com/artemyakkonen/aston_spring_boot/specification/UserSpecification.java:45 | same length; each character is mapped by `Lower` (A-Z and Cyrillic capitals to lower case, all else kept) |
| Text.ToLowerIdempotent | user-service/src/main/java/com/artemyakkonen/aston_spring_boot/handler/GlobalExceptionHandler.java:85-87 | lower-casing twice is lower-casing once |
| Text.ContainsAt | user-service/src/main/java/com/artemyakkonen/aston_spring_boot/handler/GlobalExceptionHandler.java:85-87 | `contains` holds exactly when the needle occurs at some index of the haystack |
| Text.ContainsEmpty | UserService/src/main/java/com/artemyakkonen/aston_spring_boot/specification/UserSpecification.java:45 | the empty needle is contained in every string |
| Text.Contains | user-service/src/main/java/com/artemyakkonen/aston_spring_boot/handler/GlobalExceptionHandler.java:85-87 | `String.contains`: characterised by ContainsAt and ContainsEmpty |
| Text.StrLeTotal | user-service/src/main/java/com/artemyakkonen/aston_spring_boot/dto/UserParamsDTO.java:63-66 | lexicographic order by character code is total |
| Text.StrLeTransitive | user-service/src/main/java/com/artemyakkonen/aston_spring_boot/dto/UserParamsDTO.java:63-66 | lexicographic order is transitive |
| Text.NatToString | user-service/src/main/java/com/artemyakkonen/aston_spring_boot/service/UserService.java:62 | `Long.toString` of a non-negative id: non-empty, decimal digits only, no leading zero |
| Text.NatToStringRoundTrip | user-service/src/main/java/com/artemyakkonen/aston_spring_boot/service/UserService.java:62 | reading the decimal key back yields the id: the record key identifies the user |
| Text.NatToStringInjective | user-service/src/main/java/com/artemyakkonen/aston_spring_boot/service/UserService.java:98 | different ids give different record keys |
| Text.Utf16Length | user-service/src/main/java/com/artemyakkonen/aston_spring_boot/dto/UserCreateDTO.java:18-23 | `String.length()` counts UTF-16 code units: at least the number of characters and at most twice it, equal to it exactly when every character lies in the Basic Multilingual Plane |
| Text.Utf16LengthSupplementary | user-service/src/main/java/com/artemyakkonen/aston_spring_boot/dto/UserCreateDTO.java:18 | a string of characters outside the Basic Multilingual Plane is twice as long in UTF-16 as in characters |
| Users.NewUser | user-service/src/main/java/com/artemyakkonen/aston_spring_boot/model/User.java:51-56 | the four-argument constructor sets id, name, email and age and leaves both audit timestamps null |
| Users.SameUserIsEquivalence | user-service/src/main/java/com/artemyakkonen/aston_spring_boot/model/User.java:21-33 | id-only `equals` is reflexive, symmetric and transitive |
| Users.SameUser | user-service/src/main/java/com/artemyakkonen/aston_spring_boot/model/User.java:21-33 | Lombok `equals` with only the id included: two users are equal exactly when their ids are, both null included |
| Users.Wrap32 | user-service/src/main/java/com/artemyakkonen/aston_spring_boot/model/User.java:21-33 | Java `int` overflow: result is a 32-bit value congruent to the input modulo 2^32, and an in-range value is kept |
| Users.LongHash | user-service/src/main/java/com/artemyakkonen/aston_spring_boot/model/User.java:32-33 | `Long.hashCode` of a 64-bit id is a 32-bit value |
| Users.UserHash | user-service/src/main/java/com/artemyakkonen/aston_spring_boot/model/User.java:21-33 | Lombok `hashCode` over the id alone is a 32-bit value |
| Users.SameUserSameHash | user-service/src/main/java/com/artemyakkonen/aston_spring_boot/model/User.java:21-33 | equal users (same id) have equal hash codes whatever their other columns hold |
| Payloads.LastAt | user-service/src/main/java/com/artemyakkonen/aston_spring_boot/dto/UserCreateDTO.java:22 | index of the last @ (or -1): it is an @ and no @ follows it |
| Payloads.NotBlank | user-service/src/main/java/com/artemyakkonen/aston_spring_boot/dto/UserCreateDTO.java:17 | `@NotBlank`: `trim` leaves at least one character |
| Payloads.EmailShaped | user-service/src/main/java/com/artemyakkonen/aston_spring_boot/dto/UserCreateDTO.java:22 | `@Email`: empty, or a non-empty local part and domain around the last @ |
| Payloads.ValidCreate | user-service/src/main/java/com/artemyakkonen/aston_spring_boot/dto/UserCreateDTO.java:16-30 | name required, not blank and at most 15 UTF-16 units; email optional, email-shaped and at most 30 units; age required within 1..150 |
| Payloads.ValidUpdate | UserService/src/main/java/com/artemyakkonen/aston_spring_boot/dto/UserUpdateDTO.java:23-47 | each supplied field meets the same constraint as in a create payload; a field the client left out is not checked |
| Payloads.CreateIsCompleteUpdate | user-service/src/main/java/com/artemyakkonen/aston_spring_boot/dto/UserCreateDTO.java:16-30 | a create payload is valid exactly when it supplies a name and an age and, read as an update supplying every field it has, it is a valid update |
| Payloads.SupplementaryNameTooLong | user-service/src/main/java/com/artemyakkonen/aston_spring_boot/dto/UserCreateDTO.java:18 | a name of eight emoji is eight characters yet sixteen UTF-16 units, and `@Size(max = 15)` rejects it |
| Payloads.UpdateValiditySubsets | UserService/src/main/java/com/artemyakkonen/aston_spring_boot/dto/UserUpdateDTO.java:16-47 | the empty update is valid and dropping supplied fields from a valid update keeps it valid: omitted fields are not checked |
| Payloads.RejectedCreateExample | user-service/src/main/java/com/artemyakkonen/aston_spring_boot/dto/UserCreateDTO.java:17-30 | name "" with email "invalid-email" and age 200 breaks the name, email and age constraints |
| Payloads.RejectedUpdateExample | UserService/src/main/java/com/artemyakkonen/aston_spring_boot/dto/UserUpdateDTO.java:23-47 | an update supplying name "" or age 200 is invalid |
| Payloads.AcceptedPartialUpdateExample | UserService/src/main/java/com/artemyakkonen/aston_spring_boot/dto/UserUpdateDTO.java:23-47 | an update supplying only a good name, or only a good age, is valid |
| Mapper.FromCreateDto | user-service/src/main/java/com/artemyakkonen/aston_spring_boot/mapper/UserMapper.java:21 | `map(UserCreateDTO)` copies name, email and age; id and both timestamps stay null |
| Mapper.ValidCreateRow | user-service/src/main/java/com/artemyakkonen/aston_spring_boot/mapper/UserMapper.java:21 | a payload that passed validation maps to a row with a present, non-blank name of at most 15 units, an email-shaped email of at most 30 units if any, and an age within 1..150 |
| Mapper.ToDto | user-service/src/main/java/com/artemyakkonen/aston_spring_boot/mapper/UserMapper.java:22 | `map(User)` copies id, name, email, age and createdAt |
| Mapper.ToDtoIgnoresUpdatedAt | user-service/src/main/java/com/artemyakkonen/aston_spring_boot/mapper/UserMapper.java:22 | the response does not depend on `updatedAt` |
| Mapper.Update | user-service/src/main/java/com/artemyakkonen/aston_spring_boot/mapper/UserMapper.java:13-24 | `update` never changes id, createdAt or updatedAt |
| Mapper.UpdateFieldwise | user-service/src/main/java/com/artemyakkonen/aston_spring_boot/mapper/UserMapper.java:13-24 | each supplied field overwrites, each omitted field is kept |
| Mapper.UpdateNothingIsIdentity | user-service/src/main/java/com/artemyakkonen/aston_spring_boot/mapper/UserMapper.java:23-24 | an update supplying no field is the identity |
| Mapper.UpdateIdempotent | user-service/src/main/java/com/artemyakkonen/aston_spring_boot/mapper/UserMapper.java:23-24 | applying the same update twice equals applying it once |
| Mapper.UpdateComposes | user-service/src/main/java/com/artemyakkonen/aston_spring_boot/mapper/UserMapper.java:23-24 | two updates in a row equal one update taking each field from the later payload when it supplies one |
| Mapper.FromUsers | user-service/src/main/java/com/artemyakkonen/aston_spring_boot/mapper/UserMapper.java:25 | `fromUsers` has the same length and its i-th element is `map` of the i-th user |
| Mapper.FromUsersAppend | user-service/src/main/java/com/artemyakkonen/aston_spring_boot/mapper/UserMapper.java:25 | mapping a concatenation is the concatenation of the mappings |
| Params.Defaults | user-service/src/main/java/com/artemyakkonen/aston_spring_boot/dto/UserParamsDTO.java:39-61 | a fresh parameter object has no filter, page 0, size 20, sortBy "createdAt", direction "desc" |
| Params.DefaultsAreValid | user-service/src/main/java/com/artemyakkonen/aston_spring_boot/dto/UserParamsDTO.java:50-61 | the defaults satisfy every declared constraint |
| Params.ValidSortDirection | user-service/src/main/java/com/artemyakkonen/aston_spring_boot/dto/UserParamsDTO.java:59-61 | "asc" or "desc" in any letter case |
| Params.ValidParams | user-service/src/main/java/com/artemyakkonen/aston_spring_boot/dto/UserParamsDTO.java:24-61 | the declared constraints: a set ageGt or ageLt is positive, a non-null sortBy is one of five names, a non-null direction is asc or desc; a null sortBy or direction passes, as `@Pattern` accepts null; page and size carry none |
| Params.ParseDirection | user-service/src/main/java/com/artemyakkonen/aston_spring_boot/dto/UserParamsDTO.java:59-66 | the direction parses exactly when it is asc or desc in any letter case, the same test as the pattern constraint |
| Params.Decapitalize | user-service/src/main/java/com/artemyakkonen/aston_spring_boot/dto/UserParamsDTO.java:63-66 | the sort property as the store reads it: same length and tail, first letter lower-cased unless the second letter is a capital too |
| Params.ResolveSortField | user-service/src/main/java/com/artemyakkonen/aston_spring_boot/dto/UserParamsDTO.java:63-66 | the entity property the sort names after decapitalisation, or none; characterised by ValidSortByResolves |
| Params.ValidSortByResolves | user-service/src/main/java/com/artemyakkonen/aston_spring_boot/dto/UserParamsDTO.java:50-52 | every name the sortBy pattern admits resolves to a `User` property other than updatedAt; the store resolves exactly the six property names, also with a capital first letter |
| Params.SortOf | user-service/src/main/java/com/artemyakkonen/aston_spring_boot/dto/UserParamsDTO.java:65 | `Sort.by(fromString(direction), sortBy)` succeeds iff the direction is non-null and valid and sortBy is non-null with text, parsing the direction first; a null direction fails with "Invalid value 'null' …"; a null or blank property after a valid direction fails with "Property must not be null or empty"; every failure is IllegalArgument |
| Params.ToPageable | user-service/src/main/java/com/artemyakkonen/aston_spring_boot/dto/UserParamsDTO.java:63-66 | fails with the `NullPointerException` of unboxing when page, then size, is null; otherwise succeeds iff the direction is non-null and valid, sortBy is non-null with a non-whitespace character, page >= 0 and size >= 1, and then carries page, size, sortBy and the parsed direction; a null direction fails with "Invalid value 'null' …"; a valid direction with a null or blank sortBy fails with "Property must not be null or empty"; with both numbers present every failure is IllegalArgument |
| Params.BlankSortByRefused | user-service/src/main/java/com/artemyakkonen/aston_spring_boot/dto/UserParamsDTO.java:63-66 | a blank sortBy with a negative page fails on the property, not on the page |
| Params.NullPageRefusedFirst | user-service/src/main/java/com/artemyakkonen/aston_spring_boot/dto/UserParamsDTO.java:64 | a null page with an invalid direction fails on the null page: unboxing precedes parsing |
| Params.NullSortPassesValidationButFails | user-service/src/main/java/com/artemyakkonen/aston_spring_boot/dto/UserParamsDTO.java:50-66 | a null sortBy, or a null direction, passes validation and still makes `toPageable` fail, with "Property must not be null or empty" and "Invalid value 'null' …" respectively |
| Params.CapitalisedSortBy | user-service/src/main/java/com/artemyakkonen/aston_spring_boot/dto/UserParamsDTO.java:63-66 | sortBy "Name" sorts on the name, "NAME" resolves to nothing |
| Params.DefaultPageable | user-service/src/main/java/com/artemyakkonen/aston_spring_boot/dto/UserParamsDTO.java:39-66 | the defaults give page 0 of 20 sorted on createdAt descending |
| Params.PageOf | user-service/src/main/java/com/artemyakkonen/aston_spring_boot/dto/UserParamsDTO.java:63-66 | the page holds at most `size` rows, entry k being row page*size+k; it is full when enough rows follow and empty past the end |
| Params.PageHoldsRow | user-service/src/main/java/com/artemyakkonen/aston_spring_boot/dto/UserParamsDTO.java:63-66 | every row i lies on page i/size at position i%size, and that page is below the page count |
| Params.PagingExample | user-service/src/main/java/com/artemyakkonen/aston_spring_boot/dto/UserParamsDTO.java:63-66 | three rows in pages of two: page 0 holds the first two, page 1 the third, two pages in all |
| Specification.NoFilterAcceptsAll | UserService/src/main/java/com/artemyakkonen/aston_spring_boot/specification/UserSpecification.java:12-45 | with every filter field null, every row is accepted |
| Specification.WithCreatedAtGt | UserService/src/main/java/com/artemyakkonen/aston_spring_boot/specification/UserSpecification.java:21-24 | no bound accepts every row; a bound accepts rows whose createdAt is set and strictly later |
| Specification.WithCreatedAtLt | UserService/src/main/java/com/artemyakkonen/aston_spring_boot/specification/UserSpecification.java:26-29 | no bound accepts every row; a bound accepts rows whose createdAt is set and strictly earlier |
| Specification.WithAgeGt | UserService/src/main/java/com/artemyakkonen/aston_spring_boot/specification/UserSpecification.java:31-34 | no bound accepts every row; a bound accepts rows whose age is set and strictly greater |
| Specification.WithAgeLt | UserService/src/main/java/com/artemyakkonen/aston_spring_boot/specification/UserSpecification.java:36-39 | no bound accepts every row; a bound accepts rows whose age is set and strictly smaller |
| Specification.WithNameCont | UserService/src/main/java/com/artemyakkonen/aston_spring_boot/specification/UserSpecification.java:42-46 | no filter accepts every row; a filter accepts rows whose lower-cased name contains the trimmed, lower-cased filter |
| Specification.Build | UserService/src/main/java/com/artemyakkonen/aston_spring_boot/specification/UserSpecification.java:12-18 | the conjunction of the five field predicates |
| Specification.BuildIsConjunction | UserService/src/main/java/com/artemyakkonen/aston_spring_boot/specification/UserSpecification.java:12-18 | clearing a filter field never loses a match, and the predicate is the conjunction of the five single-field predicates |
| Specification.BoundsAreStrict | UserService/src/main/java/com/artemyakkonen/aston_spring_boot/specification/UserSpecification.java:21-39 | a row whose age or createdAt equals a bound is rejected by it |
| Specification.Filter | UserService/src/main/java/com/artemyakkonen/aston_spring_boot/specification/UserSpecification.java:12-46 | the filtered rows are no more than the input and each satisfies the predicate |
| Specification.FilterExact | UserService/src/main/java/com/artemyakkonen/aston_spring_boot/specification/UserSpecification.java:12-18 | a row is in the result iff it is in the input and accepted; accepted rows keep their multiplicity |
| Specification.FilterNoFilter | UserService/src/main/java/com/artemyakkonen/aston_spring_boot/specification/UserSpecification.java:12-46 | without filter fields the filter returns the input unchanged |
| Specification.AgeFilterExample | UserService/src/main/java/com/artemyakkonen/aston_spring_boot/specification/UserSpecification.java:31-34 | ageGt 26 over ages 25, 28 and 35 keeps 28 and 35 |
| Specification.NameFilterIgnoresPadding | UserService/src/main/java/com/artemyakkonen/aston_spring_boot/specification/UserSpecification.java:42-46 | padding the name filter with whitespace does not change which rows match |
| Specification.TrimLower | UserService/src/main/java/com/artemyakkonen/aston_spring_boot/specification/UserSpecification.java:45 | trimming and lower-casing commute |
| Specification.NameFilterIgnoresCase | UserService/src/main/java/com/artemyakkonen/aston_spring_boot/specification/UserSpecification.java:42-46 | the letter case of the filter and of the stored name does not matter |
| Specification.BlankNameFilter | UserService/src/main/java/com/artemyakkonen/aston_spring_boot/specification/UserSpecification.java:42-46 | a filter that trims to empty accepts exactly the rows with a non-null name |
| Specification.NameFilterExample | UserService/src/main/java/com/artemyakkonen/aston_spring_boot/specification/UserSpecification.java:42-46 | filter "john doe" matches the stored name "John Doe" |
| Sorting.InOrderTotal | user-service/src/main/java/com/artemyakkonen/aston_spring_boot/dto/UserParamsDTO.java:63-66 | any two rows are ordered one way or the other on every sort field and direction (a null column counts as larger than every value) |
| Sorting.InOrderTransitive | user-service/src/main/java/com/artemyakkonen/aston_spring_boot/dto/UserParamsDTO.java:63-66 | the sort order is transitive |
| Sorting.Insert | user-service/src/main/java/com/artemyakkonen/aston_spring_boot/dto/UserParamsDTO.java:63-66 | insertion adds exactly the new row to the multiset of rows |
| Sorting.SortRows | user-service/src/main/java/com/artemyakkonen/aston_spring_boot/dto/UserParamsDTO.java:63-66 | sorting keeps the multiset of rows |
| Sorting.InsertSorted | user-service/src/main/java/com/artemyakkonen/aston_spring_boot/dto/UserParamsDTO.java:63-66 | inserting into a sorted sequence keeps it sorted |
| Sorting.SortRowsSorted | user-service/src/main/java/com/artemyakkonen/aston_spring_boot/dto/UserParamsDTO.java:63-66 | the sorted rows are in the requested order: each precedes every later one |
| Sorting.SortRowsPermutes | user-service/src/main/java/com/artemyakkonen/aston_spring_boot/dto/UserParamsDTO.java:63-66 | sorting is a permutation: same multiset, same length, same members |
| Sorting.SortByNameExample | user-service/src/main/java/com/artemyakkonen/aston_spring_boot/dto/UserParamsDTO.java:63-66 | sorting John Doe, Jane Smith, Bob Johnson by name ascending, page 0 of size 2 is Bob Johnson then Jane Smith, out of 2 pages |
| Events.EmptyCreatedEvent | core/src/main/java/com/artemyakkonen/core/UserCreatedEvent.java:16-17 | the no-argument constructor leaves every field null |
| Events.EmptyDeletedEvent | core/src/main/java/com/artemyakkonen/core/UserDeletedEvent.java:13-14 | the no-argument constructor leaves every field null |
| Events.CreatedEventBuilder.constructor | core/src/main/java/com/artemyakkonen/core/UserCreatedEvent.java:45-47 | a new builder holds no payload |
| Events.CreatedEventBuilder.Id | core/src/main/java/com/artemyakkonen/core/UserCreatedEvent.java:56-59 | sets the id, keeps the other fields, returns the same builder |
| Events.CreatedEventBuilder.Name | core/src/main/java/com/artemyakkonen/core/UserCreatedEvent.java:61-64 | sets the name, keeps the other fields, returns the same builder |
| Events.CreatedEventBuilder.Email | core/src/main/java/com/artemyakkonen/core/UserCreatedEvent.java:66-69 | sets the email, keeps the other fields, returns the same builder |
| Events.CreatedEventBuilder.Age | core/src/main/java/com/artemyakkonen/core/UserCreatedEvent.java:71-74 | sets the age, keeps the other fields, returns the same builder |
| Events.CreatedEventBuilder.CreatedAt | core/src/main/java/com/artemyakkonen/core/UserCreatedEvent.java:76-79 | sets createdAt, keeps the other fields, returns the same builder |
| Events.CreatedEventBuilder.Build | core/src/main/java/com/artemyakkonen/core/UserCreatedEvent.java:19-27 | the event carries the builder payload unchanged under the given fresh event id and timestamp |
| Events.DeletedEventBuilder.constructor | core/src/main/java/com/artemyakkonen/core/UserDeletedEvent.java:33-35 | a new builder holds no id and no email |
| Events.DeletedEventBuilder.Id | core/src/main/java/com/artemyakkonen/core/UserDeletedEvent.java:41-44 | sets the id, keeps the email, returns the same builder |
| Events.DeletedEventBuilder.Email | core/src/main/java/com/artemyakkonen/core/UserDeletedEvent.java:46-49 | sets the email, keeps the id, returns the same builder |
| Events.DeletedEventBuilder.Build | core/src/main/java/com/artemyakkonen/core/UserDeletedEvent.java:16-21 | the event carries the builder id and email under the given fresh event id and timestamp |
| Events.StringHash | core/src/main/java/com/artemyakkonen/core/UserCreatedEvent.java:94-97 | `String.hashCode` is a 32-bit value |
| Events.StringHashIsPolynomial | core/src/main/java/com/artemyakkonen/core/UserCreatedEvent.java:94-97 | `String.hashCode` equals the polynomial hash in unbounded arithmetic reduced once to 32 bits |
| Events.ObjectsHash | core/src/main/java/com/artemyakkonen/core/UserCreatedEvent.java:94-97 | `Objects.hash` of one value is a 32-bit value, 31 for null |
| Events.CreatedEqualsContract | core/src/main/java/com/artemyakkonen/core/UserCreatedEvent.java:86-92 | equals is reflexive, symmetric, transitive, false against null and other classes, and true iff the event ids are equal |
| Events.DeletedEqualsContract | core/src/main/java/com/artemyakkonen/core/UserDeletedEvent.java:56-62 | the same for the deletion event |
| Events.EqualityIgnoresPayload | core/src/main/java/com/artemyakkonen/core/UserCreatedEvent.java:86-92 | events differing only in event id are unequal; any two payloads under the same event id are equal |
| Events.EqualEventsEqualHash | core/src/main/java/com/artemyakkonen/core/UserCreatedEvent.java:86-97 | equal events have equal hash codes |
| Events.CreatedEquals | core/src/main/java/com/artemyakkonen/core/UserCreatedEvent.java:86-92 | `equals`: true exactly for another `UserCreatedEvent` with the same event id, null included |
| Events.DeletedEquals | core/src/main/java/com/artemyakkonen/core/UserDeletedEvent.java:56-62 | `equals`: true exactly for another `UserDeletedEvent` with the same event id |
| Events.CreatedHash | core/src/main/java/com/artemyakkonen/core/UserCreatedEvent.java:94-97 | `Objects.hash(eventId)` |
| Events.DeletedHash | core/src/main/java/com/artemyakkonen/core/UserDeletedEvent.java:64-67 | `Objects.hash(eventId)` |
| Handler.DetermineHttpStatus | user-service/src/main/java/com/artemyakkonen/aston_spring_boot/handler/GlobalExceptionHandler.java:134-146 | the result is one of the eight passed-through statuses or 500, and equals the input exactly when the input is one of them or 500 |
| Handler.DetermineHttpStatusIdempotent | user-service/src/main/java/com/artemyakkonen/aston_spring_boot/handler/GlobalExceptionHandler.java:134-146 | mapping a mapped status changes nothing |
| Handler.ExtractServiceName | user-service/src/main/java/com/artemyakkonen/aston_spring_boot/handler/GlobalExceptionHandler.java:148-154 | "Email Notification Service" iff the message is non-null and contains "email-notification-service", else "External Service" |
| Handler.Reply | user-service/src/main/java/com/artemyakkonen/aston_spring_boot/handler/GlobalExceptionHandler.java:132 | the status line and the body status agree |
| Handler.HandleFeign | user-service/src/main/java/com/artemyakkonen/aston_spring_boot/handler/GlobalExceptionHandler.java:26-40 | status from `determineHttpStatus` on both line and body, code EXTERNAL_SERVICE_ERROR, message naming the service |
| Handler.HandleCircuitBreakerOpen | user-service/src/main/java/com/artemyakkonen/aston_spring_boot/handler/GlobalExceptionHandler.java:42-52 | 503 CIRCUIT_BREAKER_OPEN with the fixed message |
| Handler.HandleUserNotFound | user-service/src/main/java/com/artemyakkonen/aston_spring_boot/handler/GlobalExceptionHandler.java:54-64 | 404 NOT_FOUND with the exception message passed through, null included |
| Handler.HandleConstraintViolation | user-service/src/main/java/com/artemyakkonen/aston_spring_boot/handler/GlobalExceptionHandler.java:66-81 | 400 VALIDATION_ERROR, message "path: message" of the first violation or "Validation failed" when none |
| Handler.HandleDataIntegrityViolation | user-service/src/main/java/com/artemyakkonen/aston_spring_boot/handler/GlobalExceptionHandler.java:83-95 | 409 CONFLICT; message "Email already exists" iff the lower-cased message contains "unique" or "уник", else "Data conflict occurred" (null included) |
| Handler.DataIntegrityIgnoresCase | user-service/src/main/java/com/artemyakkonen/aston_spring_boot/handler/GlobalExceptionHandler.java:83-95 | the letter case of the store message does not change the answer |
| Handler.HandleMethodArgumentNotValid | user-service/src/main/java/com/artemyakkonen/aston_spring_boot/handler/GlobalExceptionHandler.java:97-118 | body 400 VALIDATION_ERROR with the first field error default message or "Validation failed"; the status line is the one the framework passes, which Dispatch fixes at 400 |
| Handler.HandleAllExceptions | user-service/src/main/java/com/artemyakkonen/aston_spring_boot/handler/GlobalExceptionHandler.java:120-130 | 500 INTERNAL_ERROR "Internal server error" |
| Handler.DispatchStatusAgrees | user-service/src/main/java/com/artemyakkonen/aston_spring_boot/handler/GlobalExceptionHandler.java:24-130 | exactly the Spring MVC exceptions the base class handles get a problem-detail body; every other answer is an error record whose status equals the status line, a body-validation failure included since its status is always 400 |
| Handler.DispatchCodes | user-service/src/main/java/com/artemyakkonen/aston_spring_boot/handler/GlobalExceptionHandler.java:24-130 | only a missing user gets NOT_FOUND, only an open breaker gets CIRCUIT_BREAKER_OPEN (503), IllegalArgument and other exceptions get the generic 500, and Spring MVC exceptions get the base class's problem detail with their own status |
| Handler.DispatchIsError | user-service/src/main/java/com/artemyakkonen/aston_spring_boot/handler/GlobalExceptionHandler.java:24-146 | every answer is a 4xx or 5xx status |
| Handler.Dispatch | user-service/src/main/java/com/artemyakkonen/aston_spring_boot/handler/GlobalExceptionHandler.java:24-130 | the handler the framework picks: the declared one for the exception's class, the base class's own for Spring MVC exceptions, the override for body validation with status 400, else the catch-all; its properties are DispatchStatusAgrees, DispatchCodes and DispatchIsError |
| Handler.FrameworkStatus | user-service/src/main/java/com/artemyakkonen/aston_spring_boot/handler/GlobalExceptionHandler.java:24 | the base class answers a malformed request (type mismatch, unreadable body, missing parameter, handler-parameter validation) with 400 and every Spring MVC exception with a 4xx or 5xx status; only server-side faults get 5xx |
| Handler.MalformedRequestIsClientError | user-service/src/main/java/com/artemyakkonen/aston_spring_boot/handler/GlobalExceptionHandler.java:24 | `GET /api/users/abc`, a body that is not the payload's JSON and a missing parameter are answered 400 by the base class, never by the catch-all's 500 |
| EmailNotification.DecodeError | email-notification-service/src/main/java/com/artemyakkonen/emailnotificationmicroservice/exception/userservice/UserClientConfig.java:16-38 | never refuses; null body gives "No response body", unreadable body "Error decoding error response"; a missing user iff status 404 and code NOT_FOUND, with the body message; otherwise "Unhandled error: " + message |
| EmailNotification.Transmit | user-service/src/main/java/com/artemyakkonen/aston_spring_boot/handler/GlobalExceptionHandler.java:24-132 | an error record travels with its status and its non-null code and message; a problem-detail body cannot be read as the record |
| EmailNotification.NotFoundRoundTrip | email-notification-service/src/main/java/com/artemyakkonen/emailnotificationmicroservice/exception/userservice/UserClientConfig.java:29-31 | a user-service exception decodes to a missing user iff it was one, and then with the same message |
| EmailNotification.FallBackCheckEmail | email-notification-service/src/main/java/com/artemyakkonen/emailnotificationmicroservice/service/UserService.java:20-27 | always throws; a missing user stays one, with message "User not found"; anything else becomes "From fallback: Not handled exception" |
| EmailNotification.CheckEmail | email-notification-service/src/main/java/com/artemyakkonen/emailnotificationmicroservice/service/UserService.java:15-18 | returns normally iff the breaker lets the call through and the call succeeds; every failure goes through the fallback |
| EmailNotification.HandleEmailSide | email-notification-service/src/main/java/com/artemyakkonen/emailnotificationmicroservice/exception/userservice/GlobalExceptionHandler.java:16-40 | body status equals status line; 404 NOT_FOUND with the message iff a missing user, else 500 INTERNAL_ERROR "Internal server error" |
| EmailNotification.GenericHandlerHidesMessage | email-notification-service/src/main/java/com/artemyakkonen/emailnotificationmicroservice/exception/userservice/GlobalExceptionHandler.java:29-39 | the generic handler gives the same answer for every other exception |
| EmailNotification.RemoteCheck | user-service/src/main/java/com/artemyakkonen/aston_spring_boot/service/UserService.java:160-167 | the remote check passes iff some row holds the email |
| EmailNotification.CheckEmailEndToEnd | email-notification-service/src/main/java/com/artemyakkonen/emailnotificationmicroservice/service/UserService.java:15-27 | with the breaker closed checkEmail passes iff the user service holds the email, else answers 404 "User not found"; with it open it answers 500 |
| Registry.SentMessages | user-service/src/main/java/com/artemyakkonen/aston_spring_boot/service/UserService.java:62 | the records sent are no more than the effects, and a record is among them iff the trace holds its send |
| Registry.SentMessagesAppend | user-service/src/main/java/com/artemyakkonen/aston_spring_boot/service/UserService.java:98 | an effect appended to the trace adds its record, if any, at the end |
| Registry.EmailHeld | user-service/src/main/java/com/artemyakkonen/aston_spring_boot/service/UserService.java:160-166 | `existsByEmail`: some row holds exactly this email |
| Registry.UniqueEmails | user-service/src/main/java/com/artemyakkonen/aston_spring_boot/model/User.java:39-40 | `@Column(unique = true)`: no two rows share a non-null email |
| Registry.Clash | user-service/src/main/java/com/artemyakkonen/aston_spring_boot/service/UserService.java:121-127 | saving the row under this id would break the unique constraint: another row holds its non-null email |
| Registry.NotFoundById | user-service/src/main/java/com/artemyakkonen/aston_spring_boot/service/UserService.java:33-35 | the `UserNotFoundException` "User with id %d not found" for the id |
| Registry.AfterSave | user-service/src/main/java/com/artemyakkonen/aston_spring_boot/model/User.java:45-49 | a save keeps id and createdAt, takes the updated columns, and sets updatedAt to now iff the update changed the row |
| Registry.AfterSaveStamps | user-service/src/main/java/com/artemyakkonen/aston_spring_boot/model/User.java:45-49 | after an effective update, updatedAt is later than createdAt |
| Registry.TableContents | user-service/src/main/java/com/artemyakkonen/aston_spring_boot/service/UserService.java:141 | a scan of the table sees exactly the stored rows |
| Registry.Query | user-service/src/main/java/com/artemyakkonen/aston_spring_boot/service/UserService.java:135-158 | succeeds iff the page request builds and the sort property exists; at most `size` responses; a page-request failure propagates |
| Registry.QueryContents | user-service/src/main/java/com/artemyakkonen/aston_spring_boot/service/UserService.java:139-152 | every response is the mapping of a table row that the specification accepts |
| Registry.QueryIsSortedPage | user-service/src/main/java/com/artemyakkonen/aston_spring_boot/service/UserService.java:139-152 | the page is the requested slice of a sorted permutation of exactly the matching rows |
| Registry.QueryNoMatch | user-service/src/main/java/com/artemyakkonen/aston_spring_boot/service/UserService.java:144-152 | when nothing matches, a well-formed query returns an empty list, not an error |
| Registry.ValidParamsQuerySucceeds | user-service/src/main/java/com/artemyakkonen/aston_spring_boot/service/UserService.java:139-141 | parameters passing validation with both sort fields set, page >= 0 and size >= 1 never make the query fail |
| Registry.NullSortQueryFails | user-service/src/main/java/com/artemyakkonen/aston_spring_boot/service/UserService.java:135-141 | parameters passing validation but with a null sortBy or direction make the query fail with the IllegalArgument of building the sort, the direction's error first |
| Registry.EmailCheck | user-service/src/main/java/com/artemyakkonen/aston_spring_boot/service/UserService.java:160-167 | passes iff some row holds the email; otherwise NotFound "User with email <email> does not exist" |
| Registry.Send | UserService/src/main/java/com/artemyakkonen/aston_spring_boot/service/EmailServiceImpl.java:16-23 | passes iff some row holds the email; otherwise NotFound "User with email <email> not found" |
| Registry.SendAgreesWithEmailCheck | UserService/src/main/java/com/artemyakkonen/aston_spring_boot/service/EmailServiceImpl.java:16-23 | `send` passes exactly when the email check does; neither depends on anything but whether a row holds the email, nor on the message |
| Registry.SendKeepsDistinct | user-service/src/main/java/com/artemyakkonen/aston_spring_boot/service/UserService.java:62 | appending a record with a fresh event id keeps every event id distinct |
| Registry.InsertKeepsConsistent | user-service/src/main/java/com/artemyakkonen/aston_spring_boot/service/UserService.java:47-62 | inserting under the next id with a non-held email, then sending a fresh record, keeps the store invariant (ids, timestamps, unique emails, outbox = sends) |
| Registry.DeleteKeepsConsistent | user-service/src/main/java/com/artemyakkonen/aston_spring_boot/service/UserService.java:87-98 | deleting a row and then sending a fresh record keeps the store invariant |
| Registry.SaveKeepsConsistent | user-service/src/main/java/com/artemyakkonen/aston_spring_boot/service/UserService.java:124-127 | saving an update that clashes with no other email keeps the store invariant |
| Registry.CreatedRecord | user-service/src/main/java/com/artemyakkonen/aston_spring_boot/service/UserService.java:54-62 | the builder chain yields the record on the creation topic keyed by the id, whose payload is the response fields, under the fresh event id |
| Registry.DeletedRecord | user-service/src/main/java/com/artemyakkonen/aston_spring_boot/service/UserService.java:90-98 | the builder chain yields the record on the deletion topic keyed by the id, carrying the row id and email, under the fresh event id |
| Registry.UserRegistry.constructor | user-service/src/main/java/com/artemyakkonen/aston_spring_boot/service/UserService.java:25-29 | an empty table with the counter at 1 and nothing sent satisfies the invariant |
| Registry.UserRegistry.FindUser | user-service/src/main/java/com/artemyakkonen/aston_spring_boot/service/UserService.java:31-42 | succeeds iff the id is stored, with that row response and the same id; otherwise NotFound "User with id <id> not found"; nothing changes |
| Registry.UserRegistry.FindAllUsers | user-service/src/main/java/com/artemyakkonen/aston_spring_boot/service/UserService.java:135-158 | returns the query over the table; every response is a stored row the specification accepts; nothing changes |
| Registry.UserRegistry.ExistsByEmailOrThrowException | user-service/src/main/java/com/artemyakkonen/aston_spring_boot/service/UserService.java:160-167 | passes iff some row holds the email; nothing changes |
| Registry.UserRegistry.CreateUser | user-service/src/main/java/com/artemyakkonen/aston_spring_boot/service/UserService.java:44-82 | fails (UniqueViolation, nothing changed, nothing sent) iff another row holds the email; otherwise exactly one new row under the next id with the payload and both audit stamps at the save's time, the response of that row, and exactly one creation record keyed by the id whose payload equals the response and whose event timestamp is the event's own, no earlier clock reading, to which the clock advances |
| Registry.UserRegistry.UpdateUser | user-service/src/main/java/com/artemyakkonen/aston_spring_boot/service/UserService.java:121-133 | an unknown id gives NotFound and a clashing email UniqueViolation, both changing nothing; otherwise only that row changes (as `AfterSave`), its id is kept and nothing is sent |
| Registry.UserRegistry.DeleteUser | user-service/src/main/java/com/artemyakkonen/aston_spring_boot/service/UserService.java:84-119 | an unknown id gives NotFound and changes nothing; otherwise only that row is removed and then exactly one deletion record with the pre-delete id and email is sent, after the removal in the effect trace |
| Scenarios.DuplicateEmailIsConflict | user-service/src/main/java/com/artemyakkonen/aston_spring_boot/handler/GlobalExceptionHandler.java:83-95 | the store unique-violation reaches the client as 409 CONFLICT "Email already exists" |
| Scenarios.StartsWithUnique | user-service/src/main/java/com/artemyakkonen/aston_spring_boot/handler/GlobalExceptionHandler.java:85-87 | a message starting with "Unique" is recognised as a unique-constraint violation |
| Scenarios.MissingUserIsNotFound | user-service/src/main/java/com/artemyakkonen/aston_spring_boot/handler/GlobalExceptionHandler.java:54-64 | a missing id reaches the client as 404 NOT_FOUND "User with id <id> not found" |
| Scenarios.Lifecycle | user-service/src/main/java/com/artemyakkonen/aston_spring_boot/service/UserService.java:44-119 | create gives id 1 and one creation record keyed "1", stamped 11 by the event while the row's createdAt is 10; a duplicate email is rejected; delete sends one deletion record with the email; deleting again gives NotFound and sends nothing |

## Left out

- Kafka transport: the asynchronous `whenComplete` callbacks, partitions and offsets are not modelled; a send is an append to the outbox.
- Transaction timing: the service is transactional and sends inside the transaction; `save` and `deleteById` are atomic at return and nothing is claimed about commit order.
- The circuit breaker's state machine and counters: only whether the breaker lets a call through is a parameter of `CheckEmail`.
- Controllers, HATEOAS assembly and the `@Valid` gate in front of the service: the service methods accept any payload, as the service code does; validity is stated by `ValidCreate`, `ValidUpdate` and `ValidParams`.
- The Feign client call itself: `RemoteCheck` assumes the call reaches `existsByEmailOrThrowException`; the HTTP verb and path mapping between the two services is not modelled.
- `EmailService` of the user service and the Feign clients, which wrap foreign calls.
- Jackson parsing of the error body: `DecodeError` takes the body already classified as absent, unreadable, or parsed.
- Logging everywhere, and `toString` of the events.
- Setters of `UserParamsDTO`, `UserCreatedEvent` and `UserDeletedEvent` that nothing in the core calls.
- Specification.WithNameCont: `%` and `_` in the name filter act as LIKE wildcards in SQL, and `\` as LIKE's default escape character on PostgreSQL; the model treats the filter as a plain substring.
- Text.Lower: locale-sensitive case mapping is covered only for A-Z and the Cyrillic capitals U+0400-U+042F; other characters are kept.
- Params.ParseDirection: `Sort.Direction.fromString` upper-cases with `Locale.US`, so spellings with characters whose upper case is an ASCII letter (such as "aſc" with the long s) parse in Java; the model lower-cases with Text.Lower and refuses them.
- Params.ResolveSortField: nested or dotted property paths, and a first character outside the modelled letters whose Java lower case is an ASCII letter (U+0130 gives "i"), are not resolved by the model.
- Payloads.EmailShaped: the `@Email` validator is reduced to its shape test (a non-empty local part and domain around the last @); its full pattern is not modelled.
- Payloads.ValidUpdate, Mapper.Update: `JsonNullable` is modelled as present or absent. An explicit JSON null (`"email": null`, present with a null value) is read as absent: in Java it passes `@Valid`, and the mapper may then write null to the column. The `JsonNullableMapper` that decides this is not part of this model.
- Sorting.SortRows: string keys (name, email) are compared by character code, whereas the store compares them under its collation (an en_US collation puts "bob" before "Jane"); the order of rows with equal keys is chosen by the database, and the model keeps ties in id order. Null columns sort as PostgreSQL does by default: last ascending, first descending.
- Registry.UserRegistry.CreateUser: an identity value consumed by a failed insert is not modelled; the counter advances only on success.
- Registry.UniqueViolationMessage, Registry.NoSuchProperty and the messages of Params.ToPageable stand for library and driver messages; only what the handlers test of them is meant to be faithful.
- Registry.UserRegistry.UpdateUser: `mapper.update` mutates the entity in place; the model computes the new row as a value and stores it, so aliasing of the managed entity is not captured.
- Users.LongHash and Text.NatToString: ids are not bounded to 64 bits in the registry; `Long` overflow of the identity column is not modelled.
- Events.StringHash: Java hashes UTF-16 code units; the model hashes Dafny characters, which agree for characters of the Basic Multilingual Plane.
- Handler.HandleConstraintViolation: the violations arrive as a sequence; the iteration order of the Java set is not modelled.
- Handler.Dispatch: of a Spring MVC exception answered by the base class only the status is modelled; the title, detail and instance of its problem-detail body, `ErrorResponseException` subclasses with statuses of their own and `AsyncRequestNotUsableException` are not modelled.
- Handler.FrameworkStatus: the statuses are those of the base class in Spring 6; a `ServletRequestBindingException` other than a missing parameter is folded into MissingParameter with status 400.
