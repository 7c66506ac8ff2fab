/** Whole request flows through the user service: the table, the records it sends, and what the
    exception handler makes of its failures. */
module Scenarios {
  import opened Wrappers
  import opened Text
  import opened Users
  import opened Payloads
  import opened Exceptions
  import opened Events
  import opened Handler
  import opened Registry

  /** A create or update rejected by the unique constraint on the email column reaches the
      client as 409 CONFLICT "Email already exists". */
  lemma DuplicateEmailIsConflict()
    ensures Dispatch(UniqueViolation) == Reply(409, "CONFLICT", "Email already exists")
  {
    UniqueViolationMentionsUnique();
    DispatchDataIntegrity(Some(UniqueViolationMessage));
  }

  lemma UniqueViolationMentionsUnique()
    ensures MentionsUnique(Some(UniqueViolationMessage))
  {
    assert UniqueViolationMessage[..6] == "Unique";
    StartsWithUnique(UniqueViolationMessage);
  }

  /** A message opening with "Unique" speaks of a unique constraint. */
  lemma StartsWithUnique(m: string)
    requires |m| >= 6 && m[..6] == "Unique"
    ensures MentionsUnique(Some(m))
  {
    var lower := ToLower(m);
    forall i | 0 <= i < 6 ensures lower[i] == "unique"[i] {
      assert m[i] == "Unique"[i];
    }
    assert StartsWith(lower, "unique");
  }

  /** A request for an id the table lacks reaches the client as 404 NOT_FOUND with the
      service's message. */
  lemma MissingUserIsNotFound(id: int)
    ensures Dispatch(NotFoundById(id)).status == 404
    ensures Dispatch(NotFoundById(id)).body
      == ErrorResponse(404, "NOT_FOUND", Some("User with id " + IntToString(id) + " not found"))
  {
  }

  /** Creating a user, creating another with the same email, deleting the first and deleting it
      again: the first create gets id 1 and sends a creation record keyed "1", stamped by its
      own clock reading after the row's; the second is rejected; the delete sends a deletion
      record keyed "1" carrying the email; the repeated delete finds nothing and sends
      nothing. */
  method Lifecycle() returns (created: Result<UserDto, Exception>, duplicate: Result<UserDto, Exception>,
                              deleted: Outcome<Exception>, again: Outcome<Exception>, sent: seq<Message>)
    ensures created == Success(UserDto(Some(1), Some("John Doe"), Some("john@example.com"), Some(25), Some(10)))
    ensures duplicate == Failure(UniqueViolation)
    ensures deleted == Pass && again == Fail(NotFoundById(1))
    ensures |sent| == 2
    ensures sent[0] == Message(CreatedTopic, "1", Created(UserCreatedEvent(Some("e1"), Some(11), Some(1),
      Some("John Doe"), Some("john@example.com"), Some(25), Some(10))))
    ensures sent[1] == Message(DeletedTopic, "1", Deleted(UserDeletedEvent(Some("e2"), Some(13), Some(1), Some("john@example.com"))))
  {
    var registry := new UserRegistry(0);
    created := registry.CreateUser(UserCreateDto(Some("John Doe"), Some("john@example.com"), Some(25)), 10, 11, "e1");
    assert registry.rows[1].email == Some("john@example.com");
    duplicate := registry.CreateUser(UserCreateDto(Some("Jane Smith"), Some("john@example.com"), Some(30)), 12, 12, "e3");
    assert MessageEventId(registry.outbox[0]) == Some("e1");
    deleted := registry.DeleteUser(1, 13, "e2");
    again := registry.DeleteUser(1, 14, "e4");
    sent := registry.outbox;
  }
}
