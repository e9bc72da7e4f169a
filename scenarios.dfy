/**
 * End-to-end runs of the handlers on a fresh store, stated as methods whose
 * contracts follow from the handlers' own.
 */
module Scenarios {
  import opened Keys
  import opened Records
  import opened Invariant
  import opened Preservation
  import opened Users
  import opened Requests
  import opened Backend

  /** After the first create, the message keys of the later steps are still free. */
  lemma CreatedRunKeys(r: DocRequest, m: Message)
    requires r.id == "r1" && m.id == "m1" && ColonFree(r.studentId)
    ensures MessageKey("r1", "m2") !in AfterCreate(map[], r, m)
    ensures MessageKey("r1", "m3") !in AfterCreate(map[], r, m)
  {
    forall x | x in ["m2", "m3"]
      ensures MessageKey("r1", x) != MessageKey("r1", "m1")
      ensures MessageKey("r1", x) != RequestKey(r.studentId, "r1") && MessageKey("r1", x) != RequestByIdKey("r1")
    {
      if MessageKey("r1", x) == MessageKey("r1", "m1") { MessageKeyInjective("r1", x, "r1", "m1"); }
      Distinguish(MessageNs, RequestNs, MessageKey("r1", x));
      Distinguish(MessageNs, RequestByIdNs, MessageKey("r1", x));
    }
  }

  /**
   * After the completion, the student's message key is still free and the
   * by-id copy holds the completed record.
   */
  lemma CompletedRunKeys(kv: Store, u: DocRequest)
    requires MessageKey("r1", "m3") !in kv && ColonFree(u.studentId)
    requires u.id == "r1" && u.status == Completed
    ensures MessageKey("r1", "m3") !in AfterStatus(kv, u, "m2", 1)
    ensures RequestByIdKey("r1") in AfterStatus(kv, u, "m2", 1)
    ensures !IsActive(AfterStatus(kv, u, "m2", 1)[RequestByIdKey("r1")])
  {
    assert MessageKey("r1", "m3") != MessageKey("r1", "m2") by {
      if MessageKey("r1", "m3") == MessageKey("r1", "m2") { MessageKeyInjective("r1", "m3", "r1", "m2"); }
    }
    Distinguish(MessageNs, RequestNs, MessageKey("r1", "m3"));
    Distinguish(MessageNs, RequestByIdNs, MessageKey("r1", "m3"));
    Distinguish(MessageNs, RequestByIdNs, RequestByIdKey("r1"));
  }

  /**
   * A student files a request for one copy (150 pesos, pending), an admin
   * completes it, and the conversation is then closed to the student.
   */
  method CompletedConversationIsLocked(student: Caller, admin: Caller)
    returns (created: Result<DocRequest>, completed: Result<DocRequest>, sent: Result<Message>)
    requires student.role == Student && admin.role == Admin && ColonFree(student.id)
    ensures created.Ok? && created.value.total == 150 && created.value.status == Pending
    ensures completed.Ok? && completed.value.status == Completed
    ensures sent == Err(Locked)
  {
    var registrar := new Registrar();
    assert ActiveKeys(registrar.kv, student.id) == {};
    created := registrar.CreateRequest(student, "Transcript of Records", 1, "r1", "m1", 0);
    CreatedRunKeys(created.value, ReceivedMessage("m1", "r1", 0));
    ghost var s1 := registrar.kv;
    completed := registrar.UpdateRequestStatus(admin, "r1", Completed, "m2", 1);
    CompletedRunKeys(s1, completed.value);
    sent := registrar.SendMessage(student, "r1", "Is it ready?", None, "m3", 2);
  }

  /** Both spellings of the address fold to the same key. */
  lemma FoldedAddresses()
    ensures Lower("Ana@x.edu") == "ana@x.edu" && Lower("ANA@x.edu") == "ana@x.edu"
  {
    assert Lower("Ana@x.edu") == "ana@x.edu";
    assert Lower("ANA@x.edu") == "ana@x.edu";
  }

  /** After the first sign-up the folded address is taken and the second account id is free. */
  lemma SignedUpKeys(u: User)
    requires u.id == "u1" && u.email == "ana@x.edu"
    ensures EmailKey("ana@x.edu") in AfterSignup(map[], u)
    ensures UserKey("u2") !in AfterSignup(map[], u)
  {
    assert UserKey("u2") != UserKey("u1");
    Distinguish(UserNs, EmailNs, UserKey("u2"));
    Distinguish(UserNs, StudentIdNs, UserKey("u2"));
  }

  /**
   * Two sign-ups whose e-mails differ only in letter case: the first creates
   * the profile under the folded address, the second is turned away as a
   * duplicate before any account is made.
   */
  method SignupIgnoresCase() returns (first: Result<User>, second: Result<User>)
    ensures first.Ok? && first.value.email == "ana@x.edu" && first.value.role == Student
    ensures second == Err(DuplicateEmail)
  {
    FoldedAddresses();
    var registrar := new Registrar();
    first := registrar.Signup("Ana@x.edu", "2021-001", "Ana", "Cruz", "secret", Some("u1"), 0);
    SignedUpKeys(first.value);
    second := registrar.Signup("ANA@x.edu", "2021-002", "Ana", "Reyes", "secret", Some("u2"), 1);
  }

  /** A by-id key that a create did not write is still absent after it. */
  lemma FreshAfterCreate(kv: Store, r: DocRequest, m: Message, id: string)
    requires RequestByIdKey(id) !in kv && RequestByIdKey(id) != RequestByIdKey(r.id)
    ensures RequestByIdKey(id) !in AfterCreate(kv, r, m)
  {
    Distinguish(RequestNs, RequestByIdNs, RequestByIdKey(id));
    Distinguish(MessageNs, RequestByIdNs, RequestByIdKey(id));
  }

  /** A student with two open requests is refused a third. */
  method ThirdRequestRefused(student: Caller) returns (a: Result<DocRequest>, b: Result<DocRequest>, c: Result<DocRequest>)
    requires student.role == Student && ColonFree(student.id)
    ensures a.Ok? && b.Ok?
    ensures c == Err(LimitExceeded)
  {
    var registrar := new Registrar();
    assert ActiveKeys(registrar.kv, student.id) == {};
    ghost var s0 := registrar.kv;
    a := registrar.CreateRequest(student, "Transcript of Records", 1, "r1", "m1", 0);
    FreshAfterCreate(s0, a.value, ReceivedMessage("m1", "r1", 0), "r2");
    FreshAfterCreate(s0, a.value, ReceivedMessage("m1", "r1", 0), "r3");
    ghost var s1 := registrar.kv;
    b := registrar.CreateRequest(student, "Good Moral Certificate", 2, "r2", "m2", 1);
    FreshAfterCreate(s1, b.value, ReceivedMessage("m2", "r2", 1), "r3");
    c := registrar.CreateRequest(student, "Diploma", 1, "r3", "m3", 2);
  }

  /** The admin's address in mixed case folds to the stored one. */
  lemma AdminAddressFolds()
    ensures Lower("Admin@Example.com") == DefaultAdminEmail
  {
    assert Lower("Admin@Example.com") == "admin@example.com";
  }

  /** After the bootstrap, the admin's address is taken and a new account id is free. */
  lemma BootstrappedKeys(id: string, now: int)
    requires id == "a1"
    ensures EmailKey("admin@example.com") in AfterBootstrap(map[], DefaultAdmin(id, now))
    ensures UserKey("u1") !in AfterBootstrap(map[], DefaultAdmin(id, now))
  {
    assert UserKey("u1") != UserKey("a1");
    Distinguish(UserNs, EmailNs, UserKey("u1"));
  }

  /**
   * After the start-up bootstrap, a sign-up with the admin's address in
   * other letter case is refused as a duplicate.
   */
  method AdminAddressReserved() returns (r: Result<User>)
    ensures r == Err(DuplicateEmail)
  {
    AdminAddressFolds();
    var registrar := new Registrar();
    registrar.InitializeDefaultAdmin(Some("a1"), 0);
    BootstrappedKeys("a1", 0);
    r := registrar.Signup("Admin@Example.com", "2021-003", "Eve", "Santos", "secret", Some("u1"), 1);
  }
}
