/**
 * The registrar's HTTP handlers over its key-value store. Each handler is a
 * method of `Registrar`, the object that owns the store; it receives the
 * already-verified caller, the identifiers `crypto.randomUUID()` would have
 * produced and the current time as parameters, and answers with a `Result`.
 */
module Backend {
  import opened Keys
  import opened Records
  import opened Listing
  import opened Requests
  import opened Users
  import opened Conversations
  import opened Announcements
  import opened Invariant
  import opened Preservation
  import opened Properties
  import opened Scans

  /** The signup handler's first check: some field of the form is empty. */
  predicate AnyEmpty(email: string, studentId: string, firstName: string, lastName: string, password: string) {
    email == "" || studentId == "" || firstName == "" || lastName == "" || password == ""
  }

  /** Counting the active values of a scan of `request:<sid>:` counts the student's active keys. */
  lemma ActiveScan(kv: Store, sid: string, ks: seq<string>)
    requires Enumerates(kv, RequestPrefix(sid), ks)
    ensures |Filter(ValuesAt(kv, ks), IsActive)| == |ActiveKeys(kv, sid)|
  {
    CountOverKeys(kv, ks, IsActive);
    assert KeysWhere(kv, ks, IsActive) == ActiveKeys(kv, sid);
  }

  /**
   * What a successful status update does to a valid store: the updated
   * record is stored under both keys, the thread gains the system message
   * exactly when the status has one, and the invariant holds afterwards.
   */
  lemma StatusUpdate(kv: Store, requestId: string, status: string, messageId: string, now: int)
    requires Valid(kv)
    requires ColonFree(messageId) && MessageKey(requestId, messageId) !in kv
    requires RequestByIdKey(requestId) in kv
    ensures kv[RequestByIdKey(requestId)].RequestV?
    ensures var u := WithStatus(kv[RequestByIdKey(requestId)].req, status, now);
      var kv' := AfterStatus(kv, u, messageId, now);
      && u.id == requestId
      && Valid(kv')
      && kv'[RequestKey(u.studentId, requestId)] == RequestV(u)
      && ThreadKeys(kv', requestId)
         == ThreadKeys(kv, requestId) + (if StatusText(status).Some? then {MessageKey(requestId, messageId)} else {})
  {
    StoredRequest(kv, requestId);
    var stored := kv[RequestByIdKey(requestId)].req;
    var u := WithStatus(stored, status, now);
    var w := WriteRequest(kv, u);
    var text := StatusText(status);
    WriteRequestKeepsValid(kv, u);
    ThreadFrame(kv, RequestKey(stored.studentId, requestId), RequestV(u), requestId);
    ThreadFrame(kv[RequestKey(stored.studentId, requestId) := RequestV(u)], RequestByIdKey(requestId), RequestV(u), requestId);
    assert w[RequestKey(stored.studentId, requestId)] == RequestV(u);
    if text.Some? {
      var msg := StatusMessage(messageId, requestId, text.value, now);
      AddMessageKeepsValid(w, msg);
      ThreadAdd(w, msg, requestId);
    }
  }

  /**
   * How a status update moves the cap's count: each student's active set
   * changes as `StatusCounted` says, and completing a request never breaks
   * the cap.
   */
  lemma StatusUpdateCounts(kv: Store, requestId: string, status: string, messageId: string, now: int)
    requires Valid(kv)
    requires RequestByIdKey(requestId) in kv
    ensures kv[RequestByIdKey(requestId)].RequestV?
    ensures var u := WithStatus(kv[RequestByIdKey(requestId)].req, status, now);
      var kv' := AfterStatus(kv, u, messageId, now);
      && (forall sid :: StatusCounted(kv, kv', u, sid))
      && (status == Completed && CapHolds(kv) ==> CapHolds(kv'))
  {
    StoredRequest(kv, requestId);
    var u := WithStatus(kv[RequestByIdKey(requestId)].req, status, now);
    var text := StatusText(status);
    StatusWriteCounts(kv, u, MessageKey(requestId, messageId),
                      MessageV(StatusMessage(messageId, requestId, if text.Some? then text.value else "", now)),
                      text.Some?);
  }

  class Registrar {
    /** The whole key-value table. */
    var kv: Store

    ghost predicate Valid()
      reads this
    {
      Invariant.Valid(kv)
    }

    constructor ()
      ensures Valid() && kv == map[]
    {
      kv := map[];
    }

    /** `kv.getByPrefix(p)`: the values under `p`, in no particular order, each once. */
    method GetByPrefix(p: string) returns (vs: seq<Value>, ghost ks: seq<string>)
      ensures Enumerates(kv, p, ks)
      ensures vs == ValuesAt(kv, ks)
    {
      var rest := set k | k in kv && HasPrefix(p, k);
      vs, ks := [], [];
      while rest != {}
        invariant rest <= KeysUnder(kv, p)
        invariant forall k :: k in KeysUnder(kv, p) ==> k in rest || k in ks
        invariant forall i :: 0 <= i < |ks| ==> ks[i] in kv && HasPrefix(p, ks[i]) && ks[i] !in rest
        invariant Distinct(ks)
        invariant vs == ValuesAt(kv, ks)
        decreases |rest|
      {
        var k :| k in rest;
        vs, ks := vs + [kv[k]], ks + [k];
        rest := rest - {k};
      }
    }

    /**
     * The start-up bootstrap: unless the default admin's e-mail is already
     * indexed, ask the identity provider for an account and, when it grants
     * one, store the admin's profile and its e-mail index entry; any failure
     * leaves the store as it was.
     */
    method InitializeDefaultAdmin(authUserId: Option<string>, now: int)
      requires Valid()
      requires authUserId.Some? ==> UserKey(authUserId.value) !in kv
      modifies this
      ensures Valid()
      ensures kv == if EmailKey(DefaultAdminEmail) in old(kv) || authUserId.None? then old(kv)
                    else AfterBootstrap(old(kv), DefaultAdmin(authUserId.value, now))
    {
      if EmailKey(DefaultAdminEmail) in kv {
        return;
      }
      if authUserId.None? {
        return;
      }
      var u := DefaultAdmin(authUserId.value, now);
      BootstrapKeepsValid(kv, u);
      kv := AfterBootstrap(kv, u);
    }

    /** POST /signup: a student account, unique by (case-folded) e-mail and by student id. */
    method Signup(email: string, studentId: string, firstName: string, lastName: string, password: string,
                  authUserId: Option<string>, now: int) returns (r: Result<User>)
      requires Valid()
      requires authUserId.Some? ==> UserKey(authUserId.value) !in kv
      modifies this
      ensures Valid()
      ensures r.Err? ==> kv == old(kv)
      ensures r == Err(MissingField) <==> AnyEmpty(email, studentId, firstName, lastName, password)
      ensures !AnyEmpty(email, studentId, firstName, lastName, password) ==>
        (r == Err(DuplicateEmail) <==> EmailKey(Lower(email)) in old(kv))
      ensures !AnyEmpty(email, studentId, firstName, lastName, password) && EmailKey(Lower(email)) !in old(kv) ==>
        (r == Err(DuplicateStudentId) <==> StudentIdKey(studentId) in old(kv))
      ensures !AnyEmpty(email, studentId, firstName, lastName, password) && EmailKey(Lower(email)) !in old(kv)
              && StudentIdKey(studentId) !in old(kv) ==>
        (r == Err(AuthRejected) <==> authUserId.None?)
      ensures r.Ok? <==>
        && !AnyEmpty(email, studentId, firstName, lastName, password)
        && EmailKey(Lower(email)) !in old(kv) && StudentIdKey(studentId) !in old(kv)
        && authUserId.Some?
      ensures r.Ok? ==>
        && authUserId.Some?
        && r.value == User(authUserId.value, Lower(email), firstName, lastName, studentId, Student, now)
        && kv == AfterSignup(old(kv), r.value)
    {
      if AnyEmpty(email, studentId, firstName, lastName, password) {
        return Err(MissingField);
      }
      if EmailKey(Lower(email)) in kv {
        return Err(DuplicateEmail);
      }
      if StudentIdKey(studentId) in kv {
        return Err(DuplicateStudentId);
      }
      if authUserId.None? {
        return Err(AuthRejected);
      }
      var u := User(authUserId.value, Lower(email), firstName, lastName, studentId, Student, now);
      SignupKeepsValid(kv, u);
      kv := AfterSignup(kv, u);
      r := Ok(u);
    }

    /** The cap check: how many of a student's requests are not completed. */
    method ActiveCount(sid: string) returns (n: nat)
      ensures n == |ActiveKeys(kv, sid)|
    {
      var all, ks := GetByPrefix(RequestPrefix(sid));
      ActiveScan(kv, sid, ks);
      n := |Filter(all, IsActive)|;
    }

    /** POST /requests: a student opens a request, at most two of them not completed. */
    method CreateRequest(caller: Caller, documentType: string, quantity: int,
                         requestId: string, messageId: string, now: int) returns (r: Result<DocRequest>)
      requires Valid()
      requires ColonFree(caller.id) && ColonFree(requestId) && ColonFree(messageId)
      requires RequestByIdKey(requestId) !in kv
      modifies this
      ensures Valid()
      ensures r.Err? ==> kv == old(kv)
      ensures r == Err(Unauthorized) <==> caller.role != Student
      ensures caller.role == Student ==>
        (r == Err(LimitExceeded) <==> |ActiveKeys(old(kv), caller.id)| >= MaxActiveRequests)
      ensures r.Ok? <==> caller.role == Student && |ActiveKeys(old(kv), caller.id)| < MaxActiveRequests
      ensures r.Ok? ==>
        && r.value == NewRequest(caller, requestId, documentType, quantity, now)
        && kv == AfterCreate(old(kv), r.value, ReceivedMessage(messageId, requestId, now))
        && |ActiveKeys(kv, caller.id)| == |ActiveKeys(old(kv), caller.id)| + 1
        && ThreadKeys(kv, requestId) == {MessageKey(requestId, messageId)}
      ensures CapHolds(old(kv)) ==> CapHolds(kv)
    {
      if caller.role != Student {
        return Err(Unauthorized);
      }
      var active := ActiveCount(caller.id);
      if active >= MaxActiveRequests {
        return Err(LimitExceeded);
      }
      var req := NewRequest(caller, requestId, documentType, quantity, now);
      var msg := ReceivedMessage(messageId, requestId, now);
      CreateKeepsValid(kv, req, msg);
      CreateCounts(kv, req, msg, caller.id);
      CreateThread(kv, req, msg);
      if CapHolds(kv) {
        CreateKeepsCap(kv, req, msg);
      }
      kv := AfterCreate(kv, req, msg);
      r := Ok(req);
    }

    /** PUT /requests/:id: an admin sets the status; three statuses also post a system message. */
    method UpdateRequestStatus(caller: Caller, requestId: string, status: string,
                               messageId: string, now: int) returns (r: Result<DocRequest>)
      requires Valid()
      requires ColonFree(messageId) && MessageKey(requestId, messageId) !in kv
      modifies this
      ensures Valid()
      ensures r.Err? ==> kv == old(kv)
      ensures r == Err(Unauthorized) <==> caller.role != Admin
      ensures caller.role == Admin ==> (r == Err(NotFound) <==> RequestByIdKey(requestId) !in old(kv))
      ensures r.Ok? <==> caller.role == Admin && RequestByIdKey(requestId) in old(kv)
      ensures r.Ok? ==>
        && old(kv)[RequestByIdKey(requestId)].RequestV?
        && r.value == WithStatus(old(kv)[RequestByIdKey(requestId)].req, status, now)
        && r.value.id == requestId
        && kv == AfterStatus(old(kv), r.value, messageId, now)
        && kv[RequestKey(r.value.studentId, requestId)] == RequestV(r.value)
        && ThreadKeys(kv, requestId) ==
           ThreadKeys(old(kv), requestId) + (if StatusText(status).Some? then {MessageKey(requestId, messageId)} else {})
      ensures r.Ok? ==> forall sid :: StatusCounted(old(kv), kv, r.value, sid)
      ensures r.Ok? && status == Completed && CapHolds(old(kv)) ==> CapHolds(kv)
    {
      if caller.role != Admin {
        return Err(Unauthorized);
      }
      if RequestByIdKey(requestId) !in kv {
        return Err(NotFound);
      }
      StatusUpdate(kv, requestId, status, messageId, now);
      StatusUpdateCounts(kv, requestId, status, messageId, now);
      var updated := WithStatus(kv[RequestByIdKey(requestId)].req, status, now);
      kv := AfterStatus(kv, updated, messageId, now);
      r := Ok(updated);
    }

    /** POST /messages: anyone signed in posts into a conversation that is not completed. */
    method SendMessage(caller: Caller, conversationId: string, text: string, fileUrl: Option<string>,
                       messageId: string, now: int) returns (r: Result<Message>)
      requires Valid()
      requires ColonFree(messageId) && MessageKey(conversationId, messageId) !in kv
      modifies this
      ensures Valid()
      ensures r.Err? ==> kv == old(kv)
      ensures r == Err(NotFound) <==> RequestByIdKey(conversationId) !in old(kv)
      ensures RequestByIdKey(conversationId) in old(kv) ==>
        (r == Err(Locked) <==> !IsActive(old(kv)[RequestByIdKey(conversationId)]))
      ensures r.Ok? <==> RequestByIdKey(conversationId) in old(kv) && IsActive(old(kv)[RequestByIdKey(conversationId)])
      ensures r.Ok? ==>
        && r.value == Message(messageId, conversationId, caller.id, FullName(caller.firstName, caller.lastName),
                              Some(caller.role), text, fileUrl, now, false)
        && kv == old(kv)[MessageKey(conversationId, messageId) := MessageV(r.value)]
        && ThreadKeys(kv, conversationId) == ThreadKeys(old(kv), conversationId) + {MessageKey(conversationId, messageId)}
    {
      if RequestByIdKey(conversationId) !in kv {
        return Err(NotFound);
      }
      StoredRequest(kv, conversationId);
      if kv[RequestByIdKey(conversationId)].req.status == Completed {
        return Err(Locked);
      }
      var msg := Message(messageId, conversationId, caller.id, FullName(caller.firstName, caller.lastName),
                         Some(caller.role), text, fileUrl, now, false);
      AddMessageKeepsValid(kv, msg);
      ThreadAdd(kv, msg, conversationId);
      kv := kv[MessageKey(conversationId, messageId) := MessageV(msg)];
      r := Ok(msg);
    }

    /** POST /tickets: a student opens a support ticket. */
    method CreateTicket(caller: Caller, subject: string, description: string, attachmentUrl: Option<string>,
                        ticketId: string, now: int) returns (r: Result<Ticket>)
      requires Valid()
      requires ColonFree(caller.id) && ColonFree(ticketId) && TicketByIdKey(ticketId) !in kv
      modifies this
      ensures Valid()
      ensures r.Err? ==> kv == old(kv)
      ensures r == Err(Unauthorized) <==> caller.role != Student
      ensures r.Ok? <==> caller.role == Student
      ensures r.Ok? ==>
        && r.value == Ticket(ticketId, caller.id, FullName(caller.firstName, caller.lastName),
                             subject, description, attachmentUrl, Open, now, now)
        && kv == WriteTicket(old(kv), r.value)
    {
      if caller.role != Student {
        return Err(Unauthorized);
      }
      var t := Ticket(ticketId, caller.id, FullName(caller.firstName, caller.lastName),
                      subject, description, attachmentUrl, Open, now, now);
      WriteTicketKeepsValid(kv, t);
      kv := WriteTicket(kv, t);
      r := Ok(t);
    }

    /** PUT /tickets/:id: an admin sets a ticket's status. */
    method UpdateTicketStatus(caller: Caller, ticketId: string, status: string, now: int) returns (r: Result<Ticket>)
      requires Valid()
      modifies this
      ensures Valid()
      ensures r.Err? ==> kv == old(kv)
      ensures r == Err(Unauthorized) <==> caller.role != Admin
      ensures caller.role == Admin ==> (r == Err(NotFound) <==> TicketByIdKey(ticketId) !in old(kv))
      ensures r.Ok? <==> caller.role == Admin && TicketByIdKey(ticketId) in old(kv)
      ensures r.Ok? ==>
        && old(kv)[TicketByIdKey(ticketId)].TicketV?
        && r.value == old(kv)[TicketByIdKey(ticketId)].ticket.(status := status, updatedAt := now)
        && r.value.id == ticketId
        && kv == WriteTicket(old(kv), r.value)
    {
      if caller.role != Admin {
        return Err(Unauthorized);
      }
      if TicketByIdKey(ticketId) !in kv {
        return Err(NotFound);
      }
      StoredTicket(kv, ticketId);
      var t := kv[TicketByIdKey(ticketId)].ticket.(status := status, updatedAt := now);
      WriteTicketKeepsValid(kv, t);
      kv := WriteTicket(kv, t);
      r := Ok(t);
    }

    /** POST /announcements: an admin publishes a notice. */
    method CreateAnnouncement(caller: Caller, title: string, body: string, expiryDate: int,
                              announcementId: string, now: int) returns (r: Result<Announcement>)
      requires Valid()
      modifies this
      ensures Valid()
      ensures r.Err? ==> kv == old(kv)
      ensures r == Err(Unauthorized) <==> caller.role != Admin
      ensures r.Ok? <==> caller.role == Admin
      ensures r.Ok? ==>
        && r.value == NewAnnouncement(announcementId, title, body, expiryDate, caller.id, now)
        && kv == old(kv)[AnnouncementKey(announcementId) := AnnouncementV(r.value)]
    {
      if caller.role != Admin {
        return Err(Unauthorized);
      }
      var a := NewAnnouncement(announcementId, title, body, expiryDate, caller.id, now);
      SetAnnouncementKeepsValid(kv, announcementId, a);
      kv := kv[AnnouncementKey(announcementId) := AnnouncementV(a)];
      r := Ok(a);
    }

    /** PUT /announcements/:id: an admin merges an update into a stored notice. */
    method UpdateAnnouncement(caller: Caller, announcementId: string, updates: AnnouncementPatch,
                              now: int) returns (r: Result<Announcement>)
      requires Valid()
      modifies this
      ensures Valid()
      ensures r.Err? ==> kv == old(kv)
      ensures r == Err(Unauthorized) <==> caller.role != Admin
      ensures caller.role == Admin ==> (r == Err(NotFound) <==> AnnouncementKey(announcementId) !in old(kv))
      ensures r.Ok? <==> caller.role == Admin && AnnouncementKey(announcementId) in old(kv)
      ensures r.Ok? ==>
        && old(kv)[AnnouncementKey(announcementId)].AnnouncementV?
        && r.value == Merge(old(kv)[AnnouncementKey(announcementId)].ann, updates, now)
        && kv == old(kv)[AnnouncementKey(announcementId) := AnnouncementV(r.value)]
    {
      if caller.role != Admin {
        return Err(Unauthorized);
      }
      var key := AnnouncementKey(announcementId);
      if key !in kv {
        return Err(NotFound);
      }
      var a := Merge(kv[key].ann, updates, now);
      SetAnnouncementKeepsValid(kv, announcementId, a);
      kv := kv[key := AnnouncementV(a)];
      r := Ok(a);
    }

    /** DELETE /announcements/:id: an admin removes a notice; removing an absent one also succeeds. */
    method DeleteAnnouncement(caller: Caller, announcementId: string) returns (r: Result<()>)
      requires Valid()
      modifies this
      ensures Valid()
      ensures r.Err? ==> kv == old(kv)
      ensures r == Err(Unauthorized) <==> caller.role != Admin
      ensures r.Ok? <==> caller.role == Admin
      ensures r.Ok? ==> kv == old(kv) - {AnnouncementKey(announcementId)}
    {
      if caller.role != Admin {
        return Err(Unauthorized);
      }
      RemoveAnnouncement(kv, AnnouncementKey(announcementId));
      kv := kv - {AnnouncementKey(announcementId)};
      r := Ok(());
    }
    /** The request records a caller's listing scans: the student's own, or every request for an admin. */
    method ScopedRequests(caller: Caller) returns (reqs: seq<DocRequest>)
      requires Valid()
      ensures forall x :: x in reqs ==>
        RequestByIdKey(x.id) in kv && kv[RequestByIdKey(x.id)] == RequestV(x) && Sees(caller, x.studentId)
      ensures forall k :: k in kv && HasPrefix(RequestByIdNs, k) && kv[k].RequestV? && Sees(caller, kv[k].req.studentId) ==>
        kv[k].req in reqs
      ensures |reqs| == |ScannedKeys(kv, caller, RequestScope(caller))|
    {
      if caller.role == NoRole {
        return [];
      }
      var vs, ks := GetByPrefix(RequestScope(caller));
      RequestScan(kv, caller, ks);
      reqs := seq(|vs|, i requires 0 <= i < |vs| => vs[i].req);
      ScopedRequestsFacts(kv, caller, ks, reqs);
    }

    /** GET /requests: the caller's requests, newest first. */
    method ListRequests(caller: Caller) returns (rs: seq<DocRequest>)
      requires Valid()
      ensures forall i, j :: 0 <= i < j < |rs| ==> rs[i].createdAt >= rs[j].createdAt
      ensures forall x :: x in rs ==>
        RequestByIdKey(x.id) in kv && kv[RequestByIdKey(x.id)] == RequestV(x) && Sees(caller, x.studentId)
      ensures forall k :: k in kv && HasPrefix(RequestByIdNs, k) && kv[k].RequestV? && Sees(caller, kv[k].req.studentId) ==>
        kv[k].req in rs
      ensures |rs| == |ScannedKeys(kv, caller, RequestScope(caller))|
      ensures caller.role == NoRole ==> rs == []
    {
      var reqs := ScopedRequests(caller);
      rs := SortDesc(reqs, RequestCreatedAt);
      assert forall i, j :: 0 <= i < j < |rs| ==> RequestCreatedAt(rs[i]) >= RequestCreatedAt(rs[j]);
      forall x ensures x in rs <==> x in reqs {
        SortDescSameElements(reqs, RequestCreatedAt, x);
      }
    }

    /** GET /tickets: the caller's tickets, newest first. */
    method ListTickets(caller: Caller) returns (ts: seq<Ticket>)
      requires Valid()
      ensures forall i, j :: 0 <= i < j < |ts| ==> ts[i].createdAt >= ts[j].createdAt
      ensures forall t :: t in ts ==>
        TicketByIdKey(t.id) in kv && kv[TicketByIdKey(t.id)] == TicketV(t) && Sees(caller, t.studentId)
      ensures forall k :: k in kv && HasPrefix(TicketByIdNs, k) && kv[k].TicketV? && Sees(caller, kv[k].ticket.studentId) ==>
        kv[k].ticket in ts
      ensures |ts| == |ScannedKeys(kv, caller, TicketScope(caller))|
      ensures caller.role == NoRole ==> ts == []
    {
      if caller.role == NoRole {
        return [];
      }
      var vs, ks := GetByPrefix(TicketScope(caller));
      TicketScan(kv, caller, ks);
      var found := seq(|vs|, i requires 0 <= i < |vs| => vs[i].ticket);
      ScopedTicketsFacts(kv, caller, ks, found);
      ts := SortDesc(found, TicketCreatedAt);
      assert forall i, j :: 0 <= i < j < |ts| ==> TicketCreatedAt(ts[i]) >= TicketCreatedAt(ts[j]);
      forall t ensures t in ts <==> t in found {
        SortDescSameElements(found, TicketCreatedAt, t);
      }
    }

    /** The messages of one thread as a `message:<cid>:` scan returns them. */
    method ThreadMessages(cid: string) returns (ms: seq<Message>, ghost ks: seq<string>)
      requires Valid()
      ensures Enumerates(kv, MessagePrefix(cid), ks)
      ensures forall i :: 0 <= i < |ks| ==> ks[i] in ThreadMap(kv, cid)
      ensures ms == ValuesAt(ThreadMap(kv, cid), ks)
    {
      var vs;
      vs, ks := GetByPrefix(MessagePrefix(cid));
      ThreadScan(kv, cid, ks);
      ms := seq(|vs|, i requires 0 <= i < |vs| => vs[i].msg);
    }

    /** GET /messages/:conversationId: a thread, oldest first; any signed-in caller may read any thread. */
    method ListMessages(conversationId: string) returns (ms: seq<Message>)
      requires Valid()
      ensures forall i, j :: 0 <= i < j < |ms| ==> ms[i].timestamp <= ms[j].timestamp
      ensures forall m :: m in ms ==>
        MessageKey(conversationId, m.id) in kv && kv[MessageKey(conversationId, m.id)] == MessageV(m)
      ensures forall k :: k in ThreadKeys(kv, conversationId) ==> kv[k].MessageV? && kv[k].msg in ms
      ensures |ms| == |ThreadKeys(kv, conversationId)|
    {
      var found, ks := ThreadMessages(conversationId);
      ThreadListFacts(kv, conversationId, ks, found);
      ms := Chronological(found);
    }

    /** One summary per request, in order: the `Promise.all` over the caller's requests. */
    method Summaries(reqs: seq<DocRequest>, viewer: string) returns (sums: seq<Conversation>)
      requires Valid()
      ensures |sums| == |reqs|
      ensures forall j :: 0 <= j < |reqs| ==> sums[j].request == reqs[j] && Summarizes(kv, sums[j], viewer)
    {
      sums := [];
      var i := 0;
      while i < |reqs|
        invariant 0 <= i <= |reqs| && |sums| == i
        invariant forall j :: 0 <= j < i ==> sums[j].request == reqs[j] && Summarizes(kv, sums[j], viewer)
      {
        var ms, ks := ThreadMessages(reqs[i].id);
        SummaryOfScan(kv, reqs[i], ks, ms, viewer);
        sums := sums + [Summarize(reqs[i], ms, viewer)];
        i := i + 1;
      }
    }

    /** GET /conversations: each visible request with its thread's summary, latest activity first. */
    method ListConversations(caller: Caller) returns (cs: seq<Conversation>)
      requires Valid()
      ensures forall i, j :: 0 <= i < j < |cs| ==> LastTime(cs[i]) >= LastTime(cs[j])
      ensures forall c :: c in cs ==>
        && RequestByIdKey(c.request.id) in kv && kv[RequestByIdKey(c.request.id)] == RequestV(c.request)
        && Sees(caller, c.request.studentId)
        && Summarizes(kv, c, caller.id)
      ensures forall k :: k in kv && HasPrefix(RequestByIdNs, k) && kv[k].RequestV? && Sees(caller, kv[k].req.studentId) ==>
        exists c :: c in cs && c.request == kv[k].req
      ensures |cs| == |ScannedKeys(kv, caller, RequestScope(caller))|
    {
      var reqs := ScopedRequests(caller);
      var sums := Summaries(reqs, caller.id);
      cs := SortDesc(sums, LastTime);
      ConversationFacts(kv, caller, reqs, sums, SortDesc(sums, LastTime));
    }

    /** GET /announcements (public): the active notices not yet expired, newest first. */
    method ListAnnouncements(now: int) returns (anns: seq<Announcement>)
      requires Valid()
      ensures forall i, j :: 0 <= i < j < |anns| ==> anns[i].createdAt >= anns[j].createdAt
      ensures forall a :: a in anns ==> IsVisible(a, now) && a in AnnouncementMap(kv).Values
      ensures forall k :: k in kv && HasPrefix(AnnouncementNs, k) && kv[k].AnnouncementV? && IsVisible(kv[k].ann, now) ==>
        kv[k].ann in anns
      ensures |anns| == |VisibleKeys(kv, now)|
    {
      var vs, ks := GetByPrefix(AnnouncementNs);
      assert forall i :: 0 <= i < |vs| ==> vs[i].AnnouncementV?;
      var stored := seq(|vs|, i requires 0 <= i < |vs| => vs[i].ann);
      PublicListFacts(kv, ks, stored, now);
      anns := PublicList(stored, now);
    }
  }
}
