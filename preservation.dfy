/**
 * Each write the handlers perform keeps the store invariant: writes outside
 * a namespace leave its clause alone (the frame lemmas), and the writes
 * inside one keep its records and indexes in step.
 */
module Preservation {
  import opened Keys
  import opened Records
  import opened Invariant
  import opened Users

  lemma RequestKeyInjective(a: string, b: string, c: string, d: string)
    requires ColonFree(a) && ColonFree(b) && ColonFree(c) && ColonFree(d)
    requires RequestKey(a, b) == RequestKey(c, d)
    ensures a == c && b == d
  {
    KeyInjective(RequestNs, a, b, c, d);
  }

  lemma TicketKeyInjective(a: string, b: string, c: string, d: string)
    requires ColonFree(a) && ColonFree(b) && ColonFree(c) && ColonFree(d)
    requires TicketKey(a, b) == TicketKey(c, d)
    ensures a == c && b == d
  {
    KeyInjective(TicketNs, a, b, c, d);
  }

  lemma MessageKeyInjective(a: string, b: string, c: string, d: string)
    requires ColonFree(a) && ColonFree(b) && ColonFree(c) && ColonFree(d)
    requires MessageKey(a, b) == MessageKey(c, d)
    ensures a == c && b == d
  {
    KeyInjective(MessageNs, a, b, c, d);
  }

  lemma SuffixInjective(ns: string, a: string, b: string)
    requires ns + a == ns + b
    ensures a == b
  {
    assert a == (ns + a)[|ns|..];
  }

  // ---------------------------------------------------------------- frames

  lemma RequestsFrame(kv: Store, k: string, v: Value)
    requires RequestsIndexed(kv)
    requires !HasPrefix(RequestNs, k) && !HasPrefix(RequestByIdNs, k)
    ensures RequestsIndexed(kv[k := v])
  {
  }

  lemma TicketsFrame(kv: Store, k: string, v: Value)
    requires TicketsIndexed(kv)
    requires !HasPrefix(TicketNs, k) && !HasPrefix(TicketByIdNs, k)
    ensures TicketsIndexed(kv[k := v])
  {
  }

  /** Messages only need their request's key to stay present, which no write removes. */
  lemma MessagesFrame(kv: Store, k: string, v: Value)
    requires MessagesThreaded(kv)
    requires !HasPrefix(MessageNs, k)
    ensures MessagesThreaded(kv[k := v])
  {
  }

  lemma AnnouncementsFrame(kv: Store, k: string, v: Value)
    requires AnnouncementsTyped(kv)
    requires !HasPrefix(AnnouncementNs, k) || v.AnnouncementV?
    ensures AnnouncementsTyped(kv[k := v])
  {
  }

  lemma UsersFrame(kv: Store, k: string, v: Value)
    requires UsersIndexed(kv)
    requires !HasPrefix(UserNs, k) && !HasPrefix(EmailNs, k) && !HasPrefix(StudentIdNs, k)
    ensures UsersIndexed(kv[k := v])
  {
  }

  /** Two writes outside the ticket namespaces leave the ticket clause alone. */
  lemma TicketsFrame2(kv: Store, k1: string, v1: Value, k2: string, v2: Value)
    requires TicketsIndexed(kv)
    requires !HasPrefix(TicketNs, k1) && !HasPrefix(TicketByIdNs, k1)
    requires !HasPrefix(TicketNs, k2) && !HasPrefix(TicketByIdNs, k2)
    ensures TicketsIndexed(kv[k1 := v1][k2 := v2])
  {
    TicketsFrame(kv, k1, v1);
    TicketsFrame(kv[k1 := v1], k2, v2);
  }

  lemma RequestsFrame2(kv: Store, k1: string, v1: Value, k2: string, v2: Value)
    requires RequestsIndexed(kv)
    requires !HasPrefix(RequestNs, k1) && !HasPrefix(RequestByIdNs, k1)
    requires !HasPrefix(RequestNs, k2) && !HasPrefix(RequestByIdNs, k2)
    ensures RequestsIndexed(kv[k1 := v1][k2 := v2])
  {
    RequestsFrame(kv, k1, v1);
    RequestsFrame(kv[k1 := v1], k2, v2);
  }

  lemma MessagesFrame2(kv: Store, k1: string, v1: Value, k2: string, v2: Value)
    requires MessagesThreaded(kv)
    requires !HasPrefix(MessageNs, k1) && !HasPrefix(MessageNs, k2)
    ensures MessagesThreaded(kv[k1 := v1][k2 := v2])
  {
    MessagesFrame(kv, k1, v1);
    MessagesFrame(kv[k1 := v1], k2, v2);
  }

  lemma AnnouncementsFrame2(kv: Store, k1: string, v1: Value, k2: string, v2: Value)
    requires AnnouncementsTyped(kv)
    requires !HasPrefix(AnnouncementNs, k1) && !HasPrefix(AnnouncementNs, k2)
    ensures AnnouncementsTyped(kv[k1 := v1][k2 := v2])
  {
    AnnouncementsFrame(kv, k1, v1);
    AnnouncementsFrame(kv[k1 := v1], k2, v2);
  }

  lemma UsersFrame2(kv: Store, k1: string, v1: Value, k2: string, v2: Value)
    requires UsersIndexed(kv)
    requires !HasPrefix(UserNs, k1) && !HasPrefix(EmailNs, k1) && !HasPrefix(StudentIdNs, k1)
    requires !HasPrefix(UserNs, k2) && !HasPrefix(EmailNs, k2) && !HasPrefix(StudentIdNs, k2)
    ensures UsersIndexed(kv[k1 := v1][k2 := v2])
  {
    UsersFrame(kv, k1, v1);
    UsersFrame(kv[k1 := v1], k2, v2);
  }

  /** Deleting an announcement touches no other namespace. */
  lemma RemoveAnnouncement(kv: Store, k: string)
    requires Valid(kv)
    requires HasPrefix(AnnouncementNs, k)
    ensures Valid(kv - {k})
  {
    Exclusive(AnnouncementNs, k);
    RequestsRemove(kv, k);
    TicketsRemove(kv, k);
    MessagesRemove(kv, k);
    UsersRemove(kv, k);
  }

  lemma RequestsRemove(kv: Store, k: string)
    requires RequestsIndexed(kv)
    requires !HasPrefix(RequestNs, k) && !HasPrefix(RequestByIdNs, k)
    ensures RequestsIndexed(kv - {k})
  {
  }

  lemma TicketsRemove(kv: Store, k: string)
    requires TicketsIndexed(kv)
    requires !HasPrefix(TicketNs, k) && !HasPrefix(TicketByIdNs, k)
    ensures TicketsIndexed(kv - {k})
  {
  }

  lemma MessagesRemove(kv: Store, k: string)
    requires MessagesThreaded(kv)
    requires !HasPrefix(RequestByIdNs, k) && !HasPrefix(MessageNs, k)
    ensures MessagesThreaded(kv - {k})
  {
  }

  lemma UsersRemove(kv: Store, k: string)
    requires UsersIndexed(kv)
    requires !HasPrefix(UserNs, k) && !HasPrefix(EmailNs, k) && !HasPrefix(StudentIdNs, k)
    ensures UsersIndexed(kv - {k})
  {
  }

  // ---------------------------------------------------------------- requests

  /** Under the invariant, a colon-free request id without a `request_by_id:` entry has no `request:` entry either. */
  lemma RequestKeyAbsent(kv: Store, sid: string, id: string)
    requires RequestsIndexed(kv)
    requires ColonFree(sid) && ColonFree(id)
    requires RequestByIdKey(id) !in kv
    ensures RequestKey(sid, id) !in kv
  {
    var k := RequestKey(sid, id);
    if k in kv {
      var r0 := kv[k].req;
      assert kv[RequestByIdKey(r0.id)] == kv[k];
      RequestKeyInjective(sid, id, r0.studentId, r0.id);
      assert false;
    }
  }

  /**
   * Writing both copies of `r` keeps the request indexes, provided the id is
   * either new or already belongs to the same student.
   */
  lemma WriteRequestIndexed(kv: Store, r: DocRequest)
    requires RequestsIndexed(kv)
    requires ColonFree(r.id) && ColonFree(r.studentId)
    requires RequestByIdKey(r.id) in kv ==> kv[RequestByIdKey(r.id)].req.studentId == r.studentId
    ensures RequestsIndexed(WriteRequest(kv, r))
  {
    var k1, k2 := RequestKey(r.studentId, r.id), RequestByIdKey(r.id);
    var kv' := WriteRequest(kv, r);
    forall k | k in kv' && HasPrefix(RequestByIdNs, k)
      ensures && kv'[k].RequestV?
              && ColonFree(kv'[k].req.id) && ColonFree(kv'[k].req.studentId)
              && k == RequestByIdKey(kv'[k].req.id)
              && RequestKey(kv'[k].req.studentId, kv'[k].req.id) in kv'
              && kv'[RequestKey(kv'[k].req.studentId, kv'[k].req.id)] == kv'[k]
    {
      if k != k2 {
        assert k != k1;
        var r0 := kv[k].req;
        if r0.id == r.id { assert false; }
        var j := RequestKey(r0.studentId, r0.id);
        if j == k1 {
          RequestKeyInjective(r0.studentId, r0.id, r.studentId, r.id);
        }
        assert j != k2;
      }
    }
    forall k | k in kv' && HasPrefix(RequestNs, k)
      ensures && kv'[k].RequestV?
              && k == RequestKey(kv'[k].req.studentId, kv'[k].req.id)
              && RequestByIdKey(kv'[k].req.id) in kv'
              && kv'[RequestByIdKey(kv'[k].req.id)] == kv'[k]
    {
      if k != k1 {
        assert k != k2;
        var r0 := kv[k].req;
        var j := RequestByIdKey(r0.id);
        assert kv[j] == kv[k];
        if j == k2 {
          SuffixInjective(RequestByIdNs, r0.id, r.id);
          assert false;
        }
      }
    }
  }

  /** Writing both copies of a request (new id, or same owner) keeps the whole invariant. */
  lemma WriteRequestKeepsValid(kv: Store, r: DocRequest)
    requires Valid(kv)
    requires ColonFree(r.id) && ColonFree(r.studentId)
    requires RequestByIdKey(r.id) in kv ==> kv[RequestByIdKey(r.id)].req.studentId == r.studentId
    ensures Valid(WriteRequest(kv, r))
  {
    var k1, k2, v := RequestKey(r.studentId, r.id), RequestByIdKey(r.id), RequestV(r);
    WriteRequestIndexed(kv, r);
    TicketsFrame2(kv, k1, v, k2, v);
    MessagesFrame2(kv, k1, v, k2, v);
    AnnouncementsFrame2(kv, k1, v, k2, v);
    UsersFrame2(kv, k1, v, k2, v);
  }

  /** Adding a message to an existing request's thread keeps the invariant. */
  lemma AddMessageKeepsValid(kv: Store, m: Message)
    requires Valid(kv)
    requires ColonFree(m.id) && ColonFree(m.conversationId)
    requires RequestByIdKey(m.conversationId) in kv
    ensures Valid(kv[MessageKey(m.conversationId, m.id) := MessageV(m)])
  {
    var k, v := MessageKey(m.conversationId, m.id), MessageV(m);
    RequestsFrame(kv, k, v);
    TicketsFrame(kv, k, v);
    AnnouncementsFrame(kv, k, v);
    UsersFrame(kv, k, v);
    AddMessageThreaded(kv, m);
  }

  /** A message whose request exists keeps every message threaded. */
  lemma AddMessageThreaded(kv: Store, m: Message)
    requires MessagesThreaded(kv)
    requires ColonFree(m.id) && ColonFree(m.conversationId)
    requires RequestByIdKey(m.conversationId) in kv
    ensures MessagesThreaded(kv[MessageKey(m.conversationId, m.id) := MessageV(m)])
  {
  }

  /** A create writes a fresh request's two copies and its opening message. */
  lemma CreateKeepsValid(kv: Store, r: DocRequest, m: Message)
    requires Valid(kv)
    requires ColonFree(r.id) && ColonFree(r.studentId) && ColonFree(m.id) && m.conversationId == r.id
    requires RequestByIdKey(r.id) !in kv
    ensures Valid(AfterCreate(kv, r, m))
  {
    WriteRequestKeepsValid(kv, r);
    AddMessageKeepsValid(WriteRequest(kv, r), m);
  }

  // ---------------------------------------------------------------- tickets

  lemma WriteTicketIndexed(kv: Store, t: Ticket)
    requires TicketsIndexed(kv)
    requires ColonFree(t.id) && ColonFree(t.studentId)
    requires TicketByIdKey(t.id) in kv ==> kv[TicketByIdKey(t.id)].ticket.studentId == t.studentId
    ensures TicketsIndexed(WriteTicket(kv, t))
  {
    var k1, k2 := TicketKey(t.studentId, t.id), TicketByIdKey(t.id);
    var kv' := WriteTicket(kv, t);
    forall k | k in kv' && HasPrefix(TicketByIdNs, k)
      ensures && kv'[k].TicketV?
              && ColonFree(kv'[k].ticket.id) && ColonFree(kv'[k].ticket.studentId)
              && k == TicketByIdKey(kv'[k].ticket.id)
              && TicketKey(kv'[k].ticket.studentId, kv'[k].ticket.id) in kv'
              && kv'[TicketKey(kv'[k].ticket.studentId, kv'[k].ticket.id)] == kv'[k]
    {
      if k != k2 {
        assert k != k1;
        var t0 := kv[k].ticket;
        if t0.id == t.id { assert false; }
        var j := TicketKey(t0.studentId, t0.id);
        if j == k1 {
          TicketKeyInjective(t0.studentId, t0.id, t.studentId, t.id);
        }
        assert j != k2;
      }
    }
    forall k | k in kv' && HasPrefix(TicketNs, k)
      ensures && kv'[k].TicketV?
              && k == TicketKey(kv'[k].ticket.studentId, kv'[k].ticket.id)
              && TicketByIdKey(kv'[k].ticket.id) in kv'
              && kv'[TicketByIdKey(kv'[k].ticket.id)] == kv'[k]
    {
      if k != k1 {
        assert k != k2;
        var t0 := kv[k].ticket;
        var j := TicketByIdKey(t0.id);
        assert kv[j] == kv[k];
        if j == k2 {
          SuffixInjective(TicketByIdNs, t0.id, t.id);
          assert false;
        }
      }
    }
  }

  /** Writing both copies of a ticket (new id, or same owner) keeps the whole invariant. */
  lemma WriteTicketKeepsValid(kv: Store, t: Ticket)
    requires Valid(kv)
    requires ColonFree(t.id) && ColonFree(t.studentId)
    requires TicketByIdKey(t.id) in kv ==> kv[TicketByIdKey(t.id)].ticket.studentId == t.studentId
    ensures Valid(WriteTicket(kv, t))
  {
    var k1, k2, v := TicketKey(t.studentId, t.id), TicketByIdKey(t.id), TicketV(t);
    WriteTicketIndexed(kv, t);
    RequestsFrame2(kv, k1, v, k2, v);
    MessagesFrame2(kv, k1, v, k2, v);
    AnnouncementsFrame2(kv, k1, v, k2, v);
    UsersFrame2(kv, k1, v, k2, v);
  }

  // ---------------------------------------------------------------- announcements

  lemma SetAnnouncementKeepsValid(kv: Store, id: string, a: Announcement)
    requires Valid(kv)
    ensures Valid(kv[AnnouncementKey(id) := AnnouncementV(a)])
  {
    var k, v := AnnouncementKey(id), AnnouncementV(a);
    RequestsFrame(kv, k, v);
    TicketsFrame(kv, k, v);
    MessagesFrame(kv, k, v);
    AnnouncementsFrame(kv, k, v);
    UsersFrame(kv, k, v);
  }

  // ---------------------------------------------------------------- users

  /** An old profile stays indexed after signup's three writes. */
  lemma SignupKeepsProfile(kv: Store, u: User, k: string)
    requires ProfilesIndexed(kv)
    requires UserKey(u.id) !in kv && EmailKey(u.email) !in kv && StudentIdKey(u.studentId) !in kv
    requires k in kv && HasPrefix(UserNs, k)
    ensures var kv' := AfterSignup(kv, u);
      && kv'[k].UserV? && k == UserKey(kv'[k].user.id)
      && EmailKey(kv'[k].user.email) in kv'
      && kv'[EmailKey(kv'[k].user.email)] == UserIdV(kv'[k].user.id)
      && (kv'[k].user.role == Student ==>
            && StudentIdKey(kv'[k].user.studentId) in kv'
            && kv'[StudentIdKey(kv'[k].user.studentId)] == UserIdV(kv'[k].user.id))
  {
    var k1, k2, k3 := UserKey(u.id), EmailKey(u.email), StudentIdKey(u.studentId);
    assert k != k1 && k != k2 && k != k3;
    var w := kv[k].user;
    assert EmailKey(w.email) != k2 && EmailKey(w.email) != k1 && EmailKey(w.email) != k3;
    if w.role == Student {
      assert StudentIdKey(w.studentId) != k3;
      assert StudentIdKey(w.studentId) != k1 && StudentIdKey(w.studentId) != k2;
    }
  }

  /** Signup's three writes index the new profile and keep every old profile indexed. */
  lemma SignupProfiles(kv: Store, u: User)
    requires ProfilesIndexed(kv)
    requires UserKey(u.id) !in kv && EmailKey(u.email) !in kv && StudentIdKey(u.studentId) !in kv
    ensures ProfilesIndexed(AfterSignup(kv, u))
  {
    var k1 := UserKey(u.id);
    var kv' := AfterSignup(kv, u);
    forall k | k in kv' && HasPrefix(UserNs, k)
      ensures && kv'[k].UserV? && k == UserKey(kv'[k].user.id)
              && EmailKey(kv'[k].user.email) in kv'
              && kv'[EmailKey(kv'[k].user.email)] == UserIdV(kv'[k].user.id)
              && (kv'[k].user.role == Student ==>
                    && StudentIdKey(kv'[k].user.studentId) in kv'
                    && kv'[StudentIdKey(kv'[k].user.studentId)] == UserIdV(kv'[k].user.id))
    {
      if k != k1 {
        SignupKeepsProfile(kv, u, k);
      }
    }
  }

  /** Signup's three writes keep every e-mail index entry pointing at its profile. */
  lemma SignupEmails(kv: Store, u: User)
    requires EmailsIndexed(kv)
    requires UserKey(u.id) !in kv && EmailKey(u.email) !in kv && StudentIdKey(u.studentId) !in kv
    ensures EmailsIndexed(AfterSignup(kv, u))
  {
    var k1, k2, k3 := UserKey(u.id), EmailKey(u.email), StudentIdKey(u.studentId);
    var kv' := AfterSignup(kv, u);
    forall k | k in kv' && HasPrefix(EmailNs, k)
      ensures && kv'[k].UserIdV?
              && UserKey(kv'[k].userId) in kv'
              && kv'[UserKey(kv'[k].userId)].UserV?
              && k == EmailKey(kv'[UserKey(kv'[k].userId)].user.email)
    {
      if k != k2 {
        assert k != k1 && k != k3;
        assert UserKey(kv[k].userId) != k1;
      }
    }
  }

  /** Signup's three writes keep every student-id index entry pointing at its profile. */
  lemma SignupStudentIds(kv: Store, u: User)
    requires StudentIdsIndexed(kv)
    requires UserKey(u.id) !in kv && EmailKey(u.email) !in kv && StudentIdKey(u.studentId) !in kv
    ensures StudentIdsIndexed(AfterSignup(kv, u))
  {
    var k1, k2, k3 := UserKey(u.id), EmailKey(u.email), StudentIdKey(u.studentId);
    var kv' := AfterSignup(kv, u);
    forall k | k in kv' && HasPrefix(StudentIdNs, k)
      ensures && kv'[k].UserIdV?
              && UserKey(kv'[k].userId) in kv'
              && kv'[UserKey(kv'[k].userId)].UserV?
              && k == StudentIdKey(kv'[UserKey(kv'[k].userId)].user.studentId)
    {
      if k != k3 {
        assert k != k1 && k != k2;
        assert UserKey(kv[k].userId) != k1;
      }
    }
  }

  lemma SignupKeepsValid(kv: Store, u: User)
    requires Valid(kv)
    requires UserKey(u.id) !in kv && EmailKey(u.email) !in kv && StudentIdKey(u.studentId) !in kv
    ensures Valid(AfterSignup(kv, u))
  {
    var k1, k2, k3 := UserKey(u.id), EmailKey(u.email), StudentIdKey(u.studentId);
    var v1, v2 := UserV(u), UserIdV(u.id);
    var h2 := kv[k1 := v1][k2 := v2];
    SignupProfiles(kv, u);
    SignupEmails(kv, u);
    SignupStudentIds(kv, u);
    RequestsFrame2(kv, k1, v1, k2, v2); RequestsFrame(h2, k3, v2);
    TicketsFrame2(kv, k1, v1, k2, v2); TicketsFrame(h2, k3, v2);
    MessagesFrame2(kv, k1, v1, k2, v2); MessagesFrame(h2, k3, v2);
    AnnouncementsFrame2(kv, k1, v1, k2, v2); AnnouncementsFrame(h2, k3, v2);
  }

  /** The bootstrap's two writes index the admin's profile by its e-mail and keep every old profile indexed. */
  lemma BootstrapProfiles(kv: Store, u: User)
    requires ProfilesIndexed(kv)
    requires UserKey(u.id) !in kv && EmailKey(u.email) !in kv && u.role != Student
    ensures ProfilesIndexed(AfterBootstrap(kv, u))
  {
    var k1, k2 := UserKey(u.id), EmailKey(u.email);
    var kv' := AfterBootstrap(kv, u);
    forall k | k in kv' && HasPrefix(UserNs, k)
      ensures && kv'[k].UserV? && k == UserKey(kv'[k].user.id)
              && EmailKey(kv'[k].user.email) in kv'
              && kv'[EmailKey(kv'[k].user.email)] == UserIdV(kv'[k].user.id)
              && (kv'[k].user.role == Student ==>
                    && StudentIdKey(kv'[k].user.studentId) in kv'
                    && kv'[StudentIdKey(kv'[k].user.studentId)] == UserIdV(kv'[k].user.id))
    {
      if k != k1 {
        assert k != k2;
        var w := kv[k].user;
        assert EmailKey(w.email) != k2 && EmailKey(w.email) != k1;
        if w.role == Student {
          assert StudentIdKey(w.studentId) != k1 && StudentIdKey(w.studentId) != k2;
        }
      }
    }
  }

  /** The bootstrap's two writes keep every user index entry pointing at its profile. */
  lemma BootstrapIndexes(kv: Store, u: User)
    requires EmailsIndexed(kv) && StudentIdsIndexed(kv)
    requires UserKey(u.id) !in kv && EmailKey(u.email) !in kv
    ensures EmailsIndexed(AfterBootstrap(kv, u)) && StudentIdsIndexed(AfterBootstrap(kv, u))
  {
    var k1, k2 := UserKey(u.id), EmailKey(u.email);
    var kv' := AfterBootstrap(kv, u);
    forall k | k in kv' && HasPrefix(EmailNs, k)
      ensures && kv'[k].UserIdV?
              && UserKey(kv'[k].userId) in kv'
              && kv'[UserKey(kv'[k].userId)].UserV?
              && k == EmailKey(kv'[UserKey(kv'[k].userId)].user.email)
    {
      if k != k2 {
        assert k != k1;
        assert UserKey(kv[k].userId) != k1;
      }
    }
    forall k | k in kv' && HasPrefix(StudentIdNs, k)
      ensures && kv'[k].UserIdV?
              && UserKey(kv'[k].userId) in kv'
              && kv'[UserKey(kv'[k].userId)].UserV?
              && k == StudentIdKey(kv'[UserKey(kv'[k].userId)].user.studentId)
    {
      assert k != k1 && k != k2;
      assert UserKey(kv[k].userId) != k1;
    }
  }

  /** Writing a non-student profile under a fresh id and a fresh e-mail keeps the invariant. */
  lemma BootstrapKeepsValid(kv: Store, u: User)
    requires Valid(kv)
    requires UserKey(u.id) !in kv && EmailKey(u.email) !in kv && u.role != Student
    ensures Valid(AfterBootstrap(kv, u))
  {
    var k1, k2 := UserKey(u.id), EmailKey(u.email);
    var v1, v2 := UserV(u), UserIdV(u.id);
    BootstrapProfiles(kv, u);
    BootstrapIndexes(kv, u);
    RequestsFrame2(kv, k1, v1, k2, v2);
    TicketsFrame2(kv, k1, v1, k2, v2);
    MessagesFrame2(kv, k1, v1, k2, v2);
    AnnouncementsFrame2(kv, k1, v1, k2, v2);
  }

  /** The store the server runs on after the bootstrap on an empty table keeps the invariant. */
  lemma BootstrappedValid(id: string, now: int)
    ensures Valid(AfterBootstrap(map[], DefaultAdmin(id, now)))
  {
    BootstrapKeepsValid(map[], DefaultAdmin(id, now));
  }
}
