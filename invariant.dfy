/**
 * What the handlers keep true of the store, stated over the flat map:
 * every namespace holds the kind of record its prefix promises, the two
 * copies of a request (and of a ticket) agree, every message belongs to an
 * existing request, and the user indexes point at the profile they index.
 */
module Invariant {
  import opened Keys
  import opened Records
  import opened Listing
  import opened Requests

  type Store = map<string, Value>

  /** `ks` lists every key of `kv` under `p`, once each: a `getByPrefix(p)` scan. */
  ghost predicate Enumerates(kv: Store, p: string, ks: seq<string>) {
    && Distinct(ks)
    && (forall i :: 0 <= i < |ks| ==> ks[i] in kv && HasPrefix(p, ks[i]))
    && (forall k :: k in kv && HasPrefix(p, k) ==> k in ks)
  }

  /** Requests: `request_by_id:<id>` and `request:<studentId>:<id>` hold the same record. */
  ghost predicate RequestsIndexed(kv: Store) {
    && (forall k :: k in kv && HasPrefix(RequestByIdNs, k) ==>
          && kv[k].RequestV?
          && ColonFree(kv[k].req.id) && ColonFree(kv[k].req.studentId)
          && k == RequestByIdKey(kv[k].req.id)
          && RequestKey(kv[k].req.studentId, kv[k].req.id) in kv
          && kv[RequestKey(kv[k].req.studentId, kv[k].req.id)] == kv[k])
    && (forall k :: k in kv && HasPrefix(RequestNs, k) ==>
          && kv[k].RequestV?
          && k == RequestKey(kv[k].req.studentId, kv[k].req.id)
          && RequestByIdKey(kv[k].req.id) in kv
          && kv[RequestByIdKey(kv[k].req.id)] == kv[k])
  }

  /** Tickets: `ticket_by_id:<id>` and `ticket:<studentId>:<id>` hold the same record. */
  ghost predicate TicketsIndexed(kv: Store) {
    && (forall k :: k in kv && HasPrefix(TicketByIdNs, k) ==>
          && kv[k].TicketV?
          && ColonFree(kv[k].ticket.id) && ColonFree(kv[k].ticket.studentId)
          && k == TicketByIdKey(kv[k].ticket.id)
          && TicketKey(kv[k].ticket.studentId, kv[k].ticket.id) in kv
          && kv[TicketKey(kv[k].ticket.studentId, kv[k].ticket.id)] == kv[k])
    && (forall k :: k in kv && HasPrefix(TicketNs, k) ==>
          && kv[k].TicketV?
          && k == TicketKey(kv[k].ticket.studentId, kv[k].ticket.id)
          && TicketByIdKey(kv[k].ticket.id) in kv
          && kv[TicketByIdKey(kv[k].ticket.id)] == kv[k])
  }

  /** Messages: `message:<conversationId>:<id>` belongs to an existing request. */
  ghost predicate MessagesThreaded(kv: Store) {
    forall k :: k in kv && HasPrefix(MessageNs, k) ==>
      && kv[k].MessageV?
      && ColonFree(kv[k].msg.conversationId) && ColonFree(kv[k].msg.id)
      && k == MessageKey(kv[k].msg.conversationId, kv[k].msg.id)
      && RequestByIdKey(kv[k].msg.conversationId) in kv
  }

  ghost predicate AnnouncementsTyped(kv: Store) {
    forall k :: k in kv && HasPrefix(AnnouncementNs, k) ==> kv[k].AnnouncementV?
  }

  /**
   * Users: each profile is indexed by its e-mail, and a student's profile
   * also by its student id (the bootstrapped admin has none).
   */
  ghost predicate ProfilesIndexed(kv: Store) {
    forall k :: k in kv && HasPrefix(UserNs, k) ==>
      && kv[k].UserV? && k == UserKey(kv[k].user.id)
      && EmailKey(kv[k].user.email) in kv
      && kv[EmailKey(kv[k].user.email)] == UserIdV(kv[k].user.id)
      && (kv[k].user.role == Student ==>
            && StudentIdKey(kv[k].user.studentId) in kv
            && kv[StudentIdKey(kv[k].user.studentId)] == UserIdV(kv[k].user.id))
  }

  /** Each `user_by_email:` entry names a stored profile with that e-mail. */
  ghost predicate EmailsIndexed(kv: Store) {
    forall k :: k in kv && HasPrefix(EmailNs, k) ==>
      && kv[k].UserIdV?
      && UserKey(kv[k].userId) in kv
      && kv[UserKey(kv[k].userId)].UserV?
      && k == EmailKey(kv[UserKey(kv[k].userId)].user.email)
  }

  /** Each `user_by_studentid:` entry names a stored profile with that student id. */
  ghost predicate StudentIdsIndexed(kv: Store) {
    forall k :: k in kv && HasPrefix(StudentIdNs, k) ==>
      && kv[k].UserIdV?
      && UserKey(kv[k].userId) in kv
      && kv[UserKey(kv[k].userId)].UserV?
      && k == StudentIdKey(kv[UserKey(kv[k].userId)].user.studentId)
  }

  /** The user indexes and the profiles point at each other. */
  ghost predicate UsersIndexed(kv: Store) {
    ProfilesIndexed(kv) && EmailsIndexed(kv) && StudentIdsIndexed(kv)
  }

  ghost predicate Valid(kv: Store) {
    && RequestsIndexed(kv)
    && TicketsIndexed(kv)
    && MessagesThreaded(kv)
    && AnnouncementsTyped(kv)
    && UsersIndexed(kv)
  }

  /** The keys the cap counts for one student: under `request:<sid>:` and not completed. */
  ghost function ActiveKeys(kv: Store, sid: string): set<string> {
    set k | k in kv && HasPrefix(RequestPrefix(sid), k) && IsActive(kv[k])
  }

  /** No student holds more than two requests that are not completed. */
  ghost predicate CapHolds(kv: Store) {
    forall sid :: |ActiveKeys(kv, sid)| <= MaxActiveRequests
  }

  /** The keys of one conversation's thread. */
  ghost function ThreadKeys(kv: Store, cid: string): set<string> {
    KeysUnder(kv, MessagePrefix(cid))
  }

  /** The state after a successful create: both copies of `r`, then the opening message. */
  function AfterCreate(kv: Store, r: DocRequest, m: Message): Store {
    kv[RequestKey(r.studentId, r.id) := RequestV(r)]
      [RequestByIdKey(r.id) := RequestV(r)]
      [MessageKey(r.id, m.id) := MessageV(m)]
  }

  /** Both copies of a request replaced by `r` (the status update's `mset`). */
  function WriteRequest(kv: Store, r: DocRequest): Store {
    kv[RequestKey(r.studentId, r.id) := RequestV(r)][RequestByIdKey(r.id) := RequestV(r)]
  }

  /**
   * The status update's writes: both copies of the updated request, then the
   * system message when its new status has one.
   */
  function AfterStatus(kv: Store, r: DocRequest, messageId: string, now: int): Store {
    var w := WriteRequest(kv, r);
    var text := StatusText(r.status);
    if text.Some? then w[MessageKey(r.id, messageId) := MessageV(StatusMessage(messageId, r.id, text.value, now))]
    else w
  }

  /** Both copies of a ticket written (the ticket handlers' `mset`). */
  function WriteTicket(kv: Store, t: Ticket): Store {
    kv[TicketKey(t.studentId, t.id) := TicketV(t)][TicketByIdKey(t.id) := TicketV(t)]
  }

  /** The three keys signup writes. */
  function AfterSignup(kv: Store, u: User): Store {
    kv[UserKey(u.id) := UserV(u)][EmailKey(u.email) := UserIdV(u.id)][StudentIdKey(u.studentId) := UserIdV(u.id)]
  }

  /** The two keys the default-admin bootstrap writes: the profile and its e-mail index. */
  function AfterBootstrap(kv: Store, u: User): Store {
    kv[UserKey(u.id) := UserV(u)][EmailKey(u.email) := UserIdV(u.id)]
  }

  /** One conversation's thread, as the messages stored under its keys. */
  ghost function ThreadMap(kv: Store, cid: string): map<string, Message> {
    map k | k in kv && HasPrefix(MessagePrefix(cid), k) && kv[k].MessageV? :: kv[k].msg
  }

  /** The stored requests, by their `request_by_id:` keys. */
  ghost function RequestMap(kv: Store): map<string, DocRequest> {
    map k | k in kv && HasPrefix(RequestByIdNs, k) && kv[k].RequestV? :: kv[k].req
  }

  /** The stored tickets, by their `ticket_by_id:` keys. */
  ghost function TicketMap(kv: Store): map<string, Ticket> {
    map k | k in kv && HasPrefix(TicketByIdNs, k) && kv[k].TicketV? :: kv[k].ticket
  }

  /** The stored announcements, by their keys. */
  ghost function AnnouncementMap(kv: Store): map<string, Announcement> {
    map k | k in kv && HasPrefix(AnnouncementNs, k) && kv[k].AnnouncementV? :: kv[k].ann
  }

  /** The keys a listing handler scans. */
  ghost function KeysUnder(kv: Store, p: string): set<string> {
    set k | k in kv && HasPrefix(p, k)
  }
}
