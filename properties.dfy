/**
 * What the handlers' writes mean for the quantities the source reasons
 * about: the number of a student's active requests, and the thread of a
 * request.
 */
module Properties {
  import opened Keys
  import opened Records
  import opened Requests
  import opened Invariant
  import opened Preservation

  /** A key under `request:<sid>:` lies in the request namespace. */
  lemma UnderRequestPrefix(sid: string, k: string)
    requires HasPrefix(RequestPrefix(sid), k)
    ensures HasPrefix(RequestNs, k)
  {
    PrefixOfConcat(RequestNs, sid + ":");
    assert RequestPrefix(sid) == RequestNs + (sid + ":");
    PrefixTrans(RequestNs, RequestPrefix(sid), k);
  }

  /** A key under `message:<cid>:` lies in the message namespace. */
  lemma UnderMessagePrefix(cid: string, k: string)
    requires HasPrefix(MessagePrefix(cid), k)
    ensures HasPrefix(MessageNs, k)
  {
    PrefixOfConcat(MessageNs, cid + ":");
    assert MessagePrefix(cid) == MessageNs + (cid + ":");
    PrefixTrans(MessageNs, MessagePrefix(cid), k);
  }

  /** Every key of a thread holds a message of that conversation. */
  lemma ThreadBelongs(kv: Store, cid: string, k: string)
    requires MessagesThreaded(kv)
    requires k in ThreadKeys(kv, cid)
    ensures kv[k].MessageV? && kv[k].msg.conversationId == cid
  {
    UnderMessagePrefix(cid, k);
    var m := kv[k].msg;
    PrefixSplit(MessageNs, cid, m.conversationId, m.id);
  }

  /** A request id with no `request_by_id:` entry has an empty thread. */
  lemma NoThreadWithoutRequest(kv: Store, cid: string)
    requires MessagesThreaded(kv)
    requires RequestByIdKey(cid) !in kv
    ensures ThreadKeys(kv, cid) == {}
  {
    forall k | k in ThreadKeys(kv, cid) ensures false {
      ThreadBelongs(kv, cid, k);
    }
  }

  /** Writing a key outside the message namespace leaves every thread as it was. */
  lemma ThreadFrame(kv: Store, k: string, v: Value, cid: string)
    requires !HasPrefix(MessageNs, k)
    ensures ThreadKeys(kv[k := v], cid) == ThreadKeys(kv, cid)
    ensures forall j :: j in ThreadKeys(kv, cid) ==> kv[k := v][j] == kv[j]
  {
    forall j | j in ThreadKeys(kv[k := v], cid) ensures j in ThreadKeys(kv, cid) {
      UnderMessagePrefix(cid, j);
    }
    forall j | j in ThreadKeys(kv, cid) ensures j != k {
      UnderMessagePrefix(cid, j);
    }
  }

  /** Adding a message adds its key to its own thread and to no other. */
  lemma ThreadAdd(kv: Store, m: Message, cid: string)
    requires ColonFree(m.conversationId) && ColonFree(m.id)
    ensures ThreadKeys(kv[MessageKey(m.conversationId, m.id) := MessageV(m)], cid)
         == ThreadKeys(kv, cid) + (if cid == m.conversationId then {MessageKey(m.conversationId, m.id)} else {})
  {
    PrefixSplit(MessageNs, cid, m.conversationId, m.id);
  }

  /** The keys of one student's active requests after one more key is written. */
  lemma ActiveAfterWrite(kv: Store, k: string, v: Value, sid: string)
    ensures ActiveKeys(kv[k := v], sid)
         == (ActiveKeys(kv, sid) - {k}) + (if HasPrefix(RequestPrefix(sid), k) && IsActive(v) then {k} else {})
  {
  }

  /** A write outside the `request:` namespace leaves every active set alone. */
  lemma ActiveForeign(kv: Store, k: string, v: Value, sid: string)
    requires !HasPrefix(RequestNs, k)
    ensures ActiveKeys(kv[k := v], sid) == ActiveKeys(kv, sid)
  {
    if HasPrefix(RequestPrefix(sid), k) { UnderRequestPrefix(sid, k); assert false; }
    ActiveAfterWrite(kv, k, v, sid);
  }

  /** The per-student copy of a fresh request joins its own student's active set only. */
  lemma ActiveOwn(kv: Store, r: DocRequest, sid: string)
    requires RequestsIndexed(kv)
    requires ColonFree(r.id) && ColonFree(r.studentId)
    requires RequestByIdKey(r.id) !in kv
    requires IsActive(RequestV(r))
    ensures RequestKey(r.studentId, r.id) !in ActiveKeys(kv, sid)
    ensures ActiveKeys(kv[RequestKey(r.studentId, r.id) := RequestV(r)], sid)
         == ActiveKeys(kv, sid) + (if sid == r.studentId then {RequestKey(r.studentId, r.id)} else {})
  {
    RequestKeyAbsent(kv, r.studentId, r.id);
    PrefixSplit(RequestNs, sid, r.studentId, r.id);
    ActiveAfterWrite(kv, RequestKey(r.studentId, r.id), RequestV(r), sid);
  }

  /**
   * A create adds exactly one active request to its student and changes no
   * other student's count.
   */
  lemma CreateCounts(kv: Store, r: DocRequest, m: Message, sid: string)
    requires RequestsIndexed(kv)
    requires ColonFree(r.id) && ColonFree(r.studentId) && ColonFree(m.id) && m.conversationId == r.id
    requires RequestByIdKey(r.id) !in kv
    requires IsActive(RequestV(r))
    ensures sid == r.studentId ==> |ActiveKeys(AfterCreate(kv, r, m), sid)| == |ActiveKeys(kv, sid)| + 1
    ensures sid != r.studentId ==> ActiveKeys(AfterCreate(kv, r, m), sid) == ActiveKeys(kv, sid)
  {
    var k1, k2, k3 := RequestKey(r.studentId, r.id), RequestByIdKey(r.id), MessageKey(r.id, m.id);
    var h1 := kv[k1 := RequestV(r)];
    var h2 := h1[k2 := RequestV(r)];
    ActiveOwn(kv, r, sid);
    Distinguish(RequestNs, RequestByIdNs, k2);
    ActiveForeign(h1, k2, RequestV(r), sid);
    Distinguish(RequestNs, MessageNs, k3);
    ActiveForeign(h2, k3, MessageV(m), sid);
  }

  /**
   * A create that passed the cap check keeps every student at or below the
   * cap: after any sequence of successful creates from a store within the
   * cap, no student holds more than two requests that are not completed.
   */
  lemma CreateKeepsCap(kv: Store, r: DocRequest, m: Message)
    requires Valid(kv) && CapHolds(kv)
    requires ColonFree(r.id) && ColonFree(r.studentId) && ColonFree(m.id) && m.conversationId == r.id
    requires RequestByIdKey(r.id) !in kv
    requires IsActive(RequestV(r))
    requires |ActiveKeys(kv, r.studentId)| < MaxActiveRequests
    ensures CapHolds(AfterCreate(kv, r, m))
  {
    forall sid ensures |ActiveKeys(AfterCreate(kv, r, m), sid)| <= MaxActiveRequests {
      CreateCounts(kv, r, m, sid);
    }
  }

  /** A create's thread is exactly its opening message. */
  lemma CreateThread(kv: Store, r: DocRequest, m: Message)
    requires Valid(kv)
    requires ColonFree(r.id) && ColonFree(r.studentId) && ColonFree(m.id) && m.conversationId == r.id
    requires RequestByIdKey(r.id) !in kv
    ensures ThreadKeys(AfterCreate(kv, r, m), r.id) == {MessageKey(r.id, m.id)}
  {
    var w := WriteRequest(kv, r);
    NoThreadWithoutRequest(kv, r.id);
    ThreadFrame(kv, RequestKey(r.studentId, r.id), RequestV(r), r.id);
    ThreadFrame(kv[RequestKey(r.studentId, r.id) := RequestV(r)], RequestByIdKey(r.id), RequestV(r), r.id);
    ThreadAdd(w, m, r.id);
  }

  /**
   * A status update re-writes one request's two copies: for its student the
   * request's key leaves the active set, and comes back exactly when the new
   * status is not completed; no other student's set changes. Completing a
   * request therefore frees a slot, and re-opening one takes a slot back.
   */
  lemma StatusCounts(kv: Store, r: DocRequest, sid: string)
    requires RequestsIndexed(kv)
    requires ColonFree(r.id) && ColonFree(r.studentId)
    ensures sid == r.studentId ==>
      ActiveKeys(WriteRequest(kv, r), sid)
        == (ActiveKeys(kv, sid) - {RequestKey(r.studentId, r.id)})
           + (if IsActive(RequestV(r)) then {RequestKey(r.studentId, r.id)} else {})
    ensures sid != r.studentId ==> ActiveKeys(WriteRequest(kv, r), sid) == ActiveKeys(kv, sid)
  {
    var k1, k2 := RequestKey(r.studentId, r.id), RequestByIdKey(r.id);
    var h1 := kv[k1 := RequestV(r)];
    PrefixSplit(RequestNs, sid, r.studentId, r.id);
    ActiveAfterWrite(kv, k1, RequestV(r), sid);
    if HasPrefix(RequestPrefix(sid), k2) { UnderRequestPrefix(sid, k2); assert false; }
    ActiveAfterWrite(h1, k2, RequestV(r), sid);
  }

  /** What `StatusCounts` states of one student, for a store `kv'` after the update. */
  ghost predicate StatusCounted(kv: Store, kv': Store, r: DocRequest, sid: string) {
    && (sid == r.studentId ==>
          ActiveKeys(kv', sid)
            == (ActiveKeys(kv, sid) - {RequestKey(r.studentId, r.id)})
               + (if IsActive(RequestV(r)) then {RequestKey(r.studentId, r.id)} else {}))
    && (sid != r.studentId ==> ActiveKeys(kv', sid) == ActiveKeys(kv, sid))
  }

  /** A message written beside the update leaves every active set alone. */
  lemma MessageKeepsActive(kv: Store, mk: string, mv: Value, sid: string)
    requires HasPrefix(MessageNs, mk)
    ensures ActiveKeys(kv[mk := mv], sid) == ActiveKeys(kv, sid)
  {
    Distinguish(RequestNs, MessageNs, mk);
    ActiveForeign(kv, mk, mv, sid);
  }

  /** An update to a completed status can only shrink active sets, so it keeps the cap. */
  lemma CompletingKeepsCap(kv: Store, r: DocRequest)
    requires RequestsIndexed(kv) && CapHolds(kv)
    requires ColonFree(r.id) && ColonFree(r.studentId)
    requires !IsActive(RequestV(r))
    ensures CapHolds(WriteRequest(kv, r))
  {
    forall sid ensures |ActiveKeys(WriteRequest(kv, r), sid)| <= MaxActiveRequests {
      StatusCounts(kv, r, sid);
      assert ActiveKeys(WriteRequest(kv, r), sid) <= ActiveKeys(kv, sid);
    }
  }

  /**
   * The whole status update, with or without its status message: every
   * student's active set changes as `StatusCounts` says, and an update to a
   * completed status keeps the cap.
   */
  lemma StatusWriteCounts(kv: Store, r: DocRequest, mk: string, mv: Value, withMessage: bool)
    requires RequestsIndexed(kv)
    requires ColonFree(r.id) && ColonFree(r.studentId)
    requires HasPrefix(MessageNs, mk)
    ensures var kv' := if withMessage then WriteRequest(kv, r)[mk := mv] else WriteRequest(kv, r);
      && (forall sid :: StatusCounted(kv, kv', r, sid))
      && (!IsActive(RequestV(r)) && CapHolds(kv) ==> CapHolds(kv'))
  {
    var w := WriteRequest(kv, r);
    var kv' := if withMessage then w[mk := mv] else w;
    forall sid ensures ActiveKeys(kv', sid) == ActiveKeys(w, sid) {
      if withMessage { MessageKeepsActive(w, mk, mv, sid); }
    }
    forall sid ensures StatusCounted(kv, kv', r, sid) {
      StatusCounts(kv, r, sid);
    }
    if !IsActive(RequestV(r)) && CapHolds(kv) {
      CompletingKeepsCap(kv, r);
    }
  }

  /**
   * What the signup checks buy: in a store that keeps the user indexes, two
   * stored profiles with the same e-mail, or two student profiles with the
   * same student id, are one and the same profile.
   */
  lemma ProfilesUnique(kv: Store, k1: string, k2: string)
    requires UsersIndexed(kv)
    requires k1 in kv && HasPrefix(UserNs, k1) && k2 in kv && HasPrefix(UserNs, k2)
    ensures kv[k1].UserV? && kv[k2].UserV?
    ensures kv[k1].user.email == kv[k2].user.email ==> k1 == k2
    ensures (kv[k1].user.role == Student && kv[k2].user.role == Student
             && kv[k1].user.studentId == kv[k2].user.studentId) ==> k1 == k2
  {
  }

  /**
   * The status update checks no transition, so re-opening a completed request
   * of a student who already holds two open ones leaves that student with
   * three: the cap is kept by creates, not by status updates.
   */
  lemma ReopenBreaksCap(kv: Store, id: string, status: string, now: int)
    requires RequestsIndexed(kv)
    requires RequestByIdKey(id) in kv
    requires kv[RequestByIdKey(id)].RequestV? && kv[RequestByIdKey(id)].req.status == Completed
    requires status != Completed
    requires |ActiveKeys(kv, kv[RequestByIdKey(id)].req.studentId)| == MaxActiveRequests
    ensures !CapHolds(WriteRequest(kv, WithStatus(kv[RequestByIdKey(id)].req, status, now)))
  {
    var r0 := kv[RequestByIdKey(id)].req;
    var r := WithStatus(r0, status, now);
    var k1 := RequestKey(r0.studentId, r0.id);
    assert RequestByIdKey(id) == RequestByIdKey(r0.id);
    assert k1 in kv && kv[k1] == RequestV(r0);
    assert k1 !in ActiveKeys(kv, r0.studentId);
    StatusCounts(kv, r, r0.studentId);
    assert ActiveKeys(WriteRequest(kv, r), r0.studentId) == ActiveKeys(kv, r0.studentId) + {k1};
  }
}
