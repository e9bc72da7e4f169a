/**
 * What a `getByPrefix` scan of each namespace returns on a valid store: the
 * scope a listing handler chooses for its caller, the records the scan
 * meets, and the link from a thread scan to the thread's messages.
 */
module Scans {
  import opened Keys
  import opened Records
  import opened Listing
  import opened Invariant
  import opened Preservation
  import opened Properties
  import opened Conversations
  import opened Announcements

  /** What the listings show a caller: admins see everything, students their own records, others nothing. */
  predicate Sees(caller: Caller, studentId: string) {
    caller.role == Admin || (caller.role == Student && studentId == caller.id)
  }

  /** The prefix the request listings scan: the student's own, or all of `request_by_id:`. */
  function RequestScope(caller: Caller): string {
    if caller.role == Student then RequestPrefix(caller.id) else RequestByIdNs
  }

  /** The prefix the ticket listing scans. */
  function TicketScope(caller: Caller): string {
    if caller.role == Student then TicketPrefix(caller.id) else TicketByIdNs
  }

  /** The keys a listing scans for a caller; a caller with neither role scans nothing. */
  ghost function ScannedKeys(kv: Store, caller: Caller, scope: string): set<string> {
    if caller.role == NoRole then {} else KeysUnder(kv, scope)
  }

  /** A scan lists as many keys as there are under its prefix. */
  lemma ScanSize(kv: Store, p: string, ks: seq<string>)
    requires Enumerates(kv, p, ks)
    ensures |ks| == |KeysUnder(kv, p)|
  {
    DistinctCard(ks);
    assert (set k | k in ks) == KeysUnder(kv, p);
  }

  /** A stored request is found under its own id, colon-free, with its per-student copy beside it. */
  lemma StoredRequest(kv: Store, id: string)
    requires RequestsIndexed(kv)
    requires RequestByIdKey(id) in kv
    ensures kv[RequestByIdKey(id)].RequestV?
    ensures kv[RequestByIdKey(id)].req.id == id && ColonFree(id)
    ensures ColonFree(kv[RequestByIdKey(id)].req.studentId)
    ensures RequestKey(kv[RequestByIdKey(id)].req.studentId, id) in kv
    ensures kv[RequestKey(kv[RequestByIdKey(id)].req.studentId, id)] == kv[RequestByIdKey(id)]
  {
    var k := RequestByIdKey(id);
    SuffixInjective(RequestByIdNs, id, kv[k].req.id);
  }

  /** A stored ticket is found under its own id, colon-free. */
  lemma StoredTicket(kv: Store, id: string)
    requires TicketsIndexed(kv)
    requires TicketByIdKey(id) in kv
    ensures kv[TicketByIdKey(id)].TicketV?
    ensures kv[TicketByIdKey(id)].ticket.id == id && ColonFree(id)
    ensures ColonFree(kv[TicketByIdKey(id)].ticket.studentId)
  {
    var k := TicketByIdKey(id);
    SuffixInjective(TicketByIdNs, id, kv[k].ticket.id);
  }

  /** A key under `ticket:<sid>:` lies in the ticket namespace. */
  lemma UnderTicketPrefix(sid: string, k: string)
    requires HasPrefix(TicketPrefix(sid), k)
    ensures HasPrefix(TicketNs, k)
  {
    PrefixOfConcat(TicketNs, sid + ":");
    assert TicketPrefix(sid) == TicketNs + (sid + ":");
    PrefixTrans(TicketNs, TicketPrefix(sid), k);
  }

  /**
   * The request scan a caller's listing performs meets exactly the stored
   * requests the caller sees, each as the record stored under its id.
   */
  lemma RequestScan(kv: Store, caller: Caller, ks: seq<string>)
    requires RequestsIndexed(kv)
    requires caller.role != NoRole
    requires Enumerates(kv, RequestScope(caller), ks)
    ensures forall i :: 0 <= i < |ks| ==>
      && kv[ks[i]].RequestV?
      && RequestByIdKey(kv[ks[i]].req.id) in kv
      && kv[RequestByIdKey(kv[ks[i]].req.id)] == kv[ks[i]]
      && Sees(caller, kv[ks[i]].req.studentId)
    ensures forall k :: k in kv && HasPrefix(RequestByIdNs, k) && kv[k].RequestV? && Sees(caller, kv[k].req.studentId) ==>
      exists i :: 0 <= i < |ks| && kv[ks[i]] == kv[k]
  {
    forall i | 0 <= i < |ks|
      ensures && kv[ks[i]].RequestV?
              && RequestByIdKey(kv[ks[i]].req.id) in kv
              && kv[RequestByIdKey(kv[ks[i]].req.id)] == kv[ks[i]]
              && Sees(caller, kv[ks[i]].req.studentId)
    {
      var k := ks[i];
      if caller.role == Student {
        UnderRequestPrefix(caller.id, k);
        var x := kv[k].req;
        StoredRequest(kv, x.id);
        PrefixSplit(RequestNs, caller.id, x.studentId, x.id);
      }
    }
    forall k | k in kv && HasPrefix(RequestByIdNs, k) && kv[k].RequestV? && Sees(caller, kv[k].req.studentId)
      ensures exists i :: 0 <= i < |ks| && kv[ks[i]] == kv[k]
    {
      var x := kv[k].req;
      var j := if caller.role == Student then RequestKey(x.studentId, x.id) else k;
      assert j in kv && HasPrefix(RequestScope(caller), j) && kv[j] == kv[k];
      var i :| 0 <= i < |ks| && ks[i] == j;
    }
  }

  /** The same for the ticket scan. */
  lemma TicketScan(kv: Store, caller: Caller, ks: seq<string>)
    requires TicketsIndexed(kv)
    requires caller.role != NoRole
    requires Enumerates(kv, TicketScope(caller), ks)
    ensures forall i :: 0 <= i < |ks| ==>
      && kv[ks[i]].TicketV?
      && TicketByIdKey(kv[ks[i]].ticket.id) in kv
      && kv[TicketByIdKey(kv[ks[i]].ticket.id)] == kv[ks[i]]
      && Sees(caller, kv[ks[i]].ticket.studentId)
    ensures forall k :: k in kv && HasPrefix(TicketByIdNs, k) && kv[k].TicketV? && Sees(caller, kv[k].ticket.studentId) ==>
      exists i :: 0 <= i < |ks| && kv[ks[i]] == kv[k]
  {
    forall i | 0 <= i < |ks|
      ensures && kv[ks[i]].TicketV?
              && TicketByIdKey(kv[ks[i]].ticket.id) in kv
              && kv[TicketByIdKey(kv[ks[i]].ticket.id)] == kv[ks[i]]
              && Sees(caller, kv[ks[i]].ticket.studentId)
    {
      var k := ks[i];
      if caller.role == Student {
        UnderTicketPrefix(caller.id, k);
        var x := kv[k].ticket;
        StoredTicket(kv, x.id);
        PrefixSplit(TicketNs, caller.id, x.studentId, x.id);
      }
    }
    forall k | k in kv && HasPrefix(TicketByIdNs, k) && kv[k].TicketV? && Sees(caller, kv[k].ticket.studentId)
      ensures exists i :: 0 <= i < |ks| && kv[ks[i]] == kv[k]
    {
      var x := kv[k].ticket;
      var j := if caller.role == Student then TicketKey(x.studentId, x.id) else k;
      assert j in kv && HasPrefix(TicketScope(caller), j) && kv[j] == kv[k];
      var i :| 0 <= i < |ks| && ks[i] == j;
    }
  }

  /** A thread scan meets only messages of that conversation, each under its own key. */
  lemma ThreadScan(kv: Store, cid: string, ks: seq<string>)
    requires MessagesThreaded(kv)
    requires Enumerates(kv, MessagePrefix(cid), ks)
    ensures ThreadMap(kv, cid).Keys == ThreadKeys(kv, cid)
    ensures forall i :: 0 <= i < |ks| ==>
      && kv[ks[i]].MessageV?
      && ks[i] in ThreadMap(kv, cid)
      && ThreadMap(kv, cid)[ks[i]] == kv[ks[i]].msg
      && ks[i] == MessageKey(cid, kv[ks[i]].msg.id)
  {
    forall k | k in ThreadKeys(kv, cid) ensures kv[k].MessageV? && kv[k].msg.conversationId == cid {
      ThreadBelongs(kv, cid, k);
    }
  }

  /** The keys of a thread's messages the viewer has not read and did not send. */
  ghost function UnreadKeys(kv: Store, cid: string, viewer: string): set<string> {
    set k | k in ThreadKeys(kv, cid) && kv[k].MessageV? && IsUnreadFor(kv[k].msg, viewer)
  }

  /**
   * `c` summarises its request's thread in `kv` for `viewer`: the unread
   * count counts the thread's unread keys, and the last message is absent
   * exactly for an empty thread and otherwise a stored message no other
   * message of the thread is newer than.
   */
  ghost predicate Summarizes(kv: Store, c: Conversation, viewer: string) {
    var cid := c.request.id;
    && c.unreadCount == |UnreadKeys(kv, cid, viewer)|
    && (c.lastMessage.None? <==> ThreadKeys(kv, cid) == {})
    && (c.lastMessage.Some? ==>
          && MessageKey(cid, c.lastMessage.value.id) in kv
          && kv[MessageKey(cid, c.lastMessage.value.id)] == MessageV(c.lastMessage.value)
          && forall k :: k in ThreadKeys(kv, cid) ==> kv[k].MessageV? && kv[k].msg.timestamp <= c.lastMessage.value.timestamp)
  }

  /** The unread count of a scanned thread counts the thread's unread keys. */
  lemma UnreadOfScan(kv: Store, cid: string, ks: seq<string>, ms: seq<Message>, viewer: string)
    requires MessagesThreaded(kv)
    requires Enumerates(kv, MessagePrefix(cid), ks)
    requires forall i :: 0 <= i < |ks| ==> ks[i] in ThreadMap(kv, cid)
    requires ms == ValuesAt(ThreadMap(kv, cid), ks)
    ensures UnreadCount(ms, viewer) == |UnreadKeys(kv, cid, viewer)|
  {
    var tm := ThreadMap(kv, cid);
    CountOverKeys(tm, ks, UnreadBy(viewer));
    ThreadScan(kv, cid, ks);
    assert KeysWhere(tm, ks, UnreadBy(viewer)) == UnreadKeys(kv, cid, viewer);
  }

  /** A thread scan comes back empty exactly when the thread has no keys. */
  lemma EmptyScan(kv: Store, cid: string, ks: seq<string>)
    requires Enumerates(kv, MessagePrefix(cid), ks)
    ensures ks == [] <==> ThreadKeys(kv, cid) == {}
  {
    if ThreadKeys(kv, cid) != {} {
      var k :| k in ThreadKeys(kv, cid);
      assert k in ks;
    }
    if ks != [] {
      assert ks[0] in ThreadKeys(kv, cid);
    }
  }

  /** The newest message of a scanned thread is stored there and no message of the thread is newer. */
  lemma NewestOfScan(kv: Store, cid: string, ks: seq<string>, ms: seq<Message>)
    requires MessagesThreaded(kv)
    requires Enumerates(kv, MessagePrefix(cid), ks)
    requires forall i :: 0 <= i < |ks| ==> ks[i] in ThreadMap(kv, cid)
    requires ms == ValuesAt(ThreadMap(kv, cid), ks)
    requires ms != []
    ensures MessageKey(cid, Newest(ms).value.id) in kv
    ensures kv[MessageKey(cid, Newest(ms).value.id)] == MessageV(Newest(ms).value)
    ensures forall k :: k in ThreadKeys(kv, cid) ==> kv[k].MessageV? && kv[k].msg.timestamp <= Newest(ms).value.timestamp
  {
    ThreadScan(kv, cid, ks);
    var m := Newest(ms).value;
    var i :| 0 <= i < |ms| && ms[i] == m;
    assert kv[ks[i]] == MessageV(m);
    forall k | k in ThreadKeys(kv, cid) ensures kv[k].MessageV? && kv[k].msg.timestamp <= m.timestamp {
      var j :| 0 <= j < |ks| && ks[j] == k;
      assert ms[j] == kv[k].msg;
    }
  }

  /** Summarising the messages a thread scan returns summarises the stored thread. */
  lemma SummaryOfScan(kv: Store, r: DocRequest, ks: seq<string>, ms: seq<Message>, viewer: string)
    requires MessagesThreaded(kv)
    requires Enumerates(kv, MessagePrefix(r.id), ks)
    requires forall i :: 0 <= i < |ks| ==> ks[i] in ThreadMap(kv, r.id)
    requires ms == ValuesAt(ThreadMap(kv, r.id), ks)
    ensures Summarizes(kv, Summarize(r, ms, viewer), viewer)
  {
    UnreadOfScan(kv, r.id, ks, ms, viewer);
    EmptyScan(kv, r.id, ks);
    if ms != [] {
      NewestOfScan(kv, r.id, ks, ms);
    }
  }

  /** The announcement keys whose notice the public listing shows at `now`. */
  ghost function VisibleKeys(kv: Store, now: int): set<string> {
    set k | k in kv && HasPrefix(AnnouncementNs, k) && kv[k].AnnouncementV? && IsVisible(kv[k].ann, now)
  }

  /**
   * The records read off a request scan are exactly the stored requests the
   * caller sees, one per scanned key.
   */
  lemma ScopedRequestsFacts(kv: Store, caller: Caller, ks: seq<string>, reqs: seq<DocRequest>)
    requires RequestsIndexed(kv)
    requires caller.role != NoRole
    requires Enumerates(kv, RequestScope(caller), ks)
    requires |reqs| == |ks|
    requires forall i :: 0 <= i < |ks| ==> kv[ks[i]] == RequestV(reqs[i])
    ensures forall x :: x in reqs ==>
      RequestByIdKey(x.id) in kv && kv[RequestByIdKey(x.id)] == RequestV(x) && Sees(caller, x.studentId)
    ensures forall k :: k in kv && HasPrefix(RequestByIdNs, k) && kv[k].RequestV? && Sees(caller, kv[k].req.studentId) ==>
      kv[k].req in reqs
    ensures |reqs| == |KeysUnder(kv, RequestScope(caller))|
  {
    RequestScan(kv, caller, ks);
    ScanSize(kv, RequestScope(caller), ks);
    forall x | x in reqs
      ensures RequestByIdKey(x.id) in kv && kv[RequestByIdKey(x.id)] == RequestV(x) && Sees(caller, x.studentId)
    {
      var i :| 0 <= i < |reqs| && reqs[i] == x;
      assert kv[ks[i]] == RequestV(x);
    }
    forall k | k in kv && HasPrefix(RequestByIdNs, k) && kv[k].RequestV? && Sees(caller, kv[k].req.studentId)
      ensures kv[k].req in reqs
    {
      var i :| 0 <= i < |ks| && kv[ks[i]] == kv[k];
      assert reqs[i] == kv[k].req;
    }
  }

  /** The same for the records read off a ticket scan. */
  lemma ScopedTicketsFacts(kv: Store, caller: Caller, ks: seq<string>, ts: seq<Ticket>)
    requires TicketsIndexed(kv)
    requires caller.role != NoRole
    requires Enumerates(kv, TicketScope(caller), ks)
    requires |ts| == |ks|
    requires forall i :: 0 <= i < |ks| ==> kv[ks[i]] == TicketV(ts[i])
    ensures forall t :: t in ts ==>
      TicketByIdKey(t.id) in kv && kv[TicketByIdKey(t.id)] == TicketV(t) && Sees(caller, t.studentId)
    ensures forall k :: k in kv && HasPrefix(TicketByIdNs, k) && kv[k].TicketV? && Sees(caller, kv[k].ticket.studentId) ==>
      kv[k].ticket in ts
    ensures |ts| == |KeysUnder(kv, TicketScope(caller))|
  {
    TicketScan(kv, caller, ks);
    ScanSize(kv, TicketScope(caller), ks);
    forall t | t in ts
      ensures TicketByIdKey(t.id) in kv && kv[TicketByIdKey(t.id)] == TicketV(t) && Sees(caller, t.studentId)
    {
      var i :| 0 <= i < |ts| && ts[i] == t;
      assert kv[ks[i]] == TicketV(t);
    }
    forall k | k in kv && HasPrefix(TicketByIdNs, k) && kv[k].TicketV? && Sees(caller, kv[k].ticket.studentId)
      ensures kv[k].ticket in ts
    {
      var i :| 0 <= i < |ks| && kv[ks[i]] == kv[k];
      assert ts[i] == kv[k].ticket;
    }
  }

  /** Every notice the public listing shows is visible and stored. */
  lemma PublicListSound(kv: Store, ks: seq<string>, stored: seq<Announcement>, now: int)
    requires AnnouncementsTyped(kv)
    requires Enumerates(kv, AnnouncementNs, ks)
    requires |stored| == |ks|
    requires forall i :: 0 <= i < |ks| ==> kv[ks[i]] == AnnouncementV(stored[i])
    ensures forall a :: a in PublicList(stored, now) ==> IsVisible(a, now) && a in AnnouncementMap(kv).Values
  {
    var tm := AnnouncementMap(kv);
    forall a | a in PublicList(stored, now) ensures IsVisible(a, now) && a in tm.Values {
      var i :| 0 <= i < |stored| && stored[i] == a;
      assert tm[ks[i]] == a;
    }
  }

  /** Every visible stored notice is in the public listing. */
  lemma PublicListComplete(kv: Store, ks: seq<string>, stored: seq<Announcement>, now: int)
    requires AnnouncementsTyped(kv)
    requires Enumerates(kv, AnnouncementNs, ks)
    requires |stored| == |ks|
    requires forall i :: 0 <= i < |ks| ==> kv[ks[i]] == AnnouncementV(stored[i])
    ensures forall k :: k in kv && HasPrefix(AnnouncementNs, k) && kv[k].AnnouncementV? && IsVisible(kv[k].ann, now) ==>
      kv[k].ann in PublicList(stored, now)
  {
    forall k | k in kv && HasPrefix(AnnouncementNs, k) && kv[k].AnnouncementV? && IsVisible(kv[k].ann, now)
      ensures kv[k].ann in PublicList(stored, now)
    {
      var i :| 0 <= i < |ks| && ks[i] == k;
      assert stored[i] == kv[k].ann;
    }
  }

  /** The public listing has one entry per visible key. */
  lemma PublicListCount(kv: Store, ks: seq<string>, stored: seq<Announcement>, now: int)
    requires AnnouncementsTyped(kv)
    requires Enumerates(kv, AnnouncementNs, ks)
    requires |stored| == |ks|
    requires forall i :: 0 <= i < |ks| ==> kv[ks[i]] == AnnouncementV(stored[i])
    ensures |PublicList(stored, now)| == |VisibleKeys(kv, now)|
  {
    var tm := AnnouncementMap(kv);
    assert stored == ValuesAt(tm, ks);
    CountOverKeys(tm, ks, VisibleAt(now));
    assert KeysWhere(tm, ks, VisibleAt(now)) == VisibleKeys(kv, now);
  }

  /** The public listing of a full announcement scan shows each visible stored notice, once per key. */
  lemma PublicListFacts(kv: Store, ks: seq<string>, stored: seq<Announcement>, now: int)
    requires AnnouncementsTyped(kv)
    requires Enumerates(kv, AnnouncementNs, ks)
    requires |stored| == |ks|
    requires forall i :: 0 <= i < |ks| ==> kv[ks[i]] == AnnouncementV(stored[i])
    ensures forall a :: a in PublicList(stored, now) ==> IsVisible(a, now) && a in AnnouncementMap(kv).Values
    ensures forall k :: k in kv && HasPrefix(AnnouncementNs, k) && kv[k].AnnouncementV? && IsVisible(kv[k].ann, now) ==>
      kv[k].ann in PublicList(stored, now)
    ensures |PublicList(stored, now)| == |VisibleKeys(kv, now)|
  {
    PublicListSound(kv, ks, stored, now);
    PublicListComplete(kv, ks, stored, now);
    PublicListCount(kv, ks, stored, now);
  }

  /**
   * Sorting the summaries of the requests a caller sees keeps exactly one
   * summary per request.
   */
  lemma {:induction false} ConversationFacts(kv: Store, caller: Caller, reqs: seq<DocRequest>, sums: seq<Conversation>, cs: seq<Conversation>)
    requires forall x :: x in reqs ==>
      RequestByIdKey(x.id) in kv && kv[RequestByIdKey(x.id)] == RequestV(x) && Sees(caller, x.studentId)
    requires forall k :: k in kv && HasPrefix(RequestByIdNs, k) && kv[k].RequestV? && Sees(caller, kv[k].req.studentId) ==>
      kv[k].req in reqs
    requires |sums| == |reqs|
    requires forall j :: 0 <= j < |reqs| ==> sums[j].request == reqs[j] && Summarizes(kv, sums[j], caller.id)
    requires cs == SortDesc(sums, LastTime)
    ensures forall c :: c in cs ==>
      && RequestByIdKey(c.request.id) in kv && kv[RequestByIdKey(c.request.id)] == RequestV(c.request)
      && Sees(caller, c.request.studentId)
      && Summarizes(kv, c, caller.id)
    ensures forall k :: k in kv && HasPrefix(RequestByIdNs, k) && kv[k].RequestV? && Sees(caller, kv[k].req.studentId) ==>
      exists c :: c in cs && c.request == kv[k].req
  {
    forall c | c in cs
      ensures && RequestByIdKey(c.request.id) in kv && kv[RequestByIdKey(c.request.id)] == RequestV(c.request)
              && Sees(caller, c.request.studentId)
              && Summarizes(kv, c, caller.id)
    {
      SortDescSameElements(sums, LastTime, c);
      var j :| 0 <= j < |sums| && sums[j] == c;
      assert reqs[j] in reqs;
    }
    forall k | k in kv && HasPrefix(RequestByIdNs, k) && kv[k].RequestV? && Sees(caller, kv[k].req.studentId)
      ensures exists c :: c in cs && c.request == kv[k].req
    {
      var j :| 0 <= j < |reqs| && reqs[j] == kv[k].req;
      SortDescSameElements(sums, LastTime, sums[j]);
    }
  }

  /** Each message of a thread scan is stored under its own key in the thread. */
  lemma ThreadFoundStored(kv: Store, cid: string, ks: seq<string>, found: seq<Message>)
    requires MessagesThreaded(kv)
    requires Enumerates(kv, MessagePrefix(cid), ks)
    requires forall i :: 0 <= i < |ks| ==> ks[i] in ThreadMap(kv, cid)
    requires found == ValuesAt(ThreadMap(kv, cid), ks)
    ensures forall m :: m in found ==> MessageKey(cid, m.id) in kv && kv[MessageKey(cid, m.id)] == MessageV(m)
  {
    ThreadScan(kv, cid, ks);
    forall m | m in found ensures MessageKey(cid, m.id) in kv && kv[MessageKey(cid, m.id)] == MessageV(m) {
      var i :| 0 <= i < |found| && found[i] == m;
      assert kv[ks[i]] == MessageV(m);
    }
  }

  /** Every message of the thread occurs in a thread scan, one per key. */
  lemma ThreadFoundAll(kv: Store, cid: string, ks: seq<string>, found: seq<Message>)
    requires MessagesThreaded(kv)
    requires Enumerates(kv, MessagePrefix(cid), ks)
    requires forall i :: 0 <= i < |ks| ==> ks[i] in ThreadMap(kv, cid)
    requires found == ValuesAt(ThreadMap(kv, cid), ks)
    ensures forall k :: k in ThreadKeys(kv, cid) ==> kv[k].MessageV? && kv[k].msg in found
    ensures |found| == |ThreadKeys(kv, cid)|
  {
    ThreadScan(kv, cid, ks);
    ScanSize(kv, MessagePrefix(cid), ks);
    forall k | k in ThreadKeys(kv, cid) ensures kv[k].MessageV? && kv[k].msg in found {
      var i :| 0 <= i < |ks| && ks[i] == k;
      assert found[i] == kv[k].msg;
    }
  }

  /** The message listing over a thread scan holds exactly the thread's stored messages. */
  lemma ThreadListFacts(kv: Store, cid: string, ks: seq<string>, found: seq<Message>)
    requires MessagesThreaded(kv)
    requires Enumerates(kv, MessagePrefix(cid), ks)
    requires forall i :: 0 <= i < |ks| ==> ks[i] in ThreadMap(kv, cid)
    requires found == ValuesAt(ThreadMap(kv, cid), ks)
    ensures forall m :: m in Chronological(found) ==>
      MessageKey(cid, m.id) in kv && kv[MessageKey(cid, m.id)] == MessageV(m)
    ensures forall k :: k in ThreadKeys(kv, cid) ==> kv[k].MessageV? && kv[k].msg in Chronological(found)
    ensures |Chronological(found)| == |ThreadKeys(kv, cid)|
  {
    ThreadFoundStored(kv, cid, ks, found);
    ThreadFoundAll(kv, cid, ks, found);
    var ms := Chronological(found);
    forall m ensures m in ms <==> m in found {
      assert m in multiset(ms) <==> m in multiset(found);
    }
  }
}
