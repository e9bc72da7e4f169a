/**
 * The key layout of the registrar's flat key-value store. Every entity is
 * stored under a colon-joined string key; "indexes" are nothing more than
 * key prefixes that `getByPrefix` scans.
 */
module Keys {

  /** `p` is a prefix of `k`: the store's `getByPrefix(p)` returns the entry under `k`. */
  predicate HasPrefix(p: string, k: string) {
    |p| <= |k| && k[..|p|] == p
  }

  /** Identifiers handed out by the identity provider and by `crypto.randomUUID()` never contain a colon. */
  predicate ColonFree(s: string) {
    ':' !in s
  }

  const UserNs := "user:"
  const EmailNs := "user_by_email:"
  const StudentIdNs := "user_by_studentid:"
  const RequestNs := "request:"
  const RequestByIdNs := "request_by_id:"
  const MessageNs := "message:"
  const TicketNs := "ticket:"
  const TicketByIdNs := "ticket_by_id:"
  const AnnouncementNs := "announcement:"

  function Namespaces(): seq<string> {
    [UserNs, EmailNs, StudentIdNs, RequestNs, RequestByIdNs, MessageNs, TicketNs, TicketByIdNs, AnnouncementNs]
  }

  /** `k` lies in namespace `ns` and in none of the others. */
  predicate OnlyIn(ns: string, k: string) {
    HasPrefix(ns, k) && forall q :: q in Namespaces() && q != ns ==> !HasPrefix(q, k)
  }

  function UserKey(id: string): (k: string)
    ensures OnlyIn(UserNs, k)
  {
    PrefixOfConcat(UserNs, id);
    Exclusive(UserNs, UserNs + id);
    UserNs + id
  }

  function EmailKey(email: string): (k: string)
    ensures OnlyIn(EmailNs, k) && k[|EmailNs|..] == email
  {
    PrefixOfConcat(EmailNs, email);
    Exclusive(EmailNs, EmailNs + email);
    EmailNs + email
  }

  function StudentIdKey(sid: string): (k: string)
    ensures OnlyIn(StudentIdNs, k) && k[|StudentIdNs|..] == sid
  {
    PrefixOfConcat(StudentIdNs, sid);
    Exclusive(StudentIdNs, StudentIdNs + sid);
    StudentIdNs + sid
  }

  /** `request:<studentId>:` -- all requests of one student. */
  function RequestPrefix(owner: string): string { RequestNs + owner + ":" }

  function RequestKey(owner: string, id: string): (k: string)
    ensures OnlyIn(RequestNs, k) && HasPrefix(RequestPrefix(owner), k)
  {
    PrefixOfConcat(RequestPrefix(owner), id);
    PrefixOfConcat(RequestNs, owner + ":" + id);
    assert RequestPrefix(owner) + id == RequestNs + (owner + ":" + id);
    Exclusive(RequestNs, RequestPrefix(owner) + id);
    RequestPrefix(owner) + id
  }

  function RequestByIdKey(id: string): (k: string)
    ensures OnlyIn(RequestByIdNs, k)
  {
    PrefixOfConcat(RequestByIdNs, id);
    Exclusive(RequestByIdNs, RequestByIdNs + id);
    RequestByIdNs + id
  }

  /** `message:<conversationId>:` -- the thread of one request. */
  function MessagePrefix(conversation: string): string { MessageNs + conversation + ":" }

  function MessageKey(conversation: string, id: string): (k: string)
    ensures OnlyIn(MessageNs, k) && HasPrefix(MessagePrefix(conversation), k)
  {
    PrefixOfConcat(MessagePrefix(conversation), id);
    PrefixOfConcat(MessageNs, conversation + ":" + id);
    assert MessagePrefix(conversation) + id == MessageNs + (conversation + ":" + id);
    Exclusive(MessageNs, MessagePrefix(conversation) + id);
    MessagePrefix(conversation) + id
  }

  /** `ticket:<studentId>:` -- all tickets of one student. */
  function TicketPrefix(owner: string): string { TicketNs + owner + ":" }

  function TicketKey(owner: string, id: string): (k: string)
    ensures OnlyIn(TicketNs, k) && HasPrefix(TicketPrefix(owner), k)
  {
    PrefixOfConcat(TicketPrefix(owner), id);
    PrefixOfConcat(TicketNs, owner + ":" + id);
    assert TicketPrefix(owner) + id == TicketNs + (owner + ":" + id);
    Exclusive(TicketNs, TicketPrefix(owner) + id);
    TicketPrefix(owner) + id
  }

  function TicketByIdKey(id: string): (k: string)
    ensures OnlyIn(TicketByIdNs, k)
  {
    PrefixOfConcat(TicketByIdNs, id);
    Exclusive(TicketByIdNs, TicketByIdNs + id);
    TicketByIdNs + id
  }

  function AnnouncementKey(id: string): (k: string)
    ensures OnlyIn(AnnouncementNs, k)
  {
    PrefixOfConcat(AnnouncementNs, id);
    Exclusive(AnnouncementNs, AnnouncementNs + id);
    AnnouncementNs + id
  }

  /** A key built from a namespace and a suffix lies in that namespace. */
  lemma PrefixOfConcat(p: string, s: string)
    ensures HasPrefix(p, p + s)
  {
    assert (p + s)[..|p|] == p;
  }

  /**
   * Two prefixes of one key are comparable: the shorter is a prefix of the
   * longer. Namespaces whose literals are incomparable are therefore disjoint.
   */
  lemma PrefixesComparable(p: string, q: string, k: string)
    requires HasPrefix(p, k) && HasPrefix(q, k) && |p| <= |q|
    ensures HasPrefix(p, q)
  {
    assert q[..|p|] == k[..|q|][..|p|] == k[..|p|];
  }

  /**
   * The composite key `<ns><owner>:<id>` identifies its owner: when the stored
   * owner and id are colon-free, the key lies under `<ns><c>:` exactly when
   * `c` is that owner, whatever `c` is.
   */
  lemma {:induction false} PrefixSplit(ns: string, c: string, owner: string, id: string)
    requires ColonFree(owner) && ColonFree(id)
    ensures HasPrefix(ns + c + ":", ns + owner + ":" + id) <==> c == owner
  {
    var k := ns + owner + ":" + id;
    var p := ns + c + ":";
    if c == owner {
      PrefixOfConcat(p, id);
    } else if HasPrefix(p, k) {
      var n := |ns|;
      assert k[n + |c|] == p[n + |c|] == ':';
      assert |c| == |owner|;
      forall i | 0 <= i < |c| ensures c[i] == owner[i] {
        assert p[n + i] == c[i] && k[n + i] == owner[i];
      }
      assert false;
    }
  }

  /** The composite key determines both of its colon-free parts. */
  lemma KeyInjective(ns: string, a: string, b: string, c: string, d: string)
    requires ColonFree(a) && ColonFree(b) && ColonFree(c) && ColonFree(d)
    requires ns + a + ":" + b == ns + c + ":" + d
    ensures a == c && b == d
  {
    PrefixOfConcat(ns + a + ":", b);
    PrefixSplit(ns, a, c, d);
    var n := |ns + a + ":"|;
    assert b == (ns + a + ":" + b)[n..];
    assert d == (ns + c + ":" + d)[n..];
  }

  lemma CharAt(p: string, k: string, i: nat)
    requires HasPrefix(p, k) && i < |p|
    ensures k[i] == p[i]
  {
    assert k[..|p|][i] == k[i];
  }

  /** The nine namespaces are pairwise disjoint: their literals differ within the shorter one. */
  lemma Distinguish(p: string, q: string, k: string)
    requires p in Namespaces() && q in Namespaces() && p != q
    ensures !(HasPrefix(p, k) && HasPrefix(q, k))
  {
    if HasPrefix(p, k) && HasPrefix(q, k) {
      var d := if p[0] != q[0] then 0 else if p[4] != q[4] then 4 else if p[6] != q[6] then 6 else if p[7] != q[7] then 7 else 8;
      CharAt(p, k, d);
      CharAt(q, k, d);
      assert false;
    }
  }

  /** A key in one namespace is in no other. */
  lemma Exclusive(ns: string, k: string)
    requires ns in Namespaces() && HasPrefix(ns, k)
    ensures OnlyIn(ns, k)
  {
    forall q | q in Namespaces() && q != ns ensures !HasPrefix(q, k) {
      Distinguish(ns, q, k);
    }
  }

  lemma PrefixTrans(p: string, q: string, k: string)
    requires HasPrefix(p, q) && HasPrefix(q, k)
    ensures HasPrefix(p, k)
  {
    assert k[..|p|] == k[..|q|][..|p|];
  }
}
