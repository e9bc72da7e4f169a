/**
 * The pure part of the messaging handlers: the chronological order of a
 * thread, a viewer's unread count, the newest message, and the order of
 * the conversation list.
 */
module Conversations {
  import opened Records
  import opened Listing

  /** A message the viewer has not read and did not send. */
  predicate IsUnreadFor(m: Message, viewer: string) {
    !m.read && m.senderId != viewer
  }

  /** The unread filter for one viewer, as a value (one term for every use). */
  function UnreadBy(viewer: string): Message -> bool {
    m => IsUnreadFor(m, viewer)
  }

  /** How many messages of a thread the viewer has not read and did not send. */
  function UnreadCount(ms: seq<Message>, viewer: string): nat {
    |Filter(ms, UnreadBy(viewer))|
  }

  function Timestamp(m: Message): int { m.timestamp }

  function Earliness(m: Message): int { -m.timestamp }

  /** The message listing: the thread by ascending timestamp. */
  function Chronological(ms: seq<Message>): (r: seq<Message>)
    ensures multiset(r) == multiset(ms)
    ensures forall i, j :: 0 <= i < j < |r| ==> r[i].timestamp <= r[j].timestamp
  {
    var r := SortDesc(ms, Earliness);
    assert forall i, j :: 0 <= i < j < |r| ==> Earliness(r[i]) >= Earliness(r[j]);
    r
  }

  /** The thread's newest message, or none when the thread is empty. */
  function Newest(ms: seq<Message>): (r: Option<Message>)
    ensures r.None? <==> ms == []
    ensures r.Some? ==> r.value in ms && forall m :: m in ms ==> m.timestamp <= r.value.timestamp
  {
    if ms == [] then None
    else
      SortDescHeadIsMax(ms, Timestamp);
      Some(SortDesc(ms, Timestamp)[0])
  }

  /** One entry of the conversation list: the request with its thread's summary. */
  datatype Conversation = Conversation(request: DocRequest, lastMessage: Option<Message>, unreadCount: nat)

  /** The last message's time, or 0 for an empty thread. */
  function LastTime(c: Conversation): int {
    if c.lastMessage.Some? then c.lastMessage.value.timestamp else 0
  }

  /** The summary of one request's thread as the viewer sees it. */
  function Summarize(r: DocRequest, ms: seq<Message>, viewer: string): (c: Conversation)
    ensures c.request == r
    ensures c.lastMessage.None? <==> ms == []
    ensures c.lastMessage.Some? ==> c.lastMessage.value in ms
    ensures forall m :: m in ms && c.lastMessage.Some? ==> m.timestamp <= c.lastMessage.value.timestamp
    ensures c.unreadCount == |Filter(ms, UnreadBy(viewer))|
  {
    Conversation(r, Newest(ms), UnreadCount(ms, viewer))
  }

  /**
   * In the sorted conversation list, a conversation whose last message is
   * newer comes first, and one whose thread has a message after time 0 comes
   * before every empty thread.
   */
  lemma ConversationOrder(cs: seq<Conversation>, i: nat, j: nat)
    requires i < j < |SortDesc(cs, LastTime)|
    ensures var r := SortDesc(cs, LastTime);
      (r[i].lastMessage.Some? && r[j].lastMessage.Some? ==>
         r[i].lastMessage.value.timestamp >= r[j].lastMessage.value.timestamp)
      && (r[j].lastMessage.Some? && r[j].lastMessage.value.timestamp > 0 ==> r[i].lastMessage.Some?)
  {
    var r := SortDesc(cs, LastTime);
    assert LastTime(r[i]) >= LastTime(r[j]);
  }

  /**
   * A new message raises the unread count of every viewer but its sender by
   * one (it is unread), and leaves its sender's count unchanged.
   */
  lemma UnreadAfterSend(ms: seq<Message>, m: Message, viewer: string)
    requires !m.read
    ensures UnreadCount(ms + [m], viewer) == UnreadCount(ms, viewer) + (if m.senderId == viewer then 0 else 1)
  {
    FilterAppend(ms, [m], UnreadBy(viewer));
    assert Filter([m], UnreadBy(viewer)) == (if m.senderId == viewer then [] else [m]) by {
      assert [m][1..] == [];
    }
  }
}
