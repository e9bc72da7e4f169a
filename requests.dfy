/**
 * The pure rules of the document-request handlers: which requests count
 * against the cap, the pricing of a new request, and the system message a
 * status change announces.
 */
module Requests {
  import opened Records

  /** The cap's filter: anything under a student's prefix whose status is not `completed`. */
  predicate IsActive(v: Value) {
    !(v.RequestV? && v.req.status == Completed)
  }

  /** A fresh request as the create handler builds it. */
  function NewRequest(caller: Caller, id: string, documentType: string, quantity: int, now: int): (r: DocRequest)
    ensures r.id == id && r.studentId == caller.id && r.status == Pending
    ensures r.pricePerCopy == PricePerCopy && r.total == PricePerCopy * quantity
    ensures IsActive(RequestV(r))
  {
    DocRequest(id, caller.id, FullName(caller.firstName, caller.lastName),
               documentType, quantity, PricePerCopy, PricePerCopy * quantity,
               Pending, now, now)
  }

  /** The system message that opens every new request's conversation. */
  function ReceivedMessage(id: string, requestId: string, now: int): Message {
    StatusMessage(id, requestId, ReceivedText, now)
  }

  /** The text of the system message a status change emits, if any. */
  function StatusText(status: string): (t: Option<string>)
    ensures t.Some? <==> status in {Processing, Ready, Completed}
  {
    if status == Processing then Some(ProcessingText)
    else if status == Ready then Some(ReadyText)
    else if status == Completed then Some(CompletedText)
    else None
  }

  /** A system message (no sender role, unread) carrying `text` into a request's conversation. */
  function StatusMessage(id: string, requestId: string, text: string, now: int): Message {
    Message(id, requestId, SystemSender, SystemName, None, text, None, now, false)
  }

  /** A status update keeps every field but `status` and `updatedAt`. */
  function WithStatus(r: DocRequest, status: string, now: int): (u: DocRequest)
    ensures u.status == status && u.updatedAt == now
    ensures u.(status := r.status, updatedAt := r.updatedAt) == r
  {
    r.(status := status, updatedAt := now)
  }
}
