/**
 * The records the registrar back end keeps in its key-value store, the
 * caller identity every handler receives, and the handlers' outcomes.
 * Timestamps are integers (milliseconds since the epoch) rather than the
 * ISO-8601 strings the server stores.
 */
module Records {

  datatype Option<+T> = None | Some(value: T)

  /** `user_metadata.role` of the identity provider; `NoRole` is a missing or other value. */
  datatype Role = Student | Admin | NoRole

  /** The already-authenticated caller of a handler. */
  datatype Caller = Caller(id: string, role: Role, firstName: string, lastName: string)

  datatype User = User(
    id: string, email: string, firstName: string, lastName: string,
    studentId: string, role: Role, createdAt: int)

  /** A document request; `status` is whatever string the last update sent. */
  datatype DocRequest = DocRequest(
    id: string, studentId: string, studentName: string,
    documentType: string, quantity: int, pricePerCopy: int, total: int,
    status: string, createdAt: int, updatedAt: int)

  /** A message of a request's conversation; system messages carry no role. */
  datatype Message = Message(
    id: string, conversationId: string, senderId: string, senderName: string,
    senderRole: Option<Role>, text: string, fileUrl: Option<string>,
    timestamp: int, read: bool)

  datatype Ticket = Ticket(
    id: string, studentId: string, studentName: string,
    subject: string, description: string, attachmentUrl: Option<string>,
    status: string, createdAt: int, updatedAt: int)

  /** `updatedAt` is absent until the first update. */
  datatype Announcement = Announcement(
    id: string, title: string, body: string, expiryDate: int, active: bool,
    createdAt: int, createdBy: string, updatedAt: Option<int>)

  /** The fields an announcement update may carry; absent fields are left alone. */
  datatype AnnouncementPatch = AnnouncementPatch(
    id: Option<string>, title: Option<string>, body: Option<string>,
    expiryDate: Option<int>, active: Option<bool>,
    createdAt: Option<int>, createdBy: Option<string>)

  /** What one key of the store holds. `UserIdV` is the payload of the two user indexes. */
  datatype Value =
    | UserV(user: User)
    | UserIdV(userId: string)
    | RequestV(req: DocRequest)
    | MessageV(msg: Message)
    | TicketV(ticket: Ticket)
    | AnnouncementV(ann: Announcement)

  /** The outcomes the handlers answer with instead of a success body. */
  datatype Error =
    | MissingField        // 400, a required field is empty
    | DuplicateEmail      // 400, the e-mail is already indexed
    | DuplicateStudentId  // 400, the student id is already indexed
    | AuthRejected        // 400, the identity provider refused the account
    | Unauthorized        // 401, wrong role
    | NotFound            // 404, unknown id
    | LimitExceeded       // 400, the student already has two active requests
    | Locked              // 400, the request is completed

  datatype Result<+T> = Ok(value: T) | Err(error: Error)

  const PricePerCopy: int := 150
  const MaxActiveRequests: int := 2

  const Pending := "pending"
  const Processing := "processing"
  const Ready := "ready"
  const Completed := "completed"
  const Open := "open"

  const SystemSender := "system"
  const SystemName := "System"
  const ReceivedText := "Your request has been received. Please upload proof of payment."
  const ProcessingText := "Payment confirmed. Your request is now being processed."
  const ReadyText := "Your document is ready for pickup!"
  const CompletedText := "Request completed. Thank you!"

  /** The denormalised `studentName` / `senderName`: first and last name joined by a space. */
  function FullName(first: string, last: string): string {
    first + " " + last
  }

  // The sorting keys of the listings: creation time, newest first.

  function RequestCreatedAt(r: DocRequest): int { r.createdAt }

  function TicketCreatedAt(t: Ticket): int { t.createdAt }

  function AnnouncementCreatedAt(a: Announcement): int { a.createdAt }
}
