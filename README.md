# Registrar back end: a verified model

The registrar portal's server keeps everything in one flat key-value table,
and its handlers implement every operation over that table:

- students sign up, then file document requests (transcripts, diplomas and
  so on, 150 pesos a copy);
- each request carries a conversation with the registrar staff;
- staff move a request through its statuses, manage support tickets, and
  post announcements.

Every record is stored under a colon-joined key. A request and a ticket each
have two copies: one under the student's prefix (`request:<student>:<id>`)
and one under a global index (`request_by_id:<id>`). Every listing is a
prefix scan (`getByPrefix`).

This project models that server in Dafny:

- **Data.** Keys are strings, and records are datatypes (`Records`).
- **Store.** The table is a `map<string, Value>` held in the class
  `Backend.Registrar`.
- **Handlers.** Each route is a method of that class. It receives the
  already-verified caller, the fresh identifiers the server would draw with
  `crypto.randomUUID()`, and the current time as an integer. It returns a
  `Result`, whose error cases are the server's error responses.

What the proofs establish:

- **Store invariant.** The handlers keep `Invariant.Valid`:
  - every namespace holds the record kind its prefix promises;
  - the two copies of a request or ticket are equal;
  - every message belongs to a stored request;
  - the user indexes and the profiles point at each other (an admin
    profile has no student-id entry).

  It holds of the empty table and of the table after the default-admin
  bootstrap.
- **Request cap.** A create never takes a student past two requests that are
  not completed, and neither does an update to completed. An update to any
  other status may: `Properties.ReopenBreaksCap` shows that re-opening a
  completed request can leave a student with three.
- **Listings.** Each listing returns exactly the records the caller may see,
  in its promised order. The conversation summaries report the true unread
  count and the newest message.
- **Status updates.** `Properties.StatusCounts` states how one status write
  changes each student's set of active requests.
- **Announcement updates.** `Announcements.MergeFields` states the merge field
  by field, and `Announcements.MergeNothing` says an empty update only stamps
  `updatedAt`.
- **Scenarios.** The methods of `Scenarios` run several handlers in a row
  from an empty table.

Modules:

- `Keys`: the key builders and the reasoning about prefixes.
- `Records`: the datatypes.
- `Listing`: sorting and filtering.
- `Requests`, `Users`, `Conversations`, `Announcements`: the pure logic of each route group.
- `Invariant`, `Preservation`, `Properties`: the store invariant and its preservation.
- `Scans`: what a prefix scan returns.
- `Backend`: the handlers.
- `Scenarios`: runs of several handlers in a row.

The source's `kv_store.tsx` is not part of this model. Its `getByPrefix`,
`get`, `set`, `mset` and `del` are modelled from how `index.tsx` uses them:
a scan returns each value under the prefix once, in an unspecified order.

## Model

| member | source | states |
|---|---|---|
| Backend.Registrar.GetByPrefix | src/supabase/functions/server/index.tsx:186 | A scan returns the value under every key with the prefix, each key once, and nothing else. |
| Backend.Registrar.InitializeDefaultAdmin | src/supabase/functions/server/index.tsx:643-693 | An indexed admin e-mail or a refused account leaves the table unchanged. Otherwise the admin profile is stored under its id and indexed by its e-mail only, and the invariant holds afterwards. |
| Backend.Registrar.Signup | src/supabase/functions/server/index.tsx:51-116 | Missing field ⇔ some field is empty. Duplicate e-mail ⇔ the lower-cased address is indexed. Duplicate student id ⇔ the id is indexed. Auth failure ⇔ no account was made. Success ⇔ all checks pass: it stores the lower-cased profile with role student under all three keys. Any error leaves the table unchanged. |
| Backend.Registrar.ActiveCount | src/supabase/functions/server/index.tsx:186-189 | The number of requests in the student's scan that are not completed equals the size of that student's set of active keys. |
| Backend.ActiveScan | src/supabase/functions/server/index.tsx:186-189 | Filtering a `request:<sid>:` scan for status ≠ completed counts exactly the student's active keys. |
| Backend.Registrar.CreateRequest | src/supabase/functions/server/index.tsx:176-234 | Unauthorized ⇔ caller is not a student. Limit exceeded ⇔ the student already has two active requests. Otherwise the same pending record (total = 150 × quantity) is written under both keys, plus one unread system message. The student's active count grows by one, the thread is exactly that message, and the cap is preserved. |
| Backend.Registrar.ListRequests | src/supabase/functions/server/index.tsx:237-263 | Newest first. It holds exactly the stored requests the caller sees (its own for a student, all for an admin, none otherwise), one per scanned key. |
| Backend.Registrar.ScopedRequests | src/supabase/functions/server/index.tsx:244-251 | The role-dependent scan: the student's prefix or the global index. Both membership directions hold, with one record per key. |
| Backend.Registrar.UpdateRequestStatus | src/supabase/functions/server/index.tsx:266-325 | Unauthorized ⇔ not an admin. Not found ⇔ no `request_by_id` entry. Otherwise both copies become the stored record with only its status and updatedAt changed. A system message is added exactly for processing/ready/completed. Each student's active set changes as `Properties.StatusCounts` states, and moving to completed keeps the cap. |
| Backend.StatusUpdate | src/supabase/functions/server/index.tsx:279-318 | On a valid store the update's writes keep the invariant, store the updated record under both keys, and grow the thread by the system message exactly when the status has one. |
| Backend.StatusUpdateCounts | src/supabase/functions/server/index.tsx:279-318 | After the update's writes each student's active set is as `Properties.StatusCounts` states, and moving to completed keeps the cap. |
| Backend.Registrar.SendMessage | src/supabase/functions/server/index.tsx:330-370 | Not found ⇔ no such request. Locked ⇔ the request is completed. Otherwise exactly one unread message from the caller is added to the thread, and nothing else changes. |
| Backend.Registrar.ThreadMessages | src/supabase/functions/server/index.tsx:381 | The `message:<cid>:` scan enumerates the thread's keys and returns their messages. |
| Backend.Registrar.ListMessages | src/supabase/functions/server/index.tsx:373-393 | Oldest first. Exactly the thread's messages, one per stored key. |
| Backend.Registrar.Summaries | src/supabase/functions/server/index.tsx:411-424 | One summary per request, in order, each satisfying `Scans.Summarizes`. |
| Backend.Registrar.ListConversations | src/supabase/functions/server/index.tsx:396-438 | Latest activity first. One entry per request the caller sees. Each entry's unread count is the number of thread messages unread and not sent by the caller. Its last message is a stored thread message that no other thread message is newer than, and it is absent ⇔ the thread is empty. |
| Backend.Registrar.CreateTicket | src/supabase/functions/server/index.tsx:443-475 | Unauthorized ⇔ not a student. Otherwise an open ticket is written under both ticket keys. |
| Backend.Registrar.ListTickets | src/supabase/functions/server/index.tsx:478-501 | Newest first. Exactly the stored tickets the caller sees, one per scanned key. |
| Backend.Registrar.UpdateTicketStatus | src/supabase/functions/server/index.tsx:504-535 | Unauthorized ⇔ not an admin. Not found ⇔ no `ticket_by_id` entry. Otherwise both copies get the new status and updatedAt, and every other field is kept. |
| Backend.Registrar.ListAnnouncements | src/supabase/functions/server/index.tsx:540-559 | Newest first. Exactly the stored announcements that are active and expire after now, one per stored key. |
| Backend.Registrar.CreateAnnouncement | src/supabase/functions/server/index.tsx:562-589 | Unauthorized ⇔ not an admin. Otherwise one active, never-updated notice by the caller is stored under its key. |
| Backend.Registrar.UpdateAnnouncement | src/supabase/functions/server/index.tsx:592-620 | Unauthorized ⇔ not an admin. Not found ⇔ no such key. Otherwise the stored notice is replaced by its merge with the update. |
| Backend.Registrar.DeleteAnnouncement | src/supabase/functions/server/index.tsx:623-638 | Unauthorized ⇔ not an admin. Otherwise the key is removed, and an absent key is not an error. |
| Requests.NewRequest | src/supabase/functions/server/index.tsx:196-210 | A new request belongs to the caller, is pending and not completed, and costs 150 per copy. |
| Requests.StatusText | src/supabase/functions/server/index.tsx:294-305 | A status message is posted exactly for processing, ready and completed. |
| Requests.WithStatus | src/supabase/functions/server/index.tsx:281-285 | The update changes status and updatedAt and restores to the original when those two are put back. |
| Users.Lower | src/supabase/functions/server/index.tsx:61 | Case folding keeps the length and folds each character. |
| Users.DefaultAdmin | src/supabase/functions/server/index.tsx:671-678 | The start-up profile carries the granted account id, the fixed address `admin@example.com` and the admin role. |
| Users.LowerIdempotent | src/supabase/functions/server/index.tsx:61 | Folding a folded address changes nothing, so a stored address is its own index key. |
| Conversations.Chronological | src/supabase/functions/server/index.tsx:384-386 | The thread sorted: a permutation of it with timestamps ascending. |
| Conversations.Newest | src/supabase/functions/server/index.tsx:414-419 | `messages[0] \|\| null` after sorting newest first. It is absent ⇔ the thread is empty, and otherwise a message of the thread no other message is newer than. |
| Conversations.Summarize | src/supabase/functions/server/index.tsx:413-422 | The entry keeps the request, carries the newest message, and counts the messages unread by the viewer. |
| Conversations.ConversationOrder | src/supabase/functions/server/index.tsx:427-431 | In the sorted list a newer last message comes first, and a thread with a message after time 0 comes before every empty one. |
| Conversations.UnreadAfterSend | src/supabase/functions/server/index.tsx:358-363 | A new unread message raises every other viewer's unread count by one and leaves its sender's count unchanged. |
| Announcements.NewAnnouncement | src/supabase/functions/server/index.tsx:572-580 | A new notice is active, stamped now, authored by the caller, and never updated. |
| Announcements.Merge | src/supabase/functions/server/index.tsx:607-611 | A merged notice is stamped updatedAt = now. |
| Announcements.MergeNothing | src/supabase/functions/server/index.tsx:607-611 | An empty update only stamps updatedAt. |
| Announcements.MergeFields | src/supabase/functions/server/index.tsx:607-611 | For each of the seven fields, id and creation fields included, a value the update carries wins and an omitted one keeps its stored value. |
| Announcements.MergeIdempotent | src/supabase/functions/server/index.tsx:607-611 | Applying an update twice at the same time equals applying it once. |
| Announcements.PublicList | src/supabase/functions/server/index.tsx:545-552 | Exactly the active and unexpired notices, each with its stored multiplicity, newest first. |
| Announcements.VisibleSorted | src/supabase/functions/server/index.tsx:545-552 | The filtered, sorted notices are exactly the visible ones, as a multiset, newest first, and as many as pass the filter. |
| Listing.SortDesc | src/supabase/functions/server/index.tsx:254-256 | The `sort` of every listing: its result is a permutation of the input, ordered by a non-increasing key. |
| Listing.SortDescHeadIsMax | src/supabase/functions/server/index.tsx:414-419 | The head of a sorted non-empty sequence is an element with the largest key. |
| Listing.Filter | src/supabase/functions/server/index.tsx:187-189 | `Array.filter`: exactly the elements that satisfy the predicate. |
| Listing.FilterMultiset | src/supabase/functions/server/index.tsx:546-548 | Filtering keeps each element's multiplicity exactly when it satisfies the predicate. |
| Listing.CountOverKeys | src/supabase/functions/server/index.tsx:187-191 | Counting filtered values of a scan counts the distinct keys whose value passes. |
| Keys.PrefixSplit | src/supabase/functions/server/index.tsx:186 | `request:<c>:` is a prefix of `request:<owner>:<id>` ⇔ c = owner, for colon-free ids. |
| Keys.KeyInjective | src/supabase/functions/server/index.tsx:212 | Composite keys of colon-free parts determine their parts. |
| Keys.Distinguish | src/supabase/functions/server/index.tsx:212-213 | No key lies in two namespaces. |
| Preservation.CreateKeepsValid | src/supabase/functions/server/index.tsx:212-227 | The three writes of a create keep the store invariant. |
| Preservation.WriteRequestKeepsValid | src/supabase/functions/server/index.tsx:287-290 | Writing both copies of a stored request keeps the invariant. |
| Preservation.AddMessageKeepsValid | src/supabase/functions/server/index.tsx:363 | Adding a message to an existing request's thread keeps the invariant. |
| Preservation.WriteTicketKeepsValid | src/supabase/functions/server/index.tsx:465-468 | Writing both copies of a ticket keeps the invariant. |
| Preservation.SetAnnouncementKeepsValid | src/supabase/functions/server/index.tsx:582 | Writing an announcement keeps the invariant. |
| Preservation.RemoveAnnouncement | src/supabase/functions/server/index.tsx:631 | Deleting an announcement key keeps the invariant. |
| Preservation.SignupKeepsValid | src/supabase/functions/server/index.tsx:103-106 | Signup's three writes keep the invariant, when the three keys are fresh. |
| Preservation.BootstrapKeepsValid | src/supabase/functions/server/index.tsx:681-684 | Writing a non-student profile and its e-mail entry under fresh keys keeps the invariant. |
| Preservation.BootstrappedValid | src/supabase/functions/server/index.tsx:643-693 | The table after the bootstrap on an empty table keeps the invariant. |
| Preservation.RequestKeyAbsent | src/supabase/functions/server/index.tsx:212-213 | With no global copy of a request, there is no per-student copy either. |
| Properties.CreateCounts | src/supabase/functions/server/index.tsx:186-227 | A create adds exactly one active request to its student and changes no other student's count. |
| Properties.CreateKeepsCap | src/supabase/functions/server/index.tsx:186-193 | A create that passed the cap check keeps every student at or below two active requests. |
| Properties.CreateThread | src/supabase/functions/server/index.tsx:215-227 | A new request's thread is exactly its opening message. |
| Properties.StatusCounts | src/supabase/functions/server/index.tsx:281-290 | A status update removes the request from its student's active set and re-adds it exactly when the new status is not completed. Other students' sets are unchanged. |
| Properties.StatusWriteCounts | src/supabase/functions/server/index.tsx:281-318 | The same holds with the status message written, and an update to completed keeps the cap. |
| Properties.CompletingKeepsCap | src/supabase/functions/server/index.tsx:281-290 | Completing a request never breaks the cap. |
| Properties.ReopenBreaksCap | src/supabase/functions/server/index.tsx:266-290 | Re-opening a completed request of a student who already has two open ones breaks the cap: no status transition is checked. |
| Properties.ProfilesUnique | src/supabase/functions/server/index.tsx:60-70 | In a store that keeps the user indexes, two profiles with the same e-mail, or two student profiles with the same student id, are the same profile. |
| Properties.ThreadBelongs | src/supabase/functions/server/index.tsx:340-344 | Every key of a thread holds a message of that conversation. |
| Properties.NoThreadWithoutRequest | src/supabase/functions/server/index.tsx:340-344 | An id with no request has an empty thread. |
| Properties.ThreadAdd | src/supabase/functions/server/index.tsx:363 | Writing a message adds its key to its own thread and to no other. |
| Scans.RequestScan | src/supabase/functions/server/index.tsx:244-251 | A request scan holds exactly the stored requests the caller sees. |
| Scans.TicketScan | src/supabase/functions/server/index.tsx:485-490 | A ticket scan holds exactly the stored tickets the caller sees. |
| Scans.ThreadScan | src/supabase/functions/server/index.tsx:381 | A thread scan's keys are the thread's keys, each holding a message stored under its own id. |
| Scans.SummaryOfScan | src/supabase/functions/server/index.tsx:413-422 | Summarizing a thread scan gives the true unread count and newest message over the stored thread. |
| Scans.ConversationFacts | src/supabase/functions/server/index.tsx:408-431 | Every sorted entry is a stored request the caller sees, summarized over its thread, and every such request has an entry. The count of entries is stated by `ListConversations`. |
| Scans.PublicListFacts | src/supabase/functions/server/index.tsx:542-552 | The public listing over a scan holds exactly the visible stored notices. |
| Scans.ThreadListFacts | src/supabase/functions/server/index.tsx:381-386 | The sorted messages of a full thread scan are exactly the thread's stored messages, one per key. |
| Scenarios.CompletedConversationIsLocked | src/supabase/functions/server/index.tsx:176-370 | A one-copy request costs 150 and is pending. After an admin completes it, the student's next message is refused as locked. |
| Scenarios.SignupIgnoresCase | src/supabase/functions/server/index.tsx:60-64 | A second sign-up whose e-mail differs only in letter case is refused as a duplicate. |
| Scenarios.AdminAddressReserved | src/supabase/functions/server/index.tsx:60-64 | After the bootstrap, a sign-up with the admin's address in other letter case is refused as a duplicate. |
| Scenarios.ThirdRequestRefused | src/supabase/functions/server/index.tsx:186-193 | A student with two open requests is refused a third. |

## Left out

- Authentication: `verifyAuth` (lines 34-41), login and `/me` (lines 119-171), and the bearer token. Each handler receives the already-verified caller, whose role is `Student`, `Admin` or `NoRole` (a signed-in user with neither role). An unauthenticated call's 401 is not modelled.
- Signup's account creation in the auth service (lines 72-89) is a call into code that is not visible. It becomes the parameter `authUserId`: `None` models the auth error, and `Some(id)` is the new account's id. Signup's `requires` asks that this id has no profile yet, as a fresh account id guarantees.
- Signup: `existingUser` truthiness (lines 62 and 68) is modelled as the key being present. The stored values are non-empty ids.
- The default-admin bootstrap (lines 643-693) is `Backend.Registrar.InitializeDefaultAdmin`. Its account creation is the parameter `authUserId`, as in signup, and its password is not modelled. The admin profile has no student id; the model's `studentId` field holds the empty string for it.
- The health route, routing, CORS and logging. These are set-up code, not handler logic.
- `crypto.randomUUID()` and `new Date()` become parameters (fresh colon-free ids and an integer `now`). The handlers require the fresh keys to be absent, as random UUIDs are. ISO timestamps become integers that compare the same way.
- Users.Lower: folds only ASCII letters, whereas `toLowerCase` also folds other alphabets.
- Concurrency: the handlers `await` each store call, and two handlers can interleave. The duplicate checks and the cap check are check-then-write and not atomic, and the model runs each handler as one step. `Promise.all` in the conversation list is modelled as a sequential loop.
- Request bodies are JSON of any shape, but the model's parameters are typed. An announcement update is an `AnnouncementPatch` of the notice's known fields, whereas `...updates` may also add unknown fields. Whatever the update carries, `updatedAt` is then stamped last, as in the source.
- Messages sent by a caller with neither role are stored with `senderRole` as `Some(NoRole)`, whereas the source stores `undefined`.
- The order in which `getByPrefix` returns values is unspecified. The model leaves it open (`GetByPrefix` fixes it only through the scan). Listings are stated up to the sorting key, and entries with equal keys may come in either order.
- Error message texts and HTTP status codes. Each error response is one `Error` constructor.
- Internal store failures (the 500 responses) are not modelled: store calls always succeed.
- The server does not enforce these rules, and the model follows the server:
  - status updates accept any status, so `ReopenBreaksCap` shows re-opening can give a student three active requests (the admin page `src/components/admin/ManageRequests.tsx:101-115` offers every status for every request);
  - the quantity is not checked to be 1 or 2 (only the form at `src/components/student/RequestDocument.tsx:153` clamps it);
  - any signed-in caller may list any thread's messages, and may post to any request's conversation.
