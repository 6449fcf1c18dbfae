# Tix: ticket admission, fulfilment, check-in and event updates

A Dafny model of the server core of the Tix event-ticketing web
application. The application has four parts:

- an Express API for events, tickets and the waitlist;
- a JWT gate in front of it;
- a RabbitMQ worker that fulfils queued purchases;
- the same worker mailing event-change notices.

The model keeps the application's own vocabulary. Events carry `capacity`
and `sold`. Tickets carry a `qrCode` and an `isCheckedIn` flag. A purchase
is an order on the `ticket_orders` queue. An edit publishes batches on the
`event_updates` queue.

**State.** The whole server state is the value `Records.Db`, which holds:

- the events table, a map from id to event;
- the tickets, users and waitlist collections, as sequences in their
  natural order;
- the two durable queues, as sequences with the head at index 0.

**Handlers.** Each route handler and each worker callback is one atomic
step. It is a pure function returning `Step(db', reply)`, and its
`ensures` state what the handler promises. The class `Store.Store` keeps
the same state in mutable fields. Its methods perform each handler in
place, and each is proved to have exactly the effect of its step function.

**Outside the process.** Things the server does not decide become
parameters:

- the JWT verifier is `jwt`;
- `Date.now()` is `now`;
- reachability of the broker is `brokerUp`;
- the SMTP relay is `mailer` or `mailOk`;
- a failing database call is a fault value naming the await that
  throws: `Worker.Fault` for the order consumer, `Tickets.ScanFault` for
  check-in and `Events.EditFault` for the editor.

**Queue delivery.** An ack removes the head of a queue. A nack leaves it
there to be delivered again.

**Modules.**

- `Records`: entities, and the ledger invariant
  `CapacityRespected` (`sold <= capacity`).
- `Text`: the string operations the server relies on, namely JavaScript
  `split` and decimal rendering.
- `Tokens`: the three middleware gates.
- `Tickets`: the ticket routes.
- `Events`: the event routes.
- `Worker`: the two queue consumers.
- `Store`: the imperative store.
- `Pipeline`: multi-step scenarios (a race for the last seat,
  purchase-to-scan, and the writers that can break the ledger).

**Behaviour of the code that is easy to miss:**

- Besides the worker, two routes write `sold`. `PUT /events/:id` passes the
  body to `$set`, and `POST /events` spreads the body into the new event.
  So `sold` and `capacity` can be set freely (`Pipeline.EditorCanOversell`,
  `Pipeline.CreateCanOversell`).
- The worker increments `sold` before it saves the ticket. A failure
  between those steps followed by redelivery counts the seats twice.
- The update consumer sends a batch with `Promise.all`, so the batch is
  acked only if every send succeeds; one failed send nacks the whole batch.
- The 1–5 quantity rule exists only in the attendee page of the client.
  The server queues any quantity that fits (`Tickets.AdmissionIgnoresQuantityRule`).
- `qrCode` has no uniqueness constraint. Check-in acts on the first
  ticket carrying the code.

## Model

| member | source | states |
|---|---|---|
| Records.NewTicket | server/models/Ticket.js:5-15 | a new ticket record holds the order's user, event, quantity and code and is not checked in |
| Records.FindUser | server/routes/tickets.js:117 | a found user is in the collection with that id; no user is found only when none has that id |
| Text.SplitJoin | server/middleware/verifyToken.js:6 | splitting on a separator and joining with it gives back the string (split loses nothing) |
| Text.SplitPrefix | server/middleware/verifyToken.js:6 | a separator-free prefix followed by the separator is the first component of the split |
| Text.SplitWhole | server/middleware/verifyToken.js:6 | a string without the separator splits into itself alone |
| Text.Decimal | server/routes/tickets.js:59 | the rendering of the timestamp is non-empty, all digits, one digit exactly below 10, no leading zero |
| Text.DecimalInjective | server/routes/tickets.js:59 | distinct timestamps render differently |
| Text.DecimalHasNo | server/routes/tickets.js:59 | a rendered timestamp contains no non-digit, in particular no `-` |
| Tokens.BearerToken | server/middleware/verifyToken.js:6 | for `scheme token` with no spaces inside either, the token taken is exactly `token` |
| Tokens.NoSpaceNoToken | server/middleware/verifyToken.js:6 | a header without a space yields no token (and is then refused with 403) |
| Tokens.VerifyToken | server/middleware/verifyToken.js:3-19 | 401 exactly when the header is missing or empty; passes exactly when a token is present and verifies, with the verified claims; every refusal is 401 or 403 |
| Tokens.VerifyOrganizer | server/middleware/verifyToken.js:21-30 | passes exactly when the token passes and the role is organizer or admin; token refusals propagate unchanged; otherwise 403 |
| Tokens.VerifyAdmin | server/middleware/verifyToken.js:32-40 | passes exactly when the token passes and the role is admin; token refusals propagate; otherwise 403 |
| Tokens.AdminPassesOrganizer | server/middleware/verifyToken.js:21-40 | anyone the admin gate admits, the organizer gate admits with the same claims |
| Tickets.JoinEvent | server/routes/tickets.js:28-34 | a listed ticket carries its event's title, date and location, or "Unknown Event", no date and "Unknown" when the event is gone |
| Tickets.JoinOwned | server/routes/tickets.js:14-36 | the listing holds only the owner's tickets, each joined with its event, and every ticket of the owner appears |
| Tickets.MyTickets | server/routes/tickets.js:8-44 | GET /tickets lists exactly the caller's tickets (both directions), each joined with its event |
| Tickets.QrCodeParts | server/routes/tickets.js:59 | a code splits on `-` back into event id, user id and timestamp when the ids contain no `-` |
| Tickets.QrCodeInjective | server/routes/tickets.js:59 | two codes are equal only when event, user and timestamp are equal (for ids without `-`) |
| Tickets.Admit | server/routes/tickets.js:47-89 | 404 exactly for a missing event; "sold out" with `capacity - sold` left exactly when the quantity does not fit; 500 exactly when it fits but the broker is down; accepted exactly when the event exists, the quantity fits and the broker is up, and then exactly one order with the generated code is appended to `ticket_orders` and the reply echoes code, title, date and quantity; nothing else in the store changes, and nothing at all unless accepted |
| Tickets.AdmissionIgnoresQuantityRule | server/routes/tickets.js:49-57 | a quantity outside 1..5 that fits is queued unchanged: the server does not enforce the client's rule |
| Tickets.FirstWithCode | server/routes/tickets.js:99 | the lookup finds the first ticket carrying the code, and finds none exactly when no ticket carries it |
| Tickets.MarkUsed | server/routes/tickets.js:113-114 | marking sets the flag of exactly the ticket the code finds and changes nothing else in the store |
| Tickets.CheckIn | server/routes/tickets.js:92-134 | a throwing ticket lookup: 500, no change; unknown code: "INVALID TICKET", no change; already flagged: "ALREADY SCANNED", no change; a throwing save: 500, no change; throwing reply lookups: 500 with the ticket already flagged; otherwise only the found ticket's flag is set and the reply names the owner's username (or "Unknown User"), the event title (or "Unknown Event") and the quantity; admitted exactly when nothing throws and the found ticket is unused |
| Tickets.FirstWithCodeIgnoresFlags | server/routes/tickets.js:99-114 | marking a ticket used does not change which ticket a code finds |
| Tickets.SecondScanRefused | server/routes/tickets.js:107-114 | a code that was just admitted is answered "ALREADY SCANNED" the next time |
| Tickets.MarkUsedSettles | server/routes/tickets.js:99-114 | after marking, the code finds the same ticket and it is no longer unused |
| Tickets.FailedReplyUsesUpTicket | server/routes/tickets.js:113-117 | a scan whose owner or event lookup throws answers 500, yet the next scan of the code is refused as already scanned |
| Tickets.AtMostOneAdmission | server/routes/tickets.js:99-126 | scanning a code any number of times, with any failures on the way, admits at most once, and once exactly when the found ticket is unused and the first scan to get past the save is a clean one |
| Tickets.NothingAfterRefusal | server/routes/tickets.js:99-110 | a code whose ticket is missing or used stays refused, and repeated scans with any failures change nothing |
| Tickets.ShadowedTicketUntouched | server/routes/tickets.js:99 | a later ticket sharing a code with an earlier one is never checked in by that code, whatever fails |
| Worker.ConfirmationAddress | server/rabbitmq/worker.js:118-119 | the confirmation goes to the order user's address exactly when the user is found and the address is non-empty |
| Worker.HandleOrder | server/rabbitmq/worker.js:108-124 | nacked exactly when the event lookup throws or a later await throws for a fitting order; a non-fitting order is acked with no change; a fitting one raises `sold` by the quantity unless the lookup or increment throws, and adds exactly one ticket when the save succeeds; a fitting fault-free order is confirmed to the owner's address whenever one exists and the mail succeeds, and mail goes out only then; queues, users and waitlist untouched; `sold <= capacity` is preserved |
| Worker.MailFailureSwallowed | server/rabbitmq/worker.js:44-66 | whether the confirmation mail fails changes neither the store nor the ack |
| Worker.Deliver | server/rabbitmq/worker.js:108-124 | an empty queue does nothing; otherwise the head order is handled as `HandleOrder` does, its effect on events and tickets kept, and an ack removes it while a nack keeps it at the head; `sold <= capacity` is preserved |
| Worker.DeliverAllRespectsCapacity | server/rabbitmq/worker.js:114-115 | any sequence of order deliveries, with any faults, keeps `sold <= capacity` for every event |
| Worker.DeliverAllKeepsTickets | server/rabbitmq/worker.js:116-117 | order deliveries only append tickets and never touch users, waitlist or the update queue |
| Worker.SaveFailureCountsTwice | server/rabbitmq/worker.js:115-122 | a save failure then redelivery adds the quantity to `sold` twice but issues one ticket |
| Worker.OwnerLookupFailureDuplicatesTicket | server/rabbitmq/worker.js:116-122 | an owner-lookup failure then redelivery issues two identical tickets and counts twice |
| Worker.Delivered | server/rabbitmq/worker.js:131-146 | exactly the recipients the relay accepts are delivered, and all are delivered exactly when the relay accepts every one |
| Worker.Consume | server/rabbitmq/worker.js:127-151 | a batch whose list is absent under the field read is nacked with nothing sent; otherwise it is acked exactly when every send succeeds |
| Worker.SendBatch | server/rabbitmq/worker.js:129-149 | the loop over recipients computes exactly `Consume` |
| Worker.DeliverBatch | server/rabbitmq/worker.js:127-151 | the head batch is consumed; an ack removes it, a nack leaves the queue as it was |
| Worker.FieldMismatchNacksForever | server/rabbitmq/worker.js:129 | a batch published by the editor is nacked with no mail sent and stays at the head of the queue |
| Worker.MatchingFieldDelivers | server/routes/events.js:149 | reading the field the editor writes, every accepted recipient gets the mail and the batch leaves the queue exactly when all were accepted |
| Events.ApplyPatch | server/routes/events.js:126-130 | `$set` writes every field the body names (organizer, title, description, date, location, price, capacity, sold) and keeps every other; an empty body changes nothing |
| Events.HolderEmails | server/routes/events.js:135-138 | the recipient list holds exactly the non-empty addresses of users holding a ticket for the event |
| Events.HolderEmailsDistinct | server/routes/events.js:136-138 | with unique user addresses, no holder is mailed twice |
| Events.HolderIdsIgnoreRepeatBuyers | server/routes/events.js:136 | a second ticket for the same holder does not add a recipient |
| Events.NoHoldersNoRecipients | server/routes/events.js:137-138 | with no holders the recipient list is empty, so no holder batch is published |
| Events.WaitlistEmails | server/routes/events.js:157-158 | the waitlist recipients are exactly the addresses of the event's waitlist entries; none exactly when the event has no entry |
| Events.DropWaitlist | server/routes/events.js:169 | exactly the event's waitlist entries are removed |
| Events.ReleaseMatchesDeletion | server/routes/events.js:158-169 | the number of addresses released equals the number of entries deleted |
| Events.UpdateEvent | server/routes/events.js:119-179 | 403 for a non-organizer, and 500 when the event lookups throw, both with no change; 404 for a missing event with no change; otherwise the patch is applied; a throwing holder lookup or broker connection answers 500 with only the edit kept; then a holder batch is appended when there are holders; when capacity rose, a throwing waitlist lookup answers 500, otherwise a waitlist batch is appended when someone waits and the event's entries are removed, unless the deletion throws (500, entries kept); tickets, users and orders untouched |
| Events.FailedDeleteReleasesTwice | server/routes/events.js:156-171 | when the deletion of released entries throws, they stay, and the next edit raising capacity publishes a release to the same addresses again |
| Events.PublishedUnderListField | server/routes/events.js:144-167 | every batch the editor publishes carries its recipients under `emails` |
| Events.JoinWaitlist | server/routes/events.js:182-199 | 400 exactly when the caller already waits for the event; 500 exactly when not waiting and the caller is unknown or has no address; otherwise one entry with the caller's address is appended; a waitlist without duplicates stays without |
| Events.CreateEvent | server/routes/events.js:50-66 | 403 when the token has no id; 500 exactly when it has one but the body is incomplete or the id is taken; otherwise the event is added with the body's title, description, date, location, price and capacity, owned by the caller, `sold` taken from the body or 0; nothing changes unless created |
| Events.DeleteEvent | server/routes/events.js:109-116 | exactly the event is removed and every other part of the store (tickets, users, waitlist, both queues) is unchanged; `sold <= capacity` still holds |
| Events.CeilDiv | server/routes/events.js:89 | the page count is the ceiling of count over limit, for either sign of the limit |
| Events.Page | server/routes/events.js:69-96 | a negative skip fails; otherwise the page is the run of `limit` matches from `(page-1)*limit` (every match for a limit of 0), the total count, the page asked and `CeilDiv(count, limit)` pages for either sign of the limit (none for a limit of 0) |
| Events.PagesCover | server/routes/events.js:83-84 | pages 1 to n together are the first n times limit matches |
| Events.AllPagesListEverything | server/routes/events.js:83-89 | reading pages 1 to `totalPages` lists every matching event once, in order |
| Events.CheckedInCount | server/routes/events.js:19-20 | the checked-in count never exceeds the ticket count |
| Events.Analytics | server/routes/events.js:10-36 | 404 for a missing event; otherwise the event's `sold` and `capacity`, the number of its ticket records and of those checked in |
| Events.CheckInCountsOnce | server/routes/events.js:19-20 | checking in an unused ticket raises its event's checked-in count by one and no record count changes |
| Events.AttendeesCountRecords | server/routes/events.js:19-31 | each further ticket record adds one to its own event's `totalAttendees`, whatever its quantity, and nothing to any other event |
| Store.Store.Purchase | server/routes/tickets.js:47-89 | updates the store in place exactly as `Tickets.Admit` |
| Store.Store.Verify | server/routes/tickets.js:92-134 | updates the store in place exactly as `Tickets.CheckIn` |
| Store.Store.ConsumeOrder | server/rabbitmq/worker.js:108-124 | updates the store in place exactly as `Worker.Deliver` |
| Store.Store.ConsumeUpdate | server/rabbitmq/worker.js:127-151 | updates the store in place exactly as `Worker.DeliverBatch` |
| Store.Store.Update | server/routes/events.js:119-179 | updates the store in place exactly as `Events.UpdateEvent` |
| Store.Store.JoinWaitlist | server/routes/events.js:182-199 | updates the store in place exactly as `Events.JoinWaitlist` |
| Store.Store.Create | server/routes/events.js:50-66 | updates the store in place exactly as `Events.CreateEvent` |
| Store.Store.Delete | server/routes/events.js:109-116 | updates the store in place exactly as `Events.DeleteEvent` |
| Pipeline.LastSeatRace | server/routes/tickets.js:55-75 | two buyers racing for the last seat are both accepted, yet fulfilment issues one ticket, `sold` reaches exactly the capacity and both orders are acked |
| Pipeline.PurchaseThenScan | server/routes/tickets.js:59-114 | the code returned by a purchase admits at the door once fulfilled, with the bought quantity, and is refused the second time |
| Pipeline.EditorCanOversell | server/routes/events.js:126-130 | an edit can lower capacity below `sold`, breaking the ledger invariant |
| Pipeline.CreateCanOversell | server/routes/events.js:56-59 | creation keeps a `sold` from the body and can produce an oversold event |
| Pipeline.DeletedEventListsUnknown | server/routes/events.js:109-116 | after deletion the event's tickets are still listed, with the missing-event placeholders |
| Pipeline.WaitlistRelease | server/routes/events.js:156-171 | raising capacity with three waiting and no holders publishes one waitlist batch to the three addresses in order and empties the waitlist |

## Left out

- Concurrency. Each handler and each callback is one atomic step. The
  awaits inside a handler do not interleave with other requests. Check-in
  is read-then-save in the source, so two simultaneous scans could both
  admit. Races between handlers appear only as sequences of steps
  (`Pipeline.LastSeatRace`).
- JSON parsing, request-body type coercion and Mongoose cast errors are
  not modelled. `JSON.parse` outside the `try` is one example. Quantities
  and limits arriving as strings or missing are another. Quantities,
  pages and limits are integers in the model.
- Defaults of the list route (`page = 1`, `limit = 6`) are not modelled;
  `Events.Page` takes both explicitly.
- Search by title, location and date are not modelled: the regex filters,
  the Turkish collation and the sort by date. `Events.Page` takes the
  already filtered and sorted matches.
- `GET /events/:id` and `GET /events/organizer` are single finds with no
  logic of their own.
- Registration and login (`auth.js`), the user listing (`users.js`) and
  server start-up (`index.js`) are not part of this model.
- Mail contents, QR images, date formatting, timestamps and percentages
  are not modelled. This covers the analytics percentages, `purchaseDate`
  and the `date` field of the verify reply.
- Prices are floating point in the source; the model uses integers and
  no operation computes with them.
- Broker connections are never closed. Durability and persistence flags
  are kept as data only. Queue behaviour is reduced to ordered delivery
  with ack and nack.
- `findOne` returning the first document in natural order is modelled as
  the first match in the sequence.
- `Tickets.MyTickets`: states membership in both directions, not that
  the listing preserves the order and multiplicity of the stored tickets.
- `Events.HolderEmails`: states membership and distinctness. It does not
  state the order of `User.find` with `$in`, which the model takes as the
  collection order.
- `Events.JoinWaitlist`: a missing user (a `TypeError` on `user.email`)
  and an empty address (the required-field check) are both modelled as
  the same 500 reply. Throwing lookups or a failing save are not modelled.
- `Worker.HandleOrder`: a thrown await is a `Fault` parameter. What
  makes the database fail is not modelled. The same holds for
  `Tickets.CheckIn` (`ScanFault`) and `Events.UpdateEvent` (`EditFault`).
- `Tickets.Admit`: `brokerUp` stands for the three broker awaits. A
  throwing `Event.findById` (line 52, for instance on a malformed id) is
  not modelled separately.
- `Events.CreateEvent`: a store failure during the save is not modelled;
  the 500 is given only for an incomplete body or a taken id.
- `Events.DeleteEvent`: the reply is not modelled. It is 200 whether or
  not the event existed, and 500 with no change when the delete throws.

## Findings

| source | as written | input that shows it | evidently intended | confidence | as-written member | corrected member |
|---|---|---|---|---|---|---|
| server/rabbitmq/worker.js:129 | the update consumer reads the recipients from `recipientList`, while `PUT /events/:id` publishes them under `emails` (server/routes/events.js:149,165); `recipientList.map` throws, so every batch is nacked, no notice is sent, and the batch returns to the head of `event_updates` | any edit of an event that has a ticket holder, or a capacity increase with someone on the waitlist | the consumer reads `emails`, so each published batch reaches its recipients | high, not executed | Worker.FieldMismatchNacksForever | Worker.MatchingFieldDelivers |
