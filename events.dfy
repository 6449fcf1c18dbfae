/** The event routes: the editor that fans updates out to ticket holders
    and releases the waitlist when capacity rises, the waitlist join,
    creation and deletion, the paginated public list and the organizer's
    analytics counts. Gates (`verifyToken`, `verifyTokenAndOrganizer`) sit
    in front of these handlers and pass on the caller's claims. */
module Events {
  import opened Records
  import Tokens

  /** The field name under which the editor publishes a batch's recipients. */
  const LIST_FIELD: string := "emails"

  // ----- PUT /:id : update and notify -----

  /** A request body for `$set`: the fields it names, the others absent. */
  datatype Patch = Patch(
    organizerId: Option<Id>,
    title: Option<string>,
    description: Option<string>,
    date: Option<string>,
    location: Option<string>,
    price: Option<int>,
    capacity: Option<int>,
    sold: Option<int>)

  /** The value a `$set` leaves in a field: the given one, else the current. */
  function Pick<T>(given: Option<T>, current: T): (v: T)
    ensures given.Some? ==> v == given.value
    ensures given.None? ==> v == current
  {
    if given.Some? then given.value else current
  }

  /** `$set: body`: every field the body names is overwritten, `sold` and
      `capacity` included; the others keep their value. */
  function ApplyPatch(e: Event, p: Patch): (r: Event)
    ensures r.organizerId == Pick(p.organizerId, e.organizerId)
    ensures r.title == Pick(p.title, e.title) && r.description == Pick(p.description, e.description)
    ensures r.date == Pick(p.date, e.date) && r.location == Pick(p.location, e.location)
    ensures r.price == Pick(p.price, e.price)
    ensures p.capacity.None? ==> r.capacity == e.capacity
    ensures p.capacity.Some? ==> r.capacity == p.capacity.value
    ensures p.sold.None? ==> r.sold == e.sold
    ensures p.sold.Some? ==> r.sold == p.sold.value
    ensures p == Patch(None, None, None, None, None, None, None, None) ==> r == e
  {
    Event(Pick(p.organizerId, e.organizerId), Pick(p.title, e.title),
          Pick(p.description, e.description), Pick(p.date, e.date),
          Pick(p.location, e.location), Pick(p.price, e.price),
          Pick(p.capacity, e.capacity), Pick(p.sold, e.sold))
  }

  /** The distinct owners of an event's tickets. */
  function HolderIds(tickets: seq<Ticket>, eventId: Id): set<Id>
  {
    set t | t in tickets && t.eventId == eventId :: t.userId
  }

  /** `User.find({_id: {$in: holders}})` mapped to e-mails, empty ones
      dropped: one entry per matching user, in the users' own order. */
  function HolderEmails(users: seq<User>, holders: set<Id>): (r: seq<Email>)
    ensures |r| <= |users|
    ensures forall e :: e in r ==> e != "" && exists u :: u in users && u.id in holders && u.email == e
    ensures forall u :: u in users && u.id in holders && u.email != "" ==> u.email in r
  {
    if users == [] then []
    else
      var rest := HolderEmails(users[1..], holders);
      if users[0].id in holders && users[0].email != "" then [users[0].email] + rest else rest
  }

  /** An event nobody holds a ticket for has no one to notify. */
  lemma {:induction false} NoHoldersNoRecipients(users: seq<User>)
    ensures HolderEmails(users, {}) == []
  {
    if users != [] {
      NoHoldersNoRecipients(users[1..]);
    }
  }

  ghost predicate NoDuplicates<T>(s: seq<T>)
  {
    forall i, j :: 0 <= i < j < |s| ==> s[i] != s[j]
  }

  /** With e-mails unique among users, as the user records demand, each
      holder receives the update once however many tickets they hold. */
  lemma {:induction false} HolderEmailsDistinct(users: seq<User>, holders: set<Id>)
    requires forall i, j :: 0 <= i < j < |users| ==> users[i].email != users[j].email
    ensures NoDuplicates(HolderEmails(users, holders))
  {
    if users != [] {
      var tail := users[1..];
      assert forall i, j :: 0 <= i < j < |tail| ==> tail[i].email != tail[j].email by {
        forall i, j | 0 <= i < j < |tail| ensures tail[i].email != tail[j].email {
          assert tail[i] == users[i + 1] && tail[j] == users[j + 1];
        }
      }
      HolderEmailsDistinct(tail, holders);
      var rest := HolderEmails(tail, holders);
      if users[0].id in holders && users[0].email != "" {
        forall e | e in rest ensures e != users[0].email {
          var u :| u in tail && u.id in holders && u.email == e;
          var k :| 0 <= k < |tail| && tail[k] == u;
          assert users[k + 1] == u;
        }
        var r := [users[0].email] + rest;
        forall i, j | 0 <= i < j < |r| ensures r[i] != r[j] {
          if i == 0 {
            assert r[j] == rest[j - 1] && r[j] in rest;
          } else {
            assert r[i] == rest[i - 1] && r[j] == rest[j - 1];
          }
        }
      }
    }
  }

  /** A further ticket for someone who already holds one leaves the
      recipient list unchanged. */
  lemma HolderIdsIgnoreRepeatBuyers(tickets: seq<Ticket>, t: Ticket, eventId: Id)
    requires t.userId in HolderIds(tickets, eventId) || t.eventId != eventId
    ensures HolderIds(tickets + [t], eventId) == HolderIds(tickets, eventId)
  {
    var before, after := HolderIds(tickets, eventId), HolderIds(tickets + [t], eventId);
    forall id | id in after ensures id in before {
      var x :| x in tickets + [t] && x.eventId == eventId && x.userId == id;
      if x != t {
        assert x in tickets;
      }
    }
  }

  /** The e-mails of an event's waitlist entries, in entry order. */
  function WaitlistEmails(waitlist: seq<WaitlistEntry>, eventId: Id): (r: seq<Email>)
    ensures |r| <= |waitlist|
    ensures forall e :: e in r <==> exists w :: w in waitlist && w.eventId == eventId && w.userEmail == e
    ensures r == [] <==> forall w :: w in waitlist ==> w.eventId != eventId
  {
    if waitlist == [] then []
    else
      var rest := WaitlistEmails(waitlist[1..], eventId);
      if waitlist[0].eventId == eventId then [waitlist[0].userEmail] + rest else rest
  }

  /** `Waitlist.deleteMany({eventId})`: that event's entries go, every
      other entry stays. */
  function DropWaitlist(waitlist: seq<WaitlistEntry>, eventId: Id): (r: seq<WaitlistEntry>)
    ensures forall w :: w in r <==> w in waitlist && w.eventId != eventId
    ensures |r| <= |waitlist|
    ensures (forall w :: w in waitlist ==> w.eventId != eventId) ==> r == waitlist
  {
    if waitlist == [] then []
    else
      var rest := DropWaitlist(waitlist[1..], eventId);
      if waitlist[0].eventId == eventId then rest else [waitlist[0]] + rest
  }

  /** The number of recipients a waitlist release carries is the number of
      entries it deletes. */
  lemma {:induction false} ReleaseMatchesDeletion(waitlist: seq<WaitlistEntry>, eventId: Id)
    ensures |WaitlistEmails(waitlist, eventId)| + |DropWaitlist(waitlist, eventId)| == |waitlist|
  {
    if waitlist != [] {
      ReleaseMatchesDeletion(waitlist[1..], eventId);
    }
  }

  datatype UpdateReply =
    | Updated(event: Event)   // 200
    | NotOrganizer            // 403
    | EventNotFound           // 404
    | UpdateFailed            // 500: an awaited call threw

  /** The awaited call of the editor that throws, if any: the two event
      lookups before the write, the holder lookups after it, the broker
      connection, the waitlist lookup and the waitlist deletion. */
  datatype EditFault = EditOk | AtEventFind | AtHolderFind | AtBroker | AtWaitlistFind | AtWaitlistDelete

  /** The update notice for the holders: durable. */
  function HolderBatch(e: Event, emails: seq<Email>): Batch
  {
    Batch(e.title, e.date, e.location, LIST_FIELD, emails, false, true)
  }

  /** The waitlist release: published without the persistent flag. */
  function ReleaseBatch(e: Event, emails: seq<Email>): Batch
  {
    Batch(e.title, e.date, e.location, LIST_FIELD, emails, true, false)
  }

  /** The editor. Callers that are neither organizer nor admin get 403 and
      a missing event 404, both leaving the store alone. Otherwise the body
      is `$set` on the event first; then one holder batch is published when
      there are holder e-mails, and when the new capacity exceeds the old
      one and the event has waitlist entries, one release batch with all
      their e-mails is published and exactly those entries are deleted.
      A throw answers 500 and keeps whatever was written before it: the
      edit after the holder lookups or the broker fail, the holder batch
      after the waitlist lookup fails, and both batches, with the entries
      left in place, after the deletion fails. */
  function UpdateEvent(db: Db, caller: Claims, id: Id, patch: Patch, fault: EditFault): (r: Step<UpdateReply>)
    ensures !Tokens.MayOrganize(caller.role) ==> r == Step(db, NotOrganizer)
    ensures Tokens.MayOrganize(caller.role) && fault == AtEventFind ==> r == Step(db, UpdateFailed)
    ensures Tokens.MayOrganize(caller.role) && fault != AtEventFind && id !in db.events ==>
      r == Step(db, EventNotFound)
    ensures r.db.tickets == db.tickets && r.db.users == db.users && r.db.ticketOrders == db.ticketOrders
    ensures Tokens.MayOrganize(caller.role) && fault != AtEventFind && id in db.events ==>
      r.db.events == db.events[id := ApplyPatch(db.events[id], patch)]
    ensures Tokens.MayOrganize(caller.role) && id in db.events && (fault == AtHolderFind || fault == AtBroker) ==>
      r.reply == UpdateFailed && r.db.waitlist == db.waitlist && r.db.eventUpdates == db.eventUpdates
    ensures (Tokens.MayOrganize(caller.role) && id in db.events
             && (fault == EditOk || fault == AtWaitlistFind || fault == AtWaitlistDelete)) ==>
      var old_ := db.events[id];
      var new_ := ApplyPatch(old_, patch);
      var holders := HolderEmails(db.users, HolderIds(db.tickets, id));
      var waiting := WaitlistEmails(db.waitlist, id);
      var rise := new_.capacity > old_.capacity;
      var release := rise && waiting != [] && fault != AtWaitlistFind;
      var failed := (rise && fault == AtWaitlistFind) || (release && fault == AtWaitlistDelete);
      r.reply == (if failed then UpdateFailed else Updated(new_))
      && r.db.eventUpdates == db.eventUpdates
           + (if holders != [] then [HolderBatch(new_, holders)] else [])
           + (if release then [ReleaseBatch(new_, waiting)] else [])
      && r.db.waitlist == (if release && fault == EditOk then DropWaitlist(db.waitlist, id) else db.waitlist)
    ensures r.reply.Updated? ==> fault != AtEventFind && fault != AtHolderFind && fault != AtBroker
  {
    if !Tokens.MayOrganize(caller.role) then Step(db, NotOrganizer)
    else if fault == AtEventFind then Step(db, UpdateFailed)
    else if id !in db.events then Step(db, EventNotFound)
    else
      var old_ := db.events[id];
      var new_ := ApplyPatch(old_, patch);
      var edited := db.(events := db.events[id := new_]);
      if fault == AtHolderFind || fault == AtBroker then Step(edited, UpdateFailed)
      else
        var holders := HolderEmails(db.users, HolderIds(db.tickets, id));
        var notified := if holders != [] then edited.(eventUpdates := edited.eventUpdates + [HolderBatch(new_, holders)])
                        else edited;
        if new_.capacity <= old_.capacity then Step(notified, Updated(new_))
        else if fault == AtWaitlistFind then Step(notified, UpdateFailed)
        else
          var waiting := WaitlistEmails(db.waitlist, id);
          if waiting == [] then Step(notified, Updated(new_))
          else
            var published := notified.(eventUpdates := notified.eventUpdates + [ReleaseBatch(new_, waiting)]);
            if fault != EditOk then Step(published, UpdateFailed)
            else Step(published.(waitlist := DropWaitlist(db.waitlist, id)), Updated(new_))
  }

  /** A failed deletion of the released entries leaves them waiting, so the
      next edit that raises the capacity mails the same addresses again. */
  lemma FailedDeleteReleasesTwice(db: Db, caller: Claims, id: Id, first: Patch, second: Patch)
    requires Tokens.MayOrganize(caller.role) && id in db.events
    requires ApplyPatch(db.events[id], first).capacity > db.events[id].capacity
    requires ApplyPatch(ApplyPatch(db.events[id], first), second).capacity > ApplyPatch(db.events[id], first).capacity
    requires WaitlistEmails(db.waitlist, id) != []
    ensures var r1 := UpdateEvent(db, caller, id, first, AtWaitlistDelete);
      var r2 := UpdateEvent(r1.db, caller, id, second, EditOk);
      var waiting := WaitlistEmails(db.waitlist, id);
      r1.reply == UpdateFailed && r1.db.waitlist == db.waitlist
      && r1.db.eventUpdates[|r1.db.eventUpdates| - 1] == ReleaseBatch(ApplyPatch(db.events[id], first), waiting)
      && r2.reply.Updated?
      && r2.db.eventUpdates[|r2.db.eventUpdates| - 1] == ReleaseBatch(r2.reply.event, waiting)
      && r2.db.waitlist == DropWaitlist(db.waitlist, id)
  {
    var r1 := UpdateEvent(db, caller, id, first, AtWaitlistDelete);
    assert r1.db.events[id] == ApplyPatch(db.events[id], first);
  }

  /** Every batch the editor publishes carries its list under LIST_FIELD. */
  lemma {:induction false} PublishedUnderListField(db: Db, caller: Claims, id: Id, patch: Patch, fault: EditFault)
    requires forall i :: 0 <= i < |db.eventUpdates| ==> db.eventUpdates[i].listField == LIST_FIELD
    ensures var r := UpdateEvent(db, caller, id, patch, fault);
      forall i :: 0 <= i < |r.db.eventUpdates| ==> r.db.eventUpdates[i].listField == LIST_FIELD
  {
  }

  // ----- POST /:id/waitlist -----

  datatype JoinReply =
    | Joined          // 200
    | AlreadyWaiting  // 400
    | JoinFailed      // 500: caller unknown or without e-mail

  predicate IsWaiting(waitlist: seq<WaitlistEntry>, eventId: Id, userId: Id)
  {
    exists w :: w in waitlist && w.eventId == eventId && w.userId == userId
  }

  /** No two waitlist entries for the same event and user. */
  ghost predicate WaitlistUnique(waitlist: seq<WaitlistEntry>)
  {
    forall i, j :: 0 <= i < j < |waitlist| ==>
      waitlist[i].eventId != waitlist[j].eventId || waitlist[i].userId != waitlist[j].userId
  }

  /** Joining: an existing entry for the same event and caller is refused
      with nothing added; otherwise an entry with the caller's e-mail is
      appended. The event itself is never looked up. */
  function JoinWaitlist(db: Db, caller: Claims, eventId: Id): (r: Step<JoinReply>)
    ensures IsWaiting(db.waitlist, eventId, caller.id) ==> r == Step(db, AlreadyWaiting)
    ensures r.reply.Joined? <==>
      !IsWaiting(db.waitlist, eventId, caller.id)
      && FindUser(db.users, caller.id).Some? && FindUser(db.users, caller.id).value.email != ""
    ensures r.reply == JoinFailed <==>
      !IsWaiting(db.waitlist, eventId, caller.id)
      && (FindUser(db.users, caller.id).None? || FindUser(db.users, caller.id).value.email == "")
    ensures r.reply.Joined? ==>
      r.db == db.(waitlist := db.waitlist + [WaitlistEntry(eventId, caller.id, FindUser(db.users, caller.id).value.email)])
    ensures !r.reply.Joined? ==> r.db == db
    ensures WaitlistUnique(db.waitlist) ==> WaitlistUnique(r.db.waitlist)
  {
    if IsWaiting(db.waitlist, eventId, caller.id) then Step(db, AlreadyWaiting)
    else
      match FindUser(db.users, caller.id)
      case None => Step(db, JoinFailed)
      case Some(u) =>
        if u.email == "" then Step(db, JoinFailed)
        else
          var entry := WaitlistEntry(eventId, caller.id, u.email);
          var w := db.waitlist + [entry];
          assert forall i :: 0 <= i < |db.waitlist| ==> w[i] == db.waitlist[i] && db.waitlist[i] in db.waitlist;
          Step(db.(waitlist := w), Joined)
  }

  // ----- POST / and DELETE /:id -----

  datatype CreateReply =
    | Created(id: Id, event: Event)  // 200
    | MissingUserId                  // 403
    | CreateFailed                   // 500: a required field is missing, or the id is taken

  /** The schema's required fields: present, and strings non-empty. */
  predicate Complete(body: Patch)
  {
    body.title.Some? && body.title.value != ""
    && body.description.Some? && body.description.value != ""
    && body.date.Some? && body.location.Some? && body.location.value != ""
    && body.price.Some? && body.capacity.Some?
  }

  /** Creation: the body's fields with `organizerId` forced to the caller's
      id and `sold` defaulting to 0 (a `sold` in the body is kept). `newId`
      is the id the store assigns. */
  function CreateEvent(db: Db, caller: Claims, body: Patch, newId: Id): (r: Step<CreateReply>)
    ensures caller.id == "" ==> r == Step(db, MissingUserId)
    ensures r.reply == CreateFailed <==> caller.id != "" && (!Complete(body) || newId in db.events)
    ensures r.reply.Created? <==> caller.id != "" && Complete(body) && newId !in db.events
    ensures r.reply.Created? ==>
      r.reply.id == newId
      && r.reply.event.organizerId == caller.id
      && r.reply.event.title == body.title.value
      && r.reply.event.description == body.description.value
      && r.reply.event.date == body.date.value
      && r.reply.event.location == body.location.value
      && r.reply.event.price == body.price.value
      && r.reply.event.capacity == body.capacity.value
      && r.reply.event.sold == (if body.sold.Some? then body.sold.value else 0)
      && r.db == db.(events := db.events[newId := r.reply.event])
    ensures !r.reply.Created? ==> r.db == db
  {
    if caller.id == "" then Step(db, MissingUserId)
    else if !Complete(body) || newId in db.events then Step(db, CreateFailed)
    else
      var e := Event(caller.id, body.title.value, body.description.value, body.date.value,
                     body.location.value, body.price.value, body.capacity.value, Pick(body.sold, 0));
      Step(db.(events := db.events[newId := e]), Created(newId, e))
  }

  /** Deletion removes the event (answering 200 whether or not it existed)
      and leaves its tickets and waitlist entries in place. */
  function DeleteEvent(db: Db, id: Id): (r: Db)
    ensures r.events.Keys == db.events.Keys - {id}
    ensures forall k :: k in r.events ==> r.events[k] == db.events[k]
    ensures r.tickets == db.tickets && r.waitlist == db.waitlist
    ensures r == db.(events := r.events)
    ensures CapacityRespected(db.events) ==> CapacityRespected(r.events)
  {
    db.(events := db.events - {id})
  }

  // ----- GET / : pagination -----

  datatype PageView<T> = PageView(items: seq<T>, totalPages: Option<int>, currentPage: int, totalEvents: nat)

  /** `Math.ceil(count / limit)` for a non-zero limit. */
  function CeilDiv(count: nat, limit: int): (t: int)
    requires limit != 0
    ensures limit > 0 ==> (t - 1) * limit < count <= t * limit
    ensures limit < 0 ==> t * limit <= count < (t - 1) * limit
  {
    if limit > 0 then (count + limit - 1) / limit else -(count / -limit)
  }

  function Abs(x: int): nat
  {
    if x < 0 then -x else x
  }

  /** One page of the matching events, already filtered and sorted by date:
      skip (page - 1) * limit, take at most |limit| (a limit of 0 takes
      everything), and report ceil(count / limit) pages (none for a limit of
      0, where JavaScript divides by zero). A negative skip is refused by
      the store (500). */
  function Page<T>(matching: seq<T>, page: int, limit: int): (r: Option<PageView<T>>)
    ensures r.None? <==> (page - 1) * limit < 0
    ensures r.Some? ==>
      var skip := (page - 1) * limit;
      r.value.totalEvents == |matching| && r.value.currentPage == page
      && (limit != 0 ==> |r.value.items| <= Abs(limit))
      && (forall k :: 0 <= k < |r.value.items| ==> skip + k < |matching| && r.value.items[k] == matching[skip + k])
      && (skip >= |matching| ==> r.value.items == [])
      && (skip < |matching| ==> skip + |r.value.items| == |matching| || |r.value.items| == Abs(limit))
    ensures r.Some? ==> (r.value.totalPages.None? <==> limit == 0)
    ensures r.Some? && limit == 0 ==> r.value.items == matching
    ensures r.Some? && limit > 0 ==>
      var t := r.value.totalPages.value; (t - 1) * limit < |matching| <= t * limit
    ensures r.Some? && limit != 0 ==> r.value.totalPages == Some(CeilDiv(|matching|, limit))
  {
    var skip := (page - 1) * limit;
    if skip < 0 then None
    else
      var rest := if skip <= |matching| then matching[skip..] else [];
      var items := if limit != 0 && Abs(limit) < |rest| then rest[..Abs(limit)] else rest;
      Some(PageView(items, if limit == 0 then None else Some(CeilDiv(|matching|, limit)), page, |matching|))
  }

  /** Pages 1 to n with a positive limit, concatenated. */
  function PagesUpTo<T>(matching: seq<T>, limit: int, n: nat): seq<T>
    requires limit > 0
  {
    if n == 0 then [] else PagesUpTo(matching, limit, n - 1) + Page(matching, n, limit).value.items
  }

  /** With a positive limit, page p holds the events from (p - 1) * limit
      up to p * limit, clipped to the list. */
  lemma PageSlice<T>(matching: seq<T>, page: nat, limit: int, skip: nat)
    requires limit > 0 && page >= 1 && skip == (page - 1) * limit
    ensures Page(matching, page, limit).Some?
    ensures skip + limit <= |matching| ==> Page(matching, page, limit).value.items == matching[skip..skip + limit]
    ensures skip <= |matching| < skip + limit ==> Page(matching, page, limit).value.items == matching[skip..]
    ensures |matching| < skip ==> Page(matching, page, limit).value.items == []
  {
  }

  /** With a positive limit, the first n pages are exactly the first
      n * limit events; so pages 1 to totalPages list every matching event
      once, in order. */
  lemma {:induction false} PagesCover<T>(matching: seq<T>, limit: int, n: nat, end: nat)
    requires limit > 0 && end == n * limit
    ensures end <= |matching| ==> PagesUpTo(matching, limit, n) == matching[..end]
    ensures end > |matching| ==> PagesUpTo(matching, limit, n) == matching
  {
    if n > 0 {
      var skip := (n - 1) * limit;
      assert end == skip + limit;
      PagesCover(matching, limit, n - 1, skip);
      PageSlice(matching, n, limit, skip);
      var items := Page(matching, n, limit).value.items;
      if skip <= |matching| {
        assert PagesUpTo(matching, limit, n - 1) == matching[..skip];
        if end <= |matching| {
          assert matching[..skip] + matching[skip..end] == matching[..end];
        } else {
          assert matching[..skip] + matching[skip..] == matching;
        }
      }
    }
  }

  lemma AllPagesListEverything<T>(matching: seq<T>, limit: int)
    requires limit > 0
    ensures PagesUpTo(matching, limit, Page(matching, 1, limit).value.totalPages.value) == matching
  {
    var t := Page(matching, 1, limit).value.totalPages.value;
    PagesCover(matching, limit, t, t * limit);
    if t * limit <= |matching| {
      assert matching[..t * limit] == matching;
    }
  }

  // ----- GET /:id/analytics : the integer counts -----

  datatype Stats = Stats(totalSold: int, capacity: int, checkedInCount: nat, totalAttendees: nat)

  /** The number of ticket records for an event (not the sum of their
      quantities). */
  function TicketCount(tickets: seq<Ticket>, eventId: Id): nat
  {
    if tickets == [] then 0
    else TicketCount(tickets[1..], eventId) + if tickets[0].eventId == eventId then 1 else 0
  }

  /** How many of those records are checked in. */
  function CheckedInCount(tickets: seq<Ticket>, eventId: Id): (n: nat)
    ensures n <= TicketCount(tickets, eventId)
  {
    if tickets == [] then 0
    else CheckedInCount(tickets[1..], eventId)
         + if tickets[0].eventId == eventId && tickets[0].isCheckedIn then 1 else 0
  }

  /** The analytics: 404 (None) for a missing event; otherwise the event's
      own `sold` and `capacity` and the two ticket-record counts. */
  function Analytics(db: Db, id: Id): (r: Option<Stats>)
    ensures r.None? <==> id !in db.events
    ensures r.Some? ==>
      r.value.totalSold == db.events[id].sold && r.value.capacity == db.events[id].capacity
      && r.value.checkedInCount <= r.value.totalAttendees
      && r.value.totalAttendees == TicketCount(db.tickets, id)
      && r.value.checkedInCount == CheckedInCount(db.tickets, id)
  {
    if id !in db.events then None
    else Some(Stats(db.events[id].sold, db.events[id].capacity,
                    CheckedInCount(db.tickets, id), TicketCount(db.tickets, id)))
  }

  /** Checking in an unused ticket raises its event's checked-in count by
      one and leaves every record count as it was. */
  lemma {:induction false} CheckInCountsOnce(tickets: seq<Ticket>, i: nat, eventId: Id)
    requires i < |tickets| && !tickets[i].isCheckedIn
    ensures var after := tickets[i := tickets[i].(isCheckedIn := true)];
      TicketCount(after, eventId) == TicketCount(tickets, eventId)
      && CheckedInCount(after, eventId) ==
         CheckedInCount(tickets, eventId) + (if tickets[i].eventId == eventId then 1 else 0)
  {
    var after := tickets[i := tickets[i].(isCheckedIn := true)];
    if i == 0 {
      assert after[1..] == tickets[1..];
    } else {
      assert after[1..] == tickets[1..][i - 1 := tickets[i].(isCheckedIn := true)];
      CheckInCountsOnce(tickets[1..], i - 1, eventId);
    }
  }

  /** Each further ticket record adds one attendee to its own event,
      whatever its quantity, and none to any other event. */
  lemma {:induction false} AttendeesCountRecords(tickets: seq<Ticket>, t: Ticket, eventId: Id)
    ensures TicketCount(tickets + [t], eventId) == TicketCount(tickets, eventId) + (if t.eventId == eventId then 1 else 0)
    decreases |tickets|
  {
    if tickets == [] {
      assert [t][1..] == [];
    } else {
      assert (tickets + [t])[1..] == tickets[1..] + [t];
      AttendeesCountRecords(tickets[1..], t, eventId);
    }
  }

}
