/** The ticket routes: the caller's ticket listing, the purchase admission
    that only enqueues an order, and the check-in of a scanned code. Each
    handler is one atomic step from a store to a store and a reply; the
    gate in front of them (`verifyToken`) is in module Tokens and the
    handlers receive the claims it passed on. */
module Tickets {
  import opened Records
  import Text

  /** The quantity rule, enforced only by the attendee page before it calls
      the server: an integer from 1 to 5. Admission does not apply it. */
  predicate ValidQuantity(quantity: int)
  {
    1 <= quantity <= 5
  }

  // ----- GET / : the caller's tickets joined with their events -----

  /** A listed ticket with the event summary it is joined with; the date is
      null when the event is gone. */
  datatype TicketView = TicketView(
    ticket: Ticket,
    eventTitle: string,
    eventDate: Option<string>,
    eventLocation: string)

  function JoinEvent(events: map<Id, Event>, t: Ticket): (v: TicketView)
    ensures v.ticket == t
    ensures t.eventId in events ==>
      v.eventTitle == events[t.eventId].title
      && v.eventDate == Some(events[t.eventId].date)
      && v.eventLocation == events[t.eventId].location
    ensures t.eventId !in events ==>
      v.eventTitle == "Unknown Event" && v.eventDate == None && v.eventLocation == "Unknown"
  {
    if t.eventId in events then
      var e := events[t.eventId];
      TicketView(t, e.title, Some(e.date), e.location)
    else TicketView(t, "Unknown Event", None, "Unknown")
  }

  function JoinOwned(events: map<Id, Event>, tickets: seq<Ticket>, owner: Id): (r: seq<TicketView>)
    ensures |r| <= |tickets|
    ensures forall v :: v in r ==> v.ticket in tickets && v.ticket.userId == owner && v == JoinEvent(events, v.ticket)
    ensures forall t :: t in tickets && t.userId == owner ==> JoinEvent(events, t) in r
  {
    if tickets == [] then []
    else
      var rest := JoinOwned(events, tickets[1..], owner);
      if tickets[0].userId == owner then [JoinEvent(events, tickets[0])] + rest else rest
  }

  /** The listing: exactly the tickets the caller owns, each with its
      event's title, date and location or the placeholders for a missing
      event. The store is not changed. */
  function MyTickets(db: Db, caller: Claims): (r: seq<TicketView>)
    ensures forall v :: v in r ==> v.ticket in db.tickets && v.ticket.userId == caller.id
    ensures forall t :: t in db.tickets && t.userId == caller.id ==> JoinEvent(db.events, t) in r
    ensures forall v :: v in r ==> v == JoinEvent(db.events, v.ticket)
  {
    JoinOwned(db.events, db.tickets, caller.id)
  }

  // ----- POST /purchase : admission -----

  datatype PurchaseReply =
    | Processing(qrCode: string, eventTitle: string, eventDate: string, quantity: int)  // 200
    | EventNotFound                                                                     // 404
    | SoldOut(left: int)                                                                // 400
    | PurchaseFailed                                                                    // 500

  /** The scan code: event id, user id and the clock in milliseconds, joined
      by dashes. */
  function QrCode(eventId: Id, userId: Id, now: nat): string
  {
    eventId + "-" + userId + "-" + Text.Decimal(now)
  }

  /** With dash-free ids the code splits back into its three parts. */
  lemma QrCodeParts(eventId: Id, userId: Id, now: nat)
    requires '-' !in eventId && '-' !in userId
    ensures Text.Split(QrCode(eventId, userId, now), '-') == [eventId, userId, Text.Decimal(now)]
  {
    var d := Text.Decimal(now);
    Text.DecimalHasNo(now, '-');
    assert QrCode(eventId, userId, now) == eventId + ['-'] + (userId + ['-'] + d);
    Text.SplitPrefix(eventId, '-', userId + ['-'] + d);
    Text.SplitPrefix(userId, '-', d);
    Text.SplitWhole(d, '-');
  }

  /** With dash-free ids, two codes coincide only for the same event, the
      same user and the same millisecond: two purchases by one user for one
      event within one millisecond share a code. */
  lemma QrCodeInjective(e1: Id, u1: Id, t1: nat, e2: Id, u2: Id, t2: nat)
    requires '-' !in e1 && '-' !in u1 && '-' !in e2 && '-' !in u2
    requires QrCode(e1, u1, t1) == QrCode(e2, u2, t2)
    ensures e1 == e2 && u1 == u2 && t1 == t2
  {
    QrCodeParts(e1, u1, t1);
    QrCodeParts(e2, u2, t2);
    Text.DecimalInjective(t1, t2);
  }

  /** Admission: a read-only capacity pre-check, then one order message on
      `ticket_orders`. `now` is the clock; `brokerUp` says whether the
      broker connection succeeds. Nothing but the order queue ever changes. */
  function Admit(db: Db, caller: Claims, eventId: Id, quantity: int, now: nat, brokerUp: bool)
    : (r: Step<PurchaseReply>)
    ensures r.db.events == db.events && r.db.tickets == db.tickets && r.db.users == db.users
    ensures r.db.waitlist == db.waitlist && r.db.eventUpdates == db.eventUpdates
    ensures r.reply == EventNotFound <==> eventId !in db.events
    ensures r.reply.SoldOut? <==>
      eventId in db.events && db.events[eventId].sold + quantity > db.events[eventId].capacity
    ensures r.reply.SoldOut? ==> r.reply == SoldOut(db.events[eventId].capacity - db.events[eventId].sold)
    ensures r.reply == PurchaseFailed <==>
      eventId in db.events && db.events[eventId].sold + quantity <= db.events[eventId].capacity && !brokerUp
    ensures r.reply.Processing? <==>
      eventId in db.events && db.events[eventId].sold + quantity <= db.events[eventId].capacity && brokerUp
    ensures r.reply.Processing? ==>
      r.reply.qrCode == QrCode(eventId, caller.id, now)
      && r.reply.quantity == quantity
      && r.reply.eventTitle == db.events[eventId].title
      && r.reply.eventDate == db.events[eventId].date
      && r.db.ticketOrders == db.ticketOrders + [Order(eventId, quantity, caller.id, r.reply.qrCode)]
    ensures !r.reply.Processing? ==> r.db == db
  {
    if eventId !in db.events then Step(db, EventNotFound)
    else
      var e := db.events[eventId];
      if e.sold + quantity > e.capacity then Step(db, SoldOut(e.capacity - e.sold))
      else if !brokerUp then Step(db, PurchaseFailed)
      else
        var code := QrCode(eventId, caller.id, now);
        var order := Order(eventId, quantity, caller.id, code);
        Step(db.(ticketOrders := db.ticketOrders + [order]),
             Processing(code, e.title, e.date, quantity))
  }

  /** The server applies no quantity rule of its own: an order of six (or
      of none) is queued whenever the seats left allow it. */
  lemma AdmissionIgnoresQuantityRule(db: Db, caller: Claims, eventId: Id, quantity: int, now: nat)
    requires !ValidQuantity(quantity)
    requires eventId in db.events && db.events[eventId].sold + quantity <= db.events[eventId].capacity
    ensures Admit(db, caller, eventId, quantity, now, true).reply.Processing?
    ensures Admit(db, caller, eventId, quantity, now, true).db.ticketOrders[|db.ticketOrders|].quantity == quantity
  {
  }

  // ----- POST /verify : check-in -----

  datatype VerifyReply =
    | Admitted(owner: string, eventTitle: string, quantity: int)   // 200
    | InvalidTicket                                                // 404
    | AlreadyScanned                                               // 400
    | VerifyFailed                                                 // 500

  /** The awaited call of the check-in handler that throws, if any: the
      ticket lookup, the save of the flag, or the owner and event lookups
      that build the reply after the save. */
  datatype ScanFault = ScanOk | AtTicketFind | AtFlagSave | AtReplyLookup

  /** `findOne({qrCode})`: the first ticket, in store order, with that code. */
  function FirstWithCode(tickets: seq<Ticket>, code: string): (r: Option<nat>)
    ensures r.Some? ==> r.value < |tickets| && tickets[r.value].qrCode == code
    ensures r.Some? ==> forall j :: 0 <= j < r.value ==> tickets[j].qrCode != code
    ensures r.None? <==> forall j :: 0 <= j < |tickets| ==> tickets[j].qrCode != code
  {
    if tickets == [] then None
    else if tickets[0].qrCode == code then Some(0)
    else
      match FirstWithCode(tickets[1..], code)
      case None => None
      case Some(i) => Some(i + 1)
  }

  /** The ticket a code finds exists and is not checked in yet. */
  predicate Unused(db: Db, code: string)
  {
    var f := FirstWithCode(db.tickets, code);
    f.Some? && !db.tickets[f.value].isCheckedIn
  }

  /** The store with the ticket a code finds marked as checked in. */
  function MarkUsed(db: Db, code: string): (r: Db)
    requires Unused(db, code)
    ensures r.events == db.events && r.users == db.users && r.waitlist == db.waitlist
    ensures r.ticketOrders == db.ticketOrders && r.eventUpdates == db.eventUpdates
    ensures |r.tickets| == |db.tickets|
    ensures var i := FirstWithCode(db.tickets, code).value;
      r.tickets[i] == db.tickets[i].(isCheckedIn := true)
      && forall j :: 0 <= j < |db.tickets| && j != i ==> r.tickets[j] == db.tickets[j]
  {
    var i := FirstWithCode(db.tickets, code).value;
    db.(tickets := db.tickets[i := db.tickets[i].(isCheckedIn := true)])
  }

  /** Check-in: an unknown code is INVALID and an used ticket ALREADY
      SCANNED, both leaving the store as it was; otherwise exactly the
      found ticket becomes checked in and the owner's name (or "Unknown
      User"), the event title (or "Unknown Event") and the quantity are
      returned. A throw before the save answers 500 with nothing changed;
      a throw in the lookups after the save answers 500 with the ticket
      already marked. */
  function CheckIn(db: Db, code: string, fault: ScanFault): (r: Step<VerifyReply>)
    ensures fault == AtTicketFind ==> r == Step(db, VerifyFailed)
    ensures fault != AtTicketFind && FirstWithCode(db.tickets, code).None? ==> r == Step(db, InvalidTicket)
    ensures fault != AtTicketFind && FirstWithCode(db.tickets, code).Some? && !Unused(db, code) ==>
      r == Step(db, AlreadyScanned)
    ensures fault == AtFlagSave && Unused(db, code) ==> r == Step(db, VerifyFailed)
    ensures fault == AtReplyLookup && Unused(db, code) ==> r == Step(MarkUsed(db, code), VerifyFailed)
    ensures r.reply.Admitted? <==> fault == ScanOk && Unused(db, code)
    ensures r.reply.Admitted? ==>
      var t := db.tickets[FirstWithCode(db.tickets, code).value];
      var owner := FindUser(db.users, t.userId);
      r.db == MarkUsed(db, code)
      && r.reply.quantity == t.quantity
      && r.reply.owner == (if owner.Some? then owner.value.username else "Unknown User")
      && r.reply.eventTitle == (if t.eventId in db.events then db.events[t.eventId].title else "Unknown Event")
  {
    if fault == AtTicketFind then Step(db, VerifyFailed)
    else
      match FirstWithCode(db.tickets, code)
      case None => Step(db, InvalidTicket)
      case Some(i) =>
        var t := db.tickets[i];
        if t.isCheckedIn then Step(db, AlreadyScanned)
        else
          match fault
          case AtTicketFind => Step(db, VerifyFailed)
          case AtFlagSave => Step(db, VerifyFailed)
          case AtReplyLookup => Step(MarkUsed(db, code), VerifyFailed)
          case ScanOk =>
            var owner := match FindUser(db.users, t.userId)
                         case Some(u) => u.username
                         case None => "Unknown User";
            var title := if t.eventId in db.events then db.events[t.eventId].title else "Unknown Event";
            Step(MarkUsed(db, code), Admitted(owner, title, t.quantity))
  }

  /** Changing only check-in flags keeps every code where it was. */
  lemma FirstWithCodeIgnoresFlags(tickets: seq<Ticket>, i: nat, code: string)
    requires i < |tickets|
    ensures FirstWithCode(tickets[i := tickets[i].(isCheckedIn := true)], code) == FirstWithCode(tickets, code)
  {
    var after := tickets[i := tickets[i].(isCheckedIn := true)];
    assert forall j :: 0 <= j < |tickets| ==> after[j].qrCode == tickets[j].qrCode;
    var a, b := FirstWithCode(after, code), FirstWithCode(tickets, code);
    if a.Some? && b.Some? {
      assert !(a.value < b.value) && !(b.value < a.value);
    }
  }

  /** Once marked, the ticket a code finds is the same one and is used. */
  lemma MarkUsedSettles(db: Db, code: string)
    requires Unused(db, code)
    ensures FirstWithCode(MarkUsed(db, code).tickets, code) == FirstWithCode(db.tickets, code)
    ensures !Unused(MarkUsed(db, code), code)
  {
    FirstWithCodeIgnoresFlags(db.tickets, FirstWithCode(db.tickets, code).value, code);
  }

  /** Scanning the same code right after a successful check-in is refused
      as already scanned. */
  lemma SecondScanRefused(db: Db, code: string)
    requires CheckIn(db, code, ScanOk).reply.Admitted?
    ensures CheckIn(CheckIn(db, code, ScanOk).db, code, ScanOk).reply == AlreadyScanned
  {
    MarkUsedSettles(db, code);
  }

  /** A scan whose reply lookups throw answers 500, yet the ticket is used
      up: every later scan of the code is refused as already scanned. */
  lemma FailedReplyUsesUpTicket(db: Db, code: string)
    requires Unused(db, code)
    ensures CheckIn(db, code, AtReplyLookup).reply == VerifyFailed
    ensures CheckIn(CheckIn(db, code, AtReplyLookup).db, code, ScanOk).reply == AlreadyScanned
  {
    MarkUsedSettles(db, code);
  }

  /** Scans the same code once per entry of `faults`, each scan with the
      fault the environment chose for it; yields the final store and how
      many scans were admitted. */
  function ScanRepeatedly(db: Db, code: string, faults: seq<ScanFault>): (Db, nat)
    decreases |faults|
  {
    if faults == [] then (db, 0)
    else
      var first := CheckIn(db, code, faults[0]);
      var (last, admitted) := ScanRepeatedly(first.db, code, faults[1..]);
      (last, admitted + if first.reply.Admitted? then 1 else 0)
  }

  /** The first scan in `faults` that gets past the save of the flag, if
      any: a clean one or one whose reply lookups throw. */
  function FirstPastSave(faults: seq<ScanFault>): Option<ScanFault>
    decreases |faults|
  {
    if faults == [] then None
    else if faults[0] == ScanOk || faults[0] == AtReplyLookup then Some(faults[0])
    else FirstPastSave(faults[1..])
  }

  /** However often a code is scanned, and whatever fails on the way, at
      most one scan is admitted; one is admitted exactly when the ticket
      the code finds is unused and the first scan to get past the save
      is a clean one. */
  lemma {:induction false} AtMostOneAdmission(db: Db, code: string, faults: seq<ScanFault>)
    ensures ScanRepeatedly(db, code, faults).1 <= 1
    ensures ScanRepeatedly(db, code, faults).1 == 1 <==> Unused(db, code) && FirstPastSave(faults) == Some(ScanOk)
    decreases |faults|
  {
    if faults != [] {
      var first := CheckIn(db, code, faults[0]);
      if !Unused(db, code) {
        NothingAfterRefusal(db, code, faults);
      } else if faults[0] == ScanOk || faults[0] == AtReplyLookup {
        MarkUsedSettles(db, code);
        NothingAfterRefusal(first.db, code, faults[1..]);
      } else {
        assert first.db == db;
        AtMostOneAdmission(db, code, faults[1..]);
      }
    }
  }

  /** A code whose ticket is missing or used stays so: no scan admits it
      and none changes the store. */
  lemma {:induction false} NothingAfterRefusal(db: Db, code: string, faults: seq<ScanFault>)
    requires !Unused(db, code)
    ensures ScanRepeatedly(db, code, faults) == (db, 0)
    decreases |faults|
  {
    if faults != [] {
      NothingAfterRefusal(db, code, faults[1..]);
    }
  }

  /** A ticket whose code an earlier ticket already carries can never be
      checked in through a scan. */
  lemma ShadowedTicketUntouched(db: Db, code: string, fault: ScanFault, j: nat)
    requires j < |db.tickets| && db.tickets[j].qrCode == code
    requires exists k :: 0 <= k < j && db.tickets[k].qrCode == code
    ensures |CheckIn(db, code, fault).db.tickets| == |db.tickets|
    ensures CheckIn(db, code, fault).db.tickets[j] == db.tickets[j]
  {
  }
}
