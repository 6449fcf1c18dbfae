/** The worker's two queue consumers. The order consumer re-checks
    capacity, increments `sold`, saves the ticket, mails a confirmation
    and settles the message. The update consumer sends one mail per
    recipient of a batch and settles the batch. Store and mail failures
    come in as oracles: `Fault` says which awaited call throws, `mailer`
    whether a mail to an address is accepted by the relay. */
module Worker {
  import opened Records
  import Events

  datatype Settle = Ack | Nack

  /** The awaited call of the order callback that throws, if any. */
  datatype Fault = NoFault | AtEventLookup | AtIncrement | AtSave | AtUserLookup

  /** How an order message was settled, and the address a confirmation
      mail was delivered to, if one was. */
  datatype OrderOutcome = OrderOutcome(settle: Settle, confirmedTo: Option<Email>)

  /** The consumer's re-check: the event exists and the order still fits. */
  predicate Fits(events: map<Id, Event>, m: Order)
  {
    m.eventId in events && events[m.eventId].sold + m.quantity <= events[m.eventId].capacity
  }

  /** The address the confirmation goes to: the owner's e-mail, when the
      owner is found and has a non-empty one. */
  function ConfirmationAddress(users: seq<User>, userId: Id): (a: Option<Email>)
    ensures a.Some? ==> a.value != "" && exists u :: u in users && u.id == userId && u.email == a.value
    ensures a.None? <==> FindUser(users, userId).None? || FindUser(users, userId).value.email == ""
    ensures a.Some? ==> a.value == FindUser(users, userId).value.email
  {
    match FindUser(users, userId)
    case Some(u) => if u.email != "" then Some(u.email) else None
    case None => None
  }

  /** The order callback on one message. A missing or full event is acked
      with nothing changed. An order that fits has its quantity added to
      `sold` first and its ticket saved second; a throw at any await nacks,
      keeping what was already written. A failing confirmation mail
      (`mailOk` false) is swallowed. */
  function HandleOrder(db: Db, m: Order, fault: Fault, mailOk: bool): (r: Step<OrderOutcome>)
    ensures r.db.users == db.users && r.db.waitlist == db.waitlist
    ensures r.db.ticketOrders == db.ticketOrders && r.db.eventUpdates == db.eventUpdates
    ensures r.reply.settle == Nack <==> fault == AtEventLookup || (Fits(db.events, m) && fault != NoFault)
    ensures !Fits(db.events, m) || fault == AtEventLookup || fault == AtIncrement ==> r.db == db
    ensures Fits(db.events, m) && fault != AtEventLookup && fault != AtIncrement ==>
      var e := db.events[m.eventId];
      r.db.events == db.events[m.eventId := e.(sold := e.sold + m.quantity)]
    ensures r.db.tickets ==
      if Fits(db.events, m) && (fault == NoFault || fault == AtUserLookup)
      then db.tickets + [NewTicket(m.userId, m.eventId, m.quantity, m.qrCode)]
      else db.tickets
    ensures r.reply.confirmedTo.Some? ==> r.reply.settle == Ack && mailOk && Fits(db.events, m)
    ensures Fits(db.events, m) && fault == NoFault ==>
      r.reply.confirmedTo == (if mailOk then ConfirmationAddress(db.users, m.userId) else None)
    ensures CapacityRespected(db.events) ==> CapacityRespected(r.db.events)
  {
    if fault == AtEventLookup then Step(db, OrderOutcome(Nack, None))
    else if !Fits(db.events, m) then Step(db, OrderOutcome(Ack, None))
    else if fault == AtIncrement then Step(db, OrderOutcome(Nack, None))
    else
      var e := db.events[m.eventId];
      var counted := db.(events := db.events[m.eventId := e.(sold := e.sold + m.quantity)]);
      if fault == AtSave then Step(counted, OrderOutcome(Nack, None))
      else
        var saved := counted.(tickets := counted.tickets + [NewTicket(m.userId, m.eventId, m.quantity, m.qrCode)]);
        match fault
        case AtUserLookup => Step(saved, OrderOutcome(Nack, None))
        case NoFault =>
          var to := ConfirmationAddress(db.users, m.userId);
          Step(saved, OrderOutcome(Ack, if mailOk then to else None))
  }

  /** Whether the confirmation mail goes through changes neither the store
      nor how the message is settled. */
  lemma MailFailureSwallowed(db: Db, m: Order, fault: Fault)
    ensures HandleOrder(db, m, fault, false).db == HandleOrder(db, m, fault, true).db
    ensures HandleOrder(db, m, fault, false).reply.settle == HandleOrder(db, m, fault, true).reply.settle
  {
  }

  /** One delivery from `ticket_orders`: the head message is handled; an ack
      removes it, a nack requeues it at the head. An empty queue delivers
      nothing. */
  function Deliver(db: Db, fault: Fault, mailOk: bool): (r: Step<Option<OrderOutcome>>)
    ensures db.ticketOrders == [] ==> r == Step(db, None)
    ensures db.ticketOrders != [] ==>
      var h := HandleOrder(db, db.ticketOrders[0], fault, mailOk);
      r.reply == Some(h.reply)
      && r.db == (if h.reply.settle == Ack then h.db.(ticketOrders := db.ticketOrders[1..]) else h.db)
    ensures r.reply.Some? && r.reply.value.settle == Ack ==> r.db.ticketOrders == db.ticketOrders[1..]
    ensures r.reply.Some? && r.reply.value.settle == Nack ==> r.db.ticketOrders == db.ticketOrders
    ensures r.db.users == db.users && r.db.waitlist == db.waitlist && r.db.eventUpdates == db.eventUpdates
    ensures CapacityRespected(db.events) ==> CapacityRespected(r.db.events)
  {
    if db.ticketOrders == [] then Step(db, None)
    else
      var h := HandleOrder(db, db.ticketOrders[0], fault, mailOk);
      if h.reply.settle == Ack then Step(h.db.(ticketOrders := h.db.ticketOrders[1..]), Some(h.reply))
      else Step(h.db, Some(h.reply))
  }

  /** A run of the order consumer: one delivery per entry of `script`, each
      with the fault and mail result the environment chose for it. */
  function DeliverAll(db: Db, script: seq<(Fault, bool)>): Db
    decreases |script|
  {
    if script == [] then db
    else DeliverAll(Deliver(db, script[0].0, script[0].1).db, script[1..])
  }

  /** Fulfilling orders one at a time, with any faults and redeliveries,
      never lets `sold` exceed `capacity` when no other writer touches the
      events. */
  lemma {:induction false} DeliverAllRespectsCapacity(db: Db, script: seq<(Fault, bool)>)
    requires CapacityRespected(db.events)
    ensures CapacityRespected(DeliverAll(db, script).events)
    decreases |script|
  {
    if script != [] {
      DeliverAllRespectsCapacity(Deliver(db, script[0].0, script[0].1).db, script[1..]);
    }
  }

  /** A run of the consumer never touches users, the waitlist or the update
      queue, and never removes a ticket. */
  lemma {:induction false} DeliverAllKeepsTickets(db: Db, script: seq<(Fault, bool)>)
    ensures var after := DeliverAll(db, script);
      after.users == db.users && after.waitlist == db.waitlist && after.eventUpdates == db.eventUpdates
      && |after.tickets| >= |db.tickets| && after.tickets[..|db.tickets|] == db.tickets
    decreases |script|
  {
    if script != [] {
      var next := Deliver(db, script[0].0, script[0].1).db;
      DeliverAllKeepsTickets(next, script[1..]);
      assert next.tickets[..|db.tickets|] == db.tickets;
    }
  }

  /** Incrementing before saving: when the save throws, the nacked message
      comes back and its quantity is added a second time, for one ticket. */
  lemma SaveFailureCountsTwice(db: Db, mail1: bool, mail2: bool)
    requires db.ticketOrders != []
    requires var m := db.ticketOrders[0];
      m.eventId in db.events && m.quantity >= 0
      && db.events[m.eventId].sold + 2 * m.quantity <= db.events[m.eventId].capacity
    ensures var m := db.ticketOrders[0];
      var after := Deliver(Deliver(db, AtSave, mail1).db, NoFault, mail2).db;
      m.eventId in after.events
      && after.events[m.eventId].sold == db.events[m.eventId].sold + 2 * m.quantity
      && after.tickets == db.tickets + [NewTicket(m.userId, m.eventId, m.quantity, m.qrCode)]
      && after.ticketOrders == db.ticketOrders[1..]
  {
    var m := db.ticketOrders[0];
    var first := Deliver(db, AtSave, mail1);
    assert first.db.ticketOrders == db.ticketOrders;
    assert first.db.events[m.eventId].sold == db.events[m.eventId].sold + m.quantity;
  }

  /** When the owner lookup after the save throws, the redelivered message
      issues a second ticket with the same code and counts twice. */
  lemma OwnerLookupFailureDuplicatesTicket(db: Db, mail1: bool, mail2: bool)
    requires db.ticketOrders != []
    requires var m := db.ticketOrders[0];
      m.eventId in db.events && m.quantity >= 0
      && db.events[m.eventId].sold + 2 * m.quantity <= db.events[m.eventId].capacity
    ensures var m := db.ticketOrders[0];
      var t := NewTicket(m.userId, m.eventId, m.quantity, m.qrCode);
      var after := Deliver(Deliver(db, AtUserLookup, mail1).db, NoFault, mail2).db;
      m.eventId in after.events
      && after.events[m.eventId].sold == db.events[m.eventId].sold + 2 * m.quantity
      && after.tickets == db.tickets + [t, t]
  {
    var m := db.ticketOrders[0];
    var first := Deliver(db, AtUserLookup, mail1);
    assert first.db.ticketOrders == db.ticketOrders;
    assert first.db.events[m.eventId].sold == db.events[m.eventId].sold + m.quantity;
  }

  // ----- the `event_updates` consumer -----

  /** The name under which the update consumer looks for the recipients;
      the editor publishes them as Events.LIST_FIELD. */
  const WORKER_LIST_FIELD: string := "recipientList"

  datatype BatchOutcome = BatchOutcome(delivered: seq<Email>, settle: Settle)

  /** The recipients whose mail the relay accepts, in order. */
  function Delivered(recipients: seq<Email>, mailer: Email -> bool): (d: seq<Email>)
    ensures |d| <= |recipients|
    ensures forall e :: e in d ==> e in recipients && mailer(e)
    ensures forall i :: 0 <= i < |recipients| && mailer(recipients[i]) ==> recipients[i] in d
    ensures d == recipients <==> forall i :: 0 <= i < |recipients| ==> mailer(recipients[i])
  {
    if recipients == [] then []
    else
      var rest := Delivered(recipients[1..], mailer);
      if mailer(recipients[0]) then [recipients[0]] + rest else rest
  }

  /** The update callback: reading the list under `field` fails when the
      batch carries it under another name, which throws before any mail is
      sent and nacks. Otherwise one mail is sent per recipient, and the
      batch is acked only if every send succeeds. */
  function Consume(b: Batch, field: string, mailer: Email -> bool): (r: BatchOutcome)
    ensures b.listField != field ==> r == BatchOutcome([], Nack)
    ensures b.listField == field ==>
      (r.settle == Ack <==> forall i :: 0 <= i < |b.recipients| ==> mailer(b.recipients[i]))
    ensures forall e :: e in r.delivered <==> e in b.recipients && mailer(e) && b.listField == field
  {
    if b.listField != field then BatchOutcome([], Nack)
    else
      var d := Delivered(b.recipients, mailer);
      BatchOutcome(d, if d == b.recipients then Ack else Nack)
  }

  /** The same callback as a loop over the recipients, one send each. */
  method SendBatch(b: Batch, field: string, mailer: Email -> bool) returns (r: BatchOutcome)
    ensures r == Consume(b, field, mailer)
  {
    if b.listField != field {
      return BatchOutcome([], Nack);
    }
    var delivered: seq<Email> := [];
    var allSent := true;
    var i := 0;
    while i < |b.recipients|
      invariant 0 <= i <= |b.recipients|
      invariant delivered == Delivered(b.recipients[..i], mailer)
      invariant allSent <==> delivered == b.recipients[..i]
    {
      var to := b.recipients[i];
      var ok := mailer(to);
      ghost var sent := b.recipients[..i];
      assert b.recipients[..i + 1] == sent + [to];
      DeliveredSnoc(sent, to, mailer);
      if ok {
        delivered := delivered + [to];
      } else {
        assert |delivered| <= |sent|;
      }
      allSent := allSent && ok;
      i := i + 1;
    }
    assert b.recipients[..i] == b.recipients;
    r := BatchOutcome(delivered, if allSent then Ack else Nack);
  }

  lemma {:induction false} DeliveredSnoc(s: seq<Email>, e: Email, mailer: Email -> bool)
    ensures Delivered(s + [e], mailer) == Delivered(s, mailer) + (if mailer(e) then [e] else [])
  {
    if s == [] {
      assert s + [e] == [e];
    } else {
      assert (s + [e])[1..] == s[1..] + [e];
      DeliveredSnoc(s[1..], e, mailer);
    }
  }

  /** One delivery from `event_updates`: an ack removes the batch, a nack
      requeues it at the head. */
  function DeliverBatch(db: Db, field: string, mailer: Email -> bool): (r: Step<Option<BatchOutcome>>)
    ensures db.eventUpdates == [] ==> r == Step(db, None)
    ensures db.eventUpdates != [] ==> r.reply == Some(Consume(db.eventUpdates[0], field, mailer))
    ensures r.db == if r.reply.Some? && r.reply.value.settle == Ack
                    then db.(eventUpdates := db.eventUpdates[1..]) else db
  {
    if db.eventUpdates == [] then Step(db, None)
    else
      var out := Consume(db.eventUpdates[0], field, mailer);
      Step(if out.settle == Ack then db.(eventUpdates := db.eventUpdates[1..]) else db, Some(out))
  }

  /** As written: every batch the event editor publishes carries its list
      as `emails`, the consumer reads `recipientList`, so the batch is
      nacked with no mail sent, and the store (the queue with it) is left
      exactly as it was; the redelivered batch fails the same way. */
  lemma FieldMismatchNacksForever(db: Db, mailer: Email -> bool)
    requires db.eventUpdates != [] && db.eventUpdates[0].listField == Events.LIST_FIELD
    ensures DeliverBatch(db, WORKER_LIST_FIELD, mailer) == Step(db, Some(BatchOutcome([], Nack)))
  {
  }

  /** With the field names agreeing, a published batch reaches every
      recipient the relay accepts, and it is acked (and leaves the queue)
      exactly when all of them were accepted. */
  lemma MatchingFieldDelivers(db: Db, mailer: Email -> bool)
    requires db.eventUpdates != [] && db.eventUpdates[0].listField == Events.LIST_FIELD
    ensures var b := db.eventUpdates[0];
      var r := DeliverBatch(db, Events.LIST_FIELD, mailer);
      r.reply.Some?
      && (forall i :: 0 <= i < |b.recipients| && mailer(b.recipients[i]) ==> b.recipients[i] in r.reply.value.delivered)
      && (r.db.eventUpdates == db.eventUpdates[1..] <==> forall i :: 0 <= i < |b.recipients| ==> mailer(b.recipients[i]))
  {
    var b := db.eventUpdates[0];
    if !(forall i :: 0 <= i < |b.recipients| ==> mailer(b.recipients[i])) {
      assert |db.eventUpdates[1..]| < |db.eventUpdates|;
    }
  }
}
