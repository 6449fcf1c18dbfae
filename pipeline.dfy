/** Interleavings of the handlers and the worker, written as sequences of
    atomic steps on one store: two admissions racing for the last seat,
    a purchase followed through fulfilment to the scan, and the writers
    other than the order consumer that can break the ledger invariant. */
module Pipeline {
  import opened Records
  import Tickets
  import Worker
  import Events

  /** The last seat: an event with capacity 1 and nothing sold admits two
      one-ticket purchases (admission only reads), yet fulfilling both
      issues exactly one ticket, brings `sold` to 1, and acks both messages,
      the second one with no ticket. */
  lemma LastSeatRace(db: Db, id: Id, alice: Claims, bob: Claims, t1: nat, t2: nat, e: Event)
    requires db.events == map[id := e] && e.capacity == 1 && e.sold == 0
    requires db.ticketOrders == [] && db.tickets == []
    ensures var a := Tickets.Admit(db, alice, id, 1, t1, true);
      var b := Tickets.Admit(a.db, bob, id, 1, t2, true);
      var f1 := Worker.Deliver(b.db, Worker.NoFault, true);
      var f2 := Worker.Deliver(f1.db, Worker.NoFault, true);
      a.reply.Processing? && b.reply.Processing?
      && f1.reply.Some? && f1.reply.value.settle == Worker.Ack
      && f2.reply.Some? && f2.reply.value.settle == Worker.Ack
      && f2.db.events[id].sold == 1
      && f2.db.tickets == [NewTicket(alice.id, id, 1, a.reply.qrCode)]
      && f2.db.ticketOrders == []
  {
    var a := Tickets.Admit(db, alice, id, 1, t1, true);
    var b := Tickets.Admit(a.db, bob, id, 1, t2, true);
    assert b.db.ticketOrders == [Order(id, 1, alice.id, a.reply.qrCode), Order(id, 1, bob.id, b.reply.qrCode)];
    var f1 := Worker.Deliver(b.db, Worker.NoFault, true);
    assert f1.db.events[id].sold == 1;
    assert f1.db.ticketOrders == [Order(id, 1, bob.id, b.reply.qrCode)];
  }

  /** Admission followed by a fault-free fulfilment leaves a ticket that the
      returned code checks in, once, reporting the purchased quantity, when
      no earlier ticket carries the same code. */
  lemma PurchaseThenScan(db: Db, caller: Claims, id: Id, quantity: int, now: nat)
    requires db.ticketOrders == []
    requires Tickets.Admit(db, caller, id, quantity, now, true).reply.Processing?
    requires forall t :: t in db.tickets ==> t.qrCode != Tickets.QrCode(id, caller.id, now)
    ensures var a := Tickets.Admit(db, caller, id, quantity, now, true);
      var f := Worker.Deliver(a.db, Worker.NoFault, true);
      var s := Tickets.CheckIn(f.db, a.reply.qrCode, Tickets.ScanOk);
      f.db.ticketOrders == []
      && s.reply.Admitted? && s.reply.quantity == quantity
      && Tickets.CheckIn(s.db, a.reply.qrCode, Tickets.ScanOk).reply == Tickets.AlreadyScanned
  {
    var a := Tickets.Admit(db, caller, id, quantity, now, true);
    var code := a.reply.qrCode;
    var f := Worker.Deliver(a.db, Worker.NoFault, true);
    assert a.db.ticketOrders == [Order(id, quantity, caller.id, code)];
    assert f.db.tickets == db.tickets + [NewTicket(caller.id, id, quantity, code)];
    var n := |db.tickets|;
    assert f.db.tickets[n].qrCode == code;
    var found := Tickets.FirstWithCode(f.db.tickets, code);
    assert found.Some?;
    assert forall j :: 0 <= j < n ==> f.db.tickets[j] == db.tickets[j] && db.tickets[j] in db.tickets;
    assert found.value == n;
    Tickets.SecondScanRefused(f.db, code);
  }

  /** `$set` lets an editor lower capacity below what was sold: the ledger
      invariant only holds while the order consumer is the sole writer. */
  lemma EditorCanOversell(db: Db, caller: Claims, id: Id, e: Event)
    requires db.events == map[id := e] && e.sold == 8 && e.capacity == 10
    requires caller.role == Organizer
    ensures CapacityRespected(db.events)
    ensures !CapacityRespected(Events.UpdateEvent(db, caller, id,
      Events.Patch(None, None, None, None, None, None, Some(5), None), Events.EditOk).db.events)
  {
    var r := Events.UpdateEvent(db, caller, id, Events.Patch(None, None, None, None, None, None, Some(5), None), Events.EditOk);
    assert r.db.events[id].capacity == 5 && r.db.events[id].sold == 8;
  }

  /** Creation keeps a `sold` supplied in the body, so an event can be born
      oversold. */
  lemma CreateCanOversell(db: Db, caller: Claims, newId: Id)
    requires caller.id != "" && newId !in db.events
    ensures var body := Events.Patch(None, Some("t"), Some("d"), Some("day"), Some("here"), Some(0), Some(1), Some(2));
      var r := Events.CreateEvent(db, caller, body, newId);
      r.reply.Created? && r.reply.event.sold > r.reply.event.capacity
      && !CapacityRespected(r.db.events)
  {
    var body := Events.Patch(None, Some("t"), Some("d"), Some("day"), Some("here"), Some(0), Some(1), Some(2));
    var r := Events.CreateEvent(db, caller, body, newId);
    assert r.db.events[newId].sold == 2 && r.db.events[newId].capacity == 1;
  }

  /** Deleting an event orphans its tickets: their owners still list them,
      joined with the placeholders for a missing event. */
  lemma DeletedEventListsUnknown(db: Db, caller: Claims, id: Id, t: Ticket)
    requires t in db.tickets && t.userId == caller.id && t.eventId == id
    ensures var v := Tickets.JoinEvent(Events.DeleteEvent(db, id).events, t);
      v in Tickets.MyTickets(Events.DeleteEvent(db, id), caller)
      && v.eventTitle == "Unknown Event" && v.eventDate == None && v.eventLocation == "Unknown"
  {
  }

  /** Raising capacity on an event with three waitlist entries (and no
      ticket holders) publishes exactly one batch, a waitlist release with
      the three addresses, and removes the three entries. */
  lemma WaitlistRelease(db: Db, caller: Claims, id: Id, e: Event, a: Email, b: Email, c: Email, u1: Id, u2: Id, u3: Id)
    requires caller.role == Organizer
    requires db.events == map[id := e] && e.capacity == 50
    requires db.tickets == [] && db.eventUpdates == []
    requires db.waitlist == [WaitlistEntry(id, u1, a), WaitlistEntry(id, u2, b), WaitlistEntry(id, u3, c)]
    ensures var r := Events.UpdateEvent(db, caller, id, Events.Patch(None, None, None, None, None, None, Some(60), None), Events.EditOk);
      |r.db.eventUpdates| == 1
      && r.db.eventUpdates[0].isWaitlistAlert
      && r.db.eventUpdates[0].recipients == [a, b, c]
      && r.db.waitlist == []
  {
    var w := db.waitlist;
    assert w[1..] == [WaitlistEntry(id, u2, b), WaitlistEntry(id, u3, c)];
    assert w[1..][1..] == [WaitlistEntry(id, u3, c)];
    assert w[1..][1..][1..] == [];
    assert Events.WaitlistEmails(w[1..][1..], id) == [c];
    assert Events.WaitlistEmails(w[1..], id) == [b, c];
    assert Events.WaitlistEmails(w, id) == [a, b, c];
    assert Events.DropWaitlist(w[1..][1..], id) == [];
    assert Events.DropWaitlist(w[1..], id) == [];
    assert Events.DropWaitlist(w, id) == [];
    assert Events.HolderIds(db.tickets, id) == {};
    Events.NoHoldersNoRecipients(db.users);

  }
}
