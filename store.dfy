/** The server's state as one mutable store: the events table, the ticket,
    user and waitlist collections, and the two durable queues. Each route
    handler and each worker callback is one method that updates the fields
    in place, and each is proved to have exactly the effect of the
    corresponding step function on the store's value. */
module Store {
  import opened Records
  import Tickets
  import Worker
  import Events
  import Tokens

  class Store {
    var events: map<Id, Event>
    var tickets: seq<Ticket>
    var users: seq<User>
    var waitlist: seq<WaitlistEntry>
    var ticketOrders: seq<Order>
    var eventUpdates: seq<Batch>

    /** The store's current value. */
    function Snapshot(): Db
      reads this
    {
      Db(events, tickets, users, waitlist, ticketOrders, eventUpdates)
    }

    /** A store with the given users and nothing else. */
    constructor (users: seq<User>)
      ensures Snapshot() == Db(map[], [], users, [], [], [])
    {
      this.events := map[];
      this.tickets := [];
      this.users := users;
      this.waitlist := [];
      this.ticketOrders := [];
      this.eventUpdates := [];
    }

    /** POST /tickets/purchase. */
    method Purchase(caller: Claims, eventId: Id, quantity: int, now: nat, brokerUp: bool)
      returns (reply: Tickets.PurchaseReply)
      modifies this
      ensures Step(Snapshot(), reply) == Tickets.Admit(old(Snapshot()), caller, eventId, quantity, now, brokerUp)
    {
      if eventId !in events {
        return Tickets.EventNotFound;
      }
      var event := events[eventId];
      if event.sold + quantity > event.capacity {
        return Tickets.SoldOut(event.capacity - event.sold);
      }
      var code := Tickets.QrCode(eventId, caller.id, now);
      if !brokerUp {
        return Tickets.PurchaseFailed;
      }
      ticketOrders := ticketOrders + [Order(eventId, quantity, caller.id, code)];
      reply := Tickets.Processing(code, event.title, event.date, quantity);
    }

    /** POST /tickets/verify; `fault` names the awaited call that throws. */
    method Verify(code: string, fault: Tickets.ScanFault) returns (reply: Tickets.VerifyReply)
      modifies this
      ensures Step(Snapshot(), reply) == Tickets.CheckIn(old(Snapshot()), code, fault)
    {
      if fault == Tickets.AtTicketFind {
        return Tickets.VerifyFailed;
      }
      var found := Tickets.FirstWithCode(tickets, code);
      if found.None? {
        return Tickets.InvalidTicket;
      }
      var i := found.value;
      var ticket := tickets[i];
      if ticket.isCheckedIn {
        return Tickets.AlreadyScanned;
      }
      if fault == Tickets.AtFlagSave {
        return Tickets.VerifyFailed;
      }
      ticket := ticket.(isCheckedIn := true);
      tickets := tickets[i := ticket];
      if fault == Tickets.AtReplyLookup {
        return Tickets.VerifyFailed;
      }
      var owner := FindUser(users, ticket.userId);
      reply := Tickets.Admitted(
        if owner.Some? then owner.value.username else "Unknown User",
        if ticket.eventId in events then events[ticket.eventId].title else "Unknown Event",
        ticket.quantity);
    }

    /** The order callback on the head of `ticket_orders`; an ack removes
        the message, a nack leaves it for redelivery. */
    method ConsumeOrder(fault: Worker.Fault, mailOk: bool) returns (outcome: Option<Worker.OrderOutcome>)
      modifies this
      ensures Step(Snapshot(), outcome) == Worker.Deliver(old(Snapshot()), fault, mailOk)
    {
      if ticketOrders == [] {
        return None;
      }
      var m := ticketOrders[0];
      outcome := Some(Worker.OrderOutcome(Worker.Nack, None));
      if fault == Worker.AtEventLookup {
        return;
      }
      if m.eventId in events && events[m.eventId].sold + m.quantity <= events[m.eventId].capacity {
        if fault == Worker.AtIncrement {
          return;
        }
        var event := events[m.eventId];
        events := events[m.eventId := event.(sold := event.sold + m.quantity)];
        if fault == Worker.AtSave {
          return;
        }
        tickets := tickets + [NewTicket(m.userId, m.eventId, m.quantity, m.qrCode)];
        if fault == Worker.AtUserLookup {
          return;
        }
        var to := Worker.ConfirmationAddress(users, m.userId);
        outcome := Some(Worker.OrderOutcome(Worker.Ack, if mailOk then to else None));
      } else {
        outcome := Some(Worker.OrderOutcome(Worker.Ack, None));
      }
      ticketOrders := ticketOrders[1..];
    }

    /** The update callback on the head of `event_updates`, reading the
        recipients under `field`; an ack removes the batch. */
    method ConsumeUpdate(field: string, mailer: Email -> bool) returns (outcome: Option<Worker.BatchOutcome>)
      modifies this
      ensures Step(Snapshot(), outcome) == Worker.DeliverBatch(old(Snapshot()), field, mailer)
    {
      if eventUpdates == [] {
        return None;
      }
      var sent := Worker.SendBatch(eventUpdates[0], field, mailer);
      if sent.settle == Worker.Ack {
        eventUpdates := eventUpdates[1..];
      }
      outcome := Some(sent);
    }

    /** PUT /events/:id; `fault` names the awaited call that throws. */
    method Update(caller: Claims, id: Id, patch: Events.Patch, fault: Events.EditFault) returns (reply: Events.UpdateReply)
      modifies this
      ensures Step(Snapshot(), reply) == Events.UpdateEvent(old(Snapshot()), caller, id, patch, fault)
    {
      if !Tokens.MayOrganize(caller.role) {
        return Events.NotOrganizer;
      }
      if fault == Events.AtEventFind {
        return Events.UpdateFailed;
      }
      if id !in events {
        return Events.EventNotFound;
      }
      var before := events[id];
      var after := Events.ApplyPatch(before, patch);
      events := events[id := after];
      if fault == Events.AtHolderFind || fault == Events.AtBroker {
        return Events.UpdateFailed;
      }
      var holders := Events.HolderEmails(users, Events.HolderIds(tickets, id));
      if holders != [] {
        eventUpdates := eventUpdates + [Events.HolderBatch(after, holders)];
      }
      reply := Events.Updated(after);
      if after.capacity > before.capacity {
        if fault == Events.AtWaitlistFind {
          return Events.UpdateFailed;
        }
        var waiting := Events.WaitlistEmails(waitlist, id);
        if waiting != [] {
          eventUpdates := eventUpdates + [Events.ReleaseBatch(after, waiting)];
          if fault == Events.AtWaitlistDelete {
            return Events.UpdateFailed;
          }
          waitlist := Events.DropWaitlist(waitlist, id);
        }
      }
    }

    /** POST /events/:id/waitlist. */
    method JoinWaitlist(caller: Claims, eventId: Id) returns (reply: Events.JoinReply)
      modifies this
      ensures Step(Snapshot(), reply) == Events.JoinWaitlist(old(Snapshot()), caller, eventId)
    {
      if Events.IsWaiting(waitlist, eventId, caller.id) {
        return Events.AlreadyWaiting;
      }
      var user := FindUser(users, caller.id);
      if user.None? || user.value.email == "" {
        return Events.JoinFailed;
      }
      waitlist := waitlist + [WaitlistEntry(eventId, caller.id, user.value.email)];
      reply := Events.Joined;
    }

    /** POST /events; `newId` is the id the store assigns. */
    method Create(caller: Claims, body: Events.Patch, newId: Id) returns (reply: Events.CreateReply)
      modifies this
      ensures Step(Snapshot(), reply) == Events.CreateEvent(old(Snapshot()), caller, body, newId)
    {
      if caller.id == "" {
        return Events.MissingUserId;
      }
      if !Events.Complete(body) || newId in events {
        return Events.CreateFailed;
      }
      var event := Event(caller.id, body.title.value, body.description.value, body.date.value,
                         body.location.value, body.price.value, body.capacity.value,
                         if body.sold.Some? then body.sold.value else 0);
      events := events[newId := event];
      reply := Events.Created(newId, event);
    }

    /** DELETE /events/:id. */
    method Delete(id: Id)
      modifies this
      ensures Snapshot() == Events.DeleteEvent(old(Snapshot()), id)
    {
      events := events - {id};
    }
  }
}
