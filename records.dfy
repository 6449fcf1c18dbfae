/** Records of the ticketing store: the four collections the server keeps
    (events, tickets, users, waitlist entries), the two durable queues
    (`ticket_orders`, `event_updates`) and the messages they carry. */
module Records {

  datatype Option<+T> = None | Some(value: T)

  type Id = string
  type Email = string

  /** The three roles a user can hold. */
  datatype Role = Admin | Organizer | Attendee

  /** An event. `sold` defaults to 0 and nothing in the record ties it to
      `capacity`. Dates are kept as opaque text. */
  datatype Event = Event(
    organizerId: Id,
    title: string,
    description: string,
    date: string,
    location: string,
    price: int,
    capacity: int,
    sold: int)

  /** An issued ticket. `qrCode` is required but not unique. */
  datatype Ticket = Ticket(
    eventId: Id,
    userId: Id,
    quantity: int,
    qrCode: string,
    isCheckedIn: bool)

  datatype User = User(id: Id, username: string, email: Email, role: Role)

  datatype WaitlistEntry = WaitlistEntry(eventId: Id, userId: Id, userEmail: Email)

  /** The message on `ticket_orders`. */
  datatype Order = Order(eventId: Id, quantity: int, userId: Id, qrCode: string)

  /** The message on `event_updates`. The recipient list travels under the
      field name `listField`; the producer's name and the consumer's name are
      compared by the consumer. */
  datatype Batch = Batch(
    eventTitle: string,
    newDate: string,
    newLocation: string,
    listField: string,
    recipients: seq<Email>,
    isWaitlistAlert: bool,
    persistent: bool)

  /** The decoded bearer token: who is calling and in which role. */
  datatype Claims = Claims(id: Id, role: Role)

  /** The whole store at one instant: the collections and both queues. */
  datatype Db = Db(
    events: map<Id, Event>,
    tickets: seq<Ticket>,
    users: seq<User>,
    waitlist: seq<WaitlistEntry>,
    ticketOrders: seq<Order>,
    eventUpdates: seq<Batch>)

  /** A handler's effect: the store afterwards and the reply (or outcome). */
  datatype Step<+R> = Step(db: Db, reply: R)

  /** A ticket as the schema builds it from an order: quantity and code as
      given, not yet checked in. */
  function NewTicket(userId: Id, eventId: Id, quantity: int, qrCode: string): (t: Ticket)
    ensures !t.isCheckedIn
    ensures t.userId == userId && t.eventId == eventId
    ensures t.quantity == quantity && t.qrCode == qrCode
  {
    Ticket(eventId, userId, quantity, qrCode, false)
  }

  /** `findById` on the users collection: the first user with that id. */
  function FindUser(users: seq<User>, id: Id): (r: Option<User>)
    ensures r.Some? ==> r.value in users && r.value.id == id
    ensures r.None? ==> forall u :: u in users ==> u.id != id
  {
    if users == [] then None
    else if users[0].id == id then Some(users[0])
    else FindUser(users[1..], id)
  }

  /** The ledger invariant: no event has sold more than its capacity. */
  ghost predicate CapacityRespected(events: map<Id, Event>)
  {
    forall id :: id in events ==> events[id].sold <= events[id].capacity
  }
}
