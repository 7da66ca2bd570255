/** The bike lifecycle as a state machine: one transition function per event, each
    dispatching on the bike's current status exactly as the three state classes do.
    An illegal transition throws `IllegalStateException` in Java; here it is a `Failure`
    carrying the exception's message, and the bike is left as it was. */
module BikeStates {
  import opened Wrappers
  import opened Bikes

  /** A bike is handed in for servicing. Only an Available bike may be, and its email
      is cleared on the way in. */
  function DropOff(b: Bike): (r: Result<Bike, string>)
    ensures r.Success? <==> b.status == Available
    ensures r.Success? ==> r.value.status == BeingServiced && r.value.associatedEmail.None?
    ensures r.Success? ==> r.value.daysInServicing == b.daysInServicing
  {
    match b.status
    case Available => Success(SetAssociatedEmail(SetStatus(b, BeingServiced), None))
    case BeingServiced => Failure("Bike is already being serviced.")
    case AwaitingPickup => Failure("Bike cannot be dropped off when it is awaiting pickup.")
  }

  /** A bike is collected. A serviced bike becomes ready for collection (its email is kept);
      a bike awaiting pickup becomes Available with its email cleared; an Available bike
      cannot be collected. */
  function PickUp(b: Bike): (r: Result<Bike, string>)
    ensures r.Success? <==> b.status != Available
    ensures b.status == BeingServiced ==>
      r.Success? && r.value.status == AwaitingPickup && r.value.associatedEmail == b.associatedEmail
    ensures b.status == AwaitingPickup ==>
      r.Success? && r.value.status == Available && r.value.associatedEmail.None?
    ensures r.Success? ==> r.value.daysInServicing == b.daysInServicing
  {
    match b.status
    case Available => Failure("Bike cannot be picked up when it is available.")
    case BeingServiced => Success(SetStatus(b, AwaitingPickup))
    case AwaitingPickup => Success(SetAssociatedEmail(SetStatus(b, Available), None))
  }

  /** A bike is sold. Only an Available bike may be; it then awaits pickup and keeps
      whatever email it had. */
  function Purchase(b: Bike): (r: Result<Bike, string>)
    ensures r.Success? <==> b.status == Available
    ensures r.Success? ==> r.value.status == AwaitingPickup && r.value.associatedEmail == b.associatedEmail
    ensures r.Success? ==> r.value.daysInServicing == b.daysInServicing
  {
    match b.status
    case Available => Success(SetStatus(b, AwaitingPickup))
    case BeingServiced => Failure("Bike cannot be purchased when it is being serviced.")
    case AwaitingPickup => Failure("Bike is already purchased.")
  }

  /** The display name of each state. */
  function Name(status: Status): string {
    match status
    case Available => "Available"
    case BeingServiced => "Being Serviced"
    case AwaitingPickup => "Awaiting Pickup"
  }

  /** The three display names tell the states apart. */
  lemma NamesIdentifyStates(a: Status, b: Status)
    ensures Name(a) == Name(b) <==> a == b
  {
    if a != b {
      assert Name(a)[0] != Name(b)[0] || Name(a)[1] != Name(b)[1];
    }
  }

  /** The events a state object responds to. */
  datatype Event = DropOffEvent | PickUpEvent | PurchaseEvent

  /** The transition table as data: the status each event leads to, or `None` where the
      event is illegal. It is written independently of the transition functions above. */
  function Table(from: Status, e: Event): Option<Status> {
    match (from, e)
    case (Available, DropOffEvent) => Some(BeingServiced)
    case (Available, PurchaseEvent) => Some(AwaitingPickup)
    case (BeingServiced, PickUpEvent) => Some(AwaitingPickup)
    case (AwaitingPickup, PickUpEvent) => Some(Available)
    case _ => None
  }

  /** Fires an event at a bike by calling the matching transition. */
  function Fire(b: Bike, e: Event): Result<Bike, string> {
    match e
    case DropOffEvent => DropOff(b)
    case PickUpEvent => PickUp(b)
    case PurchaseEvent => Purchase(b)
  }

  /** Every transition agrees with the table: it succeeds exactly where the table has an
      entry, lands in the tabled status, never changes the day counter, and clears the
      email exactly when the bike is dropped off or returns to Available. */
  lemma TransitionsFollowTable(b: Bike, e: Event)
    ensures Fire(b, e).Success? <==> Table(b.status, e).Some?
    ensures Fire(b, e).Success? ==> Fire(b, e).value.status == Table(b.status, e).value
    ensures Fire(b, e).Success? ==> Fire(b, e).value.daysInServicing == b.daysInServicing
    ensures Fire(b, e).Success? ==>
      (Fire(b, e).value.associatedEmail ==
        if e == DropOffEvent || Table(b.status, e).value == Available then None else b.associatedEmail)
  {
  }

  /** The only transition that puts a bike into servicing is a drop-off of an Available bike. */
  lemma OnlyDropOffStartsServicing(b: Bike, e: Event)
    requires Fire(b, e).Success? && Fire(b, e).value.status == BeingServiced
    ensures e == DropOffEvent && b.status == Available
  {
  }
}
