/** A single bike: its lifecycle status, the customer email it is tied to, and the
    number of days it has spent being serviced. */
module Bikes {
  import opened Wrappers

  /** Bikes are told apart by identity, as the Java code compares references. */
  type BikeId = nat

  /** The three statuses of a bike. */
  datatype Status = Available | BeingServiced | AwaitingPickup

  datatype Bike = Bike(status: Status, associatedEmail: Option<string>, daysInServicing: nat)

  /** A newly constructed bike: the given status, no associated email, and a servicing-day
      counter at zero. No code raises the counter afterwards. */
  function NewBike(status: Status): (b: Bike)
    ensures b.status == status
    ensures b.associatedEmail.None?
    ensures b.daysInServicing == 0
  {
    Bike(status, None, 0)
  }

  /** Replaces the status; the email and the day counter stay as they were. */
  function SetStatus(b: Bike, status: Status): (r: Bike)
    ensures r.status == status
    ensures r.associatedEmail == b.associatedEmail && r.daysInServicing == b.daysInServicing
  {
    b.(status := status)
  }

  /** Replaces the associated email (`None` for Java's `null`); the status and the day
      counter stay as they were. */
  function SetAssociatedEmail(b: Bike, email: Option<string>): (r: Bike)
    ensures r.associatedEmail == email
    ensures r.status == b.status && r.daysInServicing == b.daysInServicing
  {
    b.(associatedEmail := email)
  }

  /** The two setters touch different fields, so their order does not matter, and a second
      call of the same setter overrides the first. */
  lemma SettersAreIndependent(b: Bike, s1: Status, s2: Status, e1: Option<string>, e2: Option<string>)
    ensures SetStatus(SetAssociatedEmail(b, e1), s1) == SetAssociatedEmail(SetStatus(b, s1), e1)
    ensures SetStatus(SetStatus(b, s1), s2) == SetStatus(b, s2)
    ensures SetAssociatedEmail(SetAssociatedEmail(b, e1), e2) == SetAssociatedEmail(b, e2)
  {
  }
}
