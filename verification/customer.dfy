/** A customer: an email address and, in order, the bikes the shop holds for them (dropped
    off for servicing or bought online and not yet collected). */
module Customers {
  import opened Lists
  import opened Bikes

  datatype Customer = Customer(email: string, bikes: seq<BikeId>)

  /** A new customer record holds no bikes. */
  function NewCustomer(email: string): (c: Customer)
    ensures c.email == email && c.bikes == []
  {
    Customer(email, [])
  }

  /** Appends the bike to the end of the customer's list; the email never changes. */
  function AddBike(c: Customer, id: BikeId): (r: Customer)
    ensures r.email == c.email
    ensures |r.bikes| == |c.bikes| + 1 && r.bikes[..|c.bikes|] == c.bikes && r.bikes[|c.bikes|] == id
  {
    var bikes := c.bikes + [id];
    assert bikes[..|c.bikes|] == c.bikes;
    c.(bikes := bikes)
  }

  /** Removes the first occurrence of the bike, or nothing when the customer does not hold
      it; the email never changes. */
  function RemoveBike(c: Customer, id: BikeId): (r: Customer)
    ensures r.email == c.email
    ensures id !in c.bikes ==> r == c
    ensures multiset(r.bikes) == multiset(c.bikes) - multiset{id}
    ensures id in c.bikes ==> r.bikes == CutOut(c.bikes, FirstIndex(c.bikes, id))
  {
    RemoveFirstCuts(c.bikes, id);
    c.(bikes := RemoveFirst(c.bikes, id))
  }

  /** Adding a bike the customer did not hold and then removing it restores the record. */
  lemma AddThenRemoveBike(c: Customer, id: BikeId)
    requires id !in c.bikes
    ensures RemoveBike(AddBike(c, id), id) == c
  {
    AppendThenRemoveFirst(c.bikes, id);
  }
}
