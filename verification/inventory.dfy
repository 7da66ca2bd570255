/** The shop's stock: three ordered lists of bike identities, one per shelf. The Java class
    has an add, a remove and a count per list; here one selector names the list. */
module Inventories {
  import opened Lists
  import opened Bikes

  /** Which of the three lists: available for sale, being serviced, awaiting pickup. */
  datatype Shelf = AvailableShelf | ServicingShelf | AwaitingPickupShelf

  datatype Inventory = Inventory(available: seq<BikeId>, servicing: seq<BikeId>, awaitingPickup: seq<BikeId>)

  /** The list of one shelf. The Java getters hand out the live list itself. */
  function OnShelf(inv: Inventory, shelf: Shelf): seq<BikeId> {
    match shelf
    case AvailableShelf => inv.available
    case ServicingShelf => inv.servicing
    case AwaitingPickupShelf => inv.awaitingPickup
  }

  /** A copy of `inv` whose `shelf` list is replaced by `ids`. */
  function WithShelf(inv: Inventory, shelf: Shelf, ids: seq<BikeId>): (r: Inventory)
    ensures OnShelf(r, shelf) == ids
    ensures forall other :: other != shelf ==> OnShelf(r, other) == OnShelf(inv, other)
  {
    match shelf
    case AvailableShelf => inv.(available := ids)
    case ServicingShelf => inv.(servicing := ids)
    case AwaitingPickupShelf => inv.(awaitingPickup := ids)
  }

  /** The new inventory: all three lists empty. */
  function Empty(): (inv: Inventory)
    ensures forall shelf :: OnShelf(inv, shelf) == []
  {
    Inventory([], [], [])
  }

  /** `addAvailableBike`, `addServicedBike`, `addAwaitingPickupBike`: appends the bike to the
      end of its shelf; the other two shelves are untouched. */
  function Add(inv: Inventory, shelf: Shelf, id: BikeId): (r: Inventory)
    ensures |OnShelf(r, shelf)| == |OnShelf(inv, shelf)| + 1
    ensures OnShelf(r, shelf)[..|OnShelf(inv, shelf)|] == OnShelf(inv, shelf)
    ensures OnShelf(r, shelf)[|OnShelf(inv, shelf)|] == id
    ensures forall other :: other != shelf ==> OnShelf(r, other) == OnShelf(inv, other)
  {
    var ids := OnShelf(inv, shelf) + [id];
    assert ids[..|OnShelf(inv, shelf)|] == OnShelf(inv, shelf);
    WithShelf(inv, shelf, ids)
  }

  /** `removeAvailableBike`, `removeServicedBike`, `removeAwaitingPickupBike`: removes the first
      occurrence of the bike from its shelf, and does nothing if it is not there; the other
      two shelves are untouched. */
  function Remove(inv: Inventory, shelf: Shelf, id: BikeId): (r: Inventory)
    ensures id !in OnShelf(inv, shelf) ==> r == inv
    ensures multiset(OnShelf(r, shelf)) == multiset(OnShelf(inv, shelf)) - multiset{id}
    ensures forall other :: other != shelf ==> OnShelf(r, other) == OnShelf(inv, other)
    ensures var l := OnShelf(inv, shelf);
      id in l ==> OnShelf(r, shelf) == CutOut(l, FirstIndex(l, id))
  {
    var l := OnShelf(inv, shelf);
    WithShelfUnchanged(inv, shelf);
    RemoveFirstCuts(l, id);
    WithShelf(inv, shelf, RemoveFirst(l, id))
  }

  /** Putting a shelf's own list back leaves the inventory as it was. */
  lemma WithShelfUnchanged(inv: Inventory, shelf: Shelf)
    ensures WithShelf(inv, shelf, OnShelf(inv, shelf)) == inv
  {
  }

  /** The controller's `getAvailableBikes().removeFirst()`: because the getter returns the live
      list, taking its head changes the inventory itself. Yields the head and the inventory
      without it. */
  function TakeFirst(inv: Inventory, shelf: Shelf): (r: (BikeId, Inventory))
    requires |OnShelf(inv, shelf)| > 0
    ensures r.0 == OnShelf(inv, shelf)[0]
    ensures [r.0] + OnShelf(r.1, shelf) == OnShelf(inv, shelf)
    ensures forall other :: other != shelf ==> OnShelf(r.1, other) == OnShelf(inv, other)
  {
    var ids := OnShelf(inv, shelf);
    (ids[0], WithShelf(inv, shelf, ids[1..]))
  }

  /** `getAvailableBikeCount`, `getServicedBikeCount`, `getAwaitingPickupBikeCount`. */
  function Count(inv: Inventory, shelf: Shelf): nat {
    |OnShelf(inv, shelf)|
  }

  /** The number of bikes on all three shelves, the figure the capacity guards test. */
  function Total(inv: Inventory): nat {
    Count(inv, AvailableShelf) + Count(inv, ServicingShelf) + Count(inv, AwaitingPickupShelf)
  }

  /** Adding grows its own count, and the total, by exactly one. */
  lemma CountAfterAdd(inv: Inventory, shelf: Shelf, id: BikeId)
    ensures Count(Add(inv, shelf, id), shelf) == Count(inv, shelf) + 1
    ensures forall other :: other != shelf ==> Count(Add(inv, shelf, id), other) == Count(inv, other)
    ensures Total(Add(inv, shelf, id)) == Total(inv) + 1
  {
    var r := Add(inv, shelf, id);
    assert OnShelf(r, AvailableShelf) == r.available;
    assert OnShelf(r, ServicingShelf) == r.servicing;
    assert OnShelf(r, AwaitingPickupShelf) == r.awaitingPickup;
  }

  /** Removing shrinks its own count, and the total, by one when the bike is on the shelf and
      by nothing otherwise. */
  lemma CountAfterRemove(inv: Inventory, shelf: Shelf, id: BikeId)
    ensures Count(Remove(inv, shelf, id), shelf) == Count(inv, shelf) - (if id in OnShelf(inv, shelf) then 1 else 0)
    ensures forall other :: other != shelf ==> Count(Remove(inv, shelf, id), other) == Count(inv, other)
    ensures Total(Remove(inv, shelf, id)) == Total(inv) - (if id in OnShelf(inv, shelf) then 1 else 0)
  {
    var r := Remove(inv, shelf, id);
    assert |multiset(OnShelf(r, shelf))| == |OnShelf(r, shelf)|;
    assert |multiset(OnShelf(inv, shelf))| == |OnShelf(inv, shelf)|;
    assert OnShelf(r, AvailableShelf) == r.available;
    assert OnShelf(r, ServicingShelf) == r.servicing;
    assert OnShelf(r, AwaitingPickupShelf) == r.awaitingPickup;
  }

  /** Adding a bike that was not on the shelf and then removing it restores the inventory. */
  lemma AddThenRemove(inv: Inventory, shelf: Shelf, id: BikeId)
    requires id !in OnShelf(inv, shelf)
    ensures Remove(Add(inv, shelf, id), shelf, id) == inv
  {
    var a := Add(inv, shelf, id);
    assert OnShelf(a, shelf) == OnShelf(inv, shelf) + [id];
    AppendThenRemoveFirst(OnShelf(inv, shelf), id);
    var r := Remove(a, shelf, id);
    assert OnShelf(r, shelf) == RemoveFirst(OnShelf(a, shelf), id);
    assert OnShelf(r, AvailableShelf) == inv.available;
    assert OnShelf(r, ServicingShelf) == inv.servicing;
    assert OnShelf(r, AwaitingPickupShelf) == inv.awaitingPickup;
  }
}
