/** Two whole days from the opening shop, worked message by message: a sale that is
    collected, and a drop-off that cannot be collected because nothing ever finishes
    servicing a bike. */
module Scenarios {
  import opened Wrappers
  import opened Lists
  import opened Bikes
  import opened Inventories
  import opened Controller
  import opened ShopInvariant
  import opened Messages
  import opened EventLoop

  /** Delivery, an online sale to "a@x.com", then that customer's pick-up: all three are
      accepted; 9 bikes remain, the balance is 15000 - 5000 + 1000 = 11000 with no service
      fee, and the customer's record is empty again. */
  lemma SaleThenPickUp(s0: Shop)
    requires s0 == Initial()
    ensures var r := RunDay(s0, ["DELIVERY", "PURCHASE-ONLINE a@x.com", "PICK-UP a@x.com"]);
      && r.1 == [DeliveryAccepted, OnlineAccepted("a@x.com"), PickUpAccepted("a@x.com")]
      && r.0.account.balance == 11000
      && Total(r.0.inventory) == 9
      && "a@x.com" in r.0.customers && r.0.customers["a@x.com"].bikes == []
  {
    var e := "a@x.com";
    var m1, m2, m3 := "DELIVERY", "PURCHASE-ONLINE a@x.com", "PICK-UP a@x.com";
    SaleMessages();
    OpeningDelivery(s0);
    var s1 := Step(s0, m1).shop;
    OnlineSale(s1, e);
    var s2 := Step(s1, m2).shop;
    SoleCollection(s2, e);
    var s3 := Step(s2, m3).shop;
    RunDayOfThree(s0, m1, m2, m3);
  }

  /** A delivery into an empty shop with 15000 in the account, as the opening shop is, is
      accepted: ten Available bikes and 10000 left in the account. */
  lemma OpeningDelivery(s: Shop)
    requires Consistent(s) && ServicingDaysZero(s)
    requires Total(s.inventory) == 0 && s.account.balance == InitialBalance
    ensures var o := Step(s, Compose("DELIVERY", None));
      && o.reply == DeliveryAccepted
      && Consistent(o.shop) && ServicingDaysZero(o.shop)
      && o.shop.account.balance == 10000
      && Total(o.shop.inventory) == 10 && |o.shop.inventory.available| == 10
      && o.shop.customers == s.customers
  {
    DispatchByType(s, "DELIVERY", None);
    OpeningDelivered(s);
  }

  /** `OpeningDelivery`, stated of the delivery handler. */
  lemma OpeningDelivered(s: Shop)
    requires Consistent(s) && ServicingDaysZero(s)
    requires Total(s.inventory) == 0 && s.account.balance == InitialBalance
    ensures var o := HandleDelivery(s);
      && o.reply == DeliveryAccepted
      && Consistent(o.shop) && ServicingDaysZero(o.shop)
      && o.shop.account.balance == 10000
      && Total(o.shop.inventory) == 10 && |o.shop.inventory.available| == 10
      && o.shop.customers == s.customers
  {
    var o := HandleDelivery(s);
    DeliveryKeepsConsistent(s);
    DeliveredCounts(s, o.shop);
  }

  /** An online sale to a customer without a record, when a bike is available: accepted,
      the balance gains 1000, and the new record holds just the sold bike, awaiting pickup. */
  lemma OnlineSale(s: Shop, e: string)
    requires Consistent(s) && ServicingDaysZero(s)
    requires |s.inventory.available| > 0 && e !in s.customers
    ensures var o := Step(s, Compose("PURCHASE-ONLINE", Some(e)));
      && o.reply == OnlineAccepted(e)
      && ServicingDaysZero(o.shop)
      && o.shop.account.balance == s.account.balance + SalePrice
      && Total(o.shop.inventory) == Total(s.inventory)
      && e in o.shop.customers && |o.shop.customers[e].bikes| == 1
      && HoldsAwaiting(o.shop, e)
      && o.shop.customers[e].bikes[0] in o.shop.inventory.awaitingPickup
  {
    DispatchByType(s, "PURCHASE-ONLINE", Some(e));
    var o := HandlePurchaseOnline(s, Some(e));
    HeadIsAvailable(s);
    SoldOnlineCounts(s, o.shop, e);
    var id := s.inventory.available[0];
    assert o.shop.customers[e].bikes == [id];
    assert o.shop.bikes[o.shop.customers[e].bikes[0]].status == AwaitingPickup;
  }

  /** A customer whose one bike awaits pickup, and is on the awaiting list, collects it:
      accepted, one bike fewer on the shelves, no fee while no servicing day was counted,
      and the record is left empty. */
  lemma SoleCollection(s: Shop, e: string)
    requires Wf(s) && ServicingDaysZero(s)
    requires e in s.customers && |s.customers[e].bikes| == 1 && HoldsAwaiting(s, e)
    requires s.customers[e].bikes[0] in s.inventory.awaitingPickup
    ensures var o := Step(s, Compose("PICK-UP", Some(e)));
      && o.reply == PickUpAccepted(e)
      && o.shop.account.balance == s.account.balance
      && Total(o.shop.inventory) == Total(s.inventory) - 1
      && e in o.shop.customers && o.shop.customers[e].bikes == []
  {
    DispatchByType(s, "PICK-UP", Some(e));
    SoleHandOver(s, e);
  }

  /** `SoleCollection`, stated of the pick-up handler. */
  lemma SoleHandOver(s: Shop, e: string)
    requires Wf(s) && ServicingDaysZero(s)
    requires e in s.customers && |s.customers[e].bikes| == 1 && HoldsAwaiting(s, e)
    requires s.customers[e].bikes[0] in s.inventory.awaitingPickup
    ensures var o := HandlePickUp(s, Some(e));
      && o.reply == PickUpAccepted(e)
      && o.shop.account.balance == s.account.balance
      && Total(o.shop.inventory) == Total(s.inventory) - 1
      && e in o.shop.customers && o.shop.customers[e].bikes == []
  {
    var ids := s.customers[e].bikes;
    assert FirstAwaitingPickup(s.bikes, ids) == Some(0);
    var t := HandlePickUp(s, Some(e)).shop;
    assert PickedUp(s, t, e);
    assert s.bikes[ids[0]].daysInServicing == 0;
    RemoveFirstLength(s.inventory.awaitingPickup, ids[0]);
    assert RemoveFirst(ids, ids[0]) == [];
  }

  /** A drop-off by "b@y.com" and then that customer's pick-up: the drop-off is accepted,
      but the bike stays in servicing, so the pick-up is refused with "no matching bike"
      and no fee is ever taken. */
  lemma DropOffThenPickUp(s0: Shop)
    requires s0 == Initial()
    ensures var r := RunDay(s0, ["DROP-OFF b@y.com", "PICK-UP b@y.com"]);
      && r.1 == [DropOffAccepted("b@y.com"), NoMatchingBike("b@y.com")]
      && r.0.account.balance == InitialBalance
      && r.0.inventory.servicing == [0]
  {
    var e := "b@y.com";
    var m1, m2 := "DROP-OFF b@y.com", "PICK-UP b@y.com";
    DropOffMessages();
    assert s0.inventory.servicing == [] && s0.nextId == 0;
    FirstDropOff(s0, e);
    var s1 := Step(s0, m1).shop;
    UncollectableWhileServiced(s1, e);
    RunDayOfTwo(s0, m1, m2);
  }

  /** A drop-off by a customer without a record, below capacity, is accepted: the new bike
      is being serviced, joins the end of the servicing list and is the customer's only
      bike; the account is untouched. */
  lemma FirstDropOff(s: Shop, e: string)
    requires Wf(s) && Total(s.inventory) <= DropOffSpaceLimit && e !in s.customers
    ensures var o := Step(s, Compose("DROP-OFF", Some(e)));
      && o.reply == DropOffAccepted(e)
      && Wf(o.shop)
      && o.shop.account == s.account
      && o.shop.inventory.servicing == s.inventory.servicing + [s.nextId]
      && e in o.shop.customers && o.shop.customers[e].bikes == [s.nextId]
      && forall id :: id in o.shop.customers[e].bikes ==> o.shop.bikes[id].status == BeingServiced
  {
    DispatchByType(s, "DROP-OFF", Some(e));
  }

  /** A customer whose bikes are all being serviced cannot collect any of them, and the
      pick-up changes nothing. */
  lemma UncollectableWhileServiced(s: Shop, e: string)
    requires Wf(s) && e in s.customers
    requires forall id :: id in s.customers[e].bikes ==> s.bikes[id].status == BeingServiced
    ensures Step(s, Compose("PICK-UP", Some(e))) == Outcome(s, NoMatchingBike(e))
  {
    DispatchByType(s, "PICK-UP", Some(e));
    assert !HoldsAwaiting(s, e);
  }

  /** A day of two messages, spelled out. */
  lemma RunDayOfTwo(s: Shop, m1: string, m2: string)
    requires Wf(s)
    ensures var o1 := Step(s, m1);
      var o2 := Step(o1.shop, m2);
      RunDay(s, [m1, m2]).0 == o2.shop && RunDay(s, [m1, m2]).1 == [o1.reply, o2.reply]
  {
    var o1 := Step(s, m1);
    assert [m1, m2] == [m1] + [m2] && [m2] == [m2] + [];
    RunDayCons(s, m1, [m2]);
    RunDayCons(o1.shop, m2, []);
  }

  /** A day of three messages, spelled out. */
  lemma RunDayOfThree(s: Shop, m1: string, m2: string, m3: string)
    requires Wf(s)
    ensures var o1 := Step(s, m1);
      var o2 := Step(o1.shop, m2);
      var o3 := Step(o2.shop, m3);
      RunDay(s, [m1, m2, m3]).0 == o3.shop && RunDay(s, [m1, m2, m3]).1 == [o1.reply, o2.reply, o3.reply]
  {
    var o1 := Step(s, m1);
    var o2 := Step(o1.shop, m2);
    var o3 := Step(o2.shop, m3);
    RunDayFirstOfThree(s, m1, m2, m3);
    RunDayOfTwo(o1.shop, m2, m3);
    ConsOfTwo(o1.reply, o2.reply, o3.reply);
  }

  /** The first of three messages, then the other two. */
  lemma RunDayFirstOfThree(s: Shop, m1: string, m2: string, m3: string)
    requires Wf(s)
    ensures var o1 := Step(s, m1);
      && RunDay(s, [m1, m2, m3]).0 == RunDay(o1.shop, [m2, m3]).0
      && RunDay(s, [m1, m2, m3]).1 == [o1.reply] + RunDay(o1.shop, [m2, m3]).1
  {
    ConsOfTwo(m1, m2, m3);
    RunDayCons(s, m1, [m2, m3]);
  }

  /** One element in front of a pair; stated apart so that it is proved without the
      facts about the controller in scope. */
  lemma ConsOfTwo<T>(a: T, b: T, c: T)
    ensures [a] + [b, c] == [a, b, c]
  {
  }

  /** The messages of the sale day, built from their parts. Proof aids: the scenarios
      name messages through `Compose` so that the solver does not unfold string literals. */
  lemma SaleMessages()
    ensures Compose("DELIVERY", None) == "DELIVERY"
    ensures Compose("PURCHASE-ONLINE", Some("a@x.com")) == "PURCHASE-ONLINE a@x.com"
    ensures Compose("PICK-UP", Some("a@x.com")) == "PICK-UP a@x.com"
  {
  }

  /** The messages of the drop-off day, built from their parts. */
  lemma DropOffMessages()
    ensures Compose("DROP-OFF", Some("b@y.com")) == "DROP-OFF b@y.com"
    ensures Compose("PICK-UP", Some("b@y.com")) == "PICK-UP b@y.com"
  {
  }
}
