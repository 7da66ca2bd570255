/** What stays true of the shop from message to message: the shelf lists agree with the bike
    states, and the customer records agree with the shelves. Under this invariant the purchase
    handlers never meet a head that is not Available, a refused message changes nothing, and
    each accepted message moves the stock count and the balance by a fixed amount, plus the
    service fee a pick-up may take. */
module ShopInvariant {
  import opened Wrappers
  import opened Lists
  import opened Bikes
  import opened Inventories
  import opened BankAccounts
  import opened Customers
  import opened Controller

  /** Each shelf lists distinct bikes, and every bike on it is in that shelf's state. */
  predicate ShelvesAgree(s: Shop) {
    && NoDup(s.inventory.available)
    && NoDup(s.inventory.servicing)
    && NoDup(s.inventory.awaitingPickup)
    && (forall id :: id in s.inventory.available ==> id in s.bikes && s.bikes[id].status == Available)
    && (forall id :: id in s.inventory.servicing ==> id in s.bikes && s.bikes[id].status == BeingServiced)
    && (forall id :: id in s.inventory.awaitingPickup ==> id in s.bikes && s.bikes[id].status == AwaitingPickup)
  }

  /** Each record is filed under its own email and lists distinct bikes; no record holds an
      Available bike; a held bike that awaits pickup is on the awaiting shelf; and no bike is
      held for two customers. */
  predicate RecordsAgree(s: Shop) {
    && (forall e :: e in s.customers ==> s.customers[e].email == e && NoDup(s.customers[e].bikes))
    && (forall e, id :: e in s.customers && id in s.customers[e].bikes ==>
          && id in s.bikes
          && s.bikes[id].status != Available
          && (s.bikes[id].status == AwaitingPickup ==> id in s.inventory.awaitingPickup))
    && (forall e, f, id :: e in s.customers && f in s.customers && id in s.customers[e].bikes && id in s.customers[f].bikes ==> e == f)
  }

  predicate Consistent(s: Shop) {
    Wf(s) && ShelvesAgree(s) && RecordsAgree(s)
  }

  /** Stocking `n` new Available bikes keeps the shop consistent. */
  lemma StockedKeepsConsistent(s: Shop, t: Shop, n: nat)
    requires Consistent(s) && Stocked(s, t, n)
    ensures Consistent(t)
  {
    var newIds := Range(s.nextId, n);
    forall id | id in s.inventory.available ensures id !in newIds {
      assert id in s.bikes;
    }
    NoDupAppend(s.inventory.available, newIds);
    forall id | id in t.inventory.available ensures id in t.bikes && t.bikes[id].status == Available {
      if id !in s.inventory.available {
        assert id in newIds;
      }
    }
  }

  /** The balance plays no part in consistency. */
  lemma ConsistentIgnoresAccount(t: Shop, a: Account)
    requires Consistent(t.(account := a))
    ensures Consistent(t)
  {
    var u := t.(account := a);
    assert u.bikes == t.bikes && u.inventory == t.inventory && u.customers == t.customers;
  }

  lemma DeliveryKeepsConsistent(s: Shop)
    requires Consistent(s)
    ensures Consistent(HandleDelivery(s).shop)
  {
    var r := HandleDelivery(s);
    if Accepted(r.reply) {
      StockedKeepsConsistent(s, r.shop.(account := s.account), DeliverySize);
      ConsistentIgnoresAccount(r.shop, s.account);
    }
  }

  /** A bike that no record and no shelf refers to, added to the record of `e`: the records
      still agree with the shelves, provided its state is not Available and, if it awaits
      pickup, it is on the awaiting shelf afterwards. */
  lemma AssignedKeepsRecords(s: Shop, t: Shop, e: string, id: BikeId)
    requires Consistent(s) && Assigned(s, t, e, id)
    requires id in t.bikes && t.bikes[id].status != Available
    requires t.bikes[id].status == AwaitingPickup ==> id in t.inventory.awaitingPickup
    requires forall c :: c in s.customers ==> id !in s.customers[c].bikes
    requires forall x :: x in s.bikes && x != id ==> x in t.bikes && t.bikes[x] == s.bikes[x]
    requires forall x :: x in s.inventory.awaitingPickup ==> x in t.inventory.awaitingPickup
    ensures RecordsAgree(t)
  {
    var held := HeldFor(s, e);
    assert NoDup(held);
    NoDupAppend(held, [id]);
    forall c | c in t.customers ensures t.customers[c].email == c && NoDup(t.customers[c].bikes) {
      if c != e {
        assert c in s.customers && t.customers[c] == s.customers[c];
      }
    }
    forall c, x | c in t.customers && x in t.customers[c].bikes
      ensures x == id ==> c == e
      ensures x != id ==> c in s.customers && x in s.customers[c].bikes
    {
      if c == e {
        assert x in held + [id];
      } else {
        assert c in s.customers && t.customers[c] == s.customers[c];
      }
    }
  }

  /** A drop-off keeps the shop consistent. */
  lemma DroppedOffKeepsConsistent(s: Shop, t: Shop, e: string)
    requires Consistent(s) && DroppedOff(s, t, e)
    ensures Consistent(t)
  {
    var id := s.nextId;
    DroppedOffKeepsWf(s, t, e);
    assert id !in s.inventory.servicing;
    NoDupAppend(s.inventory.servicing, [id]);
    assert id !in s.bikes;
    forall c | c in s.customers ensures id !in s.customers[c].bikes {
      assert forall x :: x in s.customers[c].bikes ==> x in s.bikes;
    }
    AssignedKeepsRecords(s, t, e, id);
  }

  lemma DropOffKeepsConsistent(s: Shop, email: Option<string>)
    requires Consistent(s)
    ensures Consistent(HandleDropOff(s, email).shop)
  {
    var r := HandleDropOff(s, email);
    if Accepted(r.reply) {
      DroppedOffKeepsConsistent(s, r.shop, email.value);
    }
  }

  /** Under the invariant the head of the available list is Available, so neither purchase
      handler can take its "not available" branch. */
  lemma HeadIsAvailable(s: Shop)
    requires Consistent(s) && |s.inventory.available| > 0
    ensures HeadAvailable(s)
  {
    assert s.inventory.available[0] in s.inventory.available;
  }

  /** The second `removeAvailableBike` of an online sale finds nothing to remove: the head
      occurs once in the available list and has already been taken off. */
  lemma RedundantRemoveIsNoOp(s: Shop)
    requires NoDup(s.inventory.available) && |s.inventory.available| > 0
    ensures RemoveFirst(s.inventory.available[1..], s.inventory.available[0]) == s.inventory.available[1..]
  {
    NoDupTail(s.inventory.available);
  }

  /** The head of the available list is held for no customer and is on no other shelf. */
  lemma HeadIsUnclaimed(s: Shop)
    requires Consistent(s) && |s.inventory.available| > 0
    ensures forall c :: c in s.customers ==> s.inventory.available[0] !in s.customers[c].bikes
    ensures s.inventory.available[0] !in s.inventory.servicing
    ensures s.inventory.available[0] !in s.inventory.awaitingPickup
    ensures s.inventory.available[0] !in s.inventory.available[1..]
  {
    HeadIsAvailable(s);
    NoDupTail(s.inventory.available);
  }

  /** An online sale keeps the shop consistent. */
  lemma SoldOnlineKeepsConsistent(s: Shop, t: Shop, e: string)
    requires Consistent(s) && |s.inventory.available| > 0 && SoldOnline(s, t, e)
    ensures Consistent(t)
  {
    var id := s.inventory.available[0];
    HeadIsAvailable(s);
    HeadIsUnclaimed(s);
    SoldOnlineKeepsWf(s, t, e);
    SoldOnlineKeepsShelves(s, t, e);
    AssignedKeepsRecords(s, t, e, id);
  }

  lemma SoldOnlineKeepsShelves(s: Shop, t: Shop, e: string)
    requires Consistent(s) && |s.inventory.available| > 0 && SoldOnline(s, t, e)
    ensures ShelvesAgree(t)
  {
    SoldOnlineShelvesDistinct(s, t, e);
    SoldOnlineShelvesStates(s, t, e);
  }

  lemma SoldOnlineShelvesDistinct(s: Shop, t: Shop, e: string)
    requires Consistent(s) && |s.inventory.available| > 0 && SoldOnline(s, t, e)
    ensures NoDup(t.inventory.available) && NoDup(t.inventory.servicing) && NoDup(t.inventory.awaitingPickup)
  {
    HeadIsUnclaimed(s);
    RedundantRemoveIsNoOp(s);
    NoDupTail(s.inventory.available);
    NoDupAppend(s.inventory.awaitingPickup, [s.inventory.available[0]]);
  }

  lemma SoldOnlineShelvesStates(s: Shop, t: Shop, e: string)
    requires Consistent(s) && |s.inventory.available| > 0 && SoldOnline(s, t, e)
    ensures forall id :: id in t.inventory.available ==> id in t.bikes && t.bikes[id].status == Available
    ensures forall id :: id in t.inventory.servicing ==> id in t.bikes && t.bikes[id].status == BeingServiced
    ensures forall id :: id in t.inventory.awaitingPickup ==> id in t.bikes && t.bikes[id].status == AwaitingPickup
  {
    HeadIsUnclaimed(s);
    RedundantRemoveIsNoOp(s);
  }

  lemma PurchaseOnlineKeepsConsistent(s: Shop, email: Option<string>)
    requires Consistent(s)
    ensures Consistent(HandlePurchaseOnline(s, email).shop)
  {
    var r := HandlePurchaseOnline(s, email);
    if Accepted(r.reply) {
      SoldOnlineKeepsConsistent(s, r.shop, email.value);
    } else if email.Some? && |s.inventory.available| > 0 {
      HeadIsAvailable(s);
    }
  }

  /** An in-store sale keeps the shop consistent: the sold bike leaves every list and was
      held for nobody. */
  lemma SoldInStoreKeepsConsistent(s: Shop, t: Shop)
    requires Consistent(s) && |s.inventory.available| > 0 && SoldInStore(s, t)
    ensures Consistent(t)
  {
    var id := s.inventory.available[0];
    HeadIsUnclaimed(s);
    assert id in s.bikes;
    assert Wf(t);
    SoldInStoreKeepsShelves(s, t);
    SoldInStoreKeepsRecords(s, t);
  }

  lemma SoldInStoreKeepsShelves(s: Shop, t: Shop)
    requires Consistent(s) && |s.inventory.available| > 0 && SoldInStore(s, t)
    ensures ShelvesAgree(t)
  {
    HeadIsUnclaimed(s);
    RedundantRemoveIsNoOp(s);
    NoDupTail(s.inventory.available);
  }

  lemma SoldInStoreKeepsRecords(s: Shop, t: Shop)
    requires Consistent(s) && |s.inventory.available| > 0 && SoldInStore(s, t)
    ensures RecordsAgree(t)
  {
    HeadIsUnclaimed(s);
  }

  lemma PurchaseInStoreKeepsConsistent(s: Shop)
    requires Consistent(s)
    ensures Consistent(HandlePurchaseInStore(s).shop)
  {
    var r := HandlePurchaseInStore(s);
    if Accepted(r.reply) {
      SoldInStoreKeepsConsistent(s, r.shop);
    } else if |s.inventory.available| > 0 {
      HeadIsAvailable(s);
    }
  }

  /** The bike a pick-up hands over: the first one in the customer's list awaiting pickup.
      It is on the awaiting shelf, so removing it shortens that shelf by one, and it is
      held for nobody else. */
  lemma CollectedBikeIsShelved(s: Shop, e: string)
    requires Consistent(s) && e in s.customers && FirstAwaitingPickup(s.bikes, s.customers[e].bikes).Some?
    ensures var ids := s.customers[e].bikes;
      var id := ids[FirstAwaitingPickup(s.bikes, ids).value];
      && id in s.inventory.awaitingPickup
      && s.bikes[id].status == AwaitingPickup
      && (forall c :: c in s.customers && c != e ==> id !in s.customers[c].bikes)
      && |RemoveFirst(s.inventory.awaitingPickup, id)| == |s.inventory.awaitingPickup| - 1
  {
    var ids := s.customers[e].bikes;
    var id := ids[FirstAwaitingPickup(s.bikes, ids).value];
    assert id in ids;
    RemoveFirstLength(s.inventory.awaitingPickup, id);
  }

  /** A pick-up keeps the shop consistent. */
  lemma PickedUpKeepsConsistent(s: Shop, t: Shop, e: string)
    requires Consistent(s) && e in s.customers && FirstAwaitingPickup(s.bikes, s.customers[e].bikes).Some?
    requires PickedUp(s, t, e)
    ensures Consistent(t)
  {
    PickedUpKeepsWf(s, t, e);
    PickedUpKeepsShelves(s, t, e);
    PickedUpKeepsRecords(s, t, e);
  }

  lemma PickedUpKeepsShelves(s: Shop, t: Shop, e: string)
    requires Consistent(s) && e in s.customers && FirstAwaitingPickup(s.bikes, s.customers[e].bikes).Some?
    requires PickedUp(s, t, e)
    ensures ShelvesAgree(t)
  {
    var ids := s.customers[e].bikes;
    var id := ids[FirstAwaitingPickup(s.bikes, ids).value];
    CollectedBikeIsShelved(s, e);
    RemoveFirstNoDup(s.inventory.awaitingPickup, id);
  }

  lemma PickedUpKeepsRecords(s: Shop, t: Shop, e: string)
    requires Consistent(s) && e in s.customers && FirstAwaitingPickup(s.bikes, s.customers[e].bikes).Some?
    requires PickedUp(s, t, e)
    ensures RecordsAgree(t)
  {
    var ids := s.customers[e].bikes;
    var id := ids[FirstAwaitingPickup(s.bikes, ids).value];
    CollectedBikeIsShelved(s, e);
    RemoveFirstNoDup(s.inventory.awaitingPickup, id);
    RemoveFirstNoDup(ids, id);
    forall c, x | c in t.customers && x in t.customers[c].bikes
      ensures c in s.customers && x in s.customers[c].bikes && x != id
    {
    }
  }

  lemma PickUpKeepsConsistent(s: Shop, email: Option<string>)
    requires Consistent(s)
    ensures Consistent(HandlePickUp(s, email).shop)
  {
    var r := HandlePickUp(s, email);
    if Accepted(r.reply) {
      var e := email.value;
      assert FirstAwaitingPickup(s.bikes, s.customers[e].bikes).Some?;
      PickedUpKeepsConsistent(s, r.shop, e);
    }
  }

  /** No bike has counted a servicing day. Nothing in the controller changes the counter and a
      new bike starts at zero, so this holds from the first day on. */
  predicate ServicingDaysZero(s: Shop) {
    forall id :: id in s.bikes ==> s.bikes[id].daysInServicing == 0
  }

  /** From `s` to `t` no bike is forgotten and no servicing-day counter moves: every bike of
      `s` is still there with the same count, and every new bike starts at zero. */
  ghost predicate CountersKept(s: Shop, t: Shop) {
    && (forall id :: id in s.bikes ==> id in t.bikes && t.bikes[id].daysInServicing == s.bikes[id].daysInServicing)
    && (forall id :: id in t.bikes && id !in s.bikes ==> t.bikes[id].daysInServicing == 0)
  }

  lemma ZeroCountersStayZero(s: Shop, t: Shop)
    requires ServicingDaysZero(s) && CountersKept(s, t)
    ensures ServicingDaysZero(t)
  {
    forall id | id in t.bikes ensures t.bikes[id].daysInServicing == 0 {
      if id in s.bikes {
        assert t.bikes[id].daysInServicing == s.bikes[id].daysInServicing;
      }
    }
  }

  /** Replacing one bike by a copy with the same count keeps every counter. */
  lemma UpdateKeepsCounters(s: Shop, t: Shop, id: BikeId)
    requires id in s.bikes && id in t.bikes && t.bikes == s.bikes[id := t.bikes[id]]
    requires t.bikes[id].daysInServicing == s.bikes[id].daysInServicing
    ensures CountersKept(s, t)
  {
  }

  /** How many bikes a reply's message added to the shelves (negative when it took one off). */
  function StockChange(r: Reply): int {
    match r
    case DeliveryAccepted => DeliverySize as int
    case DropOffAccepted(_) => 1
    case InStoreAccepted => -1
    case PickUpAccepted(_) => -1
    case _ => 0
  }

  /** How much a reply's message moved the balance, apart from the service fee. */
  function CashChange(r: Reply): int {
    match r
    case DeliveryAccepted => -DeliveryCost
    case OnlineAccepted(_) => SalePrice
    case InStoreAccepted => SalePrice
    case _ => 0
  }

  /** The service fee that a reply's message took in shop `s`: only an accepted pick-up
      pays it, when the bike it hands over has counted servicing days. */
  function FeeTaken(s: Shop, r: Reply): (fee: int)
    requires Wf(s)
    ensures fee == 0 || fee == ServiceFee
    ensures !r.PickUpAccepted? ==> fee == 0
    ensures ServicingDaysZero(s) ==> fee == 0
  {
    if r.PickUpAccepted? && r.email in s.customers && FirstAwaitingPickup(s.bikes, s.customers[r.email].bikes).Some? then
      var ids := s.customers[r.email].bikes;
      if s.bikes[ids[FirstAwaitingPickup(s.bikes, ids).value]].daysInServicing > 0 then ServiceFee else 0
    else 0
  }

  /** The stock count and the balance move exactly as the reply says, plus any fee, and
      no servicing-day counter moves. */
  ghost predicate MovesBy(s: Shop, r: Outcome)
    requires Wf(s)
  {
    && Total(r.shop.inventory) == Total(s.inventory) + StockChange(r.reply)
    && r.shop.account.balance == s.account.balance + CashChange(r.reply) + FeeTaken(s, r.reply)
    && CountersKept(s, r.shop)
  }

  /** What each accepted reply moves; stated apart from any handler so that the facts
      about a handler's result do not crowd the proof. */
  lemma AcceptedChanges(e: string)
    ensures StockChange(DeliveryAccepted) == DeliverySize as int && CashChange(DeliveryAccepted) == -DeliveryCost
    ensures StockChange(DropOffAccepted(e)) == 1 && CashChange(DropOffAccepted(e)) == 0
    ensures StockChange(OnlineAccepted(e)) == 0 && CashChange(OnlineAccepted(e)) == SalePrice
    ensures StockChange(InStoreAccepted) == -1 && CashChange(InStoreAccepted) == SalePrice
    ensures StockChange(PickUpAccepted(e)) == -1 && CashChange(PickUpAccepted(e)) == 0
  {
  }

  /** A refused message moves neither the stock nor the balance. Like `AcceptedChanges`, it
      only keeps the handler proofs small. */
  lemma RefusedChanges(r: Reply)
    requires !Accepted(r)
    ensures StockChange(r) == 0 && CashChange(r) == 0
  {
  }

  /** A delivery hands out ten new identities and puts ten more bikes on the shelves. */
  lemma DeliveredTotal(s: Shop, t: Shop)
    requires Delivered(s, t)
    ensures t.nextId == s.nextId + DeliverySize
    ensures Total(t.inventory) == Total(s.inventory) + DeliverySize
  {
    var u := t.(account := s.account);
    assert u.inventory == t.inventory && u.nextId == t.nextId;
    assert |t.inventory.available| == |s.inventory.available| + DeliverySize;
  }

  lemma DeliveredCounts(s: Shop, t: Shop)
    requires Wf(s) && Delivered(s, t)
    ensures Total(t.inventory) == Total(s.inventory) + DeliverySize
    ensures t.account.balance == s.account.balance - DeliveryCost
    ensures CountersKept(s, t)
    ensures ServicingDaysZero(s) ==> ServicingDaysZero(t)
  {
    DeliveredTotal(s, t);
    forall id | id in t.bikes && id !in s.bikes ensures t.bikes[id].daysInServicing == 0 {
      assert s.nextId <= id < t.nextId;
    }
    if ServicingDaysZero(s) {
      ZeroCountersStayZero(s, t);
    }
  }

  lemma DeliveryMoves(s: Shop)
    requires Wf(s)
    ensures MovesBy(s, HandleDelivery(s))
  {
    var r := HandleDelivery(s);
    assert FeeTaken(s, r.reply) == 0;
    if Accepted(r.reply) {
      DeliveredCounts(s, r.shop);
      AcceptedChanges("");
    } else {
      RefusedChanges(r.reply);
    }
  }

  /** A drop-off hands out one new identity and puts one more bike on the shelves. */
  lemma DroppedOffTotal(s: Shop, t: Shop, e: string)
    requires DroppedOff(s, t, e)
    ensures t.nextId == s.nextId + 1
    ensures Total(t.inventory) == Total(s.inventory) + 1
  {
    assert |t.inventory.servicing| == |s.inventory.servicing| + 1;
  }

  lemma DroppedOffCounts(s: Shop, t: Shop, e: string)
    requires Wf(s) && DroppedOff(s, t, e)
    ensures Total(t.inventory) == Total(s.inventory) + 1
    ensures t.account == s.account
    ensures CountersKept(s, t)
  {
    DroppedOffTotal(s, t, e);
  }

  lemma DropOffMoves(s: Shop, email: Option<string>)
    requires Wf(s)
    ensures MovesBy(s, HandleDropOff(s, email))
  {
    var r := HandleDropOff(s, email);
    if Accepted(r.reply) {
      DroppedOffCounts(s, r.shop, email.value);
      AcceptedChanges(email.value);
    } else {
      RefusedChanges(r.reply);
    }
  }

  lemma SoldOnlineCounts(s: Shop, t: Shop, e: string)
    requires Wf(s) && NoDup(s.inventory.available) && |s.inventory.available| > 0 && SoldOnline(s, t, e)
    ensures Total(t.inventory) == Total(s.inventory)
    ensures t.account.balance == s.account.balance + SalePrice
    ensures CountersKept(s, t)
    ensures ServicingDaysZero(s) ==> ServicingDaysZero(t)
  {
    SoldOnlineTotal(s, t, e);
    UpdateKeepsCounters(s, t, s.inventory.available[0]);
    if ServicingDaysZero(s) {
      ZeroCountersStayZero(s, t);
    }
  }

  /** An online sale moves one bike from the available shelf to the awaiting shelf. */
  lemma SoldOnlineTotal(s: Shop, t: Shop, e: string)
    requires Wf(s) && NoDup(s.inventory.available) && |s.inventory.available| > 0 && SoldOnline(s, t, e)
    ensures |t.inventory.available| == |s.inventory.available| - 1
    ensures |t.inventory.awaitingPickup| == |s.inventory.awaitingPickup| + 1
    ensures Total(t.inventory) == Total(s.inventory)
  {
    RedundantRemoveIsNoOp(s);
  }

  lemma PurchaseOnlineMoves(s: Shop, email: Option<string>)
    requires Consistent(s)
    ensures MovesBy(s, HandlePurchaseOnline(s, email))
  {
    var r := HandlePurchaseOnline(s, email);
    if Accepted(r.reply) {
      SoldOnlineCounts(s, r.shop, email.value);
      AcceptedChanges(email.value);
    } else {
      if email.Some? && |s.inventory.available| > 0 {
        HeadIsAvailable(s);
      }
      RefusedChanges(r.reply);
    }
  }

  lemma SoldInStoreCounts(s: Shop, t: Shop)
    requires Wf(s) && NoDup(s.inventory.available) && |s.inventory.available| > 0 && SoldInStore(s, t)
    ensures Total(t.inventory) == Total(s.inventory) - 1
    ensures t.account.balance == s.account.balance + SalePrice
    ensures CountersKept(s, t)
  {
    RedundantRemoveIsNoOp(s);
    assert |t.inventory.available| == |s.inventory.available| - 1;
    UpdateKeepsCounters(s, t, s.inventory.available[0]);
  }

  lemma PurchaseInStoreMoves(s: Shop)
    requires Consistent(s)
    ensures MovesBy(s, HandlePurchaseInStore(s))
  {
    var r := HandlePurchaseInStore(s);
    if Accepted(r.reply) {
      SoldInStoreCounts(s, r.shop);
      AcceptedChanges("");
    } else {
      if |s.inventory.available| > 0 {
        HeadIsAvailable(s);
      }
      RefusedChanges(r.reply);
    }
  }

  lemma PickedUpCounts(s: Shop, t: Shop, e: string)
    requires Consistent(s)
    requires e in s.customers && FirstAwaitingPickup(s.bikes, s.customers[e].bikes).Some?
    requires PickedUp(s, t, e)
    ensures Total(t.inventory) == Total(s.inventory) - 1
    ensures t.account.balance == s.account.balance + FeeTaken(s, PickUpAccepted(e))
    ensures CountersKept(s, t)
  {
    var ids := s.customers[e].bikes;
    var id := ids[FirstAwaitingPickup(s.bikes, ids).value];
    CollectedBikeIsShelved(s, e);
    UpdateKeepsCounters(s, t, id);
  }

  /** A pick-up moves the stock and the balance as its reply says, the fee included. */
  lemma PickUpMoves(s: Shop, email: Option<string>)
    requires Consistent(s)
    ensures MovesBy(s, HandlePickUp(s, email))
  {
    var r := HandlePickUp(s, email);
    if Accepted(r.reply) {
      var e := email.value;
      assert FirstAwaitingPickup(s.bikes, s.customers[e].bikes).Some?;
      PickedUpCounts(s, r.shop, e);
      AcceptedChanges(e);
    } else {
      RefusedChanges(r.reply);
    }
  }
}
