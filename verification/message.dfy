/** What one message of any kind does to a shop: `processMessage` keeps the shop
    consistent, changes it exactly when it accepts, moves the stock count and the balance
    by the amounts its reply names, and never lets the shop exceed its capacity or go
    into debt. */
module Messages {
  import opened Wrappers
  import opened Lists
  import opened Inventories
  import opened BankAccounts
  import opened Controller
  import opened ShopInvariant

  /** A message whose type word is `kind` and whose email is `email`, as the controller
      sees it: the type word alone, or the type word, one space and the email. */
  function Compose(kind: string, email: Option<string>): (m: string)
    ensures email.None? ==> m == kind
    ensures email.Some? ==> |m| == |kind| + 1 + |email.value|
  {
    match email
    case None => kind
    case Some(e) => kind + " " + e
  }

  /** A message of a known type reaches the handler for that type, with its email. */
  lemma {:induction false} DispatchByType(s: Shop, kind: string, email: Option<string>)
    requires Wf(s) && kind in MessageTypes
    ensures var r := ProcessMessage(s, Some(Compose(kind, email)));
      && (kind == "DELIVERY" ==> r == HandleDelivery(s))
      && (kind == "DROP-OFF" ==> r == HandleDropOff(s, email))
      && (kind == "PURCHASE-ONLINE" ==> r == HandlePurchaseOnline(s, email))
      && (kind == "PURCHASE-IN-STORE" ==> r == HandlePurchaseInStore(s))
      && (kind == "PICK-UP" ==> r == HandlePickUp(s, email))
  {
    SplitOfCompose(kind, email);
    TypeWordsDiffer();
  }

  /** The five type words are pairwise different; a proof aid for the dispatch lemma. */
  lemma TypeWordsDiffer()
    ensures "DELIVERY" != "DROP-OFF" && "DELIVERY" != "PURCHASE-ONLINE"
    ensures "DELIVERY" != "PURCHASE-IN-STORE" && "DELIVERY" != "PICK-UP"
    ensures "DROP-OFF" != "PURCHASE-ONLINE" && "DROP-OFF" != "PURCHASE-IN-STORE" && "DROP-OFF" != "PICK-UP"
    ensures "PURCHASE-ONLINE" != "PURCHASE-IN-STORE" && "PURCHASE-ONLINE" != "PICK-UP"
    ensures "PURCHASE-IN-STORE" != "PICK-UP"
  {
    assert "DELIVERY"[1] != "DROP-OFF"[1];
    assert |"PURCHASE-ONLINE"| != |"PURCHASE-IN-STORE"|;
  }

  /** Splitting a composed message gives back its type word and its email. */
  lemma SplitOfCompose(kind: string, email: Option<string>)
    requires kind in MessageTypes
    ensures SplitType(Compose(kind, email)) == (kind, email)
    ensures |Compose(kind, email)| > 0
  {
    assert ' ' !in kind;
    if email.Some? {
      SplitTypeOfJoin(kind, email.value);
    } else {
      SplitTypeOfWord(kind);
    }
  }

  /** A message whose text has no space is its own type word. */
  lemma SplitTypeOfWord(kind: string)
    requires ' ' !in kind
    ensures SplitType(kind) == (kind, None)
  {
  }

  /** Every message, whatever its text, keeps a consistent shop consistent. */
  lemma ProcessMessageKeepsConsistent(s: Shop, message: Option<string>)
    requires Consistent(s)
    ensures Consistent(ProcessMessage(s, message).shop)
  {
    if message.Some? && |message.value| > 0 {
      var kind := SplitType(message.value).0;
      var email := SplitType(message.value).1;
      if kind == "DELIVERY" {
        assert ProcessMessage(s, message) == HandleDelivery(s);
        DeliveryKeepsConsistent(s);
      } else if kind == "DROP-OFF" {
        assert ProcessMessage(s, message) == HandleDropOff(s, email);
        DropOffKeepsConsistent(s, email);
      } else if kind == "PURCHASE-ONLINE" {
        assert ProcessMessage(s, message) == HandlePurchaseOnline(s, email);
        PurchaseOnlineKeepsConsistent(s, email);
      } else if kind == "PURCHASE-IN-STORE" {
        assert ProcessMessage(s, message) == HandlePurchaseInStore(s);
        PurchaseInStoreKeepsConsistent(s);
      } else if kind == "PICK-UP" {
        assert ProcessMessage(s, message) == HandlePickUp(s, email);
        PickUpKeepsConsistent(s, email);
      }
    }
  }

  /** Every message moves the stock count and the balance by exactly what its reply names,
      plus the service fee when it hands over a bike that counted servicing days, and no
      servicing-day counter moves. */
  lemma MessageMoves(s: Shop, message: Option<string>)
    requires Consistent(s)
    ensures MovesBy(s, ProcessMessage(s, message))
  {
    if message.Some? && |message.value| > 0 {
      var kind := SplitType(message.value).0;
      var email := SplitType(message.value).1;
      if kind == "DELIVERY" {
        assert ProcessMessage(s, message) == HandleDelivery(s);
        DeliveryMoves(s);
      } else if kind == "DROP-OFF" {
        assert ProcessMessage(s, message) == HandleDropOff(s, email);
        DropOffMoves(s, email);
      } else if kind == "PURCHASE-ONLINE" {
        assert ProcessMessage(s, message) == HandlePurchaseOnline(s, email);
        PurchaseOnlineMoves(s, email);
      } else if kind == "PURCHASE-IN-STORE" {
        assert ProcessMessage(s, message) == HandlePurchaseInStore(s);
        PurchaseInStoreMoves(s);
      } else if kind == "PICK-UP" {
        assert ProcessMessage(s, message) == HandlePickUp(s, email);
        PickUpMoves(s, email);
      } else {
        RefusedChanges(InvalidMessageType);
      }
    } else {
      RefusedChanges(InvalidMessage);
    }
  }

  /** In a consistent shop a message changes the shop exactly when its reply is an
      acceptance: every refusal, including the ones the controller reports as "not
      available", leaves the shop as it was. */
  lemma RefusedIffUnchanged(s: Shop, message: Option<string>)
    requires Consistent(s)
    ensures var r := ProcessMessage(s, message);
      Accepted(r.reply) <==> r.shop != s
  {
    if message.Some? && |message.value| > 0 {
      var kind := SplitType(message.value).0;
      var email := SplitType(message.value).1;
      if kind == "DELIVERY" {
        assert ProcessMessage(s, message) == HandleDelivery(s);
        DeliveryChangesIffAccepted(s);
      } else if kind == "DROP-OFF" {
        assert ProcessMessage(s, message) == HandleDropOff(s, email);
        DropOffChangesIffAccepted(s, email);
      } else if kind == "PURCHASE-ONLINE" {
        assert ProcessMessage(s, message) == HandlePurchaseOnline(s, email);
        OnlineChangesIffAccepted(s, email);
      } else if kind == "PURCHASE-IN-STORE" {
        assert ProcessMessage(s, message) == HandlePurchaseInStore(s);
        InStoreChangesIffAccepted(s);
      } else if kind == "PICK-UP" {
        assert ProcessMessage(s, message) == HandlePickUp(s, email);
        PickUpChangesIffAccepted(s, email);
      }
    }
  }

  lemma DeliveryChangesIffAccepted(s: Shop)
    requires Consistent(s)
    ensures var r := HandleDelivery(s);
      Accepted(r.reply) <==> r.shop != s
  {
    var r := HandleDelivery(s);
    if Accepted(r.reply) {
      DeliveredTotal(s, r.shop);
    }
  }

  lemma DropOffChangesIffAccepted(s: Shop, email: Option<string>)
    requires Consistent(s)
    ensures var r := HandleDropOff(s, email);
      Accepted(r.reply) <==> r.shop != s
  {
    var r := HandleDropOff(s, email);
    if Accepted(r.reply) {
      DroppedOffTotal(s, r.shop, email.value);
    }
  }

  lemma OnlineChangesIffAccepted(s: Shop, email: Option<string>)
    requires Consistent(s)
    ensures var r := HandlePurchaseOnline(s, email);
      Accepted(r.reply) <==> r.shop != s
  {
    var r := HandlePurchaseOnline(s, email);
    if Accepted(r.reply) {
      assert r.shop.account.balance == s.account.balance + SalePrice;
    } else if email.Some? && |s.inventory.available| > 0 {
      HeadIsAvailable(s);
    }
  }

  lemma InStoreChangesIffAccepted(s: Shop)
    requires Consistent(s)
    ensures var r := HandlePurchaseInStore(s);
      Accepted(r.reply) <==> r.shop != s
  {
    var r := HandlePurchaseInStore(s);
    if Accepted(r.reply) {
      assert r.shop.account.balance == s.account.balance + SalePrice;
    } else if |s.inventory.available| > 0 {
      HeadIsAvailable(s);
    }
  }

  lemma PickUpChangesIffAccepted(s: Shop, email: Option<string>)
    requires Consistent(s)
    ensures var r := HandlePickUp(s, email);
      Accepted(r.reply) <==> r.shop != s
  {
    var r := HandlePickUp(s, email);
    if Accepted(r.reply) {
      var e := email.value;
      var ids := s.customers[e].bikes;
      assert FirstAwaitingPickup(s.bikes, ids).Some?;
      var id := ids[FirstAwaitingPickup(s.bikes, ids).value];
      CollectedBikeIsShelved(s, e);
      RemoveFirstLength(s.inventory.awaitingPickup, id);
      assert |r.shop.inventory.awaitingPickup| == |s.inventory.awaitingPickup| - 1;
    }
  }

  /** The two limits the controller keeps: the balance never goes below zero and the
      shop never holds more than 100 bikes. */
  predicate Bounded(s: Shop) {
    s.account.balance >= 0 && Total(s.inventory) <= DeliverySpaceLimit + DeliverySize
  }

  /** An accepted DELIVERY passed both of its guards, and an accepted DROP-OFF passed its
      capacity guard. */
  lemma AcceptanceGuards(s: Shop, message: Option<string>)
    requires Wf(s)
    ensures var r := ProcessMessage(s, message);
      && (r.reply == DeliveryAccepted ==>
            Total(s.inventory) <= DeliverySpaceLimit && s.account.balance >= DeliveryMinCash)
      && (r.reply.DropOffAccepted? ==> Total(s.inventory) <= DropOffSpaceLimit)
  {
    if message.Some? && |message.value| > 0 {
      var kind := SplitType(message.value).0;
      var email := SplitType(message.value).1;
      if kind == "DELIVERY" {
      } else if kind == "DROP-OFF" {
      } else if kind == "PURCHASE-ONLINE" {
        var r := HandlePurchaseOnline(s, email);
        assert !r.reply.DropOffAccepted? && r.reply != DeliveryAccepted;
      } else if kind == "PURCHASE-IN-STORE" {
        var r := HandlePurchaseInStore(s);
        assert !r.reply.DropOffAccepted? && r.reply != DeliveryAccepted;
      } else if kind == "PICK-UP" {
        var r := HandlePickUp(s, email);
        assert !r.reply.DropOffAccepted? && r.reply != DeliveryAccepted;
      }
    }
  }

  /** No message takes a bounded, consistent shop out of its bounds. */
  lemma MessageKeepsBounded(s: Shop, message: Option<string>)
    requires Consistent(s) && Bounded(s)
    ensures Bounded(ProcessMessage(s, message).shop)
  {
    var r := ProcessMessage(s, message);
    MessageMoves(s, message);
    AcceptanceGuards(s, message);
    if r.reply.DropOffAccepted? || r.reply.OnlineAccepted? || r.reply.PickUpAccepted? {
      AcceptedChanges(r.reply.email);
    } else if Accepted(r.reply) {
      AcceptedChanges("");
    } else {
      RefusedChanges(r.reply);
    }
  }

  /** The capacity limit is 100, not 99: a shop holding 99 bikes accepts a drop-off and
      then holds 100. */
  lemma DropOffFillsTo100(s: Shop, e: string)
    requires Wf(s) && Total(s.inventory) == DropOffSpaceLimit
    ensures var r := HandleDropOff(s, Some(e));
      r.reply == DropOffAccepted(e) && Total(r.shop.inventory) == 100
  {
    DroppedOffTotal(s, HandleDropOff(s, Some(e)).shop, e);
  }

  /** A shop holding 90 bikes with at least 10000 in the account accepts a delivery and
      then holds 100. */
  lemma DeliveryFillsTo100(s: Shop)
    requires Wf(s) && Total(s.inventory) == DeliverySpaceLimit && s.account.balance >= DeliveryMinCash
    ensures var r := HandleDelivery(s);
      r.reply == DeliveryAccepted && Total(r.shop.inventory) == 100
  {
    DeliveredTotal(s, HandleDelivery(s).shop);
  }

  /** "DROP-OFF " carries the empty email, which the controller does not reject: below
      capacity the bike is booked in under "". */
  lemma EmptyEmailDropOffAccepted(s: Shop)
    requires Wf(s) && Total(s.inventory) <= DropOffSpaceLimit
    ensures ProcessMessage(s, Some("DROP-OFF ")).reply == DropOffAccepted("")
  {
    DispatchByType(s, "DROP-OFF", Some(""));
    DropOffWithEmptyEmail();
  }

  lemma DropOffWithEmptyEmail()
    ensures Compose("DROP-OFF", Some("")) == "DROP-OFF "
  {
  }
}
