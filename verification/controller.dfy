/** The shop controller: one step takes the shop and a message text to a new shop and a
    reply text. A message is a type word, optionally followed by a space and a customer
    email; one function handles each of the five message types. */
module Controller {
  import opened Wrappers
  import opened Lists
  import opened Bikes
  import BikeStates
  import opened Inventories
  import opened BankAccounts
  import opened Customers

  /** Bikes per delivery, what a delivery costs, and the cash it needs. */
  const DeliverySize: nat := 10
  const DeliveryCost: int := 5000
  const DeliveryMinCash: int := 10000
  /** A delivery is refused when more than this many bikes are in stock. */
  const DeliverySpaceLimit: nat := 90
  /** A drop-off is refused when more than this many bikes are in stock. */
  const DropOffSpaceLimit: nat := 99
  /** The price of a bike, in store or online, and the fee for a serviced bike. */
  const SalePrice: int := 1000
  const ServiceFee: int := 100

  /** The whole shop: every bike ever created, keyed by identity; the inventory lists; the
      bank account; the customer records keyed by email; the next unused identity. */
  datatype Shop = Shop(
    bikes: map<BikeId, Bike>,
    inventory: Inventory,
    account: Account,
    customers: map<string, Customer>,
    nextId: BikeId)

  /** The shop after a message, and the reply text the controller returns. */
  datatype Outcome = Outcome(shop: Shop, reply: Reply)

  /** Every identity the shop refers to names a bike, and no bike has an identity at or past
      `nextId` (so `nextId` is fresh). Java references always denote an object; this is the
      counterpart for identities. */
  predicate Wf(s: Shop) {
    && (forall id :: id in s.bikes ==> id < s.nextId)
    && (forall id :: id in s.inventory.available ==> id in s.bikes)
    && (forall id :: id in s.inventory.servicing ==> id in s.bikes)
    && (forall id :: id in s.inventory.awaitingPickup ==> id in s.bikes)
    && (forall e, id :: e in s.customers && id in s.customers[e].bikes ==> id in s.bikes)
  }

  /** The controller's replies, one per distinct Java result string. */
  datatype Reply =
    | InvalidMessage
    | InvalidMessageType
    | NoSpaceNoCash
    | NoSpace
    | NoCash
    | DeliveryAccepted
    | InvalidEmail
    | DropOffAccepted(email: string)
    | UnknownDropOffError
    | NotAvailableForPurchase
    | NoBikesAvailable
    | OnlineAccepted(email: string)
    | UnknownOnlinePurchaseError
    | InStoreAccepted
    | NoCustomer(email: string)
    | NoMatchingBike(email: string)
    | PickUpAccepted(email: string)

  /** The exact text the controller returns for each reply: an acceptance names the
      operation and what it did, a failure is "FAILURE: " followed by the reason. Every text
      ends with a full stop. A reply about a customer is fixed words that depend only on
      the kind of reply, then the customer's email, then the full stop. */
  function Text(r: Reply): (text: string)
    ensures Accepted(r) ==> Operation(r) + " accepted: " <= text
    ensures !Accepted(r) ==> "FAILURE: " <= text
    ensures |text| > 0 && text[|text| - 1] == '.'
    ensures NamesCustomer(r) ==> text == Lead(r) + r.email + "."
    ensures NamesCustomer(r) ==> EndsWithEmail(text, r.email)
  {
    if Accepted(r) then
      var head := Operation(r) + " accepted: ";
      var effect := Effect(r);
      PrefixOfJoin(head, effect);
      JoinKeepsStop(head, effect);
      if NamesCustomer(r) then
        Regroup(head, Preamble(r), r.email);
        Closed(Lead(r), r.email);
        head + effect
      else head + effect
    else
      var detail := FailureDetail(r);
      FailureStart(detail);
      if NamesCustomer(r) then
        Regroup("FAILURE", ": " + Preamble(r), r.email);
        Closed(Lead(r), r.email);
        "FAILURE" + detail
      else "FAILURE" + detail
  }

  /** The words a reply about a customer puts before the email, in the whole text. */
  function Lead(r: Reply): string
    requires NamesCustomer(r)
  {
    if Accepted(r) then Operation(r) + " accepted: " + Preamble(r) else "FAILURE" + (": " + Preamble(r))
  }

  /** The words a reply about a customer puts before the email, after the operation or
      after "FAILURE: ". */
  function Preamble(r: Reply): string
    requires NamesCustomer(r)
  {
    match r
    case DropOffAccepted(_) => "Bike added for servicing for "
    case OnlineAccepted(_) => "Bike sold to "
    case PickUpAccepted(_) => "Bike given to "
    case NoCustomer(_) => "No customer with email: "
    case NoMatchingBike(_) => "No bike matching customer email: "
    case _ => ""
  }

  /** The email can be read back from the text: two replies of the same kind have the
      same text exactly when they name the same customer. */
  lemma TextDeterminesEmail(r: Reply, e: string)
    requires NamesCustomer(r)
    ensures Text(r.(email := e)) == Text(r) <==> e == r.email
  {
    LeadIgnoresEmail(r, e);
    if Text(r.(email := e)) == Text(r) {
      CancelFrame(Lead(r), e, r.email);
    }
  }

  /** The words in front of the email depend only on the kind of reply. */
  lemma LeadIgnoresEmail(r: Reply, e: string)
    requires NamesCustomer(r)
    ensures NamesCustomer(r.(email := e)) && Lead(r.(email := e)) == Lead(r)
  {
  }

  /** Words in front of a text that ends with an email and a full stop; a proof aid,
      stated apart so that it is proved without the controller's facts in scope. */
  lemma Regroup(a: string, b: string, e: string)
    ensures a + (b + e + ".") == (a + b) + e + "."
  {
  }

  /** The same words before and the same full stop after: the middles agree. */
  lemma CancelFrame(a: string, e1: string, e2: string)
    requires a + e1 + "." == a + e2 + "."
    ensures e1 == e2
  {
    assert |e1| == |e2|;
    assert e1 == (a + e1 + ".")[|a|..|a| + |e1|];
    assert e2 == (a + e2 + ".")[|a|..|a| + |e2|];
  }

  /** The replies that name a customer's email. */
  predicate NamesCustomer(r: Reply) {
    r.DropOffAccepted? || r.OnlineAccepted? || r.PickUpAccepted? || r.NoCustomer? || r.NoMatchingBike?
  }

  /** `text` ends with `e` and then a full stop. */
  predicate EndsWithEmail(text: string, e: string) {
    |e| < |text| && text[|text| - 1] == '.' && text[|text| - 1 - |e| .. |text| - 1] == e
  }

  /** A text closed by an email and a full stop ends with that email. */
  lemma Closed(a: string, e: string)
    ensures EndsWithEmail(a + e + ".", e)
  {
    var t := a + e + ".";
    assert t[|t| - 1 - |e| .. |t| - 1] == e;
  }

  /** Putting text in front keeps the last character. */
  lemma JoinKeepsStop(a: string, b: string)
    requires |b| > 0
    ensures (a + b)[|a + b| - 1] == b[|b| - 1]
  {
  }

  /** "FAILURE" followed by a detail that starts ": " starts "FAILURE: ", and still ends
      with the detail's full stop. */
  lemma FailureStart(detail: string)
    requires ": " <= detail && |detail| > 0 && detail[|detail| - 1] == '.'
    ensures "FAILURE: " <= "FAILURE" + detail
    ensures ("FAILURE" + detail)[|"FAILURE" + detail| - 1] == '.'
  {
    var t := "FAILURE" + detail;
    assert t[..9] == "FAILURE" + detail[..2];
  }

  /** The five replies that report an accepted message. */
  predicate Accepted(r: Reply) {
    r.DeliveryAccepted? || r.DropOffAccepted? || r.OnlineAccepted? || r.InStoreAccepted? || r.PickUpAccepted?
  }

  /** The operation an acceptance reports. */
  function Operation(r: Reply): (name: string)
    requires Accepted(r)
    ensures |name| > 0 && name[0] in {'D', 'P'}
  {
    match r
    case DeliveryAccepted => "Delivery"
    case DropOffAccepted(_) => "Drop-off"
    case OnlineAccepted(_) => "Purchase online"
    case InStoreAccepted => "Purchase in-store"
    case PickUpAccepted(_) => "Pick-up"
  }

  /** What an accepted message did, as the acceptance text reports it. */
  function Effect(r: Reply): (effect: string)
    requires Accepted(r)
    ensures |effect| > 0 && effect[|effect| - 1] == '.'
    ensures NamesCustomer(r) ==> effect == Preamble(r) + r.email + "."
  {
    match r
    case DeliveryAccepted => "10 bikes added."
    case DropOffAccepted(e) => "Bike added for servicing for " + e + "."
    case OnlineAccepted(e) => "Bike sold to " + e + "."
    case InStoreAccepted => "Bike sold."
    case PickUpAccepted(e) => "Bike given to " + e + "."
  }

  /** What follows "FAILURE" in the text of a reply that is not an acceptance. */
  function FailureDetail(r: Reply): (detail: string)
    requires !Accepted(r)
    ensures ": " <= detail
    ensures |detail| > 0 && detail[|detail| - 1] == '.'
    ensures NamesCustomer(r) ==> detail == ": " + Preamble(r) + r.email + "."
  {
    var reason := Reason(r);
    PrefixOfJoin(": ", reason);
    JoinKeepsStop(": ", reason);
    if NamesCustomer(r) then
      assert ": " + reason == ": " + Preamble(r) + r.email + ".";
      ": " + reason
    else ": " + reason
  }

  /** Why a refused message was refused, as the failure text words it. */
  function Reason(r: Reply): (reason: string)
    requires !Accepted(r)
    ensures |reason| > 0 && reason[|reason| - 1] == '.'
    ensures NamesCustomer(r) ==> reason == Preamble(r) + r.email + "."
  {
    match r
    case InvalidMessage => "Invalid message."
    case InvalidMessageType => "Invalid message type."
    case NoSpaceNoCash => "Not enough space and not enough cash to purchase stock."
    case NoSpace => "Not enough space."
    case NoCash => "Not enough cash to purchase stock."
    case InvalidEmail => "Invalid email."
    case UnknownDropOffError => "Unknown drop-off error."
    case NotAvailableForPurchase => "Bike is not available for purchase."
    case NoBikesAvailable => "No bikes available."
    case UnknownOnlinePurchaseError => "Unknown online purchase error."
    case NoCustomer(e) => "No customer with email: " + e + "."
    case NoMatchingBike(e) => "No bike matching customer email: " + e + "."
  }

  /** The controller logs a reply as a failure when its text starts with "FAILURE"; that test
      picks out exactly the replies that are not acceptances. */
  lemma AcceptedIffNotFailureText(r: Reply)
    ensures Accepted(r) <==> !("FAILURE" <= Text(r))
  {
    if Accepted(r) {
      var name := Operation(r);
      DifferentStart("FAILURE", name, " accepted: " + Effect(r));
    } else {
      PrefixOfJoin("FAILURE", FailureDetail(r));
    }
  }

  lemma PrefixOfJoin(a: string, b: string)
    ensures a <= a + b
  {
    assert (a + b)[..|a|] == a;
  }

  /** Texts whose first letters differ are not prefixes of one another. */
  lemma DifferentStart(a: string, b: string, c: string)
    requires |a| > 0 && |b| > 0 && a[0] != b[0]
    ensures !(a <= b + c)
  {
    assert (b + c)[0] == b[0];
  }

  /** `message.split(" ", 2)`: the message type is the text before the first space and the
      email is everything after it, possibly empty; with no space there is no email. */
  function SplitType(message: string): (r: (string, Option<string>))
    ensures ' ' !in r.0
    ensures r.1.None? <==> ' ' !in message
    ensures r.1.None? ==> r.0 == message
    ensures r.1.Some? ==> r.0 + " " + r.1.value == message
  {
    if |message| == 0 then ("", None)
    else if message[0] == ' ' then
      assert message == " " + message[1..];
      ("", Some(message[1..]))
    else
      var (t, rest) := SplitType(message[1..]);
      assert message == [message[0]] + message[1..];
      ([message[0]] + t, rest)
  }

  /** The split is the unique way to read a message as a space-free type, one space, and
      the rest: joining a type and an email and splitting again gives both back. */
  lemma {:induction false} SplitTypeOfJoin(t: string, e: string)
    requires ' ' !in t
    ensures SplitType(t + " " + e) == (t, Some(e))
  {
    if |t| > 0 {
      assert (t + " " + e)[1..] == t[1..] + " " + e;
      SplitTypeOfJoin(t[1..], e);
      assert [t[0]] + t[1..] == t;
    } else {
      assert (t + " " + e)[1..] == e;
    }
  }

  /** The customers map after `customers.putIfAbsent(email, new Customer(email))`. */
  function Register(customers: map<string, Customer>, e: string): map<string, Customer> {
    if e in customers then customers else customers[e := NewCustomer(e)]
  }

  /** Registers `e` if needed, then appends `id` to that customer's list. */
  function AssignBike(customers: map<string, Customer>, e: string, id: BikeId): (r: map<string, Customer>)
    ensures r.Keys == customers.Keys + {e}
    ensures forall c :: c in customers && c != e ==> r[c] == customers[c]
    ensures e in customers ==> r[e] == customers[e].(bikes := customers[e].bikes + [id])
    ensures e !in customers ==> r[e] == Customer(e, [id])
  {
    var registered := Register(customers, e);
    registered[e := AddBike(registered[e], id)]
  }

  /** The bikes held for `e`, or none when there is no record. */
  function HeldFor(s: Shop, e: string): seq<BikeId> {
    if e in s.customers then s.customers[e].bikes else []
  }

  /** `BikeFactory.createBike`: a fresh identity for a new Available bike with no email. The
      last clause spells out the new shop so that the handlers' proofs need not unfold it. */
  function CreateBike(s: Shop): (r: (Shop, BikeId))
    requires Wf(s)
    ensures Wf(r.0)
    ensures r.1 == s.nextId && r.1 !in s.bikes
    ensures r.0 == s.(bikes := s.bikes[r.1 := NewBike(Available)], nextId := s.nextId + 1)
  {
    (s.(bikes := s.bikes[s.nextId := NewBike(Available)], nextId := s.nextId + 1), s.nextId)
  }

  /** DELIVERY: refused when more than 90 bikes are in stock or less than 10000 is in the
      account (both reasons in one reply when both hold), and then nothing changes. */
  function HandleDelivery(s: Shop): (r: Outcome)
    requires Wf(s)
    ensures Wf(r.shop)
    ensures Accepted(r.reply) <==> Total(s.inventory) <= DeliverySpaceLimit && s.account.balance >= DeliveryMinCash
    ensures !Accepted(r.reply) ==> r.shop == s
    ensures Total(s.inventory) > DeliverySpaceLimit && s.account.balance < DeliveryMinCash ==> r.reply == NoSpaceNoCash
    ensures Total(s.inventory) > DeliverySpaceLimit && s.account.balance >= DeliveryMinCash ==> r.reply == NoSpace
    ensures Total(s.inventory) <= DeliverySpaceLimit && s.account.balance < DeliveryMinCash ==> r.reply == NoCash
    ensures Accepted(r.reply) ==> r.reply == DeliveryAccepted && Delivered(s, r.shop)
  {
    var notEnoughSpace := Total(s.inventory) > DeliverySpaceLimit;
    var notEnoughCash := s.account.balance < DeliveryMinCash;
    if notEnoughSpace && notEnoughCash then Outcome(s, NoSpaceNoCash)
    else if notEnoughSpace then Outcome(s, NoSpace)
    else if notEnoughCash then Outcome(s, NoCash)
    else Outcome(Deliver(s), DeliveryAccepted)
  }

  /** One turn of the delivery loop: a bike from the factory joins the end of the
      available list. */
  function StockOne(s: Shop): (t: Shop)
    requires Wf(s)
    ensures Wf(t)
    ensures Stocked(s, t, 1)
  {
    var created := CreateBike(s);
    assert Range(s.nextId, 1) == [s.nextId];
    created.0.(inventory := Add(created.0.inventory, AvailableShelf, created.1))
  }

  /** `n` fresh Available bikes without email join the end of the available list, in the
      order of their identities; nothing else changes. */
  ghost predicate Stocked(s: Shop, t: Shop, n: nat) {
    && t.nextId == s.nextId + n
    && t.inventory.available == s.inventory.available + Range(s.nextId, n)
    && t.inventory.servicing == s.inventory.servicing
    && t.inventory.awaitingPickup == s.inventory.awaitingPickup
    && t.account == s.account
    && t.customers == s.customers
    && (forall id :: id in t.bikes <==> id in s.bikes || s.nextId <= id < t.nextId)
    && (forall id :: id in s.bikes ==> t.bikes[id] == s.bikes[id])
    && (forall id :: s.nextId <= id < t.nextId ==> t.bikes[id] == NewBike(Available))
  }

  /** One bike and then `n - 1` more is `n` bikes. */
  lemma StockedStep(s: Shop, u: Shop, t: Shop, n: nat)
    requires Wf(s) && n > 0 && Stocked(s, u, 1) && Stocked(u, t, n - 1)
    ensures Stocked(s, t, n)
  {
    assert Range(s.nextId, n) == [s.nextId] + Range(s.nextId + 1, n - 1);
    assert u.inventory.available == s.inventory.available + [s.nextId];
    assert t.inventory.available == s.inventory.available + ([s.nextId] + Range(s.nextId + 1, n - 1));
  }

  /** The delivery loop: `n` turns of `StockOne`. */
  function Restock(s: Shop, n: nat): (r: Shop)
    requires Wf(s)
    ensures Wf(r)
    ensures Stocked(s, r, n)
    decreases n
  {
    if n == 0 then
      assert s.inventory.available + [] == s.inventory.available;
      s
    else
      var u := StockOne(s);
      var r := Restock(u, n - 1);
      StockedStep(s, u, r, n);
      r
  }

  /** What a successful delivery does: ten bikes are stocked as by the loop and 5000
      leaves the account; nothing else changes. */
  ghost predicate Delivered(s: Shop, t: Shop) {
    && Stocked(s, t.(account := s.account), DeliverySize)
    && t.account.balance == s.account.balance - DeliveryCost
  }

  /** The accepted delivery: ten bikes from the factory, then the 5000 withdrawal. */
  function Deliver(s: Shop): (t: Shop)
    requires Wf(s) && s.account.balance >= DeliveryMinCash
    ensures Wf(t)
    ensures Delivered(s, t)
  {
    var stocked := Restock(s, DeliverySize);
    stocked.(account := Withdraw(stocked.account, DeliveryCost))
  }

  /** The customer side of a drop-off or an online sale: `e` has a record afterwards (a new
      one, with that email, if there was none), `id` is appended to it, and every other
      record is as before. */
  ghost predicate Assigned(s: Shop, t: Shop, e: string, id: BikeId) {
    && t.customers.Keys == s.customers.Keys + {e}
    && (forall c :: c in s.customers && c != e ==> t.customers[c] == s.customers[c])
    && t.customers[e].bikes == HeldFor(s, e) + [id]
    && t.customers[e].email == (if e in s.customers then s.customers[e].email else e)
  }

  /** What a successful drop-off does: a fresh bike, being serviced and with no email (the
      drop-off transition clears the email just set), joins the end of the servicing list
      and of the customer's list; the account is untouched. */
  ghost predicate DroppedOff(s: Shop, t: Shop, e: string) {
    var id := s.nextId;
    && t.nextId == id + 1
    && t.bikes == s.bikes[id := Bike(BeingServiced, None, 0)]
    && t.inventory.servicing == s.inventory.servicing + [id]
    && t.inventory.available == s.inventory.available
    && t.inventory.awaitingPickup == s.inventory.awaitingPickup
    && t.account == s.account
    && Assigned(s, t, e, id)
  }

  /** DROP-OFF: accepted exactly when an email is given (even an empty one) and at most 99
      bikes are in stock; otherwise refused with no change. The catch-all error reply is
      never produced. */
  function HandleDropOff(s: Shop, email: Option<string>): (r: Outcome)
    requires Wf(s)
    ensures Wf(r.shop)
    ensures Accepted(r.reply) <==> email.Some? && Total(s.inventory) <= DropOffSpaceLimit
    ensures email.None? ==> r == Outcome(s, InvalidEmail)
    ensures email.Some? && Total(s.inventory) > DropOffSpaceLimit ==> r == Outcome(s, NoSpace)
    ensures r.reply != UnknownDropOffError
    ensures Accepted(r.reply) ==> r.reply == DropOffAccepted(email.value) && DroppedOff(s, r.shop, email.value)
  {
    if email.Some? && Total(s.inventory) <= DropOffSpaceLimit then
      Outcome(DropOffBike(s, email.value), DropOffAccepted(email.value))
    else if email.None? then Outcome(s, InvalidEmail)
    else if Total(s.inventory) > DropOffSpaceLimit then Outcome(s, NoSpace)
    else Outcome(s, UnknownDropOffError)
  }

  /** The accepted drop-off: a new bike from the factory gets the email, goes through the
      drop-off transition, joins the servicing list and the customer's list. */
  function DropOffBike(s: Shop, e: string): (t: Shop)
    requires Wf(s)
    ensures Wf(t)
    ensures DroppedOff(s, t, e)
  {
    var created := CreateBike(s);
    var s1 := created.0;
    var id := created.1;
    var t := s1.(bikes := s1.bikes[id := ServiceBike(s1.bikes[id], e)],
                 inventory := Add(s1.inventory, ServicingShelf, id),
                 customers := AssignBike(s1.customers, e, id));
    DroppedOffKeepsWf(s, t, e);
    t
  }

  /** An Available bike given the customer's email and then sent through the drop-off
      transition: being serviced, and with the email cleared again. */
  function ServiceBike(b: Bike, e: string): (r: Bike)
    requires b.status == Available
    ensures r == b.(status := BeingServiced, associatedEmail := None)
  {
    BikeStates.DropOff(SetAssociatedEmail(b, Some(e))).value
  }

  lemma DroppedOffKeepsWf(s: Shop, t: Shop, e: string)
    requires Wf(s) && DroppedOff(s, t, e)
    ensures Wf(t)
  {
    forall c, x | c in t.customers && x in t.customers[c].bikes ensures x in t.bikes {
      if c == e {
        assert x in HeldFor(s, e) || x == s.nextId;
      }
    }
  }

  /** The oldest available bike exists and is in fact Available. */
  predicate HeadAvailable(s: Shop)
    requires Wf(s)
  {
    |s.inventory.available| > 0 && s.bikes[s.inventory.available[0]].status == Available
  }

  /** What a successful online sale does: the oldest available bike leaves the available
      list, is tied to the email, awaits pickup at the end of that list and of the
      customer's list, and the account gains 1000. */
  ghost predicate SoldOnline(s: Shop, t: Shop, e: string)
    requires Wf(s) && |s.inventory.available| > 0
  {
    var id := s.inventory.available[0];
    && t.nextId == s.nextId
    && t.bikes == s.bikes[id := s.bikes[id].(status := AwaitingPickup, associatedEmail := Some(e))]
    && t.inventory.available == RemoveFirst(s.inventory.available[1..], id)
    && t.inventory.servicing == s.inventory.servicing
    && t.inventory.awaitingPickup == s.inventory.awaitingPickup + [id]
    && t.account.balance == s.account.balance + SalePrice
    && Assigned(s, t, e, id)
  }

  /** PURCHASE-ONLINE: needs an email and an available bike. The oldest available bike is
      taken off the live list before its state is checked, so if it were not Available the
      reply is a failure yet the bike is gone from the list. The catch-all error reply is
      never produced. */
  function HandlePurchaseOnline(s: Shop, email: Option<string>): (r: Outcome)
    requires Wf(s)
    ensures Wf(r.shop)
    ensures Accepted(r.reply) <==> email.Some? && HeadAvailable(s)
    ensures email.None? ==> r == Outcome(s, InvalidEmail)
    ensures email.Some? && |s.inventory.available| == 0 ==> r == Outcome(s, NoBikesAvailable)
    ensures email.Some? && |s.inventory.available| > 0 && !HeadAvailable(s) ==>
      r.reply == NotAvailableForPurchase &&
      r.shop == s.(inventory := s.inventory.(available := s.inventory.available[1..]))
    ensures r.reply != UnknownOnlinePurchaseError
    ensures Accepted(r.reply) ==> r.reply == OnlineAccepted(email.value) && SoldOnline(s, r.shop, email.value)
  {
    if email.Some? && |s.inventory.available| > 0 then TryOnline(s, email.value)
    else if email.None? then Outcome(s, InvalidEmail)
    else if |s.inventory.available| == 0 then Outcome(s, NoBikesAvailable)
    else Outcome(s, UnknownOnlinePurchaseError)
  }

  /** The online purchase once an email is given and the available list is not empty: the
      head comes off the live list, and is sold if it is Available. */
  function TryOnline(s: Shop, e: string): (r: Outcome)
    requires Wf(s) && |s.inventory.available| > 0
    ensures Wf(r.shop)
    ensures HeadAvailable(s) ==> r.reply == OnlineAccepted(e) && SoldOnline(s, r.shop, e)
    ensures !HeadAvailable(s) ==>
      r == Outcome(s.(inventory := s.inventory.(available := s.inventory.available[1..])), NotAvailableForPurchase)
  {
    var taken := TakeFirst(s.inventory, AvailableShelf);
    if s.bikes[taken.0].status == Available then
      Outcome(SellOnline(s, e), OnlineAccepted(e))
    else
      Outcome(s.(inventory := taken.1), NotAvailableForPurchase)
  }

  /** The accepted online sale: the head taken off the live list gets the email, goes
      through the purchase transition, is removed from the available list again (by then a
      no-op), joins the awaiting list; 1000 is deposited; the customer's list gains it. */
  function SellOnline(s: Shop, e: string): (t: Shop)
    requires Wf(s) && HeadAvailable(s)
    ensures Wf(t)
    ensures SoldOnline(s, t, e)
  {
    var moved := ShelveSoldHead(s.inventory);
    var id := moved.0;
    var t := s.(bikes := s.bikes[id := SellBike(s.bikes[id], Some(e))],
                inventory := moved.1,
                account := Deposit(s.account, SalePrice),
                customers := AssignBike(s.customers, e, id));
    SoldOnlineKeepsWf(s, t, e);
    t
  }

  /** The shelves after an online sale: the head is taken off the live available list,
      removed from it again (a no-op when the list has no second copy), and appended to the
      awaiting list. */
  function ShelveSoldHead(inv: Inventory): (r: (BikeId, Inventory))
    requires |inv.available| > 0
    ensures r.0 == inv.available[0]
    ensures r.1.available == RemoveFirst(inv.available[1..], r.0)
    ensures r.1.servicing == inv.servicing
    ensures r.1.awaitingPickup == inv.awaitingPickup + [r.0]
  {
    var taken := TakeFirst(inv, AvailableShelf);
    (taken.0, Add(Remove(taken.1, AvailableShelf, taken.0), AwaitingPickupShelf, taken.0))
  }

  /** An Available bike, optionally given an email, through the purchase transition: it
      now awaits pickup and keeps its servicing days. */
  function SellBike(b: Bike, email: Option<string>): (r: Bike)
    requires b.status == Available
    ensures r.status == AwaitingPickup
    ensures email.Some? ==> r.associatedEmail == email
    ensures email.None? ==> r.associatedEmail == b.associatedEmail
    ensures r.daysInServicing == b.daysInServicing
  {
    var tagged := if email.Some? then SetAssociatedEmail(b, email) else b;
    BikeStates.Purchase(tagged).value
  }

  lemma SoldOnlineKeepsWf(s: Shop, t: Shop, e: string)
    requires Wf(s) && HeadAvailable(s) && SoldOnline(s, t, e)
    ensures Wf(t)
  {
    var id := s.inventory.available[0];
    assert t.bikes.Keys == s.bikes.Keys;
    forall x | x in t.inventory.available ensures x in t.bikes {
      assert x in s.inventory.available[1..];
    }
    forall x | x in t.inventory.awaitingPickup ensures x in t.bikes {
      assert x in s.inventory.awaitingPickup || x == id;
    }
    forall c, x | c in t.customers && x in t.customers[c].bikes ensures x in t.bikes {
      if c == e {
        assert x in HeldFor(s, e) + [id];
        assert x in HeldFor(s, e) || x == id;
      } else {
        assert c in s.customers && t.customers[c] == s.customers[c];
      }
    }
  }

  /** What a successful in-store sale does: the oldest available bike leaves the available
      list and is marked as awaiting pickup, but joins no list, and the account gains 1000. */
  ghost predicate SoldInStore(s: Shop, t: Shop)
    requires Wf(s) && |s.inventory.available| > 0
  {
    var id := s.inventory.available[0];
    && t.nextId == s.nextId
    && t.bikes == s.bikes[id := s.bikes[id].(status := AwaitingPickup)]
    && t.inventory.available == RemoveFirst(s.inventory.available[1..], id)
    && t.inventory.servicing == s.inventory.servicing
    && t.inventory.awaitingPickup == s.inventory.awaitingPickup
    && t.account.balance == s.account.balance + SalePrice
    && t.customers == s.customers
  }

  /** PURCHASE-IN-STORE: needs an available bike; as online, the head is taken off the live
      list before its state is checked. */
  function HandlePurchaseInStore(s: Shop): (r: Outcome)
    requires Wf(s)
    ensures Wf(r.shop)
    ensures Accepted(r.reply) <==> HeadAvailable(s)
    ensures |s.inventory.available| == 0 ==> r == Outcome(s, NoBikesAvailable)
    ensures |s.inventory.available| > 0 && !HeadAvailable(s) ==>
      r.reply == NotAvailableForPurchase &&
      r.shop == s.(inventory := s.inventory.(available := s.inventory.available[1..]))
    ensures Accepted(r.reply) ==> r.reply == InStoreAccepted && SoldInStore(s, r.shop)
  {
    if |s.inventory.available| > 0 then TryInStore(s)
    else Outcome(s, NoBikesAvailable)
  }

  /** The in-store purchase once the available list is not empty: the head comes off the
      live list, and is sold if it is Available. */
  function TryInStore(s: Shop): (r: Outcome)
    requires Wf(s) && |s.inventory.available| > 0
    ensures Wf(r.shop)
    ensures HeadAvailable(s) ==> r.reply == InStoreAccepted && SoldInStore(s, r.shop)
    ensures !HeadAvailable(s) ==>
      r == Outcome(s.(inventory := s.inventory.(available := s.inventory.available[1..])), NotAvailableForPurchase)
  {
    var (id, taken) := TakeFirst(s.inventory, AvailableShelf);
    var bike := s.bikes[id];
    if bike.status == Available then
      Outcome(s.(bikes := s.bikes[id := SellBike(bike, None)],
                 inventory := Remove(taken, AvailableShelf, id),
                 account := Deposit(s.account, SalePrice)),
              InStoreAccepted)
    else
      Outcome(s.(inventory := taken), NotAvailableForPurchase)
  }

  /** The position, in list order, of the first bike awaiting pickup. */
  function FirstAwaitingPickup(bikes: map<BikeId, Bike>, ids: seq<BikeId>): (r: Option<nat>)
    requires forall id :: id in ids ==> id in bikes
    ensures r.None? <==> forall i :: 0 <= i < |ids| ==> bikes[ids[i]].status != AwaitingPickup
    ensures r.Some? ==> r.value < |ids| && bikes[ids[r.value]].status == AwaitingPickup
    ensures r.Some? ==> forall i :: 0 <= i < r.value ==> bikes[ids[i]].status != AwaitingPickup
  {
    if |ids| == 0 then None
    else if bikes[ids[0]].status == AwaitingPickup then Some(0)
    else
      match FirstAwaitingPickup(bikes, ids[1..])
      case None => None
      case Some(k) => Some(k + 1)
  }

  /** The customer `e` holds a bike that awaits pickup. */
  predicate HoldsAwaiting(s: Shop, e: string)
    requires Wf(s) && e in s.customers
  {
    exists i :: 0 <= i < |s.customers[e].bikes| && s.bikes[s.customers[e].bikes[i]].status == AwaitingPickup
  }

  /** What a successful pick-up does, for the first bike awaiting pickup in the customer's
      list: it leaves that list and the awaiting list, becomes Available with no email, and
      the account gains the service fee exactly when its servicing-day counter is positive. */
  ghost predicate PickedUp(s: Shop, t: Shop, e: string)
    requires Wf(s) && e in s.customers && FirstAwaitingPickup(s.bikes, s.customers[e].bikes).Some?
  {
    var ids := s.customers[e].bikes;
    var id := ids[FirstAwaitingPickup(s.bikes, ids).value];
    && t.nextId == s.nextId
    && t.bikes == s.bikes[id := s.bikes[id].(status := Available, associatedEmail := None)]
    && t.inventory.available == s.inventory.available
    && t.inventory.servicing == s.inventory.servicing
    && t.inventory.awaitingPickup == RemoveFirst(s.inventory.awaitingPickup, id)
    && t.account.balance == s.account.balance + (if s.bikes[id].daysInServicing > 0 then ServiceFee else 0)
    && t.customers.Keys == s.customers.Keys
    && (forall c :: c in s.customers && c != e ==> t.customers[c] == s.customers[c])
    && t.customers[e].email == s.customers[e].email
    && t.customers[e].bikes == RemoveFirst(ids, id)
  }

  /** The accepted pick-up of the customer's first bike awaiting pickup: it leaves the
      customer's list, goes through the pick-up transition, leaves the awaiting list, and the
      fee is deposited when the bike, now Available, counted servicing days. */
  function HandOver(s: Shop, e: string): (t: Shop)
    requires Wf(s) && e in s.customers && FirstAwaitingPickup(s.bikes, s.customers[e].bikes).Some?
    ensures Wf(t)
    ensures PickedUp(s, t, e)
  {
    var c := s.customers[e];
    var id := c.bikes[FirstAwaitingPickup(s.bikes, c.bikes).value];
    var collected := CollectBike(s.bikes[id]);
    var t := s.(bikes := s.bikes[id := collected],
                inventory := Remove(s.inventory, AwaitingPickupShelf, id),
                account := ChargeFee(s.account, collected),
                customers := ReleaseBike(s.customers, e, id));
    PickedUpKeepsWf(s, t, e);
    t
  }

  /** The $100 service fee is deposited when the collected bike is Available and counted
      servicing days. A step of `HandOver`, named so that its proof stays small; the
      contract only spells out the body. */
  function ChargeFee(a: Account, collected: Bike): (r: Account)
    ensures r.balance == a.balance + (if collected.status == Available && collected.daysInServicing > 0 then ServiceFee else 0)
  {
    if collected.status == Available && collected.daysInServicing > 0 then Deposit(a, ServiceFee) else a
  }

  /** `customer.removeBike(bike)` on the record of `e`: only that record's list changes. A
      step of `HandOver`, named so that its proof stays small. */
  function ReleaseBike(customers: map<string, Customer>, e: string, id: BikeId): (r: map<string, Customer>)
    requires e in customers
    ensures r.Keys == customers.Keys
    ensures forall c :: c in customers && c != e ==> r[c] == customers[c]
    ensures r[e] == customers[e].(bikes := RemoveFirst(customers[e].bikes, id))
  {
    customers[e := RemoveBike(customers[e], id)]
  }

  /** A bike awaiting pickup through the pick-up transition: Available again, with no
      email, and with its servicing days kept. */
  function CollectBike(b: Bike): (r: Bike)
    requires b.status == AwaitingPickup
    ensures r == b.(status := Available, associatedEmail := None)
  {
    BikeStates.PickUp(b).value
  }

  lemma PickedUpKeepsWf(s: Shop, t: Shop, e: string)
    requires Wf(s) && e in s.customers && FirstAwaitingPickup(s.bikes, s.customers[e].bikes).Some?
    requires PickedUp(s, t, e)
    ensures Wf(t)
  {
    assert t.bikes.Keys == s.bikes.Keys;
    forall x | x in t.inventory.awaitingPickup ensures x in t.bikes {
      assert x in s.inventory.awaitingPickup;
    }
    forall c, x | c in t.customers && x in t.customers[c].bikes ensures x in t.bikes {
      if c == e {
        assert x in s.customers[e].bikes;
      } else {
        assert c in s.customers && t.customers[c] == s.customers[c];
      }
    }
  }

  /** PICK-UP: refused, in this order, without an email, without a customer record, and
      when no bike of the customer awaits pickup; refusals change nothing. */
  function HandlePickUp(s: Shop, email: Option<string>): (r: Outcome)
    requires Wf(s)
    ensures Wf(r.shop)
    ensures email.None? ==> r == Outcome(s, InvalidEmail)
    ensures email.Some? && email.value !in s.customers ==> r == Outcome(s, NoCustomer(email.value))
    ensures email.Some? && email.value in s.customers && !HoldsAwaiting(s, email.value) ==>
      r == Outcome(s, NoMatchingBike(email.value))
    ensures Accepted(r.reply) <==> email.Some? && email.value in s.customers && HoldsAwaiting(s, email.value)
    ensures Accepted(r.reply) ==> r.reply == PickUpAccepted(email.value) && PickedUp(s, r.shop, email.value)
  {
    if email.Some? then
      var e := email.value;
      if e in s.customers then
        var c := s.customers[e];
        match FirstAwaitingPickup(s.bikes, c.bikes)
        case Some(i) => Outcome(HandOver(s, e), PickUpAccepted(e))
        case None =>
          Outcome(s, NoMatchingBike(e))
      else
        Outcome(s, NoCustomer(e))
    else
      Outcome(s, InvalidEmail)
  }

  /** The five message types the controller knows. */
  const MessageTypes := {"DELIVERY", "DROP-OFF", "PURCHASE-ONLINE", "PURCHASE-IN-STORE", "PICK-UP"}

  /** `processMessage`: a missing or empty message, or one of an unknown type, is refused with
      no change; otherwise the handler for its type runs, with the email when the message
      has one. DELIVERY and PURCHASE-IN-STORE ignore any email. */
  function ProcessMessage(s: Shop, message: Option<string>): (r: Outcome)
    requires Wf(s)
    ensures Wf(r.shop)
    ensures message.None? || message == Some("") ==> r == Outcome(s, InvalidMessage)
    ensures message.Some? && message.value != "" && SplitType(message.value).0 !in MessageTypes ==>
      r == Outcome(s, InvalidMessageType)
  {
    if message.None? || |message.value| == 0 then Outcome(s, InvalidMessage)
    else
      var (kind, email) := SplitType(message.value);
      if kind == "DELIVERY" then HandleDelivery(s)
      else if kind == "DROP-OFF" then HandleDropOff(s, email)
      else if kind == "PURCHASE-ONLINE" then HandlePurchaseOnline(s, email)
      else if kind == "PURCHASE-IN-STORE" then HandlePurchaseInStore(s)
      else if kind == "PICK-UP" then HandlePickUp(s, email)
      else Outcome(s, InvalidMessageType)
  }
}
