# Bike shop controller, modelled in Dafny

This project models the core of a bicycle-shop simulation written in Java. The
controller receives text messages one at a time:

- `DELIVERY`
- `DROP-OFF <email>`
- `PURCHASE-ONLINE <email>`
- `PURCHASE-IN-STORE`
- `PICK-UP <email>`

Each message updates the shop and returns one reply string. The shop has three parts:

- an inventory of three ordered bike lists: available, being serviced, awaiting pickup;
- a bank account;
- a map from customer email to that customer's ordered list of bikes.

Each bike follows a three-state lifecycle: Available, Being Serviced, Awaiting Pickup. The
state classes implement that lifecycle and throw on an illegal transition.

In the model one message is a pure function, `Controller.ProcessMessage`, from a `Shop`
value and the message text to an `Outcome`. An `Outcome` is the new shop plus a `Reply`,
and `Controller.Text` gives the exact Java string for each reply.

- **Bike identity.** Java tells bikes apart by reference, for example in `List.remove`. In
  the model, bikes are `nat` identities kept in a `bikes` map, and a `nextId` counter
  hands out fresh ones.
- **The event loop.** One simulated day is the fold of `ProcessMessage` over that day's
  messages (`EventLoop.RunDay`). The run starts from the shop that `App.java` builds:
  empty lists and 15000 in the account.

Modules, in dependency order:

- `Wrappers`: `Option` for Java `null`, and `Result` for an operation that may throw.
- `Lists`: `RemoveFirst`, the model of `List.remove(Object)`.
- `Bikes`, `BikeStates`: a bike and its state machine.
- `Customers`, `BankAccounts`, `Inventories`: the three model classes.
- `Controller`: message parsing and the five handlers.
- `ShopInvariant`: the invariant every message keeps, and per-handler bookkeeping.
- `Messages`: the same facts lifted to any message text.
- `EventLoop`: days and runs of days.
- `Scenarios`: two worked days from the opening shop.

The central invariant is `ShopInvariant.Consistent`. It says three things:

- every bike on a shelf list is in that list's state;
- no list repeats a bike;
- customer records hold only bikes that are being serviced or awaiting pickup, and no
  bike is held for two customers.

Under this invariant the "Bike is not available for purchase" branches cannot be reached.
A refused message then changes nothing, and an accepted one changes the shop.

Source paths in the table are relative to the root of the Java repository.

## Model

| member | source | states |
|---|---|---|
| Lists.RemoveFirst | src/main/java/edu/curtin/oose2024s1/assignment2/model/Customer.java:44-48 | `List.remove(Object)`. The result's multiset is the input's minus one copy of `x`. An input without `x` comes back unchanged. |
| Lists.RemoveFirstCutsFirstOccurrence | src/main/java/edu/curtin/oose2024s1/assignment2/model/Inventory.java:100-105 | Removal cuts out exactly the first occurrence and keeps the order of everything else. |
| Lists.AppendThenRemoveFirst | src/main/java/edu/curtin/oose2024s1/assignment2/model/Customer.java:38-48 | Appending an element that was absent and then removing it gives back the list. |
| Lists.RemoveFirstNoDup | src/main/java/edu/curtin/oose2024s1/assignment2/model/Inventory.java:160-165 | Removing from a list without repeats keeps it without repeats. It removes `x` and nothing else. |
| Lists.RemoveFirstLength | src/main/java/edu/curtin/oose2024s1/assignment2/model/Inventory.java:160-165 | Removing an element that is present shortens the list by exactly one. |
| BankAccounts.Open | src/main/java/edu/curtin/oose2024s1/assignment2/model/BankAccount.java:24-27 | A new account holds exactly the initial balance. |
| BankAccounts.Deposit | src/main/java/edu/curtin/oose2024s1/assignment2/model/BankAccount.java:34-39 | A deposit raises the balance by exactly the amount, with no guard. |
| BankAccounts.Withdraw | src/main/java/edu/curtin/oose2024s1/assignment2/model/BankAccount.java:41-53 | A withdrawal the balance covers lowers it by exactly the amount. Otherwise the account is unchanged. A non-negative balance stays non-negative. |
| BankAccounts.DepositThenWithdraw | src/main/java/edu/curtin/oose2024s1/assignment2/model/BankAccount.java:34-53 | Withdrawing what was just deposited restores a non-negative account. |
| Bikes.NewBike | src/main/java/edu/curtin/oose2024s1/assignment2/model/Bike.java:21-24 | A new bike has the given status, no email, and a servicing-day counter of 0. |
| Bikes.SetStatus | src/main/java/edu/curtin/oose2024s1/assignment2/model/Bike.java:31-34 | The status becomes the given one. The email and the counter are untouched. |
| Bikes.SetAssociatedEmail | src/main/java/edu/curtin/oose2024s1/assignment2/model/Bike.java:41-44 | The email becomes the given one, or none for `null`. The status and the counter are untouched. |
| Bikes.SettersAreIndependent | src/main/java/edu/curtin/oose2024s1/assignment2/model/Bike.java:26-44 | The two setters commute, and a second call of the same setter overrides the first. |
| BikeStates.DropOff | src/main/java/edu/curtin/oose2024s1/assignment2/state/AvailableState.java:22-27 | A drop-off succeeds exactly on an Available bike. It leads to Being Serviced and clears the email. The other two states throw and leave the bike unchanged. |
| BikeStates.PickUp | src/main/java/edu/curtin/oose2024s1/assignment2/state/AwaitingPickupState.java:35-40 | A pick-up fails exactly on an Available bike. From Awaiting Pickup it leads to Available with the email cleared. From Being Serviced it leads to Awaiting Pickup with the email kept. |
| BikeStates.Purchase | src/main/java/edu/curtin/oose2024s1/assignment2/state/AvailableState.java:49-53 | A purchase succeeds exactly on an Available bike. It leads to Awaiting Pickup and keeps the email. |
| BikeStates.TransitionsFollowTable | src/main/java/edu/curtin/oose2024s1/assignment2/state/ServicingState.java:22-52 | All three transitions agree with an independently written transition table on success, target state and email effect. No transition touches the day counter. |
| BikeStates.OnlyDropOffStartsServicing | src/main/java/edu/curtin/oose2024s1/assignment2/state/AvailableState.java:22-27 | The only way into Being Serviced is a drop-off of an Available bike. |
| BikeStates.NamesIdentifyStates | src/main/java/edu/curtin/oose2024s1/assignment2/state/AwaitingPickupState.java:62-66 | The three display names are different, so a name identifies its state. |
| Customers.NewCustomer | src/main/java/edu/curtin/oose2024s1/assignment2/model/Customer.java:22-26 | A new customer has the given email and no bikes. |
| Customers.AddBike | src/main/java/edu/curtin/oose2024s1/assignment2/model/Customer.java:38-42 | The bike is appended at the end and the earlier list is kept as a prefix. The email never changes. |
| Customers.RemoveBike | src/main/java/edu/curtin/oose2024s1/assignment2/model/Customer.java:44-48 | The first occurrence of the bike is cut out, and the other bikes keep their order. An absent bike leaves the record unchanged. The email never changes. |
| Customers.AddThenRemoveBike | src/main/java/edu/curtin/oose2024s1/assignment2/model/Customer.java:38-48 | Adding a bike the customer did not hold and then removing it restores the record. |
| Inventories.Empty | src/main/java/edu/curtin/oose2024s1/assignment2/model/Inventory.java:34-39 | A new inventory has all three lists empty. |
| Inventories.Add | src/main/java/edu/curtin/oose2024s1/assignment2/model/Inventory.java:85-90 | The bike is appended to the end of its list, the earlier list is kept as a prefix, and the other two lists are untouched. The same holds for the servicing and awaiting add methods. |
| Inventories.Remove | src/main/java/edu/curtin/oose2024s1/assignment2/model/Inventory.java:100-105 | The first occurrence of the bike is cut out of its list, and the other bikes keep their order. An absent bike leaves the inventory unchanged. The other two lists are untouched. |
| Inventories.TakeFirst | src/main/java/edu/curtin/oose2024s1/assignment2/model/Inventory.java:48-51 | Taking the head of the live list yields that head, and the list loses exactly it. The other lists are untouched. |
| Inventories.CountAfterAdd | src/main/java/edu/curtin/oose2024s1/assignment2/model/Inventory.java:174-201 | After an add, that list's count and the total are one higher and the other counts are unchanged. |
| Inventories.CountAfterRemove | src/main/java/edu/curtin/oose2024s1/assignment2/model/Inventory.java:174-201 | After a remove, that list's count and the total are one lower if the bike was there, and unchanged if not. |
| Inventories.AddThenRemove | src/main/java/edu/curtin/oose2024s1/assignment2/model/Inventory.java:85-105 | Adding a bike that was not on a list and then removing it restores the inventory. |
| Controller.SplitType | src/main/java/edu/curtin/oose2024s1/assignment2/controller/BikeShopController.java:57-59 | A message splits at its first space. The type has no space. The email is absent exactly when the message has no space. Type, one space and email rebuild the message. |
| Controller.SplitTypeOfJoin | src/main/java/edu/curtin/oose2024s1/assignment2/controller/BikeShopController.java:57-59 | Joining a space-free type and any email, the empty one included, with one space splits back into the same two parts. |
| Controller.AcceptedIffNotFailureText | src/main/java/edu/curtin/oose2024s1/assignment2/controller/BikeShopController.java:70-77 | A reply's text starts with "FAILURE" exactly when the reply is not an acceptance. |
| Controller.Text | src/main/java/edu/curtin/oose2024s1/assignment2/controller/BikeShopController.java:54-281 | A refusal starts "FAILURE: ", and an acceptance starts with its operation's name and " accepted: ". Every text ends with a full stop. A reply about a customer is a fixed lead for its kind, then the email, then the full stop. |
| Controller.TextDeterminesEmail | src/main/java/edu/curtin/oose2024s1/assignment2/controller/BikeShopController.java:265-275 | Replacing the email in a reply about a customer leaves its text the same exactly when the new email equals the old one. The rest of the reply fixes the text around the email. |
| Controller.CreateBike | src/main/java/edu/curtin/oose2024s1/assignment2/factory/BikeFactory.java:25-30 | The factory gives a bike with a fresh identity, Available and with no email. Every existing bike is untouched. |
| Controller.AssignBike | src/main/java/edu/curtin/oose2024s1/assignment2/controller/BikeShopController.java:136-137 | The customer's record is created if absent, under that email. The bike is appended to it. Every other record is untouched. |
| Controller.HandleDelivery | src/main/java/edu/curtin/oose2024s1/assignment2/controller/BikeShopController.java:89-117 | Accepted exactly when the stock is at most 90 and the balance at least 10000. Each refusal gets its own reply and leaves the shop unchanged. An acceptance adds 10 new Available bikes to the end of the available list and withdraws 5000. |
| Controller.Restock | src/main/java/edu/curtin/oose2024s1/assignment2/controller/BikeShopController.java:108-112 | `n` rounds of create-and-add append `n` fresh Available bikes, in order, to the available list. Nothing else changes. |
| Controller.Deliver | src/main/java/edu/curtin/oose2024s1/assignment2/controller/BikeShopController.java:106-116 | The accepted delivery is 10 fresh bikes plus exactly 5000 less in the account. |
| Controller.HandleDropOff | src/main/java/edu/curtin/oose2024s1/assignment2/controller/BikeShopController.java:126-157 | Accepted exactly when an email is present and the stock is at most 99. A missing email and a full shop each get their own reply and leave the shop unchanged. The unknown-error reply is never produced. |
| Controller.DropOffBike | src/main/java/edu/curtin/oose2024s1/assignment2/controller/BikeShopController.java:128-140 | A fresh bike, being serviced with its email cleared, joins the end of the servicing list and of the customer's record. The account is untouched. |
| Controller.HandlePurchaseOnline | src/main/java/edu/curtin/oose2024s1/assignment2/controller/BikeShopController.java:166-204 | Accepted exactly when an email is present and the head of the available list is Available. A missing email and an empty list each get their own reply and leave the shop unchanged. The unknown-error reply is never produced. |
| Controller.TryOnline | src/main/java/edu/curtin/oose2024s1/assignment2/controller/BikeShopController.java:168-187 | The head is taken off the live list before its state is checked. A head that is not Available gets the "not available" reply but stays off the list. |
| Controller.SellOnline | src/main/java/edu/curtin/oose2024s1/assignment2/controller/BikeShopController.java:170-180 | The oldest available bike leaves the available list and goes to the end of the awaiting list and of the customer's record, in Awaiting Pickup with the buyer's email. The account gains exactly 1000. |
| Controller.ShelveSoldHead | src/main/java/edu/curtin/oose2024s1/assignment2/controller/BikeShopController.java:170-175 | The head leaves the available list, the redundant second removal runs on the rest, and the head is appended to the awaiting list. The servicing list is untouched. |
| Controller.SellBike | src/main/java/edu/curtin/oose2024s1/assignment2/controller/BikeShopController.java:172-173 | A sold Available bike awaits pickup, carries the buyer's email if one is given, and keeps its day counter. |
| Controller.HandlePurchaseInStore | src/main/java/edu/curtin/oose2024s1/assignment2/controller/BikeShopController.java:213-234 | Accepted exactly when the head of the available list is Available. An empty list gets "No bikes available" with no change. An acceptance takes the head off the list, marks it Awaiting Pickup without shelving it, and deposits exactly 1000. |
| Controller.TryInStore | src/main/java/edu/curtin/oose2024s1/assignment2/controller/BikeShopController.java:215-227 | As for online sales, a head that is not Available gets the "not available" reply but is already off the list. |
| Controller.FirstAwaitingPickup | src/main/java/edu/curtin/oose2024s1/assignment2/controller/BikeShopController.java:250-253 | Finds the first position in the record whose bike awaits pickup. It finds none exactly when no bike in the record awaits pickup. |
| Controller.HandOver | src/main/java/edu/curtin/oose2024s1/assignment2/controller/BikeShopController.java:254-263 | That first bike leaves the record and the awaiting list and becomes Available with no email. The account gains 100 exactly when its servicing-day counter is positive. |
| Controller.HandlePickUp | src/main/java/edu/curtin/oose2024s1/assignment2/controller/BikeShopController.java:243-283 | Refusals are checked in the code's order: missing email, no record, no bike awaiting pickup in the record. Each leaves the shop unchanged. The message is accepted exactly when none of these applies. |
| Controller.ProcessMessage | src/main/java/edu/curtin/oose2024s1/assignment2/controller/BikeShopController.java:49-80 | A missing or empty message gets "Invalid message" and an unknown type gets "Invalid message type". Both leave the shop unchanged. Identities stay well formed. |
| ShopInvariant.DeliveryKeepsConsistent | src/main/java/edu/curtin/oose2024s1/assignment2/controller/BikeShopController.java:106-116 | A delivery keeps lists, states and records in agreement. |
| ShopInvariant.DropOffKeepsConsistent | src/main/java/edu/curtin/oose2024s1/assignment2/controller/BikeShopController.java:126-141 | A drop-off keeps lists, states and records in agreement. |
| ShopInvariant.PurchaseOnlineKeepsConsistent | src/main/java/edu/curtin/oose2024s1/assignment2/controller/BikeShopController.java:166-188 | An online purchase keeps lists, states and records in agreement. |
| ShopInvariant.PurchaseInStoreKeepsConsistent | src/main/java/edu/curtin/oose2024s1/assignment2/controller/BikeShopController.java:213-228 | An in-store purchase keeps lists, states and records in agreement. |
| ShopInvariant.PickUpKeepsConsistent | src/main/java/edu/curtin/oose2024s1/assignment2/controller/BikeShopController.java:243-268 | A pick-up keeps lists, states and records in agreement. |
| ShopInvariant.HeadIsAvailable | src/main/java/edu/curtin/oose2024s1/assignment2/controller/BikeShopController.java:171 | In a consistent shop the head of a non-empty available list is Available, so the `instanceof` test never fails. |
| ShopInvariant.HeadIsUnclaimed | src/main/java/edu/curtin/oose2024s1/assignment2/controller/BikeShopController.java:170 | In a consistent shop the head of the available list is on no other list, in no customer's record, and not repeated later in the available list. |
| ShopInvariant.RedundantRemoveIsNoOp | src/main/java/edu/curtin/oose2024s1/assignment2/controller/BikeShopController.java:174 | When the available list has no repeats, the second removal after the head is taken changes nothing. |
| ShopInvariant.CollectedBikeIsShelved | src/main/java/edu/curtin/oose2024s1/assignment2/controller/BikeShopController.java:252-256 | In a consistent shop the bike handed over is on the awaiting list, so its removal shortens that list by one. |
| ShopInvariant.DeliveryMoves | src/main/java/edu/curtin/oose2024s1/assignment2/controller/BikeShopController.java:91-113 | A delivery moves the stock by exactly +10 and the balance by exactly -5000 when accepted, and both by 0 when refused. No servicing-day counter moves, and every new bike starts at zero. |
| ShopInvariant.DropOffMoves | src/main/java/edu/curtin/oose2024s1/assignment2/controller/BikeShopController.java:128-133 | An accepted drop-off adds exactly one bike and moves no cash. A refused one moves nothing. No counter moves, and the new bike starts at zero. |
| ShopInvariant.PurchaseOnlineMoves | src/main/java/edu/curtin/oose2024s1/assignment2/controller/BikeShopController.java:168-176 | In a consistent shop an accepted online sale keeps the stock count and adds exactly 1000. A refused one moves nothing. No counter moves. |
| ShopInvariant.PurchaseInStoreMoves | src/main/java/edu/curtin/oose2024s1/assignment2/controller/BikeShopController.java:215-221 | In a consistent shop an accepted in-store sale removes exactly one bike from the stock and adds exactly 1000. A refused one moves nothing. No counter moves. |
| ShopInvariant.PickUpMoves | src/main/java/edu/curtin/oose2024s1/assignment2/controller/BikeShopController.java:254-263 | In a consistent shop an accepted pick-up removes exactly one bike. The balance gains 100 exactly when the bike handed over counted servicing days, and nothing otherwise. A refused one moves nothing. No counter moves. |
| Messages.DispatchByType | src/main/java/edu/curtin/oose2024s1/assignment2/controller/BikeShopController.java:57-68 | A message of each known type, with or without an email, reaches that type's handler with that email. |
| Messages.ProcessMessageKeepsConsistent | src/main/java/edu/curtin/oose2024s1/assignment2/controller/BikeShopController.java:49-80 | Any message text, including a missing one, keeps a consistent shop consistent. |
| Messages.RefusedIffUnchanged | src/main/java/edu/curtin/oose2024s1/assignment2/controller/BikeShopController.java:49-80 | In a consistent shop a message changes the shop exactly when its reply is an acceptance. |
| Messages.MessageMoves | src/main/java/edu/curtin/oose2024s1/assignment2/controller/BikeShopController.java:61-68 | In a consistent shop any message moves the stock count and the balance by exactly the amounts its reply names. A pick-up adds the 100 fee when its bike counted servicing days. No message changes a servicing-day counter or forgets a bike. |
| Messages.AcceptanceGuards | src/main/java/edu/curtin/oose2024s1/assignment2/controller/BikeShopController.java:91-128 | An accepted delivery passed both of its guards, and an accepted drop-off passed its capacity guard. |
| Messages.MessageKeepsBounded | src/main/java/edu/curtin/oose2024s1/assignment2/controller/BikeShopController.java:91-128 | No message takes a consistent shop above 100 bikes or below a zero balance. The fee can only raise the balance. |
| Messages.DropOffFillsTo100 | src/main/java/edu/curtin/oose2024s1/assignment2/controller/BikeShopController.java:128 | A shop holding 99 bikes accepts a drop-off and then holds 100, so the drop-off guard admits 100 bikes. |
| Messages.DeliveryFillsTo100 | src/main/java/edu/curtin/oose2024s1/assignment2/controller/BikeShopController.java:91-92 | A shop holding 90 bikes with at least 10000 accepts a delivery and then holds 100. |
| Messages.EmptyEmailDropOffAccepted | src/main/java/edu/curtin/oose2024s1/assignment2/controller/BikeShopController.java:57-59 | "DROP-OFF " carries the empty email, and the handler accepts it below capacity. |
| EventLoop.Initial | src/main/java/edu/curtin/oose2024s1/assignment2/App.java:30-31 | The opening shop is consistent and empty, with 15000 in the account and no customers. |
| EventLoop.RunDay | src/main/java/edu/curtin/oose2024s1/assignment2/controller/EventLoop.java:52-57 | A day hands every message to the controller in turn and gets one reply per message. The first reply is the first message's. |
| EventLoop.RunDays | src/main/java/edu/curtin/oose2024s1/assignment2/controller/EventLoop.java:44-72 | Running the days in turn gives one reply for every message of every day. |
| EventLoop.RunDayKeepsInvariant | src/main/java/edu/curtin/oose2024s1/assignment2/controller/EventLoop.java:52-57 | A day keeps the shop consistent, within 100 bikes and out of debt. If no bike had counted a servicing day at the start, none has at the end. |
| EventLoop.RunDayLedger | src/main/java/edu/curtin/oose2024s1/assignment2/controller/EventLoop.java:52-57 | Over a day in a consistent shop, the stock count moves by exactly the sum the day's replies name. The balance moves by the replies' cash sum plus the service fees taken, and no fee is taken when no bike has counted a servicing day. |
| EventLoop.RunDayAppend | src/main/java/edu/curtin/oose2024s1/assignment2/controller/EventLoop.java:52-57 | Handling two batches of messages in turn is the same as handling them as one batch. |
| EventLoop.DayBoundariesInvisible | src/main/java/edu/curtin/oose2024s1/assignment2/controller/EventLoop.java:44-72 | A run over many days leaves the shop and the replies exactly as one long day would. |
| EventLoop.AlwaysBounded | src/main/java/edu/curtin/oose2024s1/assignment2/controller/EventLoop.java:39-77 | From the opening shop, whatever messages arrive on whatever days, the shop stays consistent, never holds more than 100 bikes, and never goes into debt. |
| Scenarios.SaleThenPickUp | src/main/java/edu/curtin/oose2024s1/assignment2/controller/BikeShopController.java:89-283 | DELIVERY, then PURCHASE-ONLINE a@x.com, then PICK-UP a@x.com, from the opening shop: all three are accepted. The shop ends with 9 bikes, 11000 in the account and an empty record. |
| Scenarios.DropOffThenPickUp | src/main/java/edu/curtin/oose2024s1/assignment2/controller/BikeShopController.java:126-270 | DROP-OFF b@y.com then PICK-UP b@y.com, from the opening shop: the drop-off is accepted. The pick-up is refused with "No bike matching customer email", because the bike stays in servicing. |
| Scenarios.SoleCollection | src/main/java/edu/curtin/oose2024s1/assignment2/controller/BikeShopController.java:250-266 | A customer whose one bike awaits pickup collects it. The record is left empty, one bike fewer is held, and no fee is taken while no servicing day was counted. |
| Scenarios.FirstDropOff | src/main/java/edu/curtin/oose2024s1/assignment2/controller/BikeShopController.java:128-140 | A first drop-off below capacity is accepted. The new bike, being serviced, ends the servicing list and is the customer's only bike, and the account is untouched. |
| Scenarios.UncollectableWhileServiced | src/main/java/edu/curtin/oose2024s1/assignment2/controller/BikeShopController.java:250-270 | A customer whose bikes are all being serviced gets "No bike matching customer email" and the shop does not change. |

## Left out

- Logging, `System.out` output, the observers, and the view. They do not affect the
  shop's state or the reply.
- `EventLoop.run`: its timing is left out. That covers the polling of `System.in`,
  `Thread.sleep`, the day counter it only displays, and the final statistics. What
  remains is the order of messages, in `EventLoop.RunDay` and `EventLoop.RunDays`.
- The input source. The messages of a day are a parameter, and every message it yields
  is non-null.
- The balance is a Java `double`. Every amount the shop moves is a whole number, so the
  balance is an `int` and no rounding is modelled.
- `BikeFactory.createBike` builds two bikes and returns the second. The first is only
  logged and is unobservable, so `Controller.CreateBike` makes one.
- `Bike.java` is an older version than the one the controller is written against. That
  version has a status enum and no state objects, day counter or transition methods.
  - The model uses the enum's three values as the bike state.
  - Transitions are delegated to the three state classes, as the controller calls them.
  - A fresh bike is Available, because only `AvailableState.dropOff` accepts the drop-off
    that a new bike meets.
- No code raises a bike's servicing-day counter (`Messages.MessageMoves` states that no
  message moves it). So no bike leaves Being Serviced, and the 100 fee is never charged
  in a run from the opening shop; `Scenarios.DropOffThenPickUp` shows this. The program
  has no day-advance step and no payroll, so neither is modelled.
- The guards refuse a delivery only above 90 bikes and a drop-off only above 99, so 100
  bikes can be held (`Messages.DropOffFillsTo100`).
- The code accepts the empty email of "DROP-OFF " (`Messages.EmptyEmailDropOffAccepted`).
- The doc comment of `ServicingState.pickUp` says it returns the bike to Available. The
  code moves it to Awaiting Pickup, and the model follows the code.
- `Customer.getEmail` and `BankAccount.getBalance` are plain field reads of `Customer`
  and `Account`.
- Messages.RefusedIffUnchanged: holds only in a consistent shop. Outside the invariant a
  purchase whose head is not Available is refused, yet the head has already left the
  available list. `Controller.TryOnline` and `Controller.TryInStore` state that case.
