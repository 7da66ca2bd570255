/** The simulation around the controller: the shop starts empty with 15000 in the
    account, and each simulated day hands every message that arrived that day, in
    arrival order, to `processMessage`. Timing, the status display and the end-of-input
    test are left out; what remains is the fold of the controller over the messages. */
module EventLoop {
  import opened Wrappers
  import opened Inventories
  import opened BankAccounts
  import opened Controller
  import opened ShopInvariant
  import opened Messages

  const InitialBalance: int := 15000

  /** The shop as the application builds it: an empty inventory, an account opened with
      15000, no bikes and no customers. */
  function Initial(): (s: Shop)
    ensures Consistent(s) && ServicingDaysZero(s) && Bounded(s)
    ensures Total(s.inventory) == 0 && s.account.balance == InitialBalance
    ensures s.customers == map[]
  {
    Shop(map[], Empty(), Open(InitialBalance), map[], 0)
  }

  /** The controller handling one message that arrived. */
  function Step(s: Shop, message: string): (o: Outcome)
    requires Wf(s)
    ensures Wf(o.shop)
  {
    ProcessMessage(s, Some(message))
  }

  /** One day: every message of the day goes to the controller in turn, each on the shop
      the previous one left; the replies come back one per message, in order. */
  function RunDay(s: Shop, messages: seq<string>): (r: (Shop, seq<Reply>))
    requires Wf(s)
    ensures Wf(r.0)
    ensures |r.1| == |messages|
    ensures |messages| > 0 ==> r.1[0] == Step(s, messages[0]).reply
    decreases |messages|
  {
    if |messages| == 0 then (s, [])
    else
      var o := Step(s, messages[0]);
      var rest := RunDay(o.shop, messages[1..]);
      (rest.0, [o.reply] + rest.1)
  }

  /** The simulation over several days: each day's messages in turn, one reply per
      message of every day. */
  function RunDays(s: Shop, days: seq<seq<string>>): (r: (Shop, seq<Reply>))
    requires Wf(s)
    ensures Wf(r.0)
    ensures |r.1| == |Flatten(days)|
    decreases |days|
  {
    if |days| == 0 then (s, [])
    else
      var first := RunDay(s, days[0]);
      var rest := RunDays(first.0, days[1..]);
      (rest.0, first.1 + rest.1)
  }

  /** All the messages of all the days, in arrival order. */
  function Flatten(days: seq<seq<string>>): (all: seq<string>)
    ensures |days| > 0 ==> all == days[0] + Flatten(days[1..])
    decreases |days|
  {
    if |days| == 0 then [] else days[0] + Flatten(days[1..])
  }

  /** The total stock movement that a run of replies announces. */
  function StockMoved(replies: seq<Reply>): int
    decreases |replies|
  {
    if |replies| == 0 then 0 else StockChange(replies[0]) + StockMoved(replies[1..])
  }

  /** The total cash movement that a run of replies announces. */
  function CashMoved(replies: seq<Reply>): int
    decreases |replies|
  {
    if |replies| == 0 then 0 else CashChange(replies[0]) + CashMoved(replies[1..])
  }

  /** The service fees a day takes, message by message. */
  function FeesTaken(s: Shop, messages: seq<string>): (fees: int)
    requires Wf(s)
    ensures fees >= 0
    decreases |messages|
  {
    if |messages| == 0 then 0
    else
      var o := Step(s, messages[0]);
      FeeTaken(s, o.reply) + FeesTaken(o.shop, messages[1..])
  }

  /** A day keeps a consistent shop consistent and within its capacity and out of debt;
      and if no bike had counted a servicing day, none has afterwards. */
  lemma {:induction false} RunDayKeepsInvariant(s: Shop, messages: seq<string>)
    requires Consistent(s) && Bounded(s)
    ensures var t := RunDay(s, messages).0;
      Consistent(t) && Bounded(t) && (ServicingDaysZero(s) ==> ServicingDaysZero(t))
    decreases |messages|
  {
    if |messages| > 0 {
      var o := ProcessMessage(s, Some(messages[0]));
      ProcessMessageKeepsConsistent(s, Some(messages[0]));
      MessageMoves(s, Some(messages[0]));
      if ServicingDaysZero(s) {
        ZeroCountersStayZero(s, o.shop);
      }
      MessageKeepsBounded(s, Some(messages[0]));
      RunDayKeepsInvariant(o.shop, messages[1..]);
    }
  }

  /** Over a day, the stock count moves by exactly the sum of what the replies announce,
      and the balance by that sum plus the service fees taken; no fee is taken while no
      bike has counted a servicing day. */
  lemma {:induction false} RunDayLedger(s: Shop, messages: seq<string>)
    requires Consistent(s)
    ensures var r := RunDay(s, messages);
      && Total(r.0.inventory) == Total(s.inventory) + StockMoved(r.1)
      && r.0.account.balance == s.account.balance + CashMoved(r.1) + FeesTaken(s, messages)
      && (ServicingDaysZero(s) ==> FeesTaken(s, messages) == 0)
    decreases |messages|
  {
    if |messages| > 0 {
      var o := ProcessMessage(s, Some(messages[0]));
      ProcessMessageKeepsConsistent(s, Some(messages[0]));
      MessageMoves(s, Some(messages[0]));
      if ServicingDaysZero(s) {
        ZeroCountersStayZero(s, o.shop);
      }
      RunDayLedger(o.shop, messages[1..]);
      var rest := RunDay(o.shop, messages[1..]);
      assert RunDay(s, messages).1 == [o.reply] + rest.1;
      assert ([o.reply] + rest.1)[1..] == rest.1;
    }
  }

  /** A day whose first message is `m`: the controller answers `m`, then the rest. */
  lemma RunDayCons(s: Shop, m: string, rest: seq<string>)
    requires Wf(s)
    ensures var o := Step(s, m);
      RunDay(s, [m] + rest) == (RunDay(o.shop, rest).0, [o.reply] + RunDay(o.shop, rest).1)
  {
    var ms := [m] + rest;
    assert ms[0] == m && ms[1..] == rest;
  }

  /** Handling two batches of messages one after the other is handling them as one. */
  lemma RunDayAppend(s: Shop, a: seq<string>, b: seq<string>)
    requires Wf(s)
    ensures var first := RunDay(s, a);
      var second := RunDay(first.0, b);
      RunDay(s, a + b) == (second.0, first.1 + second.1)
  {
    RunDayAppendShop(s, a, b);
    RunDayAppendReplies(s, a, b);
  }

  lemma {:induction false} RunDayAppendShop(s: Shop, a: seq<string>, b: seq<string>)
    requires Wf(s)
    ensures RunDay(s, a + b).0 == RunDay(RunDay(s, a).0, b).0
    decreases |a|
  {
    if |a| > 0 {
      var m, tail := a[0], a[1..];
      assert a == [m] + tail;
      assert a + b == [m] + (tail + b);
      RunDayCons(s, m, tail);
      RunDayCons(s, m, tail + b);
      RunDayAppendShop(Step(s, m).shop, tail, b);
    } else {
      assert a + b == b;
    }
  }

  /** Regrouping a concatenation; stated apart so that the step is proved without the
      facts about the controller in scope. */
  lemma AppendAssociates<T>(x: seq<T>, y: seq<T>, z: seq<T>)
    ensures x + (y + z) == (x + y) + z
  {
  }

  lemma {:induction false} RunDayAppendReplies(s: Shop, a: seq<string>, b: seq<string>)
    requires Wf(s)
    ensures RunDay(s, a + b).1 == RunDay(s, a).1 + RunDay(RunDay(s, a).0, b).1
    decreases |a|
  {
    if |a| > 0 {
      var m, tail := a[0], a[1..];
      var o := Step(s, m);
      assert a == [m] + tail;
      assert a + b == [m] + (tail + b);
      RunDayCons(s, m, tail);
      RunDayCons(s, m, tail + b);
      RunDayAppendReplies(o.shop, tail, b);
      var rest := RunDay(o.shop, tail);
      var second := RunDay(rest.0, b);
      AppendAssociates([o.reply], rest.1, second.1);
    } else {
      assert a + b == b;
      assert RunDay(s, a).1 + RunDay(s, b).1 == RunDay(s, b).1;
    }
  }

  /** Nothing happens between days: the controller never hears of the day changing, so a
      run over many days leaves the shop, and answers, as one long day would. */
  lemma {:induction false} DayBoundariesInvisible(s: Shop, days: seq<seq<string>>)
    requires Wf(s)
    ensures RunDays(s, days) == RunDay(s, Flatten(days))
    decreases |days|
  {
    if |days| > 0 {
      var first := RunDay(s, days[0]);
      DayBoundariesInvisible(first.0, days[1..]);
      RunDayAppend(s, days[0], Flatten(days[1..]));
    }
  }

  /** From the start of the simulation, whatever messages arrive on whatever days, the
      shop stays consistent, never holds more than 100 bikes and never goes into debt. */
  lemma AlwaysBounded(days: seq<seq<string>>)
    ensures var t := RunDays(Initial(), days).0;
      Consistent(t) && t.account.balance >= 0 && Total(t.inventory) <= 100
  {
    DayBoundariesInvisible(Initial(), days);
    RunDayKeepsInvariant(Initial(), Flatten(days));
  }
}
