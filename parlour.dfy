/** The game as one object: the persisted state (day, cash, stock, price,
    last order cost, history), the current day's service session and the
    pizza being assembled. Each method is one handler of the game: placing
    the ingredient order, setting the price, opening the shop, staging an
    ingredient, serving, a customer arrival, the one-second tick with its
    end-of-day settlement, and moving on to the next day. Time and the
    random topping picks come in as parameters. */
module Parlour {
  import opened Economy
  import opened Service
  import opened History

  /** The day cycle: Prep -> Pricing -> Serving -> Summary -> Prep. */
  datatype Phase = Prep | Pricing | Serving | Summary

  /** How a press of the serve button ended. */
  datatype ServeOutcome =
    | NoCustomer
    | IncompleteAssembly
    | OutOfStock(missing: Ingredient)
    | Served(perfect: bool)

  /** The current day's service session (`serviceData`): seconds left,
      revenue, customers served and missed, ingredients used, satisfaction,
      the waiting queue and the expected arrivals. */
  datatype Session = Session(
    timeLeft: int,
    revenue: int,
    served: nat,
    missed: nat,
    used: Counts,
    satisfaction: int,
    customers: seq<Customer>,
    arrivalTotal: nat)

  /** The session "Open Shop" starts for `demand` expected arrivals. */
  function FreshSession(demand: nat): Session {
    Session(DayLength, 0, 0, 0, Zeros, 100, [], demand)
  }

  /** What every session the game reaches satisfies. */
  predicate SessionOk(s: Session) {
    NonNegative(s.used) && |s.customers| <= MaxQueue && WellFormedQueue(s.customers)
  }

  /** `k` is the first ingredient of `req` that the stock check trips on. */
  predicate FirstShortage(inv: Counts, req: seq<Ingredient>, k: Ingredient) {
    exists n :: 0 <= n < |req| && req[n] == k && inv.Get(k) <= 0 && forall m :: 0 <= m < n ==> inv.Get(req[m]) > 0
  }

  class Game {
    // The persisted game state.
    var day: int
    var cash: int
    var inventory: Counts
    var price: int
    var lastOrderCost: int
    var history: seq<DayRecord>
    var phase: Phase
    // The service session of the current day.
    var session: Session
    // The staged pizza.
    var assembly: Counts

    /** What the game keeps true from one handler to the next. */
    ghost predicate Valid()
      reads this
    {
      day >= 1 && MinPrice <= price <= MaxPrice &&
      StockFloor(inventory) && NonNegative(assembly) && SessionOk(session) &&
      Chronological(history, if phase == Summary then day else day - 1)
    }

    /** The day record that settling the session now would store. */
    function Today(): DayRecord
      reads this`day, this`session, this`lastOrderCost, this`price
    {
      var costs := lastOrderCost + FixedCost;
      DayRecord(day, session.revenue, costs, session.revenue - costs,
                Fulfillment(session.served, session.missed), session.satisfaction, price)
    }

    /** A first run: day 1, 100.00 in cash, no stock, price 8.00, no history. */
    constructor ()
      ensures Valid()
      ensures day == 1 && cash == StartCash && inventory == Zeros && price == StartPrice
      ensures lastOrderCost == 0 && history == [] && phase == Prep
    {
      day, cash, inventory, price := 1, StartCash, Zeros, StartPrice;
      lastOrderCost, history, phase := 0, [], Prep;
      session := FreshSession(0);
      assembly := Zeros;
    }

    /** The "Next: Set Price" button. Stock is credited ingredient by
        ingredient while the total is summed, and only then is the total
        compared with the cash: a rejected order keeps its credited stock. */
    method PlaceOrder(qty: Counts) returns (accepted: bool)
      requires Valid() && phase == Prep && NonNegative(qty)
      modifies this`inventory, this`cash, this`lastOrderCost, this`phase
      ensures Valid()
      ensures inventory == Plus(old(inventory), qty)
      ensures accepted <==> OrderCost(qty) <= old(cash)
      ensures accepted ==> cash == old(cash) - OrderCost(qty) && lastOrderCost == OrderCost(qty) && phase == Pricing
      ensures !accepted ==> cash == old(cash) && lastOrderCost == old(lastOrderCost) && phase == Prep
    {
      var total := Receive(qty);
      if total > cash {
        return false;
      }
      cash := cash - total;
      lastOrderCost := total;
      phase := Pricing;
      return true;
    }

    /** The loop of the order handler: every ingredient with a non-zero
        quantity is added to the stock and its cost to the total. */
    method Receive(qty: Counts) returns (total: int)
      modifies this`inventory
      ensures inventory == Plus(old(inventory), qty)
      ensures total == OrderCost(qty)
    {
      ghost var inv0 := inventory;
      total := 0;
      var i := 0;
      while i < |Ingredients|
        invariant 0 <= i <= |Ingredients|
        invariant total == CostOf(Ingredients[..i], qty)
        invariant forall k :: inventory.Get(k) == inv0.Get(k) + (if IndexOf(k) < i then qty.Get(k) else 0)
      {
        var k := Ingredients[i];
        IndexOfAt(i);
        var q := qty.Get(k);
        if q != 0 {
          inventory := inventory.Set(k, inventory.Get(k) + q);
          total := total + q * UnitCost(k);
        }
        assert Ingredients[..i + 1][..i] == Ingredients[..i];
        i := i + 1;
      }
      assert Ingredients[..i] == Ingredients;
      CountsExtensional(inventory, Plus(inv0, qty));
    }

    /** Moving the price slider (4.00 to 12.00 in steps of 0.10). */
    method SetPrice(p: int)
      requires Valid() && phase == Pricing && MinPrice <= p <= MaxPrice
      modifies this`price
      ensures Valid() && price == p
    {
      price := p;
    }

    /** "Open Shop": a fresh session whose expected arrivals are the demand
        at the locked price, and an empty pizza. */
    method OpenShop()
      requires Valid() && phase == Pricing
      modifies this`session, this`assembly, this`phase
      ensures Valid() && phase == Serving
      ensures session == FreshSession(Demand(price)) && assembly == Zeros
    {
      session := FreshSession(Demand(price));
      assembly := Zeros;
      phase := Serving;
    }

    /** An ingredient button: one more unit of `k` on the pizza. */
    method Stage(k: Ingredient)
      requires Valid() && phase == Serving
      modifies this`assembly
      ensures Valid()
      ensures assembly == old(assembly).Set(k, old(assembly).Get(k) + 1)
    {
      assembly := assembly.Set(k, assembly.Get(k) + 1);
    }

    /** Empties the staged pizza, ingredient by ingredient. */
    method ResetAssembly()
      modifies this`assembly
      ensures assembly == Zeros
    {
      var i := 0;
      while i < |Ingredients|
        invariant 0 <= i <= |Ingredients|
        invariant forall k :: IndexOf(k) < i ==> assembly.Get(k) == Zeros.Get(k)
      {
        var k := Ingredients[i];
        IndexOfAt(i);
        assembly := assembly.Set(k, 0);
        i := i + 1;
      }
      CountsExtensional(assembly, Zeros);
    }

    /** Takes the customer at position `i` out of the queue. */
    method RemoveCustomer(i: nat)
      requires i < |session.customers|
      modifies this`session
      ensures session == old(session.(customers := session.customers[..i] + session.customers[i + 1..]))
    {
      session := session.(customers := session.customers[..i] + session.customers[i + 1..]);
    }

    /** Deducts one pizza's usage from the stock and adds it to the day's
        usage totals, ingredient by ingredient. */
    method ConsumeStock(usage: Counts)
      modifies this`inventory, this`session
      ensures inventory == Minus(old(inventory), usage)
      ensures session == old(session).(used := Plus(old(session.used), usage))
    {
      ghost var inv0, used0 := inventory, session.used;
      var i := 0;
      while i < |Ingredients|
        invariant 0 <= i <= |Ingredients|
        invariant session == old(session).(used := session.used)
        invariant forall k :: inventory.Get(k) == inv0.Get(k) - (if IndexOf(k) < i then usage.Get(k) else 0)
        invariant forall k :: session.used.Get(k) == used0.Get(k) + (if IndexOf(k) < i then usage.Get(k) else 0)
      {
        var k := Ingredients[i];
        IndexOfAt(i);
        inventory := inventory.Set(k, inventory.Get(k) - usage.Get(k));
        session := session.(used := session.used.Set(k, session.used.Get(k) + usage.Get(k)));
        i := i + 1;
      }
      CountsExtensional(inventory, Minus(inv0, usage));
      CountsExtensional(session.used, Plus(used0, usage));
    }

    /** The stock check of a serve: the first of `req` whose stock is not
        positive, or |req| when all are in stock. */
    method FindShortage(req: seq<Ingredient>) returns (j: nat)
      ensures j <= |req|
      ensures forall m :: 0 <= m < j ==> inventory.Get(req[m]) > 0
      ensures j < |req| ==> inventory.Get(req[j]) <= 0
    {
      j := 0;
      while j < |req| && inventory.Get(req[j]) > 0
        invariant 0 <= j <= |req|
        invariant forall m :: 0 <= m < j ==> inventory.Get(req[m]) > 0
      {
        j := j + 1;
      }
    }

    /** The usage record of a serve: one of each base ingredient plus one per
        ordered topping. */
    static method UsageOf(t: seq<Ingredient>) returns (usage: Counts)
      ensures usage == NeedOf(t)
    {
      usage := Counts(1, 1, 1, 0, 0, 0);
      var i := 0;
      while i < |t|
        invariant 0 <= i <= |t|
        invariant forall k :: usage.Get(k) == Need(t[..i], k)
      {
        assert t[..i + 1][..i] == t[..i];
        usage := usage.Set(t[i], usage.Get(t[i]) + 1);
        i := i + 1;
      }
      assert t[..i] == t;
      NeedOfGet(t);
      CountsExtensional(usage, NeedOf(t));
    }

    /** The serve button, against the head of the queue. */
    method Serve() returns (outcome: ServeOutcome)
      requires Valid() && phase == Serving
      modifies this`inventory, this`session, this`assembly
      ensures Valid()
      ensures outcome == NoCustomer <==> old(session.customers) == []
      ensures outcome == IncompleteAssembly <==> old(session.customers) != [] && !Assembled(old(assembly))
      ensures outcome.OutOfStock? <==>
        old(session.customers) != [] && Assembled(old(assembly)) && !InStock(old(inventory), old(session.customers[0].toppings))
      ensures outcome.OutOfStock? ==>
        FirstShortage(old(inventory), Required(old(session.customers[0].toppings)), outcome.missing)
      // Rejections that change nothing.
      ensures outcome == NoCustomer || outcome == IncompleteAssembly ==>
        inventory == old(inventory) && session == old(session) && assembly == old(assembly)
      // A stockout turns the customer away with a penalty and uses nothing.
      ensures outcome.OutOfStock? ==>
        var s0 := old(session);
        inventory == old(inventory) && assembly == Zeros &&
        session == s0.(missed := s0.missed + 1, satisfaction := s0.satisfaction - StockoutPenalty,
                       customers := s0.customers[1..])
      // A sale: the order's ingredients are used, the price is earned.
      ensures outcome.Served? ==>
        var s0 := old(session);
        var t := s0.customers[0].toppings;
        inventory == Minus(old(inventory), NeedOf(t)) &&
        outcome.perfect == PerfectMatch(t, old(assembly)) && assembly == Zeros &&
        session == s0.(revenue := s0.revenue + price, served := s0.served + 1, used := Plus(s0.used, NeedOf(t)),
                       satisfaction := s0.satisfaction + (if outcome.perfect then PerfectBonus else 0),
                       customers := s0.customers[1..])
    {
      if |session.customers| == 0 {
        return NoCustomer;
      }
      var cust := session.customers[0];
      if assembly.Get(Dough) < 1 || assembly.Get(Sauce) < 1 || assembly.Get(Cheese) < 1 {
        return IncompleteAssembly;
      }
      var req := Required(cust.toppings);
      var j := FindShortage(req);
      if j < |req| {
        assert FirstShortage(inventory, req, req[j]);
        TurnAway();
        return OutOfStock(req[j]);
      }
      assert InStock(inventory, cust.toppings);
      var perfect := Sell();
      return Served(perfect);
    }

    /** A stockout at the serve button: the head customer leaves with a
        penalty and the staged pizza is thrown away. */
    method TurnAway()
      requires Valid() && phase == Serving && session.customers != []
      modifies this`session, this`assembly
      ensures Valid()
      ensures session == old(session).(missed := old(session.missed) + 1,
        satisfaction := old(session.satisfaction) - StockoutPenalty, customers := old(session.customers[1..]))
      ensures assembly == Zeros
    {
      session := session.(missed := session.missed + 1, satisfaction := session.satisfaction - StockoutPenalty);
      Dismiss();
    }

    /** The head customer leaves the queue and the staged pizza is emptied,
        as every serve that reaches the stock check ends. */
    method Dismiss()
      requires Valid() && session.customers != []
      modifies this`session, this`assembly
      ensures Valid()
      ensures session == old(session).(customers := old(session.customers[1..])) && assembly == Zeros
    {
      RemoveCustomer(0);
      assert session.customers == old(session.customers[1..]);
      assert forall c :: c in session.customers ==> c in old(session.customers);
      ResetAssembly();
    }

    /** A sale to the head customer, whose ingredients are all in stock:
        their pizza's usage leaves the stock, the price is earned, and an
        order whose toppings were all staged earns the bonus. */
    method Sell() returns (perfect: bool)
      requires Valid() && phase == Serving && session.customers != []
      requires InStock(inventory, session.customers[0].toppings)
      modifies this`inventory, this`session, this`assembly
      ensures Valid()
      ensures var s0 := old(session);
        var t := s0.customers[0].toppings;
        inventory == Minus(old(inventory), NeedOf(t)) &&
        perfect == PerfectMatch(t, old(assembly)) && assembly == Zeros &&
        session == s0.(revenue := s0.revenue + price, served := s0.served + 1, used := Plus(s0.used, NeedOf(t)),
                       satisfaction := s0.satisfaction + (if perfect then PerfectBonus else 0),
                       customers := s0.customers[1..])
    {
      var cust := session.customers[0];
      var usage := UsageOf(cust.toppings);
      ServeKeepsStockFloor(inventory, cust.toppings);
      ConsumeStock(usage);
      perfect := PerfectMatch(cust.toppings, assembly);
      session := session.(revenue := session.revenue + price, served := session.served + 1,
                          satisfaction := session.satisfaction + (if perfect then PerfectBonus else 0));
      Dismiss();
    }

    /** The arrival timer: a new customer at the tail, unless five are
        already waiting. `picks` are the random choices among the three
        toppings, at most two of them. */
    method Spawn(now: int, picks: seq<int>) returns (spawned: bool)
      requires Valid() && phase == Serving
      requires |picks| <= 2 && forall n :: 0 <= n < |picks| ==> 0 <= picks[n] < |ToppingOptions|
      modifies this`session
      ensures Valid()
      ensures spawned <==> |old(session.customers)| < MaxQueue
      ensures !spawned ==> session == old(session)
      ensures spawned ==>
        var cs := old(session.customers);
        session == old(session).(customers := session.customers) &&
        |session.customers| == |cs| + 1 && session.customers[..|cs|] == cs &&
        session.customers[|cs|].arrival == now &&
        |session.customers[|cs|].toppings| == |picks| &&
        forall n :: 0 <= n < |picks| ==> session.customers[|cs|].toppings[n] == ToppingOptions[picks[n]]
    {
      if |session.customers| >= MaxQueue {
        return false;
      }
      var toppings: seq<Ingredient> := [];
      var i := 0;
      while i < |picks|
        invariant 0 <= i <= |picks| && |toppings| == i
        invariant forall n :: 0 <= n < i ==> toppings[n] == ToppingOptions[picks[n]] && IsTopping(toppings[n])
      {
        toppings := toppings + [ToppingOptions[picks[i]]];
        i := i + 1;
      }
      session := session.(customers := session.customers + [Customer(now, toppings)]);
      return true;
    }

    /** End of the day: settle the session into cash and history. The
        ingredient spend was taken from the cash at order time, so only the
        revenue less the fixed cost is added. */
    method Settle()
      requires Valid() && phase == Serving
      modifies this`cash, this`history, this`phase
      ensures Valid() && phase == Summary
      ensures cash == old(cash) + session.revenue - FixedCost
      ensures history == AppendTrim(old(history), Today())
    {
      var record := Today();
      cash := cash + session.revenue - FixedCost;
      AppendTrimChronological(history, record);
      history := history + [record];
      if |history| > HistoryLimit {
        history := history[1..];
      }
      phase := Summary;
    }

    /** The patience sweep of the one-second timer: every visited
        customer's wait is checked, and removing one makes the loop skip the
        customer who moves into its place. */
    method CheckPatience(now: int)
      modifies this`session
      ensures var r := SweepQueue(old(session.customers), now);
        session == old(session).(customers := r.kept, missed := old(session.missed) + r.timedOut,
          satisfaction := old(session.satisfaction) - TimeoutPenalty * r.timedOut - r.impatient)
    {
      ghost var s0 := session;
      ghost var goal := SweepQueue(s0.customers, now);
      var i := 0;
      while i < |session.customers|
        invariant i <= |session.customers| + 1
        invariant session.timeLeft == s0.timeLeft && session.revenue == s0.revenue && session.served == s0.served
        invariant session.used == s0.used && session.arrivalTotal == s0.arrivalTotal
        invariant var rest := SweepQueue(Drop(session.customers, i), now);
          Take(session.customers, i) + rest.kept == goal.kept &&
          session.missed + rest.timedOut == s0.missed + goal.timedOut &&
          session.satisfaction - TimeoutPenalty * rest.timedOut - rest.impatient
            == s0.satisfaction - TimeoutPenalty * goal.timedOut - goal.impatient
        decreases |session.customers| - i
      {
        var c := session.customers[i];
        var wait := now - c.arrival;
        if wait > Timeout {
          SweepStepTimeout(session.customers, i, now);
          session := session.(satisfaction := session.satisfaction - TimeoutPenalty, missed := session.missed + 1);
          RemoveCustomer(i);
        } else {
          SweepStepStay(session.customers, i, now);
          if wait > WarnWait {
            session := session.(satisfaction := session.satisfaction - 1);
          }
        }
        i := i + 1;
      }
      assert Drop(session.customers, i) == [];
      assert Take(session.customers, i) == session.customers;
    }

    /** The one-second timer. Once the clock runs below zero the day is
        settled and nobody's patience is checked that tick. */
    method Tick(now: int) returns (ended: bool)
      requires Valid() && phase == Serving
      modifies this`session, this`cash, this`history, this`phase
      ensures Valid()
      ensures ended <==> old(session.timeLeft) < 1
      ensures ended ==>
        phase == Summary && session == old(session).(timeLeft := old(session.timeLeft) - 1) &&
        cash == old(cash) + session.revenue - FixedCost && history == AppendTrim(old(history), Today())
      ensures !ended ==>
        var r := SweepQueue(old(session.customers), now);
        phase == Serving && cash == old(cash) && history == old(history) &&
        session == old(session).(timeLeft := old(session.timeLeft) - 1, customers := r.kept,
          missed := old(session.missed) + r.timedOut,
          satisfaction := old(session.satisfaction) - TimeoutPenalty * r.timedOut - r.impatient)
    {
      session := session.(timeLeft := session.timeLeft - 1);
      if session.timeLeft < 0 {
        Settle();
        return true;
      }
      SweepKeepsOrders(session.customers, now);
      CheckPatience(now);
      return false;
    }

    /** "Next Day": the day counter moves on, nothing else changes. */
    method NextDay()
      requires Valid() && phase == Summary
      modifies this`day, this`phase
      ensures Valid()
      ensures day == old(day) + 1 && phase == Prep
    {
      day := day + 1;
      phase := Prep;
    }
  }
}
