/** The value-level rules of the service phase: customers, what a serve
    needs and uses, the perfect-match bonus, and what one patience sweep of
    the per-second tick does to the queue. The state that these rules change
    lives in `Parlour.Game`. */
module Service {
  import opened Economy

  /** A waiting customer: when they arrived (milliseconds) and their toppings.
      Customers are identified by their place in the queue. */
  datatype Customer = Customer(arrival: int, toppings: seq<Ingredient>)

  /** The toppings a new customer chooses from, indexed by the random pick. */
  const ToppingOptions: seq<Ingredient> := [Pepperoni, Mushrooms, Peppers]

  /** A spawn is dropped while this many customers wait. */
  const MaxQueue := 5
  /** Waits in milliseconds: beyond WarnWait a customer loses 1 satisfaction
      per tick, beyond Timeout they leave. */
  const WarnWait := 6000
  const Timeout := 10000
  const TimeoutPenalty := 10
  const StockoutPenalty := 10
  const PerfectBonus := 5

  /** What a spawned customer can order: up to two toppings, repeats allowed. */
  predicate WellFormedOrder(t: seq<Ingredient>) {
    |t| <= 2 && forall n :: 0 <= n < |t| ==> IsTopping(t[n])
  }

  /** The ingredients whose stock a serve checks, in the order it checks them. */
  function Required(t: seq<Ingredient>): seq<Ingredient> {
    [Dough, Sauce, Cheese] + t
  }

  /** Every checked ingredient has positive stock. */
  predicate InStock(inv: Counts, t: seq<Ingredient>) {
    forall n :: 0 <= n < |Required(t)| ==> inv.Get(Required(t)[n]) > 0
  }

  /** The staged pizza has at least one dough, sauce and cheese. */
  predicate Assembled(a: Counts) {
    a.Get(Dough) >= 1 && a.Get(Sauce) >= 1 && a.Get(Cheese) >= 1
  }

  /** How many times `k` occurs in `t`. */
  function Occurrences(t: seq<Ingredient>, k: Ingredient): nat
  {
    if t == [] then 0
    else Occurrences(t[..|t| - 1], k) + (if t[|t| - 1] == k then 1 else 0)
  }

  /** The count is the multiset multiplicity. */
  lemma {:induction false} OccurrencesIsMultiplicity(t: seq<Ingredient>, k: Ingredient)
    ensures Occurrences(t, k) == multiset(t)[k]
  {
    if t != [] {
      var init := t[..|t| - 1];
      assert t == init + [t[|t| - 1]];
      OccurrencesIsMultiplicity(init, k);
    }
  }

  /** Units of `k` a pizza for toppings `t` uses: one of each base ingredient
      and one per ordered topping instance. */
  function Need(t: seq<Ingredient>, k: Ingredient): nat {
    (if IsBase(k) then 1 else 0) + Occurrences(t, k)
  }

  /** The usage record of one pizza for toppings `t`. */
  function NeedOf(t: seq<Ingredient>): Counts
  {
    Counts(Need(t, Dough), Need(t, Sauce), Need(t, Cheese), Need(t, Pepperoni), Need(t, Mushrooms), Need(t, Peppers))
  }

  lemma NeedOfGet(t: seq<Ingredient>)
    ensures forall k :: NeedOf(t).Get(k) == Need(t, k)
  {
  }

  /** Every ordered topping is staged at least once (a doubled topping needs
      only one staged unit). */
  predicate PerfectMatch(t: seq<Ingredient>, a: Counts) {
    forall n :: 0 <= n < |t| ==> a.Get(t[n]) != 0
  }

  /** The stock floor the game keeps: base ingredients never drop below 0,
      toppings never below -1. */
  predicate StockFloor(inv: Counts) {
    inv.Get(Dough) >= 0 && inv.Get(Sauce) >= 0 && inv.Get(Cheese) >= 0 &&
    inv.Get(Pepperoni) >= -1 && inv.Get(Mushrooms) >= -1 && inv.Get(Peppers) >= -1
  }

  /** An order of well-formed toppings holds no base ingredient and no
      ingredient more than twice; an ingredient it does not hold occurs 0
      times. */
  lemma {:induction false} WellFormedCount(t: seq<Ingredient>, k: Ingredient)
    requires WellFormedOrder(t)
    ensures Occurrences(t, k) <= |t| <= 2
    ensures IsBase(k) || k !in t ==> Occurrences(t, k) == 0
  {
    if t != [] {
      var init := t[..|t| - 1];
      assert t == init + [t[|t| - 1]];
      assert forall n :: 0 <= n < |init| ==> init[n] == t[n];
      WellFormedCount(init, k);
    }
  }

  /** A serve that passed the stock check leaves the stock floor in place.
      Base ingredients stay non-negative; a topping ordered twice with one
      unit in stock reaches -1 (see `DoubledToppingOverdraws`). */
  lemma ServeKeepsStockFloor(inv: Counts, t: seq<Ingredient>)
    requires StockFloor(inv) && WellFormedOrder(t) && InStock(inv, t)
    ensures StockFloor(Minus(inv, NeedOf(t)))
  {
    forall k ensures inv.Get(k) - Need(t, k) >= (if IsBase(k) then 0 else -1) {
      WellFormedCount(t, k);
      if IsBase(k) {
        assert Required(t)[IndexOf(k)] == k;
      } else if k in t {
        var n :| 0 <= n < |t| && t[n] == k;
        assert Required(t)[3 + n] == k;
      }
    }
    NeedOfGet(t);
  }

  /** The stock check looks only for a positive count, so one pepperoni in
      stock lets a double-pepperoni pizza through and leaves -1. */
  lemma DoubledToppingOverdraws(inv: Counts)
    requires inv.Get(Dough) > 0 && inv.Get(Sauce) > 0 && inv.Get(Cheese) > 0 && inv.Get(Pepperoni) == 1
    ensures InStock(inv, [Pepperoni, Pepperoni])
    ensures Minus(inv, NeedOf([Pepperoni, Pepperoni])).Get(Pepperoni) == -1
  {
    var pp := [Pepperoni, Pepperoni];
    assert pp[..1] == [Pepperoni] && pp[..1][..0] == [];
    assert Occurrences([Pepperoni], Pepperoni) == 1;
    assert Occurrences(pp, Pepperoni) == 2;
  }

  /** The bonus is decided by presence alone: it holds iff every ordered
      topping has a staged count of at least 1, and staging more of anything
      never takes it away. */
  lemma PerfectMatchByPresence(t: seq<Ingredient>, a: Counts, a': Counts)
    requires NonNegative(a) && forall k :: a'.Get(k) >= a.Get(k)
    ensures PerfectMatch(t, a) <==> forall k :: k in t ==> a.Get(k) >= 1
    ensures PerfectMatch(t, a) ==> PerfectMatch(t, a')
    ensures PerfectMatch([Pepperoni, Pepperoni], a) <==> a.Get(Pepperoni) >= 1
  {
    if forall k :: k in t ==> a.Get(k) >= 1 {
      forall n | 0 <= n < |t| ensures a.Get(t[n]) != 0 {
        assert t[n] in t;
      }
    }
    var pp := [Pepperoni, Pepperoni];
    assert PerfectMatch(pp, a) <==> a.Get(pp[0]) != 0 && a.Get(pp[1]) != 0;
  }

  /** What one tick's patience sweep leaves behind. */
  datatype Sweep = Sweep(kept: seq<Customer>, timedOut: nat, impatient: nat)

  function Wait(c: Customer, now: int): int {
    now - c.arrival
  }

  /** The sweep as the tick's forEach runs it: a customer whose wait exceeds
      Timeout leaves, and because the array shifts under the running index
      the customer right behind is not looked at this tick; a customer
      waiting more than WarnWait stays and counts as impatient. */
  function SweepQueue(cs: seq<Customer>, now: int): Sweep
    decreases |cs|
  {
    if cs == [] then Sweep([], 0, 0)
    else if Wait(cs[0], now) > Timeout then
      if |cs| == 1 then Sweep([], 1, 0)
      else
        var r := SweepQueue(cs[2..], now);
        Sweep([cs[1]] + r.kept, r.timedOut + 1, r.impatient)
    else
      var r := SweepQueue(cs[1..], now);
      Sweep([cs[0]] + r.kept, r.timedOut, r.impatient + (if Wait(cs[0], now) > WarnWait then 1 else 0))
  }

  /** Every customer is either kept or timed out; the kept ones come from
      the queue, so a sweep never lengthens it. */
  lemma {:induction false} SweepShape(cs: seq<Customer>, now: int)
    ensures |SweepQueue(cs, now).kept| + SweepQueue(cs, now).timedOut == |cs|
    ensures SweepQueue(cs, now).impatient <= |SweepQueue(cs, now).kept|
    ensures multiset(SweepQueue(cs, now).kept) <= multiset(cs)
    decreases |cs|
  {
    if cs != [] {
      ConsSplit(cs);
      MultisetCons(cs[0], cs[1..]);
      if Wait(cs[0], now) > Timeout {
        if |cs| > 1 {
          var r := SweepQueue(cs[2..], now);
          SweepShape(cs[2..], now);
          ConsSplit(cs[1..]);
          assert cs[1..][1..] == cs[2..];
          MultisetCons(cs[1], cs[2..]);
          MultisetCons(cs[1], r.kept);
        }
      } else {
        SweepShape(cs[1..], now);
        MultisetCons(cs[0], SweepQueue(cs[1..], now).kept);
      }
    }
  }

  /** Every waiting customer's order is well-formed. */
  predicate WellFormedQueue(cs: seq<Customer>) {
    forall c :: c in cs ==> WellFormedOrder(c.toppings)
  }

  /** A sweep never lengthens the queue and keeps only customers who were
      in it, so their orders stay well-formed. */
  lemma SweepKeepsOrders(cs: seq<Customer>, now: int)
    requires WellFormedQueue(cs)
    ensures |SweepQueue(cs, now).kept| <= |cs|
    ensures WellFormedQueue(SweepQueue(cs, now).kept)
  {
    SweepShape(cs, now);
    assert forall c :: c in SweepQueue(cs, now).kept ==> c in multiset(cs);
  }

  /** Nobody who has waited at most Timeout is removed. */
  lemma {:induction false} SweepKeepsPatient(cs: seq<Customer>, now: int, c: Customer)
    requires Wait(c, now) <= Timeout
    ensures multiset(SweepQueue(cs, now).kept)[c] == multiset(cs)[c]
    decreases |cs|
  {
    if cs == [] {
    } else if Wait(cs[0], now) > Timeout {
      if |cs| > 1 {
        SweepKeepsPatient(cs[2..], now, c);
        KeptAfterTimeout(cs, now, c);
      }
    } else {
      SweepKeepsPatient(cs[1..], now, c);
      KeptAfterStay(cs, now, c);
    }
  }

  /** The step of `SweepKeepsPatient` where the head times out. */
  lemma KeptAfterTimeout(cs: seq<Customer>, now: int, c: Customer)
    requires |cs| > 1 && Wait(cs[0], now) > Timeout && Wait(c, now) <= Timeout
    requires multiset(SweepQueue(cs[2..], now).kept)[c] == multiset(cs[2..])[c]
    ensures multiset(SweepQueue(cs, now).kept)[c] == multiset(cs)[c]
  {
    ConsSplit(cs);
    ConsSplit(cs[1..]);
    assert cs[1..][1..] == cs[2..];
    CountCons(cs[0], cs[1..], c);
    CountCons(cs[1], cs[2..], c);
    CountCons(cs[1], SweepQueue(cs[2..], now).kept, c);
  }

  /** The step of `SweepKeepsPatient` where the head stays. */
  lemma KeptAfterStay(cs: seq<Customer>, now: int, c: Customer)
    requires cs != [] && Wait(cs[0], now) <= Timeout
    requires multiset(SweepQueue(cs[1..], now).kept)[c] == multiset(cs[1..])[c]
    ensures multiset(SweepQueue(cs, now).kept)[c] == multiset(cs)[c]
  {
    ConsSplit(cs);
    CountCons(cs[0], cs[1..], c);
    CountCons(cs[0], SweepQueue(cs[1..], now).kept, c);
  }

  lemma ConsSplit<T>(s: seq<T>)
    requires s != []
    ensures s == [s[0]] + s[1..]
  {
  }

  lemma MultisetCons<T>(x: T, s: seq<T>)
    ensures multiset([x] + s) == multiset{x} + multiset(s)
  {
  }

  lemma CountCons<T>(x: T, s: seq<T>, y: T)
    ensures multiset([x] + s)[y] == multiset(s)[y] + (if x == y then 1 else 0)
  {
    assert multiset([x] + s) == multiset{x} + multiset(s);
  }

  /** Number of customers waiting more than WarnWait. */
  function CountImpatient(cs: seq<Customer>, now: int): nat
  {
    if cs == [] then 0
    else (if Wait(cs[0], now) > WarnWait then 1 else 0) + CountImpatient(cs[1..], now)
  }

  /** With nobody past Timeout the sweep keeps the whole queue and charges
      one point per customer waiting more than WarnWait. */
  lemma {:induction false} SweepWhenNoneOverdue(cs: seq<Customer>, now: int)
    requires forall n :: 0 <= n < |cs| ==> Wait(cs[n], now) <= Timeout
    ensures SweepQueue(cs, now) == Sweep(cs, 0, CountImpatient(cs, now))
    decreases |cs|
  {
    if cs != [] {
      SweepWhenNoneOverdue(cs[1..], now);
      assert cs == [cs[0]] + cs[1..];
    }
  }

  /** Two overdue customers in a row: the second survives this tick. */
  lemma SweepSkipsNext(cs: seq<Customer>, now: int)
    requires |cs| >= 2 && Wait(cs[0], now) > Timeout && Wait(cs[1], now) > Timeout
    ensures |SweepQueue(cs, now).kept| >= 1 && SweepQueue(cs, now).kept[0] == cs[1]
    ensures SweepQueue(cs, now).impatient == SweepQueue(cs[2..], now).impatient
  {
  }

  /** Wherever the first overdue customer stands, the customer right behind
      them is kept that tick whatever their wait, and everyone before them
      is kept in place. */
  lemma {:induction false} SweepSkipsBehindFirstTimeout(cs: seq<Customer>, i: nat, now: int)
    requires i + 1 < |cs| && Wait(cs[i], now) > Timeout
    requires forall n :: 0 <= n < i ==> Wait(cs[n], now) <= Timeout
    ensures var r := SweepQueue(cs, now);
      |r.kept| > i && r.kept[..i] == cs[..i] && r.kept[i] == cs[i + 1]
    decreases i
  {
    if i > 0 {
      var tail := cs[1..];
      assert forall n :: 0 <= n < i - 1 ==> tail[n] == cs[n + 1];
      SweepSkipsBehindFirstTimeout(tail, i - 1, now);
      var k := SweepQueue(tail, now).kept;
      assert SweepQueue(cs, now).kept == [cs[0]] + k;
      assert ([cs[0]] + k)[..i] == [cs[0]] + k[..i - 1];
      assert cs[..i] == [cs[0]] + tail[..i - 1];
    }
  }

  /** A lone customer after 11, 7 and 5 seconds. */
  lemma SweepScenarios(c: Customer)
    ensures SweepQueue([c], c.arrival + 11000) == Sweep([], 1, 0)
    ensures SweepQueue([c], c.arrival + 7000) == Sweep([c], 0, 1)
    ensures SweepQueue([c], c.arrival + 5000) == Sweep([c], 0, 0)
  {
  }

  /** One step of the tick's loop at index `i` when the customer there has
      timed out: after removing them and stepping past the next one, the
      part already swept plus the sweep of the rest is what it was before. */
  lemma SweepStepTimeout(cs: seq<Customer>, i: nat, now: int)
    requires i < |cs| && Wait(cs[i], now) > Timeout
    ensures var cs' := cs[..i] + cs[i + 1..];
      var before, after := SweepQueue(Drop(cs, i), now), SweepQueue(Drop(cs', i + 1), now);
      Take(cs', i + 1) + after.kept == Take(cs, i) + before.kept &&
      before.timedOut == after.timedOut + 1 && before.impatient == after.impatient
  {
    var cs' := cs[..i] + cs[i + 1..];
    var d := Drop(cs, i);
    assert d[0] == cs[i];
    if i + 1 < |cs| {
      assert d[2..] == Drop(cs', i + 1);
      var after := SweepQueue(d[2..], now);
      assert SweepQueue(d, now).kept == [cs[i + 1]] + after.kept;
      assert Take(cs', i + 1) == cs[..i] + [cs[i + 1]];
      AppendAssoc(cs[..i], [cs[i + 1]], after.kept);
    } else {
      assert Take(cs', i + 1) == cs[..i];
      assert Drop(cs', i + 1) == [];
    }
  }

  /** One step of the tick's loop at index `i` when the customer there
      stays. */
  lemma SweepStepStay(cs: seq<Customer>, i: nat, now: int)
    requires i < |cs| && Wait(cs[i], now) <= Timeout
    ensures var before, after := SweepQueue(Drop(cs, i), now), SweepQueue(Drop(cs, i + 1), now);
      Take(cs, i + 1) + after.kept == Take(cs, i) + before.kept &&
      before.timedOut == after.timedOut &&
      before.impatient == after.impatient + (if Wait(cs[i], now) > WarnWait then 1 else 0)
  {
    var d := Drop(cs, i);
    assert d[0] == cs[i] && d[1..] == Drop(cs, i + 1);
    var after := SweepQueue(d[1..], now);
    assert SweepQueue(d, now).kept == [cs[i]] + after.kept;
    assert Take(cs, i + 1) == cs[..i] + [cs[i]];
    AppendAssoc(cs[..i], [cs[i]], after.kept);
  }

  lemma AppendAssoc<T>(a: seq<T>, b: seq<T>, c: seq<T>)
    ensures (a + b) + c == a + (b + c)
  {
  }

  /** The first `i` elements of `s`, or all of it. */
  function Take<T>(s: seq<T>, i: nat): seq<T> {
    if i <= |s| then s[..i] else s
  }

  /** What is left of `s` from position `i` on, or nothing. */
  function Drop<T>(s: seq<T>, i: nat): seq<T> {
    if i <= |s| then s[i..] else []
  }
}
