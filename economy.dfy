/** The economy of the pizza parlour: ingredients, their unit costs, the cost
    of an ingredient order and the price-to-demand curve.

    All money and all prices are integers counting TENTHS of a dollar: every
    unit cost, the fixed cost and every price the price slider can produce
    (step 0.1 between 4 and 12) is exact in tenths. */
module Economy {

  datatype Ingredient = Dough | Sauce | Cheese | Pepperoni | Mushrooms | Peppers

  /** The six ingredients in the order the game lists them. */
  const Ingredients: seq<Ingredient> := [Dough, Sauce, Cheese, Pepperoni, Mushrooms, Peppers]

  /** Where an ingredient stands in `Ingredients`. */
  function IndexOf(k: Ingredient): (n: nat)
    ensures n < |Ingredients| && Ingredients[n] == k
  {
    match k
    case Dough => 0
    case Sauce => 1
    case Cheese => 2
    case Pepperoni => 3
    case Mushrooms => 4
    case Peppers => 5
  }

  lemma IndexOfAt(n: nat)
    requires n < |Ingredients|
    ensures IndexOf(Ingredients[n]) == n
  {
  }

  /** Dough, sauce and cheese go on every pizza; the other three are toppings. */
  predicate IsBase(k: Ingredient) {
    k == Dough || k == Sauce || k == Cheese
  }

  predicate IsTopping(k: Ingredient) {
    !IsBase(k)
  }

  /** A count per ingredient (stock, staged pizza parts, usage, order
      quantities), like the game's `{dough: 0, sauce: 0, ...}` objects.
      Stock may go negative, so the counts are `int`. */
  datatype Counts = Counts(dough: int, sauce: int, cheese: int, pepperoni: int, mushrooms: int, peppers: int) {

    function Get(k: Ingredient): int {
      match k
      case Dough => dough
      case Sauce => sauce
      case Cheese => cheese
      case Pepperoni => pepperoni
      case Mushrooms => mushrooms
      case Peppers => peppers
    }

    /** The same counts with `k`'s count replaced by `v`. */
    function Set(k: Ingredient, v: int): (c: Counts)
      ensures forall j :: c.Get(j) == if j == k then v else Get(j)
    {
      match k
      case Dough => this.(dough := v)
      case Sauce => this.(sauce := v)
      case Cheese => this.(cheese := v)
      case Pepperoni => this.(pepperoni := v)
      case Mushrooms => this.(mushrooms := v)
      case Peppers => this.(peppers := v)
    }
  }

  const Zeros := Counts(0, 0, 0, 0, 0, 0)

  /** Two count records agree on every ingredient only when they are equal. */
  lemma CountsExtensional(a: Counts, b: Counts)
    requires forall k :: a.Get(k) == b.Get(k)
    ensures a == b
  {
    assert a.Get(Dough) == b.Get(Dough) && a.Get(Sauce) == b.Get(Sauce) && a.Get(Cheese) == b.Get(Cheese);
    assert a.Get(Pepperoni) == b.Get(Pepperoni) && a.Get(Mushrooms) == b.Get(Mushrooms) && a.Get(Peppers) == b.Get(Peppers);
  }

  /** Ingredient-wise sum and difference. */
  function Plus(a: Counts, b: Counts): Counts {
    Counts(a.dough + b.dough, a.sauce + b.sauce, a.cheese + b.cheese,
           a.pepperoni + b.pepperoni, a.mushrooms + b.mushrooms, a.peppers + b.peppers)
  }

  function Minus(a: Counts, b: Counts): Counts {
    Counts(a.dough - b.dough, a.sauce - b.sauce, a.cheese - b.cheese,
           a.pepperoni - b.pepperoni, a.mushrooms - b.mushrooms, a.peppers - b.peppers)
  }

  /** No count is below zero (written field by field, so that assuming it
      costs the verifier no quantifier). */
  predicate NonNegative(m: Counts) {
    m.Get(Dough) >= 0 && m.Get(Sauce) >= 0 && m.Get(Cheese) >= 0 &&
    m.Get(Pepperoni) >= 0 && m.Get(Mushrooms) >= 0 && m.Get(Peppers) >= 0
  }

  // Game constants, money in tenths of a dollar, time in seconds.
  const DayLength := 120
  const FixedCost := 200
  const DBase := 30
  /** The elasticity 0.08, as a percentage. */
  const ElasticityPct := 8
  const PriceRef := 80
  const MinPrice := 40
  const MaxPrice := 120
  const StartCash := 1000
  const StartPrice := 80

  /** Cost of one unit: dough 1.00, sauce 0.50, cheese 0.80, each topping 0.40. */
  function UnitCost(k: Ingredient): (c: nat)
    ensures c > 0
    ensures IsTopping(k) ==> c == 4
  {
    match k
    case Dough => 10
    case Sauce => 5
    case Cheese => 8
    case Pepperoni => 4
    case Mushrooms => 4
    case Peppers => 4
  }

  /** Sum of q * unitCost over the ingredients `ks`, in list order. */
  function CostOf(ks: seq<Ingredient>, qty: Counts): int
  {
    if ks == [] then 0
    else CostOf(ks[..|ks| - 1], qty) + qty.Get(ks[|ks| - 1]) * UnitCost(ks[|ks| - 1])
  }

  /** What an order of `qty` units costs. */
  function OrderCost(qty: Counts): int
  {
    CostOf(Ingredients, qty)
  }

  /** The order total written out ingredient by ingredient. */
  lemma OrderCostClosedForm(qty: Counts)
    ensures OrderCost(qty) == 10 * qty.dough + 5 * qty.sauce + 8 * qty.cheese
                              + 4 * (qty.pepperoni + qty.mushrooms + qty.peppers)
  {
    var s6 := Ingredients;
    var s5 := [Dough, Sauce, Cheese, Pepperoni, Mushrooms];
    var s4 := [Dough, Sauce, Cheese, Pepperoni];
    var s3 := [Dough, Sauce, Cheese];
    var s2 := [Dough, Sauce];
    var s1 := [Dough];
    assert s6[..5] == s5 && s5[..4] == s4 && s4[..3] == s3 && s3[..2] == s2 && s2[..1] == s1 && s1[..0] == [];
    assert CostOf(s1, qty) == 10 * qty.Get(Dough);
    assert CostOf(s2, qty) == CostOf(s1, qty) + 5 * qty.Get(Sauce);
    assert CostOf(s3, qty) == CostOf(s2, qty) + 8 * qty.Get(Cheese);
    assert CostOf(s4, qty) == CostOf(s3, qty) + 4 * qty.Get(Pepperoni);
    assert CostOf(s5, qty) == CostOf(s4, qty) + 4 * qty.Get(Mushrooms);
  }

  lemma {:induction false} CostOfZeroIff(ks: seq<Ingredient>, qty: Counts)
    requires NonNegative(qty)
    ensures CostOf(ks, qty) >= 0
    ensures CostOf(ks, qty) == 0 <==> forall n :: 0 <= n < |ks| ==> qty.Get(ks[n]) == 0
  {
    if ks != [] {
      var init, last := ks[..|ks| - 1], ks[|ks| - 1];
      CostOfZeroIff(init, qty);
      assert forall n :: 0 <= n < |init| ==> init[n] == ks[n];
    }
  }

  /** With natural quantities an order never costs less than nothing, and it
      is free exactly when nothing is ordered (every unit cost is positive). */
  lemma OrderCostZeroIff(qty: Counts)
    requires NonNegative(qty)
    ensures OrderCost(qty) >= 0
    ensures OrderCost(qty) == 0 <==> qty == Zeros
  {
    CostOfZeroIff(Ingredients, qty);
    if OrderCost(qty) == 0 {
      forall k ensures qty.Get(k) == Zeros.Get(k) {
        assert Ingredients[IndexOf(k)] == k;
      }
      CountsExtensional(qty, Zeros);
    }
  }

  /** Math.round(a / b), that is floor(a / b + 1/2), for a positive divisor:
      the integer nearest to a / b, halves rounded up. */
  function RoundDiv(a: int, b: int): (r: int)
    requires b > 0
  {
    (2 * a + b) / (2 * b)
  }
  lemma RoundDivNearest(a: int, b: int)
    requires b > 0
    ensures 2 * b * RoundDiv(a, b) - b <= 2 * a < 2 * b * RoundDiv(a, b) + b
  {
  }

  lemma RoundDivMonotone(a1: int, a2: int, b: int)
    requires b > 0 && a1 <= a2
    ensures RoundDiv(a1, b) <= RoundDiv(a2, b)
  {
    var r1, r2, x := RoundDiv(a1, b), RoundDiv(a2, b), 2 * b;
    RoundDivNearest(a1, b);
    RoundDivNearest(a2, b);
    assert x * r1 - x * r2 == x * (r1 - r2);
    FactorBelowOne(x, r1 - r2);
  }

  lemma FactorBelowOne(x: int, y: int)
    requires x > 0 && x * y < x
    ensures y < 1
  {
  }

  /** The base term `round(D * (1 - E * max(0, p - P_ref)))`, before the
      clamp at 0. With p in tenths, E * (p - P_ref) is 8 * m / 1000 where m
      is the excess in tenths. */
  function BaseTerm(p: int): int
  {
    var m := if p > PriceRef then p - PriceRef else 0;
    RoundDiv(DBase * (1000 - ElasticityPct * m), 1000)
  }

  /** The discount bonus `round((P_ref - p) * E * 0.5 * D)` for p below the
      reference price. */
  function Bonus(p: int): int
    requires p < PriceRef
  {
    RoundDiv((PriceRef - p) * ElasticityPct * DBase, 2000)
  }

  /** Expected customer arrivals for a day at price `p` (in tenths). */
  function Demand(p: int): (d: int)
    ensures d >= 0
    ensures p >= PriceRef ==> d <= DBase
    ensures p <= PriceRef ==> d >= DBase
  {
    var base := if BaseTerm(p) > 0 then BaseTerm(p) else 0;
    if p < PriceRef then base + Bonus(p) else base
  }

  /** The concrete values at the reference price and at both ends of the
      price slider. */
  lemma DemandScenarios()
    ensures Demand(PriceRef) == 30
    ensures Demand(MaxPrice) == 20
    ensures Demand(MinPrice) == 35
  {
  }

  /** Raising the price never brings more customers, over all prices. */
  lemma DemandNonIncreasing(p1: int, p2: int)
    requires p1 <= p2
    ensures Demand(p1) >= Demand(p2)
  {
    var m1 := if p1 > PriceRef then p1 - PriceRef else 0;
    var m2 := if p2 > PriceRef then p2 - PriceRef else 0;
    RoundDivMonotone(DBase * (1000 - ElasticityPct * m2), DBase * (1000 - ElasticityPct * m1), 1000);
    if p2 < PriceRef {
      RoundDivMonotone((PriceRef - p2) * ElasticityPct * DBase, (PriceRef - p1) * ElasticityPct * DBase, 2000);
    }
  }

  /** Demand falls to zero exactly from price 20.30 on; on the slider's range
      it stays between 20 and 35, so spawning is never switched off there. */
  lemma DemandPositiveIff(p: int)
    ensures Demand(p) > 0 <==> p < 203
    ensures MinPrice <= p <= MaxPrice ==> 20 <= Demand(p) <= 35
  {
    if p < 203 {
      assert Demand(202) == 1;
      DemandNonIncreasing(p, 202);
    } else {
      assert BaseTerm(p) <= BaseTerm(203) by {
        RoundDivMonotone(DBase * (1000 - ElasticityPct * (p - PriceRef)), DBase * (1000 - ElasticityPct * 123), 1000);
      }
    }
    if MinPrice <= p <= MaxPrice {
      DemandScenarios();
      DemandNonIncreasing(MinPrice, p);
      DemandNonIncreasing(p, MaxPrice);
    }
  }
}
