# Pizza Parlour in Dafny

A model of the game logic of Pizza Parlour, a browser game written in one
JavaScript file (`game.js`). Each day has four phases:

- **Prep.** The player orders ingredients from cash.
- **Pricing.** The player sets the pizza price. The price fixes the day's expected demand.
- **Service.** The shop runs a 120-second session. Customers arrive and wait in a queue of at most five. The player stages dough, sauce, cheese and toppings and serves the customer at the head. Every second a tick checks each waiting customer's patience.
- **Summary.** The session is settled into cash and a rolling five-day history. "Next Day" then moves the day counter on.

Money and prices are integers counting tenths of a dollar. Every constant and every price the slider can produce (4.00 to 12.00 in steps of 0.10) is exact in tenths, so the model does no floating-point arithmetic on money. `Math.round` is written out as `RoundDiv`. Waits are in milliseconds, as `Date.now()` gives them: "more than 10 seconds" is `now - arrival > 10000`.

The project has four modules:

- `Economy` (`economy.dfy`): ingredients, per-ingredient counts, unit costs, the order total and the demand curve.
- `Service` (`service.dfy`): customers, what a serve checks and uses, the perfect-match rule, the stock floor that serving keeps, and `SweepQueue`. `SweepQueue` is the value-level meaning of the tick's patience sweep.
- `History` (`history.dfy`): the day record, the fulfillment percentage, and the push-then-shift five-day history.
- `Parlour` (`parlour.dfy`): the class `Game`. Its fields are the persisted state (`day`, `cash`, `inventory`, `price`, `lastOrderCost`, `history`), the phase, the service session (`serviceData`) and the staged pizza. Each method is one event handler. Each loop of the source is a `while` loop with its invariants: `Receive`, `ResetAssembly`, `ConsumeStock`, `UsageOf` and `CheckPatience` are proved equal to a function of their inputs, `FindShortage` is proved to return the first index whose stock is not positive, and `Spawn` is proved to append the picked toppings. The `every` of the perfect-match test (game.js:204) is the quantified predicate `PerfectMatch`.

`Game.Valid()` is the invariant every handler keeps:

- the day is at least 1;
- the price is on the slider's range;
- the stock floor holds: base ingredients never below 0, toppings never below −1;
- the staged counts are non-negative;
- the queue holds at most five customers, each with a well-formed order;
- the history holds at most five records of consecutive days, oldest first.

The model follows the code, not the intended design, in these places:

- **A rejected order keeps its stock.** The order handler credits the stock while it sums the total and only then compares the total with the cash (game.js:121-122). `Game.PlaceOrder` proves that the stock is credited whether or not the order is accepted.
- **Stock can reach −1.** The stock check at a serve only asks for a positive count per listed ingredient (game.js:192-193). A topping ordered twice therefore gets through with one unit in stock, and its stock drops to −1. `Service.DoubledToppingOverdraws` exhibits this. `Service.ServeKeepsStockFloor` proves that −1 is the lowest it goes.
- **The perfect-match bonus goes by presence.** It requires only one staged unit of each ordered topping, however many the order has (game.js:204).
- **A day with no arrivals gets 0 % fulfillment**, not 100 %, because the `|| 1` only replaces the denominator (game.js:275).
- **A removal during the tick skips a customer.** Removing a timed-out customer during the tick's `forEach` shifts the array under the running index. The customer right behind is not looked at that tick (game.js:239-249).

## Model

| member | source | states |
|---|---|---|
| Economy.UnitCost | game.js:6 | every unit cost is positive, and each topping costs 0.40 |
| Economy.OrderCostClosedForm | game.js:121 | the order total is 1.00·dough + 0.50·sauce + 0.80·cheese + 0.40 per topping unit |
| Economy.OrderCostZeroIff | game.js:121 | with natural quantities the total is never negative, and it is zero exactly when nothing is ordered |
| Economy.RoundDivNearest | game.js:138-139 | `RoundDiv(a, b)` is the integer nearest to a/b, with halves rounded up, as `Math.round` |
| Economy.RoundDivMonotone | game.js:138-139 | rounding a quotient is monotone in the dividend |
| Economy.Demand | game.js:136-141 | demand is never negative; it is at most 30 at or above 8.00 and at least 30 at or below 8.00 |
| Economy.DemandScenarios | game.js:136-141 | demand is 30 at 8.00, 20 at 12.00 and 35 at 4.00 |
| Economy.DemandNonIncreasing | game.js:136-141 | for any two prices, the higher never has more demand |
| Economy.DemandPositiveIff | game.js:136-141 | demand is positive exactly below 20.30, and it lies in [20, 35] over the slider's range |
| Service.OccurrencesIsMultiplicity | game.js:200 | the per-topping count the usage loop builds is the multiset multiplicity of that topping in the order |
| Service.WellFormedCount | game.js:230-233 | a spawned order has at most two toppings and no base ingredient, and counts no topping it lacks |
| Service.ServeKeepsStockFloor | game.js:192-201 | after a serve that passed the stock check, base stock stays ≥ 0 and topping stock ≥ −1 |
| Service.DoubledToppingOverdraws | game.js:192-201 | with one pepperoni in stock, a double-pepperoni order passes the check and leaves pepperoni at −1 |
| Service.PerfectMatchByPresence | game.js:204 | the bonus holds iff each ordered topping is staged at least once; staging more never loses it; a doubled topping needs one unit |
| Service.SweepShape | game.js:239-249 | every customer is either kept or timed out; the impatient are among the kept; the kept come from the queue |
| Service.SweepKeepsOrders | game.js:239-249 | a sweep never lengthens the queue, and the orders it keeps stay well-formed |
| Service.SweepKeepsPatient | game.js:244-248 | nobody who has waited at most 10 s is removed |
| Service.SweepWhenNoneOverdue | game.js:239-249 | with nobody past 10 s, the queue is unchanged and each customer past 6 s costs one point |
| Service.SweepSkipsNext | game.js:239-249 | when the head of the queue and the customer behind are both overdue, only the head leaves; the second is kept and not charged that tick |
| Service.SweepSkipsBehindFirstTimeout | game.js:239-249 | wherever the first overdue customer stands, everyone before them is kept in place and the customer right behind them is kept, whatever their wait |
| Service.SweepScenarios | game.js:244-248 | a lone customer leaves after 11 s, stays and costs one point after 7 s, and costs nothing after 5 s |
| Service.SweepStepTimeout | game.js:244-245 | removing the customer at index i and stepping to i+1 preserves "swept prefix + sweep of the rest" |
| Service.SweepStepStay | game.js:246-248 | keeping the customer at index i and stepping preserves the same split, adding one impatient point after 6 s |
| History.Fulfillment | game.js:275 | the fulfillment is between 0 and 100; it is 0 when nobody was served, and 100 when someone was served and nobody was missed |
| History.FulfillmentShare | game.js:275 | fulfillment times the number of arrivals is 100 × served |
| History.AppendTrimShape | game.js:277-278 | the history grows by one up to five; the result is a suffix of the old history plus the new record, and ends with the new record |
| History.ReplayKeepsLastFive | game.js:277-278 | after any number of settled days the history is exactly the last five records, oldest first |
| History.SixDays | game.js:277-278 | after six days from empty, day one's record is gone and the other five remain in order |
| History.AppendTrimChronological | game.js:277-278 | settling the day after the newest record keeps the history consecutive and at most five long |
| Economy.CostOf | game.js:121 | the running total of the order loop: the quantity times the unit cost of each listed ingredient, summed in list order |
| Economy.OrderCost | game.js:121 | the order total, `CostOf` over the six ingredients in the game's order |
| Economy.BaseTerm | game.js:138 | `round(30 · (1 − 0.08 · max(0, p − 8)))` in tenths, before the clamp at 0 |
| Economy.Bonus | game.js:139 | the discount bonus `round((8 − p) · 0.08 · 0.5 · 30)` for a price below 8.00 |
| Service.Required | game.js:192 | the ingredients the stock check visits, in its order: dough, sauce, cheese, then each ordered topping |
| Service.InStock | game.js:192-193 | the stock check passes: every visited ingredient has a positive count |
| Service.Assembled | game.js:190 | at least one dough, one sauce and one cheese are staged |
| Service.Occurrences | game.js:200 | how many times an ingredient occurs in an order |
| Service.Need | game.js:199-200 | units of one ingredient a pizza uses: 1 for a base ingredient, plus its occurrences in the order |
| Service.NeedOf | game.js:199-200 | the usage record of one pizza, `Need` for each of the six ingredients |
| Service.PerfectMatch | game.js:204 | `cust.toppings.every(t => assemble[t])`: every ordered topping has a non-zero staged count |
| Service.SweepQueue | game.js:239-249 | the tick's forEach with its splice: an overdue head leaves and the customer behind it is passed over; a kept customer past 6 s counts as impatient |
| History.AppendTrim | game.js:277-278 | push the new record, then shift the oldest when there are more than five |
| Parlour.FreshSession | game.js:155 | the `serviceData` that opening the shop creates: 120 s, nothing earned, served, missed or used, satisfaction 100, empty queue, the demand as arrivals |
| Parlour.Game.Today | game.js:271-276 | the day record settlement stores: costs = last order cost + 20.00, profit = revenue − costs, fulfillment, satisfaction and price |
| Parlour.Game.constructor | game.js:12-19 | a first run: day 1, cash 100.00, no stock, price 8.00, no history, in Prep, invariant established |
| Parlour.Game.PlaceOrder | game.js:119-126 | stock is credited by the order whether or not it is accepted; accepted iff its total ≤ cash; if accepted, cash drops by the total, the cost is recorded and pricing starts, and otherwise cash, recorded cost and phase are unchanged |
| Parlour.Game.Receive | game.js:121 | the loop adds each quantity to the stock and returns the order total |
| Parlour.Game.SetPrice | game.js:142-143 | the price becomes the slider value and the invariant holds |
| Parlour.Game.OpenShop | game.js:149-162 | a fresh session: 120 s, no revenue, no counts, 100 satisfaction, empty queue, today's demand as arrivals; empty pizza |
| Parlour.Game.Stage | game.js:170 | exactly one more unit of the pressed ingredient is staged |
| Parlour.Game.ResetAssembly | game.js:211 | every staged count is 0 |
| Parlour.Game.RemoveCustomer | game.js:213-216 | the customer at the index is spliced out and nothing else in the session changes |
| Parlour.Game.ConsumeStock | game.js:201 | stock falls by the usage, and the day's usage rises by it; nothing else changes |
| Parlour.Game.FindShortage | game.js:192-193 | the first listed ingredient whose stock is not positive, or the list length when all are in stock |
| Parlour.Game.UsageOf | game.js:199-200 | the usage record is one of each base ingredient plus one per ordered topping instance |
| Parlour.Game.Serve | game.js:187-209 | the four outcomes, each with a both-ways condition: no customer, no base staged, the first short ingredient, or a sale. A rejection changes nothing. A stockout adds a miss, costs 10 points, removes the head and empties the pizza. A sale deducts the pizza's usage, earns the price, counts a serve, adds 5 points for a perfect match, removes the head and empties the pizza. The invariant holds |
| Parlour.Game.TurnAway | game.js:193-195 | a stockout: one more miss, 10 points less, the head gone, the pizza empty |
| Parlour.Game.Dismiss | game.js:205-206 | the head customer is gone and the pizza is empty, all else unchanged |
| Parlour.Game.Sell | game.js:198-206 | a sale's full effect on stock, revenue, served, usage, satisfaction, queue and pizza |
| Parlour.Game.Spawn | game.js:228-235 | a customer is added iff fewer than five wait (the cap at line 261); the new one is at the tail, with the given arrival time and the picked toppings; the rest of the queue is unchanged |
| Parlour.Game.Settle | game.js:269-279 | cash rises by revenue less the fixed 20.00; today's record is pushed and the oldest is dropped past five; Summary phase |
| Parlour.Game.CheckPatience | game.js:239-249 | the index loop with its splice leaves the queue, the misses and the satisfaction exactly as `SweepQueue` says |
| Parlour.Game.Tick | game.js:237-238 | the clock drops by one; once it falls below zero the day is settled and nobody's patience is checked; otherwise the patience sweep runs |
| Parlour.Game.NextDay | game.js:299 | the day counter rises by one, Prep begins, and the invariant holds |

## Left out

- Rendering, the DOM, the top bar, the dashboard, audio, alerts and the rotating tip are presentation. The satisfaction clamp to [0, 100] exists only on the top bar, so the model keeps satisfaction unclamped.
- `localStorage` persistence is left out. The model starts from the first-run state and does not restore a saved one.
- `setInterval` scheduling is not modelled. The tick and the spawn timer are methods the environment calls. `arrivalTotal` is recorded, but the spawn interval computed from it (game.js:260) is not: the model does not track when the timer fires.
- `Date.now()` and `Math.random()` become parameters: `now` for Spawn and Tick, `picks` for Spawn. One `now` serves the whole patience sweep of a tick, while the source reads the clock again for each customer (game.js:240). A customer whose wait crosses a threshold during the sweep may therefore be judged differently.
- The customer's `id` and its unused `patience: 6` field are not kept. Customers are identified by their place in the queue. `removeCustomer`'s `indexOf` lookup becomes removal at a known index: index 0 at the serve button, the loop index in the tick.
- The order form's `valueAsNumber || 0` is not modelled. Quantities are natural numbers, so `PlaceOrder` requires them to be non-negative. An empty or non-numeric field is modelled as 0.
- Parlour.Game.constructor: `lastOrderCost` starts at 0, while the source leaves it undefined until the first accepted order. The source would therefore compute `NaN` costs for a day settled with no order accepted.
- The day record omits the source record's constant `waste: 0` field. The day's `usedCost` (game.js:270) is computed but never used, so it is left out.
- Parlour.Game.SetPrice: the slider's `parseFloat` value is taken as an integer number of tenths in [40, 120]. This exact value cannot drift the way floating-point arithmetic can.
- JavaScript floating-point rounding is not reproduced. The order total is a float sum compared with the cash (game.js:121-122), so in the source an order whose total equals the cash exactly can be refused, while the model's exact tenths accept it. The fulfillment percentage is an exact `real` here, not a double (game.js:275).
- The settings (audio, reduced motion) and any save-file export are outside this model.
