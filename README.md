# Tiered electricity bill

A Dafny model of the progressive (tiered) electricity-bill calculator of a single-page
calculator app. The app prices a month's usage in kWh under two regimes: the prices before
the rate change of 11/10/2024 and the prices from that date on. The tariff table has five
bounded brackets (50, 50, 100, 100 and 100 kWh) and one unbounded bracket. The calculation
fills the bounded brackets in order. Each bracket with a positive amount gets a line item
and adds to both running totals. Whatever usage is left afterwards is billed once, at the
last bracket's prices.

Files:

- `tariff.dfy` (module `Tariff`): the records (`Row`, whose `count` is `Bounded(cap)` or
  `Unbounded`, `BillDetail`, `Bill`), the constant table `ROWS`, the overflow label, the
  table's bounded capacity and the shape every table has (`WellFormed`).
- `billing.dfy` (module `Billing`): the calculation. `CalculateBill` is the imperative
  loop: three running locals and a growing list of line items, then the post-loop top-up.
  It is proved equal to `BillOf`, a recursive specification built from one step per
  bracket (`Step`), a left fold over the table (`Walk`) and the top-up (`Settle`).
- `properties.dfy` (module `BillProperties`): what the calculation promises. This covers
  conservation of kWh, bracket bounds, the remaining usage, the exact-boundary tie-break,
  empty bills, line-item order, overflow pricing, the ordering of the two regimes,
  monotonicity in usage, and concrete bills.

Usage is an exact `real`, and prices and capacities are `nat`. The amount a line bills is
`Cost(kwh, price) = kwh * price`, computed exactly. The table is a parameter of
`CalculateBill`. The source reads it from the module constant, which is `ROWS` here. The
lemmas are stated for any table, or for any `WellFormed` table. `RowsWellFormed` shows that
`ROWS` is one, with 400 kWh of bounded capacity.

On these points the model follows the code as written:

- A line item is emitted when an amount is strictly positive, not merely non-zero.
- The unbounded bracket is skipped inside the loop, so the overflow is billed exactly once.
  No line is ever duplicated.
- The overflow line's label is the fixed text `"> 401 kWh"`. It is not read from the last
  bracket. It equals that bracket's label in the table.
- A zero or negative usage neither fails nor produces odd amounts. No branch of the loop
  fires, nothing is left over, and the bill is empty with both totals 0 (`EmptyBill`).

## Model

| member | source | states |
|---|---|---|
| `Billing.CalculateBill` | src/app/page.tsx:117-182 | the loop and top-up compute exactly the recursive specification `BillOf(table, usage)`, and each returned total equals the sum of the corresponding amounts over the returned line items |
| `Billing.Take` | src/app/page.tsx:139-147 | the kWh a bounded bracket takes is `min(count, max(0, remaining))`, and for non-negative remaining usage what is left is `max(0, remaining - count)` |
| `Billing.Step` | src/app/page.tsx:129-160 | one bracket of the loop: the unbounded bracket is skipped, a bounded one takes `Take(remaining, cap)` kWh off the remaining usage, and a line item is appended (and the totals grow) only when an amount is > 0, and its contract states that a step adds at most one line, the kWh and totals moved being stated by `StepTotals` and `StepConservation` |
| `Billing.Walk` | src/app/page.tsx:129-161 | the state after the loop over the whole table, as one step per bracket in table order from zero totals, no items and the full usage; its contract states that the loop emits at most one line per bracket |
| `Billing.Settle` | src/app/page.tsx:163-179 | the top-up after the loop: a positive remaining usage is billed at the last bracket's two prices under the fixed label `"> 401 kWh"` and otherwise the bill is the loop's state unchanged; its contract states that it adds a line exactly when usage remains, the amounts being stated by `SettleConservation` |
| `Billing.BillOf` | src/app/page.tsx:117-182 | the whole bill, the loop followed by the top-up at the last bracket; its contract states that the bill has at most one line per bracket plus the overflow line |
| `Billing.WalkTotalsMatch` | src/app/page.tsx:149-160 | after any number of brackets, `totalBefore` and `totalAfter` are the sums of the before and after amounts of the line items emitted so far |
| `Billing.TotalsMatchItems` | src/app/page.tsx:149-179 | in the final bill, both totals equal the sums of the line items' amounts, the overflow item included |
| `Tariff.RowsWellFormed` | src/app/page.tsx:25-68 | the constant table has keys 1 to 6, distinct labels, only the last bracket unbounded and labelled `"> 401 kWh"`, positive prices with after ≥ before, and 400 kWh of bounded capacity |
| `BillProperties.StepTotals` | src/app/page.tsx:139-160 | one bracket takes its kWh off the remaining usage and adds their cost at each price to the matching total, whether or not it emits a line |
| `BillProperties.WalkRemaining` | src/app/page.tsx:126-147 | after the bounded brackets, the remaining usage is `max(0, usage - capacity)` for positive usage, and the usage itself when it is not positive |
| `BillProperties.RemainingNeverIncreases` | src/app/page.tsx:139-147 | from bracket to bracket the remaining usage never grows, and it never becomes negative when the usage is non-negative |
| `BillProperties.RowsRemaining` | src/app/page.tsx:126-161 | with the constant table, what is left after the loop is `max(0, usage - 400)` for positive usage |
| `BillProperties.WalkIdle` | src/app/page.tsx:139-160 | with a usage that is not positive, the loop emits nothing, adds nothing and leaves the remaining usage unchanged |
| `BillProperties.EmptyBill` | src/app/page.tsx:124-181 | a usage that is zero or negative gives an empty list of line items and both totals 0 |
| `BillProperties.Exhausted` | src/app/page.tsx:143-147 | once no usage remains, later brackets change neither the totals, nor the line items, nor the remaining usage |
| `BillProperties.TieBreak` | src/app/page.tsx:139-146 | usage exactly equal to a bounded bracket's capacity is absorbed whole by that bracket: nothing remains, its cost is added once, later brackets add nothing and no overflow line appears |
| `BillProperties.WalkMonotone` | src/app/page.tsx:129-161 | more usage never gives less remaining usage or a smaller running total after the loop |
| `BillProperties.Monotone` | src/app/page.tsx:139-179 | both final totals are non-decreasing in the usage |
| `BillProperties.WalkRegime` | src/app/page.tsx:129-161 | when every bracket's after price is at least its before price, the running after-total is at least the before-total |
| `BillProperties.RegimeOrdering` | src/app/page.tsx:139-179 | under the same condition, the final after-total is at least the before-total for every usage |
| `BillProperties.RowsRegimeAndMonotone` | src/app/page.tsx:25-68 | with the constant table, the after-total is never below the before-total, and both totals grow with the usage |
| `BillProperties.StepConservation` | src/app/page.tsx:139-160 | one bracket moves kWh from the remaining usage into its line item without loss, billing them at its own two prices within its capacity |
| `BillProperties.WalkConservation` | src/app/page.tsx:129-161 | during the loop, the kWh behind the emitted items plus the remaining usage equal the usage, and the remaining usage stays non-negative |
| `BillProperties.SettleConservation` | src/app/page.tsx:164-179 | the top-up bills all the usage left after the loop exactly once, at the last bracket's two prices |
| `BillProperties.Conservation` | src/app/page.tsx:139-179 | for non-negative usage, the kWh behind the line items (amount ÷ bracket price) add up exactly to the usage, and each item bills a positive number of kWh of its own bracket, at its two prices and within its capacity |
| `BillProperties.StepOrder` | src/app/page.tsx:139-158 | one bracket keeps the line items in table order: only a bounded bracket adds an item, and it comes after every earlier one |
| `BillProperties.WalkOrder` | src/app/page.tsx:129-161 | each loop item comes from an earlier bounded bracket, and the items follow the table's order strictly |
| `BillProperties.ItemsInTableOrder` | src/app/page.tsx:149-179 | the line items name brackets of the table in strictly increasing table order, so no bracket appears twice, and no item but the last can carry the overflow label |
| `BillProperties.OverflowItem` | src/app/page.tsx:164-179 | the overflow line is present exactly when usage exceeds the bounded capacity; it is then the last line and bills the excess at the last bracket's two prices |
| `BillProperties.OverflowPricing` | src/app/page.tsx:164-175 | with the constant table, usage above 400 kWh ends the bill with `"> 401 kWh"` billed at `(usage - 400) × 3151` and `(usage - 400) × 3302`; that label appears on no other line and is absent at 400 kWh or less |
| `BillProperties.Usage120` | src/app/page.tsx:25-46 | 120 kWh give 50×1806/50×1893, 50×1866/50×1956 and 20×2167/20×2271, with totals 226940 and 237870 |
| `BillProperties.Usage50` | src/app/page.tsx:139-146 | exactly 50 kWh are billed as one line for the first bracket only (90300 and 94650) |
| `BillProperties.Usage75` | src/app/page.tsx:139-147 | 75 kWh fill the first bracket and put 25 kWh in the second (46650 and 48900) |

## Left out

- The React component shell (`useState`, the `useEffect` recomputation) is UI wiring with no logic.
- `onSubmit` is left out. It reads browser form data and parses text with `parseFloat`, which is I/O and float parsing.
- `formatCurrency` and the `formattedBeforeAmount`/`formattedAfterAmount` fields are left out. They call the locale formatter `toLocaleString("vi-VN")`, so `BillDetail` keeps only the label and the two numeric amounts.
- The form, the bill list, the `columns` header and the reference `Table` are presentation only and are not modelled.
- IEEE-754 behaviour is not captured, because amounts are exact `real` products. This covers NaN input (which makes every comparison false) and the rounding of fractional kWh times price.
- An empty tariff table is excluded by `requires |table| > 0` on `CalculateBill` and `BillOf`. The source reads `rows[rows.length - 1]` after the loop, and its table is never empty.
- Idempotence needs no lemma: `BillOf` is a function, and `CalculateBill` is proved equal to it, so two calls with the same input give the same bill.
