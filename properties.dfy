/** What the bill calculation promises: where the usage goes, which line items appear,
    how the totals relate to each other and to the usage. */
module BillProperties {
  import opened Tariff
  import opened Billing

  // ---------------------------------------------------------------------------------------
  // Arithmetic of a cost

  lemma CostNonNegative(kwh: real, price: nat)
    requires kwh >= 0.0
    ensures Cost(kwh, price) >= 0.0
  {
  }

  lemma CostPositive(kwh: real, price: nat)
    requires kwh > 0.0 && price > 0
    ensures Cost(kwh, price) > 0.0
  {
  }

  lemma CostMonotone(k1: real, k2: real, price: nat)
    requires k1 <= k2
    ensures Cost(k1, price) <= Cost(k2, price)
  {
    assert Cost(k2, price) - Cost(k1, price) == (k2 - k1) * price as real;
  }

  lemma CostPriceMonotone(kwh: real, p1: nat, p2: nat)
    requires kwh >= 0.0 && p1 <= p2
    ensures Cost(kwh, p1) <= Cost(kwh, p2)
  {
    assert Cost(kwh, p2) - Cost(kwh, p1) == kwh * (p2 - p1) as real;
  }

  lemma CostPerKWh(kwh: real, price: nat)
    requires price > 0
    ensures Cost(kwh, price) / price as real == kwh
  {
  }

  // ---------------------------------------------------------------------------------------
  // One step of the walk

  /** A step takes `Taken` kWh off the remaining usage and adds their cost to each total,
      whether or not it emits a line item. */
  lemma StepTotals(t: Tally, row: Row)
    ensures Step(t, row).remaining == t.remaining - Taken(t.remaining, row)
    ensures Step(t, row).totalBefore == t.totalBefore + Cost(Taken(t.remaining, row), row.before)
    ensures Step(t, row).totalAfter == t.totalAfter + Cost(Taken(t.remaining, row), row.after)
  {
    CostNonNegative(Taken(t.remaining, row), row.before);
    CostNonNegative(Taken(t.remaining, row), row.after);
  }

  // ---------------------------------------------------------------------------------------
  // Remaining usage

  /** After walking a table, the usage left over is what exceeds the table's bounded
      capacity; a usage that is not positive passes through untouched. */
  lemma {:induction false} WalkRemaining(table: seq<Row>, usage: real)
    ensures Walk(table, usage).remaining ==
      if usage <= 0.0 then usage else Max(0.0, usage - BoundedCapacity(table) as real)
    decreases |table|
  {
    if table != [] {
      WalkRemaining(table[..|table| - 1], usage);
    }
  }

  lemma {:induction false} CapacityPrefix(table: seq<Row>, i: nat, j: nat)
    requires i <= j <= |table|
    ensures BoundedCapacity(table[..i]) <= BoundedCapacity(table[..j])
    decreases j
  {
    if i < j {
      CapacityPrefix(table, i, j - 1);
      assert table[..j][..j - 1] == table[..j - 1];
    }
  }

  /** The remaining usage never grows from one bracket to the next, and starting from a
      non-negative usage it never becomes negative. */
  lemma RemainingNeverIncreases(table: seq<Row>, usage: real, i: nat, j: nat)
    requires i <= j <= |table|
    ensures Walk(table[..j], usage).remaining <= Walk(table[..i], usage).remaining
    ensures usage >= 0.0 ==> Walk(table[..j], usage).remaining >= 0.0
  {
    WalkRemaining(table[..i], usage);
    WalkRemaining(table[..j], usage);
    CapacityPrefix(table, i, j);
  }

  /** With the constant table, what is left after the bounded brackets is the usage above
      400 kWh. */
  lemma RowsRemaining(usage: real)
    ensures Walk(ROWS, usage).remaining == if usage <= 0.0 then usage else Max(0.0, usage - 400.0)
  {
    RowsWellFormed();
    WalkRemaining(ROWS, usage);
  }

  // ---------------------------------------------------------------------------------------
  // Empty bills and the exact-boundary tie-break

  lemma {:induction false} WalkIdle(table: seq<Row>, usage: real)
    requires usage <= 0.0
    ensures Walk(table, usage) == Tally(0.0, 0.0, [], usage)
    decreases |table|
  {
    if table != [] {
      WalkIdle(table[..|table| - 1], usage);
    }
  }

  /** A usage that is zero or negative gives no line items and two zero totals. */
  lemma EmptyBill(table: seq<Row>, usage: real)
    requires |table| > 0
    requires usage <= 0.0
    ensures BillOf(table, usage) == Bill(0.0, 0.0, [])
  {
    WalkIdle(table, usage);
  }

  /** Once nothing is left to bill, the remaining brackets change nothing. */
  lemma {:induction false} Exhausted(table: seq<Row>, usage: real, j: nat, k: nat)
    requires j <= k <= |table|
    requires Walk(table[..j], usage).remaining <= 0.0
    ensures Walk(table[..k], usage) == Walk(table[..j], usage)
    decreases k
  {
    if j < k {
      Exhausted(table, usage, j, k - 1);
      WalkPrefix(table, k - 1, usage);
    }
  }

  /** When the usage reaching a bounded bracket equals its capacity, that bracket absorbs
      all of it: nothing is left, every later bracket is untouched and there is no
      overflow line. */
  lemma TieBreak(table: seq<Row>, usage: real, i: nat)
    requires i < |table| && table[i].count.Bounded?
    requires Walk(table[..i], usage).remaining == table[i].count.cap as real
    ensures Walk(table[..i + 1], usage).remaining == 0.0
    ensures Walk(table[..i + 1], usage).totalBefore ==
      Walk(table[..i], usage).totalBefore + Cost(table[i].count.cap as real, table[i].before)
    ensures Walk(table[..i + 1], usage).totalAfter ==
      Walk(table[..i], usage).totalAfter + Cost(table[i].count.cap as real, table[i].after)
    ensures Walk(table, usage) == Walk(table[..i + 1], usage)
    ensures BillOf(table, usage).billDetails == Walk(table[..i + 1], usage).details
  {
    WalkPrefix(table, i, usage);
    StepTotals(Walk(table[..i], usage), table[i]);
    Exhausted(table, usage, i + 1, |table|);
    assert table[..|table|] == table;
  }

  // ---------------------------------------------------------------------------------------
  // Monotonicity in usage and ordering of the two regimes

  lemma TakeMonotone(r1: real, r2: real, count: nat)
    requires r1 <= r2
    ensures Take(r1, count) <= Take(r2, count)
    ensures r1 - Take(r1, count) <= r2 - Take(r2, count)
  {
  }

  lemma {:induction false} WalkMonotone(table: seq<Row>, u1: real, u2: real)
    requires u1 <= u2
    ensures Walk(table, u1).remaining <= Walk(table, u2).remaining
    ensures Walk(table, u1).totalBefore <= Walk(table, u2).totalBefore
    ensures Walk(table, u1).totalAfter <= Walk(table, u2).totalAfter
    decreases |table|
  {
    if table != [] {
      var prefix, row := table[..|table| - 1], table[|table| - 1];
      WalkMonotone(prefix, u1, u2);
      var t1, t2 := Walk(prefix, u1), Walk(prefix, u2);
      StepTotals(t1, row);
      StepTotals(t2, row);
      if row.count.Bounded? {
        TakeMonotone(t1.remaining, t2.remaining, row.count.cap);
      }
      CostMonotone(Taken(t1.remaining, row), Taken(t2.remaining, row), row.before);
      CostMonotone(Taken(t1.remaining, row), Taken(t2.remaining, row), row.after);
    }
  }

  /** Both totals are non-decreasing in the usage. */
  lemma Monotone(table: seq<Row>, u1: real, u2: real)
    requires |table| > 0
    requires u1 <= u2
    ensures BillOf(table, u1).totalBefore <= BillOf(table, u2).totalBefore
    ensures BillOf(table, u1).totalAfter <= BillOf(table, u2).totalAfter
  {
    WalkMonotone(table, u1, u2);
    var r1, r2 := Walk(table, u1).remaining, Walk(table, u2).remaining;
    var last := table[|table| - 1];
    if r1 > 0.0 {
      CostMonotone(r1, r2, last.before);
      CostMonotone(r1, r2, last.after);
    } else if r2 > 0.0 {
      CostNonNegative(r2, last.before);
      CostNonNegative(r2, last.after);
    }
  }

  /** Every bracket's price after the rate change is at least its price before. This is the
      one clause of `WellFormed` that the regime lemmas need, kept apart so that they hold
      for any table with it, well formed or not; `RowsRegimeAndMonotone` obtains it for
      the constant table from `RowsWellFormed`. */
  predicate RegimeOrdered(table: seq<Row>) {
    forall i :: 0 <= i < |table| ==> table[i].before <= table[i].after
  }

  lemma {:induction false} WalkRegime(table: seq<Row>, usage: real)
    requires RegimeOrdered(table)
    ensures Walk(table, usage).totalBefore <= Walk(table, usage).totalAfter
    decreases |table|
  {
    if table != [] {
      var prefix, row := table[..|table| - 1], table[|table| - 1];
      WalkRegime(prefix, usage);
      var t := Walk(prefix, usage);
      StepTotals(t, row);
      CostPriceMonotone(Taken(t.remaining, row), row.before, row.after);
    }
  }

  /** When no price falls after the rate change, no bill falls either. */
  lemma RegimeOrdering(table: seq<Row>, usage: real)
    requires |table| > 0
    requires RegimeOrdered(table)
    ensures BillOf(table, usage).totalBefore <= BillOf(table, usage).totalAfter
  {
    WalkRegime(table, usage);
    var r := Walk(table, usage).remaining;
    if r > 0.0 {
      CostPriceMonotone(r, table[|table| - 1].before, table[|table| - 1].after);
    }
  }

  /** The constant table: the bill after the rate change is never below the bill before,
      and both grow with the usage. */
  lemma RowsRegimeAndMonotone(u1: real, u2: real)
    requires u1 <= u2
    ensures BillOf(ROWS, u1).totalBefore <= BillOf(ROWS, u1).totalAfter
    ensures BillOf(ROWS, u1).totalBefore <= BillOf(ROWS, u2).totalBefore
    ensures BillOf(ROWS, u1).totalAfter <= BillOf(ROWS, u2).totalAfter
  {
    RowsWellFormed();
    RegimeOrdering(ROWS, u1);
    Monotone(ROWS, u1, u2);
  }

  // ---------------------------------------------------------------------------------------
  // Conservation of kWh

  /** The kWh behind a line item: its before-regime amount divided by the before price of
      the bracket its label names. */
  function KWh(table: seq<Row>, d: BillDetail): real {
    var k := IndexOf(table, d.range);
    if k < |table| && table[k].before > 0 then d.beforeAmount / table[k].before as real else 0.0
  }

  /** Total kWh behind a list of line items. */
  function SumKWh(table: seq<Row>, details: seq<BillDetail>): real
    decreases |details|
  {
    if details == [] then 0.0
    else SumKWh(table, details[..|details| - 1]) + KWh(table, details[|details| - 1])
  }

  /** A line item bills a positive number of kWh of the bracket it names, at that bracket's
      two prices, and no more than the bracket's capacity when it has one. */
  predicate BilledAt(table: seq<Row>, d: BillDetail) {
    var k := IndexOf(table, d.range);
    && k < |table|
    && 0.0 < KWh(table, d)
    && d.beforeAmount == Cost(KWh(table, d), table[k].before)
    && d.afterAmount == Cost(KWh(table, d), table[k].after)
    && (table[k].count.Bounded? ==> KWh(table, d) <= table[k].count.cap as real)
  }

  lemma SumKWhAppend(table: seq<Row>, details: seq<BillDetail>, d: BillDetail)
    ensures SumKWh(table, details + [d]) == SumKWh(table, details) + KWh(table, d)
  {
    assert (details + [d])[..|details|] == details;
  }

  /** One step keeps the kWh billed so far plus the kWh left equal, and bills its own
      bracket within capacity. */
  lemma StepConservation(table: seq<Row>, i: nat, t: Tally)
    requires WellFormed(table)
    requires i < |table|
    requires t.remaining >= 0.0
    requires forall k :: 0 <= k < |t.details| ==> BilledAt(table, t.details[k])
    ensures Step(t, table[i]).remaining >= 0.0
    ensures SumKWh(table, Step(t, table[i]).details) + Step(t, table[i]).remaining ==
      SumKWh(table, t.details) + t.remaining
    ensures forall k :: 0 <= k < |Step(t, table[i]).details| ==> BilledAt(table, Step(t, table[i]).details[k])
  {
    var row := table[i];
    if row.count.Bounded? {
      var kwh := Take(t.remaining, row.count.cap);
      if kwh > 0.0 {
        var d := BillDetail(row.range, Cost(kwh, row.before), Cost(kwh, row.after));
        CostPositive(kwh, row.before);
        IndexOfRow(table, i);
        CostPerKWh(kwh, row.before);
        SumKWhAppend(table, t.details, d);
      } else {
        assert Step(t, row) == t;
      }
    }
  }

  lemma {:induction false} WalkConservation(table: seq<Row>, i: nat, usage: real)
    requires WellFormed(table)
    requires i <= |table|
    requires usage >= 0.0
    ensures Walk(table[..i], usage).remaining >= 0.0
    ensures SumKWh(table, Walk(table[..i], usage).details) + Walk(table[..i], usage).remaining == usage
    ensures forall k :: 0 <= k < |Walk(table[..i], usage).details| ==>
      BilledAt(table, Walk(table[..i], usage).details[k])
    decreases i
  {
    if i > 0 {
      WalkConservation(table, i - 1, usage);
      WalkPrefix(table, i - 1, usage);
      StepConservation(table, i - 1, Walk(table[..i - 1], usage));
    }
  }

  /** The top-up bills every kWh still left, once, at the last bracket. */
  lemma SettleConservation(table: seq<Row>, t: Tally)
    requires WellFormed(table)
    requires t.remaining >= 0.0
    requires forall k :: 0 <= k < |t.details| ==> BilledAt(table, t.details[k])
    ensures SumKWh(table, Settle(t, table[|table| - 1]).billDetails) == SumKWh(table, t.details) + t.remaining
    ensures var details := Settle(t, table[|table| - 1]).billDetails;
      forall k :: 0 <= k < |details| ==> BilledAt(table, details[k])
  {
    var last := table[|table| - 1];
    if t.remaining > 0.0 {
      var d := BillDetail(OVERFLOW_LABEL, Cost(t.remaining, last.before), Cost(t.remaining, last.after));
      IndexOfRow(table, |table| - 1);
      CostPerKWh(t.remaining, last.before);
      CostPositive(t.remaining, last.before);
      SumKWhAppend(table, t.details, d);
    }
  }

  /** For a non-negative usage, the kWh behind the line items add up to the usage exactly,
      and every line item bills its own bracket within that bracket's capacity. */
  lemma Conservation(table: seq<Row>, usage: real)
    requires WellFormed(table)
    requires usage >= 0.0
    ensures SumKWh(table, BillOf(table, usage).billDetails) == usage
    ensures forall k :: 0 <= k < |BillOf(table, usage).billDetails| ==>
      BilledAt(table, BillOf(table, usage).billDetails[k])
  {
    WalkConservation(table, |table|, usage);
    assert table[..|table|] == table;
    SettleConservation(table, Walk(table, usage));
  }

  // ---------------------------------------------------------------------------------------
  // Which line items appear, and in what order

  /** One step keeps the line items in table order: only a bounded bracket can add an item,
      and the item it adds comes after every earlier one. */
  lemma StepOrder(table: seq<Row>, i: nat, t: Tally)
    requires WellFormed(table)
    requires i < |table|
    requires forall k :: 0 <= k < |t.details| ==>
      IndexOf(table, t.details[k].range) < i && table[IndexOf(table, t.details[k].range)].count.Bounded?
    requires forall j, k :: 0 <= j < k < |t.details| ==>
      IndexOf(table, t.details[j].range) < IndexOf(table, t.details[k].range)
    ensures forall k :: 0 <= k < |Step(t, table[i]).details| ==>
      IndexOf(table, Step(t, table[i]).details[k].range) < i + 1 &&
      table[IndexOf(table, Step(t, table[i]).details[k].range)].count.Bounded?
    ensures forall j, k :: 0 <= j < k < |Step(t, table[i]).details| ==>
      IndexOf(table, Step(t, table[i]).details[j].range) <
      IndexOf(table, Step(t, table[i]).details[k].range)
  {
    IndexOfRow(table, i);
    var after := Step(t, table[i]).details;
    if after != t.details {
      assert after == t.details + [after[|t.details|]] && after[|t.details|].range == table[i].range;
      forall k | 0 <= k < |after|
        ensures IndexOf(table, after[k].range) < i + 1
        ensures table[IndexOf(table, after[k].range)].count.Bounded?
      {
        if k < |t.details| { assert after[k] == t.details[k]; }
      }
      forall j, k | 0 <= j < k < |after|
        ensures IndexOf(table, after[j].range) < IndexOf(table, after[k].range)
      {
        assert after[j] == t.details[j];
        if k < |t.details| { assert after[k] == t.details[k]; }
      }
    }
  }

  lemma {:induction false} WalkOrder(table: seq<Row>, i: nat, usage: real)
    requires WellFormed(table)
    requires i <= |table|
    ensures forall k :: 0 <= k < |Walk(table[..i], usage).details| ==>
      IndexOf(table, Walk(table[..i], usage).details[k].range) < i &&
      table[IndexOf(table, Walk(table[..i], usage).details[k].range)].count.Bounded?
    ensures forall j, k :: 0 <= j < k < |Walk(table[..i], usage).details| ==>
      IndexOf(table, Walk(table[..i], usage).details[j].range) <
      IndexOf(table, Walk(table[..i], usage).details[k].range)
    decreases i
  {
    if i > 0 {
      WalkOrder(table, i - 1, usage);
      WalkPrefix(table, i - 1, usage);
      StepOrder(table, i - 1, Walk(table[..i - 1], usage));
    }
  }

  /** Line items follow the table's order, each naming a different bracket, and only the
      last one can be the overflow line. */
  lemma ItemsInTableOrder(table: seq<Row>, usage: real)
    requires WellFormed(table)
    ensures forall j, k :: 0 <= j < k < |BillOf(table, usage).billDetails| ==>
      IndexOf(table, BillOf(table, usage).billDetails[j].range) <
      IndexOf(table, BillOf(table, usage).billDetails[k].range)
    ensures forall k :: 0 <= k < |BillOf(table, usage).billDetails| ==>
      IndexOf(table, BillOf(table, usage).billDetails[k].range) < |table|
    ensures forall k :: 0 <= k < |BillOf(table, usage).billDetails| - 1 ==>
      BillOf(table, usage).billDetails[k].range != OVERFLOW_LABEL
  {
    WalkOrder(table, |table|, usage);
    assert table[..|table|] == table;
    IndexOfRow(table, |table| - 1);
  }

  /** The overflow line appears exactly when the usage exceeds the bounded capacity, and it
      then bills the excess once, at the last bracket's two prices. */
  lemma OverflowItem(table: seq<Row>, usage: real)
    requires WellFormed(table)
    ensures var d := BillOf(table, usage).billDetails;
      (usage > BoundedCapacity(table) as real <==> (|d| > 0 && d[|d| - 1].range == OVERFLOW_LABEL))
    ensures var d := BillOf(table, usage).billDetails;
      var excess := usage - BoundedCapacity(table) as real;
      usage > BoundedCapacity(table) as real ==>
        d[|d| - 1] == BillDetail(OVERFLOW_LABEL, Cost(excess, table[|table| - 1].before),
                                 Cost(excess, table[|table| - 1].after))
  {
    WalkRemaining(table, usage);
    WalkOrder(table, |table|, usage);
    assert table[..|table|] == table;
    IndexOfRow(table, |table| - 1);
  }

  /** With the constant table, usage above 400 kWh is billed as one last line labelled
      "> 401 kWh" at 3151 before and 3302 after per kWh; no other line carries that label. */
  lemma OverflowPricing(usage: real)
    ensures var d := BillOf(ROWS, usage).billDetails;
      (usage > 400.0 <==> (|d| > 0 && d[|d| - 1].range == "> 401 kWh"))
    ensures var d := BillOf(ROWS, usage).billDetails;
      usage > 400.0 ==>
        d[|d| - 1] == BillDetail("> 401 kWh", (usage - 400.0) * 3151.0, (usage - 400.0) * 3302.0)
    ensures var d := BillOf(ROWS, usage).billDetails;
      forall k :: 0 <= k < |d| - 1 ==> d[k].range != "> 401 kWh"
  {
    RowsWellFormed();
    OverflowItem(ROWS, usage);
    ItemsInTableOrder(ROWS, usage);
  }

  // ---------------------------------------------------------------------------------------
  // Concrete bills

  /** 120 kWh fill the first two brackets and put 20 kWh in the third. */
  lemma Usage120()
    ensures BillOf(ROWS, 120.0) == Bill(226940.0, 237870.0, [
      BillDetail("0 - 50 kWh", 90300.0, 94650.0),
      BillDetail("50 - 100 kWh", 93300.0, 97800.0),
      BillDetail("101 - 200 kWh", 43340.0, 45420.0)])
  {
    var u := 120.0;
    var d1 := BillDetail("0 - 50 kWh", 90300.0, 94650.0);
    var d2 := BillDetail("50 - 100 kWh", 93300.0, 97800.0);
    var d3 := BillDetail("101 - 200 kWh", 43340.0, 45420.0);
    assert ROWS[..0] == [];
    WalkPrefix(ROWS, 0, u);
    assert Walk(ROWS[..1], u) == Tally(90300.0, 94650.0, [d1], 70.0);
    WalkPrefix(ROWS, 1, u);
    assert Walk(ROWS[..2], u) == Tally(183600.0, 192450.0, [d1, d2], 20.0);
    WalkPrefix(ROWS, 2, u);
    assert Walk(ROWS[..3], u) == Tally(226940.0, 237870.0, [d1, d2, d3], 0.0);
    Exhausted(ROWS, u, 3, 6);
    assert ROWS[..6] == ROWS;
  }

  /** Exactly 50 kWh stay in the first bracket; the second gets nothing. */
  lemma Usage50()
    ensures BillOf(ROWS, 50.0) == Bill(90300.0, 94650.0, [BillDetail("0 - 50 kWh", 90300.0, 94650.0)])
  {
    var u := 50.0;
    assert ROWS[..0] == [];
    WalkPrefix(ROWS, 0, u);
    assert Walk(ROWS[..1], u) == Tally(90300.0, 94650.0, [BillDetail("0 - 50 kWh", 90300.0, 94650.0)], 0.0);
    Exhausted(ROWS, u, 1, 6);
    assert ROWS[..6] == ROWS;
  }

  /** 75 kWh fill the first bracket and put 25 kWh in the second. */
  lemma Usage75()
    ensures BillOf(ROWS, 75.0) == Bill(136950.0, 143550.0, [
      BillDetail("0 - 50 kWh", 90300.0, 94650.0),
      BillDetail("50 - 100 kWh", 46650.0, 48900.0)])
  {
    var u := 75.0;
    var d1 := BillDetail("0 - 50 kWh", 90300.0, 94650.0);
    var d2 := BillDetail("50 - 100 kWh", 46650.0, 48900.0);
    assert ROWS[..0] == [];
    WalkPrefix(ROWS, 0, u);
    assert Walk(ROWS[..1], u) == Tally(90300.0, 94650.0, [d1], 25.0);
    WalkPrefix(ROWS, 1, u);
    assert Walk(ROWS[..2], u) == Tally(136950.0, 143550.0, [d1, d2], 0.0);
    Exhausted(ROWS, u, 2, 6);
    assert ROWS[..6] == ROWS;
  }
}
