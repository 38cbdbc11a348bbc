/** The progressive bill calculation: walk the brackets in order, fill each one before
    anything spills into the next, and bill what is left at the last bracket's prices. */
module Billing {
  import opened Tariff

  function Max(a: real, b: real): real { if a < b then b else a }

  function Min(a: real, b: real): real { if a < b then a else b }

  /** The kWh a bounded bracket of capacity `count` takes out of `remaining`. A bracket is
      exceeded only when strictly more than its capacity remains; usage equal to the
      capacity is absorbed whole. */
  function Take(remaining: real, count: nat): (k: real)
    ensures k == Min(count as real, Max(0.0, remaining))
    ensures remaining >= 0.0 ==> remaining - k == Max(0.0, remaining - count as real)
  {
    if remaining > count as real then count as real
    else if remaining > 0.0 then remaining
    else 0.0
  }

  /** What `kwh` kWh cost at `price` per kWh. */
  function Cost(kwh: real, price: nat): real { kwh * price as real }

  /** The kWh a bracket takes when `remaining` kWh reach it; the unbounded bracket takes
      nothing inside the walk. */
  function Taken(remaining: real, row: Row): real {
    match row.count
    case Bounded(c) => Take(remaining, c)
    case Unbounded => 0.0
  }

  /** The running state of the walk over the table: the two totals, the line items so far
      and the usage not yet billed. */
  datatype Tally = Tally(totalBefore: real, totalAfter: real, details: seq<BillDetail>, remaining: real)

  /** One bracket of the walk. The unbounded bracket is skipped; a bounded one takes its
      share, and gets a line item and adds to both totals only when an amount is positive. */
  function Step(t: Tally, row: Row): (r: Tally)
    ensures |t.details| <= |r.details| <= |t.details| + 1
  {
    if row.count.Unbounded? then t
    else
      var kwh := Take(t.remaining, row.count.cap);
      var beforeBill := Cost(kwh, row.before);
      var afterBill := Cost(kwh, row.after);
      if beforeBill > 0.0 || afterBill > 0.0 then
        Tally(t.totalBefore + beforeBill, t.totalAfter + afterBill,
              t.details + [BillDetail(row.range, beforeBill, afterBill)], t.remaining - kwh)
      else
        t.(remaining := t.remaining - kwh)
  }

  /** The state after walking all of `table`, starting with nothing billed and `usage` left. */
  function Walk(table: seq<Row>, usage: real): (w: Tally)
    ensures |w.details| <= |table|
    decreases |table|
  {
    if table == [] then Tally(0.0, 0.0, [], usage)
    else Step(Walk(table[..|table| - 1], usage), table[|table| - 1])
  }

  /** Walking one more bracket is one more step of the walk. */
  lemma WalkPrefix(table: seq<Row>, i: nat, usage: real)
    requires i < |table|
    ensures Walk(table[..i + 1], usage) == Step(Walk(table[..i], usage), table[i])
  {
    assert table[..i + 1][..i] == table[..i];
  }

  /** After the walk: whatever usage is left is billed once at the prices of `last`. */
  function Settle(t: Tally, last: Row): (b: Bill)
    ensures |b.billDetails| == |t.details| + (if t.remaining > 0.0 then 1 else 0)
  {
    if t.remaining > 0.0 then
      var beforeLast := Cost(t.remaining, last.before);
      var afterLast := Cost(t.remaining, last.after);
      Bill(t.totalBefore + beforeLast, t.totalAfter + afterLast,
           t.details + [BillDetail(OVERFLOW_LABEL, beforeLast, afterLast)])
    else
      Bill(t.totalBefore, t.totalAfter, t.details)
  }

  /** The bill for `usage` under `table`. */
  function BillOf(table: seq<Row>, usage: real): (b: Bill)
    requires |table| > 0
    ensures |b.billDetails| <= |table| + 1
  {
    Settle(Walk(table, usage), table[|table| - 1])
  }

  /** Sum of the before-regime amounts of a list of line items. */
  function SumBefore(details: seq<BillDetail>): real
    decreases |details|
  {
    if details == [] then 0.0
    else SumBefore(details[..|details| - 1]) + details[|details| - 1].beforeAmount
  }

  /** Sum of the after-regime amounts of a list of line items. */
  function SumAfter(details: seq<BillDetail>): real
    decreases |details|
  {
    if details == [] then 0.0
    else SumAfter(details[..|details| - 1]) + details[|details| - 1].afterAmount
  }

  /** The walk keeps each running total equal to the sum of the line items it has emitted. */
  lemma {:induction false} WalkTotalsMatch(table: seq<Row>, usage: real)
    ensures Walk(table, usage).totalBefore == SumBefore(Walk(table, usage).details)
    ensures Walk(table, usage).totalAfter == SumAfter(Walk(table, usage).details)
    decreases |table|
  {
    if table != [] {
      var prefix := table[..|table| - 1];
      WalkTotalsMatch(prefix, usage);
      var t := Walk(prefix, usage);
      var d := Walk(table, usage).details;
      if d != t.details {
        assert d[..|d| - 1] == t.details;
      }
    }
  }

  /** Both totals of a bill equal the sums of its line items, the overflow item included. */
  lemma TotalsMatchItems(table: seq<Row>, usage: real)
    requires |table| > 0
    ensures BillOf(table, usage).totalBefore == SumBefore(BillOf(table, usage).billDetails)
    ensures BillOf(table, usage).totalAfter == SumAfter(BillOf(table, usage).billDetails)
  {
    WalkTotalsMatch(table, usage);
    var t := Walk(table, usage);
    var d := BillOf(table, usage).billDetails;
    if d != t.details {
      assert d[..|d| - 1] == t.details;
    }
  }

  /** The calculation: a loop over the table with three running locals and a growing list
      of line items, then a top-up for the usage beyond the bounded brackets. */
  method CalculateBill(table: seq<Row>, usage: real) returns (bill: Bill)
    requires |table| > 0
    ensures bill == BillOf(table, usage)
    ensures bill.totalBefore == SumBefore(bill.billDetails)
    ensures bill.totalAfter == SumAfter(bill.billDetails)
  {
    var totalBefore := 0.0;
    var totalAfter := 0.0;
    var remainingUsage := usage;
    var billDetails: seq<BillDetail> := [];

    for i := 0 to |table|
      invariant Walk(table[..i], usage) == Tally(totalBefore, totalAfter, billDetails, remainingUsage)
    {
      WalkPrefix(table, i, usage);
      var row := table[i];
      if row.count.Bounded? {
        var count := row.count.cap as real;
        var beforePrice := row.before;
        var afterPrice := row.after;
        var beforeBillForThisLevel := 0.0;
        var afterBillForThisLevel := 0.0;

        if remainingUsage > count {
          beforeBillForThisLevel := Cost(count, beforePrice);
          afterBillForThisLevel := Cost(count, afterPrice);
          remainingUsage := remainingUsage - count;
        } else if remainingUsage > 0.0 {
          beforeBillForThisLevel := Cost(remainingUsage, beforePrice);
          afterBillForThisLevel := Cost(remainingUsage, afterPrice);
          remainingUsage := 0.0;
        }

        if beforeBillForThisLevel > 0.0 || afterBillForThisLevel > 0.0 {
          billDetails := billDetails + [BillDetail(row.range, beforeBillForThisLevel, afterBillForThisLevel)];
          totalBefore := totalBefore + beforeBillForThisLevel;
          totalAfter := totalAfter + afterBillForThisLevel;
        }
      }
    }
    assert table[..|table|] == table;
    ghost var walked := Tally(totalBefore, totalAfter, billDetails, remainingUsage);

    if remainingUsage > 0.0 {
      var lastRow := table[|table| - 1];
      var beforeLastLevel := Cost(remainingUsage, lastRow.before);
      var afterLastLevel := Cost(remainingUsage, lastRow.after);
      billDetails := billDetails + [BillDetail(OVERFLOW_LABEL, beforeLastLevel, afterLastLevel)];
      totalBefore := totalBefore + beforeLastLevel;
      totalAfter := totalAfter + afterLastLevel;
    }

    bill := Bill(totalBefore, totalAfter, billDetails);
    assert bill == Settle(walked, table[|table| - 1]);
    TotalsMatchItems(table, usage);
  }
}
