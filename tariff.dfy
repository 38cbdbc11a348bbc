/** The tariff table of the progressive electricity bill and the records a bill is made of. */
module Tariff {

  /** How many kWh a bracket covers: a fixed cap, or everything that is left. */
  datatype Capacity = Bounded(cap: nat) | Unbounded

  /** One bracket of the table: its order, its label, its capacity and its price per kWh
      before and after the rate change. */
  datatype Row = Row(key: nat, range: string, count: Capacity, before: nat, after: nat)

  /** One line of a bill: the bracket's label and what its kWh cost under each price regime.
      The locale-formatted copies of the two amounts are not modelled. */
  datatype BillDetail = BillDetail(range: string, beforeAmount: real, afterAmount: real)

  /** The result of a bill calculation. */
  datatype Bill = Bill(totalBefore: real, totalAfter: real, billDetails: seq<BillDetail>)

  /** The label written on the line item for usage beyond every bounded bracket. */
  const OVERFLOW_LABEL: string := "> 401 kWh"

  /** The constant tariff table: five bounded brackets and one unbounded one. */
  const ROWS: seq<Row> := [
    Row(1, "0 - 50 kWh", Bounded(50), 1806, 1893),
    Row(2, "50 - 100 kWh", Bounded(50), 1866, 1956),
    Row(3, "101 - 200 kWh", Bounded(100), 2167, 2271),
    Row(4, "201 - 300 kWh", Bounded(100), 2729, 2860),
    Row(5, "301 - 400 kWh", Bounded(100), 3050, 3197),
    Row(6, "> 401 kWh", Unbounded, 3151, 3302)
  ]

  /** Total kWh covered by the bounded brackets of a table. */
  function BoundedCapacity(table: seq<Row>): nat
    decreases |table|
  {
    if table == [] then 0
    else
      BoundedCapacity(table[..|table| - 1]) +
      (match table[|table| - 1].count case Bounded(c) => c case Unbounded => 0)
  }

  /** The shape every tariff table has: keys 1, 2, ... in order, distinct labels, only the
      last bracket unbounded and labelled like the overflow line, and positive prices that
      do not fall after the rate change. */
  predicate WellFormed(table: seq<Row>) {
    && |table| > 0
    && (forall i :: 0 <= i < |table| ==> table[i].key == i + 1)
    && (forall i, j :: 0 <= i < j < |table| ==> table[i].range != table[j].range)
    && (forall i :: 0 <= i < |table| - 1 ==> table[i].count.Bounded?)
    && table[|table| - 1].count == Unbounded
    && table[|table| - 1].range == OVERFLOW_LABEL
    && (forall i :: 0 <= i < |table| ==> 0 < table[i].before <= table[i].after)
  }

  /** The position of the first bracket carrying `rangeLabel`, or `|table|` when there is none. */
  function IndexOf(table: seq<Row>, rangeLabel: string): (k: nat)
    ensures k <= |table|
    ensures k < |table| ==> table[k].range == rangeLabel
    ensures forall j :: 0 <= j < k ==> table[j].range != rangeLabel
  {
    if table == [] then 0
    else if table[0].range == rangeLabel then 0
    else 1 + IndexOf(table[1..], rangeLabel)
  }

  /** In a table with distinct labels, a bracket's label leads back to that bracket. */
  lemma IndexOfRow(table: seq<Row>, i: nat)
    requires i < |table|
    requires forall a, b :: 0 <= a < b < |table| ==> table[a].range != table[b].range
    ensures IndexOf(table, table[i].range) == i
  {
  }

  /** The constant table has the shape described by `WellFormed` and 400 kWh of bounded capacity. */
  lemma RowsWellFormed()
    ensures WellFormed(ROWS)
    ensures BoundedCapacity(ROWS) == 400
  {
    assert ROWS[..1][..0] == [];
    assert BoundedCapacity(ROWS[..1]) == 50;
    assert ROWS[..2][..1] == ROWS[..1];
    assert BoundedCapacity(ROWS[..2]) == 100;
    assert ROWS[..3][..2] == ROWS[..2];
    assert BoundedCapacity(ROWS[..3]) == 200;
    assert ROWS[..4][..3] == ROWS[..3];
    assert BoundedCapacity(ROWS[..4]) == 300;
    assert ROWS[..5][..4] == ROWS[..4];
    assert BoundedCapacity(ROWS[..5]) == 400;
    assert ROWS[..6][..5] == ROWS[..5];
    assert ROWS[..6] == ROWS;
  }
}
