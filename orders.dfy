/** The order-line table the dashboard reads once at start-up, with the
    calendar fields derived from each line's timestamp taken as given. */
module Orders {

  datatype Option<T> = None | Some(value: T)

  /** A month number as the timestamp derivation produces it. */
  type Month = m: int | 1 <= m <= 12 witness 1

  /** One row of the sales table. Money is held in integer cents; `day` is
      the calendar date as a day ordinal, so later dates are larger. */
  datatype OrderLine = OrderLine(
    orderId: int,
    custId: int,
    category: string,
    item: string,
    quantity: nat,
    orderTotal: int,
    day: int,
    weekday: string,
    month: Month,
    year: int)

  type Table = seq<OrderLine>

  // Columns of a line, used as grouping keys and as measures.

  function CustId(r: OrderLine): int { r.custId }
  function Category(r: OrderLine): string { r.category }
  function CategoryItem(r: OrderLine): (string, string) { (r.category, r.item) }
  function Weekday(r: OrderLine): string { r.weekday }
  function Day(r: OrderLine): int { r.day }
  function MonthOf(r: OrderLine): int { r.month }
  function Year(r: OrderLine): int { r.year }
  function OrderTotal(r: OrderLine): int { r.orderTotal }
  function Quantity(r: OrderLine): int { r.quantity }

  /** The column `f` of table `t`, one entry per row, in row order. */
  function Column<K>(t: Table, f: OrderLine -> K): (c: seq<K>)
    ensures |c| == |t|
    ensures forall i :: 0 <= i < |t| ==> c[i] == f(t[i])
  {
    if t == [] then [] else [f(t[0])] + Column(t[1..], f)
  }
}
