/** What fills do to the rows of the orders table (update_orders in api/crates/positions/src/lib.rs,
    db/src/orders.rs): filled quantity and status of the two orders of each fill. */
module OrderFills {
  import opened Types
  import opened BookSpec

  const MAX_U64: u64 := TWO64 - 1

  datatype OrderStatus = Open | Partial | Filled | Cancelled | Rejected
  datatype OrderRow = OrderRow(quantity: u64, filled: u64, status: OrderStatus)

  type Orders = map<Uuid, OrderRow>

  /** filled_quantity saturates in 64 bits and is stored as a signed number; the constraints of the table refuse an
      update that leaves 0..quantity, and the row then stays as it is. An order without a row is passed over. */
  function Updated(orders: Orders, id: Uuid, quantity: u64): Orders {
    if id !in orders then orders
    else
      var row := orders[id];
      var filled: u64 := Min(row.filled + quantity, MAX_U64);
      if 0 <= AsI64(filled) <= AsI64(row.quantity) then
        orders[id := OrderRow(row.quantity, filled, if filled >= row.quantity then Filled else Partial)]
      else orders
  }

  /** The maker's order, then the taker's. */
  function UpdatedBoth(orders: Orders, f: Fill): Orders {
    Updated(Updated(orders, f.makerOrder, f.quantity), f.takerOrder, f.quantity)
  }

  function UpdatedAll(orders: Orders, fs: seq<Fill>): Orders {
    if fs == [] then orders else UpdatedBoth(UpdatedAll(orders, fs[..|fs| - 1]), fs[|fs| - 1])
  }

  /** The quantity that the fills give an order. */
  function Given(f: Fill, id: Uuid): nat {
    (if f.makerOrder == id then f.quantity as nat else 0) + (if f.takerOrder == id then f.quantity as nat else 0)
  }

  function GivenBy(fs: seq<Fill>, id: Uuid): nat {
    if fs == [] then 0 else GivenBy(fs[..|fs| - 1], id) + Given(fs[|fs| - 1], id)
  }

  /** The constraints of the orders table; its columns are signed. */
  ghost predicate RowsOk(orders: Orders) {
    forall id :: id in orders ==> orders[id].filled <= orders[id].quantity < 0x8000_0000_0000_0000
  }

  /** What an update makes of the status. */
  predicate StatusFits(row: OrderRow) {
    row.status == if row.filled == row.quantity then Filled else Partial
  }

  lemma UpdatedIs(orders: Orders, key: Uuid, quantity: u64, id: Uuid)
    requires RowsOk(orders) && id in orders
    ensures var row, orders' := orders[id], Updated(orders, key, quantity);
            var more := if key == id && row.filled + quantity <= row.quantity then quantity as int else 0;
            && RowsOk(orders') && id in orders' && orders'[id].quantity == row.quantity
            && orders'[id].filled as int == row.filled + more
            && (orders'[id] == row || StatusFits(orders'[id])) && (more > 0 ==> StatusFits(orders'[id]))
  {
  }

  lemma BothIs(orders: Orders, f: Fill, id: Uuid)
    requires RowsOk(orders) && id in orders
    ensures var row, orders' := orders[id], UpdatedBoth(orders, f);
            && RowsOk(orders') && id in orders' && orders'[id].quantity == row.quantity
            && row.filled <= orders'[id].filled && orders'[id].filled as int <= row.filled + Given(f, id)
            && (orders'[id].filled as int == row.filled + Given(f, id)
                <==> row.filled + Given(f, id) <= row.quantity)
            && (orders'[id] == row || StatusFits(orders'[id]))
            && (0 < Given(f, id) <= row.quantity - row.filled ==> StatusFits(orders'[id]))
  {
    UpdatedIs(orders, f.makerOrder, f.quantity, id);
    UpdatedIs(Updated(orders, f.makerOrder, f.quantity), f.takerOrder, f.quantity, id);
    hide Updated, RowsOk;
  }

  /** An order's filled quantity is what the fills give it exactly if they give it no more than its quantity. Then, if
      they give it anything, its status is filled exactly if they give it all of that, and else partly filled. */
  lemma {:induction false} FilledExactly(orders: Orders, fs: seq<Fill>, id: Uuid)
    requires RowsOk(orders) && id in orders
    ensures RowsOk(UpdatedAll(orders, fs)) && id in UpdatedAll(orders, fs)
    ensures var row, row' := orders[id], UpdatedAll(orders, fs)[id];
            && row'.quantity == row.quantity && row'.filled as int <= row.filled + GivenBy(fs, id)
            && (row'.filled as int == row.filled + GivenBy(fs, id) <==> row.filled + GivenBy(fs, id) <= row.quantity)
            && (0 < GivenBy(fs, id) <= row.quantity - row.filled ==>
                  row'.status == if row'.filled == row.quantity then Filled else Partial)
  {
    if fs != [] {
      var rest, last := fs[..|fs| - 1], fs[|fs| - 1];
      FilledExactly(orders, rest, id);
      hide UpdatedBoth, RowsOk, Given;
      BothIs(UpdatedAll(orders, rest), last, id);
    }
  }
}
