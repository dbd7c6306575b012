/** profiles/models.py: the Order aggregate. An order line (`OrderItem`) is a cart line while
    its order link is empty; an order's subtotal sums its lines at the products' current
    prices, its total is that subtotal, and saving a new order draws its unique `tx_ref`. */
module Orders {
  import opened Wrappers
  import opened Managers
  import Utils
  import Models

  /** The delivery status choices. */
  datatype DeliveryStatus = Pending | Packing | Shipping | Arriving | Success
  {
    /** The value stored in the column. */
    function Code(): string
    {
      match this
      case Pending => "PENDING"
      case Packing => "PACKING"
      case Shipping => "SHIPPING"
      case Arriving => "ARRIVING"
      case Success => "SUCCESS"
    }
  }

  /** The payment status choices. */
  datatype PaymentStatus = Pending | Processing | Successful | Cancelled | Failed
  {
    /** The value stored in the column. */
    function Code(): string
    {
      match this
      case Pending => "PENDING"
      case Processing => "PROCESSING"
      case Successful => "SUCCESSFUL"
      case Cancelled => "CANCELLED"
      case Failed => "FAILED"
    }
  }

  /** DELIVERY_STATUS_CHOICES, in declaration order. */
  const DeliveryChoices: seq<string> := ["PENDING", "PACKING", "SHIPPING", "ARRIVING", "SUCCESS"]

  /** PAYMENT_STATUS_CHOICES, in declaration order. */
  const PaymentChoices: seq<string> := ["PENDING", "PROCESSING", "SUCCESSFUL", "CANCELLED", "FAILED"]

  /** The enum is exactly the declared choice set: every status stores a declared value,
      every declared value belongs to one status, and no two statuses share a value. */
  lemma StatusesAreTheChoices()
    ensures forall d: DeliveryStatus :: d.Code() in DeliveryChoices
    ensures forall s :: s in DeliveryChoices ==> exists d: DeliveryStatus :: d.Code() == s
    ensures forall d1: DeliveryStatus, d2: DeliveryStatus :: d1.Code() == d2.Code() ==> d1 == d2
    ensures forall p: PaymentStatus :: p.Code() in PaymentChoices
    ensures forall s :: s in PaymentChoices ==> exists p: PaymentStatus :: p.Code() == s
    ensures forall p1: PaymentStatus, p2: PaymentStatus :: p1.Code() == p2.Code() ==> p1 == p2
  {
    forall s | s in DeliveryChoices ensures exists d: DeliveryStatus :: d.Code() == s {
      if s == "PENDING" { assert DeliveryStatus.Pending.Code() == s; }
      else if s == "PACKING" { assert DeliveryStatus.Packing.Code() == s; }
      else if s == "SHIPPING" { assert DeliveryStatus.Shipping.Code() == s; }
      else if s == "ARRIVING" { assert DeliveryStatus.Arriving.Code() == s; }
      else { assert DeliveryStatus.Success.Code() == s; }
    }
    forall s | s in PaymentChoices ensures exists p: PaymentStatus :: p.Code() == s {
      if s == "PENDING" { assert PaymentStatus.Pending.Code() == s; }
      else if s == "PROCESSING" { assert PaymentStatus.Processing.Code() == s; }
      else if s == "SUCCESSFUL" { assert PaymentStatus.Successful.Code() == s; }
      else if s == "CANCELLED" { assert PaymentStatus.Cancelled.Code() == s; }
      else { assert PaymentStatus.Failed.Code() == s; }
    }
  }

  /** A price in cents: `price_current` has two decimal places. */
  type Cents = int

  /** The current price of each product, by product id. */
  type PriceList = map<Id, Cents>

  /** An `OrderItem` row: a cart line while `order` is None. `quantity` is a
      PositiveIntegerField, so never negative. */
  datatype OrderItem = OrderItem(id: Id, user: Option<Id>, order: Option<Id>, product: Id, quantity: nat)

  /** A line created with the declared defaults: no order yet (a cart line) and quantity 1. */
  function NewLine(id: Id, user: Option<Id>, product: Id): (item: OrderItem)
    ensures item.id == id && item.user == user && item.product == product
    ensures item.order == None && item.quantity == 1
  {
    OrderItem(id, user, None, product, 1)
  }

  /** Every line's product has a price (the product link is a non-null foreign key). */
  predicate Priced(items: seq<OrderItem>, prices: PriceList)
  {
    forall i :: 0 <= i < |items| ==> items[i].product in prices
  }

  /** `OrderItem.get_total`: the product's current price times the quantity. */
  function LineTotal(item: OrderItem, prices: PriceList): (total: Cents)
    requires item.product in prices
    ensures item.quantity == 0 ==> total == 0
    ensures prices[item.product] >= 0 ==> total >= 0
    ensures item.quantity >= 1 && prices[item.product] >= 0 ==> total >= prices[item.product]
  {
    prices[item.product] * item.quantity
  }

  /** A new line costs one unit of its product. */
  lemma NewLineCostsOneUnit(id: Id, user: Option<Id>, product: Id, prices: PriceList)
    requires product in prices
    ensures LineTotal(NewLine(id, user, product), prices) == prices[product]
  {
  }

  /** The total is linear in the quantity: a line of `q1 + q2` units costs as much as a line of
      `q1` units and one of `q2` units of the same product. */
  lemma LineTotalByQuantity(item: OrderItem, prices: PriceList, q1: nat, q2: nat)
    requires item.product in prices
    ensures LineTotal(item.(quantity := q1 + q2), prices)
      == LineTotal(item.(quantity := q1), prices) + LineTotal(item.(quantity := q2), prices)
  {
  }

  /** `order.order_items.all()`: the lines attached to `order`. */
  function ItemsOf(order: Id, items: seq<OrderItem>): seq<OrderItem>
  {
    Filter(items, (x: OrderItem) => x.order == Some(order))
  }

  /** `sum(item.get_total for item in lines)`. */
  function SumOfTotals(lines: seq<OrderItem>, prices: PriceList): Cents
    requires Priced(lines, prices)
  {
    if lines == [] then 0 else LineTotal(lines[0], prices) + SumOfTotals(lines[1..], prices)
  }

  /** Filtering keeps every line priced. */
  lemma ItemsOfPriced(order: Id, items: seq<OrderItem>, prices: PriceList)
    requires Priced(items, prices)
    ensures Priced(ItemsOf(order, items), prices)
  {
    var r := ItemsOf(order, items);
    forall i | 0 <= i < |r| ensures r[i].product in prices {
      assert r[i] in r;
    }
  }

  /** `Order.get_cart_subtotal`: the sum of the totals of the order's lines. */
  function CartSubtotal(order: Id, items: seq<OrderItem>, prices: PriceList): Cents
    requires Priced(items, prices)
  {
    ItemsOfPriced(order, items, prices);
    SumOfTotals(ItemsOf(order, items), prices)
  }

  /** `Order.get_cart_total`: no tax or shipping is added, so the total is the subtotal,
      the sum of the order's line totals. */
  function CartTotal(order: Id, items: seq<OrderItem>, prices: PriceList): (total: Cents)
    requires Priced(items, prices)
    ensures total == CartSubtotal(order, items, prices)
  {
    CartSubtotal(order, items, prices)
  }

  /** The subtotal as a sum over every stored line, counting a line only when it is attached to
      the order: an independent statement of `get_cart_subtotal`. */
  function AttachedTotal(order: Id, items: seq<OrderItem>, prices: PriceList): Cents
    requires Priced(items, prices)
  {
    if items == [] then 0
    else
      var own := if items[0].order == Some(order) then LineTotal(items[0], prices) else 0;
      own + AttachedTotal(order, items[1..], prices)
  }

  /** The subtotal counts exactly the attached lines: it equals the line-by-line sum above. */
  lemma {:induction false} SubtotalCountsAttachedLines(order: Id, items: seq<OrderItem>, prices: PriceList)
    requires Priced(items, prices)
    ensures CartSubtotal(order, items, prices) == AttachedTotal(order, items, prices)
  {
    if items != [] {
      SubtotalCountsAttachedLines(order, items[1..], prices);
      ItemsOfPriced(order, items[1..], prices);
      var lines := ItemsOf(order, items);
      var rest := ItemsOf(order, items[1..]);
      if items[0].order == Some(order) {
        assert lines == [items[0]] + rest;
        assert lines[1..] == rest;
      } else {
        assert lines == rest;
      }
    }
  }

  /** The subtotal splits over any two groups of lines. */
  lemma {:induction false} SubtotalSplits(order: Id, a: seq<OrderItem>, b: seq<OrderItem>, prices: PriceList)
    requires Priced(a, prices) && Priced(b, prices)
    ensures Priced(a + b, prices)
    ensures CartSubtotal(order, a + b, prices) == CartSubtotal(order, a, prices) + CartSubtotal(order, b, prices)
  {
    assert Priced(a + b, prices);
    SubtotalCountsAttachedLines(order, a + b, prices);
    SubtotalCountsAttachedLines(order, a, prices);
    SubtotalCountsAttachedLines(order, b, prices);
    AttachedTotalSplits(order, a, b, prices);
  }

  lemma {:induction false} AttachedTotalSplits(order: Id, a: seq<OrderItem>, b: seq<OrderItem>, prices: PriceList)
    requires Priced(a, prices) && Priced(b, prices)
    ensures Priced(a + b, prices)
    ensures AttachedTotal(order, a + b, prices) == AttachedTotal(order, a, prices) + AttachedTotal(order, b, prices)
  {
    assert Priced(a + b, prices);
    if a != [] {
      assert (a + b)[1..] == a[1..] + b;
      AttachedTotalSplits(order, a[1..], b, prices);
    } else {
      assert a + b == b;
    }
  }

  /** An order none of whose lines are attached has subtotal 0. */
  lemma {:induction false} SubtotalOfNoLines(order: Id, items: seq<OrderItem>, prices: PriceList)
    requires Priced(items, prices)
    requires forall i :: 0 <= i < |items| ==> items[i].order != Some(order)
    ensures CartSubtotal(order, items, prices) == 0
  {
    SubtotalCountsAttachedLines(order, items, prices);
    NoAttachedLines(order, items, prices);
  }

  lemma {:induction false} NoAttachedLines(order: Id, items: seq<OrderItem>, prices: PriceList)
    requires Priced(items, prices)
    requires forall i :: 0 <= i < |items| ==> items[i].order != Some(order)
    ensures AttachedTotal(order, items, prices) == 0
  {
    if items != [] {
      NoAttachedLines(order, items[1..], prices);
    }
  }

  /** Attaching a cart line to the order raises the subtotal by that line's total; other
      orders' lines and cart lines never contribute. */
  lemma SubtotalOfAttachedLine(order: Id, items: seq<OrderItem>, line: OrderItem, prices: PriceList)
    requires Priced(items, prices) && line.product in prices
    ensures Priced(items + [line], prices) && Priced(items + [line.(order := Some(order))], prices)
    ensures line.order != Some(order) ==> CartSubtotal(order, items + [line], prices) == CartSubtotal(order, items, prices)
    ensures CartSubtotal(order, items + [line.(order := Some(order))], prices)
      == CartSubtotal(order, items, prices) + LineTotal(line, prices)
  {
    var attached := line.(order := Some(order));
    SubtotalSplits(order, items, [line], prices);
    SubtotalSplits(order, items, [attached], prices);
    SubtotalCountsAttachedLines(order, [line], prices);
    SubtotalCountsAttachedLines(order, [attached], prices);
    assert [line][1..] == [] && [attached][1..] == [];
  }

  /** The order of the lines (`ordering = ['-created_at']`) does not change the subtotal. */
  lemma SubtotalIgnoresLineOrder(order: Id, a: seq<OrderItem>, b: seq<OrderItem>, prices: PriceList)
    requires Priced(a, prices) && multiset(a) == multiset(b)
    ensures Priced(b, prices)
    ensures CartSubtotal(order, a, prices) == CartSubtotal(order, b, prices)
  {
    PermutationPriced(a, b, prices);
    SubtotalCountsAttachedLines(order, a, prices);
    SubtotalCountsAttachedLines(order, b, prices);
    AttachedTotalIgnoresOrder(order, a, b, prices);
  }

  lemma PermutationPriced(a: seq<OrderItem>, b: seq<OrderItem>, prices: PriceList)
    requires Priced(a, prices) && multiset(a) == multiset(b)
    ensures Priced(b, prices)
  {
    forall i | 0 <= i < |b| ensures b[i].product in prices {
      assert b[i] in multiset(b);
      assert b[i] in a;
    }
  }

  lemma {:induction false} AttachedTotalIgnoresOrder(order: Id, a: seq<OrderItem>, b: seq<OrderItem>, prices: PriceList)
    requires Priced(a, prices) && Priced(b, prices) && multiset(a) == multiset(b)
    ensures AttachedTotal(order, a, prices) == AttachedTotal(order, b, prices)
    decreases |a|
  {
    if a == [] {
      assert |b| == |multiset(b)| == 0;
    } else {
      var x := a[0];
      assert x in multiset(b);
      var k :| 0 <= k < |b| && b[k] == x;
      var front, back := b[..k], b[k + 1..];
      RemoveMatched(a, b, k);
      assert Priced(front, prices) && Priced(back, prices) && Priced([x] + back, prices);
      AttachedTotalIgnoresOrder(order, a[1..], front + back, prices);
      AttachedTotalSplits(order, front, [x] + back, prices);
      AttachedTotalSplits(order, front, back, prices);
      assert ([x] + back)[1..] == back;
      assert b == front + ([x] + back);
    }
  }

  /** Taking the first line of `a` out of both sides of a permutation leaves a permutation. */
  lemma RemoveMatched(a: seq<OrderItem>, b: seq<OrderItem>, k: nat)
    requires a != [] && k < |b| && b[k] == a[0] && multiset(a) == multiset(b)
    ensures multiset(a[1..]) == multiset(b[..k] + b[k + 1..])
  {
    var front, back := b[..k], b[k + 1..];
    assert a == [a[0]] + a[1..];
    assert b == front + [a[0]] + back;
    assert multiset(b) == multiset(front) + multiset{a[0]} + multiset(back);
    assert multiset(front + back) == multiset(front) + multiset(back);
    assert multiset(a) == multiset{a[0]} + multiset(a[1..]);
    forall y ensures multiset(a[1..])[y] == multiset(front + back)[y] {
      assert multiset(a)[y] == multiset(b)[y];
    }
  }

  /** With no negative price the subtotal, and so the total, is never negative. */
  lemma {:induction false} SubtotalNotNegative(order: Id, items: seq<OrderItem>, prices: PriceList)
    requires Priced(items, prices)
    requires forall p :: p in prices ==> prices[p] >= 0
    ensures CartTotal(order, items, prices) >= 0
  {
    SubtotalCountsAttachedLines(order, items, prices);
    AttachedTotalNotNegative(order, items, prices);
  }

  lemma {:induction false} AttachedTotalNotNegative(order: Id, items: seq<OrderItem>, prices: PriceList)
    requires Priced(items, prices)
    requires forall p :: p in prices ==> prices[p] >= 0
    ensures AttachedTotal(order, items, prices) >= 0
  {
    if items != [] {
      AttachedTotalNotNegative(order, items[1..], prices);
    }
  }

  /** The stored columns of an order that the operations here read or write. */
  datatype OrderRow = OrderRow(
    id: Id,
    user: Id,
    txRef: string,
    deliveryStatus: DeliveryStatus,
    paymentStatus: PaymentStatus,
    createdAt: Time,
    updatedAt: Time)

  /** No two orders share a primary key or a `tx_ref` (the column is declared unique). */
  ghost predicate UniqueKeys(rows: seq<OrderRow>)
  {
    forall i, j :: 0 <= i < j < |rows| ==> rows[i].id != rows[j].id && rows[i].txRef != rows[j].txRef
  }

  /** The position of the row with primary key `id`, or `|rows|` when there is none. */
  function Find(rows: seq<OrderRow>, id: Id): (k: nat)
    ensures k <= |rows|
    ensures k < |rows| ==> rows[k].id == id
    ensures k == |rows| ==> forall i :: 0 <= i < |rows| ==> rows[i].id != id
  {
    if rows == [] then 0
    else if rows[0].id == id then 0
    else 1 + Find(rows[1..], id)
  }

  /** The orders after storing `row`: an UPDATE of the row with its primary key, or an INSERT. */
  function Upsert(rows: seq<OrderRow>, row: OrderRow): seq<OrderRow>
  {
    var k := Find(rows, row.id);
    if k < |rows| then rows[k := row] else rows + [row]
  }

  /** Some other order already holds the row's `tx_ref`. */
  predicate TxRefTaken(rows: seq<OrderRow>, row: OrderRow)
  {
    exists x :: x in rows && x.id != row.id && x.txRef == row.txRef
  }

  /** Storing a row whose `tx_ref` no other order holds keeps both keys unique, replaces the
      row with the same primary key if there is one, and keeps every other row. */
  lemma UpsertKeepsKeysUnique(rows: seq<OrderRow>, row: OrderRow)
    requires UniqueKeys(rows) && !TxRefTaken(rows, row)
    ensures UniqueKeys(Upsert(rows, row))
    ensures row in Upsert(rows, row)
    ensures forall x :: x in rows && x.id != row.id ==> x in Upsert(rows, row)
    ensures forall x :: x in Upsert(rows, row) ==> x == row || (x in rows && x.id != row.id)
  {
    var k := Find(rows, row.id);
    var r := Upsert(rows, row);
    forall i | 0 <= i < |rows| && i != k ensures rows[i].id != row.id && rows[i].txRef != row.txRef {
      assert rows[i] in rows;
    }
    if k == |rows| {
      assert r[|rows|] == row;
    } else {
      assert r[k] == row;
      forall x | x in r ensures x == row || (x in rows && x.id != row.id) {
        var i :| 0 <= i < |r| && r[i] == x;
      }
      forall x | x in rows && x.id != row.id ensures x in r {
        var i :| 0 <= i < |rows| && rows[i] == x;
        assert r[i] == x;
      }
    }
  }

  /** The `orders` table with `Order.objects`, a GetOrNoneManager over every row. */
  class OrderTable {
    var rows: seq<OrderRow>

    ghost predicate Valid()
      reads this
    {
      UniqueKeys(rows)
    }

    constructor ()
      ensures Valid() && rows == []
    {
      rows := [];
    }

    /** The values the `tx_ref` column holds: what `Order.objects.filter(tx_ref=code).exists()` consults.
        Vocabulary for the contract of `Save`, not a source operation. */
    function TxRefs(): (refs: set<string>)
      reads this
      ensures forall x :: x in rows ==> x.txRef in refs
      ensures forall ref :: ref in refs ==> exists x :: x in rows && x.txRef == ref
    {
      set x | x in rows :: x.txRef
    }

    /** `Order.objects.get_or_none(...)`. */
    function GetOrNone(lookup: OrderRow -> bool): (r: Result<Option<OrderRow>, LookupError>)
      reads this
      ensures r == Ok(None) <==> forall x :: x in rows ==> !lookup(x)
      ensures r.Ok? && r.value.Some? ==>
        && r.value.value in rows && lookup(r.value.value)
        && forall x :: x in rows && lookup(x) ==> x == r.value.value
      ensures r.Err? <==> |Filter(rows, lookup)| > 1
      ensures r.Err? ==> r.error == MultipleObjectsReturned
    {
      Managers.GetOrNone(rows, lookup)
    }

    /** The write of `Model.save`: refused when another order holds the same `tx_ref`,
        otherwise an UPDATE or INSERT by primary key. */
    method Store(row: OrderRow) returns (r: Result<(), Models.DbError>)
      requires Valid()
      modifies this
      ensures Valid()
      ensures TxRefTaken(old(rows), row) ==> r == Err(Models.IntegrityError) && rows == old(rows)
      ensures !TxRefTaken(old(rows), row) ==> r == Ok(()) && rows == Upsert(old(rows), row)
    {
      if TxRefTaken(rows, row) {
        return Err(Models.IntegrityError);
      }
      UpsertKeepsKeysUnique(rows, row);
      rows := Upsert(rows, row);
      r := Ok(());
    }
  }

  /** Looking an order up by its `tx_ref` never raises MultipleObjectsReturned. */
  lemma TxRefLookupIsUnambiguous(rows: seq<OrderRow>, ref: string)
    requires UniqueKeys(rows)
    ensures Managers.GetOrNone(rows, (x: OrderRow) => x.txRef == ref).Ok?
  {
    UniqueKeySelectsAtMostOne(rows, (x: OrderRow) => x.txRef, ref, (x: OrderRow) => x.txRef == ref);
  }

  /** Why `Order.save` stored nothing. */
  datatype SaveError = CodesExhausted | Db(error: Models.DbError)

  /** An order object in memory. */
  class Order {
    const id: Id
    var user: Id
    var txRef: string
    var deliveryStatus: DeliveryStatus
    var paymentStatus: PaymentStatus
    var createdAt: Option<Time>
    var updatedAt: Option<Time>

    /** A new, unsaved order: blank `tx_ref`, both statuses PENDING, no timestamps yet. */
    constructor (id: Id, user: Id)
      ensures this.id == id && this.user == user && txRef == ""
      ensures deliveryStatus == DeliveryStatus.Pending && paymentStatus == PaymentStatus.Pending
      ensures createdAt == None && updatedAt == None
    {
      this.id := id;
      this.user := user;
      txRef := "";
      deliveryStatus := DeliveryStatus.Pending;
      paymentStatus := PaymentStatus.Pending;
      createdAt, updatedAt := None, None;
    }

    /** The row the object's current values make. */
    function Row(): OrderRow
      reads this
      requires createdAt.Some? && updatedAt.Some?
    {
      OrderRow(id, user, txRef, deliveryStatus, paymentStatus, createdAt.value, updatedAt.value)
    }

    /** `Order.save`: an order without `created_at` first gets a freshly generated `tx_ref`
        (overwriting whatever it held); then the timestamps are set (`created_at` only on that
        first save) and the row is written. An order saved before keeps its `tx_ref`. */
    method Save(table: OrderTable, picks: seq<Utils.Pick>, now: Time) returns (r: Result<(), SaveError>)
      requires table.Valid()
      modifies this, table
      ensures table.Valid()
      ensures user == old(user) && deliveryStatus == old(deliveryStatus) && paymentStatus == old(paymentStatus)
      ensures old(createdAt).None? && Utils.FirstUnique(old(table.TxRefs()), picks).None? ==>
        && r == Err(CodesExhausted)
        && table.rows == old(table.rows)
        && txRef == old(txRef) && createdAt == None && updatedAt == old(updatedAt)
      ensures old(createdAt).None? && Utils.FirstUnique(old(table.TxRefs()), picks).Some? ==>
        && txRef == Utils.FirstUnique(old(table.TxRefs()), picks).value
        && Utils.IsCode(txRef) && txRef !in old(table.TxRefs())
        && createdAt == Some(now) && updatedAt == Some(now)
        && r == Ok(())
        && table.rows == Upsert(old(table.rows), Row())
      ensures old(createdAt).Some? ==>
        && txRef == old(txRef) && createdAt == old(createdAt) && updatedAt == Some(now)
        && (r.Ok? ==> table.rows == Upsert(old(table.rows), Row()))
        && (r.Err? ==> r == Err(Db(Models.IntegrityError)) && table.rows == old(table.rows))
      ensures old(createdAt).Some? ==> (r.Ok? <==> !TxRefTaken(old(table.rows), Row()))
    {
      if createdAt.None? {
        Utils.FirstUniqueIsFresh(table.TxRefs(), picks);
        var code := Utils.GenerateUniqueCode(table.TxRefs(), picks);
        if code.None? {
          return Err(CodesExhausted);
        }
        txRef := code.value;
        createdAt := Some(now);
      }
      updatedAt := Some(now);
      var written := table.Store(Row());
      r := if written.Ok? then Ok(()) else Err(Db(written.error));
    }
  }
}
