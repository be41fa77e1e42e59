/**
 * The read path of the order repository (order/repository.go,
 * GetOrdersForAccount): the rows of the order-header / line-item join are
 * folded back into one Order per order id, each carrying its line items.
 *
 * The SQL query is an abstract source of rows (RowStream). Go's map iteration
 * order is unspecified, so the outcome is specified as a relation,
 * PossibleOutcome, that holds of every listing the code can return.
 */
module OrderRepository {

  import opened Wrappers

  /** Go's `int` on a 64-bit platform: the type `quantity` is scanned into. */
  type Int64 = x: int | -0x8000_0000_0000_0000 <= x < 0x8000_0000_0000_0000

  type Uint32 = x: int | 0 <= x < 0x1_0000_0000

  /** Go's `time.Time`, carried without being inspected. */
  datatype Time = Time(instant: int)

  /** Stands for Go's zero value `time.Time{}`. */
  const ZERO_TIME: Time := Time(0)

  /** Go's `float64`, carried by its IEEE 754 bit pattern; the fold does no arithmetic on it. */
  datatype Float64 = Float64(bits: bv64)

  /** The zero value of `float64`, +0.0, whose bit pattern is all zeros. */
  const ZERO_FLOAT64: Float64 := Float64(0)

  /** An error reported by the database driver. */
  datatype Error = Error(message: string)

  datatype OrderedProduct = OrderedProduct(id: string, quantity: Uint32)

  datatype Order = Order(
    id: string,
    accountID: string,
    createdAt: Time,
    totalPrice: Float64,
    products: seq<OrderedProduct>)

  /**
   * One row of the join, as `rows.Scan` reads it: the order header columns
   * (repeated on every line item of the order) and one line item. A NULL
   * `created_at` or `total_price` is None.
   */
  datatype JoinRow = JoinRow(
    id: string,
    createdAt: Option<Time>,
    accountID: string,
    totalPrice: Option<Float64>,
    productID: string,
    quantity: Int64)

  /** What one step of `rows.Next()` / `rows.Scan(...)` yields. */
  datatype RowResult = Scanned(row: JoinRow) | ScanFailed(error: Error)

  /** The rows the query yields, then the error `rows.Err()` reports once they stop. */
  datatype RowStream = RowStream(rows: seq<RowResult>, iterErr: Option<Error>)

  /** Go's conversion `uint32(q)` of a signed integer: its low 32 bits, read unsigned. */
  function ToUint32(q: Int64): (r: Uint32)
    ensures (q - r) % 0x1_0000_0000 == 0
    ensures 0 <= q < 0x1_0000_0000 ==> r == q
    ensures -0x1_0000_0000 <= q < 0 ==> r == q + 0x1_0000_0000
  {
    q % 0x1_0000_0000
  }

  /** The Order created for the first row of an id: a NULL creation time or total price takes its zero value. */
  function NewOrder(row: JoinRow): (o: Order)
    ensures o.id == row.id && o.accountID == row.accountID && o.products == []
    ensures o.createdAt == (if row.createdAt.None? then ZERO_TIME else row.createdAt.value)
    ensures o.totalPrice == (if row.totalPrice.None? then ZERO_FLOAT64 else row.totalPrice.value)
  {
    Order(row.id, row.accountID, row.createdAt.GetOr(ZERO_TIME),
          row.totalPrice.GetOr(ZERO_FLOAT64), [])
  }

  /** The line item a row contributes: its product and its quantity narrowed to 32 bits. */
  function LineItem(row: JoinRow): (p: OrderedProduct)
    ensures p.id == row.productID
    ensures (row.quantity - p.quantity) % 0x1_0000_0000 == 0
    ensures 0 <= row.quantity < 0x1_0000_0000 ==> p.quantity == row.quantity
  {
    OrderedProduct(row.productID, ToUint32(row.quantity))
  }

  /** One step of the fold: get or create the row's order, then append its line item. */
  function Absorb(orderMap: map<string, Order>, row: JoinRow): (m: map<string, Order>)
    ensures m.Keys == orderMap.Keys + {row.id}
    ensures forall k :: k in orderMap && k != row.id ==> m[k] == orderMap[k]
    ensures row.id in orderMap ==>
              m[row.id] == orderMap[row.id].(products := orderMap[row.id].products + [LineItem(row)])
    ensures row.id !in orderMap ==> m[row.id] == NewOrder(row).(products := [LineItem(row)])
    ensures KeyedById(orderMap) ==> KeyedById(m)
  {
    var order := if row.id in orderMap then orderMap[row.id] else NewOrder(row);
    orderMap[row.id := order.(products := order.products + [LineItem(row)])]
  }

  /**
   * The accumulator map after folding `rows` in stream order: every order is
   * filed under its own id and holds at least one line item.
   */
  ghost function Fold(rows: seq<JoinRow>): (m: map<string, Order>)
    ensures KeyedById(m)
    ensures forall k :: k in m ==> |m[k].products| > 0
  {
    if rows == [] then map[] else Absorb(Fold(rows[..|rows| - 1]), rows[|rows| - 1])
  }

  /** The error of the first row that failed to scan, if any. */
  ghost function FirstScanError(rs: seq<RowResult>): (e: Option<Error>)
  {
    if rs == [] then None
    else if rs[0].ScanFailed? then Some(rs[0].error)
    else FirstScanError(rs[1..])
  }

  /** The rows that were scanned, in stream order. */
  ghost function Consumed(rs: seq<RowResult>): (rows: seq<JoinRow>)
  {
    if rs == [] then []
    else
      Consumed(rs[..|rs| - 1])
      + match rs[|rs| - 1] case Scanned(row) => [row] case ScanFailed(_) => []
  }

  /** Reading one more row that scans: the fold absorbs it, and the first scan error lies further on. */
  lemma ScannedStep(rs: seq<RowResult>, i: nat)
    requires i < |rs| && rs[i].Scanned?
    ensures Consumed(rs[..i + 1]) == Consumed(rs[..i]) + [rs[i].row]
    ensures Fold(Consumed(rs[..i + 1])) == Absorb(Fold(Consumed(rs[..i])), rs[i].row)
    ensures FirstScanError(rs[i..]) == FirstScanError(rs[i + 1..])
  {
    var before := Consumed(rs[..i]);
    assert rs[..i + 1][..i] == rs[..i];
    assert (before + [rs[i].row])[..|before|] == before;
    assert rs[i..][1..] == rs[i + 1..];
  }

  /** `keys` lists every key of `m` exactly once, in some order. */
  ghost predicate ListsKeys(keys: seq<string>, m: map<string, Order>)
  {
    && (forall i, j :: 0 <= i < j < |keys| ==> keys[i] != keys[j])
    && (forall k :: k in m <==> k in keys)
  }

  /** Every entry of `m` is stored under its order's own id. */
  ghost predicate KeyedById(m: map<string, Order>)
  {
    forall k :: k in m ==> m[k].id == k
  }

  function IdsOf(orders: seq<Order>): (ids: set<string>)
  {
    set i | 0 <= i < |orders| :: orders[i].id
  }

  /**
   * `orders` holds the entries of `m`, a map keyed by order id, each exactly
   * once and in some order.
   */
  ghost predicate Enumerates(orders: seq<Order>, m: map<string, Order>)
  {
    && (forall i, j :: 0 <= i < j < |orders| ==> orders[i].id != orders[j].id)
    && IdsOf(orders) == m.Keys
    && forall i :: 0 <= i < |orders| ==> orders[i] == m[orders[i].id]
  }

  /**
   * `r` is a result GetOrdersForAccount can return for stream `s`: the first
   * scan error; else the iteration error; else the folded orders in any order.
   */
  ghost predicate PossibleOutcome(s: RowStream, r: Result<seq<Order>, Error>)
    ensures PossibleOutcome(s, r) && r.Success? ==>
              forall i :: 0 <= i < |r.value| ==> |r.value[i].products| > 0
  {
    match FirstScanError(s.rows)
    case Some(e) => r == Failure(e)
    case None =>
      match s.iterErr
      case Some(e) => r == Failure(e)
      case None => r.Success? && Enumerates(r.value, Fold(Consumed(s.rows)))
  }

  /** Listing the entries of a map keyed by order id under its keys enumerates it. */
  lemma ListedKeysEnumerate(orders: seq<Order>, keys: seq<string>, m: map<string, Order>)
    requires KeyedById(m) && ListsKeys(keys, m)
    requires |orders| == |keys| && forall i :: 0 <= i < |orders| ==> orders[i] == m[keys[i]]
    ensures Enumerates(orders, m)
  {
    forall i | 0 <= i < |orders| ensures orders[i].id == keys[i] && orders[i].id in IdsOf(orders) { }
  }

  /** The projection of the accumulator map into a slice, in Go's (unspecified) map order. */
  method CollectOrders(orderMap: map<string, Order>) returns (orders: seq<Order>, ghost keys: seq<string>)
    ensures ListsKeys(keys, orderMap)
    ensures |orders| == |keys|
    ensures forall i :: 0 <= i < |orders| ==> orders[i] == orderMap[keys[i]]
    ensures forall i :: 0 <= i < |orders| ==> orders[i] in orderMap.Values
    ensures forall k :: k in orderMap ==> orderMap[k] in orders
  {
    orders, keys := [], [];
    var rest := orderMap.Keys;
    while rest != {}
      invariant rest <= orderMap.Keys
      invariant forall i, j :: 0 <= i < j < |keys| ==> keys[i] != keys[j]
      invariant forall k :: k in keys <==> k in orderMap && k !in rest
      invariant |orders| == |keys|
      invariant forall i :: 0 <= i < |orders| ==> orders[i] == orderMap[keys[i]]
      invariant forall k :: k in orderMap && k !in rest ==> orderMap[k] in orders
      decreases rest
    {
      var k :| k in rest;
      orders := orders + [orderMap[k]];
      keys := keys + [k];
      rest := rest - {k};
    }
  }

  /** The row fold of GetOrdersForAccount, from the open row cursor on. */
  method GetOrdersForAccount(s: RowStream) returns (r: Result<seq<Order>, Error>)
    ensures PossibleOutcome(s, r)
  {
    var orderMap: map<string, Order> := map[];
    var i := 0;
    while i < |s.rows|
      invariant 0 <= i <= |s.rows|
      invariant FirstScanError(s.rows) == FirstScanError(s.rows[i..])
      invariant orderMap == Fold(Consumed(s.rows[..i]))
    {
      if s.rows[i].ScanFailed? {
        return Failure(s.rows[i].error);
      }
      var row := s.rows[i].row;
      var order;
      if row.id in orderMap {
        order := orderMap[row.id];
      } else {
        order := NewOrder(row);
        orderMap := orderMap[row.id := order];
      }
      order := order.(products := order.products + [LineItem(row)]);
      orderMap := orderMap[row.id := order];

      ScannedStep(s.rows, i);
      i := i + 1;
    }
    assert s.rows[..i] == s.rows;

    if s.iterErr.Some? {
      return Failure(s.iterErr.value);
    }

    var orders, keys := CollectOrders(orderMap);
    ListedKeysEnumerate(orders, keys, orderMap);
    return Success(orders);
  }
}
