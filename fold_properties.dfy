/**
 * What GetOrdersForAccount promises, stated over PossibleOutcome and proved
 * against reference definitions written row by row from the front of the
 * stream: which row is the first of an order id, which line items belong to
 * an order id, and how many rows an id set covers.
 */
module FoldProperties {

  import opened Wrappers
  import opened OrderRepository

  /** The index of the first row carrying order id `id`; |rows| when none does. */
  function FirstIndex(rows: seq<JoinRow>, id: string): (j: nat)
    ensures j <= |rows|
    ensures forall i :: 0 <= i < j ==> rows[i].id != id
    ensures j < |rows| ==> rows[j].id == id
  {
    if rows == [] then 0
    else if rows[0].id == id then 0
    else 1 + FirstIndex(rows[1..], id)
  }

  /** The line items of the rows carrying order id `id`, in stream order. */
  function ProductsOf(rows: seq<JoinRow>, id: string): (items: seq<OrderedProduct>)
  {
    if rows == [] then []
    else (if rows[0].id == id then [LineItem(rows[0])] else []) + ProductsOf(rows[1..], id)
  }

  /**
   * The order a correct fold holds for `id`: the header columns of the first
   * row of that id (a NULL creation time or total price as its zero value) and the line items of
   * all rows of that id.
   */
  function Expected(rows: seq<JoinRow>, id: string): (o: Order)
    requires FirstIndex(rows, id) < |rows|
  {
    var first := rows[FirstIndex(rows, id)];
    Order(first.id,
          first.accountID,
          if first.createdAt.Some? then first.createdAt.value else ZERO_TIME,
          if first.totalPrice.Some? then first.totalPrice.value else ZERO_FLOAT64,
          ProductsOf(rows, id))
  }

  /** The number of rows whose order id is in `ids`. */
  function CountIn(rows: seq<JoinRow>, ids: set<string>): (n: nat)
  {
    if rows == [] then 0
    else (if rows[0].id in ids then 1 else 0) + CountIn(rows[1..], ids)
  }

  /** The number of line items across `orders`. */
  function TotalProducts(orders: seq<Order>): (n: nat)
  {
    if orders == [] then 0 else |orders[0].products| + TotalProducts(orders[1..])
  }

  // ---------------------------------------------------------------------------
  // The fold against the reference definitions

  lemma {:induction false} ProductsOfSnoc(rows: seq<JoinRow>, row: JoinRow, id: string)
    ensures ProductsOf(rows + [row], id)
         == ProductsOf(rows, id) + (if row.id == id then [LineItem(row)] else [])
  {
    var item := if row.id == id then [LineItem(row)] else [];
    var extended := rows + [row];
    if rows == [] {
      assert extended == [row] && extended[1..] == [];
      assert ProductsOf(extended, id) == item + ProductsOf([], id);
    } else {
      var head := if rows[0].id == id then [LineItem(rows[0])] else [];
      assert extended[0] == rows[0] && extended[1..] == rows[1..] + [row];
      ProductsOfSnoc(rows[1..], row, id);
      assert ProductsOf(extended, id) == head + (ProductsOf(rows[1..], id) + item);
      assert ProductsOf(rows, id) == head + ProductsOf(rows[1..], id);
    }
  }

  lemma FirstIndexSnoc(rows: seq<JoinRow>, row: JoinRow, id: string)
    ensures FirstIndex(rows, id) < |rows| ==> FirstIndex(rows + [row], id) == FirstIndex(rows, id)
    ensures FirstIndex(rows, id) == |rows| ==>
              FirstIndex(rows + [row], id) == if row.id == id then |rows| else |rows| + 1
  {
    var extended := rows + [row];
    assert forall i :: 0 <= i < |rows| ==> extended[i] == rows[i];
    assert extended[|rows|] == row;
  }

  lemma {:induction false} ProductsOfAbsent(rows: seq<JoinRow>, id: string)
    requires FirstIndex(rows, id) == |rows|
    ensures ProductsOf(rows, id) == []
  {
    if rows != [] {
      ProductsOfAbsent(rows[1..], id);
    }
  }

  /** Folding `rows` leaves, for each id, an entry exactly when some row has that id, and that entry is Expected. */
  lemma {:induction false} FoldEntry(rows: seq<JoinRow>, id: string)
    ensures id in Fold(rows) ==> FirstIndex(rows, id) < |rows| && Fold(rows)[id] == Expected(rows, id)
    ensures FirstIndex(rows, id) < |rows| ==> id in Fold(rows)
  {
    if rows != [] {
      var init, last := rows[..|rows| - 1], rows[|rows| - 1];
      var before := Fold(init);
      assert rows == init + [last];
      assert Fold(rows) == Absorb(before, last);
      FoldEntry(init, id);
      ProductsOfSnoc(init, last, id);
      FirstIndexSnoc(init, last, id);
      if FirstIndex(init, id) < |init| {
        assert rows[FirstIndex(init, id)] == init[FirstIndex(init, id)];
        assert Expected(rows, id).products == Expected(init, id).products
                                             + (if last.id == id then [LineItem(last)] else []);
      } else if last.id == id {
        ProductsOfAbsent(init, id);
        assert rows[|init|] == last;
        assert Fold(rows)[id] == NewOrder(last).(products := [LineItem(last)]);
      } else {
        assert id !in before;
      }
    }
  }

  /** An id with at least one row has at least one line item. */
  lemma {:induction false} ProductsOfNonEmpty(rows: seq<JoinRow>, id: string)
    requires FirstIndex(rows, id) < |rows|
    ensures |ProductsOf(rows, id)| > 0
  {
    if rows[0].id != id {
      ProductsOfNonEmpty(rows[1..], id);
    }
  }

  lemma {:induction false} ProductsOfCount(rows: seq<JoinRow>, id: string)
    ensures |ProductsOf(rows, id)| == CountIn(rows, {id})
  {
    if rows != [] {
      ProductsOfCount(rows[1..], id);
    }
  }

  lemma {:induction false} CountInUnion(rows: seq<JoinRow>, id: string, ids: set<string>)
    requires id !in ids
    ensures CountIn(rows, {id} + ids) == CountIn(rows, {id}) + CountIn(rows, ids)
  {
    if rows != [] {
      CountInUnion(rows[1..], id, ids);
    }
  }

  lemma {:induction false} CountInNothing(rows: seq<JoinRow>)
    ensures CountIn(rows, {}) == 0
  {
    if rows != [] {
      CountInNothing(rows[1..]);
    }
  }

  lemma {:induction false} CountInCovering(rows: seq<JoinRow>, ids: set<string>)
    requires forall k :: 0 <= k < |rows| ==> rows[k].id in ids
    ensures CountIn(rows, ids) == |rows|
  {
    if rows != [] {
      assert rows[0].id in ids;
      CountInCovering(rows[1..], ids);
    }
  }

  /** Orders with distinct ids, each holding the items of its own rows, hold as many items as those rows. */
  lemma {:induction false} TotalOverDistinct(orders: seq<Order>, rows: seq<JoinRow>)
    requires forall i :: 0 <= i < |orders| ==> orders[i].products == ProductsOf(rows, orders[i].id)
    requires forall i, j :: 0 <= i < j < |orders| ==> orders[i].id != orders[j].id
    ensures TotalProducts(orders) == CountIn(rows, IdsOf(orders))
  {
    if orders != [] {
      var tail := orders[1..];
      assert IdsOf(orders) == {orders[0].id} + IdsOf(tail) by {
        forall x | x in IdsOf(orders) ensures x in {orders[0].id} + IdsOf(tail) {
          var i :| 0 <= i < |orders| && orders[i].id == x;
          if i > 0 { assert tail[i - 1].id == x; }
        }
        forall x | x in IdsOf(tail) ensures x in IdsOf(orders) {
          var i :| 0 <= i < |tail| && tail[i].id == x;
          assert orders[i + 1].id == x;
        }
      }
      assert orders[0].id !in IdsOf(tail) by {
        forall i | 0 <= i < |tail| ensures tail[i].id != orders[0].id {
          assert tail[i] == orders[i + 1];
        }
      }
      forall i | 0 <= i < |tail| ensures tail[i].products == ProductsOf(rows, tail[i].id) {
        assert tail[i] == orders[i + 1];
      }
      forall i, j | 0 <= i < j < |tail| ensures tail[i].id != tail[j].id {
        assert tail[i] == orders[i + 1] && tail[j] == orders[j + 1];
      }
      TotalOverDistinct(tail, rows);
      ProductsOfCount(rows, orders[0].id);
      CountInUnion(rows, orders[0].id, IdsOf(tail));
      assert TotalProducts(orders) == |orders[0].products| + TotalProducts(tail);
    } else {
      assert IdsOf(orders) == {};
      CountInNothing(rows);
    }
  }

  lemma NoIdsNoOrders(orders: seq<Order>)
    ensures IdsOf(orders) == {} ==> orders == []
  {
    if orders != [] {
      assert orders[0].id in IdsOf(orders);
    }
  }

  lemma EnumeratedMember(orders: seq<Order>, rows: seq<JoinRow>, i: nat)
    requires Enumerates(orders, Fold(rows))
    requires i < |orders|
    ensures orders[i].id in Fold(rows) && orders[i] == Fold(rows)[orders[i].id]
  {
    assert orders[i].id in IdsOf(orders);
  }

  /** An order of an enumeration of the folded map is the Expected order of its id. */
  lemma EnumeratedEntry(orders: seq<Order>, rows: seq<JoinRow>, i: nat)
    requires Enumerates(orders, Fold(rows))
    requires i < |orders|
    ensures FirstIndex(rows, orders[i].id) < |rows|
    ensures orders[i] == Expected(rows, orders[i].id)
  {
    EnumeratedMember(orders, rows, i);
    FoldEntry(rows, orders[i].id);
  }

  /** Every id that occurs in the rows is the id of an order of an enumeration of the folded map. */
  lemma EnumeratedCovers(orders: seq<Order>, rows: seq<JoinRow>, id: string)
    requires Enumerates(orders, Fold(rows))
    requires FirstIndex(rows, id) < |rows|
    ensures id in IdsOf(orders)
  {
    FoldEntry(rows, id);
  }

  // ---------------------------------------------------------------------------
  // The stream

  lemma {:induction false} FirstScanErrorNone(rs: seq<RowResult>)
    ensures FirstScanError(rs).None? <==> forall k :: 0 <= k < |rs| ==> rs[k].Scanned?
  {
    if rs != [] {
      FirstScanErrorNone(rs[1..]);
      if rs[0].Scanned? {
        forall k | 0 < k < |rs| ensures rs[k] == rs[1..][k - 1] { }
      }
    }
  }

  lemma {:induction false} FirstScanErrorAt(rs: seq<RowResult>, k: nat)
    requires k < |rs| && rs[k].ScanFailed?
    requires forall j :: 0 <= j < k ==> rs[j].Scanned?
    ensures FirstScanError(rs) == Some(rs[k].error)
  {
    if k > 0 {
      FirstScanErrorAt(rs[1..], k - 1);
    }
  }

  lemma {:induction false} ConsumedAll(rs: seq<RowResult>)
    requires forall k :: 0 <= k < |rs| ==> rs[k].Scanned?
    ensures |Consumed(rs)| == |rs|
    ensures forall k :: 0 <= k < |rs| ==> Consumed(rs)[k] == rs[k].row
  {
    if rs != [] {
      ConsumedAll(rs[..|rs| - 1]);
    }
  }

  // ---------------------------------------------------------------------------
  // What a caller of GetOrdersForAccount sees

  /** No rows and no error: an empty listing, not a failure. */
  lemma EmptyStreamYieldsNoOrders(r: Result<seq<Order>, Error>)
    requires PossibleOutcome(RowStream([], None), r)
    ensures r == Success([])
  {
    assert Consumed([]) == [];
    NoIdsNoOrders(r.value);
  }

  /**
   * The read fails exactly when some row fails to scan or iteration reports
   * an error. A NULL creation time or total price never makes it fail; a
   * NULL in any other column is a scan failure.
   */
  lemma FailsExactlyOnError(s: RowStream, r: Result<seq<Order>, Error>)
    requires PossibleOutcome(s, r)
    ensures r.Failure? <==>
              (exists k :: 0 <= k < |s.rows| && s.rows[k].ScanFailed?) || s.iterErr.Some?
  {
    FirstScanErrorNone(s.rows);
  }

  /** A scan error returns that error and no orders, whatever follows it. */
  lemma ScanErrorAborts(s: RowStream, r: Result<seq<Order>, Error>, k: nat)
    requires PossibleOutcome(s, r)
    requires k < |s.rows| && s.rows[k].ScanFailed?
    requires forall j :: 0 <= j < k ==> s.rows[j].Scanned?
    ensures r == Failure(s.rows[k].error)
  {
    FirstScanErrorAt(s.rows, k);
  }

  /** An iteration error after every row scanned returns that error and no orders. */
  lemma IterationErrorAborts(s: RowStream, r: Result<seq<Order>, Error>, e: Error)
    requires PossibleOutcome(s, r)
    requires forall k :: 0 <= k < |s.rows| ==> s.rows[k].Scanned?
    requires s.iterErr == Some(e)
    ensures r == Failure(e)
  {
    FirstScanErrorNone(s.rows);
  }

  /** Exactly one order per distinct order id of the rows, and no id twice. */
  lemma OneOrderPerId(s: RowStream, r: Result<seq<Order>, Error>)
    requires PossibleOutcome(s, r) && r.Success?
    ensures forall i, j :: 0 <= i < j < |r.value| ==> r.value[i].id != r.value[j].id
    ensures IdsOf(r.value) == set k | 0 <= k < |s.rows| && s.rows[k].Scanned? :: s.rows[k].row.id
  {
    FirstScanErrorNone(s.rows);
    ConsumedAll(s.rows);
    var rows := Consumed(s.rows);
    forall id | id in IdsOf(r.value)
      ensures exists k :: 0 <= k < |s.rows| && s.rows[k].Scanned? && s.rows[k].row.id == id
    {
      var i :| 0 <= i < |r.value| && r.value[i].id == id;
      EnumeratedEntry(r.value, rows, i);
      var k := FirstIndex(rows, id);
      assert s.rows[k].row.id == id;
    }
    forall k | 0 <= k < |s.rows| && s.rows[k].Scanned?
      ensures s.rows[k].row.id in IdsOf(r.value)
    {
      var id := s.rows[k].row.id;
      assert rows[k].id == id;
      EnumeratedCovers(r.value, rows, id);
    }
  }

  /**
   * Each order's line items are (productID, uint32(quantity)) of the rows of
   * its id, in stream order, and there is at least one.
   */
  lemma ProductsInStreamOrder(s: RowStream, r: Result<seq<Order>, Error>)
    requires PossibleOutcome(s, r) && r.Success?
    ensures forall i :: 0 <= i < |r.value| ==>
              r.value[i].products == ProductsOf(Consumed(s.rows), r.value[i].id)
    ensures forall i :: 0 <= i < |r.value| ==> |r.value[i].products| > 0
  {
    var rows := Consumed(s.rows);
    forall i | 0 <= i < |r.value|
      ensures r.value[i].products == ProductsOf(rows, r.value[i].id)
      ensures |r.value[i].products| > 0
    {
      EnumeratedEntry(r.value, rows, i);
      ProductsOfNonEmpty(rows, r.value[i].id);
    }
  }

  /**
   * Each order's header is that of the first row of its id; header columns of
   * later rows with the same id are ignored, and a NULL creation time or total price gives the zero value.
   */
  lemma HeaderFromFirstRow(s: RowStream, r: Result<seq<Order>, Error>)
    requires PossibleOutcome(s, r) && r.Success?
    ensures forall i :: 0 <= i < |r.value| ==>
              && FirstIndex(Consumed(s.rows), r.value[i].id) < |Consumed(s.rows)|
              && var first := Consumed(s.rows)[FirstIndex(Consumed(s.rows), r.value[i].id)];
                 && r.value[i].id == first.id
                 && r.value[i].accountID == first.accountID
                 && r.value[i].createdAt == first.createdAt.GetOr(ZERO_TIME)
                 && r.value[i].totalPrice == first.totalPrice.GetOr(ZERO_FLOAT64)
  {
    forall i | 0 <= i < |r.value| {
      EnumeratedEntry(r.value, Consumed(s.rows), i);
    }
  }

  /** The line items across all returned orders are as many as the rows read. */
  lemma ProductCountEqualsRowCount(s: RowStream, r: Result<seq<Order>, Error>)
    requires PossibleOutcome(s, r) && r.Success?
    ensures TotalProducts(r.value) == |s.rows|
  {
    var rows := Consumed(s.rows);
    FirstScanErrorNone(s.rows);
    ConsumedAll(s.rows);
    forall i | 0 <= i < |r.value| ensures r.value[i].products == ProductsOf(rows, r.value[i].id) {
      EnumeratedEntry(r.value, rows, i);
    }
    TotalOverDistinct(r.value, rows);
    forall k | 0 <= k < |rows| ensures rows[k].id in IdsOf(r.value) {
      EnumeratedCovers(r.value, rows, rows[k].id);
    }
    CountInCovering(rows, IdsOf(r.value));
  }

  // ---------------------------------------------------------------------------
  // The listing is determined up to the order of its orders

  /** In a listing whose order ids are distinct, every order occurs at most once. */
  lemma {:induction false} DistinctMultiplicity(orders: seq<Order>, o: Order)
    requires forall i, j :: 0 <= i < j < |orders| ==> orders[i].id != orders[j].id
    ensures multiset(orders)[o] == if o in orders then 1 else 0
  {
    if orders != [] {
      var tail := orders[1..];
      assert orders == [orders[0]] + tail;
      forall i, j | 0 <= i < j < |tail| ensures tail[i].id != tail[j].id {
        assert tail[i] == orders[i + 1] && tail[j] == orders[j + 1];
      }
      DistinctMultiplicity(tail, o);
      if o == orders[0] {
        forall i | 0 <= i < |tail| ensures tail[i] != o {
          assert tail[i] == orders[i + 1];
        }
      }
    }
  }

  /** An order occurs in an enumeration of `m` exactly when `m` files it under its id. */
  lemma EnumeratedExactly(orders: seq<Order>, m: map<string, Order>, o: Order)
    requires Enumerates(orders, m)
    ensures o in orders <==> o.id in m && m[o.id] == o
  {
    if o.id in m && m[o.id] == o {
      assert o.id in IdsOf(orders);
      var i :| 0 <= i < |orders| && orders[i].id == o.id;
      assert orders[i] == o;
    }
  }

  /**
   * Two results the read can return for the same stream fail alike, or list
   * the same orders, each once, possibly in different orders.
   */
  lemma OutcomesAgreeUpToOrder(s: RowStream, r1: Result<seq<Order>, Error>, r2: Result<seq<Order>, Error>)
    requires PossibleOutcome(s, r1) && PossibleOutcome(s, r2)
    ensures r1.Failure? ==> r1 == r2
    ensures r1.Success? ==> r2.Success? && multiset(r1.value) == multiset(r2.value)
  {
    if r1.Success? {
      var m := Fold(Consumed(s.rows));
      forall o ensures multiset(r1.value)[o] == multiset(r2.value)[o] {
        EnumeratedExactly(r1.value, m, o);
        EnumeratedExactly(r2.value, m, o);
        DistinctMultiplicity(r1.value, o);
        DistinctMultiplicity(r2.value, o);
      }
    }
  }

  // ---------------------------------------------------------------------------
  // Two orders, three rows then two

  /** Orders with distinct ids are as many as their ids. */
  lemma {:induction false} DistinctIdsCount(orders: seq<Order>)
    requires forall i, j :: 0 <= i < j < |orders| ==> orders[i].id != orders[j].id
    ensures |IdsOf(orders)| == |orders|
  {
    if orders != [] {
      var tail := orders[1..];
      forall i, j | 0 <= i < j < |tail| ensures tail[i].id != tail[j].id {
        assert tail[i] == orders[i + 1] && tail[j] == orders[j + 1];
      }
      DistinctIdsCount(tail);
      assert IdsOf(orders) == {orders[0].id} + IdsOf(tail) by {
        forall x | x in IdsOf(orders) ensures x in {orders[0].id} + IdsOf(tail) {
          var i :| 0 <= i < |orders| && orders[i].id == x;
          if i > 0 { assert tail[i - 1].id == x; }
        }
        forall x | x in IdsOf(tail) ensures x in IdsOf(orders) {
          var i :| 0 <= i < |tail| && tail[i].id == x;
          assert orders[i + 1].id == x;
        }
      }
      assert orders[0].id !in IdsOf(tail) by {
        forall i | 0 <= i < |tail| ensures tail[i].id != orders[0].id {
          assert tail[i] == orders[i + 1];
        }
      }
    } else {
      assert IdsOf(orders) == {};
    }
  }

  /** The line items of each order id among three rows of `a` followed by two of `b`. */
  lemma ThreeAndTwoProducts(a1: JoinRow, a2: JoinRow, a3: JoinRow, b1: JoinRow, b2: JoinRow)
    requires a1.id == a2.id == a3.id && b1.id == b2.id && a1.id != b1.id
    ensures ProductsOf([a1, a2, a3, b1, b2], a1.id) == [LineItem(a1), LineItem(a2), LineItem(a3)]
    ensures ProductsOf([a1, a2, a3, b1, b2], b1.id) == [LineItem(b1), LineItem(b2)]
  {
    var r5, r4, r3, r2, r1 := [a1, a2, a3, b1, b2], [a2, a3, b1, b2], [a3, b1, b2], [b1, b2], [b2];
    assert r5[1..] == r4 && r4[1..] == r3 && r3[1..] == r2 && r2[1..] == r1 && r1[1..] == [];
    assert ProductsOf(r1, a1.id) == [] && ProductsOf(r1, b1.id) == [LineItem(b2)];
    assert ProductsOf(r2, a1.id) == [] && ProductsOf(r2, b1.id) == [LineItem(b1), LineItem(b2)];
    assert ProductsOf(r3, a1.id) == [LineItem(a3)] && ProductsOf(r3, b1.id) == ProductsOf(r2, b1.id);
    assert ProductsOf(r4, a1.id) == [LineItem(a2), LineItem(a3)] && ProductsOf(r4, b1.id) == ProductsOf(r2, b1.id);
  }

  /** The five rows scan and raise no error, so the read lists the fold of all five. */
  lemma ThreeAndTwoSucceeds(a1: JoinRow, a2: JoinRow, a3: JoinRow, b1: JoinRow, b2: JoinRow,
                            r: Result<seq<Order>, Error>)
    requires PossibleOutcome(RowStream([Scanned(a1), Scanned(a2), Scanned(a3), Scanned(b1), Scanned(b2)], None), r)
    ensures r.Success? && Enumerates(r.value, Fold([a1, a2, a3, b1, b2]))
  {
    var rs := [Scanned(a1), Scanned(a2), Scanned(a3), Scanned(b1), Scanned(b2)];
    FirstScanErrorNone(rs);
    ConsumedAll(rs);
    assert Consumed(rs) == [a1, a2, a3, b1, b2];
  }

  /**
   * When every row carries one of two distinct ids and both occur, an
   * enumeration of the fold lists exactly two orders, one per id, each with
   * the line items of its rows.
   */
  lemma TwoIdListing(orders: seq<Order>, rows: seq<JoinRow>, a: string, b: string)
    requires Enumerates(orders, Fold(rows))
    requires a != b && FirstIndex(rows, a) < |rows| && FirstIndex(rows, b) < |rows|
    requires forall k :: 0 <= k < |rows| ==> rows[k].id == a || rows[k].id == b
    ensures |orders| == 2 && IdsOf(orders) == {a, b}
    ensures forall i :: 0 <= i < |orders| ==> orders[i].products == ProductsOf(rows, orders[i].id)
  {
    forall i | 0 <= i < |orders|
      ensures orders[i].id == a || orders[i].id == b
      ensures orders[i].products == ProductsOf(rows, orders[i].id)
    {
      EnumeratedEntry(orders, rows, i);
      assert rows[FirstIndex(rows, orders[i].id)].id == orders[i].id;
    }
    EnumeratedCovers(orders, rows, a);
    EnumeratedCovers(orders, rows, b);
    assert IdsOf(orders) == {a, b};
    DistinctIdsCount(orders);
  }

  /**
   * Three rows of order `a` followed by two rows of order `b` (header columns
   * repeated, line items different) give exactly two orders: one for `a`
   * with its three line items and one for `b` with its two.
   */
  lemma ThreeAndTwoRows(a1: JoinRow, a2: JoinRow, a3: JoinRow, b1: JoinRow, b2: JoinRow,
                        r: Result<seq<Order>, Error>)
    requires a1.id == a2.id == a3.id && b1.id == b2.id && a1.id != b1.id
    requires PossibleOutcome(RowStream([Scanned(a1), Scanned(a2), Scanned(a3), Scanned(b1), Scanned(b2)], None), r)
    ensures r.Success? && |r.value| == 2
    ensures IdsOf(r.value) == {a1.id, b1.id}
    ensures forall i :: 0 <= i < 2 ==>
              r.value[i].products
                == if r.value[i].id == a1.id then [LineItem(a1), LineItem(a2), LineItem(a3)]
                   else [LineItem(b1), LineItem(b2)]
  {
    var rows := [a1, a2, a3, b1, b2];
    ThreeAndTwoSucceeds(a1, a2, a3, b1, b2, r);
    ThreeAndTwoProducts(a1, a2, a3, b1, b2);
    assert rows[3].id == b1.id;
    TwoIdListing(r.value, rows, a1.id, b1.id);
  }
}
