# Order repository read path, in Dafny

The order service stores each order as one header row (`id`, `created_at`,
`account_id`, `total_price`) and one row per line item (`order_id`,
`product_id`, `quantity`). `GetOrdersForAccount` in `order/repository.go`
reads an account's orders with one join. The join repeats the header columns
once per line item. The method then folds the flattened rows back into one
`Order` per order id, each with its `[]OrderedProduct`.

This project models that fold:

- `wrappers.dfy`: `Option` stands for a nullable column. `Result` stands for
  Go's `(value, error)` return pair.
- `repository.dfy` (module `OrderRepository`): the data model (`Order`,
  `OrderedProduct`, the scanned `JoinRow`, the row cursor as a `RowStream`).
  It also holds the fold as an imperative method, `GetOrdersForAccount`. Its
  loop reads the rows one by one and updates a `map<string, Order>` by
  get-or-create plus append. A second loop, `CollectOrders`, projects the
  map's values into a sequence. The method is proved against the ghost
  specification `PossibleOutcome`. That relation gives the first scan error,
  else the iteration error, else an enumeration of `Fold(rows)` in any order.
- `fold_properties.dfy` (module `FoldProperties`): what a caller can rely on.
  These properties are proved over `PossibleOutcome` against reference
  definitions written row by row from the front of the stream:
  - `FirstIndex`: the first row of an id.
  - `ProductsOf`: the line items of an id.
  - `Expected`: the order a correct fold holds for an id.
  - `CountIn`: how many rows an id set covers.

The SQL query is an abstract source of rows. A `RowStream` is a sequence of
`RowResult`s, each either a scanned row or a scan failure, followed by the
optional error that `rows.Err()` reports. `time.Time` and `float64` values
are carried without being inspected. A NULL `created_at` gives the zero
value `ZERO_TIME`, and a NULL `total_price` gives `ZERO_FLOAT64` (+0.0).
The fold does exactly this with `sql.NullTime` and `sql.NullFloat64`. The
other columns are scanned into plain Go values, so a NULL in any of them is
a scan failure (`ScanFailed`).
On a 64-bit platform, `quantity` is scanned into a 64-bit Go `int` (the
model's `Int64`). It is then converted with `uint32(quantity)`, so the model
keeps its low 32 bits (`ToUint32`).

Go's map iteration order is unspecified, so the returned slice has no fixed
order, even though the query says `ORDER BY o.id`. The orders are not
returned sorted by id, and the model does not claim they are.
`CollectOrders` picks keys nondeterministically. Every property about the
listing is stated up to order, and `OutcomesAgreeUpToOrder` proves that any
two possible listings hold the same multiset of orders. With no rows, Go
returns a nil slice and a nil error. Here that is `Success([])`: an empty listing, not a failure.

## Model

| member | source | states |
|---|---|---|
| OrderRepository.GetOrdersForAccount | order/repository.go:98-138 | The result is one the fold can produce: the error of the first row that fails to scan, else the error `rows.Err()` reports, else every folded order exactly once in some order (`PossibleOutcome`) |
| OrderRepository.CollectOrders | order/repository.go:132-136 | The slice holds exactly the map's values: each returned order is a value of the map, and every value of the map is returned, once per key, in an unspecified order |
| OrderRepository.ToUint32 | order/repository.go:124 | `uint32(quantity)` is congruent to the quantity modulo 2^32 and lies in [0, 2^32). It is the identity on [0, 2^32). A negative quantity down to -2^32 gains 2^32 |
| OrderRepository.NewOrder | order/repository.go:103-119 | The order created for an id's first row has that row's id and account id and no line items yet. A NULL creation time or total price gives the zero value, a present one is carried unchanged |
| OrderRepository.LineItem | order/repository.go:122-125 | The line item a row contributes carries the row's product id. Its quantity is congruent to the row's quantity modulo 2^32 and equals it when it lies in [0, 2^32) |
| OrderRepository.Absorb | order/repository.go:111-125 | One loop step adds the row's id to the map's keys and leaves every other entry unchanged. An existing order gets the row's line item appended. A new id gets `NewOrder` of the row holding just that line item. A map keyed by order id stays keyed by order id |
| OrderRepository.Fold | order/repository.go:100-126 | The map after all scanned rows, folded in stream order, files every order under its own id, and every order holds at least one line item |
| OrderRepository.PossibleOutcome | order/repository.go:108-138 | The results the read can produce: the first scan error, else the iteration error, else each folded order exactly once in any order. Every order of a successful result holds at least one line item |
| OrderRepository.ListedKeysEnumerate | order/repository.go:134-136 | Listing the map's values under a duplicate-free list of all its keys yields orders with distinct ids that are exactly the map's entries |
| OrderRepository.ScannedStep | order/repository.go:100-125 | Reading a row that scans appends it to the consumed rows, has the fold absorb it, and leaves the first scan error further on |
| FoldProperties.FoldEntry | order/repository.go:111-125 | After the fold, the map has an entry for an id exactly when some row has that id. The entry is `Expected`: the header of the id's first row and the line items of all its rows |
| FoldProperties.EmptyStreamYieldsNoOrders | order/repository.go:132-138 | No rows and no iteration error give an empty listing and no error |
| FoldProperties.FailsExactlyOnError | order/repository.go:100-130 | The read fails if and only if some row fails to scan or iteration reports an error. A NULL creation time or total price never makes it fail |
| FoldProperties.ScanErrorAborts | order/repository.go:108-109 | The first row that fails to scan ends the read with that error and no orders, whatever follows it |
| FoldProperties.IterationErrorAborts | order/repository.go:128-130 | When every row scans but iteration reports an error, the read returns that error and no orders |
| FoldProperties.OneOrderPerId | order/repository.go:111-136 | No id occurs twice in the listing, and its ids are exactly the distinct ids of the scanned rows |
| FoldProperties.ProductsInStreamOrder | order/repository.go:111-125 | Each order's line items are `(productID, uint32(quantity))` of the rows with its id, in stream order. There is always at least one |
| FoldProperties.HeaderFromFirstRow | order/repository.go:103-121 | Each order's id, account id, creation time and total price come from the first row with its id. A NULL creation time or price gives the zero value, and later rows' header columns are ignored |
| FoldProperties.ProductCountEqualsRowCount | order/repository.go:100-125 | The line items across all returned orders are exactly as many as the rows read |
| FoldProperties.OutcomesAgreeUpToOrder | order/repository.go:132-138 | Two results for the same rows fail with the same error, or both succeed and list the same multiset of orders |
| FoldProperties.ThreeAndTwoRows | order/repository.go:98-138 | Three rows of order A followed by two rows of order B give exactly two orders, whose ids are exactly A's and B's. A holds its three line items and B its two, each in row order |

## Left out

- Opening the connection and closing it (`NewPostgresRepository`, `Close`, order/repository.go:20-34) are pure database I/O.
- `PutOrder` (order/repository.go:36-76) is a thin wrapper over `database/sql` transactions and `pq.CopyIn`, whose behaviour is not visible here. Modelling it would mean inventing that library's semantics. Two defects in it are visible in the text but not modelled:
  - The result of the header insert is discarded, so the `err` tested at line 56 is still the `BeginTx` error.
  - On success, `Commit` is called twice: at line 75 and again in the deferred function at line 46.
- The SQL text of the join (order/repository.go:79-92) and a failure of the query itself (lines 93-95) are not modelled. The query is an abstract row source. A failing query would return its error and no orders, just as a failing iteration does.
- The cast `total_price::money::numeric::float8` and the float `TotalPrice` are floating point. The price is an opaque carried value, and the fold does no arithmetic on it.
- The deferred `rows.Close()` (line 96) releases the cursor on every exit path. Resource release is not modelled.
- Context cancellation and connection-pool concurrency are runtime and database behaviour, not part of the fold.
- The commented-out alternative fold (order/repository.go:139-186) is dead code.
- account/server.go is gRPC transport glue (listener, registration, message marshalling) and is not part of this model.
- The `*Order` pointers stored in Go's map become `Order` values that are written back into the map after each append. Only the map holds these pointers, so no aliasing is lost.
