# Lake counting and the cart/stock ledger, in Dafny

This project models two sequential cores of a small Go checkout service and
proves properties of the models.

**Lake counting.** The input is an `n`-row grid of `'.'` (water) and `'#'`
(land) characters, and only the first `m` characters of each row count.
`countLakes` scans the cells row by row. At every water cell not yet visited it
runs `floodFillDFS` and adds one to the lake counter. `floodFillDFS` is a
depth-first search with an explicit stack over the eight neighbours of a cell,
and `isValid` is its bounds check. The model proves the following:
- every cell the search marks is in bounds;
- every cell it newly marks, other than the start, is water;
- the visited set only grows;
- there are fewer than `m * n` pushes, so the loop ends;
- after the search, every water cell 8-connected to the start is visited;
- `countLakes` returns exactly the number of 8-connected components of water cells.

**Cart and stock ledger.** The storage layer turns each SQL statement into a
pure transition over two maps:
- `carts`, from (user, item) to a quantity;
- `stock`, from item to a count.

`AddItemToCart` is an insert-or-add upsert. `GetCartItems` reads one user's
rows. `ClearCart` deletes them. `DecreaseStock` is one transaction that takes the
cart's items one at a time: it locks the item's row, checks that the stock
covers the quantity, and writes `stock - quantity` before moving to the next
item. It is all-or-nothing: on any error the state is the one before the call, and on
success every item of the cart has been reduced.

Files:
- `grids.dfy` (module `Grids`): cells, the bounds check, the eight directions, paths and connectivity, lakes, and cardinality lemmas.
- `lakes.dfy` (module `Lakes`): the flood fill and the scan, as methods with loop invariants.
- `storage.dfy` (module `Storage`): the store state and the four operations.
- `storage_properties.dfy` (module `StorageProperties`): properties that involve several calls, and two worked scenarios.

Modelling choices:
- The `visited` matrix is the set of cells whose flag is true.
- The Go stack of `[]int` pairs is a `seq<Cell>`.
- A store failure is an explicit input. The cart operations take a `failure` flag. The transaction takes a `Fault` that says at which step it fails: begin, the locking lookup of an item, the update of an item, or commit.
- Go's iteration order over the `cartItems` map is an explicit `order` argument. It may be any enumeration of the map's keys without repeats, as a range over a Go map produces.

The code does not validate its inputs, and the model follows it:
- The code does not check that a quantity is positive, in the cart or in the transaction. The model takes any integer quantity.
- `AddItemToCart` does not check that the item exists.
- The insufficient-stock error names only the item.
- A missing `items` row gives the lookup's no-rows error, which names no item.

## Model

| member | source | states |
|---|---|---|
| Grids.IsValid | task2-answer.go:92-94 | the bounds check holds exactly when the cell is one of the `n` by `m` grid cells |
| Grids.DirectionsAreKingMoves | task2-answer.go:66-70 | the direction table holds eight distinct non-zero unit moves, and entry `7 - k` is the reverse of entry `k`, so adjacency is symmetric |
| Grids.AdjacentIsKingMove | task2-answer.go:66-70 | one cell is a neighbour of another exactly when it is a different cell at most one row and one column away, so the table covers all eight king moves |
| Grids.AdjacentSymmetric | task2-answer.go:66-70 | if a cell is one direction step from another, the second is one step from the first |
| Grids.ConnectedSymmetric | task2-answer.go:66-70 | 8-connectivity through water is symmetric |
| Grids.ConnectedTransitive | task2-answer.go:66-70 | 8-connectivity through water is transitive |
| Grids.ClosedHoldsConnected | task2-answer.go:73-88 | a set that holds every water neighbour of its members holds every cell connected to any of its members |
| Grids.SameLake | task2-answer.go:44-53 | two connected water cells have the same lake |
| Grids.AddLake | task2-answer.go:47-50 | adding the whole lake of an unvisited water cell to a closed set of water cells adds exactly one new lake, so the lake counter counts distinct lakes |
| Grids.AllCellsCard | task2-answer.go:35-38 | the visited matrix has `m * n` cells, which bounds the number of pushes |
| Lakes.StartFillState | task2-answer.go:62-63 | after the start is pushed and marked, the invariant of the search holds |
| Lakes.PopKeepsFillState | task2-answer.go:75-76 | popping the top cell keeps the invariant, and the popped cell is marked and connected to a water start |
| Lakes.PushKeepsFillState | task2-answer.go:83-85 | marking and pushing an unmarked in-bounds water neighbour keeps the invariant, and the new cell is connected to a water start |
| Lakes.FinishedFill | task2-answer.go:73 | with the stack empty, every newly marked cell has its water neighbours marked; if the old visited set was closed, the new one is closed and holds every cell connected to a water start |
| Lakes.Explore | task2-answer.go:79-87 | after the pass over the eight directions, every in-bounds water neighbour of the popped cell is marked; each push marks exactly one previously unmarked cell |
| Lakes.FloodFill | task2-answer.go:60-89 | the visited set only grows and stays in bounds; the start is marked; every newly marked cell except the start is water; from a water start, the newly marked cells are exactly the cells connected to it that were not visited (given a closed visited set); there are fewer than `m * n` pushes; the loop ends |
| Lakes.FillIsLake | task2-answer.go:47-49 | a fill that marks exactly the unvisited cells connected to the start adds the start's lake |
| Lakes.FillAddsLake | task2-answer.go:47-50 | a flood fill from an unvisited water cell adds its whole lake, increases the number of lakes met by one, and marks at least one new cell |
| Lakes.Visit | task2-answer.go:46-51 | one step of the scan keeps the visited set a closed set of water cells, visits the cell if it is water, and keeps the counter equal to the number of lakes met |
| Lakes.ScanRow | task2-answer.go:45-52 | after the scan of row `i`, every water cell in rows up to `i` is visited and the counter equals the number of lakes met |
| Lakes.CountLakes | task2-answer.go:33-57 | the result is the number of 8-connected components of water cells; it lies between 0 and the number of water cells, and is 0 when the grid has no water; afterwards the visited cells are exactly the water cells |
| Storage.AddItemToCart | internal/storage/postgres.go:29-37 | on success an absent (user, item) row is created with `quantity`, and an existing one gets `quantity` added; every other row and all stock are unchanged; on failure the state is unchanged |
| Storage.GetCartItems | internal/storage/postgres.go:79-95 | on success the result maps exactly the user's items to their quantities, so a user with no rows gets the empty map, not an error; the state is unchanged |
| Storage.ClearCart | internal/storage/postgres.go:98-101 | on success exactly the user's rows are gone, other users' rows keep their quantities, and stock is unchanged; on failure nothing changes |
| Storage.RunItems | internal/storage/postgres.go:47-68 | the loop over the items succeeds exactly when every item has a row with enough stock and no statement fails; it then yields every item's stock reduced at once; each error names a real cause: a missing row, an item short of stock, or a failed statement |
| Storage.RunItemsStep | internal/storage/postgres.go:57-64 | writing back the first item's reduced stock leaves the rows of the remaining distinct items as they were, and the deduction over the rest equals the deduction over the whole order |
| Storage.RangeOrderCovers | internal/storage/postgres.go:47 | a range over the cart map visits exactly the cart's items |
| Storage.DecreaseStock | internal/storage/postgres.go:40-76 | all-or-nothing: any error leaves the state unchanged; success happens exactly when every item exists with stock at least its quantity and the store does not fail; then each item's stock becomes `stock - quantity`, which is at least 0; other items and the carts are unchanged; an insufficient-stock error names an item that is short |
| StorageProperties.AddAllSums | internal/storage/postgres.go:31-34 | after repeated additions for one (user, item), its quantity is the earlier quantity (0 if the row was absent) plus the sum of the additions; no other row and no stock changes |
| StorageProperties.ClearCartIdempotent | internal/storage/postgres.go:98-100 | clearing a cleared cart succeeds and gives the same state |
| StorageProperties.ClearedCartReadsEmpty | internal/storage/postgres.go:80-94 | after a clear, reading the user's cart gives the empty map and not an error |
| StorageProperties.ClearCartIsolated | internal/storage/postgres.go:99 | clearing one user's cart does not change what any other user reads |
| StorageProperties.AddedItemReadsBack | internal/storage/postgres.go:31-34 | after an addition, the cart read back is the earlier cart with that item's quantity increased, or set if the item was new |
| StorageProperties.OperationsKeepStockNonNegative | internal/storage/postgres.go:57-64 | no operation, successful or failed, makes any stock negative if none was negative before |
| StorageProperties.DecreaseStockOrderIrrelevant | internal/storage/postgres.go:47 | the final state, and whether the transaction succeeds, do not depend on the map's iteration order |
| StorageProperties.SerialCheckoutsNeverOversell | internal/storage/postgres.go:50-64 | after checkouts run one after another, an item's stock is its starting stock minus what the successful ones took, and is not negative, so they never take more than the starting stock |
| StorageProperties.ScenarioExactStock | internal/storage/postgres.go:29-101 | with stock 5: adding 3 and then 2 reads back as {1: 5}; the transaction then succeeds and leaves stock 0; the cleared cart reads back empty |
| StorageProperties.ScenarioShortStock | internal/storage/postgres.go:57-58 | with stock 2 and a request for 3, the transaction fails naming item 1 and leaves the state unchanged |

## Left out

- `main` (task2-answer.go:9-30) reads the grid from standard input and prints the result. That is I/O. The model keeps only what `main` establishes, in `Grids.WellFormed`: `n` rows, each at least `m` characters long.
- The grid rows are `seq<char>`, while Go indexes `grid[i][j]` by byte (task2-answer.go:47, 83). The model is exact when each character stands for one byte of the input line; a multi-byte UTF-8 character in a row shifts the Go columns and is not modelled.
- Go's fixed-width `int` is modelled as unbounded. Coordinates and the lake counter stay far below the overflow point for any grid that fits in memory.
- The `visited` matrix is a set of cells, not a mutable `[][]bool`. Marking a cell adds it to the set. This is what lets the contracts be stated as values.
- `Lakes.CountLakes` also returns the final visited set, so that "every water cell is visited" can be stated. The Go function returns only the count.
- The completeness half of `Lakes.FloodFill` (every cell connected to the start gets visited) is stated only when the visited set it starts from is closed under water neighbours. Without that, an earlier visited cell can block the search. `countLakes` always calls it with such a set.
- `InitDB` and the global connection pool (internal/storage/postgres.go:11-18) are connection plumbing.
- `GetItem` (internal/storage/postgres.go:21-26) is a plain read of id, name and price. The type of the price field lives in a package that is not part of this model.
- Row locking with `SELECT ... FOR UPDATE`, concurrent transactions and deadlocks are not modelled. The model covers one transaction's sequential, all-or-nothing meaning, and runs of transactions one after another.
- `context.Background()` and the pgx error types are not modelled. A failure of any single statement is represented by a fault input that gives the error `StoreFailure` and leaves the state unchanged. The one exception is the no-rows result of the stock lookup, which the model derives from the state.
- The database schema is not part of this model. Foreign-key checks, column widths and integer overflow inside the database are left out.
- The checkout sequence that reads a cart, runs the transaction and clears the cart on success is not in the modelled source files. The scenario lemmas compose the operations in that order.
