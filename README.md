# Order-driven inventory deduction

This project models the endpoint `my_php_api/inventory/deduct_inventory.php`. The endpoint turns one customer order into stock movements, inside a single database transaction:

1. It checks the request: the menu id and the quantity must be positive.
2. It resolves the order's raw-material requirements. Each `menu_ingredients` row of the menu, and each `menu_addons` row of a selected add-on, is multiplied by the order quantity. Rows of the same material are summed.
3. It applies a guarded decrement to `raw_materials` for each material (`quantity >= need`).
4. It consumes each material's lots in `inventory_log`, earliest `(expiration_date, id)` first. For each lot taken from, it appends a negative consumption record that carries the lot's unit, expiration and unit cost.
5. It commits and reports the requirement map. Any shortage rolls everything back.

The modules:

- `Recipes` (`recipes.dfy`): the recipe rows, the requirement map as a function of the rows, and the `Resolve` method that accumulates it with two loops. The method is proved to produce that function.
- `Journal` (`journal.dfy`): the rows of `inventory_log`, the FIFO selection query `EarliestLot`, and one consumption step `Take`. It also defines the quantity per material still held in lots (`Available`) and the signed sum of a material's rows (`Moved`).
- `Fifo` (`fifo.dfy`): the `deduct_inventory_log` loop as the recursive function `Drain`. Its termination measure is the number of lots still holding stock. The module proves the loop's success condition, conservation, the frame it keeps, and the FIFO order.
- `Ledger` (`ledger.dfy`): `raw_materials` and the guarded decrements (`GuardAll`). It also holds the guard as written (see Findings).
- `Deduction` (`deduction.dfy`): `Transaction`, the outcome of a whole request as a function of the state before it, with lemmas about commit, rollback, the report and consistency. It ends with the worked order of menu 10.
- `Database` (`database.dfy`): the class `Store`, whose fields `stock` and `log` are the two tables. Its methods run the endpoint's statements in place and are proved to reach the state `Transaction` describes.

Quantities are exact `real`s. The position of a row in the journal stands for its auto-increment id. An expiration date is an `int`, ordered as the dates are.

One might expect the stock counter to equal the signed sum of all journal entries. The code does not keep that: it lowers the lot it takes from *and* appends a negative record. After a deduction the signed sum has therefore dropped by twice the requirement, while the stock counter has dropped once. The model follows the code. The invariant it proves (`ConsistencyPreserved`, `Store.DeductForOrder`) is that the stock counter equals the quantity still held in positive lots (`Available`).

The code does not reject negative recipe quantities. A negative requirement passes the guard (the stock only grows) and skips the FIFO loop. The model keeps this behaviour. `Owed` is the part of a requirement the loop actually consumes.

## Model

| member | source | states |
|---|---|---|
| Recipes.Resolve | my_php_api/inventory/deduct_inventory.php:26-57 | the accumulated map equals `Requirements` of the fetched rows' contributions, and its key order lists materials in first-seen order |
| Recipes.BaseContribs | my_php_api/inventory/deduct_inventory.php:27-35 | definition: the contributions (material, row quantity times order quantity) of the `menu_ingredients` rows of the menu, in the order the query returns them |
| Recipes.AddonContribs | my_php_api/inventory/deduct_inventory.php:41-56 | definition: the contributions of the `menu_addons` rows of the menu whose add-on id is in the selected list, in query order; each row at most once |
| Recipes.AddContribution | my_php_api/inventory/deduct_inventory.php:34 | adding one row's contribution (`?? 0` for a new key) keeps the map equal to the requirement of the longer contribution list and keeps the key order first-seen |
| Recipes.Accumulate | my_php_api/inventory/deduct_inventory.php:34 | the requirement map of `c + [e]` is that of `c` with `e`'s material raised by `e`'s amount, or created with it |
| Recipes.RequirementsFromRecipe | my_php_api/inventory/deduct_inventory.php:31-56 | the keys are exactly the materials of the menu's base rows and of its selected add-on rows; each value is the order quantity times the sum of those rows' per-serving quantities |
| Recipes.BaseScaled | my_php_api/inventory/deduct_inventory.php:31-35 | the base rows contribute, for each material, the order quantity times the sum of the menu's row quantities |
| Recipes.BaseMaterials | my_php_api/inventory/deduct_inventory.php:27-35 | the base rows contribute exactly the materials of rows whose menu id matches |
| Recipes.AddonScaled | my_php_api/inventory/deduct_inventory.php:52-56 | the add-on rows contribute, for each material, the order quantity times the sum of the selected rows' quantities |
| Recipes.AddonMaterials | my_php_api/inventory/deduct_inventory.php:41-56 | the add-on rows contribute exactly the materials of rows of the menu whose add-on id is selected |
| Recipes.NoAddonsSelectNothing | my_php_api/inventory/deduct_inventory.php:38 | an empty add-on list contributes nothing |
| Recipes.AddonListAsSet | my_php_api/inventory/deduct_inventory.php:41 | two add-on lists with the same members (a repeated id included) select the same rows, because `IN` matches each row at most once |
| Recipes.FirstSeenLists | my_php_api/inventory/deduct_inventory.php:34 | the key order lists every material of the map, and each only once |
| Recipes.SumConcat | my_php_api/inventory/deduct_inventory.php:34 | sums over contributions split over concatenation |
| Recipes.MaterialsConcat | my_php_api/inventory/deduct_inventory.php:34 | the materials of a concatenation are the union of both parts' materials |
| Recipes.SumAbsent | my_php_api/inventory/deduct_inventory.php:34 | a material absent from the contributions sums to zero (the `?? 0` default) |
| Journal.EarliestBelow | my_php_api/inventory/deduct_inventory.php:77-86 | the selected row among the first n is a lot of the material holding stock and precedes every other such lot in (expiration_date, id) order; None exactly when there is none |
| Journal.EarliestLot | my_php_api/inventory/deduct_inventory.php:77-91 | the selection query returns a lot of the material holding stock that no other such lot precedes; it returns nothing exactly when the material has no lot holding stock |
| Journal.Take | my_php_api/inventory/deduct_inventory.php:99-123 | definition: one consumption step, the UPDATE lowering row i by d followed by the INSERT of a record of -d for the user, copying the lot's material, unit, expiration and cost, with the fixed reason and total cost d times cost |
| Journal.Available | my_php_api/inventory/deduct_inventory.php:80 | the stock held by a material's lots is never negative |
| Journal.TakeEffect | my_php_api/inventory/deduct_inventory.php:94-123 | one step taking d (0 < d <= lot) lowers the material's lots by exactly d, leaves every other material's lots as they were, and removes a lot from selection exactly when it empties it |
| Journal.AvailableConcat | my_php_api/inventory/deduct_inventory.php:105-122 | stock held in lots adds up over concatenation, so appended records change nothing |
| Journal.MovedConcat | my_php_api/inventory/deduct_inventory.php:105-122 | signed journal sums add up over concatenation |
| Journal.AvailableUpdate | my_php_api/inventory/deduct_inventory.php:99-101 | updating one row changes the material's stock by the row's new holding minus its old one |
| Journal.LotCountUpdate | my_php_api/inventory/deduct_inventory.php:99-101 | updating one row changes the number of selectable lots only through that row |
| Journal.LotWithinAvailable | my_php_api/inventory/deduct_inventory.php:94 | no single lot holds more than all lots of its material together |
| Journal.NoLotNothingAvailable | my_php_api/inventory/deduct_inventory.php:89-91 | when the selection query finds nothing, the material has no stock in its lots |
| Fifo.DrainRound | my_php_api/inventory/deduct_inventory.php:94-125 | the amount taken is positive, at most the remainder and at most the lot, the lot does not go below zero, and the loop continues from the journal after the step |
| Fifo.Drain | my_php_api/inventory/deduct_inventory.php:72-127 | definition: the `deduct_inventory_log` loop; nothing to do for a remainder of zero or less, failure when no lot holds stock, otherwise one `Take` of min(remainder, lot) from the earliest lot and the loop on the rest |
| Fifo.DrainSucceedsIff | my_php_api/inventory/deduct_inventory.php:75-126 | the loop finishes without the "Not enough stock … in inventory_log" exception exactly when the material's lots hold at least the requirement |
| Fifo.DrainFrame | my_php_api/inventory/deduct_inventory.php:75-126 | after the loop, existing rows differ at most in the quantity of that material's lots, which only falls and stays non-negative; every new row is a negative record for the user, with the fixed reason, copying a lot's unit, expiration and cost, and total cost equal to amount times cost |
| Fifo.DrainEffect | my_php_api/inventory/deduct_inventory.php:75-126 | conservation: the material's lots lose exactly the requirement, other materials' lots are unchanged, and the new records of the material sum to minus the requirement (other materials: zero) |
| Fifo.DrainFifo | my_php_api/inventory/deduct_inventory.php:77-86 | FIFO order: if the loop took anything from a lot, every lot of that material earlier in (expiration_date, id) order was emptied |
| Fifo.DrainRecords | my_php_api/inventory/deduct_inventory.php:94-122 | audit trail: one record per selected lot, in selection order; the selected lots are distinct lots of the material in (expiration_date, id) order; the k-th record copies the k-th lot and carries exactly the amount that lot lost (so its total cost is that amount times the lot's cost); every changed row is a selected lot |
| Fifo.PartialRoundAttributed | my_php_api/inventory/deduct_inventory.php:94-125 | a round that only lowers a lot ends the loop with its one record attributed to that lot |
| Fifo.EmptyingRoundAttributed | my_php_api/inventory/deduct_inventory.php:94-125 | a round that empties the earliest lot, followed by attributed rounds, is attributed to that lot followed by theirs |
| Fifo.EmptiedLotGone | my_php_api/inventory/deduct_inventory.php:80 | after a lot is emptied, the lots the query can still select are the other, unchanged lots |
| Fifo.EmptyingRecords | my_php_api/inventory/deduct_inventory.php:105-122 | the record of the emptying round and the later rounds' records are each attributed to their lot |
| Fifo.EmptyingOrder | my_php_api/inventory/deduct_inventory.php:81 | the emptied earliest lot followed by the later selections is still in (expiration_date, id) order and has no repeats |
| Fifo.EmptyingCase | my_php_api/inventory/deduct_inventory.php:94-125 | the emptying round is attributed as in `EmptyingRoundAttributed`, with the frame taken from the loop that follows |
| Fifo.DrainedRound | my_php_api/inventory/deduct_inventory.php:77-86 | the selection list of the loop is the lot selected first followed by those of the later rounds |
| Fifo.EffectRound | my_php_api/inventory/deduct_inventory.php:105-125 | prefixing the record of -d to later records summing to minus the rest of the requirement gives records summing to minus the whole requirement |
| Fifo.UnheldKept | my_php_api/inventory/deduct_inventory.php:80 | a consumption never changes a row that held no stock |
| Fifo.StepRecordKept | my_php_api/inventory/deduct_inventory.php:105-122 | the record a step appends, -d copied from the lot, stays in place through the later rounds |
| Fifo.FifoRound | my_php_api/inventory/deduct_inventory.php:77-86 | the FIFO order survives one round that takes from the earliest lot |
| Fifo.DrainRecordsNotLots | my_php_api/inventory/deduct_inventory.php:80 | the appended records are negative, so no later selection query returns them |
| Fifo.TakeConsumed | my_php_api/inventory/deduct_inventory.php:99-122 | one step is a consumption of its material in the sense of `Consumed` |
| Fifo.ConsumedTrans | my_php_api/inventory/deduct_inventory.php:130-132 | consumptions compose, so successive loops over materials form one consumption of all of them |
| Fifo.RecordsKept | my_php_api/inventory/deduct_inventory.php:99-100 | the UPDATE touches a selected lot only, so earlier negative records stay where they were |
| Ledger.GuardAll | my_php_api/inventory/deduct_inventory.php:59-69 | definition: the guarded UPDATE for each material in key order, read as "a row matched" (the corrected reading of line 65); the first material without a matching row stops the loop |
| Ledger.GuardAllIff | my_php_api/inventory/deduct_inventory.php:59-69 | the guards pass exactly when every required material exists with at least its requirement; then each required material drops by its requirement and every other row is unchanged; a failure names a required material that was short |
| Ledger.GuardShortPersists | my_php_api/inventory/deduct_inventory.php:65-67 | once one material fails the guard, the loop ends with that failure |
| Ledger.AffectedRowsAsWritten | my_php_api/inventory/deduct_inventory.php:61-67 | as written, the guard succeeds exactly when the stock suffices and the requirement is non-zero |
| Ledger.ZeroNeedRefusedAsWritten | my_php_api/inventory/deduct_inventory.php:65-66 | a requirement of zero against a stock of 5 is sufficient, yet the code as written reports a shortage |
| Deduction.KeyOrderLists | my_php_api/inventory/deduct_inventory.php:60 | the `foreach` visits every material of the requirement map once |
| Deduction.DrainShortPersists | my_php_api/inventory/deduct_inventory.php:89-91 | once one material's lots run out, the loop over materials ends with that failure |
| Deduction.DrainAll | my_php_api/inventory/deduct_inventory.php:129-132 | definition: the `deduct_inventory_log` call for each material in key order; the first material whose lots run out stops the loop |
| Deduction.DrainAllSucceedsIff | my_php_api/inventory/deduct_inventory.php:129-132 | the FIFO loops over the materials succeed exactly when each material's lots hold its requirement; a failure names a material whose lots held less |
| Deduction.DrainAllEffect | my_php_api/inventory/deduct_inventory.php:129-132 | after all FIFO loops, each listed material's lots have lost exactly its requirement, other materials' lots are unchanged, the journal is a consumption of the listed materials, and each one's new records sum to minus its requirement |
| Deduction.DrainAllStep | my_php_api/inventory/deduct_inventory.php:130-132 | the effect of the earlier materials' loops carries over through the next material's loop |
| Deduction.StepConsumed | my_php_api/inventory/deduct_inventory.php:130-132 | one more material's loop extends the consumption to that material |
| Deduction.StepAvailable | my_php_api/inventory/deduct_inventory.php:130-132 | one more material's loop lowers only that material's lots, by its requirement |
| Deduction.StepMoved | my_php_api/inventory/deduct_inventory.php:130-132 | one more material's loop adds records of only that material, summing to minus its requirement |
| Deduction.Transaction | my_php_api/inventory/deduct_inventory.php:12-145 | definition: the whole request; invalid input, then the guards (shortage rolls back), then the FIFO loops (shortage rolls back), else commit with the requirement map as report |
| Deduction.RejectsInvalid | my_php_api/inventory/deduct_inventory.php:17-20 | a request fails as invalid exactly when its menu id or quantity is not positive |
| Deduction.CommitsIff | my_php_api/inventory/deduct_inventory.php:17-145 | a request commits exactly when it is valid and every required material has enough stock on hand and enough in its lots |
| Deduction.RollbackNamesMaterial | my_php_api/inventory/deduct_inventory.php:65-66 | a `raw_materials` failure names a required material that was short there; a lot failure names a required material whose lots held less, after every guard passed |
| Deduction.CommittedReport | my_php_api/inventory/deduct_inventory.php:135-140 | the reported deductions are the recipe's requirement map: base and selected add-on materials, each the order quantity times its summed row quantities |
| Deduction.CommittedStock | my_php_api/inventory/deduct_inventory.php:59-69 | on commit each reported material's stock has dropped by its deduction and every other stock row is unchanged |
| Deduction.CommittedJournal | my_php_api/inventory/deduct_inventory.php:129-135 | on commit the journal is a consumption of the reported materials for the user; each material's lots lost its deduction, others none, and each material's new records sum to minus its deduction |
| Deduction.ConsistencyPreserved | my_php_api/inventory/deduct_inventory.php:59-135 | if every stock row equals what its lots hold and no requirement is negative, a commit keeps them equal |
| Deduction.ReplayDeductsTwice | my_php_api/inventory/deduct_inventory.php:22-140 | the request is not idempotent: committing it twice reports the same deductions and lowers each material's stock twice |
| Deduction.WorkedOrder | my_php_api/inventory/deduct_inventory.php:12-140 | menu 10 at 2 units per serving, 3 servings, 6 in stock, two lots of 4: commits {1: 6}, empties the earlier lot (record -4, cost 4.0) and takes 2 from the later one (record -2, cost 3.0) |
| Database.Store.DecrementIfSufficient | my_php_api/inventory/deduct_inventory.php:61-65 | the update succeeds exactly when the row exists with enough stock, lowers only that row by the requirement, and leaves the journal alone |
| Database.Store.ConsumeLots | my_php_api/inventory/deduct_inventory.php:72-127 | the in-place loop succeeds exactly when `Drain` does and leaves the journal `Drain` computes; stock is untouched |
| Database.Store.ApplyGuards | my_php_api/inventory/deduct_inventory.php:60-69 | the loop of guarded updates ends with the stock `GuardAll` computes, or reports the material `GuardAll` stops at; the journal is untouched |
| Database.Store.ConsumeAll | my_php_api/inventory/deduct_inventory.php:129-132 | the per-material FIFO loops end with the journal `DrainAll` computes, or report the material it stops at; stock is untouched |
| Database.Store.DeductForOrder | my_php_api/inventory/deduct_inventory.php:12-145 | the response and new tables are those of `Transaction`: on commit the report and the new stock and journal, on any failure the error with both tables restored; a consistent store stays consistent when no requirement is negative |

## Left out

- HTTP headers, CORS, reading and decoding the JSON payload, and encoding the response (lines 2-5, 10, 18, 136-140, 144) are left out. The request is the `Request` datatype and the response is `Response` or `Outcome`. The message strings are represented by the `Error` constructors.
- The JSON defaults and conversions of lines 12-15 (`intval`, `floatval`, `?? 1`, `?? []`) are not modelled: the request arrives already typed.
- The connection set up in `../db.php` is not part of this model, nor is `mysqli_report`.
- SQL text, prepared statements, parameter binding and the placeholder construction of lines 39-48 are left out. The recipe tables are sequences of rows in the order the queries return them.
- Floating-point arithmetic is not modelled. Quantities are exact reals, so the loop's exact-zero exit and its termination are sound in the model. With PHP floats, a residue can remain.
- The ordering of NULL expiration dates by MySQL is not modelled. Expiration is a total order on integers.
- Concurrency and transaction isolation are left out. The model runs one request at a time, with begin/commit/rollback as a snapshot and restore of the two fields.
- Failures of the database connection or of a statement (the store's own errors) are not modelled. Only the two shortage exceptions and invalid input are.
- `created_at`, ids and other columns the endpoint does not read or write are not modelled. A row's id is its position in the journal.
- Database.Store.ConsumeLots: after a failure it states nothing about the journal, because the rollback in `DeductForOrder` discards that state.
- Database.Store.ApplyGuards: after a failure it states nothing about the stock, for the same reason.
- Database.Store.ConsumeAll: after a failure it states nothing about the journal, because the rollback in `DeductForOrder` discards that state.
- Ledger.GuardAll: follows the corrected reading of line 65 (a matched row is success), not the code as written, which also refuses a requirement of zero (see Findings).
- Deduction.Transaction: builds on `Ledger.GuardAll`, so a request with a zero requirement commits in the model, while the code as written rolls it back with "Not enough stock in raw_materials".
- Database.Store.DecrementIfSufficient: reports success when a row matched, the corrected reading of line 65, not `affected_rows` as written.
- Database.Store.ApplyGuards: stops only at a material without a matching row, as `Ledger.GuardAll` does.
- Database.Store.DeductForOrder: follows `Deduction.Transaction`, and so the corrected guard.

## Findings

| source | as written | input that shows it | evidently intended | confidence | as-written member | corrected member |
|---|---|---|---|---|---|---|
| my_php_api/inventory/deduct_inventory.php:65 | success is read from `affected_rows`. For an UPDATE, mysqli counts only the rows whose value changed, so a decrement by zero counts as no row | a recipe row with quantity 0 (requirement {1: 0}) and stock {1: 5}: the row matches, nothing changes, and the endpoint reports "Not enough stock in raw_materials for material ID 1" | the guard passes whenever the row exists with `quantity >= need`; the whole-request model (`Ledger.GuardAll`, `Deduction.Transaction`, `Database.Store`) follows this reading | medium, not executed | Ledger.ZeroNeedRefusedAsWritten | Ledger.GuardAllIff |
