# MemStorage in Dafny

This is a model of `MemStorage`, the in-memory store behind a small business-management dashboard, with proofs about it. The store keeps customers, products, orders and order items. Each is a JavaScript `Map` from a numeric id to a row, and each has a counter that hands out the next id. The store offers:

- get, create, update and delete on the tables;
- a status rule that derives a product's status from its stock;
- the counts on the dashboard;
- a per-category count of the products.

The project has five modules:

- `Schema` (`schema.dfy`):
  - the row types;
  - the insert shapes that callers pass to a create;
  - the partial shapes that an update spreads over a stored row (`{ ...row, ...patch }`).
- `OrderedMaps` (`ordered_map.dfy`): an insertion-ordered map value. It models a JavaScript `Map`, and also the plain object used as a dictionary by `getCategoryData`, for category names that are not properties of `Object.prototype`.
  - `Set` keeps the position of an existing key and appends a new one.
  - `Delete` drops a key.
  - `Values` lists the values in key order.
- `StockStatus` (`stock_status.dfy`): the stock-threshold rule. There is one version for create and one for update, and the module shows how they relate.
- `Reports` (`reports.dfy`): `filter`, counting the rows that meet a condition, and the category tally with its specification `CategoryBreakdown`.
- `Storage` (`storage.dfy`): the class `MemStorage` with the store's fields, plus the seed data.
  - Every operation that changes the store is a method on the class. Each method says exactly what the new state is and keeps the invariant `Valid()`. Under `Valid()`, every table maps each id to the row with that id, and every id is below the table's counter. Every product whose stock is present and at most 10 carries the status the threshold rule gives.
  - `GetCategoryData` keeps the loop of the source and is proved against `CategoryBreakdown`.

Two things about the source that the model follows as written:

- **Create and update apply the stock rule differently.**
  - At or below the threshold, `createProduct` stores `out_of_stock` or `low_stock`. Above the threshold (and when no stock is given), it keeps whatever non-empty status the caller sent.
  - `updateProduct` always writes `active` above the threshold. It ignores the status in the partial row.
  - Neither checks the sign of the stock, so a negative stock is `low_stock`.
  - `ThresholdStatus` is the threshold rule that `updateProduct` applies to a non-negative stock (server-storage.ts:228-234). That rule holds after every update, but not after every create: `CreateCanBreakThresholdRule` gives a case where it fails. The store-wide invariant is therefore only the part that both paths keep, `StatusAgreesAtOrBelowThreshold`.
- **No defaults are applied.** The columns with a default (customer and order status, product stock) are optional in an insert, and the store never fills them in. A row created without one stores no value there, so these fields are `Option`s in the rows. An order without a status is not counted as pending.

Deleting a row never lowers a counter, so an id is never handed out twice. `DeletedIdIsNotReused` shows this for the seeded store.

## Model

| member | source | states |
|---|---|---|
| Schema.NewCustomer | server-storage.ts:178 | the created row carries the given id and exactly the caller's fields |
| Schema.NewProduct | server-storage.ts:216 | the product row carries the given id and status, and otherwise the caller's fields |
| Schema.NewOrder | server-storage.ts:255 | the order row carries the given id and exactly the caller's fields |
| Schema.NewOrderItem | server-storage.ts:280 | the order item row carries the given id and exactly the caller's fields |
| Schema.MergeCustomer | server-storage.ts:187 | the spread keeps the id, takes each field the partial row carries, and keeps every other field |
| Schema.MergeProduct | server-storage.ts:225 | the spread keeps the id, takes each field the partial row carries, and keeps every other field |
| Schema.MergeCustomerEmpty | server-storage.ts:187 | an empty partial row leaves the customer unchanged |
| Schema.MergeCustomerIdempotent | server-storage.ts:187 | applying the same partial row twice gives the same result as applying it once |
| OrderedMaps.Empty | server-storage.ts:48-51 | a new map has no keys and is well formed |
| OrderedMaps.Get | server-storage.ts:173 | `get` finds a value exactly when the key is present, and returns the value stored under it |
| OrderedMaps.Values | server-storage.ts:169 | `Array.from(values())` lists one value per key, in key order |
| OrderedMaps.Set | server-storage.ts:179 | `set` stores the value; an existing key keeps its place and a new key goes last |
| OrderedMaps.Remove | server-storage.ts:193 | removing a key from the order keeps exactly the other keys, without duplicates, and changes nothing when the key is absent |
| OrderedMaps.RemoveAt | server-storage.ts:193 | removing the key at position p of a duplicate-free order cuts out exactly that position; the other keys keep their order |
| OrderedMaps.Delete | server-storage.ts:193 | `delete` drops exactly that key and changes nothing when the key is absent |
| OrderedMaps.DeleteValues | server-storage.ts:193 | after `delete`, the listing is the old listing without the deleted entry, the others in their old order |
| OrderedMaps.DeleteEffect | server-storage.ts:193 | after a delete the key is gone, every other key reads as before, and deleting again changes nothing |
| OrderedMaps.ValuesAreStored | server-storage.ts:169 | the listed values are exactly the values stored in the map |
| OrderedMaps.SetNewKey | server-storage.ts:179 | setting a new key appends its value to the listing |
| OrderedMaps.SetExistingKey | server-storage.ts:188 | setting an existing key replaces its value where it stands and keeps the listing's length |
| OrderedMaps.KeyCount | server-storage.ts:291-292 | the listing is as long as the map has entries |
| OrderedMaps.SetAll | server-storage.ts:150-160 | `rows.forEach(row => map.set(key(row), row))`: the rows are set one after the other, and the map stays well formed; what it then holds is stated by `SetAllFreshKeys` and `SetAllFreshVals` |
| OrderedMaps.SetAllFreshKeys | server-storage.ts:150-160 | setting rows with new, distinct keys appends those keys in row order |
| OrderedMaps.SetAllFreshVals | server-storage.ts:150-160 | after setting rows with distinct keys, each row is stored under its own key |
| OrderedMaps.SetAllFreshVal | server-storage.ts:150-160 | when the keys are distinct, the row at any position is the value stored under its key afterwards |
| OrderedMaps.SetAllLast | server-storage.ts:150-160 | the last row is set last: its key holds it, over what the earlier rows left |
| OrderedMaps.SetAllKeepsEarlier | server-storage.ts:150-160 | setting the last row leaves every other key holding what the earlier rows left there |
| OrderedMaps.SetAllIntoEmpty | server-storage.ts:150-160 | setting distinct rows into an empty map lists exactly those rows, in order |
| OrderedMaps.SetEach | server-storage.ts:150-152 | the `forEach` loop of sets produces `SetAll` of the rows |
| StockStatus.RequestedOrActive | server-storage.ts:209 | `status \|\| "active"` is never empty, and is the caller's status when that status is a non-empty string |
| StockStatus.CreateStatus | server-storage.ts:209-214 | stock 0 gives out_of_stock, 1 to 10 gives low_stock and negative stock gives low_stock; above 10 or with no stock, the caller's status (or active) is kept |
| StockStatus.UpdateStatus | server-storage.ts:228-234 | stock 0 gives out_of_stock, 1 to 10 gives low_stock and negative stock gives low_stock; above 10 or with no stock, the status is active |
| StockStatus.ThresholdBands | server-storage.ts:228-234 | the threshold rule's three bands, each stated in both directions |
| StockStatus.CreateAgreesWithUpdateAtOrBelowThreshold | server-storage.ts:210-213 | with a stock of at most 10, create and update store the same status |
| StockStatus.CreateCanBreakThresholdRule | server-storage.ts:209-216 | a create with stock 50 and status out_of_stock stores out_of_stock, although the rule says active |
| StockStatus.UpdatedStatusKeepsInvariants | server-storage.ts:227-236 | the status an update writes satisfies both the threshold rule and the store invariant |
| StockStatus.StoreInvariantIsThresholdRuleAtOrBelow10 | server-storage.ts:227-234 | for a stock from 0 to 10, the store invariant and the threshold rule coincide |
| Reports.Filter | server-storage.ts:275 | `filter` keeps exactly the elements that satisfy the condition |
| Reports.FilterKeepsOrder | server-storage.ts:275 | `filter` keeps the relative order of the elements it keeps |
| Reports.CountMatching | server-storage.ts:293 | the length of the filtered listing is the number of entries whose row satisfies the condition |
| Reports.CountMatchingPrefix | server-storage.ts:293 | the same holds for every prefix of the listing |
| Reports.CountOf | server-storage.ts:355 | a category's count is positive exactly when it occurs, and is at most the listing's length |
| Reports.FirstOccurrences | server-storage.ts:352-358 | the dictionary's keys are each category that occurs, once, in first-insertion order |
| Reports.PrefixStep | server-storage.ts:354-356 | one more product adds its category to the keys if it is new, and raises only that category's count by one |
| Reports.TallyStep | server-storage.ts:355 | `counts[c] = (counts[c] \|\| 0) + 1` keeps the dictionary equal to the tally of the products seen so far |
| Reports.Tally | server-storage.ts:358-361 | each listed category is paired with its number of occurrences |
| Reports.Entries | server-storage.ts:358-361 | `Object.entries(...).map(...)` lists one pair per key, in key order |
| Reports.TallyEntries | server-storage.ts:350-361 | the entries of a finished tally are the category breakdown |
| Reports.CategoryBreakdownCorrect | server-storage.ts:350-361 | every category that occurs is listed, and only those; each is listed once with its positive count; the counts add up to the number of products |
| Reports.TallyTotal | server-storage.ts:350-361 | the counts of the breakdown add up to the length of the listing |
| Storage.TableInsert | server-storage.ts:177-179 | the counter's id is free; storing the row under it keeps the table invariant with the counter moved on, and lists the row last |
| Storage.TableReplace | server-storage.ts:188 | storing a row under its own existing id keeps the table invariant and the key order |
| Storage.TableDelete | server-storage.ts:193 | deleting any id keeps the table invariant, and the listing loses exactly that row |
| Storage.CreatedProduct | server-storage.ts:205-216 | the product a create stores keeps the caller's fields and stock; at or below 10 its status agrees with the rule; above 10 it keeps the caller's non-empty status |
| Storage.UpdatedProduct | server-storage.ts:221-234 | the product an update stores is the spread with a recomputed status; it meets the threshold rule and is active above 10 or with no stock |
| Storage.UpdateProductIgnoresPatchStatus | server-storage.ts:225-234 | the status in the partial row has no effect on the product an update stores |
| Storage.IsPending | server-storage.ts:293 | `order.status === "pending"`: an order without a status is not pending |
| Storage.BelongsTo | server-storage.ts:275 | `item => item.orderId === orderId` |
| Storage.Categories | server-storage.ts:351-355 | the categories of the products, one per product, in listing order |
| Storage.SeedTable | server-storage.ts:150-160 | rows numbered 1, 2, ... set into an empty table give exactly those rows under ids 1 to n, in order |
| Storage.SeedEach | server-storage.ts:150-160 | the seeding loop leaves the table holding exactly the sample rows, in order |
| Storage.SeededIds | server-storage.ts:150-160 | a table seeded with n numbered rows holds exactly the ids 1 to n |
| Storage.SAMPLE_CUSTOMERS | server-storage.ts:63-88 | the three sample customers, with their ids 1 to 3 and all their fields |
| Storage.SAMPLE_PRODUCTS | server-storage.ts:91-128 | the four sample products, with their ids 1 to 4, stocks 45, 5, 20 and 0, and statuses |
| Storage.SAMPLE_ORDERS | server-storage.ts:131-148 | the two sample orders, with their ids 1 and 2, one completed and one pending |
| Storage.SampleRowsNumbered | server-storage.ts:63-148 | the sample rows carry the ids 1, 2, ... in the order they are listed |
| Storage.SeededProductsMatchStock | server-storage.ts:91-128 | every seeded product's status is the one the threshold rule gives for its stock |
| Storage.MemStorage.constructor | server-storage.ts:47-59 | the new store holds the sample customers, products and orders in order, under exactly the ids 1 to 3, 1 to 4 and 1 to 2, and no order items; the counters are 4, 5, 3 and 1; every product meets the threshold rule |
| Storage.MemStorage.InitializeData | server-storage.ts:61-165 | the sample rows are set into the three empty maps; the tables then hold exactly the sample rows, and the counters move to 4, 5 and 3 |
| Storage.MemStorage.SeedCustomers | server-storage.ts:150-152 | the sample customers are set into the empty customer map, which then holds exactly them, in order, under ids 1 to 3 |
| Storage.MemStorage.SeedProducts | server-storage.ts:154-156 | the sample products are set into the empty product map, which then holds exactly them, in order, under ids 1 to 4 |
| Storage.MemStorage.SeedOrders | server-storage.ts:158-160 | the sample orders are set into the empty order map, which then holds exactly them, in order, under ids 1 and 2 |
| Storage.MemStorage.Customers | server-storage.ts:168-170 | one customer per stored id, in insertion order, each stored under its own id |
| Storage.MemStorage.GetCustomer | server-storage.ts:172-174 | finds the customer with that id exactly when one is stored; an id at or above the counter is never found |
| Storage.MemStorage.CreateCustomer | server-storage.ts:176-181 | the new customer gets the counter's value, which is above every stored id; the counter rises by one; the customer is stored under that id and listed last; the invariant is kept |
| Storage.MemStorage.UpdateCustomer | server-storage.ts:183-190 | an unknown id gives None and changes nothing; otherwise the merged row replaces the old one in place and every other row stays |
| Storage.MemStorage.DeleteCustomer | server-storage.ts:192-194 | reports whether the id was stored; the table loses exactly that id, and the listing loses exactly that row, the others keeping their order |
| Storage.MemStorage.Products | server-storage.ts:197-199 | one product per stored id, in insertion order; each product with a stock of at most 10 carries the rule's status |
| Storage.MemStorage.GetProduct | server-storage.ts:201-203 | finds the product with that id exactly when one is stored; with a stock at or below 10, its status is the one the threshold rule gives |
| Storage.MemStorage.CreateProduct | server-storage.ts:205-219 | the new product gets a fresh id and the create status; the counter rises by one; the product is listed last; the invariant is kept |
| Storage.MemStorage.UpdateProduct | server-storage.ts:221-238 | an unknown id gives None and changes nothing; otherwise the updated product replaces the old one in place and meets the rule |
| Storage.MemStorage.DeleteProduct | server-storage.ts:240-242 | reports whether the id was stored; the table loses exactly that id, and the listing loses exactly that row, the others keeping their order |
| Storage.MemStorage.Orders | server-storage.ts:245-247 | one order per stored id, in insertion order |
| Storage.MemStorage.GetOrder | server-storage.ts:249-251 | finds the order with that id exactly when one is stored |
| Storage.MemStorage.CreateOrder | server-storage.ts:253-258 | the new order gets a fresh id; the counter rises by one; the order is listed last |
| Storage.MemStorage.UpdateOrderStatus | server-storage.ts:260-267 | an unknown id gives None and changes nothing; otherwise only that order's status changes |
| Storage.MemStorage.DeleteOrder | server-storage.ts:269-271 | reports whether the id was stored; the table loses exactly that id, and the listing loses exactly that row, the others keeping their order |
| Storage.MemStorage.GetOrderItems | server-storage.ts:274-276 | exactly the stored items of that order, one per matching id |
| Storage.MemStorage.CreateOrderItem | server-storage.ts:278-283 | the new item gets a fresh id and is listed last, both among all items and among its order's items |
| Storage.MemStorage.DashboardStats | server-storage.ts:286-293 | the customer and product totals are the table sizes; pending orders are the stored orders whose status is "pending" |
| Storage.MemStorage.GetCategoryData | server-storage.ts:350-362 | the dictionary loop returns the category breakdown of the product listing; its counts add up to the number of products |
| Storage.DeletedIdIsNotReused | server-storage.ts:176-194 | on a fresh store, create gives id 4; after deleting it, a second delete reports false and the next create gives 5 |
| Storage.RestockScenario | server-storage.ts:205-238 | a product created with stock 0 is out_of_stock and restocking it to 50 makes it active; a create with stock 50 keeps the caller's out_of_stock |

## Left out

- `monthlyRevenue` in `getDashboardStats` is not modelled. It sums `parseFloat` of decimal strings in floating point.
- The growth figures in `getDashboardStats` are not modelled. They are fixed constants.
- `getRecentActivity`, `getSalesData` and `getFinancialData` are not modelled. They return fixed literal data and read no state.
- The `IStorage` interface and the exported `storage` singleton are left out. The interface is a type, and the singleton is just one constructor call.
- `async`/`Promise` is left out. Every operation completes synchronously on the store's state, and nothing runs in between.
- Ids and counters are unbounded integers. JavaScript numbers lose precision above 2^53.
- `Object.entries` lists integer-like keys (such as a category named "12") first, in numeric order. The model uses first-insertion order for every key, like a `Map`.
- Rows are immutable values in the model. The source hands callers the very object stored in the `Map` (from `get*`, the listings, `create*` and `update*`), so a caller that mutates a returned row changes the store and can break `row.id == key` or the stock/status agreement. Aliasing of stored rows is not modelled.
- Storage.MemStorage.GetCategoryData: categories whose name is a property of `Object.prototype` are not modelled. For a name like "constructor" or "toString", `categoryCount[c] || 0` reads the inherited function and the count becomes a string. A category named "__proto__" is never listed. The model counts every name like any other key.
- A partial row that carries a field explicitly set to `undefined` is modelled as one that omits the field.
- Values that violate the declared types (such as `null` fields or a stock given as a string) are not modelled.
- The validation in the form schemas (minimum lengths, email format, non-negative stock) happens in callers and is not part of the store.
- Storage.MemStorage.GetOrderItems: states membership and the count of matching ids, and does not state the order of the result as an equation on the listing. That the filter keeps the listing's order is proved separately in `FilterKeepsOrder`.
