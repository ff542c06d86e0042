# Product routes of the inventory backend, modelled in Dafny

The backend serves a product catalogue over HTTP. Its product router
(`backup/product.js`) turns each request into parameter-bound SQL statements. It
then reshapes the flat rows of a product/photo/price/inventory join into one JSON
object per product, each with a nested `photos` list. This project models that
router:

- `sql.dfy` (`Sql`): the values that cross the MySQL driver and their JavaScript
  truthiness. It also gives SQL text as literal words and `?` placeholders, so
  that the number of placeholders can be compared with the number of bound
  parameters.
- `pagination.dfy` (`Pagination`): `parseInt(_page) || 1`, `parseInt(_limit) || 5`,
  the offset and the 400 rejection. The handler receives `parseInt`'s result as
  `Option<int>`, where `None` stands for NaN.
- `filters.dfy` (`Filters`): the WHERE builder, written as a method that pushes
  clauses and parameters. Next to it are `join(" AND ")`, the list query and the
  count query.
- `fold.dfy` (`RowFold`): the two `reduce` folds, written as loops over the rows.
  Each is proved against a reference definition. `Object.values` is modelled
  explicitly: it lists integer keys in ascending order.
- `routes.dfy` (`ProductRoutes`): GET `/` and GET `/:id`. `executeQuery` is a
  function parameter, so each handler is proved for any database answer. Each
  handler also returns the statements it issued, in order.
- `catalog.dfy` (`Catalog`): a `Store` class. It holds the product, price, photo
  and inventory tables, the category ids and the product AUTO_INCREMENT counter.
  Its methods model photo replacement on PUT `/:id`, the delete cascade of
  DELETE `/:id`, and the category guard and inserts of POST `/`.

Behaviours of the code that are easy to miss, and that the model states:

- `page=0` and `limit=0` are not rejected: `|| 1` and `|| 5` turn 0 and NaN
  into the defaults, so only negative numbers answer 400
  (`Pagination.Normalize`).
- Products are listed in ascending `product_id` order, because
  `Object.values` enumerates integer keys in ascending order; first-seen
  order is not kept, whatever order the rows came in (`RowFold.ListedProducts`).
- The detail fold does not group rows by id. It takes its scalars from the first
  row and collects the truthy photos of every row. `RowFold.DetailAgreesWithList`
  shows that this equals the list fold's object when every row has the requested
  id, which the detail query's `WHERE p.id = ?` guarantees.
- DELETE removes photo, price and product rows but never inventory rows.
  `Catalog.Store.DeleteProduct` leaves the inventory table unchanged.

## Model

| member | source | states |
|---|---|---|
| `Pagination.Normalize` | backup/product.js:19-27 | The request is rejected with "Page and limit must be greater than 0" exactly when a parsed page or limit is negative. NaN and 0 fall back to page 1 and limit 5. An accepted window has page >= 1, limit >= 1 and offset = (page-1)*limit >= 0. |
| `Pagination.NextPageFollows` | backup/product.js:21 | For a fixed limit, page p+1 starts exactly where page p ends, so pages neither overlap nor leave gaps. |
| `Filters.ActiveFilters` | backup/product.js:32-45 | There is one filter per truthy query key and none for an absent or empty key. Filters come strictly in the order name, type_id, color_id, so no kind appears twice. Each filter carries its key's own value. |
| `Filters.BuildFilter` | backup/product.js:29-45 | The builder pushes one clause and one parameter per active filter, in the same order. The name parameter is "%" + s + "%". The type and color parameters are the raw strings. |
| `Filters.WhereClauseShape` | backup/product.js:47-48 | The WHERE text is "" exactly when no clause was pushed. Otherwise it is "WHERE " followed by the clauses joined with " AND ". Its placeholder count is the sum of the clauses' counts. |
| `Filters.QueriesWellBound` | backup/product.js:51-81 | With the builder's output, the WHERE text has one placeholder per filter parameter. The list query binds the filter parameters, then limit, then offset. The count query binds the filter parameters alone. In both queries the number of placeholders equals the number of parameters. |
| `RowFold.FirstIndex` | backup/product.js:105-126 | Gives the first row carrying an id: that row has the id and no earlier row does. This is the row whose scalars the fold keeps. |
| `RowFold.ExpectedSnoc` | backup/product.js:105-130 | A further row never changes the scalars of a product that has already been seen; it can only append its truthy photo. A row with a new id creates the product from its own columns. |
| `RowFold.AbsorbKeepsExpected` | backup/product.js:105-130 | One run of the `reduce` callback (create the product on its first row, then append a truthy photo) keeps the accumulator equal to the reference definition over the rows seen so far, one row longer. |
| `RowFold.FoldList` | backup/product.js:83-133 | The accumulator has exactly one key per distinct product_id. Each product takes its scalars from the first row with that id, and its photos are the truthy photos of that id's rows, in row order. A product without photos gets `[]`. |
| `RowFold.Least` | backup/product.js:137 | Gives the smallest id of a non-empty set: it belongs to the set and is <= every member. |
| `RowFold.AscendingKeys` | backup/product.js:137 | The integer keys in strictly ascending order, each key exactly once. This is the order in which `Object.values` lists the products. |
| `RowFold.ObjectValuesAt` | backup/product.js:137 | `Object.values` lists one value per key, and the i-th value is the one stored under the i-th smallest key. |
| `RowFold.ListedProducts` | backup/product.js:83-141 | The `products` array holds one object per distinct id of the rows, with ids strictly ascending, whatever order the rows came in. Each object is the one the fold's reference definition gives. |
| `RowFold.ListedPhotoTotal` | backup/product.js:121-137 | Together the photo lists of the listed products hold exactly as many entries as there are rows with a truthy photo. |
| `RowFold.FoldDetail` | backup/product.js:172-218 | Starting from `null`, the result is null exactly for an empty result set. Otherwise it has the first row's scalars, and its photos are the truthy photos of all rows, in order. |
| `RowFold.DetailAgreesWithList` | backup/product.js:153-218 | When every row has the requested id, the detail object equals the list fold's object for that id. |
| `ProductRoutes.GetProducts` | backup/product.js:10-146 | A rejected window answers 400 and issues no query. Otherwise the handler issues exactly the list query and then, only if that succeeded, exactly the count query. Both embed the same WHERE text, built from the filters in effect; the list query binds the filter parameters, then limit, then offset, and the count query binds the filter parameters alone; both are well bound. A database error answers 500 "Failed to fetch products". On success it answers 200 with `Object.values` of the fold, the count as `totalCount` and as the `x-total-count` header, and the normalised page and limit. |
| `ProductRoutes.DetailQuery` | backup/product.js:153-166 | The detail join binds the requested id to its single placeholder. |
| `ProductRoutes.GetProductById` | backup/product.js:149-226 | The handler issues exactly the detail query. A database error answers 500, and an empty result set answers 404 "Product not found". Otherwise it answers 200 with the first row's scalars and the truthy photos of all rows. |
| `Catalog.IsOneStricterThanTruthy` | backup/product.js:353-354 | The flag coercion `=== "1"` or `=== 1` accepts only truthy values. Truthy values such as "true" or 2 are still stored as false. |
| `Catalog.Without` | backup/product.js:323-325 | A `DELETE ... WHERE key = id` keeps exactly the rows with another key and no row with that key. |
| `Catalog.WithoutCounts` | backup/product.js:323-325 | The delete keeps each row with another key as many times as it occurred, and no copy of a row with that key. |
| `Catalog.ReplacedPhotos` | backup/product.js:284-296 | After deleting a product's photo rows and inserting one row per uploaded name, that product's file names are exactly the uploaded names. Every other product's file names are unchanged. |
| `Catalog.Store.ReplacePhotos` | backup/product.js:284-296 | With no upload, the photo table is unchanged. With at least one upload, the product's photo rows become the uploaded names as a multiset, and other products' photo rows are unchanged. |
| `Catalog.Store.DeleteProduct` | backup/product.js:309-325 | The method returns the product's file names for removal. Afterwards no photo, price or product row with that id remains, and every other row is kept. Inventory rows are not touched. |
| `Catalog.Store.CreateProduct` | backup/product.js:335-411 | The answer is 400 "Invalid category_id" exactly when no category has the requested id, and then no table and not the counter changes. Otherwise the product row goes in under a fresh id with its flags coerced, followed by one price row, one photo row per upload and one inventory row, and the answer is 201. |

## Left out

- The scalar `UPDATE product` of PUT `/:id` (backup/product.js:249-267) is not modelled. It binds 12 values to 10 placeholders, so its effect depends on the driver. The inventory `UPDATE` of PUT (lines 274-279) is a plain pass-through write and is not modelled either.
- Pagination.Normalize: the offset `(page - 1) * limit` is computed over unbounded integers. JavaScript multiplies doubles, so once the product passes 2^53 it is rounded (page 134217730 with limit 134217729 gives 2^54 + 2^28 in JavaScript, against the exact 2^54 + 2^28 + 1 stated here).
- `parseInt`'s character-level parsing is not modelled: leading whitespace, sign, digit prefix, and precision loss beyond 2^53. The handler receives the parsed number. Query-string values that arrive as arrays or objects are not modelled.
- SQL semantics are not modelled: LIKE collation, the DISTINCT/ORDER BY/LIMIT inner query, join fan-out and `COUNT(DISTINCT)`. Rows and counts are whatever `executeQuery` returns. Template-literal whitespace in the SQL text is normalised to single spaces.
- `Object.values` is modelled for array-index keys only (ids below 2^32 - 1). Larger ids would be enumerated in insertion order. The JSON key order inside each object (which differs between list and detail) is not modelled.
- File removal (`path.join`, `fs.existsSync`, `fs.unlinkSync`) is not modelled. `Catalog.Store.DeleteProduct` returns the names the handler would remove. Multer's upload and file naming are not modelled: the uploaded names are an input.
- Catalog.Store.ReplacePhotos: it inserts in upload order. Its contract promises the product's photo rows only as a multiset, because the source inserts under `Promise.all`, where order is not fixed. Photo row ids are not modelled.
- Catalog.Store.CreateProduct: its contract states the photo rows as a multiset for the same reason. Timestamps (`NOW()`, `new Date()`) are not modelled.
- Database failures on PUT, DELETE and POST (a 500 after a partial write) are not modelled. The `Store` methods model the statements succeeding. The guard's `categoryCheck` query runs outside `try`, and its failure is not modelled either.
- The category guard compares an integer id. MySQL's coercion of the form's string `category_id` is not modelled.
- server.js (the older callback-style app) and routes/orderRoutes.js (order CRUD, price times quantity in floating point) are not part of this model.
