/**
  The two read handlers of backup/product.js: GET / (filtered, paginated
  list) and GET /:id (detail).  `executeQuery` is a parameter: the handlers
  are modelled against any database answer, and report the statements they
  issued in order.
 */
module ProductRoutes {
  import opened Sql
  import opened Pagination
  import opened Filters
  import opened RowFold

  /** What awaiting `executeQuery` yields: the rows, or a thrown database error. */
  datatype Db<T> = Rows(rows: T) | Failed

  datatype Body =
    | ErrorBody(error: string)
    | ProductPage(products: seq<Product>, totalCount: nat, page: int, limit: int)
    | ProductBody(product: Product)

  /** Status, the `x-total-count` header when set, and the JSON body. */
  datatype Response = Response(status: nat, totalCountHeader: Option<nat>, body: Body)

  /** The query string of GET /, with `_page` and `_limit` already through
      `parseInt` (`None` for NaN; an absent key is the default 1 or 5). */
  datatype ListRequest = ListRequest(page: Option<int>, limit: Option<int>, filters: ListFilters)

  const FetchProductsFailed: string := "Failed to fetch products"
  const ProductNotFound: string := "Product not found"
  const FetchDetailFailed: string := "Failed to fetch product details"

  /** Lines 10-146.  A rejected page or limit answers 400 before any query; an
      accepted one runs the list query and then the count query, both over the
      same WHERE text and filter parameters, and answers with the folded
      products in ascending id order; a database error answers 500. */
  method GetProducts(req: ListRequest, runList: Query -> Db<seq<JoinRow>>, runCount: Query -> Db<nat>)
    returns (res: Response, issued: seq<Query>)
    ensures Normalize(req.page, req.limit).Rejected? ==>
      res == Response(400, None, ErrorBody(InvalidPagination)) && issued == []
    ensures Normalize(req.page, req.limit).Accepted? ==>
      var w := Normalize(req.page, req.limit).window;
      var where := WhereClause(Clauses(req.filters));
      && 1 <= |issued| <= 2
      && (forall q :: q in issued ==> WellBound(q))
      && issued[0] == ListQuery(where, FilterParams(req.filters), w.limit, w.offset)
      && (|issued| == 2 ==> issued[1] == CountQuery(where, FilterParams(req.filters)))
      && issued[0].args == FilterParams(req.filters) + [Int(w.limit), Int(w.offset)]
      && (|issued| == 2 ==> issued[1].args == FilterParams(req.filters))
      && (|issued| == 2 <==> runList(issued[0]).Rows?)
      && (res.status == 200 <==> |issued| == 2 && runCount(issued[1]).Rows?)
      && (res.status != 200 ==> res == Response(500, None, ErrorBody(FetchProductsFailed)))
      && (res.status == 200 ==>
            var total := runCount(issued[1]).rows;
            res == Response(200, Some(total),
                            ProductPage(ObjectValues(Grouped(runList(issued[0]).rows)), total, w.page, w.limit)))
  {
    issued := [];
    var checked := Normalize(req.page, req.limit);
    if checked.Rejected? {
      return Response(400, None, ErrorBody(InvalidPagination)), issued;
    }
    var w := checked.window;
    var whereClauses, params := BuildFilter(req.filters);
    assert params == FilterParams(req.filters);
    assert whereClauses == Clauses(req.filters);
    QueriesWellBound(whereClauses, params, req.filters, w.limit, w.offset);
    var where := WhereClause(whereClauses);
    var listQuery := ListQuery(where, params, w.limit, w.offset);
    var countQuery := CountQuery(where, params);

    issued := issued + [listQuery];
    var results := runList(listQuery);
    if results.Failed? {
      return Response(500, None, ErrorBody(FetchProductsFailed)), issued;
    }
    issued := issued + [countQuery];
    var totalCount := runCount(countQuery);
    if totalCount.Failed? {
      return Response(500, None, ErrorBody(FetchProductsFailed)), issued;
    }
    var products := FoldList(results.rows);
    FoldsIsGrouped(products, results.rows);
    res := Response(200, Some(totalCount.rows),
                    ProductPage(ObjectValues(products), totalCount.rows, w.page, w.limit));
  }

  /** The detail join of lines 153-166, up to its single placeholder. */
  const DetailSelect: string :=
    "SELECT p.id AS product_id, p.product_name, p.type_id, p.color_id, p.size, p.mo_number, "
    + "p.category_id ,p.description,p.created_at,updated_at, microwave_safe, is_active, pr.price, "
    + "ph.photo, i.quantity, i.reorder_level, w.warehouse_name FROM product p "
    + "LEFT JOIN photo ph ON p.id = ph.product_id LEFT JOIN price pr ON p.id = pr.product_id "
    + "LEFT JOIN inventory i ON p.id = i.product_id LEFT JOIN warehouse w ON i.warehouse_id = w.id "
    + "WHERE p.id = "

  /** The detail query, bound to the requested id. */
  function DetailQuery(id: Value): (q: Query)
    ensures WellBound(q)
  {
    var sql := [Words(DetailSelect), Hole];
    assert Holes(sql[1..]) == 1 by { assert sql[1..][1..] == []; }
    Query(sql, [id])
  }

  /** Lines 149-226.  An empty result set answers 404; otherwise the object
      takes its scalars from the first row and collects the truthy photos of
      all rows, in row order. */
  method GetProductById(id: Value, run: Query -> Db<seq<JoinRow>>) returns (res: Response, issued: seq<Query>)
    ensures issued == [DetailQuery(id)]
    ensures run(DetailQuery(id)).Failed? ==> res == Response(500, None, ErrorBody(FetchDetailFailed))
    ensures run(DetailQuery(id)) == Rows([]) ==> res == Response(404, None, ErrorBody(ProductNotFound))
    ensures run(DetailQuery(id)).Rows? && run(DetailQuery(id)).rows != [] ==>
      var rows := run(DetailQuery(id)).rows;
      res == Response(200, None, ProductBody(Initial(rows[0]).(photos := AllPhotos(rows))))
  {
    var query := DetailQuery(id);
    issued := [query];
    var results := run(query);
    if results.Failed? {
      return Response(500, None, ErrorBody(FetchDetailFailed)), issued;
    }
    if |results.rows| == 0 {
      return Response(404, None, ErrorBody(ProductNotFound)), issued;
    }
    var product := FoldDetail(results.rows);
    res := Response(200, None, ProductBody(product.value));
  }
}
