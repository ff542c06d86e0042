/**
  The WHERE builder of the product list (backup/product.js, GET /) and the
  two queries it feeds: the paginated list join and the count query.
 */
module Filters {
  import opened Sql

  /** The three optional filters of the query string; `None` is an absent key. */
  datatype ListFilters = ListFilters(
    productNameLike: Option<string>,
    typeId: Option<string>,
    colorId: Option<string>)

  /** `if (x)` on a query-string value: absent and empty are both falsy. */
  predicate Present(x: Option<string>)
  {
    x.Some? && x.value != ""
  }

  /** One filter in effect. */
  datatype Filter = NameLike(fragment: string) | TypeIs(typeId: string) | ColorIs(colorId: string)

  /** The position at which the builder tests each kind of filter. */
  function Rank(f: Filter): nat
  {
    match f
    case NameLike(_) => 0
    case TypeIs(_) => 1
    case ColorIs(_) => 2
  }

  /** The filters in effect, as a reference for the builder: every present
      filter once, in the order name, type, color. */
  function Active(f: ListFilters): (fs: seq<Filter>)
    ensures |fs| <= 3
  {
    (if Present(f.productNameLike) then [NameLike(f.productNameLike.value)] else [])
    + (if Present(f.typeId) then [TypeIs(f.typeId.value)] else [])
    + (if Present(f.colorId) then [ColorIs(f.colorId.value)] else [])
  }

  function CountPresent(f: ListFilters): nat
  {
    (if Present(f.productNameLike) then 1 else 0)
    + (if Present(f.typeId) then 1 else 0)
    + (if Present(f.colorId) then 1 else 0)
  }

  /** One filter per present key, none for an absent or empty one, strictly
      in the builder's order (so no kind twice). */
  lemma ActiveFilters(f: ListFilters)
    ensures |Active(f)| == CountPresent(f)
    ensures forall i, j :: 0 <= i < j < |Active(f)| ==> Rank(Active(f)[i]) < Rank(Active(f)[j])
    ensures f.productNameLike.Some? ==>
      (NameLike(f.productNameLike.value) in Active(f) <==> Present(f.productNameLike))
    ensures f.typeId.Some? ==> (TypeIs(f.typeId.value) in Active(f) <==> Present(f.typeId))
    ensures f.colorId.Some? ==> (ColorIs(f.colorId.value) in Active(f) <==> Present(f.colorId))
    ensures forall x :: x in Active(f) ==>
      match x
      case NameLike(s) => f.productNameLike == Some(s) && s != ""
      case TypeIs(s) => f.typeId == Some(s) && s != ""
      case ColorIs(s) => f.colorId == Some(s) && s != ""
  {
  }

  const NameClause: Sql := [Words("p.product_name LIKE "), Hole]
  const TypeClause: Sql := [Words("p.type_id = "), Hole]
  const ColorClause: Sql := [Words("p.color_id = "), Hole]

  function ClauseOf(x: Filter): (c: Sql)
    ensures Holes(c) == 1
  {
    match x
    case NameLike(_) => NameClause
    case TypeIs(_) => TypeClause
    case ColorIs(_) => ColorClause
  }

  /** The bound value of a filter; LIKE matches the fragment anywhere in the name. */
  function ParamOf(x: Filter): Value
  {
    match x
    case NameLike(s) => Text("%" + s + "%")
    case TypeIs(s) => Text(s)
    case ColorIs(s) => Text(s)
  }

  /** The parameters of the filters in effect, in order. */
  function FilterParams(f: ListFilters): (ps: seq<Value>)
    ensures |ps| == |Active(f)|
  {
    seq(|Active(f)|, i requires 0 <= i < |Active(f)| => ParamOf(Active(f)[i]))
  }

  /** The clauses of the filters in effect, in order. */
  function Clauses(f: ListFilters): (cs: seq<Sql>)
    ensures |cs| == |Active(f)|
    ensures forall i :: 0 <= i < |cs| ==> Holes(cs[i]) == 1
  {
    seq(|Active(f)|, i requires 0 <= i < |Active(f)| => ClauseOf(Active(f)[i]))
  }

  /** Lines 29-45: push one clause and one parameter per truthy filter. */
  method BuildFilter(f: ListFilters) returns (whereClauses: seq<Sql>, params: seq<Value>)
    ensures |whereClauses| == |params| == |Active(f)|
    ensures forall i :: 0 <= i < |params| ==>
      whereClauses[i] == ClauseOf(Active(f)[i]) && params[i] == ParamOf(Active(f)[i])
  {
    whereClauses := [];
    params := [];
    if Present(f.productNameLike) {
      whereClauses := whereClauses + [NameClause];
      params := params + [Text("%" + f.productNameLike.value + "%")];
    }
    if Present(f.typeId) {
      whereClauses := whereClauses + [TypeClause];
      params := params + [Text(f.typeId.value)];
    }
    if Present(f.colorId) {
      whereClauses := whereClauses + [ColorClause];
      params := params + [Text(f.colorId.value)];
    }
  }

  const And: Piece := Words(" AND ")

  /** `clauses.join(" AND ")`. */
  function JoinAnd(clauses: seq<Sql>): Sql
  {
    if |clauses| == 0 then []
    else if |clauses| == 1 then clauses[0]
    else clauses[0] + [And] + JoinAnd(clauses[1..])
  }

  /** Lines 47-48. */
  function WhereClause(clauses: seq<Sql>): Sql
  {
    if |clauses| > 0 then [Words("WHERE ")] + JoinAnd(clauses) else []
  }

  function SumHoles(clauses: seq<Sql>): nat
  {
    if clauses == [] then 0 else Holes(clauses[0]) + SumHoles(clauses[1..])
  }

  lemma {:induction false} JoinAndHoles(clauses: seq<Sql>)
    ensures Holes(JoinAnd(clauses)) == SumHoles(clauses)
  {
    if |clauses| == 1 {
      assert SumHoles(clauses[1..]) == 0;
    } else if |clauses| > 1 {
      HolesAppend(clauses[0], [And]);
      HolesAppend(clauses[0] + [And], JoinAnd(clauses[1..]));
      JoinAndHoles(clauses[1..]);
    }
  }

  /** The WHERE text is empty exactly when no clause was pushed, and it holds
      one placeholder per clause otherwise. */
  lemma WhereClauseShape(clauses: seq<Sql>)
    ensures Render(WhereClause(clauses)) == "" <==> clauses == []
    ensures clauses != [] ==> Render(WhereClause(clauses)) == "WHERE " + Render(JoinAnd(clauses))
    ensures Holes(WhereClause(clauses)) == SumHoles(clauses)
  {
    if clauses != [] {
      RenderAppend([Words("WHERE ")], JoinAnd(clauses));
      HolesAppend([Words("WHERE ")], JoinAnd(clauses));
      assert Render([Words("WHERE ")]) == "WHERE ";
    }
    JoinAndHoles(clauses);
  }

  /** The projection and inner DISTINCT selection of the list query (line 52-63). */
  const ListSelect: string :=
    "SELECT p.product_id, p.product_name, p.type_id, p.color_id, p.size, p.category_id, p.mo_number, "
    + "p.microwave_safe, p.description, p.is_active, p.created_at, p.updated_at, pr.price, ph.photo, "
    + "i.quantity, i.reorder_level, w.warehouse_name FROM ( "
    + "SELECT DISTINCT p.id AS product_id, p.product_name, p.type_id, p.color_id, p.category_id, p.size, "
    + "p.mo_number, p.microwave_safe, p.description, p.is_active, p.created_at, p.updated_at "
    + "FROM product p LEFT JOIN price pr ON p.id = pr.product_id "

  /** The outer joins that attach photos, prices and inventory to the page (lines 67-71). */
  const ListJoins: string :=
    " ) AS p LEFT JOIN photo ph ON p.product_id = ph.product_id "
    + "LEFT JOIN price pr ON p.product_id = pr.product_id "
    + "LEFT JOIN inventory i ON p.product_id = i.product_id "
    + "LEFT JOIN warehouse w ON i.warehouse_id = w.id"

  /** Ordering and pagination of the inner query, then the outer joins. */
  const PageTail: Sql :=
    [Words(" ORDER BY p.created_at DESC LIMIT "), Hole, Words(" OFFSET "), Hole, Words(ListJoins)]

  lemma PageTailHoles()
    ensures Holes(PageTail) == 2
  {
    var t := PageTail;
    assert Holes(t[4..]) == 0 by { assert t[4..][1..] == []; }
    assert Holes(t[3..]) == 1 by { assert t[3..][1..] == t[4..]; }
    assert Holes(t[2..]) == 1 by { assert t[2..][1..] == t[3..]; }
    assert Holes(t[1..]) == 2 by { assert t[1..][1..] == t[2..]; }
  }

  /** Lines 51-74: the page of distinct products, joined; binds the filter
      parameters, then the limit, then the offset. */
  function ListQuery(where: Sql, params: seq<Value>, limit: int, offset: int): Query
  {
    Query(
      [Words(ListSelect)] + where + PageTail,
      params + [Int(limit), Int(offset)])
  }

  /** Lines 76-81: the total, counted over the product table alone. */
  function CountQuery(where: Sql, params: seq<Value>): Query
  {
    Query([Words("SELECT COUNT(DISTINCT p.id) AS count FROM product p ")] + where, params)
  }

  /** What the builder produces, placed in both queries, leaves no placeholder
      unbound and no parameter unplaced: the WHERE text has one placeholder
      per filter parameter, and the list query's last two placeholders take
      the limit and the offset. */
  lemma {:induction false} QueriesWellBound(
      whereClauses: seq<Sql>, params: seq<Value>, f: ListFilters, limit: int, offset: int)
    requires |whereClauses| == |params| == |Active(f)|
    requires forall i :: 0 <= i < |params| ==> whereClauses[i] == ClauseOf(Active(f)[i])
    ensures Holes(WhereClause(whereClauses)) == |params|
    ensures WellBound(ListQuery(WhereClause(whereClauses), params, limit, offset))
    ensures WellBound(CountQuery(WhereClause(whereClauses), params))
  {
    OneHoleEach(whereClauses);
    WhereClauseShape(whereClauses);
    var where := WhereClause(whereClauses);
    HolesAppend([Words(ListSelect)], where);
    HolesAppend([Words(ListSelect)] + where, PageTail);
    PageTailHoles();
    HolesAppend([Words("SELECT COUNT(DISTINCT p.id) AS count FROM product p ")], where);
  }

  lemma {:induction false} OneHoleEach(clauses: seq<Sql>)
    requires forall i :: 0 <= i < |clauses| ==> Holes(clauses[i]) == 1
    ensures SumHoles(clauses) == |clauses|
  {
    if clauses != [] {
      OneHoleEach(clauses[1..]);
    }
  }
}
