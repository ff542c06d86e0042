/**
  Values as they cross the MySQL driver, their JavaScript truthiness, and
  parameterised SQL text with positional `?` placeholders.
 */
module Sql {

  datatype Option<T> = None | Some(value: T)

  /** A column value or a bound parameter as JavaScript sees it: SQL NULL,
      a number (integer columns, numeric parameters), or a string (VARCHAR,
      TEXT and DECIMAL columns, query-string and form values).  DATETIME
      columns, which the driver returns as `Date` objects, are carried
      opaquely in a `Text`: the routes only copy them and never test their
      truthiness. */
  datatype Value = Null | Int(i: int) | Text(s: string)

  /** JavaScript truthiness: `null`, `0` and `""` are falsy, everything else truthy. */
  predicate Truthy(v: Value)
  {
    match v
    case Null => false
    case Int(i) => i != 0
    case Text(s) => s != ""
  }

  /** A piece of SQL text: literal words, which never contain a placeholder,
      or one `?` placeholder that the driver binds positionally. */
  datatype Piece = Words(text: string) | Hole

  type Sql = seq<Piece>

  /** The SQL text handed to the driver. */
  function Render(q: Sql): string
  {
    if q == [] then ""
    else (match q[0] case Words(t) => t case Hole => "?") + Render(q[1..])
  }

  /** The number of `?` placeholders in a SQL text. */
  function Holes(q: Sql): nat
  {
    if q == [] then 0 else (if q[0] == Hole then 1 else 0) + Holes(q[1..])
  }

  lemma {:induction false} HolesAppend(a: Sql, b: Sql)
    ensures Holes(a + b) == Holes(a) + Holes(b)
  {
    if a == [] {
      assert a + b == b;
    } else {
      assert (a + b)[1..] == a[1..] + b;
      HolesAppend(a[1..], b);
    }
  }

  lemma {:induction false} RenderAppend(a: Sql, b: Sql)
    ensures Render(a + b) == Render(a) + Render(b)
  {
    if a == [] {
      assert a + b == b;
    } else {
      assert (a + b)[1..] == a[1..] + b;
      RenderAppend(a[1..], b);
    }
  }

  /** A statement together with the positional parameters bound to it. */
  datatype Query = Query(sql: Sql, args: seq<Value>)

  /** Every placeholder has exactly one parameter and every parameter a placeholder. */
  predicate WellBound(q: Query)
  {
    Holes(q.sql) == |q.args|
  }
}
