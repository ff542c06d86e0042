/**
  The two `reduce` folds of backup/product.js that turn the flat rows of a
  product/photo/price/inventory join into one JSON object per product, and
  `Object.values` over the list fold's accumulator.
 */
module RowFold {
  import opened Sql

  /** One row of the list or the detail join: the product's columns combined
      with one photo, one price and one inventory row (each possibly NULL). */
  datatype JoinRow = JoinRow(
    productId: nat,
    productName: Value,
    typeId: Value,
    colorId: Value,
    categoryId: Value,
    size: Value,
    moNumber: Value,
    microwaveSafe: Value,
    description: Value,
    isActive: Value,
    createdAt: Value,
    updatedAt: Value,
    price: Value,
    photo: Value,
    quantity: Value,
    reorderLevel: Value,
    warehouseName: Value)

  /** The JSON object the handlers send for one product. */
  datatype Product = Product(
    id: nat,
    productName: Value,
    typeId: Value,
    colorId: Value,
    categoryId: Value,
    size: Value,
    moNumber: Value,
    microwaveSafe: Value,
    description: Value,
    isActive: Value,
    createdAt: Value,
    updatedAt: Value,
    price: Value,
    photos: seq<Value>,
    quantity: Value,
    reorderLevel: Value,
    warehouseName: Value)

  /** The object a row creates when its product is first seen: every scalar
      column of that row and an empty photo list. */
  function Initial(r: JoinRow): Product
  {
    Product(r.productId, r.productName, r.typeId, r.colorId, r.categoryId, r.size, r.moNumber,
            r.microwaveSafe, r.description, r.isActive, r.createdAt, r.updatedAt, r.price, [],
            r.quantity, r.reorderLevel, r.warehouseName)
  }

  /** The distinct product ids of a result set. */
  function Ids(rows: seq<JoinRow>): set<nat>
  {
    set r | r in rows :: r.productId
  }

  /** The first row that carries a product id. */
  function FirstIndex(rows: seq<JoinRow>, id: nat): (k: nat)
    requires id in Ids(rows)
    ensures k < |rows| && rows[k].productId == id
    ensures forall j :: 0 <= j < k ==> rows[j].productId != id
  {
    if rows[0].productId == id then 0
    else
      assert id in Ids(rows[1..]) by {
        var r :| r in rows && r.productId == id;
        assert r in rows[1..];
      }
      1 + FirstIndex(rows[1..], id)
  }

  /** The photo a row contributes to a product: its photo when it belongs to
      that product and the photo is truthy. */
  function PhotoFor(r: JoinRow, id: nat): seq<Value>
  {
    if r.productId == id && Truthy(r.photo) then [r.photo] else []
  }

  /** The truthy photos of a product's rows, in row order. */
  function PhotosOf(rows: seq<JoinRow>, id: nat): seq<Value>
  {
    if rows == [] then [] else PhotoFor(rows[0], id) + PhotosOf(rows[1..], id)
  }

  /** The photo a row contributes to the detail object: its photo when truthy. */
  function PhotoOf(r: JoinRow): seq<Value>
  {
    if Truthy(r.photo) then [r.photo] else []
  }

  /** The truthy photos of all rows, in row order. */
  function AllPhotos(rows: seq<JoinRow>): seq<Value>
  {
    if rows == [] then [] else PhotoOf(rows[0]) + AllPhotos(rows[1..])
  }

  /** Reference for the list fold: the product with this id takes its scalars
      from its first row and its photos from all its rows. */
  function Expected(rows: seq<JoinRow>, id: nat): (p: Product)
    requires id in Ids(rows)
    ensures p.id == id
  {
    Initial(rows[FirstIndex(rows, id)]).(photos := PhotosOf(rows, id))
  }

  /** The reference accumulator: `Expected` for every id of the rows. */
  function Grouped(rows: seq<JoinRow>): map<nat, Product>
  {
    map id | id in Ids(rows) :: Expected(rows, id)
  }

  lemma {:induction false} PhotosOfSnoc(rows: seq<JoinRow>, r: JoinRow, id: nat)
    ensures PhotosOf(rows + [r], id) == PhotosOf(rows, id) + PhotoFor(r, id)
  {
    if rows == [] {
      assert PhotosOf([r], id) == PhotoFor(r, id) + PhotosOf([], id);
    } else {
      assert (rows + [r])[1..] == rows[1..] + [r];
      PhotosOfSnoc(rows[1..], r, id);
    }
  }

  lemma {:induction false} AllPhotosSnoc(rows: seq<JoinRow>, r: JoinRow)
    ensures AllPhotos(rows + [r]) == AllPhotos(rows) + PhotoOf(r)
  {
    if rows == [] {
      assert AllPhotos([r]) == PhotoOf(r) + AllPhotos([]);
    } else {
      assert (rows + [r])[1..] == rows[1..] + [r];
      AllPhotosSnoc(rows[1..], r);
    }
  }

  /** Appending a row never changes which row is first for an id already
      seen, and makes the new row first for a new id. */
  lemma ExpectedSnoc(rows: seq<JoinRow>, r: JoinRow, id: nat)
    requires id in Ids(rows + [r])
    ensures id in Ids(rows) ==>
      Expected(rows + [r], id) == Expected(rows, id).(photos := Expected(rows, id).photos + PhotoFor(r, id))
    ensures id !in Ids(rows) ==>
      r.productId == id && Expected(rows + [r], id) == Initial(r).(photos := PhotoFor(r, id))
  {
    var all := rows + [r];
    PhotosOfSnoc(rows, r, id);
    var k := FirstIndex(all, id);
    if id in Ids(rows) {
      var k0 := FirstIndex(rows, id);
      assert all[k0] == rows[k0];
      assert k == k0;
    } else {
      assert forall j :: 0 <= j < |rows| ==> rows[j] in rows;
      assert k == |rows|;
      assert PhotosOf(rows, id) == [] by { NoPhotosWithoutRows(rows, id); }
    }
  }

  lemma {:induction false} NoPhotosWithoutRows(rows: seq<JoinRow>, id: nat)
    requires id !in Ids(rows)
    ensures PhotosOf(rows, id) == []
  {
    if rows != [] {
      assert rows[0] in rows;
      assert Ids(rows[1..]) <= Ids(rows) by {
        forall x | x in Ids(rows[1..]) ensures x in Ids(rows) {
          var r :| r in rows[1..] && r.productId == x;
          assert r in rows;
        }
      }
      NoPhotosWithoutRows(rows[1..], id);
    }
  }

  /** The first half of the `reduce` callback: create the product on its first row. */
  function Created(acc: map<nat, Product>, r: JoinRow): (next: map<nat, Product>)
    ensures r.productId in next
  {
    if r.productId in acc then acc else acc[r.productId := Initial(r)]
  }

  /** The second half: append the row's photo to its product when it is truthy. */
  function Appended(acc: map<nat, Product>, r: JoinRow): map<nat, Product>
    requires r.productId in acc
  {
    if Truthy(r.photo) then
      acc[r.productId := acc[r.productId].(photos := acc[r.productId].photos + [r.photo])]
    else acc
  }

  /** One step of the `reduce` callback, as a value. */
  function Absorb(acc: map<nat, Product>, r: JoinRow): map<nat, Product>
  {
    Appended(Created(acc, r), r)
  }

  lemma IdsSnoc(rows: seq<JoinRow>, r: JoinRow)
    ensures Ids(rows + [r]) == Ids(rows) + {r.productId}
  {
    forall x | x in Ids(rows + [r]) ensures x in Ids(rows) + {r.productId} {
      var q :| q in rows + [r] && q.productId == x;
      if q != r { assert q in rows; }
    }
    forall x | x in Ids(rows) ensures x in Ids(rows + [r]) {
      var q :| q in rows && q.productId == x;
      assert q in rows + [r];
    }
    assert r in rows + [r];
  }

  /** The accumulator agrees with the reference definition over some rows. */
  predicate Folds(acc: map<nat, Product>, rows: seq<JoinRow>)
  {
    && acc.Keys == Ids(rows)
    && forall id :: id in acc ==> acc[id] == Expected(rows, id)
  }

  /** Absorbing one more row keeps the accumulator equal to the reference
      definition over the longer prefix. */
  lemma AbsorbKeepsExpected(prefix: seq<JoinRow>, r: JoinRow, acc: map<nat, Product>)
    requires Folds(acc, prefix)
    ensures Folds(Absorb(acc, r), prefix + [r])
  {
    var next := Absorb(acc, r);
    IdsSnoc(prefix, r);
    forall id | id in next
      ensures next[id] == Expected(prefix + [r], id)
    {
      ExpectedSnoc(prefix, r, id);
      if id != r.productId {
        assert next[id] == acc[id];
        assert PhotoFor(r, id) == [];
      } else {
        var entry := if id in acc then acc[id] else Initial(r);
        assert Created(acc, r)[id] == entry;
        assert PhotoFor(r, id) == if Truthy(r.photo) then [r.photo] else [];
      }
    }
  }

  /** An accumulator that agrees with the reference on every id of the rows,
      and has no other key, is the reference accumulator itself. */
  lemma FoldsIsGrouped(acc: map<nat, Product>, rows: seq<JoinRow>)
    requires acc.Keys == Ids(rows)
    requires forall id :: id in acc ==> acc[id] == Expected(rows, id)
    ensures acc == Grouped(rows)
  {
    var g := Grouped(rows);
    assert acc.Keys == g.Keys;
    assert forall id :: id in acc ==> acc[id] == g[id];
  }

  /** Lines 83-133: the list fold.  The first row of an id creates its object
      (`!acc[product_id]`), and every row with a truthy photo appends it. */
  method FoldList(rows: seq<JoinRow>) returns (acc: map<nat, Product>)
    ensures acc.Keys == Ids(rows)
    ensures forall id :: id in acc ==> acc[id] == Expected(rows, id)
  {
    acc := map[];
    var i := 0;
    ghost var done: seq<JoinRow> := [];
    while i < |rows|
      invariant 0 <= i <= |rows|
      invariant done == rows[..i]
      invariant Folds(acc, done)
    {
      var row := rows[i];
      ghost var before := acc;
      if row.productId !in acc {
        acc := acc[row.productId := Initial(row)];
      }
      assert acc == Created(before, row);
      ghost var created := acc;
      if Truthy(row.photo) {
        var entry := acc[row.productId];
        acc := acc[row.productId := entry.(photos := entry.photos + [row.photo])];
      }
      assert acc == Appended(created, row);
      AbsorbKeepsExpected(done, row, before);
      assert rows[..i + 1] == rows[..i] + [row];
      done := done + [row];
      i := i + 1;
    }
    assert done == rows;
  }

  lemma {:induction false} LeastOf(ids: set<nat>) returns (m: nat)
    requires ids != {}
    ensures m in ids && forall x :: x in ids ==> m <= x
  {
    var y :| y in ids;
    if ids == {y} {
      m := y;
    } else {
      var r := LeastOf(ids - {y});
      m := if y < r then y else r;
      forall x | x in ids
        ensures m <= x
      {
        if x != y {
          assert x in ids - {y};
        }
      }
    }
  }

  /** The least element of a non-empty set of ids. */
  function Least(ids: set<nat>): (m: nat)
    requires ids != {}
    ensures m in ids && forall x :: x in ids ==> m <= x
  {
    assert exists m :: m in ids && forall x :: x in ids ==> m <= x by {
      var w := LeastOf(ids);
    }
    var m :| m in ids && forall x :: x in ids ==> m <= x;
    m
  }

  /** The ids in ascending numeric order: how `Object.values` enumerates the
      integer-like keys of an object. */
  function AscendingKeys(ids: set<nat>): (ks: seq<nat>)
    ensures forall i, j :: 0 <= i < j < |ks| ==> ks[i] < ks[j]
    ensures forall x :: x in ks <==> x in ids
    ensures |ks| == |ids|
    decreases ids
  {
    if ids == {} then []
    else
      var m := Least(ids);
      [m] + AscendingKeys(ids - {m})
  }

  function ValuesAt(acc: map<nat, Product>, ks: seq<nat>): seq<Product>
    requires forall k :: k in ks ==> k in acc
  {
    if ks == [] then [] else [acc[ks[0]]] + ValuesAt(acc, ks[1..])
  }

  /** Line 137: `Object.values(products)`. */
  function ObjectValues(acc: map<nat, Product>): seq<Product>
  {
    ValuesAt(acc, AscendingKeys(acc.Keys))
  }

  function TotalPhotos(ps: seq<Product>): nat
  {
    if ps == [] then 0 else |ps[0].photos| + TotalPhotos(ps[1..])
  }

  /** The truthy photos of the rows whose id is in a set. */
  function PhotosIn(rows: seq<JoinRow>, ids: set<nat>): seq<Value>
  {
    if rows == [] then []
    else (if rows[0].productId in ids then PhotoOf(rows[0]) else []) + PhotosIn(rows[1..], ids)
  }

  lemma {:induction false} PhotosInSplit(rows: seq<JoinRow>, id: nat, ids: set<nat>)
    requires id in ids
    ensures |PhotosIn(rows, ids)| == |PhotosOf(rows, id)| + |PhotosIn(rows, ids - {id})|
  {
    if rows != [] {
      PhotosInSplit(rows[1..], id, ids);
    }
  }

  lemma {:induction false} PhotosInCovering(rows: seq<JoinRow>, ids: set<nat>)
    requires Ids(rows) <= ids
    ensures PhotosIn(rows, ids) == AllPhotos(rows)
  {
    if rows != [] {
      assert rows[0] in rows;
      assert Ids(rows[1..]) <= Ids(rows) by {
        forall x | x in Ids(rows[1..]) ensures x in Ids(rows) {
          var r :| r in rows[1..] && r.productId == x;
          assert r in rows;
        }
      }
      PhotosInCovering(rows[1..], ids);
    }
  }

  /** Summing the photo lists of the folded products over distinct ids counts
      every truthy photo of those ids' rows exactly once. */
  function KeySet(ks: seq<nat>): set<nat>
  {
    set k | k in ks
  }

  lemma KeySetOfAscending(ids: set<nat>)
    ensures KeySet(AscendingKeys(ids)) == ids
  {
    var ks := AscendingKeys(ids);
    assert forall x :: x in ks <==> x in ids;
  }

  lemma {:induction false} SumOverKeys(rows: seq<JoinRow>, acc: map<nat, Product>, ks: seq<nat>)
    requires forall i, j :: 0 <= i < j < |ks| ==> ks[i] < ks[j]
    requires forall k :: k in ks ==> k in acc && k in Ids(rows) && acc[k] == Expected(rows, k)
    ensures TotalPhotos(ValuesAt(acc, ks)) == |PhotosIn(rows, KeySet(ks))|
  {
    var ids := KeySet(ks);
    if ks == [] {
      assert ids == {};
      EmptyIdsNoPhotos(rows);
    } else {
      var rest := KeySet(ks[1..]);
      assert ids - {ks[0]} == rest by {
        forall k | k in ids - {ks[0]} ensures k in rest {
          var i :| 0 <= i < |ks| && ks[i] == k;
          assert i != 0;
          assert ks[1..][i - 1] == k;
        }
        forall k | k in rest ensures k in ids - {ks[0]} {
          var i :| 0 <= i < |ks[1..]| && ks[1..][i] == k;
          assert ks[i + 1] == k;
        }
      }
      assert ValuesAt(acc, ks) == [acc[ks[0]]] + ValuesAt(acc, ks[1..]);
      assert TotalPhotos(ValuesAt(acc, ks)) == |acc[ks[0]].photos| + TotalPhotos(ValuesAt(acc, ks[1..]));
      assert |acc[ks[0]].photos| == |PhotosOf(rows, ks[0])|;
      PhotosInSplit(rows, ks[0], ids);
      SumOverKeys(rows, acc, ks[1..]);
    }
  }

  lemma {:induction false} EmptyIdsNoPhotos(rows: seq<JoinRow>)
    ensures PhotosIn(rows, {}) == []
  {
    if rows != [] {
      EmptyIdsNoPhotos(rows[1..]);
    }
  }

  lemma {:induction false} ValuesAtShape(acc: map<nat, Product>, ks: seq<nat>)
    requires forall k :: k in ks ==> k in acc
    ensures |ValuesAt(acc, ks)| == |ks|
    ensures forall i :: 0 <= i < |ks| ==> ValuesAt(acc, ks)[i] == acc[ks[i]]
  {
    if ks != [] {
      ValuesAtShape(acc, ks[1..]);
    }
  }

  /** `Object.values` lists the value under each key, in ascending key order. */
  lemma ObjectValuesAt(acc: map<nat, Product>)
    ensures |ObjectValues(acc)| == |acc.Keys|
    ensures forall i :: 0 <= i < |ObjectValues(acc)| ==> ObjectValues(acc)[i] == acc[AscendingKeys(acc.Keys)[i]]
  {
    ValuesAtShape(acc, AscendingKeys(acc.Keys));
  }

  /** The i-th listed product is the reference product of the i-th smallest id. */
  lemma ListedAt(rows: seq<JoinRow>, acc: map<nat, Product>)
    requires acc.Keys == Ids(rows)
    requires forall id :: id in acc ==> acc[id] == Expected(rows, id)
    ensures |ObjectValues(acc)| == |AscendingKeys(acc.Keys)|
    ensures forall i :: 0 <= i < |ObjectValues(acc)| ==>
      var k := AscendingKeys(acc.Keys)[i];
      k in Ids(rows) && ObjectValues(acc)[i] == Expected(rows, k) && ObjectValues(acc)[i].id == k
  {
    var ks := AscendingKeys(acc.Keys);
    ObjectValuesAt(acc);
    forall i | 0 <= i < |ks| ensures ks[i] in acc {
      assert ks[i] in ks;
    }
  }

  /** What GET / sends as `products`: one object per distinct product id of
      the rows, in ascending id order (not first-seen order), each built as
      `Expected` says. */
  lemma ListedProducts(rows: seq<JoinRow>, acc: map<nat, Product>)
    requires acc.Keys == Ids(rows)
    requires forall id :: id in acc ==> acc[id] == Expected(rows, id)
    ensures |ObjectValues(acc)| == |Ids(rows)|
    ensures forall i :: 0 <= i < |ObjectValues(acc)| ==>
      ObjectValues(acc)[i].id in Ids(rows) && ObjectValues(acc)[i] == Expected(rows, ObjectValues(acc)[i].id)
    ensures forall i, j :: 0 <= i < j < |ObjectValues(acc)| ==> ObjectValues(acc)[i].id < ObjectValues(acc)[j].id
    ensures forall id :: id in Ids(rows) ==> exists i :: 0 <= i < |ObjectValues(acc)| && ObjectValues(acc)[i].id == id
  {
    var ks := AscendingKeys(acc.Keys);
    var ps := ObjectValues(acc);
    ListedAt(rows, acc);
    assert forall i :: 0 <= i < |ps| ==> ps[i].id == ks[i];
    forall id | id in Ids(rows) ensures exists i :: 0 <= i < |ps| && ps[i].id == id {
      var i :| 0 <= i < |ks| && ks[i] == id;
      assert ps[i].id == id;
    }
  }

  /** Together the listed products carry every truthy photo of the rows
      exactly once: the fold neither drops nor duplicates a photo. */
  lemma ListedPhotoTotal(rows: seq<JoinRow>, acc: map<nat, Product>)
    requires acc.Keys == Ids(rows)
    requires forall id :: id in acc ==> acc[id] == Expected(rows, id)
    ensures TotalPhotos(ObjectValues(acc)) == |AllPhotos(rows)|
  {
    var ks := AscendingKeys(acc.Keys);
    assert forall k :: k in ks ==> k in acc && k in Ids(rows) && acc[k] == Expected(rows, k);
    SumOverKeys(rows, acc, ks);
    KeySetOfAscending(acc.Keys);
    PhotosInCovering(rows, Ids(rows));
  }

  /** Lines 172-218: the detail fold, starting from `null`.  The first row
      creates the object; every row with a truthy photo appends it, whatever
      its product id. */
  method FoldDetail(rows: seq<JoinRow>) returns (acc: Option<Product>)
    ensures acc.None? <==> rows == []
    ensures rows != [] ==> acc.value == Initial(rows[0]).(photos := AllPhotos(rows))
  {
    acc := None;
    var i := 0;
    while i < |rows|
      invariant 0 <= i <= |rows|
      invariant acc.None? <==> i == 0
      invariant i > 0 ==> acc.value == Initial(rows[0]).(photos := AllPhotos(rows[..i]))
    {
      var row := rows[i];
      assert rows[..i + 1] == rows[..i] + [row];
      AllPhotosSnoc(rows[..i], row);
      if acc.None? {
        acc := Some(Initial(row));
      }
      if Truthy(row.photo) {
        acc := Some(acc.value.(photos := acc.value.photos + [row.photo]));
      }
      i := i + 1;
    }
    assert rows[..i] == rows;
  }

  /** When every row carries the requested id, as the detail query's
      `WHERE p.id = ?` ensures, the detail object is exactly the object the
      list fold builds for that id. */
  lemma DetailAgreesWithList(rows: seq<JoinRow>, id: nat)
    requires rows != []
    requires forall r :: r in rows ==> r.productId == id
    ensures Ids(rows) == {id}
    ensures Expected(rows, id) == Initial(rows[0]).(photos := AllPhotos(rows))
  {
    assert rows[0] in rows;
    SingleIdPhotos(rows, id);
  }

  lemma {:induction false} SingleIdPhotos(rows: seq<JoinRow>, id: nat)
    requires forall r :: r in rows ==> r.productId == id
    ensures PhotosOf(rows, id) == AllPhotos(rows)
  {
    if rows != [] {
      assert rows[0] in rows;
      assert forall r :: r in rows[1..] ==> r in rows;
      SingleIdPhotos(rows[1..], id);
    }
  }
}
