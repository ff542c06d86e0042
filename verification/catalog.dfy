/**
  The writes of backup/product.js over an in-memory picture of the product,
  price, photo and inventory tables: photo-set replacement on PUT /:id, the
  cascade of DELETE /:id, and the category guard and inserts of POST /.
 */
module Catalog {
  import opened Sql

  /** A row of `product`; timestamps are not modelled. */
  datatype ProductRow = ProductRow(
    id: nat,
    productName: Value,
    typeId: Value,
    colorId: Value,
    size: Value,
    moNumber: Value,
    categoryId: int,
    microwaveSafe: bool,
    description: Value,
    isActive: bool)

  /** A row of `price`; the effective date is not modelled. */
  datatype PriceRow = PriceRow(productId: nat, price: Value)

  /** A row of `photo`: an uploaded file name and its product. */
  datatype PhotoRow = PhotoRow(photo: string, productId: nat)

  /** A row of `inventory`. */
  datatype InventoryRow = InventoryRow(productId: nat, quantity: Value, reorderLevel: Value)

  /** The form fields of POST / that the inserts read. */
  datatype NewProduct = NewProduct(
    productName: Value,
    typeId: Value,
    colorId: Value,
    size: Value,
    moNumber: Value,
    price: Value,
    categoryId: int,
    microwaveSafe: Value,
    description: Value,
    isActive: Value,
    quantity: Value,
    reorderLevel: Value)

  const InvalidCategory: string := "Invalid category_id"
  const ProductCreated: string := "Product created successfully"

  /** Lines 353-354: `v === "1" || v === 1`. */
  function IsOne(v: Value): bool
  {
    v == Text("1") || v == Int(1)
  }

  /** The flag coercion is stricter than JavaScript truthiness: every value it
      accepts is truthy, but truthy values such as "true" or 2 are stored as false. */
  lemma IsOneStricterThanTruthy(v: Value)
    ensures IsOne(v) ==> Truthy(v)
    ensures !IsOne(Text("true")) && Truthy(Text("true"))
    ensures !IsOne(Int(2)) && Truthy(Int(2))
  {
  }

  /** `DELETE FROM t WHERE <key> = id` on a table whose rows carry that key. */
  function Without<R(!new)>(rows: seq<R>, key: R -> nat, id: nat): (kept: seq<R>)
    ensures forall x :: x in kept <==> x in rows && key(x) != id
    ensures |kept| <= |rows|
  {
    if rows == [] then []
    else (if key(rows[0]) == id then [] else [rows[0]]) + Without(rows[1..], key, id)
  }

  /** A delete keeps every row with another key as many times as it occurred. */
  lemma {:induction false} WithoutCounts<R(!new)>(rows: seq<R>, key: R -> nat, id: nat, x: R)
    ensures multiset(Without(rows, key, id))[x] == if key(x) == id then 0 else multiset(rows)[x]
  {
    if rows != [] {
      assert rows == [rows[0]] + rows[1..];
      WithoutCounts(rows[1..], key, id, x);
    }
  }

  function PhotoKey(r: PhotoRow): nat { r.productId }
  function PriceKey(r: PriceRow): nat { r.productId }
  function ProductKey(r: ProductRow): nat { r.id }

  /** The file names of a product's photo rows, in table order. */
  function Filenames(photos: seq<PhotoRow>, id: nat): seq<string>
  {
    if photos == [] then []
    else (if photos[0].productId == id then [photos[0].photo] else []) + Filenames(photos[1..], id)
  }

  /** One photo row per file name, all for one product. */
  function PhotoRows(urls: seq<string>, id: nat): (rows: seq<PhotoRow>)
    ensures |rows| == |urls|
    ensures forall i :: 0 <= i < |urls| ==> rows[i] == PhotoRow(urls[i], id)
  {
    seq(|urls|, i requires 0 <= i < |urls| => PhotoRow(urls[i], id))
  }

  lemma {:induction false} FilenamesAppend(a: seq<PhotoRow>, b: seq<PhotoRow>, id: nat)
    ensures Filenames(a + b, id) == Filenames(a, id) + Filenames(b, id)
  {
    if a == [] {
      assert a + b == b;
    } else {
      assert (a + b)[1..] == a[1..] + b;
      FilenamesAppend(a[1..], b, id);
    }
  }

  lemma {:induction false} FilenamesOfPhotoRows(urls: seq<string>, id: nat, k: nat)
    ensures Filenames(PhotoRows(urls, id), k) == if k == id then urls else []
  {
    if urls != [] {
      assert PhotoRows(urls, id)[1..] == PhotoRows(urls[1..], id);
      FilenamesOfPhotoRows(urls[1..], id, k);
    }
  }

  lemma {:induction false} FilenamesWithout(photos: seq<PhotoRow>, id: nat, k: nat)
    ensures Filenames(Without(photos, PhotoKey, id), k) == if k == id then [] else Filenames(photos, k)
  {
    if photos != [] {
      var head := if photos[0].productId == id then [] else [photos[0]];
      var rest := Without(photos[1..], PhotoKey, id);
      assert Without(photos, PhotoKey, id) == head + rest;
      FilenamesAppend(head, rest, k);
      assert Filenames(head, k) == if k == id then [] else Filenames([photos[0]], k);
      FilenamesWithout(photos[1..], id, k);
    }
  }

  /** The photo table after a replacement: the product's own rows are exactly
      the uploaded names, and every other product's rows are as they were. */
  lemma ReplacedPhotos(before: seq<PhotoRow>, id: nat, urls: seq<string>, after: seq<PhotoRow>)
    requires after == Without(before, PhotoKey, id) + PhotoRows(urls, id)
    ensures multiset(after) == multiset(Without(before, PhotoKey, id)) + multiset(PhotoRows(urls, id))
    ensures Filenames(after, id) == urls
    ensures forall k :: k != id ==> Filenames(after, k) == Filenames(before, k)
  {
    FilenamesAppend(Without(before, PhotoKey, id), PhotoRows(urls, id), id);
    FilenamesWithout(before, id, id);
    FilenamesOfPhotoRows(urls, id, id);
    forall k | k != id
      ensures Filenames(after, k) == Filenames(before, k)
    {
      FilenamesAppend(Without(before, PhotoKey, id), PhotoRows(urls, id), k);
      FilenamesWithout(before, id, k);
      FilenamesOfPhotoRows(urls, id, k);
    }
  }

  /** `SELECT COUNT(*) FROM category WHERE id = ?` over a table keyed by id. */
  function CategoryCount(categories: set<int>, id: int): (n: nat)
    ensures n == 0 <==> id !in categories
  {
    if id in categories then 1 else 0
  }

  /** The product row that POST / inserts under a new id. */
  function NewRow(id: nat, req: NewProduct): ProductRow
  {
    ProductRow(id, req.productName, req.typeId, req.colorId, req.size, req.moNumber,
               req.categoryId, IsOne(req.microwaveSafe), req.description, IsOne(req.isActive))
  }

  /** The tables the product routes write, and the product AUTO_INCREMENT counter. */
  class Store {
    var products: seq<ProductRow>
    var prices: seq<PriceRow>
    var photos: seq<PhotoRow>
    var inventory: seq<InventoryRow>
    var categories: set<int>
    var nextId: nat

    /** Every product id was handed out by the counter. */
    ghost predicate Valid()
      reads this
    {
      forall p :: p in products ==> p.id < nextId
    }

    constructor (categories: set<int>)
      ensures Valid()
      ensures products == [] && prices == [] && photos == [] && inventory == []
      ensures this.categories == categories && nextId == 1
    {
      products, prices, photos, inventory := [], [], [], [];
      this.categories := categories;
      nextId := 1;
    }

    /** Lines 284-296: only when at least one file was uploaded, delete every
        photo row of the product and insert one row per uploaded name.  The
        inserts run under `Promise.all`, so only the resulting set of rows is
        promised, not their order. */
    method ReplacePhotos(id: nat, photoUrls: seq<string>)
      requires Valid()
      modifies this`photos
      ensures Valid()
      ensures |photoUrls| == 0 ==> photos == old(photos)
      ensures |photoUrls| > 0 ==>
        multiset(photos) == multiset(Without(old(photos), PhotoKey, id)) + multiset(PhotoRows(photoUrls, id))
      ensures |photoUrls| > 0 ==> multiset(Filenames(photos, id)) == multiset(photoUrls)
      ensures forall k :: k != id ==> Filenames(photos, k) == Filenames(old(photos), k)
    {
      if |photoUrls| > 0 {
        photos := Without(photos, PhotoKey, id);
        ghost var kept := photos;
        var i := 0;
        while i < |photoUrls|
          invariant 0 <= i <= |photoUrls|
          invariant photos == kept + PhotoRows(photoUrls[..i], id)
        {
          assert PhotoRows(photoUrls[..i + 1], id) == PhotoRows(photoUrls[..i], id) + [PhotoRow(photoUrls[i], id)];
          photos := photos + [PhotoRow(photoUrls[i], id)];
          i := i + 1;
        }
        assert photoUrls[..i] == photoUrls;
        ReplacedPhotos(old(photos), id, photoUrls, photos);
      }
    }

    /** Lines 309-325: read the product's photo names (the files the handler
        then removes from the upload directory), then delete its photo rows,
        its price rows and its product row, in that order.  Inventory rows are
        left in place. */
    method DeleteProduct(id: nat) returns (unlinked: seq<string>)
      requires Valid()
      modifies this`photos, this`prices, this`products
      ensures Valid()
      ensures unlinked == Filenames(old(photos), id)
      ensures photos == Without(old(photos), PhotoKey, id)
      ensures prices == Without(old(prices), PriceKey, id)
      ensures products == Without(old(products), ProductKey, id)
      ensures forall k :: k != id ==> Filenames(photos, k) == Filenames(old(photos), k)
      ensures Filenames(photos, id) == []
    {
      unlinked := Filenames(photos, id);
      photos := Without(photos, PhotoKey, id);
      prices := Without(prices, PriceKey, id);
      products := Without(products, ProductKey, id);
      forall k
        ensures Filenames(photos, k) == if k == id then [] else Filenames(old(photos), k)
      {
        FilenamesWithout(old(photos), id, k);
      }
    }

    /** Lines 335-411: a category count of 0 answers 400 before any insert;
        otherwise insert the product under a fresh id, then its price, one
        photo row per uploaded name and its inventory row, and answer 201. */
    method CreateProduct(req: NewProduct, photoUrls: seq<string>) returns (status: nat, message: string)
      requires Valid()
      modifies this
      ensures Valid()
      ensures categories == old(categories)
      ensures status == 400 <==> req.categoryId !in old(categories)
      ensures status == 400 ==>
        && message == InvalidCategory
        && products == old(products) && prices == old(prices)
        && photos == old(photos) && inventory == old(inventory) && nextId == old(nextId)
      ensures status != 400 ==>
        var newId := old(nextId);
        && status == 201 && message == ProductCreated
        && (forall p :: p in old(products) ==> p.id != newId)
        && products == old(products) + [NewRow(newId, req)]
        && prices == old(prices) + [PriceRow(newId, req.price)]
        && multiset(photos) == multiset(old(photos)) + multiset(PhotoRows(photoUrls, newId))
        && inventory == old(inventory) + [InventoryRow(newId, req.quantity, req.reorderLevel)]
        && nextId == newId + 1
    {
      var count := CategoryCount(categories, req.categoryId);
      if count == 0 {
        return 400, InvalidCategory;
      }
      var productId := nextId;
      products := products + [NewRow(productId, req)];
      nextId := nextId + 1;
      prices := prices + [PriceRow(productId, req.price)];
      var i := 0;
      while i < |photoUrls|
        invariant 0 <= i <= |photoUrls|
        invariant photos == old(photos) + PhotoRows(photoUrls[..i], productId)
        modifies this`photos
      {
        assert PhotoRows(photoUrls[..i + 1], productId) == PhotoRows(photoUrls[..i], productId) + [PhotoRow(photoUrls[i], productId)];
        photos := photos + [PhotoRow(photoUrls[i], productId)];
        i := i + 1;
      }
      assert photoUrls[..i] == photoUrls;
      inventory := inventory + [InventoryRow(productId, req.quantity, req.reorderLevel)];
      status, message := 201, ProductCreated;
    }
  }
}
