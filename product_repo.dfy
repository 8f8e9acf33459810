/** Queries and writes on the products table (the catalog and stock ledger). */
module ProductRepo {
  import opened Wrappers
  import opened Models
  import opened Seqs
  import opened Db

  /** The rows under `keys`, in some order. */
  ghost function RowsOf(products: map<ProductId, Product>, keys: set<ProductId>): (r: seq<Product>)
    requires keys <= products.Keys
    requires ProductsWellFormed(products)
    ensures |r| == |keys|
    ensures forall p :: p in r <==> p.id in keys && products[p.id] == p
    ensures Distinct(r)
    decreases keys
  {
    if keys == {} then []
    else
      var k :| k in keys;
      var rest := RowsOf(products, keys - {k});
      var r := [products[k]] + rest;
      assert r[0] !in r[1..] by {
        assert r[1..] == rest;
      }
      DistinctCons(r);
      r
  }

  /** ORDER BY name, comparing names by code point. */
  predicate NameLeq(a: Product, b: Product) {
    LexLeq(a.name, b.name)
  }

  lemma NameOrderIsTotalPreorder()
    ensures TotalPreorder(NameLeq)
  {
    forall a: Product, b: Product ensures NameLeq(a, b) || NameLeq(b, a) {
      LexLeqTotal(a.name, b.name);
    }
    forall a: Product, b: Product, c: Product | NameLeq(a, b) && NameLeq(b, c) ensures NameLeq(a, c) {
      LexLeqTransitive(a.name, b.name, c.name);
    }
  }

  /** `select(Product).order_by(Product.name)`: every stored product exactly
      once, sorted by name. */
  ghost function ListProducts(products: map<ProductId, Product>): (r: seq<Product>)
    requires ProductsWellFormed(products)
    ensures |r| == |products|
    ensures forall p :: p in r <==> p in products.Values
    ensures Distinct(r)
    ensures SortedBy(r, NameLeq)
  {
    var rows := RowsOf(products, products.Keys);
    NameOrderIsTotalPreorder();
    InsertionSortSorted(rows, NameLeq);
    InsertionSortDistinct(rows, NameLeq);
    InsertionSortMembers(rows, NameLeq);
    assert |products.Keys| == |products|;
    InsertionSort(rows, NameLeq)
  }

  /** `select(Product).where(Product.id.in_(product_ids))`: the stored rows
      whose id is listed, as a set of rows keyed by id. */
  function GetProductsByIds(products: map<ProductId, Product>, ids: seq<ProductId>): (r: map<ProductId, Product>)
    ensures r.Keys == Elements(ids) * products.Keys
    ensures forall id :: id in r ==> r[id] == products[id]
  {
    map id | id in ids && id in products :: products[id]
  }

  /** With distinct ids, as many rows come back as ids were asked for exactly
      when every id is a stored product: the source's count test at
      `len(products) != len(product_ids)` detects an unknown product. */
  lemma AllFoundIffCountMatches(products: map<ProductId, Product>, ids: seq<ProductId>)
    requires Distinct(ids)
    ensures |GetProductsByIds(products, ids)| == |ids| <==> forall i :: 0 <= i < |ids| ==> ids[i] in products
  {
    var found := GetProductsByIds(products, ids);
    var asked := Elements(ids);
    DistinctIffSetSize(ids);
    assert |asked| == |ids|;
    assert found.Keys <= asked;
    assert |found.Keys| == |found|;
    if forall i :: 0 <= i < |ids| ==> ids[i] in products {
      assert found.Keys == asked;
    } else {
      var i :| 0 <= i < |ids| && ids[i] !in products;
      assert ids[i] in asked - found.Keys;
      assert |asked - found.Keys| == |asked| - |found.Keys|;
    }
  }

  /** Sets one loaded product's stock to `newQty`. */
  method UpdateStock(db: Store, productId: ProductId, newQty: int)
    requires db.Valid() && productId in db.products
    modifies db`products
    ensures db.Valid()
    ensures db.products == old(db.products)[productId := old(db.products)[productId].(stockQty := newQty)]
  {
    db.products := db.products[productId := db.products[productId].(stockQty := newQty)];
  }
}
