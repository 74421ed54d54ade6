/**
 The catalogue pages: the product list, optionally narrowed to one category,
 and the home page's featured products. Both show only products in stock.
 The product table is read in the order `rows`, the order in which the
 database returns it.
 */
module Catalog {
  import opened Wrappers
  import opened Store

  /** Passes `filter(stock__gt=0)` and, when one is given, `filter(category=...)`. */
  predicate Shown(products: map<ProductId, Product>, category: Option<CategoryId>, p: ProductId) {
    && p in products
    && products[p].stock > 0
    && (category.Some? ==> products[p].category == category.value)
  }

  /** The rows that pass the filter, in table order. */
  function InStock(products: map<ProductId, Product>, rows: seq<ProductId>, category: Option<CategoryId>): (r: seq<ProductId>)
    ensures forall p :: p in r <==> p in rows && Shown(products, category, p)
    ensures forall p :: multiset(r)[p] == if Shown(products, category, p) then multiset(rows)[p] else 0
    ensures |r| <= |rows|
  {
    if rows == [] then []
    else
      var p := rows[|rows| - 1];
      var before := InStock(products, rows[..|rows| - 1], category);
      assert rows == rows[..|rows| - 1] + [p];
      if Shown(products, category, p) then before + [p] else before
  }

  /** A single row passes through exactly when it is shown. */
  lemma InStockOne(products: map<ProductId, Product>, p: ProductId, category: Option<CategoryId>)
    ensures InStock(products, [p], category) == if Shown(products, category, p) then [p] else []
  {
    assert [p][..0] == [];
  }

  /** The filter of a non-empty table is the filter of all but its last row, then that row if it is shown. */
  lemma InStockLast(products: map<ProductId, Product>, rows: seq<ProductId>, category: Option<CategoryId>)
    requires rows != []
    ensures InStock(products, rows, category)
      == InStock(products, rows[..|rows| - 1], category) + (if Shown(products, category, rows[|rows| - 1]) then [rows[|rows| - 1]] else [])
  {
  }

  /**
   Filtering keeps table order: the filter of two consecutive stretches of the
   table is the filter of the first followed by the filter of the second.
   */
  lemma {:induction false} InStockAppend(products: map<ProductId, Product>, a: seq<ProductId>, b: seq<ProductId>, category: Option<CategoryId>)
    ensures InStock(products, a + b, category) == InStock(products, a, category) + InStock(products, b, category)
  {
    if b == [] {
      assert a + b == a;
    } else {
      var init := b[..|b| - 1];
      var p := b[|b| - 1];
      var ab := a + b;
      assert ab[..|ab| - 1] == a + init;
      assert ab[|ab| - 1] == p;
      InStockLast(products, ab, category);
      InStockLast(products, b, category);
      InStockAppend(products, a, init, category);
    }
  }

  /** rows is the product table in the order the database returns it: every product, each once. */
  predicate Tabulates(rows: seq<ProductId>, products: map<ProductId, Product>) {
    && (forall i :: 0 <= i < |rows| ==> rows[i] in products)
    && (forall p :: p in products ==> p in rows)
    && Distinct(rows)
  }

  predicate Distinct(ids: seq<ProductId>) {
    forall i, j :: 0 <= i < j < |ids| ==> ids[i] != ids[j]
  }

  /** Filtering a table that names each product once names each product at most once. */
  lemma {:induction false} InStockDistinct(products: map<ProductId, Product>, rows: seq<ProductId>, category: Option<CategoryId>)
    requires Distinct(rows)
    ensures Distinct(InStock(products, rows, category))
  {
    if rows != [] {
      var init := rows[..|rows| - 1];
      var p := rows[|rows| - 1];
      InStockDistinct(products, init, category);
      InStockLast(products, rows, category);
      assert p !in init;
    }
  }

  /**
   product_list: every product in stock; a non-zero category id must name an
   existing category and narrows the list to it. A category id of 0 is falsy
   and lists every category, like no id at all.
   */
  function ProductList(s: Shop, rows: seq<ProductId>, categoryId: Option<CategoryId>): (r: Result<seq<ProductId>, Error>)
    requires Tabulates(rows, s.products)
    ensures r.Failure? <==> categoryId.Some? && categoryId.value != 0 && categoryId.value !in s.categories
    ensures r.Failure? ==> r.error == NotFound
    ensures r.Success? ==> forall p :: p in r.value <==>
      && p in s.products && s.products[p].stock > 0
      && (categoryId.Some? && categoryId.value != 0 ==> s.products[p].category == categoryId.value)
    ensures r.Success? ==> Distinct(r.value)
  {
    var category := if categoryId.None? || categoryId.value == 0 then None else categoryId;
    InStockDistinct(s.products, rows, category);
    if category.Some? && category.value !in s.categories then Failure(NotFound)
    else Success(InStock(s.products, rows, category))
  }

  /** home: the first eight products in stock, or all of them when there are fewer. */
  function Home(s: Shop, rows: seq<ProductId>): (r: seq<ProductId>)
    requires Tabulates(rows, s.products)
    ensures |r| <= 8 && |r| <= |InStock(s.products, rows, None)|
    ensures r == InStock(s.products, rows, None)[..|r|]
    ensures |r| < 8 ==> r == InStock(s.products, rows, None)
    ensures forall p :: p in r ==> p in s.products && s.products[p].stock > 0
    ensures |r| < 8 ==> forall p :: p in s.products && s.products[p].stock > 0 ==> p in r
    ensures Distinct(r)
  {
    var shown := InStock(s.products, rows, None);
    InStockDistinct(s.products, rows, None);
    if |shown| <= 8 then shown
    else
      assert forall p :: p in shown[..8] ==> p in shown;
      shown[..8]
  }
}
