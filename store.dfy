/**
 The shop's persistent state and what each cart and checkout view does to it.

 The database is one value of type Shop: the categories, the product table,
 the carts (a Cart row is created lazily, at most one per user) with their
 CartItem rows filed under the product they hold, and the placed orders. Each
 view is a function from the state before the request to either the state
 after it or the error the view reports; an error leaves the state as it was.
 Prices are integer cents. Stock is a plain integer: nothing in the views keeps
 it non-negative.
 */
module Store {
  import opened Wrappers
  import Forms

  type UserId = nat
  type ProductId = nat
  type CategoryId = nat
  type ItemId = nat

  datatype Product = Product(price: nat, stock: int, category: CategoryId)

  /** A CartItem row, filed under its cart and its product: the row's id and its quantity. */
  datatype Line = Line(id: ItemId, quantity: int)

  /** The CartItem rows of one cart; a product has at most one row per cart. */
  type Cart = map<ProductId, Line>

  /** An OrderItem row: the price is copied from the product when the order is placed. */
  datatype OrderItem = OrderItem(product: ProductId, quantity: int, price: nat)

  datatype Order = Order(
    user: UserId,
    total: int,
    shippingAddress: string,
    paymentMethod: Forms.PaymentMethod,
    items: seq<OrderItem>)

  datatype Shop = Shop(
    categories: set<CategoryId>,
    products: map<ProductId, Product>,
    carts: map<UserId, Cart>,
    nextItem: ItemId,      // the id the next CartItem row receives
    orders: seq<Order>)    // in the order they were placed

  datatype Error =
    | NotFound             // get_object_or_404 found no matching row
    | EmptyCart            // checkout with a cart that has no items
    | FormDisplayed        // the checkout page, shown for a request that is not a POST
    | InvalidForm(reason: Forms.FormError)
    | ServerError          // an exception escaped the view; the atomic block rolled back

  /** The state after a request: the new state, or the old one when the view reported an error. */
  function After(r: Result<Shop, Error>, s: Shop): Shop {
    if r.Success? then r.value else s
  }

  function ErrorOf(r: Result<Shop, Error>): Option<Error> {
    if r.Failure? then Some(r.error) else None
  }

  /** A cart's rows refer to existing products, hold a positive quantity and an id already handed out, and their ids differ. */
  predicate ValidCart(cart: Cart, products: map<ProductId, Product>, nextItem: ItemId) {
    && (forall p :: p in cart ==> p in products && cart[p].quantity >= 1 && cart[p].id < nextItem)
    && DistinctIds(cart)
  }

  predicate DistinctIds(cart: Cart) {
    forall p, q :: p in cart && q in cart && p != q ==> cart[p].id != cart[q].id
  }

  ghost predicate Valid(s: Shop) {
    forall u :: ValidCart(RowsOf(s, u), s.products, s.nextItem)
  }

  /** The rows of user u's cart; a user without a cart has none. */
  function RowsOf(s: Shop, u: UserId): Cart {
    if u in s.carts then s.carts[u] else map[]
  }

  /** The cart of user u as the abstract map product -> quantity. */
  function CartOf(s: Shop, u: UserId): map<ProductId, int> {
    map p | p in RowsOf(s, u) :: RowsOf(s, u)[p].quantity
  }

  function QuantityIn(cart: map<ProductId, int>, p: ProductId): int {
    if p in cart then cart[p] else 0
  }

  /** get_object_or_404(CartItem, id=id, cart__user=u): row id is in u's cart. */
  predicate Owned(s: Shop, u: UserId, id: ItemId) {
    u in s.carts && exists p :: p in s.carts[u] && s.carts[u][p].id == id
  }

  /** Every cart of a valid state, including the empty one of a user without a cart, is valid. */
  lemma ValidCartOf(s: Shop, u: UserId)
    requires Valid(s)
    ensures ValidCart(RowsOf(s, u), s.products, s.nextItem)
  {
  }

  /** Replacing one user's cart by a valid one, with at least as many ids handed out, keeps the integrity. */
  lemma ValidReplace(s: Shop, u: UserId, cart: Cart, nextItem: ItemId)
    requires Valid(s) && nextItem >= s.nextItem && ValidCart(cart, s.products, nextItem)
    ensures Valid(s.(carts := s.carts[u := cart], nextItem := nextItem))
  {
    var s' := s.(carts := s.carts[u := cart], nextItem := nextItem);
    forall v
      ensures ValidCart(RowsOf(s', v), s'.products, s'.nextItem)
    {
      if v != u {
        assert RowsOf(s', v) == RowsOf(s, v);
        ValidCartOf(s, v);
      }
    }
  }

  /** The same, for a replacement that hands out no new id. */
  lemma ValidSet(s: Shop, u: UserId, cart: Cart)
    requires Valid(s) && ValidCart(cart, s.products, s.nextItem)
    ensures Valid(s.(carts := s.carts[u := cart]))
  {
    ValidReplace(s, u, cart, s.nextItem);
    assert s.(carts := s.carts[u := cart]) == s.(carts := s.carts[u := cart], nextItem := s.nextItem);
  }

  /** The rows listed for a cart of a valid state name products of the table. */
  lemma ListedRows(s: Shop, u: UserId, rows: seq<ProductId>)
    requires Valid(s) && u in s.carts && Enumerates(rows, s.carts[u])
    ensures Listed(s.products, s.carts[u], rows)
  {
    ValidCartOf(s, u);
  }

  // ---------------------------------------------------------------- add_to_cart

  /** add_to_cart: get the product or fail, get-or-create the cart, get-or-create the row with quantity 1, else increment it. */
  function AddToCart(s: Shop, u: UserId, p: ProductId): (r: Result<Shop, Error>)
    ensures r.Failure? <==> p !in s.products
    ensures r.Failure? ==> r.error == NotFound
    // the user has a cart holding the product; only a new row takes an id; no other table changes
    ensures r.Success? ==> u in r.value.carts && p in r.value.carts[u]
    ensures r.Success? ==> r.value.nextItem == if p in RowsOf(s, u) then s.nextItem else s.nextItem + 1
    ensures r.Success? ==> r.value.categories == s.categories && r.value.products == s.products && r.value.orders == s.orders
  {
    if p !in s.products then Failure(NotFound)
    else
      var cart := RowsOf(s, u);
      if p in cart then
        Success(s.(carts := s.carts[u := cart[p := cart[p].(quantity := cart[p].quantity + 1)]]))
      else
        Success(s.(carts := s.carts[u := cart[p := Line(s.nextItem, 1)]], nextItem := s.nextItem + 1))
  }

  /** Incrementing the quantity of a row keeps its cart valid. */
  lemma ValidCartBump(cart: Cart, products: map<ProductId, Product>, nextItem: ItemId, p: ProductId)
    requires ValidCart(cart, products, nextItem) && p in cart
    ensures ValidCart(cart[p := cart[p].(quantity := cart[p].quantity + 1)], products, nextItem)
  {
    var cart' := cart[p := cart[p].(quantity := cart[p].quantity + 1)];
    assert forall q :: q in cart' ==> cart'[q].id == cart[q].id;
  }

  /** A new row with quantity 1 and the next id keeps its cart valid once the id is handed out. */
  lemma ValidCartInsert(cart: Cart, products: map<ProductId, Product>, nextItem: ItemId, p: ProductId)
    requires ValidCart(cart, products, nextItem) && p in products && p !in cart
    ensures ValidCart(cart[p := Line(nextItem, 1)], products, nextItem + 1)
  {
  }

  /** add_to_cart fails exactly for an unknown product, and otherwise keeps the integrity. */
  lemma AddToCartValid(s: Shop, u: UserId, p: ProductId)
    requires Valid(s)
    ensures AddToCart(s, u, p).Failure? <==> p !in s.products
    ensures AddToCart(s, u, p).Failure? ==> AddToCart(s, u, p).error == NotFound
    ensures AddToCart(s, u, p).Success? ==> Valid(AddToCart(s, u, p).value)
  {
    if p in s.products {
      var cart := RowsOf(s, u);
      ValidCartOf(s, u);
      if p in cart {
        ValidCartBump(cart, s.products, s.nextItem, p);
        ValidSet(s, u, cart[p := cart[p].(quantity := cart[p].quantity + 1)]);
      } else {
        ValidCartInsert(cart, s.products, s.nextItem, p);
        ValidReplace(s, u, cart[p := Line(s.nextItem, 1)], s.nextItem + 1);
      }
    }
  }

  /**
   Adding a product already in the cart increments its quantity by exactly one;
   adding a new one creates it with quantity 1.
   */
  lemma AddToCartEffect(s: Shop, u: UserId, p: ProductId)
    requires Valid(s) && p in s.products
    ensures AddToCart(s, u, p).Success?
    ensures CartOf(AddToCart(s, u, p).value, u) == CartOf(s, u)[p := QuantityIn(CartOf(s, u), p) + 1]
    ensures u in AddToCart(s, u, p).value.carts
  {
    var s' := AddToCart(s, u, p).value;
    assert CartOf(s', u).Keys == CartOf(s, u)[p := QuantityIn(CartOf(s, u), p) + 1].Keys;
  }

  /** No other row, cart, category, product or order changes, an existing row keeps its id, and only a new row takes one. */
  lemma AddToCartFrame(s: Shop, u: UserId, p: ProductId)
    requires Valid(s) && p in s.products
    ensures AddToCart(s, u, p).Success?
    ensures var s' := AddToCart(s, u, p).value;
      && (p in RowsOf(s, u) ==> RowsOf(s', u)[p].id == RowsOf(s, u)[p].id)
      && (forall q :: q in RowsOf(s, u) && q != p ==> RowsOf(s', u)[q] == RowsOf(s, u)[q])
      && (forall v :: v != u ==> RowsOf(s', v) == RowsOf(s, v))
      && s'.nextItem == (if p in RowsOf(s, u) then s.nextItem else s.nextItem + 1)
      && s'.categories == s.categories && s'.products == s.products && s'.orders == s.orders
  {
  }

  // ---------------------------------------------------------------- remove_from_cart

  /** The cart without row id. */
  function Without(cart: Cart, id: ItemId): Cart {
    map p | p in cart && cart[p].id != id :: cart[p]
  }

  /** remove_from_cart: the row must be in the requesting user's cart; it is deleted. */
  function RemoveFromCart(s: Shop, u: UserId, id: ItemId): (r: Result<Shop, Error>)
    ensures r.Failure? <==> !Owned(s, u, id)
    ensures r.Failure? ==> r.error == NotFound
    // a row of the cart is gone and the id no longer names a row of it; only that cart changes
    ensures r.Success? ==> RowsOf(r.value, u).Keys < RowsOf(s, u).Keys && !Owned(r.value, u, id)
    ensures r.Success? ==> r.value == s.(carts := r.value.carts)
    ensures r.Success? ==> forall v :: v != u ==> RowsOf(r.value, v) == RowsOf(s, v)
  {
    if !Owned(s, u, id) then Failure(NotFound)
    else Success(s.(carts := s.carts[u := Without(s.carts[u], id)]))
  }

  /** Dropping a row keeps a cart valid. */
  lemma ValidCartWithout(cart: Cart, products: map<ProductId, Product>, nextItem: ItemId, id: ItemId)
    requires ValidCart(cart, products, nextItem)
    ensures ValidCart(Without(cart, id), products, nextItem)
  {
  }

  /** In a valid cart, dropping row id drops exactly the product it holds. */
  lemma WithoutRow(s: Shop, u: UserId, p: ProductId)
    requires Valid(s) && p in RowsOf(s, u)
    ensures Without(RowsOf(s, u), RowsOf(s, u)[p].id) == RowsOf(s, u) - {p}
  {
  }

  /** remove_from_cart finds only a row of the requesting user's own cart, and keeps the integrity. */
  lemma RemoveFromCartValid(s: Shop, u: UserId, id: ItemId)
    requires Valid(s)
    ensures RemoveFromCart(s, u, id).Failure? <==> !Owned(s, u, id)
    ensures RemoveFromCart(s, u, id).Failure? ==> RemoveFromCart(s, u, id).error == NotFound
    ensures RemoveFromCart(s, u, id).Success? ==> Valid(RemoveFromCart(s, u, id).value)
  {
    if Owned(s, u, id) {
      ValidCartOf(s, u);
      ValidCartWithout(s.carts[u], s.products, s.nextItem, id);
      ValidSet(s, u, Without(s.carts[u], id));
    }
  }

  /** Removing a row of the user's own cart drops exactly its product, and a second removal is not-found. */
  lemma RemoveFromCartEffect(s: Shop, u: UserId, p: ProductId)
    requires Valid(s) && p in RowsOf(s, u)
    ensures RemoveFromCart(s, u, RowsOf(s, u)[p].id).Success?
    ensures var s' := RemoveFromCart(s, u, RowsOf(s, u)[p].id).value;
      && CartOf(s', u) == CartOf(s, u) - {p}
      && RemoveFromCart(s', u, RowsOf(s, u)[p].id) == Failure(NotFound)
  {
    var id := RowsOf(s, u)[p].id;
    WithoutRow(s, u, p);
    var s' := RemoveFromCart(s, u, id).value;
    assert CartOf(s', u).Keys == CartOf(s, u).Keys - {p};
  }

  /** Removing a row changes no other row, cart, category, product or order, nor the id counter. */
  lemma RemoveFromCartFrame(s: Shop, u: UserId, id: ItemId)
    requires Valid(s) && Owned(s, u, id)
    ensures RemoveFromCart(s, u, id).Success?
    ensures var s' := RemoveFromCart(s, u, id).value;
      && (forall q :: q in RowsOf(s', u) ==> q in RowsOf(s, u) && RowsOf(s', u)[q] == RowsOf(s, u)[q])
      && (forall v :: v != u ==> RowsOf(s', v) == RowsOf(s, v))
      && s'.categories == s.categories && s'.products == s.products && s'.orders == s.orders && s'.nextItem == s.nextItem
  {
  }

  // ---------------------------------------------------------------- update_cart_item

  /** `cart_item.quantity = q` on row id. */
  function SetQuantity(cart: Cart, id: ItemId, q: int): Cart {
    map p | p in cart :: if cart[p].id == id then cart[p].(quantity := q) else cart[p]
  }

  /**
   update_cart_item: the row must be in the requesting user's cart (checked for
   every request); a request that is not a POST changes nothing; the posted
   quantity defaults to 1; a positive quantity is stored, any other deletes the row.
   */
  function UpdateCartItem(s: Shop, u: UserId, id: ItemId, isPost: bool, quantity: Option<int>): (r: Result<Shop, Error>)
    ensures r.Failure? <==> !Owned(s, u, id)
    ensures r.Failure? ==> r.error == NotFound
    // only the user's cart changes, and it gains no product
    ensures r.Success? ==> RowsOf(r.value, u).Keys <= RowsOf(s, u).Keys
    ensures r.Success? ==> r.value == s.(carts := r.value.carts)
    ensures r.Success? ==> forall v :: v != u ==> RowsOf(r.value, v) == RowsOf(s, v)
    // a posted quantity of zero or less deletes the row
    ensures r.Success? && isPost && quantity.GetOr(1) <= 0 ==> !Owned(r.value, u, id)
  {
    if !Owned(s, u, id) then Failure(NotFound)
    else if !isPost then Success(s)
    else
      var q := quantity.GetOr(1);
      if q > 0 then Success(s.(carts := s.carts[u := SetQuantity(s.carts[u], id, q)]))
      else Success(s.(carts := s.carts[u := Without(s.carts[u], id)]))
  }

  /** Setting a positive quantity keeps a cart valid. */
  lemma ValidCartSet(cart: Cart, products: map<ProductId, Product>, nextItem: ItemId, id: ItemId, q: int)
    requires ValidCart(cart, products, nextItem) && q > 0
    ensures ValidCart(SetQuantity(cart, id, q), products, nextItem)
  {
  }

  /** How the request itself is read: not-found first, then the method, then the default quantity. */
  lemma UpdateCartItemRequest(s: Shop, u: UserId, id: ItemId, isPost: bool, quantity: Option<int>)
    ensures !Owned(s, u, id) ==> UpdateCartItem(s, u, id, isPost, quantity) == Failure(NotFound)
    ensures Owned(s, u, id) && !isPost ==> UpdateCartItem(s, u, id, isPost, quantity) == Success(s)
    ensures UpdateCartItem(s, u, id, isPost, None) == UpdateCartItem(s, u, id, isPost, Some(1))
  {
  }

  /** update_cart_item keeps the integrity. */
  lemma UpdateCartItemValid(s: Shop, u: UserId, id: ItemId, isPost: bool, quantity: Option<int>)
    requires Valid(s)
    ensures UpdateCartItem(s, u, id, isPost, quantity).Success? ==> Valid(UpdateCartItem(s, u, id, isPost, quantity).value)
  {
    if Owned(s, u, id) && isPost {
      ValidCartOf(s, u);
      var q := quantity.GetOr(1);
      if q > 0 {
        ValidCartSet(s.carts[u], s.products, s.nextItem, id, q);
        ValidSet(s, u, SetQuantity(s.carts[u], id, q));
      } else {
        ValidCartWithout(s.carts[u], s.products, s.nextItem, id);
        ValidSet(s, u, Without(s.carts[u], id));
      }
    }
  }

  /** In a cart whose ids differ, setting the quantity of row id touches only the product it holds. */
  lemma SetQuantityRow(cart: Cart, p: ProductId, q: int)
    requires DistinctIds(cart) && p in cart
    ensures SetQuantity(cart, cart[p].id, q) == cart[p := Line(cart[p].id, q)]
  {
  }

  /** A positive quantity is set exactly, on that row alone, and setting it again changes nothing. */
  lemma UpdateCartItemSets(s: Shop, u: UserId, p: ProductId, q: int)
    requires Valid(s) && p in RowsOf(s, u) && q > 0
    ensures UpdateCartItem(s, u, RowsOf(s, u)[p].id, true, Some(q)).Success?
    ensures var id := RowsOf(s, u)[p].id;
      var s' := UpdateCartItem(s, u, id, true, Some(q)).value;
      && RowsOf(s', u) == RowsOf(s, u)[p := Line(id, q)]
      && CartOf(s', u) == CartOf(s, u)[p := q]
      && UpdateCartItem(s', u, id, true, Some(q)) == Success(s')
  {
    var id := RowsOf(s, u)[p].id;
    SetQuantityRow(s.carts[u], p, q);
    var s' := UpdateCartItem(s, u, id, true, Some(q)).value;
    assert s'.carts[u] == s.carts[u][p := Line(id, q)];
    assert DistinctIds(s'.carts[u]);
    SetQuantityRow(s'.carts[u], p, q);
    assert s'.carts[u][p := Line(id, q)] == s'.carts[u];
    assert Owned(s', u, id);
    assert s'.carts[u := s'.carts[u]] == s'.carts;
    assert CartOf(s', u).Keys == CartOf(s, u)[p := q].Keys;
  }

  /** Setting a quantity changes no other cart, no category, product or order, nor the id counter. */
  lemma UpdateCartItemFrame(s: Shop, u: UserId, id: ItemId, isPost: bool, quantity: Option<int>)
    requires Valid(s) && Owned(s, u, id)
    ensures UpdateCartItem(s, u, id, isPost, quantity).Success?
    ensures var s' := UpdateCartItem(s, u, id, isPost, quantity).value;
      && (forall v :: v != u ==> RowsOf(s', v) == RowsOf(s, v))
      && s'.categories == s.categories && s'.products == s.products && s'.orders == s.orders && s'.nextItem == s.nextItem
  {
  }

  /** A quantity of zero or less deletes the row like remove_from_cart; a second update of that id is not-found. */
  lemma UpdateCartItemDeletes(s: Shop, u: UserId, p: ProductId, q: int)
    requires Valid(s) && p in RowsOf(s, u) && q <= 0
    ensures var id := RowsOf(s, u)[p].id;
      var r := UpdateCartItem(s, u, id, true, Some(q));
      && r.Success?
      && r == RemoveFromCart(s, u, id)
      && CartOf(r.value, u) == CartOf(s, u) - {p}
      && UpdateCartItem(r.value, u, id, true, Some(q)) == Failure(NotFound)
  {
    RemoveFromCartEffect(s, u, p);
  }

  // ---------------------------------------------------------------- checkout

  /** rows lists every product of the cart exactly once: the order in which the database returns the cart's rows. */
  predicate Enumerates(rows: seq<ProductId>, cart: Cart) {
    && (forall i :: 0 <= i < |rows| ==> rows[i] in cart)
    && (forall p :: p in cart ==> p in rows)
    && (forall i, j :: 0 <= i < j < |rows| ==> rows[i] != rows[j])
  }

  /** Every listed row is in the cart and its product in the table. */
  predicate Listed(products: map<ProductId, Product>, cart: Cart, rows: seq<ProductId>) {
    forall i :: 0 <= i < |rows| ==> rows[i] in cart && rows[i] in products
  }

  /** The OrderItem rows created for the listed cart rows: same product and quantity, the product's price copied. */
  function Snapshot(products: map<ProductId, Product>, cart: Cart, rows: seq<ProductId>): (lines: seq<OrderItem>)
    requires Listed(products, cart, rows)
    ensures |lines| == |rows|
    ensures forall k :: 0 <= k < |rows| ==>
      lines[k] == OrderItem(rows[k], cart[rows[k]].quantity, products[rows[k]].price)
  {
    if rows == [] then []
    else
      var p := rows[|rows| - 1];
      Snapshot(products, cart, rows[..|rows| - 1]) + [OrderItem(p, cart[p].quantity, products[p].price)]
  }

  /** Taking one more listed row appends that row's OrderItem. */
  lemma SnapshotNext(products: map<ProductId, Product>, cart: Cart, rows: seq<ProductId>, i: nat)
    requires Listed(products, cart, rows) && i < |rows|
    ensures Snapshot(products, cart, rows[..i + 1])
      == Snapshot(products, cart, rows[..i]) + [OrderItem(rows[i], cart[rows[i]].quantity, products[rows[i]].price)]
  {
    assert rows[..i + 1][..i] == rows[..i];
  }

  /** `product.stock -= quantity` for each listed row, in order; prices and categories stay. */
  function Deduct(products: map<ProductId, Product>, cart: Cart, rows: seq<ProductId>): (r: map<ProductId, Product>)
    requires Listed(products, cart, rows)
    ensures forall p :: p in r <==> p in products
    ensures forall p :: p in products ==> r[p].price == products[p].price && r[p].category == products[p].category
  {
    if rows == [] then products
    else
      var before := Deduct(products, cart, rows[..|rows| - 1]);
      var p := rows[|rows| - 1];
      before[p := before[p].(stock := before[p].stock - cart[p].quantity)]
  }

  /** Taking one more listed row deducts that row's quantity from the stock its product has so far. */
  lemma DeductNext(products: map<ProductId, Product>, cart: Cart, rows: seq<ProductId>, i: nat)
    requires Listed(products, cart, rows) && i < |rows|
    ensures var before := Deduct(products, cart, rows[..i]);
      Deduct(products, cart, rows[..i + 1])
        == before[rows[i] := before[rows[i]].(stock := before[rows[i]].stock - cart[rows[i]].quantity)]
  {
    assert rows[..i + 1][..i] == rows[..i];
  }

  /**
   One step of the checkout loop: with the stock deducted for the rows before
   row i, row i's product still has its original price, and taking that row
   appends its OrderItem at the current price and deducts its quantity.
   */
  lemma TakeNext(start: map<ProductId, Product>, cart: Cart, rows: seq<ProductId>, i: nat, products: map<ProductId, Product>)
    requires Listed(start, cart, rows) && i < |rows| && products == Deduct(start, cart, rows[..i])
    ensures rows[i] in products && rows[i] in cart && products[rows[i]].price == start[rows[i]].price
    ensures Deduct(start, cart, rows[..i + 1])
      == products[rows[i] := products[rows[i]].(stock := products[rows[i]].stock - cart[rows[i]].quantity)]
    ensures Snapshot(start, cart, rows[..i + 1])
      == Snapshot(start, cart, rows[..i]) + [OrderItem(rows[i], cart[rows[i]].quantity, products[rows[i]].price)]
  {
    DeductNext(start, cart, rows, i);
    SnapshotNext(start, cart, rows, i);
  }

  /** Over rows that name each product at most once, every listed product loses exactly its quantity and no other stock moves. */
  lemma {:induction false} DeductStock(products: map<ProductId, Product>, cart: Cart, rows: seq<ProductId>)
    requires Listed(products, cart, rows)
    requires forall i, j :: 0 <= i < j < |rows| ==> rows[i] != rows[j]
    ensures forall p :: p in products ==>
      Deduct(products, cart, rows)[p].stock == products[p].stock - (if p in rows then cart[p].quantity else 0)
  {
    if rows != [] {
      var init := rows[..|rows| - 1];
      var last := rows[|rows| - 1];
      DeductStock(products, cart, init);
      forall p | p in products
        ensures Deduct(products, cart, rows)[p].stock == products[p].stock - (if p in rows then cart[p].quantity else 0)
      {
        assert rows == init + [last];
        if p == last {
          assert p !in init;
        }
      }
    }
  }

  /** The sum of quantity x price over the listed rows at the products' current prices. */
  function CartTotal(products: map<ProductId, Product>, cart: Cart, rows: seq<ProductId>): (r: int)
    requires Listed(products, cart, rows)
    // with no negative quantity listed, the total is not negative
    ensures (forall i :: 0 <= i < |rows| ==> cart[rows[i]].quantity >= 0) ==> r >= 0
  {
    if rows == [] then 0
    else
      var p := rows[|rows| - 1];
      CartTotal(products, cart, rows[..|rows| - 1]) + cart[p].quantity * products[p].price
  }

  /** The sum of the line totals of some OrderItem rows. */
  function LinesTotal(lines: seq<OrderItem>): int {
    if lines == [] then 0
    else LinesTotal(lines[..|lines| - 1]) + lines[|lines| - 1].quantity * lines[|lines| - 1].price
  }

  /** The cart's total equals the sum of the line totals of its snapshot. */
  lemma {:induction false} CartTotalIsLinesTotal(products: map<ProductId, Product>, cart: Cart, rows: seq<ProductId>)
    requires Listed(products, cart, rows)
    ensures CartTotal(products, cart, rows) == LinesTotal(Snapshot(products, cart, rows))
  {
    if rows != [] {
      var init := rows[..|rows| - 1];
      CartTotalIsLinesTotal(products, cart, init);
      var lines := Snapshot(products, cart, rows);
      assert lines[..|lines| - 1] == Snapshot(products, cart, init);
    }
  }

  /** The atomic block of checkout: one order with the cart's snapshot and total, stock taken, the cart's rows deleted. */
  function Place(s: Shop, u: UserId, c: Forms.Cleaned, rows: seq<ProductId>): (s': Shop)
    requires Valid(s) && u in s.carts && Enumerates(rows, s.carts[u])
    // exactly one order is appended, for the user, with one line per listed row and the form's address and method
    ensures |s'.orders| == |s.orders| + 1 && s'.orders[..|s.orders|] == s.orders
    ensures s'.orders[|s.orders|].user == u && |s'.orders[|s.orders|].items| == |rows|
    ensures s'.orders[|s.orders|].shippingAddress == c.shippingAddress && s'.orders[|s.orders|].paymentMethod == c.paymentMethod
    // the user's cart is emptied; the catalogue keeps its products and the row counter stays
    ensures u in s'.carts && s'.carts[u] == map[]
    ensures s'.products.Keys == s.products.Keys && s'.categories == s.categories && s'.nextItem == s.nextItem
  {
    ListedRows(s, u, rows);
    var cart := s.carts[u];
    var order := Order(u, CartTotal(s.products, cart, rows), c.shippingAddress, c.paymentMethod,
                       Snapshot(s.products, cart, rows));
    s.(products := Deduct(s.products, cart, rows), carts := s.carts[u := map[]], orders := s.orders + [order])
  }

  /**
   checkout, with the Order built from the form's cleaned data: the cart must
   exist and hold a row, the request must be a POST, the form must be valid;
   then the order is placed. rows is the order in which the cart's rows are read.
   */
  function Checkout(s: Shop, u: UserId, isPost: bool, f: Forms.Submission, rows: seq<ProductId>): (r: Result<Shop, Error>)
    requires Valid(s) && (u in s.carts ==> Enumerates(rows, s.carts[u]))
    // an order is placed exactly for a POST of an acceptable form on a cart with rows
    ensures r.Success? <==> u in s.carts && s.carts[u] != map[] && isPost && Forms.Acceptable(f)
    ensures r.Success? ==> |r.value.orders| == |s.orders| + 1
    // the corrected view never fails inside its atomic block
    ensures r.Failure? ==> r.error != ServerError
  {
    if u !in s.carts then Failure(NotFound)
    else if s.carts[u] == map[] then Failure(EmptyCart)
    else if !isPost then Failure(FormDisplayed)
    else
      match Forms.Validate(f)
      case Failure(e) => Failure(InvalidForm(e))
      case Success(c) => Success(Place(s, u, c, rows))
  }

  /**
   checkout as written: `form.save(commit=False)` is called on a plain form,
   which has no such method, so every request that gets past validation raises
   inside the atomic block and is rolled back. No order is ever placed.
   */
  function CheckoutAsWritten(s: Shop, u: UserId, isPost: bool, f: Forms.Submission): (r: Result<Shop, Error>)
    requires Valid(s)
    ensures r.Failure? && After(r, s) == s
    ensures forall rows :: (u in s.carts ==> Enumerates(rows, s.carts[u])) ==>
      r == (if Checkout(s, u, isPost, f, rows).Success? then Failure(ServerError) else Checkout(s, u, isPost, f, rows))
  {
    if u !in s.carts then Failure(NotFound)
    else if s.carts[u] == map[] then Failure(EmptyCart)
    else if !isPost then Failure(FormDisplayed)
    else
      match Forms.Validate(f)
      case Failure(e) => Failure(InvalidForm(e))
      case Success(_) => Failure(ServerError)
  }

  /** When checkout stops early, and why: no cart, an empty cart, a page view, an invalid form. */
  lemma CheckoutOutcome(s: Shop, u: UserId, isPost: bool, f: Forms.Submission, rows: seq<ProductId>)
    requires Valid(s) && (u in s.carts ==> Enumerates(rows, s.carts[u]))
    ensures var r := Checkout(s, u, isPost, f, rows);
      && (r == Failure(NotFound) <==> u !in s.carts)
      && (r == Failure(EmptyCart) <==> u in s.carts && CartOf(s, u) == map[])
      && (r == Failure(FormDisplayed) <==> u in s.carts && CartOf(s, u) != map[] && !isPost)
      && (r.Failure? && r.error.InvalidForm? <==>
            u in s.carts && CartOf(s, u) != map[] && isPost && Forms.Validate(f).Failure?)
      && (r.Failure? && r.error.InvalidForm? ==> r.error.reason == Forms.Validate(f).error)
      && (r.Success? <==> u in s.carts && CartOf(s, u) != map[] && isPost && Forms.Validate(f).Success?)
  {
    if u in s.carts {
      assert CartOf(s, u) == map[] <==> s.carts[u] == map[] by {
        if s.carts[u] != map[] {
          var p :| p in s.carts[u];
          assert p in CartOf(s, u);
        }
      }
    }
  }

  /**
   A placed order belongs to the user, carries the form's address and method,
   and holds one line per cart row: same product and quantity, the price the
   product had at that moment. It is appended after the earlier orders.
   */
  lemma CheckoutOrder(s: Shop, u: UserId, isPost: bool, f: Forms.Submission, rows: seq<ProductId>)
    requires Valid(s) && (u in s.carts ==> Enumerates(rows, s.carts[u]))
    requires Checkout(s, u, isPost, f, rows).Success?
    ensures var s' := Checkout(s, u, isPost, f, rows).value;
      && |s'.orders| == |s.orders| + 1
      && s'.orders[..|s.orders|] == s.orders
      && var o := s'.orders[|s.orders|];
      && o.user == u
      && o.shippingAddress == f.shippingAddress
      && Forms.ChoiceValue(o.paymentMethod) == f.paymentMethod
      && (forall k :: 0 <= k < |o.items| ==>
            && o.items[k].product in CartOf(s, u)
            && o.items[k].quantity == CartOf(s, u)[o.items[k].product]
            && o.items[k].price == s.products[o.items[k].product].price)
      && (forall p :: p in CartOf(s, u) ==> exists k :: 0 <= k < |o.items| && o.items[k].product == p)
      && (forall j, k :: 0 <= j < k < |o.items| ==> o.items[j].product != o.items[k].product)
  {
    var s' := Checkout(s, u, isPost, f, rows).value;
    var o := s'.orders[|s.orders|];
    forall p | p in CartOf(s, u) ensures exists k :: 0 <= k < |o.items| && o.items[k].product == p {
      var k :| 0 <= k < |rows| && rows[k] == p;
      assert o.items[k].product == p;
    }
  }

  /** The order's total is the cart total taken before any stock moves, and equals the sum of its line totals. */
  lemma CheckoutTotal(s: Shop, u: UserId, isPost: bool, f: Forms.Submission, rows: seq<ProductId>)
    requires Valid(s) && (u in s.carts ==> Enumerates(rows, s.carts[u]))
    requires Checkout(s, u, isPost, f, rows).Success?
    ensures u in s.carts && Listed(s.products, s.carts[u], rows)
    ensures var o := Checkout(s, u, isPost, f, rows).value.orders[|s.orders|];
      && o.total == CartTotal(s.products, s.carts[u], rows)
      && o.total == LinesTotal(o.items)
  {
    ListedRows(s, u, rows);
    CartTotalIsLinesTotal(s.products, s.carts[u], rows);
  }

  /**
   Each purchased product's stock drops by exactly its cart quantity and no
   other stock moves; nothing checks that enough stock is there. Prices and
   categories stay.
   */
  lemma CheckoutStock(s: Shop, u: UserId, isPost: bool, f: Forms.Submission, rows: seq<ProductId>)
    requires Valid(s) && (u in s.carts ==> Enumerates(rows, s.carts[u]))
    requires Checkout(s, u, isPost, f, rows).Success?
    ensures var s' := Checkout(s, u, isPost, f, rows).value;
      && s'.products.Keys == s.products.Keys
      && (forall p :: p in s.products ==>
            && s'.products[p].stock == s.products[p].stock - QuantityIn(CartOf(s, u), p)
            && s'.products[p].price == s.products[p].price
            && s'.products[p].category == s.products[p].category)
  {
    ListedRows(s, u, rows);
    DeductStock(s.products, s.carts[u], rows);
  }

  /** Placing an order empties the user's cart, touches no other cart and keeps the integrity. */
  lemma PlaceKeepsCarts(s: Shop, u: UserId, c: Forms.Cleaned, rows: seq<ProductId>)
    requires Valid(s) && u in s.carts && Enumerates(rows, s.carts[u])
    ensures var s' := Place(s, u, c, rows);
      && Valid(s')
      && u in s'.carts && CartOf(s', u) == map[]
      && (forall v :: v != u ==> RowsOf(s', v) == RowsOf(s, v))
      && s'.nextItem == s.nextItem && s'.categories == s.categories
  {
    ListedRows(s, u, rows);
    var s' := Place(s, u, c, rows);
    assert s'.products.Keys == s.products.Keys;
    forall v
      ensures ValidCart(RowsOf(s', v), s'.products, s'.nextItem)
    {
      if v != u {
        assert RowsOf(s', v) == RowsOf(s, v);
        ValidCartOf(s, v);
      }
    }
  }

  /** After a checkout the user's cart still exists and holds nothing; every other cart is as it was; the integrity holds. */
  lemma CheckoutClearsCart(s: Shop, u: UserId, isPost: bool, f: Forms.Submission, rows: seq<ProductId>)
    requires Valid(s) && (u in s.carts ==> Enumerates(rows, s.carts[u]))
    requires Checkout(s, u, isPost, f, rows).Success?
    ensures var s' := Checkout(s, u, isPost, f, rows).value;
      && Valid(s')
      && u in s'.carts && CartOf(s', u) == map[]
      && (forall v :: v != u ==> RowsOf(s', v) == RowsOf(s, v))
      && s'.nextItem == s.nextItem && s'.categories == s.categories
  {
    PlaceKeepsCarts(s, u, Forms.Validate(f).value, rows);
  }
}
