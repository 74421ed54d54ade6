/**
 The cart and checkout views as they run against the database: an object with
 one field per table, whose methods update those fields in place the way the
 views update rows. Each method is proved to do what the corresponding
 function of module Store says; the four views also keep the database's
 integrity. Checkout is the corrected view, which places the order.
 */
module Views {
  import opened Wrappers
  import Forms
  import opened Store

  class ShopDb {
    var categories: set<CategoryId>
    var products: map<ProductId, Product>
    var carts: map<UserId, Cart>
    var nextItem: ItemId
    var orders: seq<Order>

    function State(): Shop
      reads this
    {
      Shop(categories, products, carts, nextItem, orders)
    }

    /** A database with a catalogue and no carts or orders yet. */
    constructor (categories: set<CategoryId>, products: map<ProductId, Product>)
      ensures State() == Shop(categories, products, map[], 0, [])
      ensures Valid(State())
    {
      this.categories := categories;
      this.products := products;
      carts := map[];
      nextItem := 0;
      orders := [];
    }

    /** add_to_cart */
    method AddToCart(u: UserId, p: ProductId) returns (err: Option<Error>)
      requires Valid(State())
      modifies this
      ensures Valid(State())
      ensures State() == After(Store.AddToCart(old(State()), u, p), old(State()))
      ensures err == ErrorOf(Store.AddToCart(old(State()), u, p))
    {
      ghost var s := State();
      AddToCartValid(s, u, p);
      if p !in products {
        return Some(NotFound);
      }
      var cart := if u in carts then carts[u] else map[];   // Cart.objects.get_or_create
      if p in cart {
        cart := cart[p := cart[p].(quantity := cart[p].quantity + 1)];
      } else {
        cart := cart[p := Line(nextItem, 1)];
        nextItem := nextItem + 1;
      }
      carts := carts[u := cart];
      err := None;
      assert State() == Store.AddToCart(s, u, p).value;
    }

    /** remove_from_cart */
    method RemoveFromCart(u: UserId, id: ItemId) returns (err: Option<Error>)
      requires Valid(State())
      modifies this
      ensures Valid(State())
      ensures State() == After(Store.RemoveFromCart(old(State()), u, id), old(State()))
      ensures err == ErrorOf(Store.RemoveFromCart(old(State()), u, id))
    {
      RemoveFromCartValid(State(), u, id);
      if u !in carts || !exists p :: p in carts[u] && carts[u][p].id == id {
        return Some(NotFound);
      }
      var p :| p in carts[u] && carts[u][p].id == id;
      WithoutRow(State(), u, p);
      carts := carts[u := carts[u] - {p}];
      err := None;
    }

    /** update_cart_item */
    method UpdateCartItem(u: UserId, id: ItemId, isPost: bool, quantity: Option<int>) returns (err: Option<Error>)
      requires Valid(State())
      modifies this
      ensures Valid(State())
      ensures State() == After(Store.UpdateCartItem(old(State()), u, id, isPost, quantity), old(State()))
      ensures err == ErrorOf(Store.UpdateCartItem(old(State()), u, id, isPost, quantity))
    {
      UpdateCartItemValid(State(), u, id, isPost, quantity);
      if u !in carts || !exists p :: p in carts[u] && carts[u][p].id == id {
        return Some(NotFound);
      }
      var p :| p in carts[u] && carts[u][p].id == id;
      if isPost {
        var q := quantity.GetOr(1);
        if q > 0 {
          ValidCartOf(State(), u);
          SetQuantityRow(carts[u], p, q);
          carts := carts[u := carts[u][p := carts[u][p].(quantity := q)]];
        } else {
          WithoutRow(State(), u, p);
          carts := carts[u := carts[u] - {p}];
        }
      }
      err := None;
    }

    /** The rows of a cart, in whatever order the database returns them. */
    static method ListRows(cart: Cart) returns (rows: seq<ProductId>)
      ensures Enumerates(rows, cart)
    {
      rows := [];
      var left := cart.Keys;
      while left != {}
        invariant left <= cart.Keys
        invariant forall i :: 0 <= i < |rows| ==> rows[i] in cart && rows[i] !in left
        invariant forall p :: p in cart ==> p in rows || p in left
        invariant forall i, j :: 0 <= i < j < |rows| ==> rows[i] != rows[j]
        decreases left
      {
        var p :| p in left;
        rows := rows + [p];
        left := left - {p};
      }
    }

    /**
     The loop of checkout's atomic block: for each row, in the order listed,
     an OrderItem with the product's price, and the row's quantity taken from
     the product's stock. Nothing but the product table changes.
     */
    method TakeLines(cart: Cart, rows: seq<ProductId>) returns (lines: seq<OrderItem>)
      requires Listed(products, cart, rows)
      modifies this
      ensures lines == Snapshot(old(products), cart, rows)
      ensures State() == old(State()).(products := Deduct(old(products), cart, rows))
    {
      ghost var start := products;
      lines := [];
      var i := 0;
      while i < |rows|
        invariant 0 <= i <= |rows|
        invariant products == Deduct(start, cart, rows[..i])
        invariant lines == Snapshot(start, cart, rows[..i])
        invariant State() == old(State()).(products := products)
      {
        var p := rows[i];
        TakeNext(start, cart, rows, i, products);
        lines := lines + [OrderItem(p, cart[p].quantity, products[p].price)];   // OrderItem.objects.create
        products := products[p := products[p].(stock := products[p].stock - cart[p].quantity)];
        i := i + 1;
      }
      assert rows[..|rows|] == rows;
    }

    /** The atomic block of checkout: record the order and its lines, take the stock, empty the cart. */
    method PlaceOrder(u: UserId, c: Forms.Cleaned, rows: seq<ProductId>)
      requires Valid(State()) && u in carts && Enumerates(rows, carts[u])
      modifies this
      ensures State() == Place(old(State()), u, c, rows)
    {
      ListedRows(State(), u, rows);
      var cart := carts[u];
      var total := CartTotal(products, cart, rows);   // cart.get_total_price()
      var lines := TakeLines(cart, rows);
      orders := orders + [Order(u, total, c.shippingAddress, c.paymentMethod, lines)];
      carts := carts[u := map[]];   // cart.items.all().delete()
    }

    /**
     checkout as corrected, with the Order built from the form's cleaned data
     (the view as written is Store.CheckoutAsWritten). On success
     the result is the new order's position. rows is the order in which the
     cart's rows were read.
     */
    method Checkout(u: UserId, isPost: bool, f: Forms.Submission) returns (r: Result<nat, Error>, ghost rows: seq<ProductId>)
      requires Valid(State())
      modifies this
      ensures Valid(State())
      ensures u in old(carts) ==> Enumerates(rows, old(carts)[u])
      ensures State() == After(Store.Checkout(old(State()), u, isPost, f, rows), old(State()))
      ensures r.Failure? <==> Store.Checkout(old(State()), u, isPost, f, rows).Failure?
      ensures r.Failure? ==> r.error == Store.Checkout(old(State()), u, isPost, f, rows).error
      ensures r.Success? ==> r.value == |old(orders)| && r.value < |orders|
    {
      rows := [];
      if u !in carts {
        return Failure(NotFound), rows;
      }
      var cart := carts[u];
      var listed := ListRows(cart);   // cart.items.all()
      rows := listed;
      if cart == map[] {
        return Failure(EmptyCart), rows;
      }
      if !isPost {
        return Failure(FormDisplayed), rows;
      }
      var form := Forms.Validate(f);
      if form.Failure? {
        return Failure(InvalidForm(form.error)), rows;
      }
      ghost var before := State();
      PlaceKeepsCarts(before, u, form.value, listed);
      PlaceOrder(u, form.value, listed);
      r := Success(|orders| - 1);
    }
  }
}
