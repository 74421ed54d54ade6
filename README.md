# Shop cart and checkout, in Dafny

This project models the core of a small Django shop, the `Commerce` app:

- the shopping cart views `add_to_cart`, `remove_from_cart` and `update_cart_item`;
- the `checkout` view, which is meant to turn a cart into an order, copy each line's price, take the stock and empty the cart (as written it never gets that far, see "## Findings");
- the catalogue filters of `home` and `product_list`;
- the validation rules of `CheckoutForm`.

The database is modelled as one value, `Store.Shop`. It holds:

- the categories;
- the product table (price in integer cents, stock, category);
- one cart per user, whose CartItem rows are filed under their product;
- the id the next CartItem row receives;
- the placed orders, with their OrderItem lines.

Each view is a function in module `Store` (`AddToCart`, `RemoveFromCart`, `UpdateCartItem`, `Checkout`). It maps the state before a request to either the state after it or the error the view reports. `After` gives the state left behind, which an error leaves unchanged.

The lemmas next to each view state what it does:

- which requests it refuses;
- the effect on the user's cart;
- that no other cart, product or order changes;
- that the database's integrity (`Store.Valid`) holds afterwards.

`Valid` requires that cart rows name existing products, hold a positive quantity and an id already handed out, and that a cart's row ids differ.

Module `Views` is the behaviour of module `Store` as it runs against the database. It is a class `ShopDb` with one field per table, and its methods update those fields in place as the views update rows:

- `AddToCart` increments a row's quantity in place or inserts a row;
- `RemoveFromCart` deletes a row;
- `UpdateCartItem` sets a row's quantity or deletes the row;
- `Checkout` is the corrected checkout (see "## Findings"): it reads the cart's rows (`ListRows`), then runs the atomic block (`PlaceOrder`) and places the order. The view as written never places one; that behaviour is `Store.CheckoutAsWritten`.

`PlaceOrder` loops over the rows (`TakeLines`): for each row it creates an OrderItem at the product's price and subtracts the row's quantity from the product's stock. It then appends the order and deletes the cart's rows. `TakeLines` is proved to return `Store.Snapshot` and to leave `Store.Deduct`'s product table. `PlaceOrder` is proved to leave `Store.Place`'s state, and `Store.PlaceKeepsCarts` proves that state keeps `Valid`. `AddToCart`, `RemoveFromCart`, `UpdateCartItem` and `Checkout` are proved to leave exactly the state the `Store` function gives, and to keep `Valid`.

Module `Forms` models `CheckoutForm` as Django validates it:

- the fields are cleaned in declaration order;
- `clean` then runs with the fields that cleaned;
- the form reports the first error recorded.

Module `Catalog` models the two product filters. `Scenarios` holds concrete runs:

- a cash-on-delivery checkout;
- a card payment without a card number;
- an over-sold product;
- the checkout view as written, refusing a valid request.

Modelling choices:

- Prices are integer cents.
- Stock is an unbounded integer. Nothing in the views keeps it non-negative, and the model does not claim it.
- The order in which the database returns a cart's rows is a parameter (`rows`) of `Store.Checkout`. `Views.ShopDb.ListRows` produces it.
- The order of the product table is the `rows` parameter of the catalogue functions. `Catalog.Tabulates` requires it to list every product of the table exactly once.
- `Cart.get_total_price` is defined in `models.py`, which is not part of this model. `Store.CartTotal` takes it to be the sum of quantity × price over the cart's rows.

## Model

| member | source | states |
|---|---|---|
| Forms.ParseChoice | Commerce/forms.py:26-39 | a posted value is read back as exactly the choice whose value it is; the placeholder "" and any other text are no choice |
| Forms.Validate | Commerce/forms.py:15-87 | the form is valid exactly when the address is non-empty, the method is one of the four choices, and a card method has all three card fields; exactly when `Forms.Errors` records no error (the null-character check is not modelled, see "## Left out"); an invalid form reports the first recorded error; a valid form returns its data unchanged; empty address gives the required error; empty method gives the required error; for card methods the missing number, then expiry, then CVV is reported in that order; mobile money and cash on delivery pass whatever the card fields hold |
| Forms.CleanError | Commerce/forms.py:71-85 | only a card payment is checked; it passes exactly when number, expiry and CVV are all filled, and otherwise reports the first missing one in that order |
| Forms.Errors | Commerce/forms.py:15-85 | Django's error list: at most one error per field and the form-wide one last; the address error exactly for an empty address, first; the required error exactly for an empty method; the invalid-choice error exactly for a non-empty value that is no choice; a card error only for a card method |
| Store.AddToCart | Commerce/views.py:54-69 | not-found exactly for an unknown product; otherwise the user has a cart holding the product, only a new row takes an id, and categories, products and orders are unchanged |
| Store.AddToCartValid | Commerce/views.py:55-66 | add_to_cart fails exactly for an unknown product, with not-found, and otherwise keeps the integrity |
| Store.AddToCartEffect | Commerce/views.py:57-66 | the user's cart afterwards is the cart before with the product's quantity raised by exactly one (a product not in the cart arrives with quantity 1); the user has a cart afterwards |
| Store.AddToCartFrame | Commerce/views.py:59-66 | an existing row keeps its id; every other row, every other user's cart, the products and the orders are unchanged |
| Store.RemoveFromCart | Commerce/views.py:72-77 | not-found exactly when the id is not a row of the user's own cart; otherwise one row of that cart is gone, the id names no row of it, and no other cart or table changes |
| Store.WithoutRow | Commerce/views.py:74-75 | in a valid cart, deleting the row with a given id removes exactly the product that row holds |
| Store.RemoveFromCartValid | Commerce/views.py:73-75 | remove_from_cart fails, with not-found, exactly when the id is not a row of the requesting user's own cart; otherwise the integrity holds |
| Store.RemoveFromCartEffect | Commerce/views.py:74-75 | removing a row of the user's cart drops exactly its product from the cart, and removing the same id again is not-found |
| Store.RemoveFromCartFrame | Commerce/views.py:74-75 | the remaining rows are unchanged; every other user's cart, the products, the orders and the id counter are unchanged |
| Store.UpdateCartItem | Commerce/views.py:80-90 | not-found exactly when the id is not a row of the user's own cart; otherwise only that cart changes and it gains no product; a posted quantity of zero or less leaves no row with that id |
| Store.UpdateCartItemRequest | Commerce/views.py:82-84 | an id outside the user's cart is not-found for any request; a request that is not a POST on an owned row changes nothing; a missing quantity behaves as quantity 1 |
| Store.UpdateCartItemValid | Commerce/views.py:81-89 | update_cart_item keeps the integrity |
| Store.SetQuantityRow | Commerce/views.py:86-87 | in a cart whose row ids differ, setting the quantity of one row's id changes that row alone |
| Store.UpdateCartItemSets | Commerce/views.py:85-87 | a positive quantity is stored exactly, on that row alone; the cart's quantity for the product becomes that quantity; sending the same update again leaves the state as it is |
| Store.UpdateCartItemFrame | Commerce/views.py:82-89 | an update of an owned row changes no other user's cart, no product, no order and not the id counter |
| Store.UpdateCartItemDeletes | Commerce/views.py:88-89 | a quantity of zero or less deletes the row exactly as remove_from_cart does, and a further update of that id is not-found |
| Store.Snapshot | Commerce/views.py:110-116 | one OrderItem per listed row, in order, with the row's product and quantity and the product's price |
| Store.Deduct | Commerce/views.py:117-119 | taking the stock keeps every product and its price and category |
| Store.DeductStock | Commerce/views.py:110-119 | over rows naming each product once, every listed product's stock falls by exactly its row's quantity and no other stock moves |
| Store.CartTotal | Commerce/views.py:107 | the total `get_total_price` is taken to be over the listed rows; with no negative quantity it is not negative |
| Store.CartTotalIsLinesTotal | Commerce/views.py:107-116 | the cart total equals the sum of quantity × price over the OrderItem lines created for the same rows |
| Store.Place | Commerce/views.py:104-122 | the atomic block appends exactly one order after the earlier ones, for the user, with one line per listed row and the form's address and method; it empties the user's cart and keeps the product keys, the categories and the row counter |
| Store.Checkout | Commerce/views.py:93-132 | the corrected checkout places an order exactly for a POST of an acceptable form on a cart with rows, then holds one more order, and never ends in a server error |
| Store.CheckoutAsWritten | Commerce/views.py:94-132 | the view as written never succeeds and never changes the state: where the corrected checkout places an order it answers with a server error, and otherwise it answers as the corrected checkout does |
| Store.CheckoutOutcome | Commerce/views.py:95-103 | checkout is not-found exactly without a cart, refused exactly for an empty cart, shows the form exactly for a request that is not a POST, reports the form's error exactly for an invalid form, and succeeds exactly for a POST of a valid form on a non-empty cart |
| Store.CheckoutOrder | Commerce/views.py:104-116 | a successful checkout appends exactly one order after the earlier ones, for the user, with the form's address and method; it holds one line per cart product, none twice, each with the cart quantity and the product's price at that moment |
| Store.CheckoutTotal | Commerce/views.py:107-116 | the order total is the cart total taken before any stock moves, and equals the sum of its line totals |
| Store.CheckoutStock | Commerce/views.py:117-119 | each product's stock falls by exactly its quantity in the cart (zero for products not in it), with no check that enough is in stock; prices and categories stay |
| Store.PlaceKeepsCarts | Commerce/views.py:104-122 | placing the order empties the user's cart, leaves every other cart and the id counter as they were, and keeps the integrity |
| Store.CheckoutClearsCart | Commerce/views.py:122 | after a successful checkout the user's cart exists and holds nothing, every other cart is unchanged, and the integrity holds |
| Catalog.InStock | Commerce/views.py:21-25 | exactly the listed products with stock above zero (and in the category, when one is given), each as often as it is listed |
| Catalog.InStockOne | Commerce/views.py:21-25 | a one-row table is kept exactly when its product is in stock (and in the category, when one is given) |
| Catalog.InStockDistinct | Commerce/views.py:21-25 | filtering a table that names each product once names each product at most once |
| Catalog.InStockAppend | Commerce/views.py:21-25 | the filter keeps table order: filtering two consecutive stretches of the table gives the first's result followed by the second's |
| Catalog.ProductList | Commerce/views.py:18-25 | a non-zero category id that names no category is not-found; otherwise the list holds every product of the table in stock and no other, restricted to the category when the id is non-zero, each once |
| Catalog.Home | Commerce/views.py:11-13 | at most eight products, all in stock, each once; they are the first ones of the in-stock list in table order, and when fewer than eight are shown every product in stock is among them |
| Views.ShopDb.AddToCart | Commerce/views.py:54-69 | the in-place update leaves exactly the state Store.AddToCart gives, reports its error and keeps the integrity |
| Views.ShopDb.RemoveFromCart | Commerce/views.py:72-77 | the row deletion leaves exactly the state Store.RemoveFromCart gives, reports its error and keeps the integrity |
| Views.ShopDb.UpdateCartItem | Commerce/views.py:80-90 | the in-place update or deletion leaves exactly the state Store.UpdateCartItem gives, reports its error and keeps the integrity |
| Views.ShopDb.ListRows | Commerce/views.py:110 | the rows read from a cart list each of its products exactly once |
| Views.ShopDb.TakeLines | Commerce/views.py:110-119 | the loop returns the OrderItem lines of the rows in order, and leaves the product table with each row's quantity taken from its product's stock; nothing else changes |
| Views.ShopDb.PlaceOrder | Commerce/views.py:104-122 | the atomic block leaves exactly the state of placing the order: the order with its total and lines appended, the stock taken, the cart emptied |
| Views.ShopDb.Checkout | Commerce/views.py:93-132 | the view leaves exactly the state Store.Checkout gives for the order in which it read the cart's rows, reports the same outcome, keeps the integrity, and on success returns the new order's position |
| Scenarios.CashOnDeliveryCheckout | Commerce/views.py:104-122 | on a cart of 2 × 10.00 and 1 × 3.50 paid cash on delivery, the order totals 23.50 with those two lines, the stock goes from 5 and 1 to 3 and 0, and the cart is empty |
| Scenarios.CardWithoutNumberRefused | Commerce/forms.py:79-81 | a credit-card checkout without a card number is refused with the card-number error and leaves the shop unchanged |
| Scenarios.CheckoutOversells | Commerce/views.py:117-119 | buying 2 of a product with 1 in stock succeeds and leaves stock -1 |
| Scenarios.CheckoutAsWrittenFails | Commerce/views.py:105 | on a request the corrected checkout accepts, the view as written answers with a server error |

## Left out

- Rendering, redirects and flash messages are left out. Each view's outcome is its new state or the error it reports.
- `@login_required` and authentication are left out. The requesting user is a parameter.
- `register`, `logout`, `view_cart`, `product_detail` and `order_success` are left out. They are not part of the cart and checkout core.
- `int(request.POST.get('quantity', 1))` is modelled from the parsed value on. The quantity is an optional integer, and a string that does not parse (a server error in the source) is not modelled.
- Decimal prices are modelled as integer cents. Django's whitespace stripping of form fields is not modelled: a field of blanks counts as non-empty.
- The widgets' `maxlength` hints are left out. They are not checked on the server.
- `Cart.get_total_price` is defined in `models.py`, which is not part of this model. `Store.CartTotal` assumes it is the sum of quantity × price over the cart's rows at the products' current prices.
- Database ordering is a parameter. The order of a cart's rows is the `rows` argument, and the order of the product table is the `rows` argument of the catalogue functions. Both are required to list their table exactly once (`Store.Enumerates`, `Catalog.Tabulates`); which order the database picks is not modelled.
- Database failures inside `transaction.atomic`, and concurrent checkouts racing on stock, are left out. A checkout is one sequential step that applies fully or not at all.
- Row ids are modelled only as far as the views use them: distinct within a cart and below a counter. The global uniqueness of CartItem ids across carts is not modelled. Ownership is checked per user, so this does not affect the views.
- Order ids, status and the order-status lifecycle are left out. No view in the core changes them. An order is identified by its position in the order list.
- The management command that seeds products, the URL configuration, the admin registrations and the cart-count context processor are not part of this model.
- `Forms.Validate`, `Forms.Errors`: Django's null-character check on every `CharField` ("Null characters are not allowed.") is not modelled, like the whitespace stripping. A field containing a NUL character counts as filled in: an address with one is accepted, and a card number with one passes `clean`. In Django the field is invalid, and a card number refused this way is then also reported as missing.
- `Forms.Validate` reports the first error Django records (the error list is `Forms.Errors`). It does not report all of them.
- `Catalog.ProductList` states the list's membership exactly over the whole product table. Its order is not in its own contract: it returns `Catalog.InStock` of the table, whose order `Catalog.InStockOne` and `Catalog.InStockAppend` state.

## Findings

| source | as written | input that shows it | evidently intended | confidence | as-written member | corrected member |
|---|---|---|---|---|---|---|
| Commerce/views.py:105 | `form.save(commit=False)` is called on `CheckoutForm`, a plain `forms.Form` (Commerce/forms.py:15) that has no `save`; the AttributeError escapes the atomic block, which rolls back, and the request ends in a server error | any POST of a valid form on a non-empty cart, e.g. the cash-on-delivery request of Scenarios.CashOnDeliveryCheckout | build the Order from the form's cleaned data (address and payment method) and place it | not executed | Store.CheckoutAsWritten, Scenarios.CheckoutAsWrittenFails | Store.Checkout, Store.CheckoutOrder |
