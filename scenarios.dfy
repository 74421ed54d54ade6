/**
 Concrete runs of the checkout: the happy path with cash on delivery, a card
 payment without a card number, an over-sold product, and the same happy path
 through the view as written.
 */
module Scenarios {
  import opened Wrappers
  import Forms
  import opened Store

  /** Product 10 costs 10.00 with 5 in stock, product 20 costs 3.50 with 1 in stock; user 7 holds 2 and 1 of them. */
  function TwoProductShop(): (s: Shop)
    ensures Valid(s) && 7 in s.carts && Enumerates([10, 20], s.carts[7])
  {
    var cart := map[10 := Line(0, 2), 20 := Line(1, 1)];
    var s := Shop({1}, map[10 := Product(1000, 5, 1), 20 := Product(350, 1, 1)], map[7 := cart], 2, []);
    assert DistinctIds(cart) by {
      forall p, q | p in cart && q in cart && p != q ensures cart[p].id != cart[q].id {
        assert p == 10 || p == 20;
      }
    }
    OneCartValid(s, 7);
    s
  }

  /** A state with a single cart is valid when that cart is. */
  lemma OneCartValid(s: Shop, u: UserId)
    requires s.carts.Keys == {u} && ValidCart(s.carts[u], s.products, s.nextItem)
    ensures Valid(s)
  {
    forall v
      ensures ValidCart(RowsOf(s, v), s.products, s.nextItem)
    {
      if v != u {
        assert v !in s.carts;
      }
    }
  }

  function CashForm(): Forms.Submission {
    Forms.Submission("12 Ring Road, Accra", "cash_on_delivery", "", "", "")
  }

  lemma CashFormValid()
    ensures Forms.Validate(CashForm()).Success?
  {
    assert CashForm().paymentMethod in {"mobile_money", "cash_on_delivery"};
  }

  /** Cash on delivery: a total of 23.50, stock 5 - 2 and 1 - 1, an empty cart. */
  lemma CashOnDeliveryCheckout()
    ensures var r := Checkout(TwoProductShop(), 7, true, CashForm(), [10, 20]);
      && r.Success?
      && |r.value.orders| == 1
      && r.value.orders[0].total == 2350
      && r.value.orders[0].items == [OrderItem(10, 2, 1000), OrderItem(20, 1, 350)]
      && r.value.products[10].stock == 3
      && r.value.products[20].stock == 0
      && CartOf(r.value, 7) == map[]
  {
    var s := TwoProductShop();
    CashFormValid();
    assert 10 in s.carts[7];
    var cart := s.carts[7];
    assert [10, 20][..1] == [10];
    assert [10][..0] == [];
    assert CartTotal(s.products, cart, [10, 20]) == 2350;
    assert Snapshot(s.products, cart, [10, 20]) == [OrderItem(10, 2, 1000), OrderItem(20, 1, 350)];
    var taken := Deduct(s.products, cart, [10, 20]);
    assert taken[10].stock == 3 && taken[20].stock == 0;
    var s' := Checkout(s, 7, true, CashForm(), [10, 20]).value;
    assert s' == Place(s, 7, Forms.Validate(CashForm()).value, [10, 20]);
    assert CartOf(s', 7).Keys == {};
  }

  /** A credit card without a number is refused with the card-number error and the shop is left as it was. */
  lemma CardWithoutNumberRefused()
    ensures var f := Forms.Submission("12 Ring Road, Accra", "credit_card", "", "12/27", "123");
      var r := Checkout(TwoProductShop(), 7, true, f, [10, 20]);
      && r == Failure(InvalidForm(Forms.CardNumberRequired))
      && After(r, TwoProductShop()) == TwoProductShop()
  {
    var f := Forms.Submission("12 Ring Road, Accra", "credit_card", "", "12/27", "123");
    assert Forms.IsCardValue(f.paymentMethod);
    assert 10 in TwoProductShop().carts[7];
  }

  /** Nothing checks stock: buying 2 of a product with 1 in stock leaves its stock at -1. */
  lemma CheckoutOversells()
    ensures var s := Shop({1}, map[20 := Product(350, 1, 1)], map[7 := map[20 := Line(0, 2)]], 1, []);
      && Valid(s) && Enumerates([20], s.carts[7])
      && Checkout(s, 7, true, CashForm(), [20]).Success?
      && Checkout(s, 7, true, CashForm(), [20]).value.products[20].stock == -1
  {
    var s := Shop({1}, map[20 := Product(350, 1, 1)], map[7 := map[20 := Line(0, 2)]], 1, []);
    CashFormValid();
    assert 20 in s.carts[7];
    assert [20][..0] == [];
  }

  /** The view as written answers the same valid request with a server error and places nothing. */
  lemma CheckoutAsWrittenFails()
    ensures Checkout(TwoProductShop(), 7, true, CashForm(), [10, 20]).Success?
    ensures CheckoutAsWritten(TwoProductShop(), 7, true, CashForm()) == Failure(ServerError)
  {
    CashFormValid();
    assert 10 in TwoProductShop().carts[7];
  }
}
