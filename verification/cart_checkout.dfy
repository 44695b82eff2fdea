/** `proceedToCheckout` (js/cart-management.js): the snapshot handed to the
    checkout page. The redirect itself is not modelled. */
module CartCheckout {
  import opened Wrappers
  import opened CartItems
  import opened CartPricing
  import opened CartEvents

  /** `window.checkoutData`: the items and the four derived amounts. */
  datatype CheckoutData = CheckoutData(items: Cart, subtotal: real, shipping: real, taxes: real, total: real)

  const EmptyCartMessage := "Your cart is empty"

  /** `proceedToCheckout`: an empty cart yields no snapshot; otherwise the
      snapshot holds the current items and amounts computed from them. */
  function ProceedToCheckout(c: Cart): (r: Result<CheckoutData, string>)
    ensures r.Failure? <==> |c| == 0
    ensures r.Failure? ==> r.error == EmptyCartMessage
    ensures r.Success? ==>
      && r.value.items == c
      && r.value.subtotal == Subtotal(c)
      && (r.value.shipping == 0.0 <==> r.value.subtotal >= FreeShippingThreshold)
      && (r.value.shipping != 0.0 ==> r.value.shipping == StandardShipping)
      && r.value.taxes == TaxRate * r.value.subtotal
      && r.value.total == r.value.subtotal + r.value.shipping + r.value.taxes
  {
    if |c| == 0 then Failure(EmptyCartMessage)
    else
      var subtotal := Subtotal(c);
      Success(CheckoutData(c, subtotal, Shipping(subtotal), Taxes(subtotal), subtotal + Shipping(subtotal) + Taxes(subtotal)))
  }

  /** A non-empty cart of positive prices and quantities checks out with a
      positive total. */
  lemma {:induction false} SubtotalPositive(c: Cart)
    requires |c| > 0
    requires forall k :: 0 <= k < |c| ==> c[k].price > 0.0 && c[k].quantity > 0
    ensures Subtotal(c) > 0.0
  {
    var p, q := c[0].price, c[0].quantity as real;
    assert p * q > 0.0;
    if |c| > 1 {
      SubtotalPositive(c[1..]);
    }
  }

  lemma CheckoutTotalPositive(c: Cart)
    requires |c| > 0
    requires forall k :: 0 <= k < |c| ==> c[k].price > 0.0 && c[k].quantity > 0
    ensures ProceedToCheckout(c).Success? && ProceedToCheckout(c).value.total > 0.0
  {
    SubtotalPositive(c);
  }

  /** The handler accepts a negative price and the checkout does not check
      the total, so a snapshot with a negative total can be handed on. */
  lemma CheckoutAdmitsNegativeTotal()
    ensures var a := ProductAttributes(Some("a"), Some("Soap A"), Some(-18.0), None, None);
      && HandleAddToCart([], a).Success?
      && ProceedToCheckout(HandleAddToCart([], a).value).Success?
      && ProceedToCheckout(HandleAddToCart([], a).value).value.total < 0.0
  {
    var item := LineItem("a", "Soap A", -18.0, "", 1);
    assert AddItem([], item) == [item];
    assert Subtotal([item]) == -18.0;
  }

  /** Empty cart, add Soap A at 18.00: one item, subtotal 18.00, shipping
      8.99, tax 2.34, total 29.33. */
  lemma SingleSoapScenario()
    ensures var a := ProductAttributes(Some("a"), Some("Soap A"), Some(18.0), None, None);
      var c := HandleAddToCart([], a).value;
      && HandleAddToCart([], a).Success?
      && ItemCount(c) == 1
      && ProceedToCheckout(c) == Success(CheckoutData(c, 18.0, 8.99, 2.34, 29.33))
  {
    var item := LineItem("a", "Soap A", 18.0, "", 1);
    assert AddItem([], item) == [item];
    assert Subtotal([item]) == 18.0;
  }

  /** Adding then removing the same id returns to the empty cart, which
      cannot be checked out. */
  lemma AddThenRemoveScenario(product: LineItem)
    ensures RemoveItem(AddItem([], product), product.id) == []
    ensures ItemCount(RemoveItem(AddItem([], product), product.id)) == 0
    ensures ProceedToCheckout(RemoveItem(AddItem([], product), product.id)).Failure?
  {
    assert AddItem([], product) == [product];
  }

  /** A cleared cart has no items, no count and cannot be checked out. */
  lemma ClearCartSnapshot(c: Cart)
    ensures Subtotal(ClearCart(c)) == 0.0 && ItemCount(ClearCart(c)) == 0
    ensures ProceedToCheckout(ClearCart(c)) == Failure(EmptyCartMessage)
  {
  }
}
