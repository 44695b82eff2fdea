/** The cart's button and input handlers (js/cart-management.js): the part of
    each handler that decides which store operation runs, with the DOM reads
    replaced by already-parsed parameters. */
module CartEvents {
  import opened Wrappers
  import opened CartItems

  /** The `data-*` attributes of an add-to-cart button after parsing. `None`
      is an absent attribute; for `price` it is also the NaN that `parseFloat`
      yields on unreadable text; for `quantity` it is an absent or empty
      attribute, which the source replaces by the text '1'. */
  datatype ProductAttributes = ProductAttributes(
    id: Option<string>,
    name: Option<string>,
    price: Option<real>,
    image: Option<string>,
    quantity: Option<int>)

  /** JavaScript truthiness of an optional string: present and non-empty. */
  predicate Truthy(s: Option<string>) {
    s.Some? && s.value != ""
  }

  /** JavaScript truthiness of a parsed number: neither NaN nor zero. */
  predicate TruthyNumber(x: Option<real>) {
    x.Some? && x.value != 0.0
  }

  const AddToCartError := "Error adding product to cart"

  /** The guard of `handleAddToCart`: id, name and price must all be truthy. */
  predicate AcceptsProduct(a: ProductAttributes) {
    Truthy(a.id) && Truthy(a.name) && TruthyNumber(a.price)
  }

  /** `handleAddToCart`: reject incomplete product data, leaving the cart as it
      is; otherwise add the product with image defaulting to '' and quantity to 1. */
  function HandleAddToCart(c: Cart, a: ProductAttributes): (r: Result<Cart, string>)
    ensures r.Failure? <==> !AcceptsProduct(a)
    ensures r.Failure? ==> r.error == AddToCartError
    ensures r.Success? ==>
      var id := a.id.value;
      && QuantityOf(r.value, id) == QuantityOf(c, id) + a.quantity.GetOr(1)
      && |c| <= |r.value|
      && (forall k :: 0 <= k < |c| && c[k].id != id ==> r.value[k] == c[k])
      && (!HasId(c, id) ==>
            r.value == c + [LineItem(id, a.name.value, a.price.value, a.image.GetOr(""), a.quantity.GetOr(1))])
      && (HasId(c, id) ==>
            var i := FindIndex(c, id).value;
            && |r.value| == |c|
            && r.value[i] == c[i].(quantity := c[i].quantity + a.quantity.GetOr(1))
            && forall k :: 0 <= k < |c| && k != i ==> r.value[k] == c[k])
  {
    if !AcceptsProduct(a) then Failure(AddToCartError)
    else
      var product := LineItem(a.id.value, a.name.value, a.price.value, a.image.GetOr(""), a.quantity.GetOr(1));
      AddItemQuantity(c, product);
      Success(AddItem(c, product))
  }

  /** The add-to-cart guard checks neither the sign of the price nor the
      quantity: a zero quantity is accepted and breaks the store invariant. */
  lemma AddToCartAdmitsZeroQuantity()
    ensures var a := ProductAttributes(Some("a"), Some("Soap A"), Some(-18.0), None, Some(0));
      && HandleAddToCart([], a) == Success([LineItem("a", "Soap A", -18.0, "", 0)])
      && !WellFormed(HandleAddToCart([], a).value)
  {
    var a := ProductAttributes(Some("a"), Some("Soap A"), Some(-18.0), None, Some(0));
    assert AcceptsProduct(a);
    assert AddItem([], LineItem("a", "Soap A", -18.0, "", 0)) == [LineItem("a", "Soap A", -18.0, "", 0)];
  }

  /** Ids stay unique whatever the handler is given. */
  lemma HandleAddToCartUniqueIds(c: Cart, a: ProductAttributes)
    requires UniqueIds(c)
    ensures HandleAddToCart(c, a).Success? ==> UniqueIds(HandleAddToCart(c, a).value)
  {
    if AcceptsProduct(a) {
      AddItemWellFormed(c, LineItem(a.id.value, a.name.value, a.price.value, a.image.GetOr(""), a.quantity.GetOr(1)));
    }
  }

  /** `handleRemoveFromCart`: a missing or empty product id does nothing. */
  function HandleRemoveFromCart(c: Cart, productId: Option<string>): (r: Cart)
    ensures !Truthy(productId) ==> r == c
    ensures Truthy(productId) ==> !HasId(r, productId.value) && forall x :: x in r <==> x in c && x.id != productId.value
    ensures Truthy(productId) ==> r == RemoveItem(c, productId.value)
  {
    if Truthy(productId) then RemoveItem(c, productId.value) else c
  }

  /** `handleQuantityUpdate`: the +/- buttons. 'increase' asks for one more,
      'decrease' for `max(0, q - 1)`; anything else, or an unknown id, does nothing. */
  function HandleQuantityUpdate(c: Cart, id: string, action: string): (r: Cart)
    ensures !HasId(c, id) || (action != "increase" && action != "decrease") ==> r == c
    ensures HasId(c, id) && action == "decrease" && QuantityOf(c, id) <= 1 ==> r == RemoveItem(c, id)
    ensures HasId(c, id) && action == "increase" && QuantityOf(c, id) < 0 ==> r == RemoveItem(c, id)
    ensures HasId(c, id) && ((action == "decrease" && QuantityOf(c, id) > 1) || (action == "increase" && QuantityOf(c, id) >= 0)) ==>
      var i := FindIndex(c, id).value;
      && |r| == |c|
      && r[i].quantity == (if action == "increase" then c[i].quantity + 1 else c[i].quantity - 1)
      && r[i] == c[i].(quantity := r[i].quantity)
      && forall k :: 0 <= k < |c| && k != i ==> r[k] == c[k]
  {
    match FindIndex(c, id)
    case None => c
    case Some(i) =>
      if action == "increase" then UpdateQuantity(c, id, c[i].quantity + 1)
      else if action == "decrease" then UpdateQuantity(c, id, if c[i].quantity - 1 > 0 then c[i].quantity - 1 else 0)
      else c
  }

  /** On a well-formed cart the +/- buttons keep the invariant, and
      'increase' never removes an entry. */
  lemma HandleQuantityUpdateWellFormed(c: Cart, id: string, action: string)
    requires WellFormed(c)
    ensures WellFormed(HandleQuantityUpdate(c, id, action))
    ensures action == "increase" ==> QuantityOf(HandleQuantityUpdate(c, id, action), id) == (if HasId(c, id) then QuantityOf(c, id) + 1 else 0)
  {
    match FindIndex(c, id)
    case None =>
    case Some(i) =>
      if action == "increase" || action == "decrease" {
        UpdateQuantityWellFormed(c, id, if action == "increase" then c[i].quantity + 1 else if c[i].quantity - 1 > 0 then c[i].quantity - 1 else 0);
      }
      if action == "increase" {
        assert FindIndex(HandleQuantityUpdate(c, id, action), id) == Some(i);
      }
  }

  /** `handleQuantityChange`: the typed quantity is `parseInt(value) || 0`, so
      unreadable text (NaN) and 0 both remove the entry. */
  function HandleQuantityChange(c: Cart, id: string, parsed: Option<int>): (r: Cart)
    ensures HasId(c, id) && (parsed.None? || parsed.value <= 0) ==> r == RemoveItem(c, id)
    ensures HasId(c, id) && parsed.Some? && parsed.value > 0 ==>
      var i := FindIndex(c, id).value;
      && QuantityOf(r, id) == parsed.value
      && |r| == |c|
      && r[i] == c[i].(quantity := parsed.value)
      && forall k :: 0 <= k < |c| && k != i ==> r[k] == c[k]
    ensures !HasId(c, id) ==> r == c
  {
    var quantity := parsed.GetOr(0);
    var r := UpdateQuantity(c, id, quantity);
    if HasId(c, id) && quantity > 0 then
      assert FindIndex(r, id) == FindIndex(c, id);
      r
    else r
  }
}
