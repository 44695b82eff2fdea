/** The derived cart figures of js/cart-management.js: subtotal, item count,
    shipping and tax. All amounts are exact rationals; the source's
    `toFixed(2)` happens only when rendering and is not part of this model. */
module CartPricing {
  import opened Wrappers
  import opened CartItems

  const FreeShippingThreshold: real := 50.0
  const StandardShipping: real := 8.99
  const TaxRate: real := 0.13

  /** Price times quantity of one entry. */
  function LineTotal(item: LineItem): real {
    item.price * item.quantity as real
  }

  /** Reference subtotal: the sum of the line totals. */
  function Subtotal(c: Cart): real {
    if |c| == 0 then 0.0 else LineTotal(c[0]) + Subtotal(c[1..])
  }

  /** Reference item count: the sum of the quantities. */
  function ItemCount(c: Cart): int {
    if |c| == 0 then 0 else c[0].quantity + ItemCount(c[1..])
  }

  lemma {:induction false} SubtotalAppend(a: Cart, b: Cart)
    ensures Subtotal(a + b) == Subtotal(a) + Subtotal(b)
  {
    if |a| == 0 {
      assert a + b == b;
    } else {
      assert (a + b)[1..] == a[1..] + b;
      SubtotalAppend(a[1..], b);
    }
  }

  lemma {:induction false} ItemCountAppend(a: Cart, b: Cart)
    ensures ItemCount(a + b) == ItemCount(a) + ItemCount(b)
  {
    if |a| == 0 {
      assert a + b == b;
    } else {
      assert (a + b)[1..] == a[1..] + b;
      ItemCountAppend(a[1..], b);
    }
  }

  /** `getTotal`: the source folds from the left with `reduce`; the result is
      the reference subtotal. */
  method GetTotal(c: Cart) returns (total: real)
    ensures total == Subtotal(c)
  {
    total := 0.0;
    var i := 0;
    while i < |c|
      invariant 0 <= i <= |c|
      invariant total == Subtotal(c[..i])
    {
      assert c[..i + 1] == c[..i] + [c[i]];
      SubtotalAppend(c[..i], [c[i]]);
      total := total + c[i].price * c[i].quantity as real;
      i := i + 1;
    }
    assert c[..i] == c;
  }

  /** `getItemCount`: a left fold over the quantities. */
  method GetItemCount(c: Cart) returns (count: int)
    ensures count == ItemCount(c)
  {
    count := 0;
    var i := 0;
    while i < |c|
      invariant 0 <= i <= |c|
      invariant count == ItemCount(c[..i])
    {
      assert c[..i + 1] == c[..i] + [c[i]];
      ItemCountAppend(c[..i], [c[i]]);
      count := count + c[i].quantity;
      i := i + 1;
    }
    assert c[..i] == c;
  }

  /** `calculateShipping`: free from a subtotal of 50 up, otherwise the flat rate. */
  function Shipping(subtotal: real): (r: real)
    ensures r == 0.0 <==> subtotal >= FreeShippingThreshold
    ensures r != 0.0 ==> r == StandardShipping
  {
    if subtotal >= FreeShippingThreshold then 0.0 else StandardShipping
  }

  /** `calculateTaxes`: 13% HST on the subtotal. */
  function Taxes(subtotal: real): (r: real)
    ensures r == TaxRate * subtotal
    ensures 0.0 <= subtotal ==> 0.0 <= r <= subtotal
  {
    subtotal * TaxRate
  }

  /** Order total as the summary and the checkout snapshot compute it:
      113% of the subtotal, plus the flat rate below the threshold. */
  function GrandTotal(subtotal: real): (r: real)
    ensures subtotal >= FreeShippingThreshold ==> r == subtotal * (1.0 + TaxRate)
    ensures subtotal < FreeShippingThreshold ==> r == subtotal * (1.0 + TaxRate) + StandardShipping
  {
    subtotal + Shipping(subtotal) + Taxes(subtotal)
  }

  /** Because shipping drops to 0 at the threshold, a larger subtotal can
      give a smaller order total. */
  lemma GrandTotalNotMonotone()
    ensures GrandTotal(49.0) > GrandTotal(FreeShippingThreshold)
  {
  }

  /** Replacing one entry changes the sums by exactly that entry's difference. */
  lemma SumsUpdate(c: Cart, i: nat, x: LineItem)
    requires i < |c|
    ensures Subtotal(c[i := x]) == Subtotal(c) - LineTotal(c[i]) + LineTotal(x)
    ensures ItemCount(c[i := x]) == ItemCount(c) - c[i].quantity + x.quantity
  {
    assert c == c[..i] + [c[i]] + c[i + 1..];
    assert c[i := x] == c[..i] + [x] + c[i + 1..];
    SubtotalAppend(c[..i] + [c[i]], c[i + 1..]);
    SubtotalAppend(c[..i], [c[i]]);
    SubtotalAppend(c[..i] + [x], c[i + 1..]);
    SubtotalAppend(c[..i], [x]);
    ItemCountAppend(c[..i] + [c[i]], c[i + 1..]);
    ItemCountAppend(c[..i], [c[i]]);
    ItemCountAppend(c[..i] + [x], c[i + 1..]);
    ItemCountAppend(c[..i], [x]);
  }

  /** Adding raises the item count by the added quantity, whether the id is
      new or already present. */
  lemma AddItemCount(c: Cart, product: LineItem)
    ensures ItemCount(AddItem(c, product)) == ItemCount(c) + product.quantity
  {
    match FindIndex(c, product.id)
    case None =>
      ItemCountAppend(c, [product]);
    case Some(i) =>
      SumsUpdate(c, i, c[i].(quantity := c[i].quantity + product.quantity));
  }

  /** Adding a new id raises the subtotal by the product's own line total. */
  lemma AddItemSubtotalNew(c: Cart, product: LineItem)
    requires !HasId(c, product.id)
    ensures Subtotal(AddItem(c, product)) == Subtotal(c) + LineTotal(product)
  {
    assert AddItem(c, product) == c + [product];
    SubtotalAppend(c, [product]);
    assert Subtotal([product]) == LineTotal(product) + Subtotal([]);
  }

  /** Raising a quantity by `q` adds the line total of `q` units at the entry's price. */
  lemma LineTotalGrow(x: LineItem, q: int)
    ensures LineTotal(x.(quantity := x.quantity + q)) == LineTotal(x) + LineTotal(x.(quantity := q))
  {
  }

  /** Raising one entry's quantity by `q` raises the subtotal by `q` units at that entry's price. */
  lemma SubtotalGrow(c: Cart, i: nat, q: int, grown: Cart)
    requires i < |c| && grown == c[i := c[i].(quantity := c[i].quantity + q)]
    ensures Subtotal(grown) == Subtotal(c) + LineTotal(c[i].(quantity := q))
  {
    var x := c[i].(quantity := c[i].quantity + q);
    SumsUpdate(c, i, x);
    LineTotalGrow(c[i], q);
  }

  /** Adding to a present id charges the added quantity at the STORED price
      of that entry; the product's own price is ignored. */
  lemma AddItemSubtotalExisting(c: Cart, product: LineItem, i: nat)
    requires FindIndex(c, product.id) == Some(i)
    ensures Subtotal(AddItem(c, product)) == Subtotal(c) + LineTotal(c[i].(quantity := product.quantity))
  {
    AddItemAt(c, product, i);
    SubtotalGrow(c, i, product.quantity, AddItem(c, product));
  }

  /** With unique ids, removing an entry subtracts exactly its line total and quantity. */
  lemma RemoveItemSums(c: Cart, id: string, i: nat)
    requires UniqueIds(c)
    requires i < |c| && c[i].id == id
    ensures Subtotal(RemoveItem(c, id)) == Subtotal(c) - LineTotal(c[i])
    ensures ItemCount(RemoveItem(c, id)) == ItemCount(c) - c[i].quantity
  {
    var a, b := c[..i], c[i + 1..];
    RemoveItemSplice(c, id, i);
    assert c == (a + [c[i]]) + b;
    SubtotalAppend(a + [c[i]], b);
    SubtotalAppend(a, [c[i]]);
    SubtotalAppend(a, b);
    assert Subtotal([c[i]]) == LineTotal(c[i]);
    ItemCountAppend(a + [c[i]], b);
    ItemCountAppend(a, [c[i]]);
    ItemCountAppend(a, b);
  }

  /** Setting a positive quantity moves the sums by that entry's change alone. */
  lemma UpdateQuantitySums(c: Cart, id: string, quantity: int, i: nat)
    requires quantity > 0 && FindIndex(c, id) == Some(i)
    ensures Subtotal(UpdateQuantity(c, id, quantity)) == Subtotal(c) + c[i].price * quantity as real - c[i].price * c[i].quantity as real
    ensures ItemCount(UpdateQuantity(c, id, quantity)) == ItemCount(c) + quantity - c[i].quantity
  {
    UpdateQuantityAt(c, id, quantity, i);
    QuantitySetSubtotal(c, i, quantity);
    SumsUpdate(c, i, c[i].(quantity := quantity));
  }

  /** Setting one entry's quantity moves the subtotal by that entry's change alone. */
  lemma QuantitySetSubtotal(c: Cart, i: nat, quantity: int)
    requires i < |c|
    ensures Subtotal(c[i := c[i].(quantity := quantity)]) == Subtotal(c) + c[i].price * quantity as real - c[i].price * c[i].quantity as real
  {
    SumsUpdate(c, i, c[i].(quantity := quantity));
  }

  /** A run of `addItem` calls, in order. */
  function AddAll(c: Cart, products: seq<LineItem>): Cart
    decreases |products|
  {
    if |products| == 0 then c else AddAll(AddItem(c, products[0]), products[1..])
  }

  /** Adding the same id repeatedly accumulates: the final quantity is the
      starting one plus the sum of the added quantities. */
  lemma {:induction false} AddAllSameId(c: Cart, products: seq<LineItem>, id: string)
    requires forall k :: 0 <= k < |products| ==> products[k].id == id
    ensures QuantityOf(AddAll(c, products), id) == QuantityOf(c, id) + ItemCount(products)
    ensures ItemCount(AddAll(c, products)) == ItemCount(c) + ItemCount(products)
    decreases |products|
  {
    if |products| > 0 {
      AddItemQuantity(c, products[0]);
      AddItemCount(c, products[0]);
      AddAllSameId(AddItem(c, products[0]), products[1..], id);
    }
  }
}
