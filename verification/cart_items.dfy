/** The line-item store of the shopping cart (js/cart-management.js): an ordered
    sequence of line items that only the operations below change. The source
    mutates `this.items` in place; here every operation returns the new cart. */
module CartItems {
  import opened Wrappers

  /** One cart entry, `{id, name, price, image, quantity}`. Prices are exact
      rationals, so no floating-point rounding is modelled. */
  datatype LineItem = LineItem(id: string, name: string, price: real, image: string, quantity: int)

  type Cart = seq<LineItem>

  /** Some entry carries `id`. */
  predicate HasId(c: Cart, id: string) {
    exists k :: 0 <= k < |c| && c[k].id == id
  }

  /** No id occurs twice. */
  predicate UniqueIds(c: Cart) {
    forall i, j :: 0 <= i < j < |c| ==> c[i].id != c[j].id
  }

  /** The store invariant: ids are unique and every quantity is at least 1. */
  predicate WellFormed(c: Cart) {
    UniqueIds(c) && forall k :: 0 <= k < |c| ==> c[k].quantity > 0
  }

  /** `items.find(item => item.id === id)`, as the index of the first match. */
  function FindIndex(c: Cart, id: string): (r: Option<nat>)
    ensures r.None? <==> !HasId(c, id)
    ensures r.Some? ==> r.value < |c| && c[r.value].id == id
    ensures r.Some? ==> forall k :: 0 <= k < r.value ==> c[k].id != id
  {
    if |c| == 0 then None
    else if c[0].id == id then Some(0)
    else
      match FindIndex(c[1..], id)
      case None =>
        assert forall k :: 1 <= k < |c| ==> c[k] == c[1..][k - 1];
        None
      case Some(k) => Some(k + 1)
  }

  /** In a cart with unique ids, the entry carrying `id` is the one `FindIndex` finds. */
  lemma FindIndexUnique(c: Cart, id: string, i: nat)
    requires UniqueIds(c)
    requires i < |c| && c[i].id == id
    ensures FindIndex(c, id) == Some(i)
  {
  }

  /** Quantity recorded for `id` (0 when absent). */
  function QuantityOf(c: Cart, id: string): int {
    match FindIndex(c, id)
    case None => 0
    case Some(i) => c[i].quantity
  }

  /** `addItem`: merge by id, adding `product.quantity` to the existing entry,
      or append a copy of `product` when its id is new. */
  function AddItem(c: Cart, product: LineItem): (r: Cart)
    ensures !HasId(c, product.id) ==> r == c + [product]
    ensures HasId(c, product.id) ==>
      var i := FindIndex(c, product.id).value;
      && |r| == |c|
      && r[i].quantity == c[i].quantity + product.quantity
      && r[i] == c[i].(quantity := r[i].quantity)
      && forall k :: 0 <= k < |c| && k != i ==> r[k] == c[k]
  {
    match FindIndex(c, product.id)
    case None => c + [product]
    case Some(i) => c[i := c[i].(quantity := c[i].quantity + product.quantity)]
  }

  /** Adding to a present id replaces that one entry. */
  lemma AddItemAt(c: Cart, product: LineItem, i: nat)
    requires FindIndex(c, product.id) == Some(i)
    ensures AddItem(c, product) == c[i := c[i].(quantity := c[i].quantity + product.quantity)]
  {
    var x := c[i].(quantity := c[i].quantity + product.quantity);
    var r := AddItem(c, product);
    assert |r| == |c|;
    forall k | 0 <= k < |c|
      ensures r[k] == c[i := x][k]
    {
    }
  }

  /** `removeItem`: keep exactly the entries whose id differs, in order. */
  function RemoveItem(c: Cart, id: string): (r: Cart)
    ensures forall k :: 0 <= k < |r| ==> r[k].id != id
    ensures forall x :: x in r <==> x in c && x.id != id
    ensures |r| <= |c|
    ensures !HasId(c, id) ==> r == c
  {
    if |c| == 0 then []
    else if c[0].id == id then RemoveItem(c[1..], id)
    else
      assert !HasId(c, id) ==> !HasId(c[1..], id) by {
        if HasId(c[1..], id) {
          var k :| 0 <= k < |c[1..]| && c[1..][k].id == id;
          assert c[k + 1].id == id;
        }
      }
      [c[0]] + RemoveItem(c[1..], id)
  }

  /** `updateQuantity`: an absent id changes nothing; a quantity of 0 or less
      removes the entry; a positive quantity replaces that entry's quantity. */
  function UpdateQuantity(c: Cart, id: string, quantity: int): (r: Cart)
    ensures !HasId(c, id) ==> r == c
    ensures HasId(c, id) && quantity <= 0 ==> r == RemoveItem(c, id)
    ensures HasId(c, id) && quantity > 0 ==>
      var i := FindIndex(c, id).value;
      && |r| == |c|
      && r[i] == c[i].(quantity := quantity)
      && forall k :: 0 <= k < |c| && k != i ==> r[k] == c[k]
  {
    match FindIndex(c, id)
    case None => c
    case Some(i) =>
      if quantity <= 0 then RemoveItem(c, id)
      else c[i := c[i].(quantity := quantity)]
  }

  /** Setting a positive quantity on a present id replaces that one entry. */
  lemma UpdateQuantityAt(c: Cart, id: string, quantity: int, i: nat)
    requires quantity > 0 && FindIndex(c, id) == Some(i)
    ensures UpdateQuantity(c, id, quantity) == c[i := c[i].(quantity := quantity)]
  {
  }

  /** `clearCart`: the cart becomes empty, whatever it held. */
  function ClearCart(c: Cart): (r: Cart)
    ensures forall id :: !HasId(r, id)
  {
    []
  }

  /** Removal distributes over concatenation: the surviving entries keep their order. */
  lemma {:induction false} RemoveItemAppend(a: Cart, b: Cart, id: string)
    ensures RemoveItem(a + b, id) == RemoveItem(a, id) + RemoveItem(b, id)
  {
    if |a| == 0 {
      assert a + b == b;
    } else {
      assert (a + b)[1..] == a[1..] + b;
      RemoveItemAppend(a[1..], b, id);
    }
  }

  /** With unique ids, removing a present id splices out exactly its entry. */
  lemma RemoveItemSplice(c: Cart, id: string, i: nat)
    requires UniqueIds(c)
    requires i < |c| && c[i].id == id
    ensures RemoveItem(c, id) == c[..i] + c[i + 1..]
  {
    var a, b := c[..i], c[i + 1..];
    assert c == a + ([c[i]] + b);
    assert !HasId(a, id);
    assert !HasId(b, id);
    RemoveItemAppend(a, [c[i]] + b, id);
    assert ([c[i]] + b)[1..] == b;
    assert RemoveItem([c[i]] + b, id) == RemoveItem(b, id);
  }

  /** An entry that survives removal was in the cart. */
  lemma RemovedFrom(c: Cart, id: string, x: LineItem) returns (m: nat)
    requires x in RemoveItem(c, id)
    ensures m < |c| && c[m] == x
  {
    m :| 0 <= m < |c| && c[m] == x;
  }

  /** Putting an entry with a fresh id in front keeps ids unique. */
  lemma ConsUnique(x: LineItem, rest: Cart)
    requires UniqueIds(rest) && !HasId(rest, x.id)
    ensures UniqueIds([x] + rest)
  {
    var r := [x] + rest;
    forall i, j | 0 <= i < j < |r|
      ensures r[i].id != r[j].id
    {
      assert r[j] == rest[j - 1];
      if i > 0 {
        assert r[i] == rest[i - 1];
      }
    }
  }

  /** Removal keeps ids unique. */
  lemma {:induction false} RemoveItemUnique(c: Cart, id: string)
    requires UniqueIds(c)
    ensures UniqueIds(RemoveItem(c, id))
  {
    if |c| > 0 {
      var tail := c[1..];
      RemoveItemUnique(tail, id);
      if c[0].id != id {
        var rest := RemoveItem(tail, id);
        forall k | 0 <= k < |rest|
          ensures rest[k].id != c[0].id
        {
          var m := RemovedFrom(tail, id, rest[k]);
          assert c[m + 1] == tail[m];
        }
        ConsUnique(c[0], rest);
      }
    }
  }

  /** Removal keeps the store invariant. */
  lemma RemoveItemWellFormed(c: Cart, id: string)
    requires WellFormed(c)
    ensures WellFormed(RemoveItem(c, id))
  {
    RemoveItemUnique(c, id);
    var r := RemoveItem(c, id);
    forall k | 0 <= k < |r|
      ensures r[k].quantity > 0
    {
      var m := RemovedFrom(c, id, r[k]);
    }
  }

  /** Adding keeps ids unique, and keeps the full invariant when the added
      quantity is positive. */
  lemma AddItemWellFormed(c: Cart, product: LineItem)
    requires UniqueIds(c)
    ensures UniqueIds(AddItem(c, product))
    ensures WellFormed(c) && product.quantity > 0 ==> WellFormed(AddItem(c, product))
  {
  }

  /** Updating a quantity keeps the invariant: a non-positive request removes
      the entry instead of storing the quantity. */
  lemma UpdateQuantityWellFormed(c: Cart, id: string, quantity: int)
    requires WellFormed(c)
    ensures WellFormed(UpdateQuantity(c, id, quantity))
  {
    if HasId(c, id) && quantity <= 0 {
      RemoveItemWellFormed(c, id);
    }
  }

  /** Repeated adds of one id accumulate: the recorded quantity grows by the added one. */
  lemma AddItemQuantity(c: Cart, product: LineItem)
    ensures QuantityOf(AddItem(c, product), product.id) == QuantityOf(c, product.id) + product.quantity
  {
    var r := AddItem(c, product);
    match FindIndex(c, product.id)
    case None =>
      assert r[|c|] == product;
      assert FindIndex(r, product.id) == Some(|c|);
    case Some(i) =>
      assert FindIndex(r, product.id) == Some(i);
  }
}
