/**
 The cart provider of src/hooks/cart.tsx as an object. `products` is the state that
 `setProducts` replaces; `stored` is the record kept under the storage key "@gomarket"
 (None while nothing has been written). Each method does what the callback of the
 same name does, with the unawaited storage write taken as an assignment made at the
 end of the call.
 */
module CartProvider {
  import opened Wrappers
  import opened CartList
  import opened CartProperties

  class CartStore {
    var products: seq<Product>
    var stored: Option<seq<Product>>

    /** The cart and the record it will be reloaded from both have unique ids and
        quantities of at least one. */
    predicate Valid()
      reads this
    {
      WellFormed(products) && (stored.Some? ==> WellFormed(stored.value))
    }

    /** The provider as mounted: an empty cart over whatever an earlier session left in storage. */
    constructor (persisted: Option<seq<Product>>)
      ensures products == [] && stored == persisted
      ensures (persisted.Some? ==> WellFormed(persisted.value)) ==> Valid()
    {
      products := [];
      stored := persisted;
    }

    /** loadProducts: replace the cart by the persisted list, or by the empty list when
        storage holds none; storage itself is only read. */
    method LoadProducts()
      modifies this
      ensures old(stored).Some? ==> products == old(stored).value
      ensures old(stored).None? ==> products == []
      ensures stored == old(stored)
      ensures old(Valid()) ==> Valid()
    {
      var storeProducts := stored;
      if storeProducts.Some? {
        products := storeProducts.value;
        return;
      }
      products := [];
    }

    /** addToCart: bump and move last the entry with item's id, or append item with
        quantity 1; the write stores the list as it was before the call. */
    method AddToCart(item: Product)
      modifies this
      ensures products == AddToCartStep(old(products), item).products
      ensures stored == Some(old(products))
      ensures OnlyAndLast(products, item.id)
      ensures stored.value != products
      ensures WellFormed(old(products)) ==> WellFormed(products) && WellFormed(stored.value)
      ensures old(Valid()) ==> Valid()
    {
      var snapshot := products;
      var productExistsInCart := Find(products, item.id);
      if productExistsInCart.Some? {
        var existing := products[productExistsInCart.value];
        var filteredProducts := Without(products, item.id);
        var q := if Truthy(existing.quantity) then existing.quantity.value + 1 else 1;
        products := filteredProducts + [existing.(quantity := Some(q))];
      } else {
        products := products + [item.(quantity := Some(1))];
      }
      stored := Some(snapshot);
      AddToCartOnlyAndLast(snapshot, item);
      AddToCartWriteLags(snapshot, item);
      if WellFormed(snapshot) {
        AddToCartKeepsWellFormed(snapshot, item);
      }
    }

    /** increment: an entry with a truthy quantity gets one more and moves last. The
        entry is updated in place, so the list written to storage, which is the list
        from before the call, already shows the new quantity at the old position. */
    method Increment(id: string)
      modifies this
      ensures products == IncrementStep(old(products), id).products
      ensures stored == Some(IncrementStep(old(products), id).written)
      ensures WellFormed(old(products)) ==> WellFormed(products) && WellFormed(stored.value)
      ensures old(Valid()) ==> Valid()
      ensures UniqueIds(old(products)) ==> multiset(stored.value) == multiset(products)
    {
      var snapshot := products;
      var found := Find(products, id);
      var filteredProducts := Without(products, id);
      if found.Some? && Truthy(products[found.value].quantity) {
        var i := found.value;
        var product := products[i].(quantity := Some(products[i].quantity.value + 1));
        snapshot := snapshot[i := product];
        products := filteredProducts + [product];
      }
      stored := Some(snapshot);
      if WellFormed(old(products)) {
        IncrementKeepsWellFormed(old(products), id);
      }
      if UniqueIds(old(products)) {
        IncrementWriteSameEntries(old(products), id);
      }
    }

    /** decrement: an entry with a quantity above one gets one less and moves last; no
        entry is ever removed. Storage receives the pre-call list with the in-place
        update already applied. */
    method Decrement(id: string)
      modifies this
      ensures products == DecrementStep(old(products), id).products
      ensures stored == Some(DecrementStep(old(products), id).written)
      ensures WellFormed(old(products)) ==> WellFormed(products) && WellFormed(stored.value)
      ensures old(Valid()) ==> Valid()
      ensures UniqueIds(old(products)) ==> multiset(stored.value) == multiset(products)
    {
      var snapshot := products;
      var found := Find(products, id);
      var filteredProducts := Without(products, id);
      if found.Some? && Truthy(products[found.value].quantity) && products[found.value].quantity.value > 1 {
        var i := found.value;
        var product := products[i].(quantity := Some(products[i].quantity.value - 1));
        snapshot := snapshot[i := product];
        products := filteredProducts + [product];
      }
      stored := Some(snapshot);
      if WellFormed(old(products)) {
        DecrementKeepsWellFormed(old(products), id);
      }
      if UniqueIds(old(products)) {
        DecrementWriteSameEntries(old(products), id);
      }
    }
  }

  /** A session driven through the provider: after each addToCart the cart in storage
      lags one step behind the one in memory. */
  method SessionWalkthrough(shirt: Product)
  {
    var cart := new CartStore(None);
    cart.LoadProducts();
    assert cart.products == [];

    cart.AddToCart(shirt);
    var one := shirt.(quantity := Some(1));
    assert cart.products == [one];
    assert cart.stored == Some([]);

    cart.AddToCart(shirt);
    var two := shirt.(quantity := Some(2));
    assert cart.products == [two];
    assert cart.stored == Some([one]);
  }

  /** A session over a persisted cart: decrement at quantity 1 keeps the entry, and the
      next mount loads the record the last call wrote. */
  method RemountWalkthrough(shirt: Product)
  {
    var two := shirt.(quantity := Some(2));
    var one := shirt.(quantity := Some(1));
    var cart := new CartStore(Some([two]));
    cart.LoadProducts();
    assert cart.products == [two];

    cart.Decrement(shirt.id);
    assert cart.products == [one];
    cart.Decrement(shirt.id);
    assert cart.products == [one];

    var remount := new CartStore(cart.stored);
    remount.LoadProducts();
    assert remount.products == [one];
  }

  /** A no-op increment still writes the cart, which brings storage back in step after
      addToCart left it one step behind. */
  method CatchUpWalkthrough(shirt: Product, other: string)
    requires other != shirt.id
  {
    var cart := new CartStore(None);
    cart.AddToCart(shirt);
    var one := shirt.(quantity := Some(1));
    assert cart.products == [one];
    assert cart.stored == Some([]);

    cart.Increment(other);
    assert cart.products == [one];
    assert cart.stored == Some([one]);
  }
}
