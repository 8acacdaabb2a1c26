/**
 The cart as a list of line items keyed by product id, and the lists that each
 operation of the cart provider computes from it (src/hooks/cart.tsx).
 Everything here is a value; the provider object that holds the current list and
 the persisted record is in module CartProvider.
 */
module CartList {
  import opened Wrappers

  /** The bit pattern of the JavaScript number holding a price; the cart never computes on it. */
  datatype Price = Price(bits: bv64)

  /** A line item: `quantity` is optional, as in the source's `quantity?: number`. */
  datatype Product = Product(
    id: string,
    title: string,
    image_url: string,
    price: Price,
    quantity: Option<int>)

  /** JavaScript truthiness of an optional number: `undefined` and `0` are falsy. */
  predicate Truthy(q: Option<int>) {
    q.Some? && q.value != 0
  }

  predicate InCart(ps: seq<Product>, id: string) {
    exists k :: 0 <= k < |ps| && ps[k].id == id
  }

  /** No two entries share an id. */
  predicate UniqueIds(ps: seq<Product>) {
    forall j, k :: 0 <= j < k < |ps| ==> ps[j].id != ps[k].id
  }

  /** Every entry carries a quantity of at least one. */
  predicate PositiveQuantities(ps: seq<Product>) {
    forall p :: p in ps ==> p.quantity.Some? && p.quantity.value >= 1
  }

  /** The shape the cart is meant to keep: unique ids and positive quantities. */
  predicate WellFormed(ps: seq<Product>) {
    UniqueIds(ps) && PositiveQuantities(ps)
  }

  /** `products.find(item => item.id === id)`, as the index of the first match. */
  function Find(ps: seq<Product>, id: string): (r: Option<nat>)
    ensures r.None? ==> !InCart(ps, id)
    ensures r.Some? ==> r.value < |ps| && ps[r.value].id == id
    ensures r.Some? ==> forall k :: 0 <= k < r.value ==> ps[k].id != id
  {
    if |ps| == 0 then None
    else if ps[0].id == id then Some(0)
    else
      match Find(ps[1..], id)
      case None =>
        assert forall k :: 1 <= k < |ps| ==> ps[k] == ps[1..][k - 1];
        None
      case Some(k) => Some(k + 1)
  }

  /** `products.filter(item => item.id !== id)`. */
  function Without(ps: seq<Product>, id: string): (r: seq<Product>)
    ensures |r| <= |ps|
    ensures forall p :: p in r ==> p.id != id
  {
    if |ps| == 0 then []
    else if ps[0].id == id then Without(ps[1..], id)
    else [ps[0]] + Without(ps[1..], id)
  }

  /** The list `[...filteredProducts, {...ps[i], quantity: q}]` that every successful
      update builds: the entries carrying ps[i]'s id are dropped and a copy of ps[i]
      with quantity q goes last. */
  function Requeued(ps: seq<Product>, i: nat, q: int): seq<Product>
    requires i < |ps|
  {
    Without(ps, ps[i].id) + [ps[i].(quantity := Some(q))]
  }

  /** ps[i] with quantity q in its own place: the pre-call list as the in-place
      `product.quantity += 1` (or `-= 1`) leaves it. */
  function Patched(ps: seq<Product>, i: nat, q: int): seq<Product>
    requires i < |ps|
  {
    ps[i := ps[i].(quantity := Some(q))]
  }

  /** What one operation leaves behind: the new in-memory list, and the list it writes
      under the storage key. */
  datatype Update = Update(products: seq<Product>, written: seq<Product>)

  /** addToCart(item): bump the first entry with item's id and move it last, or append
      item with quantity 1; the write carries the list from before the call. */
  function AddToCartStep(ps: seq<Product>, item: Product): Update {
    match Find(ps, item.id)
    case Some(i) =>
      var q := ps[i].quantity;
      Update(Requeued(ps, i, if Truthy(q) then q.value + 1 else 1), ps)
    case None =>
      Update(ps + [item.(quantity := Some(1))], ps)
  }

  /** increment(id): only an entry whose quantity is truthy changes. */
  function IncrementStep(ps: seq<Product>, id: string): Update {
    match Find(ps, id)
    case Some(i) =>
      var q := ps[i].quantity;
      if Truthy(q) then Update(Requeued(ps, i, q.value + 1), Patched(ps, i, q.value + 1))
      else Update(ps, ps)
    case None => Update(ps, ps)
  }

  /** decrement(id): only an entry whose quantity is above one changes; none is removed. */
  function DecrementStep(ps: seq<Product>, id: string): Update {
    match Find(ps, id)
    case Some(i) =>
      var q := ps[i].quantity;
      if Truthy(q) && q.value > 1 then Update(Requeued(ps, i, q.value - 1), Patched(ps, i, q.value - 1))
      else Update(ps, ps)
    case None => Update(ps, ps)
  }
}
