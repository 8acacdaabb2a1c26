# Shopping-cart state container, modelled in Dafny

This project models the cart provider of a React Native storefront
(`src/hooks/cart.tsx`). The cart is an ordered list of line items (`Product`:
`id`, `title`, `image_url`, `price`, optional `quantity`), identified by `id`. Three
callbacks change it: `addToCart`, `increment` and `decrement`. A load step
replaces it with the snapshot persisted under the storage key `@gomarket`.

Modules:

- `Wrappers` (`wrappers.dfy`): `Option`, for the source's optional values.
- `CartList` (`cart_list.dfy`): the data model, `find` and `filter` as the
  functions `Find` and `Without`, and one function per callback
  (`AddToCartStep`, `IncrementStep`, `DecrementStep`). Each function returns the
  next in-memory list and the list written to storage.
- `CartProperties` (`cart_properties.dfy`): lemmas about those functions:
  - where the touched entry ends up and what happens to its neighbours;
  - exactly when an operation changes nothing;
  - what is written to storage;
  - that unique ids and positive quantities are preserved;
  - that decrement undoes increment up to position.
- `CartProvider` (`cart_store.dfy`): class `CartStore`. It has the fields
  `products` (the state `setProducts` replaces) and `stored` (the persisted
  record). Each method mirrors its callback, and its `ensures` ties the new
  state to the `CartList` functions and to the preserved invariants.

The model follows the code as written, including these behaviours:

- `addToCart` writes the list from *before* the call to storage, so the
  persisted cart lags one step behind. `AddToCartWriteLags` proves the written
  list always differs from the new in-memory cart.
- `increment` and `decrement` change the found entry in place. The list they
  write is the pre-call list, in pre-call order, but with the new quantity.
- Neither `increment` nor `decrement` ever removes an entry. `decrement` at
  quantity 1 (or with no quantity) changes nothing. `increment` on a falsy
  quantity (absent or 0) changes nothing. The code has no branch that removes
  an entry, although removing it in these cases would be the usual cart
  behaviour; the model follows the code.
- All three operations write to storage on every call, including when the
  in-memory cart is unchanged.
- A no-op `increment` or `decrement` writes the current cart, so it brings the
  stored record back in step after an `addToCart` left it one step behind.
  `CatchUpWalkthrough` shows this on a two-item session.
- JavaScript truthiness of the optional quantity is `Truthy`: absent and 0 are
  falsy. A negative quantity is truthy, so `increment` raises it and
  `addToCart` adds one to it.
- Under duplicate ids, which only a persisted snapshot could hold, `find` takes
  the first match and `filter` drops every match. A successful update then keeps
  only one entry for that id.

## Model

| member | source | states |
|---|---|---|
| CartList.Truthy | src/hooks/cart.tsx:57 | JavaScript truthiness of the optional quantity used by the tests at lines 57, 76 and 91: absent and 0 are falsy, every other number is truthy |
| CartList.Requeued | src/hooks/cart.tsx:53-61 | the list `[...filteredProducts, {...existing, quantity}]`: the list filtered of the entry's id, followed by a copy of the entry with the new quantity |
| CartList.Patched | src/hooks/cart.tsx:77 | the pre-call list as the in-place `product.quantity += 1` (or `-= 1` at line 92) leaves it: entry i with the new quantity, in its own place |
| CartList.AddToCartStep | src/hooks/cart.tsx:47-66 | the next cart and the written list of addToCart: the found entry bumped (or set to 1 when its quantity is falsy) and moved last, or the item appended with quantity 1; the write is the pre-call list |
| CartList.IncrementStep | src/hooks/cart.tsx:73-81 | the next cart and the written list of increment: when the first entry with the id has a truthy quantity, it is raised by one and moved last and the write is the pre-call list patched in place; otherwise both are the current cart |
| CartList.DecrementStep | src/hooks/cart.tsx:88-96 | the next cart and the written list of decrement: when the first entry with the id has a quantity above 1, it is lowered by one and moved last and the write is the pre-call list patched in place; otherwise both are the current cart |
| CartList.Find | src/hooks/cart.tsx:47 | when `find` yields no index, no entry has the id; otherwise it yields an index whose entry has the id, with no earlier entry having it |
| CartProperties.FindIsFirstAt | src/hooks/cart.tsx:47 | `find` yields the first index carrying the id whenever there is one, so its result is absent exactly when the id is not in the cart |
| CartList.Without | src/hooks/cart.tsx:49-51 | `filter` never grows the list and no entry it keeps has the id |
| CartProperties.WithoutSubset | src/hooks/cart.tsx:49-51 | every entry `filter` keeps was in the list it was given |
| CartProperties.WithoutKeepsOthers | src/hooks/cart.tsx:49-51 | every entry of the list whose id differs is kept by `filter` |
| CartProperties.WithoutAbsent | src/hooks/cart.tsx:49-51 | `filter` returns a list that does not hold the id unchanged |
| CartProperties.WithoutAppend | src/hooks/cart.tsx:49-51 | filtering a concatenation is the concatenation of the filtered parts |
| CartProperties.WithoutSingle | src/hooks/cart.tsx:49-51 | when only one entry has the id, filtering removes exactly that entry and keeps the others in their order |
| CartProperties.WithoutKeepsUnique | src/hooks/cart.tsx:49-51 | filtering a list with unique ids yields a list with unique ids |
| CartProperties.RequeuedShape | src/hooks/cart.tsx:53-61 | `[...filtered, updated]` holds exactly one entry with the id, last, carrying the new quantity; the entries without that id are unchanged and keep their order; with unique ids the result is the list minus that entry, plus the updated entry |
| CartProperties.RequeuedKeepsWellFormed | src/hooks/cart.tsx:53-61 | the move-to-end update preserves unique ids, and preserves positive quantities when the new quantity is positive |
| CartProperties.RequeuedDiffers | src/hooks/cart.tsx:53-61 | a move-to-end update that changes the quantity never gives back the original list |
| CartProperties.AddToCartAbsent | src/hooks/cart.tsx:62-66 | adding an id not in the cart appends the item with quantity 1 and leaves every earlier entry in place; storage receives the pre-call list |
| CartProperties.AddToCartPresent | src/hooks/cart.tsx:47-66 | adding an id already present leaves one entry with that id, last. Its fields come from the existing entry and its quantity is q+1, or 1 when q was absent or 0. The other entries keep their order. Storage receives the pre-call list |
| CartProperties.AddToCartOnlyAndLast | src/hooks/cart.tsx:47-64 | after any addToCart exactly one entry has the item's id and it is last |
| CartProperties.AddToCartWriteLags | src/hooks/cart.tsx:53-66 | the list addToCart persists is never the cart it leaves in memory |
| CartProperties.AddToCartKeepsWellFormed | src/hooks/cart.tsx:47-64 | addToCart preserves unique ids and quantities of at least 1 |
| CartProperties.IncrementPresent | src/hooks/cart.tsx:73-81 | increment of an entry with truthy quantity q moves it last with q+1 and keeps the others in order. Storage receives the pre-call list in pre-call order, with only that entry's quantity raised |
| CartProperties.IncrementUnchanged | src/hooks/cart.tsx:73-81 | increment leaves the cart unchanged and writes that same cart to storage if and only if the id is absent or its first entry's quantity is falsy |
| CartProperties.IncrementKeepsWellFormed | src/hooks/cart.tsx:73-81 | increment preserves unique ids and quantities of at least 1, both in the new cart and in the record it writes to storage |
| CartProperties.IncrementWriteSameEntries | src/hooks/cart.tsx:76-81 | with unique ids, the list increment persists holds the same entries as the in-memory cart, in possibly different order |
| CartProperties.DecrementPresent | src/hooks/cart.tsx:88-96 | decrement of an entry with quantity q > 1 moves it last with q-1 and keeps the others in order. Storage receives the pre-call list in pre-call order, with only that entry's quantity lowered |
| CartProperties.DecrementUnchanged | src/hooks/cart.tsx:88-96 | decrement leaves the cart unchanged and writes that same cart to storage if and only if the id is absent or its first entry's quantity is absent or at most 1; no entry is removed |
| CartProperties.DecrementKeepsWellFormed | src/hooks/cart.tsx:88-96 | decrement preserves unique ids and quantities of at least 1, both in the new cart and in the record it writes to storage |
| CartProperties.DecrementWriteSameEntries | src/hooks/cart.tsx:91-96 | with unique ids, the list decrement persists holds the same entries as the in-memory cart, in possibly different order |
| CartProperties.PatchedKeepsWellFormed | src/hooks/cart.tsx:76-81 | the in-place quantity update of the pre-call list keeps ids unique for any new quantity, and keeps quantities at least 1 when the new quantity is at least 1 |
| CartProperties.PatchedIsRequeuedReordered | src/hooks/cart.tsx:76-81 | with unique ids, the in-place patched list and the moved-to-end list hold the same entries |
| CartProperties.DecrementUndoesIncrement | src/hooks/cart.tsx:71-99 | in a well-formed cart, decrement after increment restores the entry with its old quantity, moved last |
| CartProperties.DecrementUndoesIncrementAt | src/hooks/cart.tsx:71-99 | whenever the first entry with the id has a quantity of at least 1, decrement after increment restores that entry, moved last after the other entries |
| CartProperties.DecrementUndoesIncrementSameEntries | src/hooks/cart.tsx:71-99 | in a well-formed cart, decrement after increment gives back the same entries |
| CartProperties.DecrementLast | src/hooks/cart.tsx:88-93 | decrement of the id that only the last entry has, with quantity above 1, lowers that entry in place at the end |
| CartProvider.CartStore.constructor | src/hooks/cart.tsx:29 | the provider mounts with an empty cart over the existing storage record; the object is `Valid` (cart and record well-formed) when that record is well-formed |
| CartProvider.CartStore.LoadProducts | src/hooks/cart.tsx:31-43 | the cart becomes the persisted list when one exists, the empty list otherwise; storage is untouched; `Valid` is preserved, so a well-formed record reloads as a well-formed cart |
| CartProvider.CartStore.AddToCart | src/hooks/cart.tsx:45-69 | the new cart is `AddToCartStep`'s and holds the item's id once, last; storage holds the pre-call cart, which differs from the new one; a well-formed cart leaves both the new cart and the record well-formed, and `Valid` is preserved |
| CartProvider.CartStore.Increment | src/hooks/cart.tsx:71-84 | the new cart and the written list are `IncrementStep`'s; a well-formed cart leaves both the new cart and the written record well-formed, and `Valid` is preserved; with unique ids storage holds the same entries as the cart |
| CartProvider.CartStore.Decrement | src/hooks/cart.tsx:86-99 | the new cart and the written list are `DecrementStep`'s; a well-formed cart leaves both the new cart and the written record well-formed, and `Valid` is preserved; with unique ids storage holds the same entries as the cart |

## Left out

- React plumbing (`createContext`, `useState`, `useCallback`, `useMemo`, `useEffect`, the JSX provider) at src/hooks/cart.tsx:26-29 and 101-106 is framework glue. `setProducts` is plain assignment to `products`.
- The `useCart` guard that throws outside a provider (src/hooks/cart.tsx:109-117) has no cart logic.
- Storage I/O is asynchronous and the writes are not awaited, so writes could interleave. The model overwrites `stored` synchronously at the end of each call.
- `JSON.stringify` and `JSON.parse` are not modelled, and neither is a malformed stored record. The stored value is an abstract list of products.
- Storage is modelled as the one record under `@gomarket`, not as a general key-value store.
- `price` is a JavaScript number that the cart never computes on. It is kept as an opaque 64-bit pattern.
- Quantities are unbounded integers. NaN, fractional values, and floating-point rounding above 2^53 are not modelled.
- Object identity is modelled by value. The one aliasing effect of the source, the in-place quantity update seen through the pre-call array, appears as the patched list written to storage. Any other reference a caller might keep to a cart object is not modelled.
- Each callback is modelled as seeing the cart the previous call left. In the source the callbacks close over `products` through `useCallback(..., [products])` (src/hooks/cart.tsx:68, 83, 98), so two calls made before a re-render both start from the same list, which for `increment` and `decrement` has already been mutated in place. That interleaving is React render timing and is not modelled.
- `addToCart` copies every field of the item it receives. Fields beyond those of `Product` are not modelled.
