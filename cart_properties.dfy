/**
 What the cart operations of src/hooks/cart.tsx guarantee, proved about the
 functions of module CartList: where the touched entry ends up, what happens to
 its neighbours, when an operation changes nothing, what is written to storage,
 and that unique ids and positive quantities survive every operation.
 */
module CartProperties {
  import opened Wrappers
  import opened CartList

  /** i is the index that `find` returns for id. */
  predicate FirstAt(ps: seq<Product>, id: string, i: nat) {
    i < |ps| && ps[i].id == id && forall k :: 0 <= k < i ==> ps[k].id != id
  }

  /** r holds exactly one entry with id, and it is the last one. */
  predicate OnlyAndLast(r: seq<Product>, id: string) {
    |r| > 0 && r[|r| - 1].id == id && forall k :: 0 <= k < |r| - 1 ==> r[k].id != id
  }

  lemma FindIsFirstAt(ps: seq<Product>, id: string, i: nat)
    requires FirstAt(ps, id, i)
    ensures Find(ps, id) == Some(i)
  {
  }

  // ---- filter ----

  lemma {:induction false} WithoutAppend(a: seq<Product>, b: seq<Product>, id: string)
    ensures Without(a + b, id) == Without(a, id) + Without(b, id)
  {
    if |a| == 0 {
      assert a + b == b;
    } else {
      assert (a + b)[0] == a[0];
      assert (a + b)[1..] == a[1..] + b;
      WithoutAppend(a[1..], b, id);
    }
  }

  /** filter leaves a list without the id unchanged. */
  lemma {:induction false} WithoutAbsent(ps: seq<Product>, id: string)
    requires !InCart(ps, id)
    ensures Without(ps, id) == ps
  {
    if |ps| > 0 {
      assert ps[0].id != id;
      assert !InCart(ps[1..], id) by {
        forall k | 0 <= k < |ps| - 1 ensures ps[1..][k].id != id {
          assert ps[1..][k] == ps[k + 1];
        }
      }
      WithoutAbsent(ps[1..], id);
      assert ps == [ps[0]] + ps[1..];
    }
  }

  /** filter keeps only entries of the list it is given. */
  lemma {:induction false} WithoutSubset(ps: seq<Product>, id: string, p: Product)
    requires p in Without(ps, id)
    ensures p in ps
  {
    if ps[0] != p {
      if ps[0].id != id {
        assert p in Without(ps[1..], id);
      }
      WithoutSubset(ps[1..], id, p);
    }
  }

  /** filter keeps every entry whose id differs. */
  lemma {:induction false} WithoutKeepsOthers(ps: seq<Product>, id: string, p: Product)
    requires p in ps && p.id != id
    ensures p in Without(ps, id)
  {
    if ps[0] != p {
      assert p in ps[1..] by {
        var k :| 0 <= k < |ps| && ps[k] == p;
        assert ps[1..][k - 1] == p;
      }
      WithoutKeepsOthers(ps[1..], id, p);
    }
  }

  /** When only ps[i] carries its id, filtering it out keeps everything else in order. */
  lemma WithoutSingle(ps: seq<Product>, i: nat)
    requires i < |ps|
    requires forall k :: 0 <= k < |ps| && k != i ==> ps[k].id != ps[i].id
    ensures Without(ps, ps[i].id) == ps[..i] + ps[i + 1..]
  {
    var front, x, back := ps[..i], ps[i], ps[i + 1..];
    assert !InCart(front, x.id) by {
      forall k | 0 <= k < |front| ensures front[k].id != x.id {
        assert front[k] == ps[k];
      }
    }
    assert !InCart(back, x.id) by {
      forall k | 0 <= k < |back| ensures back[k].id != x.id {
        assert back[k] == ps[i + 1 + k];
      }
    }
    WithoutSplit(front, x, back);
    assert ps == front + [x] + back;
  }

  /** Filtering out the id of the one entry that carries it joins what was around it. */
  lemma WithoutSplit(front: seq<Product>, x: Product, back: seq<Product>)
    requires !InCart(front, x.id) && !InCart(back, x.id)
    ensures Without(front + [x] + back, x.id) == front + back
  {
    WithoutAppend(front + [x], back, x.id);
    WithoutAppend(front, [x], x.id);
    assert Without([x], x.id) == [] by {
      assert [x][1..] == [];
    }
    WithoutAbsent(front, x.id);
    WithoutAbsent(back, x.id);
  }

  lemma UniqueIsSingle(ps: seq<Product>, i: nat)
    requires UniqueIds(ps) && i < |ps|
    ensures Without(ps, ps[i].id) == ps[..i] + ps[i + 1..]
  {
    forall k | 0 <= k < |ps| && k != i ensures ps[k].id != ps[i].id {
      if k < i {
        assert ps[k].id != ps[i].id;
      } else {
        assert ps[i].id != ps[k].id;
      }
    }
    WithoutSingle(ps, i);
  }

  lemma {:induction false} WithoutKeepsUnique(ps: seq<Product>, id: string)
    requires UniqueIds(ps)
    ensures UniqueIds(Without(ps, id))
  {
    if |ps| > 0 {
      TailUnique(ps);
      WithoutKeepsUnique(ps[1..], id);
      if ps[0].id != id {
        forall p | p in Without(ps[1..], id) ensures p.id != ps[0].id {
          WithoutSubset(ps[1..], id, p);
        }
        ConsUnique(ps[0], Without(ps[1..], id));
      }
    }
  }

  lemma TailUnique(ps: seq<Product>)
    requires UniqueIds(ps) && |ps| > 0
    ensures UniqueIds(ps[1..])
    ensures forall p :: p in ps[1..] ==> p.id != ps[0].id
  {
    var t := ps[1..];
    forall j, k | 0 <= j < k < |t| ensures t[j].id != t[k].id {
      assert t[j] == ps[j + 1] && t[k] == ps[k + 1];
    }
    forall p | p in t ensures p.id != ps[0].id {
      var k :| 0 <= k < |t| && t[k] == p;
      assert t[k] == ps[k + 1];
    }
  }

  lemma ConsUnique(x: Product, w: seq<Product>)
    requires UniqueIds(w) && forall p :: p in w ==> p.id != x.id
    ensures UniqueIds([x] + w)
  {
    var r := [x] + w;
    forall j, k | 0 <= j < k < |r| ensures r[j].id != r[k].id {
      assert r[k] == w[k - 1];
      if j == 0 {
        assert w[k - 1] in w;
      } else {
        assert r[j] == w[j - 1];
      }
    }
  }

  // ---- the shared move-to-end update ----

  /** The updated entry is the only one with its id and is last, and the entries before
      it are those of ps that do not carry that id, unchanged and in their old order;
      with unique ids they are ps without ps[i]. */
  lemma RequeuedShape(ps: seq<Product>, i: nat, q: int)
    requires i < |ps|
    ensures var r := Requeued(ps, i, q);
      OnlyAndLast(r, ps[i].id) &&
      r[|r| - 1] == ps[i].(quantity := Some(q)) &&
      r[..|r| - 1] == Without(ps, ps[i].id) &&
      Without(r, ps[i].id) == Without(ps, ps[i].id) &&
      (UniqueIds(ps) ==> r[..|r| - 1] == ps[..i] + ps[i + 1..])
  {
    var id := ps[i].id;
    if UniqueIds(ps) {
      UniqueIsSingle(ps, i);
    }
    var w := Without(ps, id);
    var x := ps[i].(quantity := Some(q));
    assert !InCart(w, id) by {
      forall k | 0 <= k < |w| ensures w[k].id != id {
        assert w[k] in w;
      }
    }
    AppendedLast(w, x);
    assert (w + [x])[..|w|] == w;
  }

  /** Appending an entry whose id the list lacks makes it the only one with that id, and
      filtering that id out again gives back the list. */
  lemma AppendedLast(w: seq<Product>, x: Product)
    requires !InCart(w, x.id)
    ensures OnlyAndLast(w + [x], x.id)
    ensures Without(w + [x], x.id) == w
  {
    forall k | 0 <= k < |w| ensures (w + [x])[k].id != x.id {
      assert (w + [x])[k] == w[k];
    }
    WithoutAppend(w, [x], x.id);
    WithoutAbsent(w, x.id);
    assert Without([x], x.id) == [] by {
      assert [x][1..] == [];
    }
  }

  /** The move-to-end update keeps unique ids, and positive quantities when q is positive. */
  lemma RequeuedKeepsWellFormed(ps: seq<Product>, i: nat, q: int)
    requires i < |ps|
    ensures UniqueIds(ps) ==> UniqueIds(Requeued(ps, i, q))
    ensures PositiveQuantities(ps) && q >= 1 ==> PositiveQuantities(Requeued(ps, i, q))
  {
    var id := ps[i].id;
    var w := Without(ps, id);
    var r := Requeued(ps, i, q);
    RequeuedShape(ps, i, q);
    if UniqueIds(ps) {
      WithoutKeepsUnique(ps, id);
      forall j, k | 0 <= j < k < |r| ensures r[j].id != r[k].id {
        if k < |r| - 1 {
          assert r[j] == w[j] && r[k] == w[k];
        }
      }
    }
    if PositiveQuantities(ps) && q >= 1 {
      forall p | p in r ensures p.quantity.Some? && p.quantity.value >= 1 {
        if p in w {
          WithoutSubset(ps, id, p);
        }
      }
    }
  }

  /** A move-to-end update that changes the quantity never gives back the list it started from. */
  lemma RequeuedDiffers(ps: seq<Product>, i: nat, q: int)
    requires i < |ps| && ps[i].quantity != Some(q)
    ensures Requeued(ps, i, q) != ps
  {
    var r := Requeued(ps, i, q);
    RequeuedShape(ps, i, q);
    if |r| == |ps| {
      if i < |r| - 1 {
        assert r[i].id != ps[i].id;
      } else {
        assert r[i] == ps[i].(quantity := Some(q));
      }
    }
  }

  // ---- addToCart ----

  /** addToCart of an id not yet in the cart appends the item with quantity 1, and every
      earlier entry stays where it was; storage receives the list from before the call. */
  lemma AddToCartAbsent(ps: seq<Product>, item: Product)
    requires !InCart(ps, item.id)
    ensures var u := AddToCartStep(ps, item);
      |u.products| == |ps| + 1 &&
      u.products[..|ps|] == ps &&
      u.products[|ps|] == item.(quantity := Some(1)) &&
      u.written == ps
  {
  }

  /** addToCart of an id already in the cart leaves one entry with that id, last, built from
      the existing entry with its quantity bumped (1 if it was absent or 0); the other
      entries keep their order; storage receives the list from before the call. */
  lemma AddToCartPresent(ps: seq<Product>, item: Product, i: nat)
    requires FirstAt(ps, item.id, i)
    ensures var u := AddToCartStep(ps, item);
      var q := ps[i].quantity;
      OnlyAndLast(u.products, item.id) &&
      u.products[|u.products| - 1] == ps[i].(quantity := Some(if Truthy(q) then q.value + 1 else 1)) &&
      Without(u.products, item.id) == Without(ps, item.id) &&
      u.products[..|u.products| - 1] == Without(ps, item.id) &&
      (UniqueIds(ps) ==> u.products[..|u.products| - 1] == ps[..i] + ps[i + 1..]) &&
      u.written == ps
  {
    var q := ps[i].quantity;
    var nq := if Truthy(q) then q.value + 1 else 1;
    assert AddToCartStep(ps, item) == Update(Requeued(ps, i, nq), ps) by {
      FindIsFirstAt(ps, item.id, i);
    }
    RequeuedShape(ps, i, nq);
    if UniqueIds(ps) {
      UniqueIsSingle(ps, i);
    }
  }

  /** Whatever the item, addToCart leaves exactly one entry with its id, last. */
  lemma AddToCartOnlyAndLast(ps: seq<Product>, item: Product)
    ensures OnlyAndLast(AddToCartStep(ps, item).products, item.id)
  {
    match Find(ps, item.id)
    case Some(i) =>
      AddToCartPresent(ps, item, i);
    case None =>
      AddToCartAbsent(ps, item);
  }

  /** The record addToCart writes is never the cart it leaves in memory: a reload right
      after it shows the cart one step behind. */
  lemma AddToCartWriteLags(ps: seq<Product>, item: Product)
    ensures AddToCartStep(ps, item).written != AddToCartStep(ps, item).products
  {
    match Find(ps, item.id)
    case Some(i) =>
      var q := ps[i].quantity;
      RequeuedDiffers(ps, i, if Truthy(q) then q.value + 1 else 1);
    case None =>
      assert |AddToCartStep(ps, item).products| == |ps| + 1;
  }

  lemma AddToCartKeepsWellFormed(ps: seq<Product>, item: Product)
    requires WellFormed(ps)
    ensures WellFormed(AddToCartStep(ps, item).products)
  {
    match Find(ps, item.id)
    case Some(i) =>
      var q := ps[i].quantity.value by { assert ps[i] in ps; }
      assert AddToCartStep(ps, item).products == Requeued(ps, i, q + 1);
      RequeuedKeepsWellFormed(ps, i, q + 1);
    case None =>
      AppendKeepsUnique(ps, item.(quantity := Some(1)));
  }

  lemma AppendKeepsUnique(ps: seq<Product>, x: Product)
    requires UniqueIds(ps) && !InCart(ps, x.id)
    ensures UniqueIds(ps + [x])
  {
    var r := ps + [x];
    forall j, k | 0 <= j < k < |r| ensures r[j].id != r[k].id {
      assert r[j] == ps[j];
    }
  }

  // ---- increment ----

  /** increment on an entry with a truthy quantity q moves it last with quantity q + 1 and
      keeps the other entries in order; storage receives the pre-call list in its pre-call
      order, with that entry's quantity already raised. */
  lemma IncrementPresent(ps: seq<Product>, id: string, i: nat)
    requires FirstAt(ps, id, i) && Truthy(ps[i].quantity)
    ensures var u := IncrementStep(ps, id);
      var q := ps[i].quantity.value;
      OnlyAndLast(u.products, id) &&
      u.products[|u.products| - 1] == ps[i].(quantity := Some(q + 1)) &&
      Without(u.products, id) == Without(ps, id) &&
      u.products[..|u.products| - 1] == Without(ps, id) &&
      (UniqueIds(ps) ==> u.products[..|u.products| - 1] == ps[..i] + ps[i + 1..]) &&
      |u.written| == |ps| &&
      u.written[i] == ps[i].(quantity := Some(q + 1)) &&
      (forall k :: 0 <= k < |ps| && k != i ==> u.written[k] == ps[k])
  {
    var q := ps[i].quantity.value;
    assert IncrementStep(ps, id) == Update(Requeued(ps, i, q + 1), Patched(ps, i, q + 1)) by {
      FindIsFirstAt(ps, id, i);
    }
    RequeuedShape(ps, i, q + 1);
  }

  /** increment leaves the cart unchanged and writes that same cart to storage exactly
      when the id is absent or its first entry's quantity is falsy. */
  lemma IncrementUnchanged(ps: seq<Product>, id: string)
    ensures IncrementStep(ps, id) == Update(ps, ps) <==>
      forall i: nat :: FirstAt(ps, id, i) ==> !Truthy(ps[i].quantity)
  {
    match Find(ps, id)
    case Some(i) =>
      assert FirstAt(ps, id, i);
      if Truthy(ps[i].quantity) {
        assert IncrementStep(ps, id).written[i] != ps[i];
      } else {
        forall j: nat | FirstAt(ps, id, j) ensures !Truthy(ps[j].quantity) {
          FindIsFirstAt(ps, id, j);
        }
      }
    case None =>
  }

  /** increment keeps a well-formed cart well-formed, both in memory and in the record
      it writes, which the next mount loads. */
  lemma IncrementKeepsWellFormed(ps: seq<Product>, id: string)
    requires WellFormed(ps)
    ensures WellFormed(IncrementStep(ps, id).products)
    ensures WellFormed(IncrementStep(ps, id).written)
  {
    match Find(ps, id)
    case Some(i) =>
      assert ps[i] in ps;
      RequeuedKeepsWellFormed(ps, i, ps[i].quantity.value + 1);
      PatchedKeepsWellFormed(ps, i, ps[i].quantity.value + 1);
    case None =>
  }

  /** With unique ids, the record increment writes holds the same entries as the cart it
      leaves in memory, in a possibly different order. */
  lemma IncrementWriteSameEntries(ps: seq<Product>, id: string)
    requires UniqueIds(ps)
    ensures multiset(IncrementStep(ps, id).written) == multiset(IncrementStep(ps, id).products)
  {
    match Find(ps, id)
    case Some(i) =>
      if Truthy(ps[i].quantity) {
        PatchedIsRequeuedReordered(ps, i, ps[i].quantity.value + 1);
      }
    case None =>
  }

  // ---- decrement ----

  /** decrement on an entry with quantity q > 1 moves it last with quantity q - 1 and keeps
      the other entries in order; storage receives the pre-call list in its pre-call
      order, with that entry's quantity already lowered. */
  lemma DecrementPresent(ps: seq<Product>, id: string, i: nat)
    requires FirstAt(ps, id, i) && ps[i].quantity.Some? && ps[i].quantity.value > 1
    ensures var u := DecrementStep(ps, id);
      var q := ps[i].quantity.value;
      OnlyAndLast(u.products, id) &&
      u.products[|u.products| - 1] == ps[i].(quantity := Some(q - 1)) &&
      Without(u.products, id) == Without(ps, id) &&
      u.products[..|u.products| - 1] == Without(ps, id) &&
      (UniqueIds(ps) ==> u.products[..|u.products| - 1] == ps[..i] + ps[i + 1..]) &&
      |u.written| == |ps| &&
      u.written[i] == ps[i].(quantity := Some(q - 1)) &&
      (forall k :: 0 <= k < |ps| && k != i ==> u.written[k] == ps[k])
  {
    var q := ps[i].quantity.value;
    assert DecrementStep(ps, id) == Update(Requeued(ps, i, q - 1), Patched(ps, i, q - 1)) by {
      FindIsFirstAt(ps, id, i);
    }
    RequeuedShape(ps, i, q - 1);
  }

  /** decrement leaves the cart unchanged and writes that same cart to storage exactly
      when the id is absent or its first entry's quantity is absent or at most 1: no
      entry is ever removed. */
  lemma DecrementUnchanged(ps: seq<Product>, id: string)
    ensures DecrementStep(ps, id) == Update(ps, ps) <==>
      forall i: nat :: FirstAt(ps, id, i) ==> ps[i].quantity.None? || ps[i].quantity.value <= 1
  {
    match Find(ps, id)
    case Some(i) =>
      assert FirstAt(ps, id, i);
      var q := ps[i].quantity;
      if q.Some? && q.value > 1 {
        assert DecrementStep(ps, id).written[i] != ps[i];
      } else {
        forall j: nat | FirstAt(ps, id, j) ensures ps[j].quantity.None? || ps[j].quantity.value <= 1 {
          FindIsFirstAt(ps, id, j);
        }
      }
    case None =>
  }

  /** decrement keeps a well-formed cart well-formed, both in memory and in the record
      it writes, which the next mount loads. */
  lemma DecrementKeepsWellFormed(ps: seq<Product>, id: string)
    requires WellFormed(ps)
    ensures WellFormed(DecrementStep(ps, id).products)
    ensures WellFormed(DecrementStep(ps, id).written)
  {
    match Find(ps, id)
    case Some(i) =>
      RequeuedKeepsWellFormed(ps, i, ps[i].quantity.value - 1);
      var q := ps[i].quantity;
      if Truthy(q) && q.value > 1 {
        PatchedKeepsWellFormed(ps, i, q.value - 1);
      }
    case None =>
  }

  /** The in-place quantity update keeps ids unique, and quantities positive when the
      new quantity is positive. */
  lemma PatchedKeepsWellFormed(ps: seq<Product>, i: nat, q: int)
    requires i < |ps|
    ensures UniqueIds(ps) ==> UniqueIds(Patched(ps, i, q))
    ensures PositiveQuantities(ps) && q >= 1 ==> PositiveQuantities(Patched(ps, i, q))
  {
    var r := Patched(ps, i, q);
    if UniqueIds(ps) {
      forall j, k | 0 <= j < k < |r| ensures r[j].id != r[k].id {
        assert r[j].id == ps[j].id && r[k].id == ps[k].id;
      }
    }
    if PositiveQuantities(ps) && q >= 1 {
      forall p | p in r ensures p.quantity.Some? && p.quantity.value >= 1 {
        var k :| 0 <= k < |r| && r[k] == p;
        if k != i {
          assert ps[k] in ps;
        }
      }
    }
  }

  /** With unique ids, the record decrement writes holds the same entries as the cart it
      leaves in memory, in a possibly different order. */
  lemma DecrementWriteSameEntries(ps: seq<Product>, id: string)
    requires UniqueIds(ps)
    ensures multiset(DecrementStep(ps, id).written) == multiset(DecrementStep(ps, id).products)
  {
    match Find(ps, id)
    case Some(i) =>
      var q := ps[i].quantity;
      if Truthy(q) && q.value > 1 {
        PatchedIsRequeuedReordered(ps, i, q.value - 1);
      }
    case None =>
  }

  /** Under unique ids the in-place patch and the move-to-end update hold the same entries. */
  lemma PatchedIsRequeuedReordered(ps: seq<Product>, i: nat, q: int)
    requires i < |ps| && UniqueIds(ps)
    ensures multiset(Patched(ps, i, q)) == multiset(Requeued(ps, i, q))
  {
    var x := ps[i].(quantity := Some(q));
    UniqueIsSingle(ps, i);
    assert Patched(ps, i, q) == ps[..i] + [x] + ps[i + 1..];
    MiddleToEnd(ps[..i], x, ps[i + 1..]);
  }

  // ---- increment and decrement together ----

  /** In a well-formed cart, decrement undoes increment except for position: the entry
      comes back with its old quantity, moved last. */
  lemma DecrementUndoesIncrement(ps: seq<Product>, i: nat)
    requires WellFormed(ps) && i < |ps|
    ensures var id := ps[i].id;
      DecrementStep(IncrementStep(ps, id).products, id).products == Without(ps, id) + [ps[i]]
  {
    var id := ps[i].id;
    assert FirstAt(ps, id, i) && ps[i].quantity.Some? && ps[i].quantity.value >= 1 by {
      assert ps[i] in ps;
    }
    DecrementUndoesIncrementAt(ps, id, i);
  }

  lemma DecrementUndoesIncrementAt(ps: seq<Product>, id: string, i: nat)
    requires FirstAt(ps, id, i) && ps[i].quantity.Some? && ps[i].quantity.value >= 1
    ensures DecrementStep(IncrementStep(ps, id).products, id).products == Without(ps, id) + [ps[i]]
  {
    var r := IncrementStep(ps, id).products;
    assert OnlyAndLast(r, id) && r[|r| - 1] == ps[i].(quantity := Some(ps[i].quantity.value + 1))
      && Without(r, id) == Without(ps, id) by {
      IncrementPresent(ps, id, i);
    }
    DecrementLast(r, id);
    assert r[|r| - 1].(quantity := Some(r[|r| - 1].quantity.value - 1)) == ps[i];
  }

  /** In a well-formed cart, increment followed by decrement keeps the same entries. */
  lemma DecrementUndoesIncrementSameEntries(ps: seq<Product>, i: nat)
    requires WellFormed(ps) && i < |ps|
    ensures multiset(DecrementStep(IncrementStep(ps, ps[i].id).products, ps[i].id).products) == multiset(ps)
  {
    DecrementUndoesIncrement(ps, i);
    MovedLastSameEntries(ps, i);
  }

  /** With unique ids, moving ps[i] to the end keeps the same entries. */
  lemma MovedLastSameEntries(ps: seq<Product>, i: nat)
    requires UniqueIds(ps) && i < |ps|
    ensures multiset(Without(ps, ps[i].id) + [ps[i]]) == multiset(ps)
  {
    var x, front, back := ps[i], ps[..i], ps[i + 1..];
    calc {
      multiset(Without(ps, x.id) + [x]);
      { UniqueIsSingle(ps, i); }
      multiset(front + back + [x]);
      { MiddleToEnd(front, x, back); }
      multiset(front + [x] + back);
      { assert front + [x] + back == ps; }
      multiset(ps);
    }
  }

  /** Moving one element from the middle to the end keeps the same elements. */
  lemma MiddleToEnd(front: seq<Product>, x: Product, back: seq<Product>)
    ensures multiset(front + [x] + back) == multiset(front + back + [x])
  {
    calc {
      multiset(front + [x] + back);
      multiset(front) + multiset{x} + multiset(back);
      multiset(front + back + [x]);
    }
  }

  /** decrement of the id that only the last entry carries, with a quantity above one. */
  lemma DecrementLast(r: seq<Product>, id: string)
    requires OnlyAndLast(r, id)
    requires r[|r| - 1].quantity.Some? && r[|r| - 1].quantity.value > 1
    ensures DecrementStep(r, id).products ==
      Without(r, id) + [r[|r| - 1].(quantity := Some(r[|r| - 1].quantity.value - 1))]
  {
    FindIsFirstAt(r, id, |r| - 1);
  }
}
