/** The web client's cart: a list of entries, one per product, and a counter
    that goes up on every add. Each operation returns the new list rather than
    changing the old one. */
module CartContext {
  import opened Wrappers

  /** One cart entry; prices and quantities are integral (JavaScript numbers
      that the client only ever fills with integers). */
  datatype CartItem = CartItem(productId: string, name: string, priceCents: int, qty: int)

  /** The provider's state: the entries and the `bump` counter. */
  datatype Cart = Cart(items: seq<CartItem>, bump: nat)

  /** No entry is for `productId`. */
  predicate Absent(items: seq<CartItem>, productId: string) {
    forall i :: 0 <= i < |items| ==> items[i].productId != productId
  }

  /** At most one entry per product. */
  predicate UniqueIds(items: seq<CartItem>) {
    forall i, j :: 0 <= i < j < |items| ==> items[i].productId != items[j].productId
  }

  predicate AllPositive(items: seq<CartItem>) {
    forall i :: 0 <= i < |items| ==> items[i].qty > 0
  }

  /** What the cart's operations keep: one positive entry per product. */
  predicate WellFormed(items: seq<CartItem>) {
    UniqueIds(items) && AllPositive(items)
  }

  /** The lookup of `addItem`: the first entry for the
      product, if any. */
  function Find(items: seq<CartItem>, productId: string): (r: Option<CartItem>)
    ensures r.None? <==> Absent(items, productId)
    ensures r.Some? ==> r.value in items && r.value.productId == productId
  {
    if items == [] then None
    else if items[0].productId == productId then Some(items[0])
    else Find(items[1..], productId)
  }

  /** In a cart with one entry per product, the entry found is the one at its
      position. */
  lemma {:induction false} FindUnique(items: seq<CartItem>, j: nat)
    requires UniqueIds(items) && j < |items|
    ensures Find(items, items[j].productId) == Some(items[j])
  {
    if j > 0 {
      var rest := items[1..];
      assert UniqueIds(rest) by {
        forall a, b | 0 <= a < b < |rest| ensures rest[a].productId != rest[b].productId {
          assert rest[a] == items[a + 1] && rest[b] == items[b + 1];
        }
      }
      assert rest[j - 1] == items[j];
      FindUnique(rest, j - 1);
      assert items[0].productId != items[j].productId;
    }
  }

  /** The `prev.map` of `addItem`: the quantity added to every entry for the
      product. */
  function AddQty(items: seq<CartItem>, item: CartItem): seq<CartItem> {
    if items == [] then []
    else
      var p := items[0];
      [if p.productId == item.productId then p.(qty := p.qty + item.qty) else p] + AddQty(items[1..], item)
  }

  /** The increment keeps every entry's product, in place. */
  lemma {:induction false} AddQtyIds(items: seq<CartItem>, item: CartItem)
    ensures |AddQty(items, item)| == |items|
    ensures forall i :: 0 <= i < |items| ==> AddQty(items, item)[i].productId == items[i].productId
  {
    if items != [] {
      AddQtyIds(items[1..], item);
    }
  }

  /** The list `addItem` computes: afterwards the product has an entry, and
      the list is one entry longer exactly when it had none before. */
  function AddItems(items: seq<CartItem>, item: CartItem): (r: seq<CartItem>)
    ensures !Absent(r, item.productId)
    ensures |r| == |items| + (if Absent(items, item.productId) then 1 else 0)
  {
    if Find(items, item.productId).Some? then AddQtyIds(items, item); AddQty(items, item)
    else assert (items + [item])[|items|] == item; items + [item]
  }

  /** `addItem`: the new list, and `bump` one higher. */
  function AddItem(cart: Cart, item: CartItem): (r: Cart)
    ensures r.bump == cart.bump + 1
    ensures r.items == AddItems(cart.items, item)
  {
    Cart(AddItems(cart.items, item), cart.bump + 1)
  }

  /** A product already in the cart: its entry's quantity grows by the item's
      quantity, in place, and no other entry changes. */
  lemma {:induction false} AddItemExisting(items: seq<CartItem>, item: CartItem, j: nat)
    requires UniqueIds(items) && j < |items| && items[j].productId == item.productId
    ensures AddItems(items, item) == items[j := items[j].(qty := items[j].qty + item.qty)]
  {
    assert items[j] in items;
    AddQtyAt(items, item, j);
  }

  lemma {:induction false} AddQtyAt(items: seq<CartItem>, item: CartItem, j: nat)
    requires UniqueIds(items) && j < |items| && items[j].productId == item.productId
    ensures AddQty(items, item) == items[j := items[j].(qty := items[j].qty + item.qty)]
  {
    var rest := items[1..];
    assert UniqueIds(rest) by {
      forall a, b | 0 <= a < b < |rest| ensures rest[a].productId != rest[b].productId {
        assert rest[a] == items[a + 1] && rest[b] == items[b + 1];
      }
    }
    if j == 0 {
      forall a | 0 <= a < |rest| ensures rest[a].productId != item.productId {
        assert rest[a] == items[a + 1];
      }
      AddQtyAbsent(rest, item);
      assert items[j := items[j].(qty := items[j].qty + item.qty)] == [items[0].(qty := items[0].qty + item.qty)] + rest;
    } else {
      assert items[0].productId != item.productId;
      assert rest[j - 1] == items[j];
      AddQtyAt(rest, item, j - 1);
      assert items[j := items[j].(qty := items[j].qty + item.qty)] ==
        [items[0]] + rest[j - 1 := rest[j - 1].(qty := rest[j - 1].qty + item.qty)];
    }
  }

  lemma {:induction false} AddQtyAbsent(items: seq<CartItem>, item: CartItem)
    requires Absent(items, item.productId)
    ensures AddQty(items, item) == items
  {
    if items != [] {
      AddQtyAbsent(items[1..], item);
      assert items == [items[0]] + items[1..];
    }
  }

  /** A product not yet in the cart: the item goes at the end. */
  lemma AddItemNew(items: seq<CartItem>, item: CartItem)
    requires Absent(items, item.productId)
    ensures AddItems(items, item) == items + [item]
  {
  }

  /** Adding keeps one entry per product, and keeps every quantity positive
      when the added quantity is. */
  lemma AddItemWellFormed(items: seq<CartItem>, item: CartItem)
    requires UniqueIds(items)
    ensures UniqueIds(AddItems(items, item))
    ensures AllPositive(items) && item.qty > 0 ==> AllPositive(AddItems(items, item))
  {
    var f := Find(items, item.productId);
    if f.Some? {
      var j :| 0 <= j < |items| && items[j] == f.value;
      AddItemExisting(items, item, j);
    } else {
      var r := items + [item];
      forall a, b | 0 <= a < b < |r| ensures r[a].productId != r[b].productId {
        if b == |items| {
          assert r[a] == items[a];
        } else {
          assert r[a] == items[a] && r[b] == items[b];
        }
      }
    }
  }

  /** `total`: the sum of price times quantity over the entries. */
  function Total(items: seq<CartItem>): int {
    if items == [] then 0
    else Total(items[..|items| - 1]) + items[|items| - 1].priceCents * items[|items| - 1].qty
  }

  /** `totalItems`: the sum of the quantities. */
  function TotalItems(items: seq<CartItem>): int {
    if items == [] then 0
    else TotalItems(items[..|items| - 1]) + items[|items| - 1].qty
  }

  /** With no negative prices or quantities the total is not negative, and a
      cart of positive entries holds at least one unit per entry. */
  lemma {:induction false} TotalsNonNegative(items: seq<CartItem>)
    ensures (forall i :: 0 <= i < |items| ==> items[i].priceCents >= 0 && items[i].qty >= 0) ==> Total(items) >= 0
    ensures AllPositive(items) ==> TotalItems(items) >= |items|
  {
    if items != [] {
      var init := items[..|items| - 1];
      TotalsNonNegative(init);
      var last := items[|items| - 1];
      if forall i :: 0 <= i < |items| ==> items[i].priceCents >= 0 && items[i].qty >= 0 {
        assert forall i :: 0 <= i < |init| ==> init[i] == items[i];
        assert last.priceCents * last.qty >= 0;
      }
      if AllPositive(items) {
        assert forall i :: 0 <= i < |init| ==> init[i] == items[i];
      }
    }
  }

  /** Both totals add up over a split of the list. */
  lemma {:induction false} TotalsAppend(a: seq<CartItem>, b: seq<CartItem>)
    ensures Total(a + b) == Total(a) + Total(b)
    ensures TotalItems(a + b) == TotalItems(a) + TotalItems(b)
  {
    if b == [] {
      assert a + b == a;
    } else {
      var n := |b| - 1;
      assert (a + b)[..|a + b| - 1] == a + b[..n];
      assert (a + b)[|a + b| - 1] == b[n];
      TotalsAppend(a, b[..n]);
    }
  }

  lemma TotalsSingle(x: CartItem)
    ensures Total([x]) == x.priceCents * x.qty && TotalItems([x]) == x.qty
  {
    assert [x][..0] == [];
  }

  /** Replacing one entry changes the totals by the difference of the two
      entries. */
  lemma TotalsUpdate(items: seq<CartItem>, j: nat, x: CartItem)
    requires j < |items|
    ensures Total(items[j := x]) == Total(items) - items[j].priceCents * items[j].qty + x.priceCents * x.qty
    ensures TotalItems(items[j := x]) == TotalItems(items) - items[j].qty + x.qty
  {
    var pre, post := items[..j], items[j + 1..];
    assert items == pre + [items[j]] + post;
    assert items[j := x] == pre + [x] + post;
    TotalsAppend(pre + [items[j]], post);
    TotalsAppend(pre, [items[j]]);
    TotalsAppend(pre + [x], post);
    TotalsAppend(pre, [x]);
    TotalsSingle(items[j]);
    TotalsSingle(x);
  }

  /** Adding `item` raises the number of units by its quantity, and the total
      by that quantity at the price of the entry that receives it: the
      existing entry's price when the product is already in the cart. */
  lemma AddItemTotals(items: seq<CartItem>, item: CartItem)
    requires UniqueIds(items)
    ensures TotalItems(AddItems(items, item)) == TotalItems(items) + item.qty
    ensures Total(AddItems(items, item)) == Total(items) +
      (if Find(items, item.productId).Some? then Find(items, item.productId).value.priceCents else item.priceCents) * item.qty
  {
    var f := Find(items, item.productId);
    var r := AddItems(items, item);
    if f.Some? {
      var j :| 0 <= j < |items| && items[j] == f.value;
      AddItemExisting(items, item, j);
      assert r == items[j := items[j].(qty := items[j].qty + item.qty)];
      TotalsRaise(items, j, item.qty);
      assert Total(r) == Total(items) + f.value.priceCents * item.qty;
      assert TotalItems(r) == TotalItems(items) + item.qty;
    } else {
      assert r == items + [item];
      TotalsAppend(items, [item]);
      TotalsSingle(item);
      assert Total(r) == Total(items) + item.priceCents * item.qty;
      assert TotalItems(r) == TotalItems(items) + item.qty;
    }
  }

  /** Raising one entry's quantity by `q` adds `q` units at that entry's
      price. */
  lemma TotalsRaise(items: seq<CartItem>, j: nat, q: int)
    requires j < |items|
    ensures Total(items[j := items[j].(qty := items[j].qty + q)]) == Total(items) + items[j].priceCents * q
    ensures TotalItems(items[j := items[j].(qty := items[j].qty + q)]) == TotalItems(items) + q
  {
    var p := items[j];
    TotalsUpdate(items, j, p.(qty := p.qty + q));
    assert p.priceCents * (p.qty + q) == p.priceCents * p.qty + p.priceCents * q;
  }

  /** The `prev.map` of `updateQty`: every entry for the product gets `qty`. */
  function SetQty(items: seq<CartItem>, productId: string, qty: int): seq<CartItem> {
    if items == [] then []
    else
      [SetOne(items[0], productId, qty)] + SetQty(items[1..], productId, qty)
  }

  /** The filter of `updateQty`: only entries with a positive quantity stay. */
  function Positive(items: seq<CartItem>): (r: seq<CartItem>)
    ensures |r| <= |items|
    ensures AllPositive(r)
  {
    if items == [] then []
    else (if items[0].qty > 0 then [items[0]] else []) + Positive(items[1..])
  }

  /** `updateQty`: the product's entry gets the new quantity, and an entry
      whose quantity is not positive (a quantity of 0 in particular) leaves
      the cart. */
  function UpdateQty(items: seq<CartItem>, productId: string, qty: int): (r: seq<CartItem>)
    ensures AllPositive(r)
  {
    Positive(SetQty(items, productId, qty))
  }

  /** The first entry the update makes from `p`, before filtering. */
  function SetOne(p: CartItem, productId: string, qty: int): CartItem {
    if p.productId == productId then p.(qty := qty) else p
  }

  lemma UpdateQtyCons(items: seq<CartItem>, productId: string, qty: int)
    requires items != []
    ensures UpdateQty(items, productId, qty) ==
      var head := SetOne(items[0], productId, qty);
      (if head.qty > 0 then [head] else []) + UpdateQty(items[1..], productId, qty)
  {
    var m := SetQty(items, productId, qty);
    assert m[0] == SetOne(items[0], productId, qty);
    assert m[1..] == SetQty(items[1..], productId, qty);
  }

  lemma FindCons(x: CartItem, t: seq<CartItem>, productId: string)
    ensures Find([x] + t, productId) == if x.productId == productId then Some(x) else Find(t, productId)
  {
    assert ([x] + t)[1..] == t;
  }

  lemma OthersCons(x: CartItem, t: seq<CartItem>, productId: string)
    ensures Others([x] + t, productId) == (if x.productId != productId then [x] else []) + Others(t, productId)
  {
    assert ([x] + t)[1..] == t;
  }

  lemma PositiveCons(x: CartItem, t: seq<CartItem>)
    ensures Positive([x] + t) == (if x.qty > 0 then [x] else []) + Positive(t)
  {
    assert ([x] + t)[1..] == t;
  }

  /** After the update, looking the product up finds it with the new
      quantity when that is positive and the product was in the cart, and
      finds nothing otherwise. */
  lemma {:induction false} UpdateQtyFind(items: seq<CartItem>, productId: string, qty: int)
    ensures Find(UpdateQty(items, productId, qty), productId) ==
      if qty > 0 && Find(items, productId).Some? then Some(Find(items, productId).value.(qty := qty)) else None
  {
    if items != [] {
      var p, rest := items[0], items[1..];
      var head := SetOne(p, productId, qty);
      var tail := UpdateQty(rest, productId, qty);
      UpdateQtyFind(rest, productId, qty);
      UpdateQtyCons(items, productId, qty);
      assert items == [p] + rest;
      FindCons(p, rest, productId);
      if p.productId == productId {
        assert Find(items, productId) == Some(p);
        if qty > 0 {
          FindCons(head, tail, productId);
        } else {
          assert UpdateQty(items, productId, qty) == tail;
          assert Find(rest, productId).Some? ==> Find(tail, productId) == None;
        }
      } else {
        assert Find(items, productId) == Find(rest, productId);
        if head.qty > 0 {
          FindCons(head, tail, productId);
          assert Find(UpdateQty(items, productId, qty), productId) == Find(tail, productId);
        } else {
          assert UpdateQty(items, productId, qty) == tail;
        }
      }
    }
  }

  /** The entries for other products, in their order. */
  function Others(items: seq<CartItem>, productId: string): (r: seq<CartItem>)
    ensures Absent(r, productId)
  {
    if items == [] then []
    else (if items[0].productId != productId then [items[0]] else []) + Others(items[1..], productId)
  }

  /** The update leaves the other products' entries as they were, in their
      relative order, except that entries already non-positive go. */
  lemma {:induction false} UpdateQtyOthers(items: seq<CartItem>, productId: string, qty: int)
    ensures Others(UpdateQty(items, productId, qty), productId) == Positive(Others(items, productId))
  {
    if items != [] {
      var p, rest := items[0], items[1..];
      var head := SetOne(p, productId, qty);
      var tail := UpdateQty(rest, productId, qty);
      var o := Others(rest, productId);
      UpdateQtyOthers(rest, productId, qty);
      UpdateQtyCons(items, productId, qty);
      assert items == [p] + rest;
      OthersCons(p, rest, productId);
      if head.qty > 0 {
        OthersCons(head, tail, productId);
      } else {
        assert UpdateQty(items, productId, qty) == tail;
      }
      if p.productId != productId {
        assert Others(items, productId) == [p] + o;
        PositiveCons(p, o);
      } else {
        assert Others(items, productId) == o;
      }
    }
  }

  /** On a well-formed cart the update is a single edit: the product's entry
      takes the new quantity in place, or is removed when the quantity is
      not positive. */
  lemma UpdateQtyPresent(items: seq<CartItem>, j: nat, qty: int)
    requires WellFormed(items) && j < |items|
    ensures UpdateQty(items, items[j].productId, qty) ==
      if qty > 0 then items[j := items[j].(qty := qty)] else items[..j] + items[j + 1..]
  {
    UpdateQtySplice(items, j, qty);
    if qty > 0 {
      assert items[j := items[j].(qty := qty)] == items[..j] + [items[j].(qty := qty)] + items[j + 1..];
    } else {
      assert items[..j] + [] == items[..j];
    }
  }

  /** What the update leaves of one entry: the entry with the new quantity,
      or nothing when that quantity is not positive. */
  function Edit(p: CartItem, qty: int): (r: seq<CartItem>)
    ensures |r| <= 1 && AllPositive(r)
  {
    if qty > 0 then [p.(qty := qty)] else []
  }

  /** The update replaces the product's one entry by its edit, in place. */
  lemma {:induction false} UpdateQtySplice(items: seq<CartItem>, j: nat, qty: int)
    requires WellFormed(items) && j < |items|
    ensures UpdateQty(items, items[j].productId, qty) == items[..j] + Edit(items[j], qty) + items[j + 1..]
  {
    var id := items[j].productId;
    if j == 0 {
      UpdateQtyHead(items, qty);
      assert items[..0] == [];
    } else {
      var rest, m := items[1..], Edit(items[j], qty);
      WellFormedTail(items);
      assert rest[j - 1] == items[j];
      UpdateQtySplice(rest, j - 1, qty);
      var tail := UpdateQty(rest, id, qty);
      assert tail == rest[..j - 1] + m + rest[j..];
      UpdateQtyOtherHead(items, id, qty);
      assert UpdateQty(items, id, qty) == [items[0]] + tail;
      SpliceAfterHead(items, j, m);
    }
  }

  /** Updating the first entry's product touches only that entry. */
  lemma UpdateQtyHead(items: seq<CartItem>, qty: int)
    requires WellFormed(items) && items != []
    ensures UpdateQty(items, items[0].productId, qty) == Edit(items[0], qty) + items[1..]
  {
    var id, rest := items[0].productId, items[1..];
    WellFormedTail(items);
    UpdateQtyCons(items, id, qty);
    forall a | 0 <= a < |rest| ensures rest[a].productId != id {
      assert rest[a] == items[a + 1];
    }
    UpdateQtyAbsent(rest, id, qty);
  }

  /** A first entry for another product, with a positive quantity, stays
      first. */
  lemma UpdateQtyOtherHead(items: seq<CartItem>, productId: string, qty: int)
    requires items != [] && items[0].productId != productId && items[0].qty > 0
    ensures UpdateQty(items, productId, qty) == [items[0]] + UpdateQty(items[1..], productId, qty)
  {
    UpdateQtyCons(items, productId, qty);
  }

  lemma SpliceAfterHead<T>(s: seq<T>, j: nat, m: seq<T>)
    requires 0 < j < |s|
    ensures s[..j] + m + s[j + 1..] == [s[0]] + (s[1..][..j - 1] + m + s[1..][j..])
  {
    assert s[1..][..j - 1] == s[1..j] && s[1..][j..] == s[j + 1..];
    assert s[..j] == [s[0]] + s[1..j];
  }

  lemma WellFormedTail(items: seq<CartItem>)
    requires items != []
    ensures UniqueIds(items) ==> UniqueIds(items[1..])
    ensures AllPositive(items) ==> AllPositive(items[1..])
  {
    var rest := items[1..];
    forall a | 0 <= a < |rest| ensures rest[a] == items[a + 1] {
    }
  }

  /** On a cart with every quantity positive, updating a product that is not
      in it changes nothing. */
  lemma {:induction false} UpdateQtyAbsent(items: seq<CartItem>, productId: string, qty: int)
    requires AllPositive(items) && Absent(items, productId)
    ensures UpdateQty(items, productId, qty) == items
  {
    if items != [] {
      var rest := items[1..];
      assert AllPositive(rest) && Absent(rest, productId) by {
        forall a | 0 <= a < |rest| ensures rest[a].qty > 0 && rest[a].productId != productId {
          assert rest[a] == items[a + 1];
        }
      }
      UpdateQtyAbsent(rest, productId, qty);
      UpdateQtyCons(items, productId, qty);
      assert items == [items[0]] + rest;
    }
  }

  /** The update keeps one entry per product. */
  lemma {:induction false} UpdateQtyUnique(items: seq<CartItem>, productId: string, qty: int)
    requires UniqueIds(items)
    ensures UniqueIds(UpdateQty(items, productId, qty))
  {
    if items != [] {
      var rest := items[1..];
      assert UniqueIds(rest) by {
        forall a, b | 0 <= a < b < |rest| ensures rest[a].productId != rest[b].productId {
          assert rest[a] == items[a + 1] && rest[b] == items[b + 1];
        }
      }
      UpdateQtyUnique(rest, productId, qty);
      var head := SetOne(items[0], productId, qty);
      var tail := UpdateQty(rest, productId, qty);
      UpdateQtyCons(items, productId, qty);
      if head.qty > 0 {
        var r := [head] + tail;
        forall b | 0 < b < |r| ensures r[0].productId != r[b].productId {
          assert r[b] == tail[b - 1];
          UpdateQtyIds(rest, productId, qty, r[b]);
          var k :| 0 <= k < |rest| && rest[k].productId == r[b].productId;
          assert rest[k] == items[k + 1];
        }
        forall a, b | 0 <= a < b < |r| ensures r[a].productId != r[b].productId {
          if a > 0 {
            assert r[a] == tail[a - 1] && r[b] == tail[b - 1];
          }
        }
      }
    }
  }

  /** Every entry after the update is for a product that had an entry. */
  lemma {:induction false} UpdateQtyIds(items: seq<CartItem>, productId: string, qty: int, x: CartItem)
    requires x in UpdateQty(items, productId, qty)
    ensures !Absent(items, x.productId)
  {
    var rest := items[1..];
    var head := SetOne(items[0], productId, qty);
    UpdateQtyCons(items, productId, qty);
    if x == head && head.qty > 0 {
      assert items[0].productId == x.productId;
    } else {
      assert x in UpdateQty(rest, productId, qty);
      UpdateQtyIds(rest, productId, qty, x);
      var k :| 0 <= k < |rest| && rest[k].productId == x.productId;
      assert items[k + 1] == rest[k];
    }
  }

  /** The update keeps a well-formed cart well-formed. */
  lemma UpdateQtyWellFormed(items: seq<CartItem>, productId: string, qty: int)
    requires WellFormed(items)
    ensures WellFormed(UpdateQty(items, productId, qty))
  {
    UpdateQtyUnique(items, productId, qty);
  }

  /** `clear`: no entries, so both totals are zero; `bump` stays. */
  function Clear(cart: Cart): (r: Cart)
    ensures r.items == [] && Total(r.items) == 0 && TotalItems(r.items) == 0
    ensures r.bump == cart.bump
    ensures WellFormed(r.items)
  {
    cart.(items := [])
  }
}
