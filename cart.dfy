/** The cart ledger: an ordered list of lines, one per product id, each a
    snapshot of the product plus a quantity; the add and remove updaters and
    the item-count and total reductions. */
module Cart {
  import opened Catalog

  datatype Option<T> = None | Some(value: T)

  /** A cart line: the product as it was when first added, and how many
      units of it the cart holds. */
  datatype Line = Line(product: Product, quantity: nat)

  /** Some line of the cart carries product id `id`. */
  predicate HasId(cart: seq<Line>, id: int) {
    exists i :: 0 <= i < |cart| && cart[i].product.id == id
  }

  /** The ledger invariant: no two lines share a product id, and every line
      holds at least one unit. */
  predicate Valid(cart: seq<Line>) {
    && (forall i, j :: 0 <= i < j < |cart| ==> cart[i].product.id != cart[j].product.id)
    && (forall i :: 0 <= i < |cart| ==> cart[i].quantity >= 1)
  }

  /** The lookup `addToCart` starts with: the first line with that id, if any. */
  function Find(cart: seq<Line>, id: int): (r: Option<Line>)
    ensures r.None? <==> !HasId(cart, id)
    ensures r.Some? ==> r.value in cart && r.value.product.id == id
  {
    if cart == [] then None
    else if cart[0].product.id == id then Some(cart[0])
    else
      var r := Find(cart[1..], id);
      assert forall i :: 0 < i < |cart| ==> cart[i] == cart[1..][i - 1];
      assert HasId(cart[1..], id) ==> HasId(cart, id);
      r
  }

  /** Every line with the id gets one more unit; all other lines are kept as
      they are. */
  function BumpQuantity(cart: seq<Line>, id: int): (r: seq<Line>)
    ensures |r| == |cart|
    ensures forall i :: 0 <= i < |cart| ==>
      r[i] == if cart[i].product.id == id then cart[i].(quantity := cart[i].quantity + 1) else cart[i]
  {
    if cart == [] then []
    else
      var n := |cart| - 1;
      var l := cart[n];
      BumpQuantity(cart[..n], id) + [if l.product.id == id then l.(quantity := l.quantity + 1) else l]
  }

  /** `addToCart`: one more unit of a product already in the cart, or a new
      line with one unit at the end. Afterwards the product's id is in the
      cart, and the cart grew by a line exactly when the id was new. */
  function AddToCart(cart: seq<Line>, p: Product): (r: seq<Line>)
    ensures HasId(r, p.id)
    ensures |r| == if HasId(cart, p.id) then |cart| else |cart| + 1
  {
    match Find(cart, p.id)
    case Some(_) =>
      var r := BumpQuantity(cart, p.id);
      var i :| 0 <= i < |cart| && cart[i].product.id == p.id;
      assert r[i].product.id == p.id;
      r
    case None =>
      var r := cart + [Line(p, 1)];
      assert r[|cart|].product.id == p.id;
      r
  }

  /** `removeFromCart`: keeps the lines with another id, in order. Afterwards
      no line carries the id. */
  function RemoveFromCart(cart: seq<Line>, id: int): (r: seq<Line>)
    ensures !HasId(r, id)
    ensures |r| <= |cart|
  {
    if cart == [] then []
    else
      var n := |cart| - 1;
      var l := cart[n];
      var r := RemoveFromCart(cart[..n], id) + (if l.product.id != id then [l] else []);
      assert forall i :: 0 <= i < |r| - 1 ==> r[i] == RemoveFromCart(cart[..n], id)[i];
      r
  }

  /** The item count: the sum of the lines' quantities. */
  function Count(cart: seq<Line>): (r: nat) {
    if cart == [] then 0 else Count(cart[..|cart| - 1]) + cart[|cart| - 1].quantity
  }

  /** What one line contributes to the total. */
  function LineTotal(l: Line): (r: nat) {
    l.product.price * l.quantity
  }

  /** The order total: the sum over the lines of unit price times quantity. */
  function Total(cart: seq<Line>): (r: nat) {
    if cart == [] then 0 else Total(cart[..|cart| - 1]) + LineTotal(cart[|cart| - 1])
  }

  /** The unit price the total rises by when `p` is added: the price stored
      in the existing line, or the product's own price for a new line. */
  function StoredPrice(cart: seq<Line>, p: Product): (r: nat) {
    match Find(cart, p.id)
    case Some(l) => l.product.price
    case None => p.price
  }

  // ---------------------------------------------------------------------
  // The updaters line by line

  /** Adding a product that is already in the cart raises only its line's
      quantity, by exactly one; the line's other fields, every other line and
      the cart's length stay as they were. */
  lemma AddToCartExisting(cart: seq<Line>, p: Product, i: nat)
    requires Valid(cart) && i < |cart| && cart[i].product.id == p.id
    ensures |AddToCart(cart, p)| == |cart|
    ensures AddToCart(cart, p)[i] == cart[i].(quantity := cart[i].quantity + 1)
    ensures forall k :: 0 <= k < |cart| && k != i ==> AddToCart(cart, p)[k] == cart[k]
  {
    assert HasId(cart, p.id);
  }

  /** Adding a product whose id is not in the cart appends a line holding
      one unit of it and leaves every earlier line as it was. */
  lemma AddToCartNew(cart: seq<Line>, p: Product)
    requires !HasId(cart, p.id)
    ensures AddToCart(cart, p) == cart + [Line(p, 1)]
  {
  }

  /** Adding never breaks the ledger invariant. */
  lemma AddToCartValid(cart: seq<Line>, p: Product)
    requires Valid(cart)
    ensures Valid(AddToCart(cart, p))
  {
    if !HasId(cart, p.id) {
      var r := AddToCart(cart, p);
      assert r == cart + [Line(p, 1)];
      forall i | 0 <= i < |cart| ensures r[i].product.id != p.id {
        assert r[i] == cart[i];
      }
    }
  }

  /** Lines of the cart that survive a removal are exactly those with another id. */
  lemma {:induction false} RemoveFromCartMembers(cart: seq<Line>, id: int)
    ensures forall l :: l in RemoveFromCart(cart, id) <==> l in cart && l.product.id != id
  {
    if cart != [] {
      var n := |cart| - 1;
      RemoveFromCartMembers(cart[..n], id);
      assert cart == cart[..n] + [cart[n]];
    }
  }

  /** When the id is absent, removing it returns the cart unchanged. */
  lemma {:induction false} RemoveFromCartAbsent(cart: seq<Line>, id: int)
    requires !HasId(cart, id)
    ensures RemoveFromCart(cart, id) == cart
  {
    if cart != [] {
      var n := |cart| - 1;
      assert !HasId(cart[..n], id) by {
        assert forall i :: 0 <= i < n ==> cart[..n][i] == cart[i];
      }
      RemoveFromCartAbsent(cart[..n], id);
      assert cart == cart[..n] + [cart[n]];
    }
  }

  /** In a valid cart, removing the id held by line `i` deletes that whole
      line, whatever its quantity, and keeps the other lines in order. */
  lemma {:induction false} RemoveFromCartExisting(cart: seq<Line>, id: int, i: nat)
    requires Valid(cart) && i < |cart| && cart[i].product.id == id
    ensures RemoveFromCart(cart, id) == cart[..i] + cart[i + 1..]
  {
    var n := |cart| - 1;
    var init := cart[..n];
    if i == n {
      assert !HasId(init, id) by {
        assert forall k :: 0 <= k < n ==> init[k] == cart[k];
      }
      RemoveFromCartAbsent(init, id);
      assert cart[i + 1..] == [];
    } else {
      assert Valid(init) by {
        assert forall k :: 0 <= k < n ==> init[k] == cart[k];
      }
      assert init[i].product.id == id;
      RemoveFromCartExisting(init, id, i);
      assert cart[n].product.id != id;
      assert init[..i] == cart[..i];
      assert init[i + 1..] + [cart[n]] == cart[i + 1..];
    }
  }

  /** Removing never breaks the ledger invariant. */
  lemma RemoveFromCartValid(cart: seq<Line>, id: int)
    requires Valid(cart)
    ensures Valid(RemoveFromCart(cart, id))
  {
    if HasId(cart, id) {
      var i :| 0 <= i < |cart| && cart[i].product.id == id;
      RemoveFromCartExisting(cart, id, i);
      var r := cart[..i] + cart[i + 1..];
      assert forall k :: 0 <= k < |r| ==> r[k] == if k < i then cart[k] else cart[k + 1];
    } else {
      RemoveFromCartAbsent(cart, id);
    }
  }

  // ---------------------------------------------------------------------
  // Aggregates

  /** Both reductions distribute over concatenation of carts. */
  lemma {:induction false} AggregatesConcat(a: seq<Line>, b: seq<Line>)
    ensures Count(a + b) == Count(a) + Count(b)
    ensures Total(a + b) == Total(a) + Total(b)
  {
    if b == [] {
      assert a + b == a;
    } else {
      var n := |b| - 1;
      AggregatesConcat(a, b[..n]);
      assert (a + b)[..|a + b| - 1] == a + b[..n];
      assert (a + b)[|a + b| - 1] == b[n];
    }
  }

  /** In a valid cart the item count is at least the number of lines, and it
      is zero exactly when the cart is empty. */
  lemma {:induction false} CountBounds(cart: seq<Line>)
    requires Valid(cart)
    ensures Count(cart) >= |cart|
    ensures Count(cart) == 0 <==> cart == []
  {
    if cart != [] {
      var n := |cart| - 1;
      assert Valid(cart[..n]) by {
        assert forall k :: 0 <= k < n ==> cart[..n][k] == cart[k];
      }
      CountBounds(cart[..n]);
    }
  }

  /** A one-line cart counts that line's quantity and totals its share. */
  lemma AggregatesSingle(l: Line)
    ensures Count([l]) == l.quantity && Total([l]) == LineTotal(l)
  {
    assert [l][..0] == [];
  }

  /** Writes a cart as the part before line `i`, line `i`, and the rest. */
  lemma SplitAt(cart: seq<Line>, i: nat)
    requires i < |cart|
    ensures cart == cart[..i] + [cart[i]] + cart[i + 1..]
  {
  }

  /** Replacing line `i` of a cart changes the aggregates by the difference
      between the new line and the old one. */
  lemma AggregatesReplace(cart: seq<Line>, i: nat, l: Line)
    requires i < |cart|
    ensures Count(cart[i := l]) + cart[i].quantity == Count(cart) + l.quantity
    ensures Total(cart[i := l]) + LineTotal(cart[i]) == Total(cart) + LineTotal(l)
  {
    var pre, post := cart[..i], cart[i + 1..];
    assert cart == pre + [cart[i]] + post;
    assert cart[i := l] == pre + [l] + post;
    AggregatesConcat(pre + [cart[i]], post);
    AggregatesConcat(pre, [cart[i]]);
    AggregatesConcat(pre + [l], post);
    AggregatesConcat(pre, [l]);
    assert [l][..0] == [] && [cart[i]][..0] == [];
  }

  /** One more unit in a line raises that line's contribution by its price. */
  lemma LineTotalBump(l: Line)
    ensures LineTotal(l.(quantity := l.quantity + 1)) == LineTotal(l) + l.product.price
  {
    assert l.product.price * (l.quantity + 1) == l.product.price * l.quantity + l.product.price;
  }

  /** Adding a product raises the item count by one and the total by the
      unit price stored in the line that was raised or created. */
  lemma AddToCartAggregates(cart: seq<Line>, p: Product)
    requires Valid(cart)
    ensures Count(AddToCart(cart, p)) == Count(cart) + 1
    ensures Total(AddToCart(cart, p)) == Total(cart) + StoredPrice(cart, p)
  {
    if HasId(cart, p.id) {
      var i :| 0 <= i < |cart| && cart[i].product.id == p.id;
      var l := cart[i];
      var bumped := l.(quantity := l.quantity + 1);
      AddToCartExisting(cart, p, i);
      assert AddToCart(cart, p) == cart[i := bumped];
      FindValid(cart, p.id, i);
      AggregatesReplace(cart, i, bumped);
      LineTotalBump(l);
    } else {
      assert AddToCart(cart, p) == cart + [Line(p, 1)];
      AggregatesConcat(cart, [Line(p, 1)]);
      assert [Line(p, 1)][..0] == [];
    }
  }

  /** Removing the id held by line `i` of a valid cart lowers the item count
      by that line's quantity and the total by its price times quantity. */
  lemma RemoveFromCartAggregates(cart: seq<Line>, id: int, i: nat)
    requires Valid(cart) && i < |cart| && cart[i].product.id == id
    ensures Count(RemoveFromCart(cart, id)) == Count(cart) - cart[i].quantity
    ensures Total(RemoveFromCart(cart, id)) == Total(cart) - LineTotal(cart[i])
  {
    RemoveFromCartExisting(cart, id, i);
    SplitAt(cart, i);
    AggregatesConcat(cart[..i], cart[i + 1..]);
    AggregatesConcat(cart[..i] + [cart[i]], cart[i + 1..]);
    AggregatesConcat(cart[..i], [cart[i]]);
    assert [cart[i]][..0] == [];
  }

  /** In a valid cart, `find` gives the one line with the id. */
  lemma FindValid(cart: seq<Line>, id: int, i: nat)
    requires Valid(cart) && i < |cart| && cart[i].product.id == id
    ensures Find(cart, id) == Some(cart[i])
  {
    assert HasId(cart, id);
    var l := Find(cart, id).value;
    var j :| 0 <= j < |cart| && cart[j] == l;
  }

  /** Adding a product keeps the product snapshot of every existing line. */
  lemma AddToCartKeepsProducts(cart: seq<Line>, p: Product, k: nat)
    requires Valid(cart) && k < |cart|
    ensures k < |AddToCart(cart, p)| && AddToCart(cart, p)[k].product == cart[k].product
  {
    if HasId(cart, p.id) {
      var i :| 0 <= i < |cart| && cart[i].product.id == p.id;
      AddToCartExisting(cart, p, i);
    } else {
      AddToCartNew(cart, p);
    }
  }

  /** In a valid cart, adding one product leaves the stored price seen by
      any product with another id as it was. */
  lemma StoredPriceAfterAdd(cart: seq<Line>, p: Product, q: Product)
    requires Valid(cart) && q.id != p.id
    ensures StoredPrice(AddToCart(cart, p), q) == StoredPrice(cart, q)
  {
    var r := AddToCart(cart, p);
    AddToCartValid(cart, p);
    if HasId(cart, q.id) {
      var k :| 0 <= k < |cart| && cart[k].product.id == q.id;
      AddToCartKeepsProducts(cart, p, k);
      FindValid(cart, q.id, k);
      FindValid(r, q.id, k);
    } else {
      forall j | 0 <= j < |r| ensures r[j].product.id != q.id {
        if j < |cart| {
          AddToCartKeepsProducts(cart, p, j);
        } else {
          AddToCartNew(cart, p);
        }
      }
      assert !HasId(r, q.id);
    }
  }

  /** Adding two products with different ids in either order gives the same
      item count and the same total. */
  lemma AddToCartCommutes(cart: seq<Line>, p: Product, q: Product)
    requires Valid(cart) && p.id != q.id
    ensures Count(AddToCart(AddToCart(cart, p), q)) == Count(AddToCart(AddToCart(cart, q), p))
    ensures Total(AddToCart(AddToCart(cart, p), q)) == Total(AddToCart(AddToCart(cart, q), p))
  {
    AddToCartValid(cart, p);
    AddToCartValid(cart, q);
    AddToCartAggregates(cart, p);
    AddToCartAggregates(cart, q);
    AddToCartAggregates(AddToCart(cart, p), q);
    AddToCartAggregates(AddToCart(cart, q), p);
    StoredPriceAfterAdd(cart, p, q);
    StoredPriceAfterAdd(cart, q, p);
  }

  // ---------------------------------------------------------------------
  // Scenarios

  /** Adding the same new product twice gives one line with two units at
      the end, not two lines; removing it then restores the cart. */
  lemma AddTwiceThenRemove(cart: seq<Line>, p: Product)
    requires Valid(cart) && !HasId(cart, p.id)
    ensures AddToCart(AddToCart(cart, p), p) == cart + [Line(p, 2)]
    ensures RemoveFromCart(AddToCart(AddToCart(cart, p), p), p.id) == cart
  {
    var one := AddToCart(cart, p);
    AddToCartNew(cart, p);
    AddToCartValid(cart, p);
    var n := |cart|;
    AddToCartExisting(one, p, n);
    var two := AddToCart(one, p);
    assert two == cart + [Line(p, 2)];
    AddToCartValid(one, p);
    RemoveFromCartExisting(two, p.id, n);
    assert two[..n] == cart;
  }

  /** Two units of `p` and one of `q`: the lines, the count and the total;
      removing `p` leaves the line of `q` alone. */
  lemma CartScenario(p: Product, q: Product)
    requires p.id != q.id
    ensures var c := AddToCart(AddToCart(AddToCart([], p), p), q);
      && c == [Line(p, 2), Line(q, 1)]
      && Count(c) == 3
      && Total(c) == 2 * p.price + q.price
      && RemoveFromCart(c, p.id) == [Line(q, 1)]
      && Total(RemoveFromCart(c, p.id)) == q.price
  {
    AddTwiceThenRemove([], p);
    var two: seq<Line> := [Line(p, 2)];
    assert AddToCart(AddToCart([], p), p) == two;
    assert two[0].product.id != q.id;
    AddToCartNew(two, q);
    var c := two + [Line(q, 1)];
    assert c == [Line(p, 2), Line(q, 1)];
    AggregatesSingle(Line(p, 2));
    AggregatesSingle(Line(q, 1));
    AggregatesConcat(two, [Line(q, 1)]);
    assert LineTotal(Line(p, 2)) == 2 * p.price;
    RemoveFromCartExisting(c, p.id, 0);
    assert c[1..] == [Line(q, 1)];
  }

  /** The scenario on the seed catalog: two shirts and one pair of trousers
      come to 158; removing the shirts leaves 62. */
  lemma SeedCartScenario()
    ensures var c := AddToCart(AddToCart(AddToCart([], Products[0]), Products[0]), Products[1]);
      && Count(c) == 3
      && Total(c) == 158
      && RemoveFromCart(c, 1) == [Line(Products[1], 1)]
      && Total(RemoveFromCart(c, 1)) == 62
  {
    CartScenario(Products[0], Products[1]);
  }
}
