/** The page's session state: the three state cells the storefront keeps
    (search text, selected category, cart), the updaters that replace them,
    and the values derived from them for display. */
module App {
  import opened Catalog
  import Cart

  class Session {
    var query: string
    var selectedCategory: string
    var cart: seq<Cart.Line>

    /** The cart cell always holds a valid ledger. */
    ghost predicate Valid()
      reads this
    {
      Cart.Valid(cart)
    }

    /** A session starts with no search text, the sentinel selector and an
        empty cart. */
    constructor ()
      ensures Valid()
      ensures query == "" && selectedCategory == AllCategories && cart == []
    {
      query := "";
      selectedCategory := AllCategories;
      cart := [];
    }

    /** The products shown: the catalog entries that match the current
        search text and selector. */
    function FilteredProducts(): (r: seq<Product>)
      reads this
      ensures forall p :: p in r <==> p in Products && Matches(p, query, selectedCategory)
    {
      Visible(Products, query, selectedCategory)
    }

    /** The number shown on the cart badge. */
    function CartCount(): (r: nat)
      reads this
    {
      Cart.Count(cart)
    }

    /** The order total. */
    function CartTotal(): (r: nat)
      reads this
    {
      Cart.Total(cart)
    }

    /** The search box's updater. */
    method SetQuery(q: string)
      modifies this
      requires Valid()
      ensures Valid()
      ensures query == q
      ensures selectedCategory == old(selectedCategory) && cart == old(cart)
    {
      query := q;
    }

    /** The category selector's updater. */
    method SetSelectedCategory(category: string)
      modifies this
      requires Valid()
      ensures Valid()
      ensures selectedCategory == category
      ensures query == old(query) && cart == old(cart)
    {
      selectedCategory := category;
    }

    /** The "Add" button: the cart cell is replaced by the cart with one more
        unit of `p`; the badge rises by one and the total by the stored unit
        price. */
    method AddToCart(p: Product)
      requires Valid()
      modifies this
      ensures Valid()
      ensures cart == Cart.AddToCart(old(cart), p)
      ensures query == old(query) && selectedCategory == old(selectedCategory)
      ensures CartCount() == old(CartCount()) + 1
      ensures CartTotal() == old(CartTotal()) + Cart.StoredPrice(old(cart), p)
    {
      var after := Cart.AddToCart(cart, p);
      Cart.AddToCartValid(cart, p);
      Cart.AddToCartAggregates(cart, p);
      assert Cart.Count(after) == CartCount() + 1;
      assert Cart.Total(after) == CartTotal() + Cart.StoredPrice(cart, p);
      cart := after;
    }

    /** The "Remove" button: the cart cell is replaced by the cart without any
        line of that id; the badge and the total fall by what that line held,
        and an absent id leaves the cart as it was. */
    method RemoveFromCart(id: int)
      requires Valid()
      modifies this
      ensures Valid()
      ensures cart == Cart.RemoveFromCart(old(cart), id)
      ensures !Cart.HasId(cart, id)
      ensures query == old(query) && selectedCategory == old(selectedCategory)
      ensures !Cart.HasId(old(cart), id) ==> cart == old(cart)
      ensures forall i :: 0 <= i < |old(cart)| && old(cart)[i].product.id == id ==>
        CartCount() == old(CartCount()) - old(cart)[i].quantity &&
        CartTotal() == old(CartTotal()) - Cart.LineTotal(old(cart)[i])
    {
      Cart.RemoveFromCartValid(cart, id);
      if !Cart.HasId(cart, id) {
        Cart.RemoveFromCartAbsent(cart, id);
      }
      forall i | 0 <= i < |cart| && cart[i].product.id == id
        ensures Cart.Count(Cart.RemoveFromCart(cart, id)) == Cart.Count(cart) - cart[i].quantity
        ensures Cart.Total(Cart.RemoveFromCart(cart, id)) == Cart.Total(cart) - Cart.LineTotal(cart[i])
      {
        Cart.RemoveFromCartAggregates(cart, id, i);
      }
      cart := Cart.RemoveFromCart(cart, id);
    }
  }
}
