# Storefront catalog and cart, modelled in Dafny

This project models the logic of a single-page clothing storefront (`src/App.jsx`).
The storefront has two parts:

- The **catalog index**. It holds a fixed list of six products. It derives the
  category selector's entries: `'All'`, then each distinct category in
  first-seen order. It also computes the visible products for a search text
  and a selected category.
- The **cart ledger**. It is an ordered list of lines, each a product snapshot
  plus a quantity. `addToCart` adds one unit, either to the existing line or as
  a new line at the end. `removeFromCart` drops every line with the id. Two
  reductions, `cartCount` and `cartTotal`, are derived from it.

Everything in the core is a pure function from state to state, so the model is
made of datatypes, functions and lemmas:

- `text.dfy`, module `Text`: `toLowerCase` on ASCII letters and
  `String.prototype.includes`. `Includes` is proved equal to a reference
  substring definition.
- `catalog.dfy`, module `Catalog`: the `Product` record, the seed data,
  `Categories` (the `Set` spread as `Distinct`), and `Visible` (the filter,
  built on a generic `Filter` that mirrors `Array.prototype.filter`).
- `cart.dfy`, module `Cart`: `Line`, the ledger invariant `Valid` (ids unique,
  quantities at least 1), `Find`, `AddToCart`, `RemoveFromCart`, `Count`
  and `Total`.
- `app.dfy`, module `App`: class `Session`. It holds the page's three state
  cells (search text, selected category, cart). Its methods replace a cell
  wholesale, as each `setCart` call does, and they keep the ledger invariant.

Two behaviours of the code are kept exactly:

- Seed prices are whole numbers, so prices are `nat` and totals are exact.
- The category list is the sentinel `'All'` followed by the distinct categories. If a product's
  category were itself `'All'`, that label would appear twice. The model keeps
  this behaviour, so "distinct" is proved only for the entries after the
  sentinel. The seed data has no such category.

## Model

| member | source | states |
|---|---|---|
| `Text.LowerChar` | src/App.jsx:69 | the lower-cased character is never an ASCII capital; a non-capital is kept as it is; a capital moves to its lower-case letter |
| `Text.Lower` | src/App.jsx:69 | `toLowerCase` keeps the length and leaves no ASCII capital in the result |
| `Text.IncludesIff` | src/App.jsx:69 | `includes(s, q)` holds exactly when `q` occurs in `s` at some position (reference substring definition, both directions) |
| `Text.IncludesNeedsFirst` | src/App.jsx:69 | a non-empty query whose first character is absent from the name is not included |
| `Text.IncludesEmpty` | src/App.jsx:69 | the empty query is included in every name |
| `Text.LowerIdempotent` | src/App.jsx:69 | lower-casing twice is the same as lower-casing once |
| `Text.LowerEqualIff` | src/App.jsx:69 | two strings lower-case to the same string exactly when they differ only in letter case |
| `Catalog.SeedIdsUnique` | src/App.jsx:3-58 | the seed products have pairwise distinct ids |
| `Catalog.CategoryList` | src/App.jsx:65 | the category of each product: same length, entry `i` is product `i`'s category |
| `Catalog.Distinct` | src/App.jsx:65 | the `Set` spread has no duplicates and holds exactly the values of its input |
| `Catalog.DistinctFirstSeenOrder` | src/App.jsx:65 | the `Set` spread lists values in order of their first occurrence in the input |
| `Catalog.Categories` | src/App.jsx:65 | entry 0 is `'All'`; the rest have no duplicates and are exactly the categories some product has |
| `Catalog.CategoriesFirstSeenOrder` | src/App.jsx:65 | the entries after `'All'` come in the order in which the catalog first mentions them |
| `Catalog.SeedCategoryList` | src/App.jsx:3-58 | the seed catalog's categories, product by product |
| `Catalog.DistinctSkipsSeen` | src/App.jsx:65 | appending values the `Set` has already seen leaves the spread unchanged |
| `Catalog.CategoriesOfSeedShape` | src/App.jsx:65 | a catalog whose categories read `a, b, c, b, a, c` (three different labels) offers `All, a, b, c` |
| `Catalog.SeedCategories` | src/App.jsx:65 | the seed catalog's selector is `All, Men, Women, Unisex` |
| `Catalog.Filter` | src/App.jsx:68 | `products.filter(cb)` never returns more products than it is given |
| `Catalog.FilterMembers` | src/App.jsx:68 | a product is in the filter's result exactly when it is in the input and the callback accepts it |
| `Catalog.FilterSelection` | src/App.jsx:68 | the filter's result is the input read at increasing positions, and these are exactly the accepted positions (order kept, nothing duplicated) |
| `Catalog.FilterIdempotent` | src/App.jsx:68 | filtering the result again with the same callback changes nothing |
| `Catalog.FilterAll` | src/App.jsx:68 | a callback accepting every product returns the input unchanged |
| `Catalog.FilterNone` | src/App.jsx:68 | a callback rejecting every product returns the empty list |
| `Catalog.FilterSameTest` | src/App.jsx:68 | callbacks that agree on every product give the same result |
| `Catalog.Visible` | src/App.jsx:67-74 | a product is visible exactly when it is in the catalog, its lower-cased name includes the lower-cased query, and the selector is `'All'` or equals its category |
| `Catalog.VisibleSelection` | src/App.jsx:67-74 | the visible list is the catalog read at increasing positions, and these are exactly the matching positions |
| `Catalog.VisibleIdempotent` | src/App.jsx:67-74 | filtering the visible list again with the same query and selector changes nothing |
| `Catalog.VisibleShowsAll` | src/App.jsx:67-74 | query `''` with selector `'All'` shows every product in catalog order |
| `Catalog.VisibleNoMatch` | src/App.jsx:67-74 | a query that no name includes gives the empty list, not a failure |
| `Catalog.VisibleIgnoresCase` | src/App.jsx:69 | queries that differ only in letter case show the same products |
| `Catalog.SeedSearchIgnoresCase` | src/App.jsx:69 | query `SHIRT` matches the seed product `Linen Summer Shirt` |
| `Catalog.SeedCategoryFilter` | src/App.jsx:67-74 | on the seed catalog, selector `Women` with an empty query shows products 2 and 4, in that order |
| `Cart.Find` | src/App.jsx:78 | `find` gives nothing exactly when no line has the id; otherwise a line of the cart with that id |
| `Cart.BumpQuantity` | src/App.jsx:80-82 | the `map` keeps the length; it raises by one the quantity of each line with the id and keeps every other line |
| `Cart.AddToCart` | src/App.jsx:76-86 | afterwards a line has the product's id; the cart grows by one line exactly when the id was new |
| `Cart.RemoveFromCart` | src/App.jsx:88-90 | afterwards no line has the id, and the cart is no longer |
| `Cart.AddToCartExisting` | src/App.jsx:78-83 | for an id already present: same length; that line's quantity rises by exactly 1 and its other fields stay; every other line is untouched |
| `Cart.AddToCartNew` | src/App.jsx:84 | for a new id: the old cart followed by the product with quantity 1 |
| `Cart.AddToCartValid` | src/App.jsx:76-86 | adding keeps ids unique and quantities at least 1 |
| `Cart.RemoveFromCartMembers` | src/App.jsx:88-90 | the lines that survive are exactly the cart's lines with another id |
| `Cart.RemoveFromCartAbsent` | src/App.jsx:88-90 | removing an id that no line has returns the cart unchanged |
| `Cart.RemoveFromCartExisting` | src/App.jsx:88-90 | removing the id of line `i` deletes that whole line, whatever its quantity; the other lines keep their order |
| `Cart.RemoveFromCartValid` | src/App.jsx:88-90 | removing keeps ids unique and quantities at least 1 |
| `Cart.AggregatesConcat` | src/App.jsx:92-97 | `Count` and `Total` are the two `reduce`s (sum of quantities; sum of price times quantity): for two carts put together each is the sum of the parts |
| `Cart.CountBounds` | src/App.jsx:97 | in a valid cart the count is at least the number of lines, and it is 0 exactly for the empty cart |
| `Cart.AggregatesReplace` | src/App.jsx:92-97 | replacing one line changes count and total by the difference between new and old line |
| `Cart.AddToCartAggregates` | src/App.jsx:76-97 | adding raises the count by 1 and the total by the price stored in the raised or new line |
| `Cart.RemoveFromCartAggregates` | src/App.jsx:88-97 | removing line `i`'s id lowers the count by its quantity and the total by its price times quantity |
| `Cart.FindValid` | src/App.jsx:78 | in a valid cart, `find` for the id of line `i` returns line `i` itself |
| `Cart.AddToCartKeepsProducts` | src/App.jsx:76-86 | adding keeps every existing line at its position with its product snapshot unchanged (a repeated add does not refresh the price) |
| `Cart.StoredPriceAfterAdd` | src/App.jsx:76-86 | adding one product leaves the stored price of every other id unchanged |
| `Cart.AddToCartCommutes` | src/App.jsx:76-97 | adding two products with different ids in either order gives the same count and total |
| `Cart.AddTwiceThenRemove` | src/App.jsx:76-90 | adding a product whose id is new twice gives one line with quantity 2 at the end, not two lines; removing its id then gives back the original cart |
| `Cart.CartScenario` | src/App.jsx:76-97 | two units of `p` and one of `q` give lines `[p x2, q x1]`, count 3 and total `2*p.price + q.price`; removing `p` leaves `[q x1]` with total `q.price` |
| `Cart.SeedCartScenario` | src/App.jsx:3-97 | two shirts and one pair of trousers from the seed: count 3, total 158; removing the shirts leaves total 62 |
| `App.Session.constructor` | src/App.jsx:61-63 | a session starts with query `''`, selector `'All'` and an empty, valid cart |
| `App.Session.FilteredProducts` | src/App.jsx:67-74 | the displayed products are exactly the catalog products matching the current query and selector |
| `App.Session.SetQuery` | src/App.jsx:125 | replaces the query cell only and keeps the session invariant (valid cart) |
| `App.Session.SetSelectedCategory` | src/App.jsx:129 | replaces the selector cell only and keeps the session invariant (valid cart) |
| `App.Session.AddToCart` | src/App.jsx:76-86 | replaces the cart cell with `AddToCart(old cart, p)`; the cart stays valid; the badge rises by 1 and the total by the stored price |
| `App.Session.RemoveFromCart` | src/App.jsx:88-90 | replaces the cart cell with `RemoveFromCart(old cart, id)`; the id is gone and the cart stays valid; an absent id leaves the cart as it was; count and total fall by the removed line's share |

## Left out

- JSX markup, CSS classes, images and event wiring (src/App.jsx:99-183). They are presentation only. The input and select widgets become the plain parameters of `SetQuery` and `SetSelectedCategory`.
- `useMemo` caching. The derived values are plain functions of the state, so the cache cannot change them.
- `toFixed` formatting of prices and ratings. This is floating-point display. Seed prices are whole numbers, so prices are `nat` and sums are exact.
- The `rating` and `image` fields. No derivation reads them.
- Full Unicode `toLowerCase`. Only the ASCII letters `A`-`Z` are lower-cased; every other character is kept.
- JavaScript number semantics for quantities and totals (IEEE doubles). The model uses unbounded integers, which agree with the doubles for every value below 2^53.
- Cart.Find: the contract says the line found has the id, not that it is the first such line. In a valid cart only one line has it, and `AddToCart` only asks whether a line was found.
