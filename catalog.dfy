/** The catalog index: the static product list, the category selector's
    entries and the search/category filter that decides which products the
    grid shows. */
module Catalog {
  import opened Text

  /** A product record. The display-only `rating` and `image` fields are not
      kept: no derivation reads them. Seed prices are whole numbers. */
  datatype Product = Product(id: int, name: string, category: string, price: nat)

  /** The sentinel selector value meaning "no category filter". */
  const AllCategories: string := "All"

  /** The storefront's seed data. */
  const Products: seq<Product> := [
    Product(1, "Linen Summer Shirt", "Men", 48),
    Product(2, "Tailored Wide-Leg Trousers", "Women", 62),
    Product(3, "Organic Cotton Hoodie", "Unisex", 54),
    Product(4, "Minimal Knit Dress", "Women", 76),
    Product(5, "Selvedge Denim Jacket", "Men", 88),
    Product(6, "Relaxed Cargo Pants", "Unisex", 59)
  ]

  predicate NoDuplicates<T(==)>(s: seq<T>) {
    forall i, j :: 0 <= i < j < |s| ==> s[i] != s[j]
  }

  predicate UniqueIds(ps: seq<Product>) {
    forall i, j :: 0 <= i < j < |ps| ==> ps[i].id != ps[j].id
  }

  /** The seed catalog keys its products by distinct ids. */
  lemma SeedIdsUnique()
    ensures UniqueIds(Products)
  {
  }

  // ---------------------------------------------------------------------
  // Categories

  /** Position of the first occurrence of `x` in `s`. */
  function FirstIndex(s: seq<string>, x: string): (r: nat)
    requires x in s
    ensures r < |s| && s[r] == x
    ensures forall j :: 0 <= j < r ==> s[j] != x
  {
    if s[0] == x then 0 else 1 + FirstIndex(s[1..], x)
  }

  /** The category of each product, in catalog order. */
  function CategoryList(ps: seq<Product>): (r: seq<string>)
    ensures |r| == |ps|
    ensures forall i :: 0 <= i < |ps| ==> r[i] == ps[i].category
  {
    if ps == [] then [] else [ps[0].category] + CategoryList(ps[1..])
  }

  /** The elements of a JavaScript `Set` built from `s`, in insertion order:
      each value is kept at its first occurrence, later repeats are skipped. */
  function Distinct(s: seq<string>): (r: seq<string>)
    ensures NoDuplicates(r)
    ensures forall x :: x in r <==> x in s
  {
    if s == [] then []
    else
      var d := Distinct(s[..|s| - 1]);
      var x := s[|s| - 1];
      assert forall y :: y in s <==> y in s[..|s| - 1] || y == x by {
        assert s == s[..|s| - 1] + [x];
      }
      if x in d then d else d + [x]
  }

  /** The first occurrence of a value that occurs in a prefix lies in that prefix. */
  lemma FirstIndexInPrefix(s: seq<string>, k: nat, x: string)
    requires k <= |s| && x in s[..k]
    ensures FirstIndex(s, x) == FirstIndex(s[..k], x)
  {
    var a, b := FirstIndex(s, x), FirstIndex(s[..k], x);
    assert s[b] == x;
    assert a <= b;
    assert s[..k][a] == x;
  }

  /** `Distinct` lists values in the order of their first occurrence. */
  lemma {:induction false} DistinctFirstSeenOrder(s: seq<string>)
    ensures forall i, j :: 0 <= i < j < |Distinct(s)| ==>
      FirstIndex(s, Distinct(s)[i]) < FirstIndex(s, Distinct(s)[j])
  {
    if s != [] {
      var p := s[..|s| - 1];
      var x := s[|s| - 1];
      var d := Distinct(p);
      DistinctFirstSeenOrder(p);
      assert s == p + [x];
      forall y | y in d ensures FirstIndex(s, y) == FirstIndex(p, y) < |s| - 1 {
        FirstIndexInPrefix(s, |s| - 1, y);
      }
      if x !in d {
        assert x !in p;
        assert FirstIndex(s, x) == |s| - 1;
        assert Distinct(s) == d + [x];
      }
    }
  }

  /** The selector's entries: the sentinel, then each category once, in
      first-seen order. */
  function Categories(ps: seq<Product>): (r: seq<string>)
    ensures |r| >= 1 && r[0] == AllCategories
    ensures NoDuplicates(r[1..])
    ensures forall c :: c in r[1..] <==> exists p :: p in ps && p.category == c
  {
    var cats := CategoryList(ps);
    assert forall c :: c in cats <==> exists p :: p in ps && p.category == c by {
      forall c | c in cats ensures exists p :: p in ps && p.category == c {
        var i :| 0 <= i < |cats| && cats[i] == c;
        assert ps[i] in ps;
      }
    }
    [AllCategories] + Distinct(cats)
  }

  /** The entries after the sentinel come in the order in which the catalog
      first mentions each category. */
  lemma CategoriesFirstSeenOrder(ps: seq<Product>)
    ensures forall i, j :: 1 <= i < j < |Categories(ps)| ==>
      FirstIndex(CategoryList(ps), Categories(ps)[i]) < FirstIndex(CategoryList(ps), Categories(ps)[j])
  {
    var d := Distinct(CategoryList(ps));
    DistinctFirstSeenOrder(CategoryList(ps));
    assert Categories(ps) == [AllCategories] + d;
    assert forall i :: 1 <= i < |Categories(ps)| ==> Categories(ps)[i] == d[i - 1];
  }

  /** The category labels of the seed catalog, in catalog order. */
  lemma SeedCategoryList()
    ensures CategoryList(Products) == ["Men", "Women", "Unisex", "Women", "Men", "Unisex"]
  {
    var cats := CategoryList(Products);
    assert |cats| == 6;
    assert cats[0] == Products[0].category == "Men";
    assert cats[1] == Products[1].category == "Women";
    assert cats[2] == Products[2].category == "Unisex";
    assert cats[3] == Products[3].category == "Women";
    assert cats[4] == Products[4].category == "Men";
    assert cats[5] == Products[5].category == "Unisex";
  }

  /** Appending one value to the input of `Distinct` appends it to the
      output unless it was already there. */
  lemma DistinctSnoc(s: seq<string>, x: string)
    ensures Distinct(s + [x]) == if x in Distinct(s) then Distinct(s) else Distinct(s) + [x]
  {
    assert (s + [x])[..|s|] == s;
  }

  /** `Distinct` keeps three different labels as they are. */
  lemma DistinctThree(a: string, b: string, c: string)
    requires a != b && b != c && a != c
    ensures Distinct([a, b, c]) == [a, b, c]
  {
    DistinctSnoc([], a);
    assert [] + [a] == [a];
    DistinctSnoc([a], b);
    assert [a] + [b] == [a, b];
    DistinctSnoc([a, b], c);
    assert [a, b] + [c] == [a, b, c];
  }

  /** Values that have all been seen already add nothing to `Distinct`. */
  lemma {:induction false} DistinctSkipsSeen(s: seq<string>, t: seq<string>)
    requires forall x :: x in t ==> x in s
    ensures Distinct(s + t) == Distinct(s)
  {
    if t == [] {
      assert s + t == s;
    } else {
      var n := |t| - 1;
      DistinctSkipsSeen(s, t[..n]);
      assert s + t == (s + t[..n]) + [t[n]];
      DistinctSnoc(s + t[..n], t[n]);
      assert t[n] in s + t[..n];
    }
  }

  /** Repeats of `a`, `b` and `c` after their first occurrences are dropped. */
  lemma DistinctOfSeedShape(a: string, b: string, c: string)
    requires a != b && b != c && a != c
    ensures Distinct([a, b, c, b, a, c]) == [a, b, c]
  {
    DistinctThree(a, b, c);
    DistinctSkipsSeen([a, b, c], [b, a, c]);
    assert [a, b, c] + [b, a, c] == [a, b, c, b, a, c];
  }

  /** A catalog whose categories read `a, b, c, b, a, c` offers the selector
      `All, a, b, c`. */
  lemma CategoriesOfSeedShape(ps: seq<Product>, a: string, b: string, c: string)
    requires a != b && b != c && a != c
    requires CategoryList(ps) == [a, b, c, b, a, c]
    ensures Categories(ps) == [AllCategories, a, b, c]
  {
    DistinctOfSeedShape(a, b, c);
    assert Categories(ps) == [AllCategories] + Distinct(CategoryList(ps));
  }

  /** The selector offered by the seed catalog. */
  lemma SeedCategories()
    ensures Categories(Products) == ["All", "Men", "Women", "Unisex"]
  {
    var men, women, unisex := "Men", "Women", "Unisex";
    assert |men| == 3 && |women| == 5 && |unisex| == 6;
    SeedCategoryList();
    CategoriesOfSeedShape(Products, men, women, unisex);
  }

  // ---------------------------------------------------------------------
  // Visible products

  /** The filter's per-product test: the lower-cased name contains the
      lower-cased query, and the selector is the sentinel or names the
      product's category exactly. */
  predicate Matches(p: Product, query: string, category: string) {
    Includes(Lower(p.name), Lower(query)) && (category == AllCategories || p.category == category)
  }

  /** `Array.prototype.filter`: walks the list from the front and appends
      each product `keep` accepts. */
  function Filter(ps: seq<Product>, keep: Product -> bool): (r: seq<Product>)
    ensures |r| <= |ps|
  {
    if ps == [] then []
    else
      var last := ps[|ps| - 1];
      Filter(ps[..|ps| - 1], keep) + (if keep(last) then [last] else [])
  }

  /** A product survives `Filter` exactly when it is in the list and the
      test accepts it. */
  lemma {:induction false} FilterMembers(ps: seq<Product>, keep: Product -> bool)
    ensures forall p :: p in Filter(ps, keep) <==> p in ps && keep(p)
  {
    if ps != [] {
      FilterMembers(ps[..|ps| - 1], keep);
      assert ps == ps[..|ps| - 1] + [ps[|ps| - 1]];
    }
  }

  predicate StrictlyIncreasing(idx: seq<nat>) {
    forall k, l :: 0 <= k < l < |idx| ==> idx[k] < idx[l]
  }

  /** `Filter` keeps exactly the accepted elements, each once and in their
      original order: its result is `ps` read at an increasing sequence of
      positions, and those positions are precisely the accepted ones. */
  lemma {:induction false} FilterSelection(ps: seq<Product>, keep: Product -> bool)
    returns (idx: seq<nat>)
    ensures |idx| == |Filter(ps, keep)| && StrictlyIncreasing(idx)
    ensures forall k :: 0 <= k < |idx| ==> idx[k] < |ps| && Filter(ps, keep)[k] == ps[idx[k]]
    ensures forall i :: 0 <= i < |ps| ==> (i in idx <==> keep(ps[i]))
  {
    if ps == [] {
      idx := [];
    } else {
      var n := |ps| - 1;
      var init := ps[..n];
      var prev := FilterSelection(init, keep);
      var w := Filter(init, keep);
      var r := Filter(ps, keep);
      forall k | 0 <= k < |prev| ensures prev[k] < n && w[k] == ps[prev[k]] {
        assert w[k] == init[prev[k]];
      }
      if keep(ps[n]) {
        idx := prev + [n];
        assert r == w + [ps[n]];
        forall k | 0 <= k < |idx| ensures idx[k] < |ps| && r[k] == ps[idx[k]] {
          if k < |prev| {
            assert idx[k] == prev[k] && r[k] == w[k];
          }
        }
        forall k, l | 0 <= k < l < |idx| ensures idx[k] < idx[l] {
          if l < |prev| {
            assert idx[k] == prev[k] && idx[l] == prev[l];
          } else {
            assert idx[k] == prev[k];
          }
        }
        forall i | 0 <= i < |ps| ensures i in idx <==> keep(ps[i]) {
          assert i in idx <==> i in prev || i == n;
          if i < n { assert init[i] == ps[i]; }
        }
      } else {
        idx := prev;
        assert r == w + [] == w;
        forall i | 0 <= i < |ps| ensures i in idx <==> keep(ps[i]) {
          if i < n { assert init[i] == ps[i]; }
        }
      }
    }
  }

  /** Filtering a filtered list again with the same test changes nothing. */
  lemma {:induction false} FilterIdempotent(ps: seq<Product>, keep: Product -> bool)
    ensures Filter(Filter(ps, keep), keep) == Filter(ps, keep)
  {
    if ps != [] {
      var n := |ps| - 1;
      FilterIdempotent(ps[..n], keep);
      var w := Filter(ps[..n], keep);
      if keep(ps[n]) {
        assert Filter(ps, keep) == w + [ps[n]];
        assert (w + [ps[n]])[..|w|] == w;
      } else {
        assert Filter(ps, keep) == w + [] == w;
      }
    }
  }

  /** A filter whose test accepts everything returns the list itself. */
  lemma {:induction false} FilterAll(ps: seq<Product>, keep: Product -> bool)
    requires forall p :: p in ps ==> keep(p)
    ensures Filter(ps, keep) == ps
  {
    if ps != [] {
      var n := |ps| - 1;
      assert ps[n] in ps;
      FilterAll(ps[..n], keep);
      assert ps == ps[..n] + [ps[n]];
    }
  }

  /** A filter whose test rejects everything returns the empty list. */
  lemma {:induction false} FilterNone(ps: seq<Product>, keep: Product -> bool)
    requires forall p :: p in ps ==> !keep(p)
    ensures Filter(ps, keep) == []
  {
    if ps != [] {
      var n := |ps| - 1;
      assert ps[n] in ps;
      FilterNone(ps[..n], keep);
    }
  }

  /** Filters whose tests agree on every product return the same list. */
  lemma {:induction false} FilterSameTest(ps: seq<Product>, k1: Product -> bool, k2: Product -> bool)
    requires forall p :: k1(p) == k2(p)
    ensures Filter(ps, k1) == Filter(ps, k2)
  {
    if ps != [] {
      FilterSameTest(ps[..|ps| - 1], k1, k2);
    }
  }

  /** The products the grid shows for a query and a selector. */
  function Visible(ps: seq<Product>, query: string, category: string): (r: seq<Product>)
    ensures |r| <= |ps|
    ensures forall p :: p in r <==> p in ps && Matches(p, query, category)
  {
    FilterMembers(ps, p => Matches(p, query, category));
    Filter(ps, p => Matches(p, query, category))
  }

  /** The visible products are exactly the matching products, each kept once
      and in catalog order. */
  lemma VisibleSelection(ps: seq<Product>, query: string, category: string)
    returns (idx: seq<nat>)
    ensures |idx| == |Visible(ps, query, category)| && StrictlyIncreasing(idx)
    ensures forall k :: 0 <= k < |idx| ==> idx[k] < |ps| && Visible(ps, query, category)[k] == ps[idx[k]]
    ensures forall i :: 0 <= i < |ps| ==> (i in idx <==> Matches(ps[i], query, category))
  {
    idx := FilterSelection(ps, p => Matches(p, query, category));
  }

  /** Filtering the visible list again with the same query and selector
      changes nothing. */
  lemma VisibleIdempotent(ps: seq<Product>, query: string, category: string)
    ensures Visible(Visible(ps, query, category), query, category) == Visible(ps, query, category)
  {
    FilterIdempotent(ps, p => Matches(p, query, category));
  }

  /** An empty query with the sentinel selector shows the whole catalog. */
  lemma VisibleShowsAll(ps: seq<Product>)
    ensures Visible(ps, "", AllCategories) == ps
  {
    assert Lower("") == "";
    FilterAll(ps, p => Matches(p, "", AllCategories));
  }

  /** A query that no product name contains yields the empty list, not an error. */
  lemma VisibleNoMatch(ps: seq<Product>, query: string, category: string)
    requires forall p :: p in ps ==> !Includes(Lower(p.name), Lower(query))
    ensures Visible(ps, query, category) == []
  {
    FilterNone(ps, p => Matches(p, query, category));
  }

  /** Search ignores letter case: queries that differ only in the case of
      their letters show the same products. */
  lemma VisibleIgnoresCase(ps: seq<Product>, q1: string, q2: string, category: string)
    requires EqualIgnoringCase(q1, q2)
    ensures Visible(ps, q1, category) == Visible(ps, q2, category)
  {
    LowerEqualIff(q1, q2);
    FilterSameTest(ps, p => Matches(p, q1, category), p => Matches(p, q2, category));
  }

  /** On the seed catalog an upper-case query still finds the shirt. */
  lemma SeedSearchIgnoresCase()
    ensures Matches(Products[0], "SHIRT", AllCategories)
  {
    var name := Lower(Products[0].name);
    var query := Lower("SHIRT");
    assert query == "shirt" by {
      assert query[0] == 's' && query[1] == 'h' && query[2] == 'i' && query[3] == 'r' && query[4] == 't';
    }
    assert name[13..18] == "shirt" by {
      assert name[13] == 's' && name[14] == 'h' && name[15] == 'i' && name[16] == 'r' && name[17] == 't';
    }
    assert OccursAt(name, query, 13);
    IncludesIff(name, query);
  }

  /** On the seed catalog the "Women" selector with an empty query shows
      the two women's products in catalog order. */
  lemma SeedCategoryFilter()
    ensures Visible(Products, "", "Women") == [Products[1], Products[3]]
  {
    var keep := (p: Product) => Matches(p, "", "Women");
    assert Lower("") == "";
    var r: seq<Product> := [];
    for k := 0 to 6
      invariant Filter(Products[..k], keep) == r
      invariant r == if k <= 1 then [] else if k <= 3 then [Products[1]] else [Products[1], Products[3]]
    {
      IncludesEmpty(Lower(Products[k].name));
      assert Products[..k + 1][..k] == Products[..k];
      if keep(Products[k]) {
        r := r + [Products[k]];
      }
    }
    assert Products[..6] == Products;
  }
}
