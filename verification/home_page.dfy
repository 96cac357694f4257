/**
 * The home page's list logic: the search and category filter, the sort
 * selector, the wishlist heart and the cart counter.
 */
module HomePage {
  import opened Seqs
  import opened Text

  /** The fields of a catalogue entry that the list logic reads. */
  datatype Product = Product(id: int, name: string, description: string, price: real, rating: real, category: string)

  /** The category selector's value that shows every category. */
  const AllCategories := "all"

  /** The case-insensitive search over name and description, and the category. */
  predicate Matches(p: Product, query: string, category: string)
  {
    && (Contains(Lower(p.name), Lower(query)) || Contains(Lower(p.description), Lower(query)))
    && (category == AllCategories || p.category == category)
  }

  function MatchesFor(query: string, category: string): Product -> bool
  {
    p => Matches(p, query, category)
  }

  /** `filteredProducts`: the matching products, in catalogue order. */
  function FilteredProducts(products: seq<Product>, query: string, category: string): (r: seq<Product>)
    ensures IsSubsequence(r, products)
    ensures forall p :: p in r <==> p in products && Matches(p, query, category)
  {
    Filter(products, MatchesFor(query, category))
  }

  /** An empty search under "all" shows the whole catalogue. */
  lemma EmptySearchShowsAll(products: seq<Product>)
    ensures FilteredProducts(products, "", AllCategories) == products
  {
    forall i | 0 <= i < |products| ensures MatchesFor("", AllCategories)(products[i]) {
      ContainsEmpty(Lower(products[i].name));
    }
    FilterAll(products, MatchesFor("", AllCategories));
  }

  /** Under a specific category, every product shown is of that category. */
  lemma CategoryNarrows(products: seq<Product>, query: string, category: string)
    requires category != AllCategories
    ensures forall i :: 0 <= i < |FilteredProducts(products, query, category)| ==>
      FilteredProducts(products, query, category)[i].category == category
  {
  }

  /** The comparators of the sort selector, as "a may stay before b". */
  predicate PriceLow(a: Product, b: Product)
  {
    a.price <= b.price
  }

  predicate PriceHigh(a: Product, b: Product)
  {
    b.price <= a.price
  }

  predicate RatingHigh(a: Product, b: Product)
  {
    b.rating <= a.rating
  }

  predicate Newest(a: Product, b: Product)
  {
    b.id <= a.id
  }

  /** `featured` and unknown modes: the comparator returns 0 for every pair. */
  predicate Unordered(a: Product, b: Product)
  {
    true
  }

  function Comparator(sortBy: string): (Product, Product) -> bool
  {
    match sortBy
    case "price-low" => PriceLow
    case "price-high" => PriceHigh
    case "rating" => RatingHigh
    case "newest" => Newest
    case _ => Unordered
  }

  lemma ComparatorTotalPreorder(sortBy: string)
    ensures TotalPreorder(Comparator(sortBy))
  {
  }

  /**
   * `sortedProducts`: the filtered list sorted by the selected mode; products
   * the mode ranks equal keep their filtered order.
   */
  function SortedProducts(filtered: seq<Product>, sortBy: string): (r: seq<Product>)
    ensures multiset(r) == multiset(filtered)
    ensures sortBy == "price-low" ==> forall i, j :: 0 <= i < j < |r| ==> r[i].price <= r[j].price
    ensures sortBy == "price-high" ==> forall i, j :: 0 <= i < j < |r| ==> r[i].price >= r[j].price
    ensures sortBy == "rating" ==> forall i, j :: 0 <= i < j < |r| ==> r[i].rating >= r[j].rating
    ensures sortBy == "newest" ==> forall i, j :: 0 <= i < j < |r| ==> r[i].id >= r[j].id
    ensures sortBy !in {"price-low", "price-high", "rating", "newest"} ==> r == filtered
    ensures forall c :: Filter(r, SameRank(Comparator(sortBy), c)) == Filter(filtered, SameRank(Comparator(sortBy), c))
  {
    ComparatorTotalPreorder(sortBy);
    var r := Sort(filtered, Comparator(sortBy));
    assert SortedBy(r, Comparator(sortBy));
    assert forall c :: Filter(r, SameRank(Comparator(sortBy), c)) == Filter(filtered, SameRank(Comparator(sortBy), c)) by {
      forall c ensures Filter(r, SameRank(Comparator(sortBy), c)) == Filter(filtered, SameRank(Comparator(sortBy), c)) {
        SortStable(filtered, Comparator(sortBy), c);
      }
    }
    UnknownModeKeepsOrder(filtered, sortBy);
    r
  }

  lemma UnknownModeKeepsOrder(filtered: seq<Product>, sortBy: string)
    ensures sortBy !in {"price-low", "price-high", "rating", "newest"} ==>
      TotalPreorder(Comparator(sortBy)) && Sort(filtered, Comparator(sortBy)) == filtered
  {
    if sortBy !in {"price-low", "price-high", "rating", "newest"} {
      SortKeepsOrderWhenAllEqual(filtered, Unordered);
    }
  }

  /**
   * With distinct ids, "newest" has one possible answer: any arrangement of
   * the filtered products by descending id is the one shown.
   */
  lemma NewestIsDescendingIds(filtered: seq<Product>, other: seq<Product>)
    requires forall i, j :: 0 <= i < j < |filtered| ==> filtered[i].id != filtered[j].id
    requires multiset(other) == multiset(filtered)
    requires forall i, j :: 0 <= i < j < |other| ==> other[i].id > other[j].id
    ensures SortedProducts(filtered, "newest") == other
  {
    var r := SortedProducts(filtered, "newest");
    assert SortedBy(other, Newest);
    assert SortedBy(r, Newest);
    forall x, y | x in r && y in r && Newest(x, y) && Newest(y, x) ensures x == y {
      assert x in multiset(filtered) && y in multiset(filtered);
      var i :| 0 <= i < |filtered| && filtered[i] == x;
      var j :| 0 <= j < |filtered| && filtered[j] == y;
      assert i == j;
    }
    SortedUnique(r, other, Newest);
  }

  /** `toggleWishlist`: the id leaves the set if it was in it, and joins it otherwise. */
  function ToggleWishlist(wishlist: set<int>, id: int): (r: set<int>)
    ensures id in r <==> id !in wishlist
    ensures forall x :: x != id ==> (x in r <==> x in wishlist)
  {
    if id in wishlist then wishlist - {id} else wishlist + {id}
  }

  /** Two clicks on the same heart leave the wishlist as it was. */
  lemma ToggleWishlistTwice(wishlist: set<int>, id: int)
    ensures ToggleWishlist(ToggleWishlist(wishlist, id), id) == wishlist
  {
  }

  /** `addToCart`: the header counter goes up by one per click, whatever the product. */
  function AddToCart(cartCount: int, productId: int): (r: int)
    ensures r - cartCount == 1
  {
    cartCount + 1
  }

  /** The counter after `n` clicks on any products. */
  lemma {:induction false} CartCountCountsClicks(start: int, clicks: seq<int>)
    ensures AddAll(start, clicks) == start + |clicks|
  {
    if |clicks| > 0 {
      CartCountCountsClicks(start, clicks[..|clicks| - 1]);
    }
  }

  function AddAll(start: int, clicks: seq<int>): int
  {
    if |clicks| == 0 then start else AddToCart(AddAll(start, clicks[..|clicks| - 1]), clicks[|clicks| - 1])
  }
}
