/**
 * The persisted cart/wishlist store (`useCartStore`): two ordered
 * collections keyed by `product_id`, and the operations that change or read
 * them. Each operation is a function from the old state to the new one.
 */
module CartStore {
  import opened Wrappers
  import opened Seqs

  /** The product fields the store reads; the rest is carried along unread. */
  datatype Product = Product(productId: string, title: string, extractedPrice: real, source: string)

  datatype Variants = Variants(color: string, size: string)

  /** A cart line: the product's fields plus a quantity and the chosen variants. */
  datatype Line = Line(product: Product, quantity: int, variants: Option<Variants>)

  datatype State = State(cart: seq<Line>, wishlist: seq<Product>)

  /** The variants every new line receives. */
  const DefaultVariants := Variants("default", "standard")

  /** A fresh store, as rehydrated from empty storage. */
  const Empty := State([], [])

  function Id(l: Line): string
  {
    l.product.productId
  }

  /** The keys of the cart lines, in cart order. */
  function CartIds(cart: seq<Line>): (ids: seq<string>)
    ensures |ids| == |cart|
    ensures forall i :: 0 <= i < |cart| ==> ids[i] == Id(cart[i])
  {
    seq(|cart|, i requires 0 <= i < |cart| => Id(cart[i]))
  }

  /** The keys of the wishlist, in order. */
  function WishIds(wishlist: seq<Product>): (ids: seq<string>)
    ensures |ids| == |wishlist|
    ensures forall i :: 0 <= i < |wishlist| ==> ids[i] == wishlist[i].productId
  {
    seq(|wishlist|, i requires 0 <= i < |wishlist| => wishlist[i].productId)
  }

  predicate InCart(cart: seq<Line>, id: string)
  {
    id in CartIds(cart)
  }

  /** At most one line per product and at most one wishlist entry per product. */
  ghost predicate UniqueKeys(s: State)
  {
    NoDuplicates(CartIds(s.cart)) && NoDuplicates(WishIds(s.wishlist))
  }

  /** Every line holds at least one unit. */
  ghost predicate PositiveQuantities(cart: seq<Line>)
  {
    forall i :: 0 <= i < |cart| ==> cart[i].quantity >= 1
  }

  /** `Array.prototype.find` on the cart. */
  function FindLine(cart: seq<Line>, id: string): (r: Option<Line>)
    ensures r.Some? <==> InCart(cart, id)
    ensures r.Some? ==> r.value in cart && Id(r.value) == id
  {
    if |cart| == 0 then None
    else if Id(cart[0]) == id then Some(cart[0])
    else FindLine(cart[1..], id)
  }

  /** Like `find`, the lookup returns the first line for the id. */
  lemma {:induction false} FindLineIsFirst(cart: seq<Line>, id: string)
    ensures FindLine(cart, id).Some? ==> exists i :: FirstWithId(cart, id, i) && cart[i] == FindLine(cart, id).value
  {
    if |cart| > 0 {
      if Id(cart[0]) == id {
        assert FirstWithId(cart, id, 0);
      } else {
        FindLineIsFirst(cart[1..], id);
        if FindLine(cart[1..], id).Some? {
          var i :| FirstWithId(cart[1..], id, i) && cart[1..][i] == FindLine(cart[1..], id).value;
          assert FirstWithId(cart, id, i + 1);
        }
      }
    }
  }

  /** `i` is the first position of a line for `id`. */
  ghost predicate FirstWithId(cart: seq<Line>, id: string, i: int)
  {
    0 <= i < |cart| && Id(cart[i]) == id && forall k :: 0 <= k < i ==> Id(cart[k]) != id
  }

  /** `Array.prototype.find` on the wishlist. */
  function FindWish(wishlist: seq<Product>, id: string): (r: Option<Product>)
    ensures r.Some? <==> id in WishIds(wishlist)
    ensures r.Some? ==> r.value in wishlist && r.value.productId == id
  {
    if |wishlist| == 0 then None
    else if wishlist[0].productId == id then Some(wishlist[0])
    else FindWish(wishlist[1..], id)
  }

  /** Units of `id` in the cart: the quantity of its line, or 0. */
  function QuantityOf(cart: seq<Line>, id: string): int
  {
    match FindLine(cart, id)
    case Some(l) => l.quantity
    case None => 0
  }

  // ---------------------------------------------------------------------
  // Sums read by getCartTotal and getCartCount.
  // ---------------------------------------------------------------------

  /**
   * `price * n`, written as repeated addition; `TimesIsProduct` shows it is
   * the product. Sums of line totals then stay linear arithmetic.
   */
  function Times(price: real, n: int): real
    decreases if n < 0 then -n else n
  {
    if n == 0 then 0.0
    else if n > 0 then Times(price, n - 1) + price
    else Times(price, n + 1) - price
  }

  lemma {:induction false} TimesIsProduct(price: real, n: int)
    ensures Times(price, n) == price * n as real
    decreases if n < 0 then -n else n
  {
    if n > 0 {
      TimesIsProduct(price, n - 1);
    } else if n < 0 {
      TimesIsProduct(price, n + 1);
    }
  }

  /** Multiplying by a sum of counts is the sum of the products. */
  lemma TimesAdd(price: real, a: int, b: int)
    ensures Times(price, a + b) == Times(price, a) + Times(price, b)
  {
    TimesIsProduct(price, a + b);
    TimesIsProduct(price, a);
    TimesIsProduct(price, b);
    assert price * (a + b) as real == price * a as real + price * b as real;
  }

  /** `item.extracted_price * item.quantity`. */
  function LineTotal(l: Line): real
  {
    Times(l.product.extractedPrice, l.quantity)
  }

  /** `cartItems.reduce((t, item) => t + item.extracted_price * item.quantity, 0)`. */
  function Total(cart: seq<Line>): real
  {
    if |cart| == 0 then 0.0 else LineTotal(cart[0]) + Total(cart[1..])
  }

  /** `cartItems.reduce((n, item) => n + item.quantity, 0)`. */
  function Count(cart: seq<Line>): int
  {
    if |cart| == 0 then 0 else cart[0].quantity + Count(cart[1..])
  }

  /**
   * The `reduce` of `getCartTotal` as written: left to right, from the
   * running total `acc`.
   */
  function ReduceTotal(cart: seq<Line>, acc: real): real
  {
    if |cart| == 0 then acc else ReduceTotal(cart[1..], acc + LineTotal(cart[0]))
  }

  /** The `reduce` of `getCartCount` as written, from the running count `acc`. */
  function ReduceCount(cart: seq<Line>, acc: int): int
  {
    if |cart| == 0 then acc else ReduceCount(cart[1..], acc + cart[0].quantity)
  }

  /** `getCartTotal()` is `Total`: the left-to-right reduce from 0 adds every line's price times quantity. */
  lemma TotalIsReduce(cart: seq<Line>)
    ensures ReduceTotal(cart, 0.0) == Total(cart)
  {
    ReduceTotalFrom(cart, 0.0);
  }

  lemma {:induction false} ReduceTotalFrom(cart: seq<Line>, acc: real)
    ensures ReduceTotal(cart, acc) == acc + Total(cart)
  {
    if |cart| > 0 {
      ReduceTotalFrom(cart[1..], acc + LineTotal(cart[0]));
    }
  }

  /** `getCartCount()` is `Count`: the left-to-right reduce from 0 adds every line's quantity. */
  lemma CountIsReduce(cart: seq<Line>)
    ensures ReduceCount(cart, 0) == Count(cart)
  {
    ReduceCountFrom(cart, 0);
  }

  lemma {:induction false} ReduceCountFrom(cart: seq<Line>, acc: int)
    ensures ReduceCount(cart, acc) == acc + Count(cart)
  {
    if |cart| > 0 {
      ReduceCountFrom(cart[1..], acc + cart[0].quantity);
    }
  }

  lemma {:induction false} TotalAppend(cart: seq<Line>, l: Line)
    ensures Total(cart + [l]) == Total(cart) + LineTotal(l)
    ensures Count(cart + [l]) == Count(cart) + l.quantity
  {
    if |cart| > 0 {
      TotalAppend(cart[1..], l);
      assert (cart + [l])[1..] == cart[1..] + [l];
    }
  }

  /** Sums over the cart with every line's quantity non-negative are non-negative. */
  lemma {:induction false} TotalsNonNegative(cart: seq<Line>)
    requires forall i :: 0 <= i < |cart| ==> cart[i].quantity >= 0 && cart[i].product.extractedPrice >= 0.0
    ensures Total(cart) >= 0.0 && Count(cart) >= 0
  {
    if |cart| > 0 {
      TotalsNonNegative(cart[1..]);
      TimesIsProduct(cart[0].product.extractedPrice, cart[0].quantity);
    }
  }

  // ---------------------------------------------------------------------
  // The two `.map` rewrites of the cart.
  // ---------------------------------------------------------------------

  /** Adds `delta` to the quantity of every line of product `id`. */
  function Bump(cart: seq<Line>, id: string, delta: int): (r: seq<Line>)
    ensures |r| == |cart| && CartIds(r) == CartIds(cart)
    ensures forall i :: 0 <= i < |cart| ==>
      r[i] == if Id(cart[i]) == id then cart[i].(quantity := cart[i].quantity + delta) else cart[i]
  {
    seq(|cart|, i requires 0 <= i < |cart| =>
      if Id(cart[i]) == id then cart[i].(quantity := cart[i].quantity + delta) else cart[i])
  }

  /** Sets the quantity of every line of product `id`. */
  function SetQuantity(cart: seq<Line>, id: string, quantity: int): (r: seq<Line>)
    ensures |r| == |cart| && CartIds(r) == CartIds(cart)
    ensures forall i :: 0 <= i < |cart| ==>
      r[i] == if Id(cart[i]) == id then cart[i].(quantity := quantity) else cart[i]
  {
    seq(|cart|, i requires 0 <= i < |cart| =>
      if Id(cart[i]) == id then cart[i].(quantity := quantity) else cart[i])
  }

  /** In a cart with distinct keys, the first line's key is not among the rest. */
  lemma HeadKeyUnique(cart: seq<Line>)
    requires |cart| > 0 && NoDuplicates(CartIds(cart))
    ensures !InCart(cart[1..], Id(cart[0]))
    ensures NoDuplicates(CartIds(cart[1..]))
  {
    assert CartIds(cart[1..]) == CartIds(cart)[1..];
  }

  /**
   * With one line `l` for `id`, bumping it changes that line alone: `find`
   * returns it with the new quantity, and the sums move by its change.
   */
  lemma {:induction false} BumpLine(cart: seq<Line>, id: string, delta: int, l: Line)
    requires NoDuplicates(CartIds(cart))
    requires FindLine(cart, id) == Some(l)
    ensures FindLine(Bump(cart, id, delta), id) == Some(l.(quantity := l.quantity + delta))
    ensures Count(Bump(cart, id, delta)) == Count(cart) + delta
    ensures Total(Bump(cart, id, delta)) == Total(cart) - LineTotal(l) + LineTotal(l.(quantity := l.quantity + delta))
  {
    BumpFound(cart, id, delta, l);
    BumpSums(cart, id, delta, l);
  }

  lemma {:induction false} BumpFound(cart: seq<Line>, id: string, delta: int, l: Line)
    requires NoDuplicates(CartIds(cart))
    requires FindLine(cart, id) == Some(l)
    ensures FindLine(Bump(cart, id, delta), id) == Some(l.(quantity := l.quantity + delta))
  {
    assert Bump(cart, id, delta)[1..] == Bump(cart[1..], id, delta);
    HeadKeyUnique(cart);
    if Id(cart[0]) != id {
      BumpFound(cart[1..], id, delta, l);
    }
  }

  lemma {:induction false} BumpSums(cart: seq<Line>, id: string, delta: int, l: Line)
    requires NoDuplicates(CartIds(cart))
    requires FindLine(cart, id) == Some(l)
    ensures Count(Bump(cart, id, delta)) == Count(cart) + delta
    ensures Total(Bump(cart, id, delta)) == Total(cart) - LineTotal(l) + LineTotal(l.(quantity := l.quantity + delta))
  {
    assert Bump(cart, id, delta)[1..] == Bump(cart[1..], id, delta);
    HeadKeyUnique(cart);
    if Id(cart[0]) == id {
      UntouchedSums(cart[1..], id, delta);
    } else {
      BumpSums(cart[1..], id, delta, l);
    }
  }

  /** A sum that trades a share `a` for `a + extra` grows by `extra`. */
  lemma Rebalance(after: real, before: real, a: real, b: real, extra: real)
    requires after == before - a + b && b == a + extra
    ensures after == before + extra
  {
  }

  /** Bumping a product that has no line changes nothing. */
  lemma {:induction false} UntouchedSums(cart: seq<Line>, id: string, delta: int)
    requires !InCart(cart, id)
    ensures Bump(cart, id, delta) == cart
  {
  }

  // ---------------------------------------------------------------------
  // Cart operations.
  // ---------------------------------------------------------------------

  /**
   * `addToCart(product, quantity)`: a product already in the cart gains
   * `quantity` units on its line; a new product gets a line at the end with
   * `quantity` units and the default variants. The quantity is not checked.
   */
  function AddToCart(s: State, p: Product, quantity: int): (r: State)
    ensures r.wishlist == s.wishlist
    ensures InCart(s.cart, p.productId) ==>
      && CartIds(r.cart) == CartIds(s.cart)
      && (forall i :: 0 <= i < |s.cart| ==> r.cart[i].product == s.cart[i].product)
      && (forall i :: 0 <= i < |s.cart| ==> r.cart[i].variants == s.cart[i].variants)
      && (forall i :: 0 <= i < |s.cart| && Id(s.cart[i]) == p.productId ==>
            r.cart[i].quantity == s.cart[i].quantity + quantity)
    ensures !InCart(s.cart, p.productId) ==>
      r.cart == s.cart + [Line(p, quantity, Some(DefaultVariants))]
    ensures forall i :: 0 <= i < |s.cart| && Id(s.cart[i]) != p.productId ==> r.cart[i] == s.cart[i]
    ensures NoDuplicates(CartIds(s.cart)) ==>
      && NoDuplicates(CartIds(r.cart))
      && QuantityOf(r.cart, p.productId) == QuantityOf(s.cart, p.productId) + quantity
      && Count(r.cart) == Count(s.cart) + quantity
    ensures PositiveQuantities(s.cart) && quantity >= 1 ==> PositiveQuantities(r.cart)
  {
    match FindLine(s.cart, p.productId)
    case Some(existing) =>
      var cart := Bump(s.cart, p.productId, quantity);
      if NoDuplicates(CartIds(s.cart)) then
        BumpLine(s.cart, p.productId, quantity, existing);
        State(cart, s.wishlist)
      else
        State(cart, s.wishlist)
    case None =>
      AppendLine(s.cart, p, quantity);
      State(s.cart + [Line(p, quantity, Some(DefaultVariants))], s.wishlist)
  }

  /** A line appended for an absent product keeps the keys unique and adds its units. */
  lemma AppendLine(cart: seq<Line>, p: Product, quantity: int)
    requires !InCart(cart, p.productId)
    ensures var c := cart + [Line(p, quantity, Some(DefaultVariants))];
      && CartIds(c) == CartIds(cart) + [p.productId]
      && (NoDuplicates(CartIds(cart)) ==> NoDuplicates(CartIds(c)))
      && QuantityOf(c, p.productId) == QuantityOf(cart, p.productId) + quantity
      && Count(c) == Count(cart) + quantity
      && (PositiveQuantities(cart) && quantity >= 1 ==> PositiveQuantities(c))
  {
    var line := Line(p, quantity, Some(DefaultVariants));
    TotalAppend(cart, line);
    assert CartIds(cart + [line]) == CartIds(cart) + [p.productId];
    NewLineFound(cart, line);
  }

  /** The line appended for an absent product is the one `find` returns. */
  lemma {:induction false} NewLineFound(cart: seq<Line>, l: Line)
    requires !InCart(cart, Id(l))
    ensures FindLine(cart + [l], Id(l)) == Some(l)
  {
    if |cart| > 0 {
      assert (cart + [l])[1..] == cart[1..] + [l];
      assert CartIds(cart[1..]) == CartIds(cart)[1..];
      NewLineFound(cart[1..], l);
    }
  }

  /** The `filter` callback of `removeFromCart`: lines of other products. */
  function OtherLine(id: string): Line -> bool
  {
    (l: Line) => Id(l) != id
  }

  /** The `filter` callback of `removeFromWishlist`: entries of other products. */
  function OtherProduct(id: string): Product -> bool
  {
    (p: Product) => p.productId != id
  }

  /** `removeFromCart(productId)`: drops every line of that product. */
  function RemoveFromCart(s: State, id: string): (r: State)
    ensures r.wishlist == s.wishlist
    ensures !InCart(r.cart, id)
    ensures forall l :: l in r.cart <==> l in s.cart && Id(l) != id
    ensures IsSubsequence(r.cart, s.cart)
    ensures NoDuplicates(CartIds(s.cart)) ==> NoDuplicates(CartIds(r.cart))
    ensures PositiveQuantities(s.cart) ==> PositiveQuantities(r.cart)
  {
    var cart := Filter(s.cart, OtherLine(id));
    if NoDuplicates(CartIds(s.cart)) then
      SubsequenceKeepsDistinctKeys(cart, s.cart, Id);
      State(cart, s.wishlist)
    else
      State(cart, s.wishlist)
  }

  /**
   * `updateQuantity(productId, quantity)`: a quantity of zero or less
   * removes the product; otherwise its line is set to exactly `quantity`.
   */
  function UpdateQuantity(s: State, id: string, quantity: int): (r: State)
    ensures r.wishlist == s.wishlist
    ensures quantity <= 0 ==> r == RemoveFromCart(s, id)
    ensures quantity > 0 ==>
      && CartIds(r.cart) == CartIds(s.cart)
      && forall i :: 0 <= i < |s.cart| ==>
           r.cart[i] == if Id(s.cart[i]) == id then s.cart[i].(quantity := quantity) else s.cart[i]
    ensures quantity > 0 && InCart(s.cart, id) ==> QuantityOf(r.cart, id) == quantity
    ensures quantity > 0 && !InCart(s.cart, id) ==> r == s
    ensures PositiveQuantities(s.cart) ==> PositiveQuantities(r.cart)
  {
    if quantity <= 0 then RemoveFromCart(s, id)
    else
      var cart := SetQuantity(s.cart, id, quantity);
      SetQuantityFound(s.cart, id, quantity);
      State(cart, s.wishlist)
  }

  lemma {:induction false} SetQuantityFound(cart: seq<Line>, id: string, quantity: int)
    ensures InCart(cart, id) ==> QuantityOf(SetQuantity(cart, id, quantity), id) == quantity
    ensures !InCart(cart, id) ==> SetQuantity(cart, id, quantity) == cart
  {
    if |cart| > 0 {
      var r := SetQuantity(cart, id, quantity);
      assert r[1..] == SetQuantity(cart[1..], id, quantity);
      assert CartIds(cart[1..]) == CartIds(cart)[1..];
      SetQuantityFound(cart[1..], id, quantity);
    }
  }

  /** `clearCart()`: the cart becomes empty and the wishlist is kept. */
  function ClearCart(s: State): (r: State)
    ensures r.cart == [] && r.wishlist == s.wishlist
    ensures Total(r.cart) == 0.0 && Count(r.cart) == 0
  {
    State([], s.wishlist)
  }

  /** `getCartTotal()`. */
  function CartTotal(s: State): real
  {
    Total(s.cart)
  }

  /** `getCartCount()`. */
  function CartCount(s: State): int
  {
    Count(s.cart)
  }

  // ---------------------------------------------------------------------
  // Wishlist operations.
  // ---------------------------------------------------------------------

  /** `isInWishlist(productId)`: some wishlist entry has that `product_id`. */
  function IsInWishlist(s: State, id: string): (b: bool)
    ensures b <==> exists i :: 0 <= i < |s.wishlist| && s.wishlist[i].productId == id
  {
    var ids := WishIds(s.wishlist);
    assert forall i :: 0 <= i < |s.wishlist| ==> ids[i] == s.wishlist[i].productId;
    id in ids
  }

  /** `addToWishlist(product)`: appends the product unless its key is already there. */
  function AddToWishlist(s: State, p: Product): (r: State)
    ensures r.cart == s.cart
    ensures IsInWishlist(r, p.productId)
    ensures IsInWishlist(s, p.productId) ==> r == s
    ensures !IsInWishlist(s, p.productId) ==> r.wishlist == s.wishlist + [p]
    ensures NoDuplicates(WishIds(s.wishlist)) ==> NoDuplicates(WishIds(r.wishlist))
  {
    match FindWish(s.wishlist, p.productId)
    case Some(_) => s
    case None =>
      assert WishIds(s.wishlist + [p]) == WishIds(s.wishlist) + [p.productId];
      State(s.cart, s.wishlist + [p])
  }

  /** `removeFromWishlist(productId)`: drops every entry with that key. */
  function RemoveFromWishlist(s: State, id: string): (r: State)
    ensures r.cart == s.cart
    ensures !IsInWishlist(r, id)
    ensures forall p :: p in r.wishlist <==> p in s.wishlist && p.productId != id
    ensures IsSubsequence(r.wishlist, s.wishlist)
    ensures NoDuplicates(WishIds(s.wishlist)) ==> NoDuplicates(WishIds(r.wishlist))
  {
    var wishlist := Filter(s.wishlist, OtherProduct(id));
    if NoDuplicates(WishIds(s.wishlist)) then
      SubsequenceKeepsDistinctKeys(wishlist, s.wishlist, (p: Product) => p.productId);
      State(s.cart, wishlist)
    else
      State(s.cart, wishlist)
  }

  /**
   * `moveToCart(productId)`: a wishlisted product gains one unit in the cart
   * (through `addToCart`) and leaves the wishlist; otherwise nothing changes.
   */
  function MoveToCart(s: State, id: string): (r: State)
    ensures !IsInWishlist(s, id) ==> r == s
    ensures IsInWishlist(s, id) ==>
      && !IsInWishlist(r, id)
      && InCart(r.cart, id)
      && forall p :: p in r.wishlist <==> p in s.wishlist && p.productId != id
    ensures IsInWishlist(s, id) ==> r.wishlist == Filter(s.wishlist, OtherProduct(id))
    ensures IsInWishlist(s, id) ==> |s.cart| <= |r.cart| <= |s.cart| + 1
    ensures IsInWishlist(s, id) ==>
      forall i :: 0 <= i < |s.cart| && Id(s.cart[i]) != id ==> r.cart[i] == s.cart[i]
    ensures IsInWishlist(s, id) && InCart(s.cart, id) ==>
      && CartIds(r.cart) == CartIds(s.cart)
      && (forall i :: 0 <= i < |s.cart| ==> r.cart[i].product == s.cart[i].product)
      && (forall i :: 0 <= i < |s.cart| ==> r.cart[i].variants == s.cart[i].variants)
    ensures IsInWishlist(s, id) && !InCart(s.cart, id) ==>
      && FindWish(s.wishlist, id).Some?
      && r.cart == s.cart + [Line(FindWish(s.wishlist, id).value, 1, Some(DefaultVariants))]
    ensures UniqueKeys(s) ==> UniqueKeys(r)
    ensures UniqueKeys(s) && IsInWishlist(s, id) ==>
      && QuantityOf(r.cart, id) == QuantityOf(s.cart, id) + 1
      && Count(r.cart) == Count(s.cart) + 1
    ensures PositiveQuantities(s.cart) ==> PositiveQuantities(r.cart)
  {
    match FindWish(s.wishlist, id)
    case None => s
    case Some(item) =>
      var added := AddToCart(s, item, 1);
      assert InCart(added.cart, id) by {
        if InCart(s.cart, id) { assert CartIds(added.cart) == CartIds(s.cart); }
        else { assert CartIds(added.cart)[|s.cart|] == id; }
      }
      RemoveFromWishlist(added, id)
  }

  // ---------------------------------------------------------------------
  // Properties relating several operations.
  // ---------------------------------------------------------------------

  /** Adding a product absent from the cart and then removing it restores the cart. */
  lemma AddThenRemove(s: State, p: Product, quantity: int)
    requires !InCart(s.cart, p.productId)
    ensures RemoveFromCart(AddToCart(s, p, quantity), p.productId) == s
  {
    var line := Line(p, quantity, Some(DefaultVariants));
    var keep := OtherLine(p.productId);
    assert AddToCart(s, p, quantity).cart == s.cart + [line];
    assert !keep(line);
    assert forall i :: 0 <= i < |s.cart| ==> keep(s.cart[i]) by {
      forall i | 0 <= i < |s.cart| ensures keep(s.cart[i]) {
        assert CartIds(s.cart)[i] == Id(s.cart[i]);
      }
    }
    FilterDropsLast(s.cart, line, keep);
  }

  /** Unit price on the line of `id`, or 0 when the product has none. */
  function UnitPrice(cart: seq<Line>, id: string): real
  {
    match FindLine(cart, id)
    case Some(l) => l.product.extractedPrice
    case None => 0.0
  }

  /**
   * In a cart with distinct keys, adding `quantity` units raises the total by
   * the unit price on the product's line times `quantity`.
   */
  lemma AddToCartTotal(s: State, p: Product, quantity: int)
    requires NoDuplicates(CartIds(s.cart))
    ensures InCart(AddToCart(s, p, quantity).cart, p.productId)
    ensures Total(AddToCart(s, p, quantity).cart)
         == Total(s.cart) + Times(UnitPrice(AddToCart(s, p, quantity).cart, p.productId), quantity)
  {
    match FindLine(s.cart, p.productId)
    case Some(l) =>
      AddExistingTotal(s.cart, p.productId, quantity, l);
      assert AddToCart(s, p, quantity).cart == Bump(s.cart, p.productId, quantity);
    case None =>
      AddNewTotal(s.cart, p, quantity);
      assert AddToCart(s, p, quantity).cart == s.cart + [Line(p, quantity, Some(DefaultVariants))];
  }

  lemma AddExistingTotal(cart: seq<Line>, id: string, quantity: int, l: Line)
    requires NoDuplicates(CartIds(cart))
    requires FindLine(cart, id) == Some(l)
    ensures InCart(Bump(cart, id, quantity), id)
    ensures UnitPrice(Bump(cart, id, quantity), id) == l.product.extractedPrice
    ensures Total(Bump(cart, id, quantity)) == Total(cart) + Times(l.product.extractedPrice, quantity)
  {
    BumpLine(cart, id, quantity, l);
    BumpedLineTotal(l, quantity);
    Rebalance(Total(Bump(cart, id, quantity)), Total(cart), LineTotal(l),
      LineTotal(l.(quantity := l.quantity + quantity)), Times(l.product.extractedPrice, quantity));
  }

  /** A line that gains `quantity` units gains their price. */
  lemma BumpedLineTotal(l: Line, quantity: int)
    ensures LineTotal(l.(quantity := l.quantity + quantity)) == LineTotal(l) + Times(l.product.extractedPrice, quantity)
  {
    TimesAdd(l.product.extractedPrice, l.quantity, quantity);
  }

  lemma AddNewTotal(cart: seq<Line>, p: Product, quantity: int)
    requires !InCart(cart, p.productId)
    ensures var line := Line(p, quantity, Some(DefaultVariants));
      && FindLine(cart + [line], p.productId) == Some(line)
      && UnitPrice(cart + [line], p.productId) == p.extractedPrice
      && Total(cart + [line]) == Total(cart) + Times(p.extractedPrice, quantity)
  {
    var line := Line(p, quantity, Some(DefaultVariants));
    TotalAppend(cart, line);
    NewLineFound(cart, line);
  }

  /** Adding 2 then 3 units of a new product leaves one line holding 5. */
  lemma QuantitiesAccumulate(s: State, p: Product)
    requires !InCart(s.cart, p.productId)
    ensures var r := AddToCart(AddToCart(s, p, 2), p, 3);
      && |r.cart| == |s.cart| + 1
      && r.cart[|s.cart|] == Line(p, 5, Some(DefaultVariants))
  {
    var once := AddToCart(s, p, 2);
    assert InCart(once.cart, p.productId) by {
      assert CartIds(once.cart)[|s.cart|] == p.productId;
    }
  }

  /** Setting a quantity of zero or less is removal. */
  lemma UpdateToZeroRemoves(s: State, id: string, quantity: int)
    requires quantity <= 0
    ensures UpdateQuantity(s, id, quantity) == RemoveFromCart(s, id)
    ensures !InCart(UpdateQuantity(s, id, quantity).cart, id)
  {
  }

  /** `addToCart` does not guard its quantity: a zero-unit line can be created. */
  lemma AddZeroBreaksFloor(p: Product)
    ensures !PositiveQuantities(AddToCart(Empty, p, 0).cart)
  {
    assert AddToCart(Empty, p, 0).cart[0].quantity == 0;
  }

  /** Adding to the wishlist twice is adding once. */
  lemma AddToWishlistIdempotent(s: State, p: Product)
    ensures AddToWishlist(AddToWishlist(s, p), p) == AddToWishlist(s, p)
  {
  }

  /** Wishlisting a product not yet in cart or wishlist, then moving it, leaves one unit in the cart. */
  lemma WishlistThenMove(s: State, p: Product)
    requires UniqueKeys(s)
    requires !InCart(s.cart, p.productId) && !IsInWishlist(s, p.productId)
    ensures var r := MoveToCart(AddToWishlist(s, p), p.productId);
      && !IsInWishlist(r, p.productId)
      && QuantityOf(r.cart, p.productId) == 1
      && r.wishlist == s.wishlist
  {
    var w := AddToWishlist(s, p);
    var r := MoveToCart(w, p.productId);
    assert QuantityOf(s.cart, p.productId) == 0;
    FilterSnoc(s.wishlist, p, OtherProduct(p.productId));
    FilterAll(s.wishlist, OtherProduct(p.productId));
  }

  /** The totals of the empty cart are zero. */
  lemma EmptyTotals()
    ensures CartTotal(Empty) == 0.0 && CartCount(Empty) == 0
  {
  }

  // ---------------------------------------------------------------------
  // Any sequence of store actions keeps the keys unique.
  // ---------------------------------------------------------------------

  datatype Action =
    | Add(product: Product, quantity: int)
    | Remove(id: string)
    | Update(id: string, quantity: int)
    | Clear
    | Wish(product: Product)
    | Unwish(id: string)
    | Move(id: string)

  function Step(s: State, a: Action): State
  {
    match a
    case Add(p, q) => AddToCart(s, p, q)
    case Remove(id) => RemoveFromCart(s, id)
    case Update(id, q) => UpdateQuantity(s, id, q)
    case Clear => ClearCart(s)
    case Wish(p) => AddToWishlist(s, p)
    case Unwish(id) => RemoveFromWishlist(s, id)
    case Move(id) => MoveToCart(s, id)
  }

  function Run(s: State, actions: seq<Action>): State
    decreases |actions|
  {
    if |actions| == 0 then s else Run(Step(s, actions[0]), actions[1..])
  }

  /** The store invariant: distinct keys, and at least one unit on every line. */
  ghost predicate Valid(s: State)
  {
    UniqueKeys(s) && PositiveQuantities(s.cart)
  }

  /** Actions that respect the invariant: every one but an `addToCart` below one unit. */
  predicate Guarded(a: Action)
  {
    a.Add? ==> a.quantity >= 1
  }

  /** Every guarded action keeps the store invariant. */
  lemma StepKeepsValid(s: State, a: Action)
    requires Valid(s) && Guarded(a)
    ensures Valid(Step(s, a))
  {
    match a
    case Add(p, q) =>
    case Remove(id) =>
    case Update(id, q) =>
    case Clear =>
    case Wish(p) =>
    case Unwish(id) =>
    case Move(id) =>
  }

  /** Starting from a valid store, any run of guarded actions keeps it valid. */
  lemma {:induction false} RunKeepsValid(s: State, actions: seq<Action>)
    requires Valid(s)
    requires forall i :: 0 <= i < |actions| ==> Guarded(actions[i])
    ensures Valid(Run(s, actions))
    decreases |actions|
  {
    if |actions| > 0 {
      StepKeepsValid(s, actions[0]);
      RunKeepsValid(Step(s, actions[0]), actions[1..]);
    }
  }

  /** Every store reached from the empty one by guarded actions is valid. */
  lemma ReachableValid(actions: seq<Action>)
    requires forall i :: 0 <= i < |actions| ==> Guarded(actions[i])
    ensures Valid(Run(Empty, actions))
  {
    EmptyValid();
    RunKeepsValid(Empty, actions);
  }

  lemma EmptyValid()
    ensures Valid(Empty)
  {
  }
}
