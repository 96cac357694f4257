/**
 * The cart page: its own copies of the cart and wishlist operations (which
 * differ from the store's), the promo-code table, the price breakdown and
 * the payload handed to checkout. Server calls are left out; each
 * operation is the change the page makes to its local state.
 */
module CartPage {
  import opened Wrappers
  import opened Seqs
  import opened Text
  import opened CartStore

  const SavingsRate: real := 0.1
  const PromoRate: real := 0.1
  const GiftWrapCharge: real := 4.99
  const ExpressCharge: real := 9.99
  const StandardCharge: real := 5.99
  const FreeShippingAbove: real := 100.0
  const TaxRate: real := 0.08

  /** The codes the page accepts, compared after upper-casing. */
  const PromoCodes: set<string> := {"SAVE10", "SAVE20", "FIRST50"}

  // ---------------------------------------------------------------------
  // Local list operations.
  // ---------------------------------------------------------------------

  /**
   * The page's `updateQuantity`: a quantity below one and an unknown
   * product are ignored; otherwise the product's line is set to `quantity`.
   */
  function UpdateQuantity(cart: seq<Line>, id: string, quantity: int): (r: seq<Line>)
    ensures quantity < 1 || !InCart(cart, id) ==> r == cart
    ensures CartIds(r) == CartIds(cart)
    ensures quantity >= 1 && InCart(cart, id) ==> QuantityOf(r, id) == quantity
    ensures forall i :: 0 <= i < |cart| && Id(cart[i]) != id ==> r[i] == cart[i]
  {
    if quantity < 1 then cart
    else
      match FindLine(cart, id)
      case None => cart
      case Some(_) =>
        SetQuantityFound(cart, id, quantity);
        SetQuantity(cart, id, quantity)
  }

  /** For a quantity of at least one, the page and the store agree. */
  lemma UpdateAgreesWithStoreAboveZero(s: State, id: string, quantity: int)
    requires quantity >= 1
    ensures UpdateQuantity(s.cart, id, quantity) == CartStore.UpdateQuantity(s, id, quantity).cart
  {
    SetQuantityFound(s.cart, id, quantity);
  }

  /** Below one unit the store removes the line, while the page keeps it. */
  lemma UpdateDiffersFromStoreAtZero(s: State, id: string, quantity: int)
    requires quantity < 1 && InCart(s.cart, id)
    ensures InCart(UpdateQuantity(s.cart, id, quantity), id)
    ensures !InCart(CartStore.UpdateQuantity(s, id, quantity).cart, id)
  {
  }

  /** The page's `addToWishlist`: appends without checking for the product. */
  function AddToWishlist(wishlist: seq<Line>, item: Line): (r: seq<Line>)
    ensures |r| == |wishlist| + 1 && r[|wishlist|] == item
    ensures r[..|wishlist|] == wishlist
  {
    wishlist + [item]
  }

  /** Unlike the store, adding the same item twice leaves two entries for it. */
  lemma AddToWishlistTwiceDuplicates(wishlist: seq<Line>, item: Line)
    ensures !NoDuplicates(CartIds(AddToWishlist(AddToWishlist(wishlist, item), item)))
  {
    var r := AddToWishlist(AddToWishlist(wishlist, item), item);
    assert CartIds(r)[|wishlist|] == CartIds(r)[|wishlist| + 1];
  }

  /** The page's `removeFromWishlist`: drops every entry of the product. */
  function RemoveFromWishlist(wishlist: seq<Line>, id: string): (r: seq<Line>)
    ensures !InCart(r, id)
    ensures forall l :: l in r <==> l in wishlist && Id(l) != id
    ensures IsSubsequence(r, wishlist)
  {
    Filter(wishlist, OtherLine(id))
  }

  /**
   * The page's `moveToCart`: a wishlisted item is appended to the cart as it
   * is, without merging into an existing line, and leaves the wishlist.
   */
  function MoveToCart(cart: seq<Line>, wishlist: seq<Line>, id: string): (r: (seq<Line>, seq<Line>))
    ensures !InCart(wishlist, id) ==> r == (cart, wishlist)
    ensures InCart(wishlist, id) ==>
      && |r.0| == |cart| + 1 && r.0[..|cart|] == cart && Id(r.0[|cart|]) == id
      && r.0[|cart|] in wishlist && FindLine(wishlist, id) == Some(r.0[|cart|])
      && r.1 == RemoveFromWishlist(wishlist, id)
  {
    match FindLine(wishlist, id)
    case None => (cart, wishlist)
    case Some(item) => (cart + [item], RemoveFromWishlist(wishlist, id))
  }

  /** Moving a product that already has a cart line gives it a second line. */
  lemma MoveToCartCanDuplicate(cart: seq<Line>, wishlist: seq<Line>, id: string)
    requires InCart(cart, id) && InCart(wishlist, id)
    ensures !NoDuplicates(CartIds(MoveToCart(cart, wishlist, id).0))
  {
    var r := MoveToCart(cart, wishlist, id).0;
    var i :| 0 <= i < |cart| && CartIds(cart)[i] == id;
    assert r[i] == cart[i];
    assert CartIds(r)[i] == CartIds(r)[|cart|];
  }

  // ---------------------------------------------------------------------
  // Promo codes.
  // ---------------------------------------------------------------------

  /** `applyPromoCode`: a known code, in any letter case, sets the flag; anything else keeps it. */
  function ApplyPromoCode(code: string, promoApplied: bool): (r: bool)
    ensures Upper(code) in PromoCodes ==> r
    ensures Upper(code) !in PromoCodes ==> r == promoApplied
  {
    if Upper(code) == "SAVE10" then true
    else if Upper(code) == "SAVE20" then true
    else if Upper(code) == "FIRST50" then true
    else promoApplied
  }

  /** The letter case a code is typed in does not matter. */
  lemma PromoCodeCaseInsensitive(code: string, promoApplied: bool)
    ensures ApplyPromoCode(Lower(code), promoApplied) == ApplyPromoCode(code, promoApplied)
  {
    UpperOfLower(code);
  }

  // ---------------------------------------------------------------------
  // Price breakdown.
  // ---------------------------------------------------------------------

  datatype Options = Options(promoApplied: bool, giftWrap: bool, expressShipping: bool)

  datatype Breakdown = Breakdown(
    subtotal: real, savings: real, discount: real, giftWrapFee: real,
    shippingFee: real, tax: real, total: real)

  /** `reduce((sum, item) => sum + item.extracted_price * item.quantity * 0.1, 0)`. */
  function Savings(cart: seq<Line>): real
  {
    if |cart| == 0 then 0.0 else LineTotal(cart[0]) * SavingsRate + Savings(cart[1..])
  }

  /** The advertised savings are a tenth of the subtotal. */
  lemma {:induction false} SavingsIsTenthOfSubtotal(cart: seq<Line>)
    ensures Savings(cart) == SavingsRate * Total(cart)
  {
    if |cart| > 0 {
      SavingsIsTenthOfSubtotal(cart[1..]);
    }
  }

  /** Express costs 9.99; standard shipping is free strictly above 100, else 5.99. */
  function ShippingFee(subtotal: real, expressShipping: bool): (r: real)
    ensures expressShipping ==> r == ExpressCharge
    ensures !expressShipping ==> (r == 0.0 <==> subtotal > FreeShippingAbove)
    ensures !expressShipping && subtotal <= FreeShippingAbove ==> r == StandardCharge
    ensures r >= 0.0
  {
    if expressShipping then ExpressCharge
    else if subtotal > FreeShippingAbove then 0.0
    else StandardCharge
  }

  /** The pricing block of the page. */
  function Price(cart: seq<Line>, opts: Options): (b: Breakdown)
    ensures b.subtotal == Total(cart)
    ensures b.savings == SavingsRate * b.subtotal
    ensures b.discount == (if opts.promoApplied then PromoRate * b.subtotal else 0.0)
    ensures b.giftWrapFee == (if opts.giftWrap then GiftWrapCharge else 0.0)
    ensures b.shippingFee == ShippingFee(b.subtotal, opts.expressShipping)
    ensures b.tax == TaxRate * (b.subtotal - b.discount + b.giftWrapFee + b.shippingFee)
    ensures b.total == (1.0 + TaxRate) * (b.subtotal - b.discount + b.giftWrapFee + b.shippingFee)
  {
    var subtotal := Total(cart);
    SavingsIsTenthOfSubtotal(cart);
    var discount := if opts.promoApplied then subtotal * PromoRate else 0.0;
    var giftWrapFee := if opts.giftWrap then GiftWrapCharge else 0.0;
    var shippingFee := ShippingFee(subtotal, opts.expressShipping);
    var tax := (subtotal - discount + giftWrapFee + shippingFee) * TaxRate;
    Breakdown(subtotal, Savings(cart), discount, giftWrapFee, shippingFee, tax,
      subtotal - discount + giftWrapFee + shippingFee + tax)
  }

  /** Prices and quantities that are not negative keep every part of the breakdown non-negative. */
  lemma PriceNonNegative(cart: seq<Line>, opts: Options)
    requires forall i :: 0 <= i < |cart| ==> cart[i].quantity >= 0 && cart[i].product.extractedPrice >= 0.0
    ensures var b := Price(cart, opts);
      && 0.0 <= b.discount <= b.subtotal
      && b.tax >= 0.0 && b.total >= b.tax
  {
    TotalsNonNegative(cart);
  }

  /** Every accepted code gives the same 10% discount, whichever it was. */
  lemma AllCodesGiveTenPercent(cart: seq<Line>, code: string, giftWrap: bool, expressShipping: bool)
    requires Upper(code) in PromoCodes
    ensures var b := Price(cart, Options(ApplyPromoCode(code, false), giftWrap, expressShipping));
      b.discount == PromoRate * Total(cart)
  {
  }

  /** An empty cart without express shipping still pays standard shipping and its tax. */
  lemma EmptyCartPaysShipping(opts: Options)
    requires !opts.giftWrap && !opts.expressShipping
    ensures Price([], opts).shippingFee == StandardCharge
    ensures Price([], opts).total == (1.0 + TaxRate) * StandardCharge
  {
  }

  /** A subtotal of exactly 100 is not above the threshold, so shipping is charged. */
  lemma ExactlyHundredPaysShipping()
    ensures ShippingFee(100.0, false) == StandardCharge
    ensures ShippingFee(100.01, false) == 0.0
  {
  }

  // ---------------------------------------------------------------------
  // Hand-off to checkout.
  // ---------------------------------------------------------------------

  /** The object `handleCheckout` stores for the checkout page. */
  datatype Payload = Payload(
    items: seq<Line>, subtotal: real, discount: real,
    giftWrap: bool, expressShipping: bool, total: real)

  function HandleCheckout(cart: seq<Line>, opts: Options): (p: Payload)
    ensures p.items == cart
    ensures p.subtotal == Price(cart, opts).subtotal && p.discount == Price(cart, opts).discount
    ensures p.total == Price(cart, opts).total
    ensures p.giftWrap == opts.giftWrap && p.expressShipping == opts.expressShipping
  {
    var b := Price(cart, opts);
    Payload(cart, b.subtotal, b.discount, opts.giftWrap, opts.expressShipping, b.total)
  }
}
