/**
 * The confirmation page: it reads the order record checkout stored and
 * recomputes the summary from the stored subtotal and promo flag.
 */
module ThankYou {
  import opened Wrappers
  import opened JsNum
  import opened PriceText
  import Checkout

  /** `getProductPrice` over a product that may be missing. */
  function ProductPrice(product: Option<Checkout.PriceFields>): (r: Num)
    ensures product.None? ==> r == Finite(0.0)
    ensures product.Some? && product.value.extractedPrice.Some? ==> r == Finite(product.value.extractedPrice.value)
    ensures product.Some? && product.value.extractedPrice.None? && product.value.price.Some? ==>
      r == ExtractPrice(product.value.price.value)
  {
    match product
    case None => Finite(0.0)
    case Some(p) =>
      Checkout.ProductPriceAgreesWithRoute(p.price.GetOr(""));
      Checkout.ProductPrice(p)
  }

  /** For a product that is present, the two pages read the same price. */
  lemma ProductPriceAgreesWithCheckout(p: Checkout.PriceFields)
    ensures ProductPrice(Some(p)) == Checkout.ProductPrice(p)
  {
  }

  /**
   * The summary shown: shipping, discount, tax and total are recomputed from
   * the stored subtotal and `promoApplied`; the stored total is not read.
   */
  function Summary(order: Checkout.FinalOrder): (t: Checkout.Totals)
    ensures t.subtotal == order.subtotal
    ensures t.shipping == 0.0 <==> order.subtotal > Checkout.FreeShippingAbove
    ensures t.discount == (if order.promoApplied then Checkout.PromoRate * order.subtotal else 0.0)
    ensures t.total == (1.0 + Checkout.TaxRate) * (order.subtotal - t.discount + t.shipping)
  {
    var subtotal := order.subtotal;
    var shipping := if subtotal > 100.0 then 0.0 else 9.99;
    var discount := if order.promoApplied then subtotal * 0.1 else 0.0;
    var tax := (subtotal - discount + shipping) * 0.08;
    Checkout.Totals(subtotal, discount, shipping, tax, subtotal - discount + shipping + tax)
  }

  /** For the same subtotal and promo flag, the confirmation repeats checkout's figures. */
  lemma SummaryAgreesWithCheckout(order: Checkout.FinalOrder)
    ensures Summary(order) == Checkout.Price(order.subtotal, order.promoApplied)
  {
  }

  /**
   * The summary shows what checkout charged exactly when the stored flag
   * matches the applied one: whenever no code was typed, or a typed code
   * was also applied.
   */
  lemma SummaryMatchesChargedWhenFlagsAgree(o: Checkout.OrderData, promoCode: string, promoApplied: bool)
    requires (promoCode != "") == promoApplied
    ensures var f := Checkout.FinalOrderOf(o, promoCode, promoApplied);
      Summary(f).discount == f.discount && Summary(f).total == f.total
  {
  }

  /** A code typed but not applied charges no discount, yet the confirmation shows 10% off. */
  lemma TypedCodeShowsUnchargedDiscount(o: Checkout.OrderData, promoCode: string)
    requires promoCode != "" && o.subtotal > 0.0
    ensures var f := Checkout.FinalOrderOf(o, promoCode, false);
      && f.discount == 0.0
      && Summary(f).discount == Checkout.PromoRate * o.subtotal
      && Summary(f).total < f.total
  {
  }

  /** The shipping line reads "Free" exactly when the recomputed shipping is zero. */
  function ShippingLabel(order: Checkout.FinalOrder): (shown: Option<real>)
    ensures shown.None? <==> order.subtotal > Checkout.FreeShippingAbove
    ensures shown.Some? ==> shown.value == Checkout.ShippingCharge
  {
    var shipping := Summary(order).shipping;
    if shipping == 0.0 then None else Some(shipping)
  }
}
