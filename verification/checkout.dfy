/**
 * The checkout page: the order it builds from the cart payload, the form
 * validator, its promo code, the stub mapping from card number to payment
 * result, its own price breakdown, the price helper, the card-number and
 * expiry input formatters, and the order record it stores for the
 * confirmation page.
 */
module Checkout {
  import opened Wrappers
  import opened Text
  import opened JsNum
  import opened PriceText
  import opened CartStore
  import CartPage

  const PromoRate: real := 0.1
  const ShippingCharge: real := 9.99
  const FreeShippingAbove: real := 100.0
  const TaxRate: real := 0.08

  // ---------------------------------------------------------------------
  // The order being checked out.
  // ---------------------------------------------------------------------

  /** The variants shown when the first cart item carries none. */
  const FallbackVariants := Variants("black", "standard")

  datatype OrderData = OrderData(
    product: Option<Line>, items: seq<Line>, variants: Variants,
    quantity: int, subtotal: real, isCartOrder: bool)

  /**
   * The conversion of the stored cart payload: the first item is shown, the
   * quantity is the number of units over all items, and only the subtotal
   * of the cart's breakdown is kept.
   */
  function FromCart(p: CartPage.Payload): (o: OrderData)
    ensures o.items == p.items && o.subtotal == p.subtotal && o.isCartOrder
    ensures o.quantity == Count(p.items)
    ensures |p.items| == 0 <==> o.product.None?
    ensures |p.items| > 0 ==> o.product == Some(p.items[0])
    ensures |p.items| > 0 && p.items[0].variants.Some? ==> o.variants == p.items[0].variants.value
    ensures |p.items| == 0 || p.items[0].variants.None? ==> o.variants == FallbackVariants
  {
    var first := if |p.items| > 0 then Some(p.items[0]) else None;
    var variants :=
      if |p.items| > 0 && p.items[0].variants.Some? then p.items[0].variants.value
      else FallbackVariants;
    OrderData(first, p.items, variants, Count(p.items), p.subtotal, true)
  }

  // ---------------------------------------------------------------------
  // Form validation.
  // ---------------------------------------------------------------------

  datatype Form = Form(
    fullName: string, email: string, phone: string, address: string,
    city: string, state: string, zipCode: string,
    cardNumber: string, expiryDate: string, cvv: string)

  datatype Field = FullName | Email | Phone | Address | City | State | ZipCode | CardNumber

  /** `!s.trim()`. */
  predicate Blank(s: string)
  {
    Trim(s) == ""
  }

  /**
   * `/\S+@\S+\.\S+/.test(s)`, unanchored: some `@` has a non-blank character
   * before it, and after it a run of non-blank characters holds a `.` that
   * is neither its first nor its last character.
   */
  predicate LooseEmail(s: string)
  {
    exists i, j :: 1 <= i < |s| && i + 2 <= j < |s| - 1 && LooseEmailAt(s, i, j)
  }

  /** The `@` of a match sits at `i` and the `.` at `j`. */
  predicate LooseEmailAt(s: string, i: int, j: int)
  {
    && 1 <= i && i + 2 <= j && j + 1 < |s|
    && s[i] == '@' && s[j] == '.'
    && !IsSpace(s[i - 1]) && !IsSpace(s[j + 1])
    && forall k :: i < k < j ==> !IsSpace(s[k])
  }

  /** `/^\d{10,}$/.test(phone.replace(/\D/g, ""))`: at least ten digits. */
  predicate PhoneOk(phone: string)
  {
    |Digits(phone)| >= 10
  }

  const AllFields: set<Field> := {FullName, Email, Phone, Address, City, Field.State, ZipCode, CardNumber}

  /** The message `validateForm` records for one field, if that field fails. */
  function FieldError(f: Form, paymentMethod: string, k: Field): Option<string>
  {
    match k
    case FullName => if Blank(f.fullName) then Some("Full name is required") else None
    case Email =>
      if Blank(f.email) then Some("Email is required")
      else if !LooseEmail(f.email) then Some("Email format is invalid")
      else None
    case Phone =>
      if Blank(f.phone) then Some("Phone number is required")
      else if !PhoneOk(f.phone) then Some("Phone number must be at least 10 digits")
      else None
    case Address => if Blank(f.address) then Some("Address is required") else None
    case City => if Blank(f.city) then Some("City is required") else None
    case State => if Blank(f.state) then Some("State is required") else None
    case ZipCode => if Blank(f.zipCode) then Some("Zip code is required") else None
    case CardNumber =>
      if paymentMethod == "card" && Blank(f.cardNumber) then Some("Card number is required") else None
  }

  /** `validateForm`'s error object: one message per failing field. */
  function FormErrors(f: Form, paymentMethod: string): (errors: map<Field, string>)
    ensures FullName in errors <==> Blank(f.fullName)
    ensures Email in errors <==> Blank(f.email) || !LooseEmail(f.email)
    ensures Phone in errors <==> Blank(f.phone) || !PhoneOk(f.phone)
    ensures Address in errors <==> Blank(f.address)
    ensures City in errors <==> Blank(f.city)
    ensures Field.State in errors <==> Blank(f.state)
    ensures ZipCode in errors <==> Blank(f.zipCode)
    ensures CardNumber in errors <==> paymentMethod == "card" && Blank(f.cardNumber)
    ensures Email in errors ==>
      errors[Email] == if Blank(f.email) then "Email is required" else "Email format is invalid"
    ensures Phone in errors ==>
      errors[Phone] == if Blank(f.phone) then "Phone number is required" else "Phone number must be at least 10 digits"
  {
    map k | k in AllFields && FieldError(f, paymentMethod, k).Some? :: FieldError(f, paymentMethod, k).value
  }

  /** Every field holds what the validator asks of it. */
  predicate FieldsOk(f: Form, paymentMethod: string)
  {
    && !Blank(f.fullName) && !Blank(f.address) && !Blank(f.city) && !Blank(f.state) && !Blank(f.zipCode)
    && !Blank(f.email) && LooseEmail(f.email)
    && !Blank(f.phone) && PhoneOk(f.phone)
    && (paymentMethod != "card" || !Blank(f.cardNumber))
  }

  /** `validateForm()`: the form passes exactly when no field has an error. */
  function ValidateForm(f: Form, paymentMethod: string): (ok: bool)
    ensures ok <==> FieldsOk(f, paymentMethod)
  {
    NoErrorsIffFieldsOk(f, paymentMethod);
    FormErrors(f, paymentMethod).Keys == {}
  }

  lemma NoErrorsIffFieldsOk(f: Form, paymentMethod: string)
    ensures FormErrors(f, paymentMethod).Keys == {} <==> FieldsOk(f, paymentMethod)
  {
    var errors := FormErrors(f, paymentMethod);
    if FieldsOk(f, paymentMethod) {
      forall k: Field
        ensures k !in errors
      {
        match k
        case FullName =>
        case Email =>
        case Phone =>
        case Address =>
        case City =>
        case State =>
        case ZipCode =>
        case CardNumber =>
      }
      assert errors.Keys == {};
    } else {
      assert exists k: Field :: k in errors;
    }
  }

  /** A `.` right before the end, or an `@` at the start, does not make an address. */
  lemma LooseEmailExamples()
    ensures LooseEmail("a@b.c")
    ensures LooseEmail("my mail: jo@x.io ")
    ensures !LooseEmail("a@b.")
    ensures !LooseEmail("@b.c")
  {
    assert LooseEmailAt("a@b.c", 1, 3);
    assert LooseEmailAt("my mail: jo@x.io ", 11, 13);
  }

  // ---------------------------------------------------------------------
  // Promo code and payment.
  // ---------------------------------------------------------------------

  /** `applyPromoCode`: only SAVE10, in any letter case, sets the flag. */
  function ApplyPromoCode(code: string, promoApplied: bool): (r: bool)
    ensures Upper(code) == "SAVE10" ==> r
    ensures Upper(code) != "SAVE10" ==> r == promoApplied
  {
    if Upper(code) == "SAVE10" then true else promoApplied
  }

  /** Codes the cart page accepts besides SAVE10 do nothing here. */
  lemma CartOnlyCodesIgnored(promoApplied: bool)
    ensures CartPage.ApplyPromoCode("SAVE20", false)
    ensures ApplyPromoCode("SAVE20", promoApplied) == promoApplied
    ensures ApplyPromoCode("save10", false)
  {
    assert Upper("SAVE20") == "SAVE20";
    assert Upper("save10") == "SAVE10";
  }

  datatype TransactionResult = Approved | Declined | GatewayError

  /** The stub gateway: the digits "2" decline, "3" fail, everything else is approved. */
  function Transaction(cardNumber: string): (r: TransactionResult)
    ensures r == Declined <==> Digits(cardNumber) == "2"
    ensures r == GatewayError <==> Digits(cardNumber) == "3"
    ensures r == Approved <==> Digits(cardNumber) != "2" && Digits(cardNumber) != "3"
  {
    var digits := Digits(cardNumber);
    if digits == "1" then Approved
    else if digits == "2" then Declined
    else if digits == "3" then GatewayError
    else Approved
  }

  /** The message shown for a refused payment; none for an approved one. */
  function TransactionMessage(r: TransactionResult): (m: Option<string>)
    ensures m.None? <==> r == Approved
  {
    match r
    case Approved => None
    case Declined => Some("Transaction declined. Please check your payment information and try again.")
    case GatewayError => Some("Payment gateway errors. Please try again later.")
  }

  /** Formatting does not change the result: only the digits count. */
  lemma TransactionIgnoresSeparators()
    ensures Transaction("") == Approved
    ensures Transaction("1") == Approved
    ensures Transaction(" 2 ") == Declined
    ensures Transaction("3") == GatewayError
  {
    assert Digits(" 2 ") == "2";
  }

  // ---------------------------------------------------------------------
  // Price breakdown.
  // ---------------------------------------------------------------------

  datatype Totals = Totals(subtotal: real, discount: real, shipping: real, tax: real, total: real)

  /** Shipping is free strictly above 100 and 9.99 otherwise. */
  function Shipping(subtotal: real): (r: real)
    ensures r == 0.0 <==> subtotal > FreeShippingAbove
    ensures r != 0.0 ==> r == ShippingCharge
  {
    if subtotal > FreeShippingAbove then 0.0 else ShippingCharge
  }

  /** The pricing block of the page, from the stored subtotal and the promo flag. */
  function Price(subtotal: real, promoApplied: bool): (t: Totals)
    ensures t.subtotal == subtotal
    ensures t.discount == (if promoApplied then PromoRate * subtotal else 0.0)
    ensures t.shipping == Shipping(subtotal)
    ensures t.tax == TaxRate * (subtotal - t.discount + t.shipping)
    ensures t.total == (1.0 + TaxRate) * (subtotal - t.discount + t.shipping)
    ensures subtotal >= 0.0 ==> 0.0 <= t.discount <= subtotal && t.total >= 0.0
  {
    var shipping := Shipping(subtotal);
    var discount := if promoApplied then subtotal * PromoRate else 0.0;
    var tax := (subtotal - discount + shipping) * TaxRate;
    Totals(subtotal, discount, shipping, tax, subtotal - discount + shipping + tax)
  }

  /**
   * Checkout charges only the cart subtotal: the cart's discount, gift wrap
   * and express shipping choices do not reach the total.
   */
  lemma CartChoicesNotCharged(cart: seq<Line>, a: CartPage.Options, b: CartPage.Options, promoApplied: bool)
    ensures Price(FromCart(CartPage.HandleCheckout(cart, a)).subtotal, promoApplied)
         == Price(FromCart(CartPage.HandleCheckout(cart, b)).subtotal, promoApplied)
  {
  }

  /** Below the free-shipping threshold the cart quotes 5.99 and checkout charges 9.99. */
  lemma StandardShippingDisagrees(cart: seq<Line>, opts: CartPage.Options)
    requires !opts.expressShipping && Total(cart) <= 100.0
    ensures CartPage.Price(cart, opts).shippingFee == CartPage.StandardCharge
    ensures Price(FromCart(CartPage.HandleCheckout(cart, opts)).subtotal, false).shipping == ShippingCharge
  {
  }

  // ---------------------------------------------------------------------
  // The price helper.
  // ---------------------------------------------------------------------

  /** The price fields of a product record: a number, a display string, or neither. */
  datatype PriceFields = PriceFields(extractedPrice: Option<real>, price: Option<string>)

  /**
   * `getProductPrice`: the numeric `extracted_price` when present, else the
   * first digit/comma run of the price text with commas removed, else 0.
   */
  function ProductPrice(p: PriceFields): (r: Num)
    ensures p.extractedPrice.Some? ==> r == Finite(p.extractedPrice.value)
    ensures p.extractedPrice.None? && p.price.None? ==> r == Finite(0.0)
    ensures p.extractedPrice.None? && p.price.Some? ==> (r.Finite? ==> r.value >= 0.0)
  {
    match p.extractedPrice
    case Some(x) => Finite(x)
    case None =>
      match p.price
      case None => Finite(0.0)
      case Some(text) => MatchValue(text)
  }

  /** Without a numeric price, the helper reads the text as the catalogue route does. */
  lemma ProductPriceAgreesWithRoute(text: string)
    ensures ProductPrice(PriceFields(None, Some(text))) == ExtractPrice(text)
  {
  }

  // ---------------------------------------------------------------------
  // Input formatters.
  // ---------------------------------------------------------------------

  /**
   * `d.replace(/(\d{4})(?=\d)/g, "$1 ")` on a string of digits: a space after
   * every group of four that is followed by another digit.
   */
  function GroupDigits(d: string): (r: string)
    requires AllDigits(d)
    ensures forall i :: 0 <= i < |r| ==> (r[i] == ' ' <==> i % 5 == 4)
    ensures forall i :: 0 <= i < |r| ==> r[i] == ' ' || IsDigit(r[i])
    ensures |r| > 0 ==> r[|r| - 1] != ' '
    ensures |d| == 0 <==> |r| == 0
    decreases |d|
  {
    if |d| > 4 then d[..4] + " " + GroupDigits(d[4..]) else d
  }

  /** Removing the spaces from the grouped text gives back the digits. */
  lemma {:induction false} GroupDigitsKeepsDigits(d: string)
    requires AllDigits(d)
    ensures Digits(GroupDigits(d)) == d
    decreases |d|
  {
    if |d| > 4 {
      GroupDigitsKeepsDigits(d[4..]);
      DigitsConcat(d[..4] + " ", GroupDigits(d[4..]));
      DigitsConcat(d[..4], " ");
      DigitsOfDigits(d[..4]);
      assert d == d[..4] + d[4..];
    } else {
      DigitsOfDigits(d);
    }
  }

  /** The card-number field's `onChange`: keep the digits, then group them by four. */
  function FormatCardNumber(input: string): (r: string)
    ensures Digits(r) == Digits(input)
    ensures forall i :: 0 <= i < |r| ==> (r[i] == ' ' <==> i % 5 == 4)
    ensures forall i :: 0 <= i < |r| ==> r[i] == ' ' || IsDigit(r[i])
    ensures |r| > 0 ==> r[|r| - 1] != ' '
  {
    GroupDigitsKeepsDigits(Digits(input));
    GroupDigits(Digits(input))
  }

  /** Formatting an already formatted card number changes nothing. */
  lemma FormatCardNumberIdempotent(input: string)
    ensures FormatCardNumber(FormatCardNumber(input)) == FormatCardNumber(input)
  {
  }

  function Min(a: int, b: int): int
  {
    if a <= b then a else b
  }

  /**
   * The expiry field's `onChange`: keep the digits; from two digits on, the
   * first two, a slash, and at most two more.
   */
  function FormatExpiry(input: string): (r: string)
    ensures var d := Digits(input);
      && (|d| < 2 ==> r == d)
      && (|d| >= 2 ==> r == d[..2] + "/" + d[2..Min(4, |d|)])
    ensures Digits(r) == Digits(input)[..Min(4, |Digits(input)|)]
  {
    var d := Digits(input);
    if |d| >= 2 then
      var r := d[..2] + "/" + d[2..Min(4, |d|)];
      DigitsConcat(d[..2] + "/", d[2..Min(4, |d|)]);
      DigitsConcat(d[..2], "/");
      DigitsOfDigits(d[..2]);
      DigitsOfDigits(d[2..Min(4, |d|)]);
      assert d[..Min(4, |d|)] == d[..2] + d[2..Min(4, |d|)];
      r
    else
      DigitsOfDigits(d);
      assert d[..Min(4, |d|)] == d;
      d
  }

  /** Formatting an already formatted expiry date changes nothing. */
  lemma FormatExpiryIdempotent(input: string)
    ensures FormatExpiry(FormatExpiry(input)) == FormatExpiry(input)
  {
    var d := Digits(input);
    var e := d[..Min(4, |d|)];
    assert Digits(FormatExpiry(input)) == e;
    if |d| >= 2 {
      assert e[..2] == d[..2] && e[2..Min(4, |e|)] == d[2..Min(4, |d|)];
    }
  }

  // ---------------------------------------------------------------------
  // Submitting the order.
  // ---------------------------------------------------------------------

  /** The record stored for the confirmation page. */
  datatype FinalOrder = FinalOrder(
    promoApplied: bool, subtotal: real, discount: real, shipping: real,
    tax: real, total: real, isCartOrder: bool, items: seq<Line>)

  /** The items sent with the order: the cart's, or the single product with its quantity. */
  function OrderItems(o: OrderData): (items: seq<Line>)
    ensures o.isCartOrder ==> items == o.items
    ensures !o.isCartOrder && o.product.Some? ==>
      items == [o.product.value.(quantity := o.quantity, variants := Some(o.variants))]
  {
    if o.isCartOrder then o.items
    else
      match o.product
      case Some(l) => [l.(quantity := o.quantity, variants := Some(o.variants))]
      case None => []
  }

  /**
   * The stored order: the page's breakdown, but `promoApplied` records
   * whether any code was typed, not whether one was applied.
   */
  function FinalOrderOf(o: OrderData, promoCode: string, promoApplied: bool): (f: FinalOrder)
    ensures f.promoApplied <==> promoCode != ""
    ensures var t := Price(o.subtotal, promoApplied);
      f.subtotal == t.subtotal && f.discount == t.discount && f.shipping == t.shipping
      && f.tax == t.tax && f.total == t.total
    ensures f.isCartOrder == o.isCartOrder && f.items == OrderItems(o)
  {
    var t := Price(o.subtotal, promoApplied);
    FinalOrder(promoCode != "", t.subtotal, t.discount, t.shipping, t.tax, t.total,
      o.isCartOrder, OrderItems(o))
  }

  /**
   * How the request to the order service ended: created, refused with the
   * reply's `message` (empty when it has none), never sent because no token
   * is stored, or failed with an error of its own (the network, the JSON).
   */
  datatype Reply = Created | Refused(message: string) | NoToken | Threw(error: string)

  const DefaultOrderError := "Failed to create order"

  const NoTokenError := "No auth token found"

  datatype Outcome = Invalid(errors: map<Field, string>) | Placed(order: FinalOrder) | Failed(message: string)

  /**
   * `handleSubmit`: an invalid form stops with its errors; an approved
   * payment places the order when the service accepts it and otherwise
   * shows the error thrown on the way; a refused payment reports its message.
   */
  function Submit(f: Form, paymentMethod: string, o: OrderData, promoCode: string, promoApplied: bool, reply: Reply): (r: Outcome)
    ensures r.Invalid? <==> !ValidateForm(f, paymentMethod)
    ensures r.Invalid? ==> r.errors == FormErrors(f, paymentMethod)
    ensures r.Placed? <==> ValidateForm(f, paymentMethod) && Transaction(f.cardNumber) == Approved && reply == Created
    ensures r.Placed? ==> r.order == FinalOrderOf(o, promoCode, promoApplied)
    ensures r.Failed? && Transaction(f.cardNumber) != Approved ==>
      Some(r.message) == TransactionMessage(Transaction(f.cardNumber))
    ensures ValidateForm(f, paymentMethod) && Transaction(f.cardNumber) == Approved ==>
      match reply
      case Created => r.Placed?
      case Refused(m) => r == Failed(if m != "" then m else DefaultOrderError)
      case NoToken => r == Failed(NoTokenError)
      case Threw(e) => r == Failed(e)
  {
    if !ValidateForm(f, paymentMethod) then Invalid(FormErrors(f, paymentMethod))
    else
      match Transaction(f.cardNumber)
      case Approved =>
        (match reply
         case Created => Placed(FinalOrderOf(o, promoCode, promoApplied))
         case Refused(m) => Failed(if m != "" then m else DefaultOrderError)
         case NoToken => Failed(NoTokenError)
         case Threw(e) => Failed(e))
      case Declined => Failed(TransactionMessage(Declined).value)
      case GatewayError => Failed(TransactionMessage(GatewayError).value)
  }
}
