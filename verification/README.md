# ShopWave storefront core, modelled in Dafny

This project models the logic inside the ShopWave Next.js storefront.
Most of that code is React presentation. The parts modelled here are the
sequential, statable pieces, written as immutable datatypes and pure
functions. Money is an exact `real`.

- **Cart and wishlist store** (`CartStore`). This is the persisted
  `useCartStore` with two collections keyed by `product_id`. Every action
  is a function from state to state. The module also proves that every
  sequence of actions keeps the keys unique and the quantities positive,
  as long as `addToCart` is never given fewer than one unit.
- **Pricing, three times.**
  - `CartPage` is the cart page's breakdown: 10% savings, promo discount,
    gift wrap, shipping threshold, 8% tax. It also covers the page's own
    list operations, which differ from the store's, and the payload it
    hands to checkout.
  - `Checkout` is the checkout page: the form validator, the promo code, the
    card-number and expiry formatters, the stub transaction result, the
    breakdown and the stored final order.
  - `ThankYou` is the confirmation page's recomputed summary.
- **Catalogue pipeline.**
  - `PriceText` and `JsNum` cover the price-text extraction shared by three
    files, and JavaScript numbers with `NaN`.
  - `ProductsRoute` is the `/api/products` route: cache key and expiry,
    mapping, filters, sort and `GET`.
  - `ProductApi` is the client's query string and status handling.
  - `UseProducts` is the pagination state machine.
  - `InfiniteScroll` is the scroll trigger.
- **List UI.**
  - `ProductFilters` is the filter panel.
  - `HomePage` covers the home page's search, sort, wishlist heart and cart
    counter.
  - `DealsPage` covers the deals page's tabs, badges and buttons.
- **Auth pages.**
  - `AuthEmail` is the email pattern as an explicit predicate.
  - `Login`, `ForgotPassword` and `PasswordSettings` cover submit order,
    role routing, password rules and link checking.
- **Two small state machines**: `OfferBanner` and `ShareModal`.

`Seqs`, `Text` and `Wrappers` hold shared helpers:
- filter, stable insertion sort and subsequences;
- JavaScript `trim`, ASCII case mapping, `split` and `join`;
- `Option` and `Result`.

Everything outside the program becomes an input:
- network replies;
- the clock (`now`);
- `encodeURIComponent`;
- `parseFloat` of parameter text;
- the random product-id suffix;
- the outcome of each clipboard attempt.

The code has these behaviours, and the model reproduces them:
- An empty cart without express shipping still pays standard shipping and
  its tax (`CartPage.EmptyCartPaysShipping`).
- The discount is never clamped to the subtotal.
- Every accepted cart promo code gives the same 10%, including the codes
  whose message promises 20% or $50 (`CartPage.AllCodesGiveTenPercent`).
- `addToCart` does not guard its quantity, so a line of zero units can
  appear (`CartStore.AddZeroBreaksFloor`).

The pages also disagree with one another, and the model shows where:
- Standard shipping is 5.99 on the cart page but 9.99 at checkout
  (`Checkout.StandardShippingDisagrees`).
- Checkout ignores the cart's gift wrap, express shipping and discount
  (`Checkout.CartChoicesNotCharged`).
- The cart page's local operations can create duplicate lines
  (`CartPage.MoveToCartCanDuplicate`).
- The confirmation page shows a discount for any typed code, applied or not
  (`ThankYou.TypedCodeShowsUnchargedDiscount`).

## Model

| member | source | states |
|---|---|---|
| CartStore.FindLine | lib/cart-store.ts:44 | the lookup finds a line exactly when the id is in the cart, and the line it returns carries that id |
| CartStore.FindLineIsFirst | lib/cart-store.ts:44 | the line found is the first line with the id, as `Array.prototype.find` returns |
| CartStore.TimesIsProduct | lib/cart-store.ts:90 | a line's total, summed unit by unit, equals price times quantity |
| CartStore.TotalAppend | lib/cart-store.ts:88-96 | appending a line adds its price times quantity to the cart total and its quantity to the count |
| CartStore.TotalsNonNegative | lib/cart-store.ts:88-96 | with non-negative prices and quantities, the total and the count are non-negative |
| CartStore.AddToCart | lib/cart-store.ts:42-65 | a product already in the cart keeps its place, its variants and its line gains `quantity`; a new product gets one line at the end with the default variants; other lines and the wishlist are untouched; with distinct keys before, keys stay distinct and the product's quantity and the count grow by `quantity` |
| CartStore.AppendLine | lib/cart-store.ts:54-62 | a line appended for an absent product keeps keys distinct and adds its units to the product's quantity and to the count |
| CartStore.BumpLine | lib/cart-store.ts:48-50 | in a cart with distinct keys, raising one line changes only that line, and the count and total move by exactly that line's change |
| CartStore.RemoveFromCart | lib/cart-store.ts:67-71 | afterwards the id is absent, every other line survives in order, nothing else is dropped, and the wishlist is untouched |
| CartStore.UpdateQuantity | lib/cart-store.ts:73-82 | a quantity of at most 0 is removal; a positive one sets exactly that quantity on the matching line and changes nothing if the id is absent; the wishlist is untouched |
| CartStore.ClearCart | lib/cart-store.ts:84-86 | the cart becomes empty, with zero total and count, and the wishlist is kept |
| CartStore.EmptyTotals | lib/cart-store.ts:88-96 | the empty store's total and count are both 0 |
| CartStore.TotalIsReduce | lib/cart-store.ts:88-91 | `getCartTotal`'s left-to-right reduce from 0 equals the sum of every line's price times quantity |
| CartStore.CountIsReduce | lib/cart-store.ts:93-96 | `getCartCount`'s left-to-right reduce from 0 equals the sum of every line's quantity |
| CartStore.IsInWishlist | lib/cart-store.ts:119-122 | holds exactly when some wishlist entry has that `product_id` |
| CartStore.AddToWishlist | lib/cart-store.ts:102-111 | afterwards the product is wishlisted; if its id was already there the state is unchanged, otherwise it is appended |
| CartStore.RemoveFromWishlist | lib/cart-store.ts:113-117 | afterwards the id is not wishlisted, every other entry survives in order, and the cart is untouched |
| CartStore.MoveToCart | lib/cart-store.ts:124-131 | a wishlisted id leaves the wishlist, which otherwise keeps its order, and gains exactly one unit in the cart: on its existing line, with every line keeping its product and variants, or on a new last line holding the wishlist entry with the default variants; lines of other ids stay unchanged in place; an id not wishlisted changes nothing; distinct keys and positive quantities are kept |
| CartStore.AddThenRemove | lib/cart-store.ts:54-71 | adding an absent product and then removing its id restores the original state |
| CartStore.AddToCartTotal | lib/cart-store.ts:42-65 | with distinct keys, adding `quantity` units raises the cart total by the product line's unit price times `quantity` |
| CartStore.AddExistingTotal | lib/cart-store.ts:46-51 | merging into an existing line raises the total by that line's unit price times the added quantity |
| CartStore.QuantitiesAccumulate | lib/cart-store.ts:44-51 | adding 2 and then 3 units of a new product gives a single line of 5 |
| CartStore.UpdateToZeroRemoves | lib/cart-store.ts:74-77 | updating to 0 or less is exactly `removeFromCart`, and the id is gone afterwards |
| CartStore.AddZeroBreaksFloor | lib/cart-store.ts:42-62 | `addToCart` with quantity 0 creates a line with no units |
| CartStore.AddToWishlistIdempotent | lib/cart-store.ts:102-111 | adding the same product to the wishlist twice is the same as adding it once |
| CartStore.WishlistThenMove | lib/cart-store.ts:124-131 | wishlisting a product that is in neither list and then moving it leaves one unit in the cart and the wishlist as it was |
| CartStore.StepKeepsValid | lib/cart-store.ts:42-131 | every store action except an `addToCart` below one unit keeps keys distinct in both lists and every quantity at least 1 |
| CartStore.RunKeepsValid | lib/cart-store.ts:42-131 | any sequence of such actions keeps that invariant |
| CartStore.ReachableValid | lib/cart-store.ts:39-131 | every state reachable from the empty store by such actions satisfies the invariant |
| CartPage.UpdateQuantity | app/cart/page.tsx:86-98 | a quantity below 1 or an unknown id leaves the cart unchanged; otherwise the line takes the quantity; ids and all other lines are unchanged |
| CartPage.UpdateAgreesWithStoreAboveZero | app/cart/page.tsx:86-98 | for quantities of at least 1, the page's update and the store's give the same cart |
| CartPage.UpdateDiffersFromStoreAtZero | app/cart/page.tsx:87 | for a quantity below 1, the page keeps the line while the store removes it |
| CartPage.AddToWishlist | app/cart/page.tsx:175-177 | the item is appended whatever the wishlist already holds |
| CartPage.AddToWishlistTwiceDuplicates | app/cart/page.tsx:175-177 | adding the same item twice leaves two entries with one id |
| CartPage.RemoveFromWishlist | app/cart/page.tsx:178-180 | afterwards the id is absent and every other entry survives in order |
| CartPage.MoveToCart | app/cart/page.tsx:181-187 | a wishlisted item is appended to the cart as it is, the appended line being the first wishlist entry with the id, and removed from the wishlist; otherwise nothing changes |
| CartPage.MoveToCartCanDuplicate | app/cart/page.tsx:181-187 | moving a product that already has a cart line gives the cart two lines with one id |
| CartPage.ApplyPromoCode | app/cart/page.tsx:202-219 | SAVE10, SAVE20 and FIRST50, in any letter case, set the flag; any other code leaves it |
| CartPage.PromoCodeCaseInsensitive | app/cart/page.tsx:205-213 | lower-casing a code never changes whether it is accepted |
| CartPage.SavingsIsTenthOfSubtotal | app/cart/page.tsx:230-231 | the line-by-line 10% savings equals a tenth of the subtotal |
| CartPage.ShippingFee | app/cart/page.tsx:234 | express costs 9.99; otherwise shipping is free exactly when the subtotal is strictly above 100, and 5.99 when it is not |
| CartPage.Price | app/cart/page.tsx:221-236 | the subtotal is the cart total; discount is 10% of it when the flag is set; gift wrap is 4.99 when chosen; tax is 8% of subtotal less discount plus fees; the total is 1.08 times that base |
| CartPage.PriceNonNegative | app/cart/page.tsx:230-236 | with non-negative prices and quantities, the discount is between 0 and the subtotal, and tax and total are non-negative |
| CartPage.AllCodesGiveTenPercent | app/cart/page.tsx:205-232 | whichever accepted code was typed, the discount is 10% of the subtotal |
| CartPage.EmptyCartPaysShipping | app/cart/page.tsx:234-236 | an empty cart without extras pays 5.99 shipping, and its total is 1.08 times that |
| CartPage.ExactlyHundredPaysShipping | app/cart/page.tsx:234 | a subtotal of exactly 100 pays shipping; 100.01 ships free |
| CartPage.HandleCheckout | app/cart/page.tsx:238-249 | the stored payload carries the cart and the same subtotal, discount, total and option flags that the page shows |
| Checkout.FromCart | app/checkout/page.tsx:47-57 | a cart order shows the first item and the sum of the cart's quantities, and it keeps the cart's subtotal and items; the variants are the first item's, or black/standard when it has none |
| Checkout.FormErrors | app/checkout/page.tsx:65-92 | each field has an error exactly when it is blank after trimming; an email also has one without an `x@y.z` shape, a phone with fewer than 10 digits, and a card number only when paying by card; each message says which |
| Checkout.ValidateForm | app/checkout/page.tsx:65-92 | the form passes exactly when every required field is filled, the email has an `x@y.z` shape somewhere, the phone has at least 10 digits, and a card payment has a card number |
| Checkout.NoErrorsIffFieldsOk | app/checkout/page.tsx:90-91 | the error map is empty exactly when the form's fields are acceptable |
| Checkout.LooseEmailExamples | app/checkout/page.tsx:71 | the email pattern is unanchored: it finds an address inside other text, and rejects text missing a part |
| Checkout.ApplyPromoCode | app/checkout/page.tsx:104-108 | only SAVE10, in any letter case, sets the flag; any other code leaves it |
| Checkout.CartOnlyCodesIgnored | app/checkout/page.tsx:104-108 | SAVE20 is accepted on the cart page but not here, and "save10" is accepted here |
| Checkout.Transaction | app/checkout/page.tsx:120-132 | with the separators removed, card number "2" is declined, "3" is a gateway error, and anything else, "1" and the empty number included, is approved |
| Checkout.TransactionMessage | app/checkout/page.tsx:238-244 | an approved payment shows no message; a declined one and a gateway error each show their own |
| Checkout.TransactionIgnoresSeparators | app/checkout/page.tsx:120-132 | an empty number is approved, and spaces around "2" do not keep it from being declined |
| Checkout.Shipping | app/checkout/page.tsx:258 | shipping is free exactly when the subtotal is above 100, and 9.99 otherwise |
| Checkout.Price | app/checkout/page.tsx:257-261 | the discount is 10% when the flag is set; tax is 8% of subtotal less discount plus shipping; the total is 1.08 times that base; a non-negative subtotal gives a discount at most the subtotal and a non-negative total |
| Checkout.CartChoicesNotCharged | app/checkout/page.tsx:47-57 | the checkout totals of a cart order are the same whatever gift wrap, express and promo choices were made on the cart page |
| Checkout.StandardShippingDisagrees | app/checkout/page.tsx:258 | for a cart of at most 100 without express, the cart page charges 5.99 shipping and checkout charges 9.99 |
| Checkout.ProductPrice | app/checkout/page.tsx:264-275 | a numeric `extracted_price` wins; with neither field the price is 0; a price read from text is never negative |
| Checkout.ProductPriceAgreesWithRoute | app/checkout/page.tsx:264-275 | reading a price from text gives what the catalogue route's `extractPrice` gives |
| Checkout.GroupDigits | app/checkout/page.tsx:450 | digits are grouped four at a time, with one space after each full group that has a digit after it and no trailing space |
| Checkout.GroupDigitsKeepsDigits | app/checkout/page.tsx:450 | removing the spaces from grouped digits gives back the digits |
| Checkout.FormatCardNumber | app/checkout/page.tsx:450 | the formatted number has the same digits as the input, only digits and spaces, a space exactly at every fifth position, and never a trailing space |
| Checkout.FormatCardNumberIdempotent | app/checkout/page.tsx:450 | formatting an already formatted number changes nothing |
| Checkout.FormatExpiry | app/checkout/page.tsx:466-469 | fewer than two digits stay as they are; otherwise the result is the first two digits, a slash and at most two more, keeping the first four digits |
| Checkout.FormatExpiryIdempotent | app/checkout/page.tsx:466-469 | formatting an already formatted expiry changes nothing |
| Checkout.OrderItems | app/checkout/page.tsx:160-170 | a cart order sends its items; a single-product order sends the product with the chosen quantity and variants |
| Checkout.FinalOrderOf | app/checkout/page.tsx:207-221 | the stored order has the page's breakdown and items, but its promo flag records whether any code was typed |
| Checkout.Submit | app/checkout/page.tsx:110-250 | an invalid form stops with its errors; an order is placed exactly when the form is valid, the payment is approved and the service accepts; a refused payment shows its message; a service refusal shows the service's message, or "Failed to create order" when that is empty; a missing token shows "No auth token found"; a thrown error shows its message |
| ThankYou.ProductPrice | app/thank-you/page.tsx:44-55 | a missing product is 0; otherwise the price is read as on the checkout page |
| ThankYou.ProductPriceAgreesWithCheckout | app/thank-you/page.tsx:44-55 | for a present product the two pages read the same price |
| ThankYou.Summary | app/thank-you/page.tsx:64-68 | the summary is recomputed from the stored subtotal and promo flag: free shipping exactly above 100, 10% off when flagged, total 1.08 times the base |
| ThankYou.SummaryAgreesWithCheckout | app/thank-you/page.tsx:64-68 | the summary is the checkout breakdown for the stored subtotal and the stored flag |
| ThankYou.SummaryMatchesChargedWhenFlagsAgree | app/thank-you/page.tsx:64-68 | when "a code was typed" and "a code was applied" agree, the discount and total shown are the ones charged |
| ThankYou.TypedCodeShowsUnchargedDiscount | app/thank-you/page.tsx:66 | a code typed but not applied charges no discount, yet the page shows 10% off and a smaller total than was charged |
| ThankYou.ShippingLabel | app/thank-you/page.tsx:308-311 | the label reads "Free" exactly above 100, otherwise it shows 9.99 |
| JsNum.Num.OrElse | app/api/products/route.ts:1540 | `x \|\| fallback` keeps a non-zero finite number and replaces 0 and NaN with the fallback |
| PriceText.RunLength | app/api/products/route.ts:60 | the longest prefix of characters with the property, and no longer |
| PriceText.FirstRunStart | app/api/products/route.ts:60 | the first position of a digit or comma, or none exactly when the text has neither |
| PriceText.MatchFrom | app/api/products/route.ts:60 | from a digit or comma, the match is the longest prefix of the rest shaped as digits and commas, an optional dot, then digits, as the greedy regex takes |
| PriceText.FirstMatch | app/api/products/route.ts:60 | there is no match exactly when the text has no digit or comma; otherwise the match starts at the first digit or comma and is the longest price-shaped text there |
| PriceText.StripCommas | app/api/products/route.ts:62 | the characters kept are exactly those of the match other than commas, and a run of digits and commas leaves only digits |
| PriceText.StripCommasIsFilter | app/api/products/route.ts:62 | dropping the commas is filtering out the commas, keeping the order |
| PriceText.StripCommasAppend | app/api/products/route.ts:62 | dropping commas from two joined texts is dropping them from each |
| PriceText.ParseDecimal | app/api/products/route.ts:62 | parsing digits and dots gives a non-negative number or NaN, and NaN when there is no digit |
| PriceText.ParseDecimalOf | app/api/products/route.ts:62 | digits, optionally a point and more digits, parse as the decimal they spell, or NaN when there is no digit at all |
| PriceText.ExtractPriceOfMatch | app/api/products/route.ts:58-65 | for every text with a digit or comma, the price is the decimal spelled by the first run of digits and commas with its commas dropped, with a point and its digits when a point follows, or NaN when it holds no digit |
| PriceText.MatchValue | app/api/products/route.ts:58-65 | text without digits or commas gives 0, and a parsed value is never negative |
| PriceText.ExtractPrice | app/api/products/route.ts:58-65 | empty text and text without a match give 0; any finite result is non-negative |
| PriceText.ExtractPriceThousands | app/api/products/route.ts:58-65 | "$1,199.99" gives 1199.99 |
| PriceText.ExtractPriceCommaOnly | app/api/products/route.ts:58-65 | a match of commas only, as in "$,", gives NaN |
| ProductsRoute.Get | app/api/products/route.ts:81-84 | a parameter's value is the first one given under that name, and it is absent exactly when no entry has that name |
| ProductsRoute.CacheKey | app/api/products/route.ts:46-52 | the key serialises an ordering of the same entries, sorted by their "key,value" text |
| ProductsRoute.CacheKeyIgnoresOrder | app/api/products/route.ts:46-52 | two orderings of the same entries give the same key, provided no two different entries have the same "key,value" text |
| ProductsRoute.CacheKeyOfTiedPair | app/api/products/route.ts:46-52 | two entries with the same "key,value" text keep their given order |
| ProductsRoute.CacheKeyOrderMatters | app/api/products/route.ts:46-52 | without that proviso the key can depend on order: ("a,b","c") and ("a","b,c") in the two orders give different keys |
| ProductsRoute.MapSortBy | app/api/products/route.ts:67-78 | the three known sort keys map to themselves and anything else to undefined |
| ProductsRoute.ExtractPriceOf | app/api/products/route.ts:58-59 | an undefined price text gives 0; otherwise the text's extracted price |
| ProductsRoute.MapResult | app/api/products/route.ts:1531-1559 | missing fields fall back to their defaults: position from the index, "Unknown Product", "$0", a source from the sponsored flag, a non-empty brand and id |
| ProductsRoute.MapResults | app/api/products/route.ts:1531-1559 | each upstream result maps to exactly one item, in order, at its own index |
| ProductsRoute.Normalize | app/api/products/route.ts:86-105 | the second mapping re-extracts the price from the price text, empties the description, and keeps rating, position, a non-empty title and source, falling back from the raw brand to the raw source |
| ProductsRoute.NumericPriceReplaced | app/api/products/route.ts:95 | whatever numeric price upstream sent, the filtered item's price is the one read from its text |
| ProductsRoute.BrandTokens | app/api/products/route.ts:124 | one token per comma-separated piece, lower-cased and trimmed |
| ProductsRoute.NormalizeAll | app/api/products/route.ts:86-105 | every item is normalised, in order |
| ProductsRoute.FilterIf | app/api/products/route.ts:108-128 | a filter that is not given keeps everything; one that is given keeps, in order, exactly the items passing it |
| ProductsRoute.ApplyFilters | app/api/products/route.ts:80-131 | the result is an order-preserving subsequence of the normalised items holding exactly those that meet the given rating floor, price bounds (inclusive, false against NaN) and brand tokens |
| ProductsRoute.TrailingCommaMatchesEverything | app/api/products/route.ts:123-128 | a brand list ending in a comma yields an empty token, which every product matches |
| ProductsRoute.SortProducts | app/api/products/route.ts:1565-1578 | the result is a permutation; with finite prices, price sorts are non-decreasing or non-increasing; rating sorts are non-increasing; items the chosen order ranks equal keep their order; "relevance", unknown and absent keys keep the order |
| ProductsRoute.FinitePricesPermuted | app/api/products/route.ts:1566 | rearranging items keeps all prices finite |
| Seqs.SortStable | app/api/products/route.ts:1566-1578 | sorting keeps, for each rank, the elements the order ranks equal in their original order, as JavaScript's sort does |
| ProductsRoute.SortedByPrice | app/api/products/route.ts:1568-1571 | a sort by price, ascending or descending, of the same items, where items of equal price keep their order |
| ProductsRoute.HandleGet | app/api/products/route.ts:1491-1610 | a fresh cached entry is returned as it is; otherwise the products are exactly the upstream results mapped, filtered and sorted by the requested key, the total is upstream's when non-zero and the product count otherwise, and the response is cached at `now`; a failure returns the sample, its length as total, its error, and caches nothing |
| ProductsRoute.ReportedTotal | app/api/products/route.ts:1587 | the reported total is upstream's when present and non-zero, else the number of products |
| ProductsRoute.CachedResponseReused | app/api/products/route.ts:44-56 | within five minutes of a successful request, the same parameters in any order get the same response, whatever upstream would answer |
| ProductApi.SetProperty | lib/api.ts:54-56 | an existing property keeps its place and takes the new value; a new one goes at the end; keys stay distinct |
| ProductApi.QueryEntries | lib/api.ts:52-58 | the k-th entry is the k-th property that is neither undefined nor null, as key and `toString()`, so there is exactly one entry per such property, in property order |
| ProductApi.SentValueReachesRoute | lib/api.ts:52-58 | when keys are distinct, the route reads back each sent property's text under its key |
| ProductApi.UnsentValueMissing | lib/api.ts:55 | a property that is only undefined or null never reaches the route |
| ProductApi.SearchUrl | lib/api.ts:48-60 | the URL is "/api/products?" followed by the serialised query |
| ProductApi.DetailsUrl | lib/api.ts:84-86 | the URL is "/api/products/" followed by the id, which reads back after the slash, and it never equals a search URL |
| ProductApi.SearchProducts | lib/api.ts:50-82 | a reply succeeds exactly when its status is 2xx; any other status fails with "HTTP error! status: N"; a network error is passed on |
| ProductApi.ProductDetails | lib/api.ts:84-111 | the details come back exactly when the status is 2xx; 404, every other status and network errors all give null |
| ProductApi.DetailsCannotTellMissingFromFailure | lib/api.ts:96-110 | a 404 and a 500 give the same null |
| ProductApi.SearchReportsWhatDetailsHides | lib/api.ts:70-110 | the same 404 is an error from search but a silent null from details |
| UseProducts.Init | hooks/useProducts.ts:20-26 | the hook starts empty, idle, without error, on page 0 with 0 results, expecting more |
| UseProducts.PageParams | hooks/useProducts.ts:34-38 | the request sets `start` to page index times 40 and `num` to 40 over the caller's parameters, keeping keys distinct |
| UseProducts.PageParamsReachRoute | hooks/useProducts.ts:34-38 | the route reads `start` as page times 40 and `num` as "40", whatever the caller passed |
| UseProducts.BeginLoad | hooks/useProducts.ts:28-31 | a load sets loading, clears the error and requests that page |
| UseProducts.FinishLoad | hooks/useProducts.ts:40-58 | append mode concatenates the new page after the old list and otherwise replaces it; more pages are expected exactly when the page had 40 items; a thrown error keeps the list and reports its message; loading ends either way |
| UseProducts.Search | hooks/useProducts.ts:63-70 | search stores the parameters, resets to page 0 and requests a replacing first page |
| UseProducts.LoadMore | hooks/useProducts.ts:72-78 | only when idle and expecting more: the page advances by exactly one and an appending request is made; otherwise nothing happens |
| UseProducts.Refresh | hooks/useProducts.ts:80-84 | refresh resets to page 0, clears the error and requests a replacing first page of the current parameters |
| UseProducts.Mount | hooks/useProducts.ts:86-88 | mounting requests the initial parameters' first page |
| UseProducts.LoadMoreNotRepeatedWhileLoading | hooks/useProducts.ts:72-78 | a second `loadMore` before the first finishes does nothing |
| UseProducts.SearchReplacesList | hooks/useProducts.ts:63-70 | after a search finishes, the list is exactly the first page |
| UseProducts.LoadMoreAppends | hooks/useProducts.ts:72-78 | after `loadMore` finishes, the new page follows the old list and the page index has moved by one |
| UseProducts.FullPagesCount | hooks/useProducts.ts:40-47 | while every page comes back full, the list holds exactly page-plus-one pages |
| UseProducts.ShortPageStopsPaging | hooks/useProducts.ts:47 | after a page shorter than 40, `loadMore` does nothing |
| InfiniteScroll.Threshold | hooks/useInfiniteScroll.ts:12 | the threshold defaults to 100 |
| InfiniteScroll.LoadMoreCalls | hooks/useInfiniteScroll.ts:13-23 | a scroll event calls `onLoadMore` at most once: never while loading or without more, otherwise exactly when the bottom is within the threshold |
| InfiniteScroll.LargerThresholdFiresEarlier | hooks/useInfiniteScroll.ts:20 | raising the threshold never turns a call into no call |
| InfiniteScroll.ScrollLoadsOnePageAtATime | hooks/useInfiniteScroll.ts:13-23 | a triggering scroll advances the hook one page, and a second scroll before it finishes triggers nothing |
| ProductFilters.Init | components/product-filters.tsx:29-35 | the panel starts with no filters, brands or rating and a 0 to 1000 range |
| ProductFilters.Merge | components/product-filters.tsx:109 | the spread: every patched property has the patch's value, every old property is still present, and an unpatched property is an old one |
| ProductFilters.UpdateFilters | components/product-filters.tsx:108-112 | the patch's properties take its values, every other property stays as it was, and the merged object is both stored and reported |
| ProductFilters.ChangeSort | components/product-filters.tsx:166-167 | `sort_by` becomes the chosen value and nothing else changes |
| ProductFilters.ToggleBrandSelection | components/product-filters.tsx:115-117 | the clicked brand's membership flips and every other brand's is kept; a new brand goes at the end |
| ProductFilters.BrandParam | components/product-filters.tsx:120 | undefined exactly for an empty selection, otherwise the selection joined by commas |
| ProductFilters.ToggleBrand | components/product-filters.tsx:114-121 | the selection flips for the brand and `brand` is sent as the new selection's parameter; no other property changes |
| ProductFilters.ToggleBrandTwiceRestores | components/product-filters.tsx:114-121 | clicking an unselected brand twice gives back the same selection |
| ProductFilters.ToggleSelectedBrandTwice | components/product-filters.tsx:114-121 | clicking a selected brand twice keeps the same set but moves that brand to the end |
| ProductFilters.ToggleTwiceReordersParam | components/product-filters.tsx:114-121 | so the sent text can change: "Sony,JBL" becomes "JBL,Sony" |
| ProductFilters.ChangeRating | components/product-filters.tsx:131-135 | clicking the current rating clears it and any other sets it; `rating` is sent exactly when the new rating is positive; nothing else changes |
| ProductFilters.RatingClickTwiceClears | components/product-filters.tsx:131-135 | clicking the same star twice from no rating comes back to no rating |
| ProductFilters.ChangePrice | components/product-filters.tsx:123-129 | the slider takes the value; `min_price` is sent exactly when the lower end is above the data's minimum, and `max_price` exactly when the upper end is below its maximum |
| ProductFilters.FullRangeSendsNoBounds | components/product-filters.tsx:123-129 | a slider left at both ends sends neither bound to the route |
| ProductFilters.HasActiveFilters | components/product-filters.tsx:145 | any key in the filter object makes the panel active, even one whose value is undefined; an inactive panel has no brand, no rating and sends no query entries |
| ProductFilters.ClearFilters | components/product-filters.tsx:137-145 | filters, brands and rating are reset, the slider returns to the data's range, an empty object is reported, and the panel is no longer active |
| ProductFilters.DeselectedBrandStillActive | components/product-filters.tsx:114-145 | selecting and deselecting a brand sends no brand, yet the panel still counts as filtered because the `brand` key remains |
| ProductFilters.BrandCandidates | components/product-filters.tsx:54-61 | exactly the non-empty brands and sources of the sample |
| ProductFilters.AvailableBrands | components/product-filters.tsx:50-71 | the non-empty brands and sources of the sample, each once, in sorted order |
| ProductFilters.PositivePrices | components/product-filters.tsx:64-67 | exactly the prices above zero |
| ProductFilters.MinOf | components/product-filters.tsx:65 | the least of the prices |
| ProductFilters.MaxOf | components/product-filters.tsx:66 | the greatest of the prices |
| ProductFilters.FloorTen | components/product-filters.tsx:75 | the largest multiple of 10 not above the value |
| ProductFilters.CeilTen | components/product-filters.tsx:76 | the smallest multiple of 10 not below the value |
| ProductFilters.PriceRangeOf | components/product-filters.tsx:63-79 | no range without a positive price; otherwise multiples of 10 that enclose every positive price, each within 10 of some price |
| ProductFilters.SampleLoaded | components/product-filters.tsx:38-106 | the sample sets the brands and, when some price is positive, both the slider and its bounds; a failed request sets the fixed brand list; selections are untouched |
| ProductFilters.UntouchedSliderSendsNoBounds | components/product-filters.tsx:74-79 | after the sample loads, a slider left at its ends sends no lower bound |
| HomePage.FilteredProducts | app/page.tsx:174-180 | the products shown are, in catalogue order, exactly those whose name or description contains the query ignoring case, in the chosen category or under "all" |
| HomePage.EmptySearchShowsAll | app/page.tsx:174-180 | an empty query under "all" shows the whole catalogue |
| HomePage.CategoryNarrows | app/page.tsx:178 | under a specific category, every product shown is of that category |
| HomePage.ComparatorTotalPreorder | app/page.tsx:182-195 | every sort mode compares as a total preorder |
| HomePage.SortedProducts | app/page.tsx:182-195 | the result is a permutation; price-low ascends, price-high and rating descend, newest has descending ids; featured and unknown modes keep the filtered order |
| HomePage.NewestIsDescendingIds | app/page.tsx:190-191 | with distinct ids, "newest" is the unique arrangement by descending id |
| HomePage.ToggleWishlist | app/page.tsx:197-205 | the clicked id's membership flips and every other id's is kept |
| HomePage.ToggleWishlistTwice | app/page.tsx:197-205 | two clicks on the same heart restore the set |
| HomePage.AddToCart | app/page.tsx:211-214 | the counter rises by exactly one |
| HomePage.CartCountCountsClicks | app/page.tsx:211-214 | after any clicks the counter has risen by their number |
| DealsPage.FilteredDeals | app/deals/page.tsx:75-78 | "all" shows every deal; any other tab shows, in order, exactly the deals of that status |
| DealsPage.TabCount | app/deals/page.tsx:135-140 | the "all" badge counts every deal |
| DealsPage.TabCountIsShownCount | app/deals/page.tsx:135-140 | each tab's badge equals the number of deals the tab shows |
| DealsPage.StatusTabsPartition | app/deals/page.tsx:135-140 | when every status is known, the three status badges add up to the "all" badge |
| DealsPage.TabCountsOfLightningDeals | app/deals/page.tsx:12-69 | on the page's own deals the badges read 4, 2, 1 and 1 |
| DealsPage.StatusColor | app/deals/page.tsx:80-91 | live deals are green, ending-soon red, upcoming blue, and an unknown status grey |
| DealsPage.StatusText | app/deals/page.tsx:93-104 | live deals read "Live Now", ending-soon "Ending Soon", upcoming "Coming Soon", and an unknown status "Deal"; a badge reads "Deal" exactly when it is grey |
| DealsPage.BadgesDistinguishStatuses | app/deals/page.tsx:80-104 | the text falls back exactly when the colour does, and the three known statuses get three different colours and texts |
| DealsPage.ActionButton | app/deals/page.tsx:229-244 | upcoming deals get a disabled "Notify Me"; other deals claimed up to their total get a disabled "Sold Out"; the rest get "Buy Now" |
| DealsPage.TimerIffNotNotify | app/deals/page.tsx:222-234 | a card shows its countdown exactly when its button is not "Notify Me" |
| DealsPage.LightningDealButtons | app/deals/page.tsx:12-69 | the first deal can be bought and the upcoming one only offers a notification |
| OfferBanner.Init | components/offer-banner.tsx:43-44 | the banner starts visible on the first offer |
| OfferBanner.Tick | components/offer-banner.tsx:46-50 | a tick moves to the next offer, wrapping after the last, stays within the three offers, and keeps visibility |
| OfferBanner.TicksFromInit | components/offer-banner.tsx:43-50 | after n ticks from mount the banner shows offer n mod 3 and is still visible |
| OfferBanner.ThreeTicksReturn | components/offer-banner.tsx:46-50 | three ticks return any banner to the offer it showed |
| OfferBanner.Dismiss | components/offer-banner.tsx:84 | closing hides the banner and keeps its index |
| OfferBanner.Rendered | components/offer-banner.tsx:54-56 | nothing renders exactly when the banner is hidden; otherwise the current offer does |
| OfferBanner.DismissIsFinal | components/offer-banner.tsx:46-54 | the timer keeps ticking after a dismiss, but the banner never renders again |
| OfferBanner.ExactlyOneDotActive | components/offer-banner.tsx:94-100 | exactly one of the three progress dots is highlighted |
| ShareModal.ShareText | components/share-modal.tsx:36 | the title alone when the price is absent or empty, otherwise the title followed by " - " and the price |
| ShareModal.ShareOptions | components/share-modal.tsx:39-77 | six options; only the last, Instagram, has a note and a fixed URL |
| ShareModal.OptionsEmbedProductLink | components/share-modal.tsx:39-69 | every option but Instagram carries the encoded product link |
| ShareModal.EmailBodyIsNotEncoded | components/share-modal.tsx:68 | the email option puts the share text into its body without encoding it |
| ShareModal.HandleShare | components/share-modal.tsx:116-126 | an option with a note copies the link; any other opens its own URL |
| ShareModal.OnlyInstagramCopies | components/share-modal.tsx:73-126 | Instagram is the one option that copies; each other one opens a link carrying the encoded product link |
| ShareModal.CopyToClipboard | components/share-modal.tsx:79-114 | either route succeeding shows "Copied!" and sets copied; both failing show "Failed" and leave copied as it was |
| ShareModal.AfterCopied | components/share-modal.tsx:84-87 | the timer after a copy restores the initial button |
| ShareModal.AfterFailed | components/share-modal.tsx:110 | the timer after a failure restores only the label |
| ShareModal.FailedCopyFromStart | components/share-modal.tsx:107-110 | from a fresh dialog, a failed copy never claims to have copied, and its timer restores the button |
| ShareModal.CopiedLooksTheSame | components/share-modal.tsx:81-106 | whichever route wrote the link, the button looks the same and its timer restores it |
| AuthEmail.FirstIndex | app/auth/login/page.tsx:76 | the first position of the character, or none exactly when it is absent |
| AuthEmail.LastIndex | app/auth/login/page.tsx:76 | the last position of the character, or none exactly when it is absent |
| AuthEmail.ValidEmailIffPattern | app/auth/login/page.tsx:75-76 | the index-based check accepts exactly the anchored pattern: allowed local characters, "@", allowed domain characters, a dot, and at least two letters |
| AuthEmail.EmptyEmailInvalid | app/auth/login/page.tsx:84 | the empty address is rejected |
| AuthEmail.EmailExamples | app/auth/login/page.tsx:75-76 | "a@b.co" is accepted, and a one-letter top-level domain is rejected |
| Login.HandleSubmit | app/auth/login/page.tsx:78-100 | a request is sent exactly when the email is valid and the password non-empty; an invalid email is reported first and a missing password second, after both errors were cleared |
| Login.EmailReportedFirst | app/auth/login/page.tsx:84-93 | with an invalid email the password does not matter and no password error is shown |
| Login.FinishLogin | app/auth/login/page.tsx:102-116 | only an ok reply goes to the feed; a refused one shows its message or the default; a thrown error shows the default |
| Login.RouteForRole | app/auth/login/page.tsx:65-69 | "admin" goes to /admin and every other role to /feed |
| Login.VerifyToken | app/auth/login/page.tsx:41-73 | a verified token navigates by role; a rejected one clears the stored token; an error does neither |
| Login.PasswordLoginIgnoresRole | app/auth/login/page.tsx:65-107 | password login always goes to /feed, while token login sends admins to /admin |
| ForgotPassword.HandleSubmit | app/auth/forgotpassword/page.tsx:18-27 | the request, whose body is just the email, is sent exactly when the email is valid; otherwise the error is set; the error is cleared first |
| ForgotPassword.SameAddressesAsLogin | app/auth/forgotpassword/page.tsx:13-16 | this page accepts exactly the addresses the login page accepts |
| ForgotPassword.FinishRequest | app/auth/forgotpassword/page.tsx:38-69 | success and thrown errors both lead back to login; a refused reply shows its message |
| PasswordSettings.ValidatePasswords | app/auth/password/page.tsx:24-40 | valid exactly when the password has at least 6 characters and matches its confirmation; each failure sets its own error, both together |
| PasswordSettings.ReplaceFirst | app/auth/password/page.tsx:45 | only the first occurrence of the character is replaced |
| PasswordSettings.ParsePair | app/auth/password/page.tsx:45 | a piece reads as the name before its first `=` and the value after it, or as the whole piece with an empty value when it has no `=` |
| PasswordSettings.ParsePairsSkipsEmpty | app/auth/password/page.tsx:45 | the pairs of a query are its non-empty `&`-pieces, each read as a pair, in order |
| PasswordSettings.ParseQuery | app/auth/password/page.tsx:45 | no name read holds `=` or `&`, and no value holds `&` |
| PasswordSettings.ParseQueryOfSerialized | app/auth/password/page.tsx:45 | what the route's serialiser writes, with names free of `=` and `&` and values free of `&`, reads back as the same parameters |
| PasswordSettings.LinkType | app/auth/password/page.tsx:45-46 | a type found holds no `&` |
| PasswordSettings.LinkTypeOfQuery | app/auth/password/page.tsx:123-124 | for a fragment `#q`, the type is the value of the first `&`-piece of `q` that is `type` or starts with `type=`, and there is none exactly when no piece does |
| PasswordSettings.LinkTypeOfFragment | app/auth/password/page.tsx:123-124 | the fragment "#type=t" yields the type t |
| PasswordSettings.CheckLink | app/auth/password/page.tsx:120-170 | no check without a fragment and a token; otherwise the link is refused unless its type is register or forgot, and each type verifies at its own endpoint |
| PasswordSettings.NoFragmentNeverRefused | app/auth/password/page.tsx:121 | a link without a fragment is never checked, so it is never refused |
| PasswordSettings.HandleSubmit | app/auth/password/page.tsx:42-109 | a request is sent exactly when the passwords are valid: to /user/password for register, /user/resetpassword for forgot, and to an empty endpoint with no body otherwise |
| PasswordSettings.AcceptedLinkHasEndpoint | app/auth/password/page.tsx:52-61 | a link that passed the check always submits to a real endpoint with a body |

## Left out

- Network I/O is left out: axios to the upstream search, and `fetch` to the auth, cart and order services. Their replies are inputs.
- Persistence is left out, because it only stores and reloads values. This covers zustand `persist`, `localStorage` (`cartOrderData`, `finalOrder`, `shopwave`, `linkendin`) and the mount effects that read it.
- The cart page's `fetchCart`, `removeFromCart` and `moveToSaved` are left out, because they are server calls whose result replaces the list.
- React rendering, routing, `alert` and SweetAlert dialogs are left out, because they are presentation. So are `setTimeout`/`setInterval` timing, `window.open` and DOM scroll reads. Timers are explicit steps, and scroll geometry is an input.
- IEEE floating point is left out. Money is an exact `real`, so `toFixed` display rounding is not modelled, and `parseFloat` is exact on the digits it reads.
- `encodeURIComponent`, `URLSearchParams` serialisation and `parseFloat` of parameter text are function parameters. Percent-decoding is not modelled, so the route is assumed to read back exactly the text the client sent.
- `btoa` of the user name is left out, because it only affects what is stored.
- Case mapping covers ASCII letters only. `trim` uses the JavaScript whitespace set.
- String comparison is by code point. JavaScript compares UTF-16 units, which differs only above U+FFFF.
- `maxLength` input truncation is left out, because the browser applies it, not the handlers.
- The mock catalogue and `Math.random` ids are left out. The fallback products and the page's product lists are data, and the random id suffix is a parameter.
- `ProductApi.Value`: numbers are integers. The client sends only integer prices, ratings and page offsets.
- `ProductsRoute.SortProducts`: the price orderings are stated only when every price is finite. With a NaN price, JavaScript's comparator is inconsistent and the order is unspecified.
- `ProductsRoute.TrailingCommaMatchesEverything`: stated for any brand list that ends in a comma. Other ways to get an empty token, such as ",," inside the list, are covered by the general filter contract but not by a separate lemma.
- `ProductsRoute.IsValidCache` has no lemma of its own. The five-minute window appears through `HandleGet` and `CachedResponseReused`.
- `ProductFilters.UntouchedSliderSendsNoBounds` only states the lower bound. `FullRangeSendsNoBounds` states both bounds for any panel.
- `CartStore` products carry a finite price. A NaN price in the cart is not modelled.
- `Checkout.OrderItems`: a single-product order with no product sends no items. The page still sends one item holding only the quantity and the variants. A `Line` always carries a product, so that product-less item is not modelled.
- `CartStore` line quantities are integers. The page's quantities are JavaScript numbers, and fractional or NaN quantities are not modelled.
- `PasswordSettings.ParseQuery` does not decode `+` to a space or percent escapes, which `URLSearchParams` does. `LinkTypeOfQuery` is stated for fragments that start with `#`, the only kind `window.location.hash` holds.
- JSON parse failures of stored data are not modelled, because they come from storage.
- The Google login redirect, the image zoom, and the profile, offers, saved and order pages are left out. They are display-only or only call store operations.
