/**
 * The catalogue route: it maps the upstream search results to products,
 * filters them by the request's parameters, sorts them, and caches the
 * response for five minutes under a key that ignores parameter order.
 * The upstream request itself is an input.
 */
module ProductsRoute {
  import opened Wrappers
  import opened Seqs
  import opened Text
  import opened JsNum
  import opened PriceText

  /** Five minutes, in milliseconds. */
  const CacheDuration: int := 5 * 60 * 1000

  // ---------------------------------------------------------------------
  // Request parameters.
  // ---------------------------------------------------------------------

  /** The query string's entries, in order; a name may repeat. */
  type Params = seq<(string, string)>

  /** `searchParams.get(name)`: the value of the first entry with that name. */
  function Get(params: Params, name: string): (r: Option<string>)
    ensures r.None? <==> forall i :: 0 <= i < |params| ==> params[i].0 != name
    ensures r.Some? ==> exists i :: (0 <= i < |params| && params[i] == (name, r.value)
      && forall k :: 0 <= k < i ==> params[k].0 != name)
  {
    if |params| == 0 then None
    else if params[0].0 == name then Some(params[0].1)
    else
      match Get(params[1..], name)
      case None => None
      case Some(v) =>
        ghost var i :| 0 <= i < |params[1..]| && params[1..][i] == (name, v)
          && forall k :: 0 <= k < i ==> params[1..][k].0 != name;
        assert params[i + 1] == (name, v);
        Some(v)
  }

  /** An entry under another name does not hide or change what `get` finds after it. */
  lemma GetSkipsOtherName(params: Params, name: string)
    requires |params| > 0 && params[0].0 != name
    ensures Get(params, name) == Get(params[1..], name)
  {
  }

  /** A parameter that is present and not empty, as `if (value)` tests it. */
  predicate Given(v: Option<string>)
  {
    v.Some? && v.value != ""
  }

  // ---------------------------------------------------------------------
  // Cache key and expiry.
  // ---------------------------------------------------------------------

  /** How the default `sort` sees an entry `[key, value]`: as `"key,value"`. */
  function EntryText(e: (string, string)): string
  {
    e.0 + "," + e.1
  }

  predicate EntryLe(a: (string, string), b: (string, string))
  {
    LexLe(EntryText(a), EntryText(b))
  }

  lemma EntryLeTotalPreorder()
    ensures TotalPreorder(EntryLe)
  {
    LexLeTotalPreorder();
  }

  /**
   * `URLSearchParams.toString()`: `name=value` pairs joined by `&`, each
   * side passed through the form encoder `encode`.
   */
  function Serialize(entries: Params, encode: string -> string): string
  {
    Join(EntryPieces(entries, encode), "&")
  }

  /** Each entry written as `name=value`. */
  function EntryPieces(entries: Params, encode: string -> string): seq<string>
  {
    seq(|entries|, i requires 0 <= i < |entries| => encode(entries[i].0) + "=" + encode(entries[i].1))
  }

  /** `getCacheKey`: the serialisation of the entries in sorted order. */
  function CacheKey(params: Params, encode: string -> string): (key: string)
    ensures exists sorted :: (multiset(sorted) == multiset(params) && SortedBy(sorted, EntryLe)
      && key == Serialize(sorted, encode))
  {
    EntryLeTotalPreorder();
    var sorted := Sort(params, EntryLe);
    assert multiset(sorted) == multiset(params) && SortedBy(sorted, EntryLe);
    Serialize(sorted, encode)
  }

  /**
   * The key does not depend on the order of the parameters, as long as no
   * two different entries read the same once written as `"key,value"`.
   */
  lemma CacheKeyIgnoresOrder(a: Params, b: Params, encode: string -> string)
    requires multiset(a) == multiset(b)
    requires forall x, y :: x in a && y in a && EntryText(x) == EntryText(y) ==> x == y
    ensures CacheKey(a, encode) == CacheKey(b, encode)
  {
    EntryLeTotalPreorder();
    var sa := Sort(a, EntryLe);
    var sb := Sort(b, EntryLe);
    forall x, y | x in sa && y in sa && EntryLe(x, y) && EntryLe(y, x)
      ensures x == y
    {
      assert x in multiset(sa) && y in multiset(sa);
      LexLeAntisymmetric(EntryText(x), EntryText(y));
    }
    SortedUnique(sa, sb, EntryLe);
  }

  /** Two entries that read alike stay in the order they arrived. */
  lemma SortTiedPair(x: (string, string), y: (string, string))
    requires EntryText(x) == EntryText(y)
    ensures TotalPreorder(EntryLe)
    ensures Sort([x, y], EntryLe) == [x, y]
  {
    EntryLeTotalPreorder();
    LexLeTotal(EntryText(x), EntryText(y));
    assert EntryLe(x, y);
    assert [x, y][..1] == [x];
    assert [x][..0] == [];
    assert InsertionSort([x], EntryLe) == [x];
    assert [x][1..] == [];
    assert InsertionSort([x, y], EntryLe) == Insert(y, [x], EntryLe) == [x, y];
  }

  lemma SerializePair(x: (string, string), y: (string, string), encode: string -> string)
    ensures Serialize([x, y], encode) == encode(x.0) + "=" + encode(x.1) + "&" + encode(y.0) + "=" + encode(y.1)
  {
    var parts := EntryPieces([x, y], encode);
    assert parts == [encode(x.0) + "=" + encode(x.1), encode(y.0) + "=" + encode(y.1)];
    assert parts[1..] == [encode(y.0) + "=" + encode(y.1)];
    assert Serialize([x, y], encode) == Join(parts, "&");
    assert Join(parts[1..], "&") == encode(y.0) + "=" + encode(y.1);
    assert Join(parts, "&") == parts[0] + "&" + Join(parts[1..], "&");
  }

  /** The key of two entries that read alike lists them in the order given. */
  lemma CacheKeyOfTiedPair(x: (string, string), y: (string, string), encode: string -> string)
    requires EntryText(x) == EntryText(y)
    ensures CacheKey([x, y], encode) == encode(x.0) + "=" + encode(x.1) + "&" + encode(y.0) + "=" + encode(y.1)
  {
    SortTiedPair(x, y);
    SerializePair(x, y, encode);
  }

  /** Entries that read alike keep their arrival order, so the key then depends on it. */
  lemma CacheKeyOrderMatters()
    ensures CacheKey([("a,b", "c"), ("a", "b,c")], Verbatim) != CacheKey([("a", "b,c"), ("a,b", "c")], Verbatim)
  {
    TiedKeySecondChar(("a,b", "c"), ("a", "b,c"));
    TiedKeySecondChar(("a", "b,c"), ("a,b", "c"));
  }

  lemma TiedKeySecondChar(x: (string, string), y: (string, string))
    requires |x.0| >= 1 && EntryText(x) == EntryText(y)
    ensures |CacheKey([x, y], Verbatim)| > 1 && CacheKey([x, y], Verbatim)[1] == (x.0 + "=")[1]
  {
    CacheKeyOfTiedPair(x, y, Verbatim);
  }

  /** An encoder that leaves text as it is, as it does for plain letters. */
  function Verbatim(s: string): string
  {
    s
  }

  /** `isValidCache`: an entry is fresh while less than five minutes old. */
  predicate IsValidCache(now: int, timestamp: int)
  {
    now - timestamp < CacheDuration
  }

  // ---------------------------------------------------------------------
  // Products.
  // ---------------------------------------------------------------------

  /** `mapSortBy`: the three known sort keys map to themselves, anything else to undefined. */
  function MapSortBy(sortBy: Option<string>): (r: Option<string>)
    ensures r.Some? <==> sortBy.Some? && sortBy.value in {"price_low_to_high", "price_high_to_low", "rating"}
    ensures r.Some? ==> r == sortBy
  {
    match sortBy
    case Some("price_low_to_high") => sortBy
    case Some("price_high_to_low") => sortBy
    case Some("rating") => sortBy
    case _ => None
  }

  /** `extractPrice(priceString?)`: a missing string reads as 0. */
  function ExtractPriceOf(priceString: Option<string>): (r: Num)
    ensures priceString.None? ==> r == Finite(0.0)
    ensures priceString.Some? ==> r == ExtractPrice(priceString.value)
  {
    ExtractPrice(priceString.GetOr(""))
  }

  /** The product record the route returns (the fields the logic reads). */
  datatype Item = Item(
    position: int, title: string, productId: string, source: string,
    price: string, extractedPrice: Num, rating: real, brand: string,
    category: string, description: string)

  /** One upstream search result (the fields the mapping reads). */
  datatype RawResult = RawResult(
    position: int, title: Option<string>, asin: Option<string>, sponsored: bool,
    price: Option<string>, extractedPrice: Option<real>, rating: real,
    tags: Option<seq<string>>)

  /** `s || fallback` for an optional string: missing and empty are falsy. */
  function OrText(s: Option<string>, fallback: string): (r: string)
    ensures s.Some? && s.value != "" ==> r == s.value
    ensures s.None? || s.value == "" ==> r == fallback
  {
    if s.Some? && s.value != "" then s.value else fallback
  }

  /**
   * The mapping of one upstream result in `GET`. `index` is its place in the
   * combined list and `randomId` stands for the `Math.random()` suffix.
   */
  function MapResult(raw: RawResult, index: nat, randomId: string): (it: Item)
    ensures it.position == if raw.position != 0 then raw.position else index + 1
    ensures it.title == OrText(raw.title, "Unknown Product")
    ensures it.source == if raw.sponsored then "Sponsored" else "Amazon"
    ensures it.price == OrText(raw.price, "$0")
    ensures raw.extractedPrice.Some? && raw.extractedPrice.value != 0.0 ==>
      it.extractedPrice == Finite(raw.extractedPrice.value)
    ensures it.brand != ""
    ensures it.productId != ""
  {
    var position := if raw.position != 0 then raw.position else index + 1;
    var firstWord := match raw.title case None => "" case Some(t) => Split(t, ' ')[0];
    var numeric := match raw.extractedPrice case None => NaN case Some(x) => Finite(x);
    Item(
      position,
      OrText(raw.title, "Unknown Product"),
      OrText(raw.asin, "product_" + (if raw.position != 0 then IntToString(raw.position) else randomId)),
      if raw.sponsored then "Sponsored" else "Amazon",
      OrText(raw.price, "$0"),
      if numeric.Finite? && numeric.value != 0.0 then numeric else ExtractPriceOf(raw.price),
      raw.rating,
      if firstWord != "" then firstWord else "Amazon",
      match raw.tags case None => "" case Some(t) => Join(t, ", "),
      OrText(raw.title, ""))
  }

  /** The combined list of results, each mapped with its index. */
  function MapResults(raws: seq<RawResult>, randomId: string): (items: seq<Item>)
    ensures |items| == |raws|
    ensures forall i :: 0 <= i < |raws| ==> items[i] == MapResult(raws[i], i, randomId)
  {
    seq(|raws|, i requires 0 <= i < |raws| => MapResult(raws[i], i, randomId))
  }

  /**
   * The re-mapping at the start of `applyFilters`: defaults for empty
   * fields, the price extracted again from the price text, and the
   * description taken from a `snippet` field these records do not have.
   */
  function Normalize(it: Item, randomId: string): (r: Item)
    ensures r.extractedPrice == ExtractPrice(it.price)
    ensures r.description == ""
    ensures r.rating == it.rating && r.position == it.position
    ensures it.title != "" ==> r.title == it.title
    ensures it.source != "" ==> r.source == it.source
    ensures r.brand == if it.brand != "" then it.brand else it.source
  {
    var source := if it.source != "" then it.source else "Google Shopping";
    Item(
      it.position,
      if it.title != "" then it.title else "Unknown Product",
      if it.productId != "" then it.productId
      else "product_" + (if it.position != 0 then IntToString(it.position) else randomId),
      source,
      if it.price != "" then it.price else "$0",
      ExtractPrice(it.price),
      it.rating,
      if it.brand != "" then it.brand else it.source,
      it.category,
      "")
  }

  /** The numeric price from upstream never survives `applyFilters`: only the text counts. */
  lemma NumericPriceReplaced(raw: RawResult, index: nat, randomId: string)
    ensures Normalize(MapResult(raw, index, randomId), randomId).extractedPrice
         == ExtractPrice(OrText(raw.price, "$0"))
    ensures Normalize(MapResult(raw, index, randomId), randomId).description == ""
  {
  }

  function RatingAtLeast(min: Num): Item -> bool
  {
    (it: Item) => Finite(it.rating).AtLeast(min)
  }

  function PriceAtLeast(min: Num): Item -> bool
  {
    (it: Item) => it.extractedPrice.AtLeast(min)
  }

  function PriceAtMost(max: Num): Item -> bool
  {
    (it: Item) => it.extractedPrice.AtMost(max)
  }

  /** One brand token: the piece lower-cased and trimmed. */
  function Token(piece: string): string
  {
    Trim(Lower(piece))
  }

  /** `brand.split(",").map(b => b.toLowerCase().trim())`. */
  function BrandTokens(brand: string): (tokens: seq<string>)
    ensures |tokens| == |Split(brand, ',')|
    ensures forall i :: 0 <= i < |tokens| ==> tokens[i] == Token(Split(brand, ',')[i])
  {
    var parts := Split(brand, ',');
    seq(|parts|, i requires 0 <= i < |parts| => Token(parts[i]))
  }

  /** Some token occurs in the lower-cased brand or source. */
  predicate MatchesToken(it: Item, tokens: seq<string>)
  {
    exists i :: 0 <= i < |tokens| && (Contains(Lower(it.brand), tokens[i]) || Contains(Lower(it.source), tokens[i]))
  }

  function MatchesBrand(tokens: seq<string>): Item -> bool
  {
    (it: Item) => MatchesToken(it, tokens)
  }

  /** Every filter whose parameter is given holds of `it`. */
  predicate Passes(params: Params, parseFloat: string -> Num, it: Item)
  {
    var rating := Get(params, "rating");
    var min := Get(params, "min_price");
    var max := Get(params, "max_price");
    var brand := Get(params, "brand");
    && (Given(rating) ==> RatingAtLeast(parseFloat(rating.value))(it))
    && (Given(min) ==> PriceAtLeast(parseFloat(min.value))(it))
    && (Given(max) ==> PriceAtMost(parseFloat(max.value))(it))
    && (Given(brand) ==> MatchesBrand(BrandTokens(brand.value))(it))
  }

  function NormalizeAll(items: seq<Item>, randomId: string): (r: seq<Item>)
    ensures |r| == |items|
    ensures forall i :: 0 <= i < |items| ==> r[i] == Normalize(items[i], randomId)
  {
    seq(|items|, i requires 0 <= i < |items| => Normalize(items[i], randomId))
  }

  /** One `if (param) { list = list.filter(p) }` step. */
  function FilterIf(s: seq<Item>, given: bool, p: Item -> bool): (r: seq<Item>)
    ensures IsSubsequence(r, s)
    ensures forall it :: it in r <==> it in s && (given ==> p(it))
  {
    if given then Filter(s, p)
    else
      assert IsSubsequence(s, s) by {
        SubsequenceReflexive(s);
      }
      s
  }

  /**
   * `applyFilters`: after re-mapping, the products that pass every given
   * filter, in their original order. `parseFloat` stands for
   * `Number.parseFloat`.
   */
  function ApplyFilters(items: seq<Item>, params: Params, parseFloat: string -> Num, randomId: string): (r: seq<Item>)
    ensures IsSubsequence(r, NormalizeAll(items, randomId))
    ensures forall it :: it in r <==> it in NormalizeAll(items, randomId) && Passes(params, parseFloat, it)
  {
    var all := NormalizeAll(items, randomId);
    var rating := Get(params, "rating");
    var min := Get(params, "min_price");
    var max := Get(params, "max_price");
    var brand := Get(params, "brand");
    var r1 := FilterIf(all, Given(rating), RatingAtLeast(parseFloat(rating.GetOr(""))));
    var r2 := FilterIf(r1, Given(min), PriceAtLeast(parseFloat(min.GetOr(""))));
    var r3 := FilterIf(r2, Given(max), PriceAtMost(parseFloat(max.GetOr(""))));
    var r4 := FilterIf(r3, Given(brand), MatchesBrand(BrandTokens(brand.GetOr(""))));
    SubsequenceTransitive(r2, r1, all);
    SubsequenceTransitive(r3, r2, all);
    SubsequenceTransitive(r4, r3, all);
    r4
  }

  /** A brand list ending in a comma has an empty token, which every product contains. */
  lemma TrailingCommaMatchesEverything(brands: string, it: Item)
    requires |brands| > 0 && brands[|brands| - 1] == ','
    ensures MatchesToken(it, BrandTokens(brands))
  {
    var tokens := BrandTokens(brands);
    LastTokenEmpty(brands);
    EmptyTokenMatches(it, tokens, |tokens| - 1);
  }

  lemma LastTokenEmpty(brands: string)
    requires |brands| > 0 && brands[|brands| - 1] == ','
    ensures var tokens := BrandTokens(brands); tokens[|tokens| - 1] == ""
  {
    SplitTrailingSeparator(brands, ',');
    EmptyPieceEmptyToken(Split(brands, ',')[|Split(brands, ',')| - 1]);
  }

  lemma EmptyPieceEmptyToken(piece: string)
    requires piece == ""
    ensures Token(piece) == ""
  {
  }

  lemma EmptyTokenMatches(it: Item, tokens: seq<string>, k: int)
    requires 0 <= k < |tokens| && tokens[k] == ""
    ensures MatchesToken(it, tokens)
  {
    ContainsEmpty(Lower(it.brand));
    assert Contains(Lower(it.brand), tokens[k]);
  }

  // ---------------------------------------------------------------------
  // Sorting.
  // ---------------------------------------------------------------------

  function PriceValue(it: Item): real
  {
    if it.extractedPrice.Finite? then it.extractedPrice.value else 0.0
  }

  predicate PriceLe(a: Item, b: Item)
  {
    PriceValue(a) <= PriceValue(b)
  }

  predicate PriceGe(a: Item, b: Item)
  {
    PriceValue(a) >= PriceValue(b)
  }

  predicate RatingGe(a: Item, b: Item)
  {
    a.rating >= b.rating
  }

  predicate FinitePrices(items: seq<Item>)
  {
    forall i :: 0 <= i < |items| ==> items[i].extractedPrice.Finite?
  }

  /**
   * The comparator in `GET`: by ascending or descending price, or by
   * descending rating, with ties kept in their order; "relevance", a missing
   * key and unknown keys keep the order. A NaN price makes the price
   * comparators inconsistent, and then the order is left as it is.
   */
  function SortProducts(items: seq<Item>, sortBy: Option<string>): (r: seq<Item>)
    ensures multiset(r) == multiset(items)
    ensures FinitePrices(items) ==> FinitePrices(r)
    ensures sortBy == Some("price_low_to_high") && FinitePrices(items) ==>
      forall i, j :: 0 <= i < j < |r| ==> PriceValue(r[i]) <= PriceValue(r[j])
    ensures sortBy == Some("price_high_to_low") && FinitePrices(items) ==>
      forall i, j :: 0 <= i < j < |r| ==> PriceValue(r[i]) >= PriceValue(r[j])
    ensures sortBy == Some("rating") ==> forall i, j :: 0 <= i < j < |r| ==> r[i].rating >= r[j].rating
    ensures sortBy.None? || sortBy.value !in {"price_low_to_high", "price_high_to_low", "rating"} ==> r == items
    ensures sortBy == Some("price_low_to_high") && FinitePrices(items) ==>
      forall c :: Filter(r, SameRank(PriceOrder(true), c)) == Filter(items, SameRank(PriceOrder(true), c))
    ensures sortBy == Some("price_high_to_low") && FinitePrices(items) ==>
      forall c :: Filter(r, SameRank(PriceOrder(false), c)) == Filter(items, SameRank(PriceOrder(false), c))
    ensures sortBy == Some("rating") ==>
      forall c :: Filter(r, SameRank(RatingGe, c)) == Filter(items, SameRank(RatingGe, c))
  {
    match sortBy
    case Some("price_low_to_high") =>
      if FinitePrices(items) then SortedByPrice(items, true) else items
    case Some("price_high_to_low") =>
      if FinitePrices(items) then SortedByPrice(items, false) else items
    case Some("rating") =>
      var r := Sort(items, RatingGe);
      assert SortedBy(r, RatingGe);
      FinitePricesPermuted(items, r);
      assert forall c :: Filter(r, SameRank(RatingGe, c)) == Filter(items, SameRank(RatingGe, c)) by {
        forall c ensures Filter(r, SameRank(RatingGe, c)) == Filter(items, SameRank(RatingGe, c)) {
          SortStable(items, RatingGe, c);
        }
      }
      r
    case _ => items
  }

  lemma FinitePricesPermuted(a: seq<Item>, b: seq<Item>)
    requires multiset(a) == multiset(b)
    ensures FinitePrices(a) ==> FinitePrices(b)
  {
    if FinitePrices(a) {
      forall i | 0 <= i < |b| ensures b[i].extractedPrice.Finite? {
        assert b[i] in multiset(a);
      }
    }
  }

  function PriceOrder(ascending: bool): (Item, Item) -> bool
  {
    if ascending then PriceLe else PriceGe
  }

  /**
   * The price sort: the same items in price order, where items of equal
   * price keep their relative order, and finite prices stay finite.
   */
  function SortedByPrice(items: seq<Item>, ascending: bool): (r: seq<Item>)
    requires FinitePrices(items)
    ensures multiset(r) == multiset(items) && FinitePrices(r)
    ensures SortedBy(r, PriceOrder(ascending))
    ensures forall c :: Filter(r, SameRank(PriceOrder(ascending), c)) == Filter(items, SameRank(PriceOrder(ascending), c))
  {
    var le := PriceOrder(ascending);
    var r := Sort(items, le);
    FinitePricesPermuted(items, r);
    assert forall c :: Filter(r, SameRank(le, c)) == Filter(items, SameRank(le, c)) by {
      forall c ensures Filter(r, SameRank(le, c)) == Filter(items, SameRank(le, c)) {
        SortStable(items, le, c);
      }
    }
    r
  }

  // ---------------------------------------------------------------------
  // The handler.
  // ---------------------------------------------------------------------

  datatype Response = Response(products: seq<Item>, totalResults: int, error: Option<string>)

  datatype CacheEntry = CacheEntry(data: Response, timestamp: int)

  type Cache = map<string, CacheEntry>

  /** What the upstream search answered: its results and reported total, or a failure. */
  datatype Upstream = Results(raws: seq<RawResult>, totalResults: Option<int>) | Unavailable

  /** `total_results || products.length`: the upstream total unless it is missing or 0. */
  function ReportedTotal(total: Option<int>, count: nat): (n: int)
    ensures total.Some? && total.value != 0 ==> n == total.value
    ensures total.None? || total.value == 0 ==> n == count
  {
    match total
    case Some(t) => if t != 0 then t else count
    case None => count
  }

  const UnavailableMessage := "API temporarily unavailable, showing sample data"

  /**
   * `GET`: a fresh cached response for the same key is returned as it is;
   * otherwise the upstream results are mapped, filtered, sorted, cached at
   * `now` and returned; a failure returns the sample data with an error and
   * caches nothing.
   */
  function HandleGet(
    cache: Cache, params: Params, now: int, upstream: Upstream, sample: seq<Item>,
    encode: string -> string, parseFloat: string -> Num, randomId: string): (r: (Response, Cache))
    ensures var key := CacheKey(params, encode);
      key in cache && IsValidCache(now, cache[key].timestamp) ==> r == (cache[key].data, cache)
    ensures var key := CacheKey(params, encode);
      !(key in cache && IsValidCache(now, cache[key].timestamp)) && upstream.Unavailable? ==>
        r.1 == cache && r.0 == Response(sample, |sample|, Some(UnavailableMessage))
    ensures var key := CacheKey(params, encode);
      !(key in cache && IsValidCache(now, cache[key].timestamp)) && upstream.Results? ==>
        && r.1 == cache[key := CacheEntry(r.0, now)]
        && r.0.error.None?
        && r.0.products == SortProducts(ApplyFilters(MapResults(upstream.raws, randomId), params, parseFloat, randomId), Get(params, "sort_by"))
        && r.0.totalResults == ReportedTotal(upstream.totalResults, |r.0.products|)
  {
    var key := CacheKey(params, encode);
    if key in cache && IsValidCache(now, cache[key].timestamp) then (cache[key].data, cache)
    else
      match upstream
      case Unavailable => (Response(sample, |sample|, Some(UnavailableMessage)), cache)
      case Results(raws, total) =>
        var filtered := ApplyFilters(MapResults(raws, randomId), params, parseFloat, randomId);
        var products := SortProducts(filtered, Get(params, "sort_by"));
        var response := Response(products, ReportedTotal(total, |products|), None);
        (response, cache[key := CacheEntry(response, now)])
  }

  /**
   * Within five minutes of a successful request, the same parameters in any
   * order get the same response, whatever the upstream would answer.
   */
  lemma CachedResponseReused(
    cache: Cache, params: Params, again: Params, t: int, later: int, upstream: Upstream, next: Upstream,
    sample: seq<Item>, encode: string -> string, parseFloat: string -> Num, randomId: string)
    requires upstream.Results?
    requires !(CacheKey(params, encode) in cache && IsValidCache(t, cache[CacheKey(params, encode)].timestamp))
    requires multiset(again) == multiset(params)
    requires forall x, y :: x in params && y in params && EntryText(x) == EntryText(y) ==> x == y
    requires t <= later < t + CacheDuration
    ensures var first := HandleGet(cache, params, t, upstream, sample, encode, parseFloat, randomId);
      HandleGet(first.1, again, later, next, sample, encode, parseFloat, randomId) == (first.0, first.1)
  {
    CacheKeyIgnoresOrder(params, again, encode);
  }
}
