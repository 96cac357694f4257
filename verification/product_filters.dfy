/**
 * The filter panel: the filter object it hands to the product list, the
 * brand, rating and price controls that patch it, and the brand list and
 * price range it derives from a sample of products.
 */
module ProductFilters {
  import opened Wrappers
  import opened Seqs
  import opened Text
  import opened JsNum
  import opened ProductApi
  import ProductsRoute

  /** The slider's range before any data arrives. */
  const DefaultRange: (int, int) := (0, 1000)

  /** The brands offered when the sample request fails. */
  const FallbackBrands: seq<string> := [
    "AudioTech", "SoundMax", "BassBoost", "GameSound", "ProAudio", "TinySound", "Apple",
    "Samsung", "Sony", "Bose", "JBL", "Beats", "Sennheiser", "Audio-Technica"]

  datatype Panel = Panel(
    filters: Obj, priceRange: (int, int), selectedBrands: seq<string>, minRating: int,
    availableBrands: seq<string>, apiRange: (int, int))

  function Init(): (p: Panel)
    ensures p.filters == [] && p.selectedBrands == [] && p.minRating == 0 && p.availableBrands == []
    ensures p.priceRange == DefaultRange && p.apiRange == DefaultRange
  {
    Panel([], DefaultRange, [], 0, [], DefaultRange)
  }

  // ---------------------------------------------------------------------
  // The filter object.
  // ---------------------------------------------------------------------

  /** `{...base, ...patch}`: the patch's properties, in order, over the base. */
  function Merge(base: Obj, patch: Obj): (r: Obj)
    requires DistinctKeys(patch)
    ensures DistinctKeys(base) ==> DistinctKeys(r)
    ensures forall k :: HasKey(base, k) || HasKey(patch, k) ==> HasKey(r, k)
    ensures forall i, j :: 0 <= i < |r| && 0 <= j < |patch| && r[i].0 == patch[j].0 ==> r[i].1 == patch[j].1
    ensures forall i :: 0 <= i < |r| && !HasKey(patch, r[i].0) ==> r[i] in base
    decreases |patch|
  {
    if |patch| == 0 then base
    else
      var key := patch[0].0;
      var next := SetProperty(base, key, patch[0].1);
      assert DistinctKeys(patch[1..]) by {
        forall i, j | 0 <= i < j < |patch[1..]| ensures patch[1..][i].0 != patch[1..][j].0 {
          assert patch[1..][i] == patch[i + 1] && patch[1..][j] == patch[j + 1];
        }
      }
      var r := Merge(next, patch[1..]);
      assert !HasKey(patch[1..], key) by {
        forall j | 0 <= j < |patch[1..]| ensures patch[1..][j].0 != key {
          assert patch[1..][j] == patch[j + 1];
        }
      }
      forall k | HasKey(base, k) || HasKey(patch, k) ensures HasKey(r, k) {
        if HasKey(patch, k) && k != key {
          var j :| 0 <= j < |patch| && patch[j].0 == k;
          assert patch[1..][j - 1].0 == k;
        } else if k != key {
          var i :| 0 <= i < |base| && base[i].0 == k;
          assert next[i] == base[i];
        }
      }
      forall i, j | 0 <= i < |r| && 0 <= j < |patch| && r[i].0 == patch[j].0 ensures r[i].1 == patch[j].1 {
        if j > 0 {
          assert patch[1..][j - 1] == patch[j];
        } else {
          assert r[i] in next;
        }
      }
      forall i | 0 <= i < |r| && !HasKey(patch, r[i].0) ensures r[i] in base {
        assert !HasKey(patch[1..], r[i].0) by {
          forall j | 0 <= j < |patch[1..]| ensures patch[1..][j].0 != r[i].0 {
            assert patch[1..][j] == patch[j + 1];
          }
        }
        assert r[i] in next;
        var k :| 0 <= k < |next| && next[k] == r[i];
        assert r[i].0 != key by {
          assert patch[0].0 == key;
        }
      }
      r
  }

  /**
   * `updateFilters`: every property of the patch takes the patch's value,
   * every other property stays as it was, and the merged object is both the
   * panel's new filters and what it reports.
   */
  function UpdateFilters(p: Panel, patch: Obj): (r: (Panel, Obj))
    requires DistinctKeys(patch)
    ensures r.0 == p.(filters := r.1)
    ensures forall j :: 0 <= j < |patch| ==> PropertyIs(r.1, patch[j].0, patch[j].1)
    ensures forall k :: HasKey(p.filters, k) ==> HasKey(r.1, k)
    ensures forall i :: 0 <= i < |r.1| && !HasKey(patch, r.1[i].0) ==> r.1[i] in p.filters
    ensures DistinctKeys(p.filters) ==> DistinctKeys(r.1)
  {
    var filters := Merge(p.filters, patch);
    forall j | 0 <= j < |patch| ensures PropertyIs(filters, patch[j].0, patch[j].1) {
      assert HasKey(patch, patch[j].0);
    }
    (p.(filters := filters), filters)
  }

  /** The sort selector: `sort_by` becomes the chosen value, nothing else changes. */
  function ChangeSort(p: Panel, sortBy: string): (r: (Panel, Obj))
    ensures r.0 == p.(filters := r.1)
    ensures PropertyIs(r.1, "sort_by", Text(sortBy))
    ensures forall i :: 0 <= i < |r.1| && r.1[i].0 != "sort_by" ==> r.1[i] in p.filters
  {
    var patch := [("sort_by", Text(sortBy))];
    var r := UpdateFilters(p, patch);
    assert forall k :: HasKey(patch, k) ==> k == "sort_by";
    r
  }

  // ---------------------------------------------------------------------
  // Controls.
  // ---------------------------------------------------------------------

  function OtherBrand(brand: string): string -> bool
  {
    b => b != brand
  }

  /** The selection after clicking `brand`: removed when selected, appended otherwise. */
  function ToggleBrandSelection(selected: seq<string>, brand: string): (r: seq<string>)
    ensures brand in r <==> brand !in selected
    ensures forall b :: b != brand ==> (b in r <==> b in selected)
    ensures brand !in selected ==> r == selected + [brand]
  {
    if brand in selected then Filter(selected, OtherBrand(brand)) else selected + [brand]
  }

  /** The `brand` parameter: the selection joined by commas, or undefined when empty. */
  function BrandParam(selected: seq<string>): (v: Value)
    ensures v == Undefined <==> |selected| == 0
    ensures |selected| > 0 ==> v == Text(Join(selected, ","))
  {
    if |selected| > 0 then Text(Join(selected, ",")) else Undefined
  }

  /**
   * `handleBrandToggle`: the selection flips for `brand`, and `brand` is
   * re-sent as the new selection's parameter; no other property changes.
   */
  function ToggleBrand(p: Panel, brand: string): (r: (Panel, Obj))
    ensures r.0 == p.(selectedBrands := ToggleBrandSelection(p.selectedBrands, brand), filters := r.1)
    ensures PropertyIs(r.1, "brand", BrandParam(r.0.selectedBrands))
    ensures forall i :: 0 <= i < |r.1| && r.1[i].0 != "brand" ==> r.1[i] in p.filters
  {
    var selected := ToggleBrandSelection(p.selectedBrands, brand);
    var patch := [("brand", BrandParam(selected))];
    assert forall k :: HasKey(patch, k) ==> k == "brand";
    UpdateFilters(p.(selectedBrands := selected), patch)
  }

  /** Clicking a brand that was not selected twice gives back the same selection. */
  lemma ToggleBrandTwiceRestores(selected: seq<string>, brand: string)
    requires brand !in selected
    ensures ToggleBrandSelection(ToggleBrandSelection(selected, brand), brand) == selected
  {
    forall i | 0 <= i < |selected| ensures OtherBrand(brand)(selected[i]) {
      assert selected[i] in selected;
    }
    FilterDropsLast(selected, brand, OtherBrand(brand));
  }

  /**
   * Clicking a selected brand twice keeps the same brands selected, but
   * moves that brand to the end, so the `brand` text can change.
   */
  lemma ToggleSelectedBrandTwice(selected: seq<string>, brand: string)
    requires brand in selected
    ensures forall b :: b in ToggleBrandSelection(ToggleBrandSelection(selected, brand), brand) <==> b in selected
    ensures ToggleBrandSelection(ToggleBrandSelection(selected, brand), brand)
         == Filter(selected, OtherBrand(brand)) + [brand]
  {
  }

  /** Concretely: selecting Sony, then JBL, then toggling Sony twice yields "JBL,Sony". */
  lemma ToggleTwiceReordersParam()
    ensures var s := ToggleBrandSelection(ToggleBrandSelection(["Sony", "JBL"], "Sony"), "Sony");
      BrandParam(["Sony", "JBL"]) == Text("Sony,JBL") && BrandParam(s) == Text("JBL,Sony")
  {
    DeselectSony();
    JoinTwoBrands();
    assert ["JBL"] + ["Sony"] == ["JBL", "Sony"];
  }

  lemma DeselectSony()
    ensures ToggleBrandSelection(["Sony", "JBL"], "Sony") == ["JBL"]
  {
    assert ["Sony", "JBL"][1..] == ["JBL"];
    assert ["JBL"][1..] == [];
  }

  lemma JoinTwoBrands()
    ensures Join(["Sony", "JBL"], ",") == "Sony,JBL" && Join(["JBL", "Sony"], ",") == "JBL,Sony"
  {
    assert ["JBL", "Sony"][1..] == ["Sony"];
    assert ["Sony", "JBL"][1..] == ["JBL"];
  }

  /**
   * `handleRatingChange`: clicking the current rating clears it, any other
   * sets it; `rating` is sent exactly when the new rating is positive.
   */
  function ChangeRating(p: Panel, rating: int): (r: (Panel, Obj))
    ensures r.0.minRating == if p.minRating == rating then 0 else rating
    ensures r.0 == p.(minRating := r.0.minRating, filters := r.1)
    ensures HasKey(r.1, "rating")
    ensures forall i :: 0 <= i < |r.1| && r.1[i].0 == "rating" ==>
      (Present(r.1[i].1) <==> r.0.minRating > 0) && (r.0.minRating > 0 ==> r.1[i].1 == Number(r.0.minRating))
    ensures forall i :: 0 <= i < |r.1| && r.1[i].0 != "rating" ==> r.1[i] in p.filters
  {
    var newRating := if p.minRating == rating then 0 else rating;
    var patch := [("rating", if newRating > 0 then Number(newRating) else Undefined)];
    assert forall k :: HasKey(patch, k) ==> k == "rating";
    assert PropertyIs(UpdateFilters(p.(minRating := newRating), patch).1, patch[0].0, patch[0].1);
    UpdateFilters(p.(minRating := newRating), patch)
  }

  /** Clicking the same star twice from no rating comes back to no rating. */
  lemma RatingClickTwiceClears(p: Panel, rating: int)
    requires p.minRating == 0 && rating != 0
    ensures ChangeRating(ChangeRating(p, rating).0, rating).0.minRating == 0
  {
  }

  /**
   * `handlePriceChange`: the slider takes the value; `min_price` is sent
   * exactly when the lower end is above the data's minimum, and `max_price`
   * exactly when the upper end is below its maximum.
   */
  function ChangePrice(p: Panel, value: (int, int)): (r: (Panel, Obj))
    ensures r.0 == p.(priceRange := value, filters := r.1)
    ensures HasKey(r.1, "min_price") && HasKey(r.1, "max_price")
    ensures forall i :: 0 <= i < |r.1| && r.1[i].0 == "min_price" ==>
      (Present(r.1[i].1) <==> value.0 > p.apiRange.0) && (value.0 > p.apiRange.0 ==> r.1[i].1 == Number(value.0))
    ensures forall i :: 0 <= i < |r.1| && r.1[i].0 == "max_price" ==>
      (Present(r.1[i].1) <==> value.1 < p.apiRange.1) && (value.1 < p.apiRange.1 ==> r.1[i].1 == Number(value.1))
    ensures forall i :: 0 <= i < |r.1| && r.1[i].0 != "min_price" && r.1[i].0 != "max_price" ==> r.1[i] in p.filters
  {
    var patch := [
      ("min_price", if value.0 > p.apiRange.0 then Number(value.0) else Undefined),
      ("max_price", if value.1 < p.apiRange.1 then Number(value.1) else Undefined)];
    assert forall k :: HasKey(patch, k) ==> k == "min_price" || k == "max_price";
    var r := UpdateFilters(p.(priceRange := value), patch);
    assert PropertyIs(r.1, patch[0].0, patch[0].1);
    assert PropertyIs(r.1, patch[1].0, patch[1].1);
    r
  }

  /** A slider at the ends of the range sends neither bound. */
  lemma FullRangeSendsNoBounds(p: Panel)
    ensures var f := ChangePrice(p, p.apiRange).1;
      ProductsRoute.Get(QueryEntries(f), "min_price").None? && ProductsRoute.Get(QueryEntries(f), "max_price").None?
  {
    var f := ChangePrice(p, p.apiRange).1;
    UnsentValueMissing(f, "min_price");
    UnsentValueMissing(f, "max_price");
  }

  /** `clearFilters`: everything back to empty, the slider to the data's range. */
  function ClearFilters(p: Panel): (r: (Panel, Obj))
    ensures r.0.filters == [] && r.0.selectedBrands == [] && r.0.minRating == 0
    ensures r.0.priceRange == p.apiRange && r.0.apiRange == p.apiRange
    ensures r.0.availableBrands == p.availableBrands && r.1 == []
    ensures !HasActiveFilters(r.0)
  {
    (p.(filters := [], priceRange := p.apiRange, selectedBrands := [], minRating := 0), [])
  }

  /**
   * `hasActiveFilters`: any key in the filter object counts, even one whose
   * value is undefined. An inactive panel sends no query entries at all.
   */
  function HasActiveFilters(p: Panel): (b: bool)
    ensures !b ==> QueryEntries(p.filters) == [] && p.selectedBrands == [] && p.minRating <= 0
    ensures p.filters != [] ==> b
  {
    |p.filters| > 0 || |p.selectedBrands| > 0 || p.minRating > 0
  }

  /**
   * Selecting and deselecting a brand on a clean panel sends no brand, yet
   * the panel still counts as filtered: the `brand` key stays, undefined.
   */
  lemma DeselectedBrandStillActive(brand: string)
    ensures var p := ToggleBrand(ToggleBrand(Init(), brand).0, brand).0;
      && p.selectedBrands == [] && HasActiveFilters(p)
      && ProductsRoute.Get(QueryEntries(p.filters), "brand").None?
  {
    var once := ToggleBrand(Init(), brand).0;
    assert once.selectedBrands == [brand];
    ToggleBrandTwiceRestores([], brand);
    var twice := ToggleBrand(once, brand).0;
    assert PropertyIs(twice.filters, "brand", Undefined);
    UnsentValueMissing(twice.filters, "brand");
  }

  // ---------------------------------------------------------------------
  // Brands and price range from the sample.
  // ---------------------------------------------------------------------

  /** The truthy brand and source of each product, in order. */
  function BrandCandidates(items: seq<ProductsRoute.Item>): (r: seq<string>)
    ensures forall b :: b in r <==> b != "" && exists i :: 0 <= i < |items| && (items[i].brand == b || items[i].source == b)
  {
    if |items| == 0 then []
    else
      var it := items[0];
      var rest := BrandCandidates(items[1..]);
      var r := (if it.brand != "" then [it.brand] else []) + (if it.source != "" then [it.source] else []) + rest;
      assert forall b :: b in r <==> b != "" && exists i :: 0 <= i < |items| && (items[i].brand == b || items[i].source == b) by {
        forall b ensures b in r <==> b != "" && exists i :: 0 <= i < |items| && (items[i].brand == b || items[i].source == b) {
          if b in rest {
            var i :| 0 <= i < |items[1..]| && (items[1..][i].brand == b || items[1..][i].source == b);
            assert items[i + 1] == items[1..][i];
          }
          if b != "" && exists i :: 0 <= i < |items| && (items[i].brand == b || items[i].source == b) {
            var i :| 0 <= i < |items| && (items[i].brand == b || items[i].source == b);
            if i > 0 {
              assert items[1..][i - 1] == items[i];
            }
          }
        }
      }
      r
  }

  /**
   * `Array.from(brands).filter(Boolean).sort()`: every non-empty brand or
   * source exactly once, in string order.
   */
  function AvailableBrands(items: seq<ProductsRoute.Item>): (r: seq<string>)
    ensures forall b :: b in r <==> b != "" && exists i :: 0 <= i < |items| && (items[i].brand == b || items[i].source == b)
    ensures NoDuplicates(r)
    ensures SortedBy(r, LexLe)
  {
    var unique := Dedup(BrandCandidates(items));
    LexLeTotalPreorder();
    var r := Sort(unique, LexLe);
    NoDuplicatesPermutation(unique, r);
    assert forall b :: b in r <==> b in unique by {
      forall b ensures b in r <==> b in unique {
        assert b in r <==> b in multiset(r);
        assert b in unique <==> b in multiset(unique);
      }
    }
    r
  }

  /** The prices above zero, in order. */
  function PositivePrices(items: seq<ProductsRoute.Item>): (r: seq<real>)
    ensures forall x :: x in r <==> exists i :: 0 <= i < |items| && items[i].extractedPrice.Gt(0.0) && items[i].extractedPrice.value == x
  {
    if |items| == 0 then []
    else
      var rest := PositivePrices(items[1..]);
      var r := if items[0].extractedPrice.Gt(0.0) then [items[0].extractedPrice.value] + rest else rest;
      assert forall x :: x in r <==> exists i :: 0 <= i < |items| && items[i].extractedPrice.Gt(0.0) && items[i].extractedPrice.value == x by {
        forall x ensures x in r <==> exists i :: 0 <= i < |items| && items[i].extractedPrice.Gt(0.0) && items[i].extractedPrice.value == x {
          if x in rest {
            var i :| 0 <= i < |items[1..]| && items[1..][i].extractedPrice.Gt(0.0) && items[1..][i].extractedPrice.value == x;
            assert items[i + 1] == items[1..][i];
          }
          if exists i :: 0 <= i < |items| && items[i].extractedPrice.Gt(0.0) && items[i].extractedPrice.value == x {
            var i :| 0 <= i < |items| && items[i].extractedPrice.Gt(0.0) && items[i].extractedPrice.value == x;
            if i > 0 {
              assert items[1..][i - 1] == items[i];
            }
          }
        }
      }
      r
  }

  function MinOf(s: seq<real>): (m: real)
    requires |s| > 0
    ensures m in s && forall x :: x in s ==> m <= x
  {
    if |s| == 1 then s[0]
    else
      var rest := MinOf(s[1..]);
      assert forall x :: x in s ==> x == s[0] || x in s[1..];
      if s[0] <= rest then s[0] else rest
  }

  function MaxOf(s: seq<real>): (m: real)
    requires |s| > 0
    ensures m in s && forall x :: x in s ==> x <= m
  {
    if |s| == 1 then s[0]
    else
      var rest := MaxOf(s[1..]);
      assert forall x :: x in s ==> x == s[0] || x in s[1..];
      if s[0] >= rest then s[0] else rest
  }

  /** `Math.floor(x / 10) * 10`. */
  function FloorTen(x: real): (r: int)
    ensures r % 10 == 0
    ensures r as real <= x < r as real + 10.0
  {
    (x / 10.0).Floor * 10
  }

  /** `Math.ceil(x / 10) * 10`. */
  function CeilTen(x: real): (r: int)
    ensures r % 10 == 0
    ensures r as real - 10.0 < x <= r as real
  {
    -((-x / 10.0).Floor * 10)
  }

  /**
   * The rounded range of the positive prices, if there are any: the lower
   * end rounded down and the upper end rounded up to a multiple of ten.
   */
  function PriceRangeOf(items: seq<ProductsRoute.Item>): (r: Option<(int, int)>)
    ensures r.None? <==> |PositivePrices(items)| == 0
    ensures r.Some? ==> r.value.0 % 10 == 0 && r.value.1 % 10 == 0
    ensures r.Some? ==> forall x :: x in PositivePrices(items) ==> r.value.0 as real <= x <= r.value.1 as real
    ensures r.Some? ==>
      && (exists x :: x in PositivePrices(items) && x < r.value.0 as real + 10.0)
      && (exists x :: x in PositivePrices(items) && x > r.value.1 as real - 10.0)
  {
    var prices := PositivePrices(items);
    if |prices| == 0 then None
    else Some((FloorTen(MinOf(prices)), CeilTen(MaxOf(prices))))
  }

  /** What the sample request ended with. */
  datatype Sample = Products(items: seq<ProductsRoute.Item>) | RequestFailed

  /**
   * The effect that loads the sample: brands and, when some price is
   * positive, the rounded range for both the slider and its bounds; on
   * failure, the fixed brand list.
   */
  function SampleLoaded(p: Panel, sample: Sample): (r: Panel)
    ensures r.filters == p.filters && r.selectedBrands == p.selectedBrands && r.minRating == p.minRating
    ensures sample.RequestFailed? ==> r == p.(availableBrands := FallbackBrands)
    ensures sample.Products? ==> r.availableBrands == AvailableBrands(sample.items)
    ensures sample.Products? && PriceRangeOf(sample.items).Some? ==>
      r.apiRange == PriceRangeOf(sample.items).value && r.priceRange == r.apiRange
    ensures sample.Products? && PriceRangeOf(sample.items).None? ==>
      r.apiRange == p.apiRange && r.priceRange == p.priceRange
  {
    match sample
    case RequestFailed => p.(availableBrands := FallbackBrands)
    case Products(items) =>
      var brands := AvailableBrands(items);
      match PriceRangeOf(items)
      case None => p.(availableBrands := brands)
      case Some(range) => p.(availableBrands := brands, apiRange := range, priceRange := range)
  }

  /** After the sample loads, a slider left at its ends sends no price bounds. */
  lemma UntouchedSliderSendsNoBounds(p: Panel, sample: Sample)
    ensures var q := SampleLoaded(p, sample);
      var f := ChangePrice(q, q.apiRange).1;
      ProductsRoute.Get(QueryEntries(f), "min_price").None?
  {
    FullRangeSendsNoBounds(SampleLoaded(p, sample));
  }
}
