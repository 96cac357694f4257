/**
 * The rotating offer banner: an index advanced by a timer, a dismiss button,
 * and one progress dot per offer. The timer is modelled as `Tick` steps.
 */
module OfferBanner {
  import opened Wrappers

  /** The number of offers the banner rotates through. */
  const OfferCount: nat := 3

  datatype Banner = Banner(current: nat, visible: bool)

  /** The banner on mount: the first offer, visible. */
  function Init(): (b: Banner)
    ensures b.visible && b.current == 0
  {
    Banner(0, true)
  }

  /** One interval tick: the next offer, wrapping after the last. */
  function Tick(b: Banner): (r: Banner)
    ensures b.current < OfferCount ==> r.current < OfferCount
    ensures b.current + 1 < OfferCount ==> r.current == b.current + 1
    ensures b.current == OfferCount - 1 ==> r.current == 0
    ensures r.visible == b.visible
  {
    b.(current := (b.current + 1) % OfferCount)
  }

  function Ticks(b: Banner, n: nat): Banner
  {
    if n == 0 then b else Tick(Ticks(b, n - 1))
  }

  /** After `n` ticks from mount the banner shows offer `n mod 3`. */
  lemma {:induction false} TicksFromInit(n: nat)
    ensures Ticks(Init(), n).current == n % OfferCount
    ensures Ticks(Init(), n).visible
  {
    if n > 0 {
      TicksFromInit(n - 1);
    }
  }

  /** Three ticks bring any banner back to the offer it showed. */
  lemma ThreeTicksReturn(b: Banner)
    requires b.current < OfferCount
    ensures Ticks(b, 3) == b
  {
    assert Ticks(b, 1) == Tick(b);
    assert Ticks(b, 2) == Tick(Tick(b));
  }

  /** The close button. */
  function Dismiss(b: Banner): (r: Banner)
    ensures !r.visible && r.current == b.current
  {
    b.(visible := false)
  }

  /** What renders: the offer at the current index, or nothing once dismissed. */
  function Rendered(b: Banner): (shown: Option<nat>)
    ensures shown.None? <==> !b.visible
    ensures shown.Some? ==> shown.value == b.current
  {
    if b.visible then Some(b.current) else None
  }

  /** The timer keeps running after a dismiss, but the banner never comes back. */
  lemma {:induction false} DismissIsFinal(b: Banner, n: nat)
    ensures Rendered(Ticks(Dismiss(b), n)).None?
  {
    if n > 0 {
      DismissIsFinal(b, n - 1);
    }
  }

  /** The progress dot at `index` is highlighted. */
  predicate ActiveDot(b: Banner, index: int)
  {
    index == b.current
  }

  /** Of the three dots exactly one is highlighted, the current offer's. */
  lemma ExactlyOneDotActive(b: Banner)
    requires b.current < OfferCount
    ensures exists i :: 0 <= i < OfferCount && ActiveDot(b, i)
    ensures forall i, j :: 0 <= i < OfferCount && 0 <= j < OfferCount && ActiveDot(b, i) && ActiveDot(b, j) ==> i == j
  {
    assert ActiveDot(b, b.current);
  }
}
