/**
 * The lightning-deals page: the status tabs, the badge of each status and
 * the action button of each deal.
 */
module DealsPage {
  import opened Seqs

  /** The fields of a deal that the page's logic reads. */
  datatype Deal = Deal(id: int, claimed: int, total: int, status: string)

  const AllTab := "all"

  /** The statuses the page knows, each with its own tab. */
  const KnownStatuses: seq<string> := ["live", "ending-soon", "upcoming"]

  /** The status, claimed and total fields of the four deals on the page. */
  const LightningDeals: seq<Deal> := [
    Deal(1, 67, 100, "live"), Deal(2, 45, 80, "live"),
    Deal(3, 89, 100, "ending-soon"), Deal(4, 0, 150, "upcoming")]

  predicate Shown(deal: Deal, tab: string)
  {
    tab == AllTab || deal.status == tab
  }

  function ShownIn(tab: string): Deal -> bool
  {
    (d: Deal) => Shown(d, tab)
  }

  /** `filteredDeals`: every deal under "all", otherwise the deals of that status, in order. */
  function FilteredDeals(deals: seq<Deal>, tab: string): (r: seq<Deal>)
    ensures IsSubsequence(r, deals)
    ensures tab == AllTab ==> r == deals
    ensures tab != AllTab ==> forall d :: d in r <==> d in deals && d.status == tab
  {
    FilterAll(deals, ShownIn(AllTab));
    Filter(deals, ShownIn(tab))
  }

  function HasStatus(status: string): Deal -> bool
  {
    (d: Deal) => d.status == status
  }

  /** The badge count of a tab: the whole list for "all", else the deals of that status. */
  function TabCount(deals: seq<Deal>, tab: string): (n: nat)
    ensures tab == AllTab ==> n == |deals|
  {
    if tab == AllTab then |deals| else |Filter(deals, HasStatus(tab))|
  }

  /** Each tab's badge counts exactly the deals the tab shows. */
  lemma TabCountIsShownCount(deals: seq<Deal>, tab: string)
    ensures TabCount(deals, tab) == |FilteredDeals(deals, tab)|
  {
    if tab != AllTab {
      FilterSame(deals, ShownIn(tab), HasStatus(tab));
    }
  }

  lemma {:induction false} FilterSame(s: seq<Deal>, p: Deal -> bool, q: Deal -> bool)
    requires forall d :: p(d) == q(d)
    ensures Filter(s, p) == Filter(s, q)
  {
    if |s| > 0 {
      FilterSame(s[1..], p, q);
    }
  }

  /**
   * When every deal has a known status, the three status tabs split the
   * "all" tab: their counts add up to its count.
   */
  lemma {:induction false} StatusTabsPartition(deals: seq<Deal>)
    requires forall i :: 0 <= i < |deals| ==> deals[i].status in KnownStatuses
    ensures TabCount(deals, "live") + TabCount(deals, "ending-soon") + TabCount(deals, "upcoming") == TabCount(deals, AllTab)
  {
    FilterLength(deals, HasStatus("live"));
    FilterLength(deals, HasStatus("ending-soon"));
    FilterLength(deals, HasStatus("upcoming"));
    CountsAddUp(deals);
  }

  lemma {:induction false} CountsAddUp(deals: seq<Deal>)
    requires forall i :: 0 <= i < |deals| ==> deals[i].status in KnownStatuses
    ensures CountIf(deals, HasStatus("live")) + CountIf(deals, HasStatus("ending-soon"))
      + CountIf(deals, HasStatus("upcoming")) == |deals|
  {
    if |deals| > 0 {
      assert deals[0].status in KnownStatuses;
      CountsAddUp(deals[1..]);
    }
  }

  /** On the page's own deals the tabs read 4, 2, 1 and 1. */
  lemma TabCountsOfLightningDeals()
    ensures TabCount(LightningDeals, AllTab) == 4
    ensures TabCount(LightningDeals, "live") == 2
    ensures TabCount(LightningDeals, "ending-soon") == 1
    ensures TabCount(LightningDeals, "upcoming") == 1
  {
    LiveCount();
    EndingSoonCount();
    UpcomingCount();
  }

  lemma LiveCount()
    ensures TabCount(LightningDeals, "live") == 2
  {
    FilterLength(LightningDeals, HasStatus("live"));
    assert LightningDeals[1..][1..][1..][1..] == [];
  }

  lemma EndingSoonCount()
    ensures TabCount(LightningDeals, "ending-soon") == 1
  {
    FilterLength(LightningDeals, HasStatus("ending-soon"));
    assert LightningDeals[1..][1..][1..][1..] == [];
  }

  lemma UpcomingCount()
    ensures TabCount(LightningDeals, "upcoming") == 1
  {
    FilterLength(LightningDeals, HasStatus("upcoming"));
    assert LightningDeals[1..][1..][1..][1..] == [];
  }

  /** `getStatusColor`. */
  function StatusColor(status: string): (colour: string)
    ensures status == "live" ==> colour == "bg-green-500"
    ensures status == "ending-soon" ==> colour == "bg-red-500"
    ensures status == "upcoming" ==> colour == "bg-blue-500"
    ensures status !in KnownStatuses ==> colour == "bg-gray-500"
  {
    match status
    case "live" => "bg-green-500"
    case "ending-soon" => "bg-red-500"
    case "upcoming" => "bg-blue-500"
    case _ => "bg-gray-500"
  }

  /** `getStatusText`. */
  function StatusText(status: string): (text: string)
    ensures status == "live" ==> text == "Live Now"
    ensures status == "ending-soon" ==> text == "Ending Soon"
    ensures status == "upcoming" ==> text == "Coming Soon"
    ensures status !in KnownStatuses ==> text == "Deal"
    ensures text == "Deal" <==> StatusColor(status) == "bg-gray-500"
  {
    match status
    case "live" => "Live Now"
    case "ending-soon" => "Ending Soon"
    case "upcoming" => "Coming Soon"
    case _ => "Deal"
  }

  /**
   * The badge falls back in both parts at once, and the three known
   * statuses get three different colours and texts.
   */
  lemma BadgesDistinguishStatuses(a: string, b: string)
    ensures StatusText(a) == "Deal" <==> StatusColor(a) == "bg-gray-500"
    ensures a in KnownStatuses && b in KnownStatuses && a != b ==>
      StatusColor(a) != StatusColor(b) && StatusText(a) != StatusText(b)
  {
  }

  /** The deal card's action button. */
  datatype Button = NotifyMe | SoldOut | BuyNow
  {
    predicate Disabled()
    {
      !BuyNow?
    }
  }

  function ActionButton(deal: Deal): (b: Button)
    ensures b.Disabled() <==> deal.status == "upcoming" || deal.claimed >= deal.total
    ensures b == NotifyMe <==> deal.status == "upcoming"
    ensures b == SoldOut <==> deal.status != "upcoming" && deal.claimed >= deal.total
  {
    if deal.status == "upcoming" then NotifyMe
    else if deal.claimed >= deal.total then SoldOut
    else BuyNow
  }

  /** The countdown is shown on every card that is not upcoming. */
  predicate ShowsTimer(deal: Deal)
  {
    deal.status != "upcoming"
  }

  /** A card shows its countdown exactly when its button is not "Notify Me". */
  lemma TimerIffNotNotify(deal: Deal)
    ensures ShowsTimer(deal) <==> ActionButton(deal) != NotifyMe
  {
  }

  /** The first deal on the page can be bought; the upcoming one only offers a notification. */
  lemma LightningDealButtons()
    ensures ActionButton(LightningDeals[0]) == BuyNow && ActionButton(LightningDeals[3]) == NotifyMe
  {
  }
}
