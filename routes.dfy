/** The catalog and the conversions of EduWaste/EduWaste/server/routes.ts:
    the unit weight and carbon multiplier of each waste type, the weight and
    carbon computed for a waste report before it reaches the store, and the
    dashboard's green-points figure. The Express plumbing around them is not
    modelled. */
module Routes {
  import opened Wrappers
  import opened Schema
  import opened Scoring
  import opened Aggregates
  import opened Storage
  import Ledger

  /** Grams per item, keyed by category name. */
  const WasteWeights: map<string, int> := map[
    "stock_paper" := 5,
    "food_waste" := 532,
    "plastic_bottles" := 25,
    "plastic_cutlery" := 50,
    "plastic_wrappers" := 10,
    "plastic_packets" := 20,
    "chart_paper" := 120,
    "disposable_cups" := 60,
    "pens" := 30,
    "paper_tissues" := 5]

  /** Grams of CO2 per gram of waste, in tenths (1.2 is 12), keyed by category name. */
  const CarbonMultiplierTenths: map<string, int> := map[
    "stock_paper" := 12,
    "food_waste" := 43,
    "plastic_bottles" := 60,
    "plastic_cutlery" := 60,
    "plastic_wrappers" := 60,
    "plastic_packets" := 60,
    "chart_paper" := 12,
    "disposable_cups" := 25,
    "pens" := 80,
    "paper_tissues" := 12]

  /** Both tables have exactly the ten category names as keys, and every value is positive. */
  lemma CatalogCoversCategories()
    ensures WasteWeights.Keys == WasteTypeNames()
    ensures CarbonMultiplierTenths.Keys == WasteTypeNames()
    ensures forall k :: k in WasteWeights ==> WasteWeights[k] > 0
    ensures forall k :: k in CarbonMultiplierTenths ==> CarbonMultiplierTenths[k] > 0
  {
  }

  function UnitWeight(t: WasteType): (w: int)
    ensures w > 0
  {
    CatalogCoversCategories();
    WasteTypeNamesExact(WasteTypeName(t));
    WasteWeights[WasteTypeName(t)]
  }

  function CarbonTenths(t: WasteType): (c: int)
    ensures c > 0
  {
    CatalogCoversCategories();
    WasteTypeNamesExact(WasteTypeName(t));
    CarbonMultiplierTenths[WasteTypeName(t)]
  }

  /** `totalWeight = unitWeight * quantity`, in grams. */
  function ReportedWeight(t: WasteType, quantity: int): (w: int)
    ensures quantity >= 0 ==> w >= 0
    ensures quantity >= 1 ==> w >= UnitWeight(t)
    ensures quantity < 0 ==> w < 0
  {
    UnitWeight(t) * quantity
  }

  /** `carbonFootprint = totalWeight * multiplier`, in tenths of a gram. */
  function ReportedCarbon(t: WasteType, quantity: int): (c: int)
    ensures quantity >= 0 ==> c >= 0
  {
    ReportedWeight(t, quantity) * CarbonTenths(t)
  }

  lemma ScaleByTenths(w: int, k: int)
    ensures (w * k) as real / 10.0 == w as real * (k as real / 10.0)
  {
  }

  /** The carbon, as grams, is the weight times the decimal multiplier. */
  lemma ReportedCarbonIsWeightTimesMultiplier(t: WasteType, quantity: int)
    ensures Grams(ReportedCarbon(t, quantity)) == ReportedWeight(t, quantity) as real * (CarbonTenths(t) as real / 10.0)
  {
    ScaleByTenths(ReportedWeight(t, quantity), CarbonTenths(t));
  }

  /** Four plastic bottles weigh 100 g, carry 600 g of CO2 and earn 18 points:
      round((sqrt(10) + 8) * 8 / 5) = round(17.86) = 18. */
  lemma PlasticBottlesExample()
    ensures ReportedWeight(PlasticBottles, 4) == 100
    ensures Grams(ReportedCarbon(PlasticBottles, 4)) == 600.0
    ensures CalculateWastePoints(WasteTypeName(PlasticBottles), ReportedWeight(PlasticBottles, 4), 4) == 18
  {
    assert UnitWeight(PlasticBottles) == 25;
    assert CarbonTenths(PlasticBottles) == 60;
    assert PointMultiplier("plastic_bottles") == 8;
    assert QuantityBonus(4) == 8;
    assert ReachesHalfAbove(17, 100, 8, 8);
    assert !ReachesHalfAbove(18, 100, 8, 8);
    RoundedBasePointsUnique(100, 8, 8, 18);
  }

  /** The dashboard's greenPoints for today's statistics: 100 per recycled
      kilogram, less 50 per unrecycled kilogram (each part floored), and
      never below zero. */
  function GreenPoints(s: TodayStats): (g: int)
    ensures g >= 0
  {
    var raw := (s.recycled * 100.0).Floor + ((s.totalWaste - s.recycled) * -50.0).Floor;
    if raw > 0 then raw else 0
  }

  /** When everything was recycled only the reward remains; when nothing
      was, there are no green points. */
  lemma GreenPointsExtremes(s: TodayStats)
    ensures s.recycled == s.totalWaste && s.recycled >= 0.0 ==> GreenPoints(s) == (s.recycled * 100.0).Floor
    ensures s.recycled == 0.0 && s.totalWaste >= 0.0 ==> GreenPoints(s) == 0
  {
  }

  /** Every stored entry carries the weight and carbon the catalog gives its
      type and item count. */
  ghost predicate EntriesFromCatalog(es: seq<WasteEntry>) {
    forall i :: 0 <= i < |es| ==>
      es[i].weight == ReportedWeight(es[i].wasteType, es[i].quantity) &&
      es[i].carbonFootprint == ReportedCarbon(es[i].wasteType, es[i].quantity)
  }

  /** Reordering the entries, as the in-place sort of getWasteEntries does, keeps them catalog-derived. */
  lemma EntriesFromCatalogPermutation(a: seq<WasteEntry>, b: seq<WasteEntry>)
    requires multiset(a) == multiset(b) && EntriesFromCatalog(a)
    ensures EntriesFromCatalog(b)
  {
    forall i | 0 <= i < |b|
      ensures b[i].weight == ReportedWeight(b[i].wasteType, b[i].quantity)
      ensures b[i].carbonFootprint == ReportedCarbon(b[i].wasteType, b[i].quantity)
    {
      assert b[i] in multiset(a);
      var k :| 0 <= k < |a| && a[k] == b[i];
    }
  }

  /** The body of a POST to /api/waste/report. */
  datatype WasteReport = WasteReport(
    wasteType: string,
    quantity: int,
    classId: Option<string>,
    location: Option<string>,
    properlySegregated: bool,
    reportedBy: Option<string>)

  /** What the /api/waste/report handler as written checks before storing:
      the insert schema validates the category, while any integer item count
      passes, so nothing stops a negative count. */
  predicate AcceptedAsWritten(body: WasteReport): (ok: bool)
    ensures ok <==> body.wasteType in WasteTypeNames()
  {
    WasteTypeNamesExact(body.wasteType);
    ParseWasteType(body.wasteType).Some?
  }

  /** As written, a report of -1 plastic bottles passes the handler's checks
      and records a weight of -25 g. That weight is outside the domain of
      calculateWastePoints, whose square root then yields NaN. */
  lemma NegativeQuantityAccepted()
    ensures var body := WasteReport("plastic_bottles", -1, Some("class"), None, true, None);
      AcceptedAsWritten(body) && ParseWasteType(body.wasteType) == Some(PlasticBottles) &&
      ReportedWeight(PlasticBottles, body.quantity) == -25 && ReportedWeight(PlasticBottles, body.quantity) < 0
  {
    WasteTypeNameRoundTrip(PlasticBottles);
  }

  /** As written, a segregated report of zero plastic bottles for a class
      also passes the handler's checks; it records 0 g and still earns the
      class the 3-point floor of calculateWastePoints. */
  lemma ZeroQuantityAccepted()
    ensures var body := WasteReport("plastic_bottles", 0, Some("class"), None, true, None);
      AcceptedAsWritten(body) && ParseWasteType(body.wasteType) == Some(PlasticBottles) &&
      ReportedWeight(PlasticBottles, body.quantity) == 0 &&
      CalculateWastePoints(body.wasteType, ReportedWeight(PlasticBottles, body.quantity), body.quantity) == 3
  {
    WasteTypeNameRoundTrip(PlasticBottles);
    assert PointMultiplier("plastic_bottles") == 8;
    assert QuantityBonus(0) == 0;
    assert !ReachesHalfAbove(0, 0, 0, 8);
    RoundedBasePointsUnique(0, 0, 8, 0);
  }

  /** The /api/waste/report handler, with the item count checked on the
      server as the client form checks it: a category outside the ten or a
      count below 1 is rejected and nothing is stored. Otherwise weight and
      carbon are computed from the catalog and passed to createWasteEntry
      unchanged, with fresh ids for the entry and the activity it may log. */
  method ReportWaste(store: MemStorage, body: WasteReport, entryId: string, activityId: string, now: int)
    returns (r: Result<WasteEntry, string>)
    requires forall i :: 0 <= i < |store.wasteEntries| ==> store.wasteEntries[i].id != entryId
    requires forall i :: 0 <= i < |store.activities| ==> store.activities[i].id != activityId
    modifies store
    ensures r.Ok? <==> AcceptedAsWritten(body) && body.quantity >= 1
    ensures r.Err? ==>
              store.classes == old(store.classes) && store.wasteEntries == old(store.wasteEntries) &&
              store.binReports == old(store.binReports) && store.activities == old(store.activities)
    ensures r.Ok? ==>
              var t := ParseWasteType(body.wasteType).value;
              r.value.wasteType == t && WasteTypeName(t) == body.wasteType &&
              r.value.quantity == body.quantity &&
              r.value.weight == ReportedWeight(t, body.quantity) && r.value.weight >= UnitWeight(t) &&
              r.value.carbonFootprint == ReportedCarbon(t, body.quantity) &&
              r.value.id == entryId && r.value.createdAt == now &&
              r.value == WasteEntry(entryId, t, body.quantity, ReportedWeight(t, body.quantity),
                                    ReportedCarbon(t, body.quantity), OrNull(body.classId), body.location,
                                    body.properlySegregated, body.reportedBy, now) &&
              store.wasteEntries == old(store.wasteEntries) + [r.value] &&
              store.binReports == old(store.binReports)
    ensures r.Ok? && body.properlySegregated && OrNull(body.classId).Some? ==>
              var t := ParseWasteType(body.wasteType).value;
              var p := CalculateWastePoints(body.wasteType, ReportedWeight(t, body.quantity), body.quantity);
              store.classes == Ledger.AddPoints(old(store.classes), body.classId.value, p) &&
              store.activities == old(store.activities) + [Activity(activityId, "waste_report",
                                                                    SegregatedItems(body.quantity, t, p), p,
                                                                    body.classId, OrNull(body.reportedBy), now)]
    ensures !(r.Ok? && body.properlySegregated && OrNull(body.classId).Some?) ==>
              store.classes == old(store.classes) && store.activities == old(store.activities)
    ensures old(store.Valid()) ==> store.Valid()
    ensures old(EntriesFromCatalog(store.wasteEntries)) ==> EntriesFromCatalog(store.wasteEntries)
  {
    match ParseWasteType(body.wasteType)
    case None =>
      r := Err("Invalid waste entry data");
    case Some(t) =>
      if body.quantity < 1 {
        r := Err("Invalid waste entry data");
      } else {
        var weight := ReportedWeight(t, body.quantity);
        var carbon := ReportedCarbon(t, body.quantity);
        var e := store.CreateWasteEntry(
          InsertWasteEntry(t, body.quantity, weight, carbon, body.classId, body.location,
                           body.properlySegregated, body.reportedBy),
          entryId, activityId, now);
        r := Ok(e);
      }
  }
}
