/** The closed value sets and the record shapes of the store
    (EduWaste/EduWaste/shared/schema.ts), without the ORM declarations. */
module Schema {
  import opened Wrappers

  /** houseEnum */
  datatype House = Green | Blue | Red | Yellow

  /** wasteTypeEnum: the ten waste categories */
  datatype WasteType =
    | StockPaper | FoodWaste | PlasticBottles | PlasticCutlery | PlasticWrappers
    | PlasticPackets | ChartPaper | DisposableCups | Pens | PaperTissues

  /** binStatusEnum */
  datatype BinStatus = Normal | Overflowing | WrongUsage

  /** The ten categories in the order the enum declares them. */
  const AllWasteTypes: seq<WasteType> :=
    [StockPaper, FoodWaste, PlasticBottles, PlasticCutlery, PlasticWrappers,
     PlasticPackets, ChartPaper, DisposableCups, Pens, PaperTissues]

  /** The wire name of a category, as the enum spells it. */
  function WasteTypeName(t: WasteType): string {
    match t
    case StockPaper => "stock_paper"
    case FoodWaste => "food_waste"
    case PlasticBottles => "plastic_bottles"
    case PlasticCutlery => "plastic_cutlery"
    case PlasticWrappers => "plastic_wrappers"
    case PlasticPackets => "plastic_packets"
    case ChartPaper => "chart_paper"
    case DisposableCups => "disposable_cups"
    case Pens => "pens"
    case PaperTissues => "paper_tissues"
  }

  /** Enum validation of a category name: anything outside the ten names is rejected. */
  function ParseWasteType(s: string): (r: Option<WasteType>)
    ensures r.Some? ==> WasteTypeName(r.value) == s
  {
    if s == "stock_paper" then Some(StockPaper)
    else if s == "food_waste" then Some(FoodWaste)
    else if s == "plastic_bottles" then Some(PlasticBottles)
    else if s == "plastic_cutlery" then Some(PlasticCutlery)
    else if s == "plastic_wrappers" then Some(PlasticWrappers)
    else if s == "plastic_packets" then Some(PlasticPackets)
    else if s == "chart_paper" then Some(ChartPaper)
    else if s == "disposable_cups" then Some(DisposableCups)
    else if s == "pens" then Some(Pens)
    else if s == "paper_tissues" then Some(PaperTissues)
    else None
  }

  /** Every category is in the list of the ten. */
  lemma WasteTypeListed(t: WasteType)
    ensures t in AllWasteTypes
  {
  }

  /** Every category's name parses back to that category. */
  lemma WasteTypeNameRoundTrip(t: WasteType)
    ensures ParseWasteType(WasteTypeName(t)) == Some(t)
  {
    match t
    case StockPaper =>
    case FoodWaste =>
    case PlasticBottles =>
    case PlasticCutlery =>
    case PlasticWrappers =>
    case PlasticPackets =>
    case ChartPaper =>
    case DisposableCups =>
    case Pens =>
    case PaperTissues =>
  }

  /** The ten category names. */
  function WasteTypeNames(): set<string> {
    {"stock_paper", "food_waste", "plastic_bottles", "plastic_cutlery", "plastic_wrappers",
     "plastic_packets", "chart_paper", "disposable_cups", "pens", "paper_tissues"}
  }

  /** The name set holds exactly the names of the enum's values. */
  lemma WasteTypeNamesExact(s: string)
    ensures s in WasteTypeNames() <==> ParseWasteType(s).Some?
    ensures forall t :: WasteTypeName(t) in WasteTypeNames()
  {
  }

  /** A competing class; `points` is its running score. */
  datatype Class = Class(id: string, name: string, grade: int, section: string, house: House, points: int)

  /** The fields a caller supplies to create a class. */
  datatype InsertClass = InsertClass(name: string, grade: int, section: string, house: House)

  /** One disposal report. `carbonFootprint` is in tenths of a gram of CO2,
      so that the decimal carbon multipliers stay integral. */
  datatype WasteEntry = WasteEntry(
    id: string,
    wasteType: WasteType,
    quantity: int,
    weight: int,
    carbonFootprint: int,
    classId: Option<string>,
    location: Option<string>,
    properlySegregated: bool,
    reportedBy: Option<string>,
    createdAt: int)

  /** The fields of a waste entry as handed to the store. */
  datatype InsertWasteEntry = InsertWasteEntry(
    wasteType: WasteType,
    quantity: int,
    weight: int,
    carbonFootprint: int,
    classId: Option<string>,
    location: Option<string>,
    properlySegregated: bool,
    reportedBy: Option<string>)

  /** A bin-condition observation. */
  datatype BinReport = BinReport(
    id: string,
    status: BinStatus,
    location: string,
    description: Option<string>,
    classId: Option<string>,
    reportedBy: string,
    createdAt: int)

  datatype InsertBinReport = InsertBinReport(
    status: BinStatus,
    location: string,
    description: Option<string>,
    classId: Option<string>,
    reportedBy: string)

  /** What an activity's description text reports, kept structured rather than formatted. */
  datatype ActivityNote =
    | SegregatedItems(quantity: int, wasteType: WasteType, awarded: int)
    | BinReported(status: BinStatus, location: string)

  /** An audit/feed record of a point change. */
  datatype Activity = Activity(
    id: string,
    kind: string,
    description: ActivityNote,
    points: int,
    classId: Option<string>,
    userId: Option<string>,
    createdAt: int)

  /** The fields of an activity as handed to the store; `points` may be absent. */
  datatype InsertActivity = InsertActivity(
    kind: string,
    description: ActivityNote,
    points: Option<int>,
    classId: Option<string>,
    userId: Option<string>)

  /** JavaScript's `s || null` on an optional string: the empty string is falsy. */
  function OrNull(s: Option<string>): (r: Option<string>)
    ensures r.Some? <==> s.Some? && s.value != ""
    ensures r.Some? ==> r == s
  {
    if s == Some("") then None else s
  }

  /** JavaScript's `n || 0` on an optional number. */
  function OrZero(n: Option<int>): (r: int)
    ensures n.Some? ==> r == n.value
    ensures n.None? ==> r == 0
  {
    match n
    case Some(v) => v
    case None => 0
  }
}
