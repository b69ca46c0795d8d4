# EduWaste scoring engine in Dafny

This project models the event-accounting and scoring core of EduWaste, a school waste-tracking app. The core does the following:

- Janitors report disposed waste by category (one of ten: stock paper, food waste, plastic bottles and so on) and item count.
- The server turns a report into a weight and a carbon footprint, using two fixed catalogs.
- The in-memory store `MemStorage` records the entry. When the waste was properly segregated and a class is named, it awards that class points by a square-root formula and logs an activity.
- Bin-condition reports deduct 20 points (overflowing) or 10 points (wrong usage) from the class named.
- On the read side, the store computes:
  - today's totals in kilograms, with a per-category breakdown;
  - the class leaderboard;
  - the getClasses ordering by grade and section;
  - the recent-activity feed;
  - waste weight per grade;
  - carbon footprint per category.

The Dafny modules follow the source:

| module | file | models |
|---|---|---|
| `Wrappers` | wrappers.dfy | `Option` and `Result` |
| `Schema` | schema.dfy | the enums (house, the ten waste types, bin status) and the record shapes; JavaScript's `x \|\| null` and `x \|\| 0` |
| `Scoring` | scoring.dfy | `calculateWastePoints` and `Math.round` |
| `Ledger` | ledger.dfy | class lookup, `updateClassPoints`, and the invariant tying every class's points to the activity log |
| `Sorting` | sorting.dfy | JavaScript's stable `Array.prototype.sort`, as an insertion sort over a comparator |
| `Aggregates` | aggregates.dfy | the date-window filter, the sums and per-key tallies, and the rounding to kilograms |
| `Rankings` | rankings.dfy | the comparators; the leaderboard, class-order and recent-feed views; JavaScript `slice` |
| `Storage` | storage.dfy | class `MemStorage`: four array fields that its methods update, with one method per store operation |
| `Routes` | routes.dfy | the weight and carbon catalogs, the report conversion, the `/api/waste/report` handler, and the dashboard's green points |

Modelling choices:

- **Ids and time.** The ids that `nanoid()` would draw and the time `new Date()` would read are parameters of each creating operation. Every new id must be unused in its own array (classes, entries, reports, activities), and the store's invariant includes that each array's ids are distinct. The clock is an integer. The source reads the clock twice when a recording logs an activity (`EduWaste/EduWaste/server/storage.ts:170` then `:295`, and `:255` then `:295`), so the activity can be stamped later than its entry or report; the model stamps both with the same `now`.
- **Today's window.** getTodayWasteStats takes today's and tomorrow's local midnight as parameters.
- **Units.** Weights are whole grams. Carbon footprints are whole tenths of a gram, so the decimal multipliers (1.2, 4.3, 6.0, 2.5, 8.0) stay integral.
- **The square root in the point formula** is exact, not IEEE. The rounded base points come from an integer test, and `Scoring.CalculateWastePointsIsFormula` proves that test equal to `max(3, Math.round((sqrt(weight/10) + bonus) * multiplier / 5))` for the real square root.
- **The date window is inclusive at both ends**, `start <= createdAt <= end`. `EduWaste/EduWaste/server/storage.ts:194-198` uses `<=` at the end of the window, so an entry stamped exactly at the next local midnight counts as today's; the model does the same.
- **In-place sorts.** getClasses, getClassLeaderboard, getRecentActivities, and getWasteEntries or getBinReports without both window ends all sort the stored array in place. The model reassigns the field to the sorted sequence, and proves the points invariant is kept.

## Model

| member | source | states |
|---|---|---|
| `Schema.ParseWasteType` | EduWaste/EduWaste/shared/schema.ts:8-12 | a parsed name is the wire name of the type returned |
| `Schema.WasteTypeNameRoundTrip` | EduWaste/EduWaste/shared/schema.ts:8-12 | every type's wire name parses back to that type |
| `Schema.WasteTypeNamesExact` | EduWaste/EduWaste/shared/schema.ts:8-12 | the ten names are exactly the strings that parse as a waste type |
| `Schema.OrNull` | EduWaste/EduWaste/server/storage.ts:166 | `x \|\| null` keeps a non-empty string and turns an absent or empty one into null |
| `Schema.OrZero` | EduWaste/EduWaste/server/storage.ts:292 | `points \|\| 0` keeps a given value and turns an absent one into 0 |
| `Scoring.PointMultipliersCoverCategories` | EduWaste/EduWaste/server/storage.ts:122-139 | the multiplier table has exactly the ten category keys, each valued between 3 and 9 |
| `Scoring.PointMultiplier` | EduWaste/EduWaste/server/storage.ts:141 | an unknown category gives multiplier 3, a known one its table value, and every multiplier is between 3 and 9 |
| `Scoring.QuantityBonus` | EduWaste/EduWaste/server/storage.ts:146 | the bonus is two per item, capped at 20, and never exceeds 20 |
| `Scoring.RoundHalfUp` | EduWaste/EduWaste/server/storage.ts:149 | `Math.round` lands within half a unit of its argument, rounding halves up |
| `Scoring.ReachesHalfAboveIsExact` | EduWaste/EduWaste/server/storage.ts:145-147 | the integer test agrees with `basePoints >= n + 1/2` under the exact square root |
| `Scoring.RoundedBasePointsUnique` | EduWaste/EduWaste/server/storage.ts:149 | the rounded base is the unique n with basePoints in [n - 1/2, n + 1/2) |
| `Scoring.CalculateWastePoints` | EduWaste/EduWaste/server/storage.ts:121-150 | every award is at least 3 points |
| `Scoring.CalculateWastePointsIsFormula` | EduWaste/EduWaste/server/storage.ts:141-149 | the points equal `max(3, round((sqrt(weight/10) + min(2q, 20)) * multiplier / 5))` when the root is exact |
| `Scoring.CalculateWastePointsMonotone` | EduWaste/EduWaste/server/storage.ts:145-149 | more weight or more items never earn fewer points |
| `Scoring.QuantityBonusCapped` | EduWaste/EduWaste/server/storage.ts:146 | items beyond the tenth change nothing |
| `Ledger.FindClassIndex` | EduWaste/EduWaste/server/storage.ts:153 | returns the first position holding the id, or none when no class has it |
| `Ledger.FindClass` | EduWaste/EduWaste/server/storage.ts:321 | a found class is the first class carrying the id; nothing is found exactly when no class carries it, and a null id finds nothing |
| `Ledger.AddPoints` | EduWaste/EduWaste/server/storage.ts:152-157 | position by position: the first class with the id gains exactly the delta, every other class is unchanged, ids never change, and an unknown id is a no-op |
| `Ledger.AddPointsKeepsScores` | EduWaste/EduWaste/server/storage.ts:175-185 | a delta applied together with an activity logging it keeps ids unique and scores equal to the logged sums |
| `Ledger.UnscoredActivityKeepsScores` | EduWaste/EduWaste/server/storage.ts:287-299 | an activity with no class or zero points keeps the scores matching |
| `Ledger.NewClassKeepsScores` | EduWaste/EduWaste/server/storage.ts:108-119 | a fresh class at zero points keeps both invariants |
| `Ledger.ActivityPointsPermutation` | EduWaste/EduWaste/server/storage.ts:303 | reordering the activity log changes no class's sum |
| `Ledger.DistinctIdsSnoc` | EduWaste/EduWaste/server/storage.ts:172 | appending a record under an unused id keeps the array's ids distinct |
| `Ledger.DistinctIdsPermutation` | EduWaste/EduWaste/server/storage.ts:200 | reordering an array in place keeps its ids distinct |
| `Ledger.ReorderKeepsScores` | EduWaste/EduWaste/server/storage.ts:301-315 | reordering classes and activities in place keeps both invariants |
| `Sorting.SortByPermutation` | EduWaste/EduWaste/server/storage.ts:101 | sorting returns a permutation of its input |
| `Sorting.SortBySorted` | EduWaste/EduWaste/server/storage.ts:309 | under a strict weak order, no later element sorts before an earlier one |
| `Sorting.SortByStable` | EduWaste/EduWaste/server/storage.ts:303 | elements that compare equal keep their relative order |
| `Rankings.PointsAheadConsistent` | EduWaste/EduWaste/server/storage.ts:309 | the points comparator is a strict weak order |
| `Rankings.StringBeforeAsymmetric` | EduWaste/EduWaste/server/storage.ts:101 | a section never sorts both before and after another |
| `Rankings.StringBeforeTotal` | EduWaste/EduWaste/server/storage.ts:101 | any two distinct sections are ordered one way or the other |
| `Rankings.StringBeforeTransitive` | EduWaste/EduWaste/server/storage.ts:101 | the section order is transitive |
| `Rankings.GradeSectionAheadConsistent` | EduWaste/EduWaste/server/storage.ts:101 | grade-then-section is a strict weak order |
| `Rankings.NewestFirstConsistent` | EduWaste/EduWaste/server/storage.ts:200 | the newest-first comparators are strict weak orders |
| `Rankings.LeaderboardSpec` | EduWaste/EduWaste/server/storage.ts:307-315 | the board is a permutation of the classes, by points non-increasing, ranks 1..N, ties in store order |
| `Rankings.ByGradeAndSectionSpec` | EduWaste/EduWaste/server/storage.ts:100-102 | getClasses is a permutation by grade ascending, then section, ties in store order |
| `Rankings.SliceEnd` | EduWaste/EduWaste/server/storage.ts:304 | `slice(0, limit)` ends at min(limit, n), or n + limit (not below 0) for a negative limit |
| `Rankings.RecentActivitiesSpec` | EduWaste/EduWaste/server/storage.ts:301-305 | for a non-negative limit the feed has min(limit, n) items; it is newest first; it is a sub-multiset of the log, omits none newer than one it shows, and keeps activities with equal timestamps in log order |
| `Rankings.RecentActivitiesKeepsCopies` | EduWaste/EduWaste/server/storage.ts:301-305 | the feed holds every copy in the log of each activity newer than one it shows |
| `Aggregates.Filter` | EduWaste/EduWaste/server/storage.ts:195-197 | keeps every element that passes with its multiplicity, drops every one that fails |
| `Aggregates.SumWherePermutation` | EduWaste/EduWaste/server/storage.ts:228-232 | a reduce-sum does not depend on entry order |
| `Aggregates.SumWhereMonotone` | EduWaste/EduWaste/server/storage.ts:229-231 | with non-negative amounts, a narrower filter sums to no more |
| `Aggregates.SumWhereAgree` | EduWaste/EduWaste/server/storage.ts:229-231 | filters that agree on every entry give the same sum |
| `Aggregates.KeyAbsent` | EduWaste/EduWaste/server/storage.ts:236 | a key no entry has sums to zero |
| `Aggregates.HasKeyPermutation` | EduWaste/EduWaste/server/storage.ts:235-237 | whether a key occurs does not depend on entry order |
| `Aggregates.TypeTotalsSum` | EduWaste/EduWaste/server/storage.ts:235-237 | the per-category totals add up to the overall total |
| `Aggregates.TallySumIsTotal` | EduWaste/EduWaste/server/storage.ts:235-237 | a per-category tally's values add up the per-category totals, absent keys counting zero |
| `Aggregates.TallyPermutation` | EduWaste/EduWaste/server/storage.ts:226-237 | a tally of the sorted copy is a tally of the unsorted entries |
| `Aggregates.TallyAccountsForTotal` | EduWaste/EduWaste/server/storage.ts:234-237 | the values of `wasteByType` add up to the unrounded total |
| `Aggregates.TallyStep` | EduWaste/EduWaste/server/storage.ts:235-237 | one `forEach` step: the entry's key, if any, gains its amount and the map stays a tally of the entries seen so far |
| `Aggregates.TallyBy` | EduWaste/EduWaste/server/storage.ts:320-325 | yields exactly the keys that occur, each holding the sum over its entries |
| `Aggregates.TallyByType` | EduWaste/EduWaste/server/storage.ts:333-335 | yields exactly the categories present with their totals, adding up to the overall total |
| `Aggregates.GradeTotalSnoc` | EduWaste/EduWaste/server/storage.ts:320-325 | an entry adds its weight to its class's grade only; an unresolved class changes no grade |
| `Aggregates.GradeTotalWithinTotal` | EduWaste/EduWaste/server/storage.ts:317-328 | no grade's trend exceeds the total weight |
| `Aggregates.StatsPermutation` | EduWaste/EduWaste/server/storage.ts:226-232 | sorting today's entries changes none of the totals |
| `Aggregates.KilogramsExact` | EduWaste/EduWaste/server/storage.ts:240-242 | the reported kilograms are within half a gram of the sum, and exact for whole grams |
| `Aggregates.KilogramsMonotone` | EduWaste/EduWaste/server/storage.ts:240-242 | rounding to kilograms preserves order |
| `Aggregates.UnrecycledGap` | EduWaste/EduWaste/server/storage.ts:228-241 | with non-negative weights, total minus recycled is non-negative, and zero exactly when every unsegregated entry weighs nothing |
| `Aggregates.RecycledWithinTotal` | EduWaste/EduWaste/server/storage.ts:228-241 | recycled is between 0 and the total, also after rounding, and equals the total exactly when every entry of non-zero weight was segregated |
| `Storage.NewClass` | EduWaste/EduWaste/server/storage.ts:109-116 | a new class carries the given fields and starts at zero points |
| `Storage.BinDeduction` | EduWaste/EduWaste/server/storage.ts:259-260 | overflowing costs 20, wrong usage 10, normal nothing |
| `Storage.MemStorage.constructor` | EduWaste/EduWaste/server/storage.ts:52-77 | the store starts with the five default classes at zero points, no records, and the invariant holding |
| `Storage.MemStorage.GetClasses` | EduWaste/EduWaste/server/storage.ts:100-102 | sorts the classes in place by grade, then section; the invariant is kept and other arrays are unchanged |
| `Storage.MemStorage.GetClass` | EduWaste/EduWaste/server/storage.ts:104-106 | returns the first stored class with the id, or none exactly when no class has it |
| `Storage.MemStorage.CreateClass` | EduWaste/EduWaste/server/storage.ts:108-119 | appends one zero-point class and changes nothing else; the invariant is kept |
| `Storage.MemStorage.UpdateClassPoints` | EduWaste/EduWaste/server/storage.ts:152-157 | the first class with the id gains the points; nothing else changes, and an unknown id is a no-op |
| `Storage.MemStorage.CreateActivity` | EduWaste/EduWaste/server/storage.ts:287-299 | appends one activity under a fresh id, with points defaulted to 0 and ids normalised to null; the invariant is kept when the activity scores nothing |
| `Storage.MemStorage.CreateWasteEntry` | EduWaste/EduWaste/server/storage.ts:159-189 | appends one entry under a fresh id; exactly when segregated with a class, awards calculateWastePoints and logs one activity of that delta under a fresh id; the invariant is kept |
| `Storage.MemStorage.GetWasteEntries` | EduWaste/EduWaste/server/storage.ts:191-201 | with both ends, a sorted copy of the window's entries; otherwise the store's entries sorted in place; the invariant is kept |
| `Storage.MemStorage.GetWasteEntriesByClass` | EduWaste/EduWaste/server/storage.ts:203-213 | exactly the class's entries (in the window when one is given), with their multiplicities, newest first, as the stable sort of the filtered entries, so ties keep store order |
| `Storage.MemStorage.GetTodayWasteStats` | EduWaste/EduWaste/server/storage.ts:215-245 | the rounded kilograms of total, recycled and carbon for today's entries, and the per-category weights adding up to the total |
| `Storage.MemStorage.CreateBinReport` | EduWaste/EduWaste/server/storage.ts:247-273 | appends one report under a fresh id; with a class, overflowing deducts 20 and wrong usage 10, each logged once; normal or classless touches nothing; the invariant is kept |
| `Storage.MemStorage.GetBinReports` | EduWaste/EduWaste/server/storage.ts:275-285 | as GetWasteEntries, for bin reports; the invariant is kept |
| `Storage.MemStorage.GetRecentActivities` | EduWaste/EduWaste/server/storage.ts:301-305 | sorts the log in place newest first and returns its first `limit` items (10 by default); the invariant is kept |
| `Storage.MemStorage.GetClassLeaderboard` | EduWaste/EduWaste/server/storage.ts:307-315 | sorts the classes in place by points and returns them ranked; the invariant is kept |
| `Storage.MemStorage.GetWasteTrendsByGrade` | EduWaste/EduWaste/server/storage.ts:317-328 | exactly the grades of resolved classes, each with the weight of its entries |
| `Storage.MemStorage.GetCarbonFootprintByWasteType` | EduWaste/EduWaste/server/storage.ts:330-338 | exactly the categories present, each with its carbon, adding up to all the carbon |
| `Routes.CatalogCoversCategories` | EduWaste/EduWaste/server/routes.ts:8-33 | both catalogs have exactly the ten category keys and only positive values |
| `Routes.UnitWeight` | EduWaste/EduWaste/server/routes.ts:8-19 | every category has a positive unit weight |
| `Routes.CarbonTenths` | EduWaste/EduWaste/server/routes.ts:22-33 | every category has a positive carbon multiplier |
| `Routes.ReportedWeight` | EduWaste/EduWaste/server/routes.ts:99-100 | a non-negative count gives a non-negative weight, at least one unit for one item or more, and a negative count a negative weight |
| `Routes.ReportedCarbon` | EduWaste/EduWaste/server/routes.ts:101 | a non-negative count gives a non-negative footprint |
| `Routes.ReportedCarbonIsWeightTimesMultiplier` | EduWaste/EduWaste/server/routes.ts:101 | the carbon in grams is the weight times the decimal multiplier |
| `Routes.PlasticBottlesExample` | EduWaste/EduWaste/server/routes.ts:99-101 | four plastic bottles: 100 g, 600 g of CO2, 18 points |
| `Routes.GreenPoints` | EduWaste/EduWaste/server/routes.ts:42-46 | green points are never negative |
| `Routes.GreenPointsExtremes` | EduWaste/EduWaste/server/routes.ts:42-46 | all recycled gives floor(100 x recycled); nothing recycled gives 0 |
| `Routes.EntriesFromCatalogPermutation` | EduWaste/EduWaste/server/storage.ts:200 | the in-place entry sort keeps every entry catalog-derived |
| `Routes.AcceptedAsWritten` | EduWaste/EduWaste/server/routes.ts:103-107 | the handler as written accepts a report exactly when its category is one of the ten names, whatever its count |
| `Routes.NegativeQuantityAccepted` | EduWaste/EduWaste/server/routes.ts:96-107 | as written, a report of -1 plastic bottles passes the handler's checks and records -25 g |
| `Routes.ZeroQuantityAccepted` | EduWaste/EduWaste/server/routes.ts:96-107 | as written, a segregated report of 0 plastic bottles for a class passes the handler's checks, records 0 g and earns the 3-point floor |
| `Routes.ReportWaste` | EduWaste/EduWaste/server/routes.ts:94-117 | a report is stored exactly when its category is one of the ten and its count is at least 1; the stored entry is appended and has the generated id, the category, the count, the catalog weight and carbon, the body's class (or null), location, segregation flag and reporter, and the clock's time; bin reports are untouched; a rejected report stores nothing; a segregated report naming a class awards calculateWastePoints and appends exactly one activity with that delta, the class, the reporter and the time; otherwise classes and activities are unchanged; both invariants kept |

## Left out

- User records: getUser, getUserByUsername, createUser and the `users` array play no part in scoring.
- The HTTP layer is not modelled: Express routing, status codes, JSON, and the error paths that answer 500. Of the handlers, only the report conversion (`Routes.ReportWaste`) and the green-points figure are modelled. All the insert-schema validation except the category check is left out.
- Activity description texts are kept as structured notes (quantity, category, points; or status and location), not formatted strings. This leaves out that `replace('_', ' ')` turns only the first underscore into a space.
- Floating point is not modelled. Weights are whole grams and footprints whole tenths of a gram. The decimal-string round trip of `toString`/`parseFloat` and the `decimal(10, 2)` columns are left out. A weight handed to createWasteEntry that is not a whole number of grams is outside the model.
- Scoring.PointMultiplier: a name that is not a table key gives 3. In the source, a name that is an inherited object property, such as "constructor", makes `|| 3` yield a function, so the multiplier is NaN. The store only passes the ten enum names, which the insert schema has already checked.
- `Math.sqrt` is exact; IEEE rounding of the square root and of the products is not modelled.
- Routes.GreenPoints: the floors are taken over exact reals. In the source they act on doubles, which can be off by one on ordinary inputs: with 0.29 kg recycled and nothing else, `Math.floor(0.29 * 100)` floors 28.999999999999996 to 28, where the model gives 29.
- Storage.MemStorage.CreateWasteEntry: requires a non-negative weight. In the source a negative weight gives `Math.sqrt` a negative argument, so the award is NaN, the class's points become NaN for good (`EduWaste/EduWaste/server/storage.ts:155`), and the logged activity records 0 (`points || 0`, `:292`). The model does not represent NaN. The route as written can send such a weight (see Findings); the modelled route rejects a count below 1, and for every count of 0 or more the computed weight is non-negative.
- Scoring.CalculateWastePoints: requires a non-negative weight, for the same NaN reason.
- Storage.MemStorage.CreateClass: requires that no activity already names the new id. nanoid makes such a collision practically impossible; without this requirement a reused id would inherit logged points.
- Storage.MemStorage.CreateActivity: called alone with a scoring activity, it does not keep the points invariant, so its contract claims the invariant only for an activity with no class or zero points.
- Storage.MemStorage.UpdateClassPoints: called alone, it does not keep the points invariant, so its contract claims nothing about it. The recording operations call it together with CreateActivity, and keep the invariant.
- Routes.ReportWaste: rejects a count below 1, the client form's rule (`EduWaste/EduWaste/client/src/components/janitor/waste-report-form.tsx:17-26`). The server as written does not check it (`EduWaste/EduWaste/shared/schema.ts:37` accepts any integer); Findings records the consequence, and `Routes.AcceptedAsWritten` models the server's own check.
- Routes.ReportWaste: a missing `properlySegregated` is not modelled. The insert schema would let it through as undefined, so no points would be awarded.
- Ids and time: nanoid's strings, wall-clock `Date` arithmetic, local midnight and daylight-saving shifts are parameters. async/await scheduling is modelled as sequential calls.
- Storage.MemStorage.CreateWasteEntry and Storage.MemStorage.CreateBinReport: the logged activity gets the same `now` as its entry or report. The source reads the clock a second time in createActivity, so its activity can be later. No proved property depends on the timestamps being equal.
- `localeCompare` is modelled as lexicographic order of character codes. Locale collation rules are not modelled.
- Shared references are not modelled. getClasses and the unfiltered getWasteEntries and getBinReports return the store's own arrays (`EduWaste/EduWaste/server/storage.ts:101`, `:200`, `:284`), and getClass and createClass return the stored class object, which updateClassPoints later changes in place (`:155`). The model returns values. No route can observe the difference, because each one serialises its result at once with `res.json`.
- JavaScript records are modelled as Dafny maps. The insertion order of their keys, and the conversion of grade keys to strings, are left out.

## Findings

| source | as written | input that shows it | evidently intended | confidence | as-written member | corrected member |
|---|---|---|---|---|---|---|
| EduWaste/EduWaste/server/routes.ts:99-107 | the handler multiplies the unit weight by whatever integer count the body carries, and the insert schema (EduWaste/EduWaste/shared/schema.ts:37) accepts any integer, so a negative count is stored with a negative weight; when the entry is segregated and names a class, `Math.sqrt` of a negative number makes the award NaN, which becomes the class's points for good while the activity logs 0 | `{wasteType: "plastic_bottles", quantity: -1, properlySegregated: true, classId: <a class>}`: weight -25 g | the server rejects a count below 1, as the client form does (EduWaste/EduWaste/client/src/components/janitor/waste-report-form.tsx:17-26) | not executed; high | `Routes.NegativeQuantityAccepted` | `Routes.ReportWaste` |
| EduWaste/EduWaste/server/routes.ts:99-107 | a count of 0 passes the same check; the entry records 0 g, and when it is segregated and names a class, calculateWastePoints still awards its 3-point floor (EduWaste/EduWaste/server/storage.ts:149) for an empty report | `{wasteType: "plastic_bottles", quantity: 0, properlySegregated: true, classId: <a class>}`: 0 g, 3 points | the server rejects a count below 1, as the client form does | not executed; high | `Routes.ZeroQuantityAccepted` | `Routes.ReportWaste` |
