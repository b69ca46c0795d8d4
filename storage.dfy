/** The in-memory store of EduWaste/EduWaste/server/storage.ts (class
    MemStorage). Its arrays are `seq` fields that the methods reassign; the
    ids nanoid() would draw and the clock reading `new Date()` are
    parameters of the operations that create records. */
module Storage {
  import opened Wrappers
  import opened Schema
  import opened Sorting
  import opened Scoring
  import opened Ledger
  import opened Aggregates
  import opened Rankings

  /** The five classes the store starts with, all in grade 10. */
  const DefaultClasses: seq<InsertClass> := [
    InsertClass("X Fire", 10, "A", Red),
    InsertClass("X Water", 10, "B", Blue),
    InsertClass("X Air", 10, "C", Green),
    InsertClass("X Sky", 10, "D", Blue),
    InsertClass("X Light", 10, "E", Yellow)
  ]

  /** A stored class made from caller data: it starts at zero points. */
  function NewClass(id: string, data: InsertClass): (c: Class)
    ensures c.id == id && c.points == 0
    ensures c.name == data.name && c.grade == data.grade && c.section == data.section && c.house == data.house
  {
    Class(id, data.name, data.grade, data.section, data.house, 0)
  }

  /** The points a bin report deducts from the class it names. */
  function BinDeduction(status: BinStatus): (d: int)
    ensures d <= 0
    ensures d == 0 <==> status == Normal
    ensures status == Overflowing ==> d == -20
    ensures status == WrongUsage ==> d == -10
  {
    match status
    case Overflowing => -20
    case WrongUsage => -10
    case Normal => 0
  }

  class MemStorage {
    var classes: seq<Class>
    var wasteEntries: seq<WasteEntry>
    var binReports: seq<BinReport>
    var activities: seq<Activity>

    /** Class ids are distinct, every class's points are the sum of the
        points of the activities logged for it, and no two entries, reports
        or activities share an id. */
    ghost predicate Valid()
      reads this
    {
      && UniqueIds(classes) && ScoresMatch(classes, activities)
      && DistinctIds(wasteEntries, IdOfEntry)
      && DistinctIds(binReports, IdOfReport)
      && DistinctIds(activities, IdOfActivity)
    }

    /** `new MemStorage()`: initializeDefaultClasses with the five fresh ids `ids`. */
    constructor(ids: seq<string>)
      requires |ids| == |DefaultClasses|
      requires forall i, j :: 0 <= i < j < |ids| ==> ids[i] != ids[j]
      ensures |classes| == |DefaultClasses|
      ensures forall i :: 0 <= i < |classes| ==> classes[i] == NewClass(ids[i], DefaultClasses[i])
      ensures wasteEntries == [] && binReports == [] && activities == []
      ensures Valid()
    {
      classes := [];
      wasteEntries := [];
      binReports := [];
      activities := [];
      new;
      var i := 0;
      while i < |DefaultClasses|
        invariant 0 <= i <= |DefaultClasses|
        invariant |classes| == i
        invariant forall k :: 0 <= k < i ==> classes[k] == NewClass(ids[k], DefaultClasses[k])
        invariant wasteEntries == [] && binReports == [] && activities == []
        invariant Valid()
      {
        NewClassKeepsScores(classes, activities, NewClass(ids[i], DefaultClasses[i]));
        classes := classes + [NewClass(ids[i], DefaultClasses[i])];
        i := i + 1;
      }
    }

    /** getClasses: sorts the class array in place by grade, then section, and returns it. */
    method GetClasses() returns (r: seq<Class>)
      modifies this
      ensures classes == ByGradeAndSection(old(classes)) && r == classes
      ensures wasteEntries == old(wasteEntries) && binReports == old(binReports) && activities == old(activities)
      ensures old(Valid()) ==> Valid()
    {
      if Valid() {
        SortByPermutation(classes, GradeSectionAhead);
        ReorderKeepsScores(classes, activities, ByGradeAndSection(classes), activities);
      }
      classes := ByGradeAndSection(classes);
      r := classes;
    }

    /** getClass: the first class with that id, if any. */
    method GetClass(id: string) returns (r: Option<Class>)
      ensures r.Some? ==> FindClassIndex(classes, id).Some? && r.value == classes[FindClassIndex(classes, id).value]
      ensures r.Some? ==> r.value in classes && r.value.id == id
      ensures r.None? <==> forall j :: 0 <= j < |classes| ==> classes[j].id != id
    {
      r := FindClass(classes, Some(id));
    }

    /** createClass with the fresh id `id`: the new class starts at zero points. */
    method CreateClass(data: InsertClass, id: string) returns (c: Class)
      requires forall j :: 0 <= j < |classes| ==> classes[j].id != id
      requires forall i :: 0 <= i < |activities| ==> activities[i].classId != Some(id)
      modifies this
      ensures c == NewClass(id, data)
      ensures classes == old(classes) + [c]
      ensures wasteEntries == old(wasteEntries) && binReports == old(binReports) && activities == old(activities)
      ensures old(Valid()) ==> Valid()
    {
      c := NewClass(id, data);
      if Valid() {
        NewClassKeepsScores(classes, activities, c);
      }
      classes := classes + [c];
    }

    /** updateClassPoints: adds `points` to the first class with that id;
        an unknown id changes nothing. */
    method UpdateClassPoints(classId: string, points: int)
      modifies this
      ensures classes == AddPoints(old(classes), classId, points)
      ensures wasteEntries == old(wasteEntries) && binReports == old(binReports) && activities == old(activities)
    {
      classes := AddPoints(classes, classId, points);
    }

    /** createActivity with the fresh id `id` at time `now`; an absent or
        zero points value is stored as 0, an empty class or user id as null. */
    method CreateActivity(activity: InsertActivity, id: string, now: int) returns (a: Activity)
      requires forall i :: 0 <= i < |activities| ==> activities[i].id != id
      modifies this
      ensures a == Activity(id, activity.kind, activity.description, OrZero(activity.points),
                            OrNull(activity.classId), OrNull(activity.userId), now)
      ensures activities == old(activities) + [a]
      ensures classes == old(classes) && wasteEntries == old(wasteEntries) && binReports == old(binReports)
      ensures old(Valid()) && (a.classId.None? || a.points == 0) ==> Valid()
    {
      a := Activity(id, activity.kind, activity.description, OrZero(activity.points),
                    OrNull(activity.classId), OrNull(activity.userId), now);
      if Valid() && (a.classId.None? || a.points == 0) {
        UnscoredActivityKeepsScores(classes, activities, a);
        DistinctIdsSnoc(activities, a, IdOfActivity);
      }
      activities := activities + [a];
    }

    /** createWasteEntry with fresh ids for the entry and for the activity it
        may log, at time `now`. A properly segregated entry that names a class
        awards that class calculateWastePoints and logs the award. */
    method CreateWasteEntry(entry: InsertWasteEntry, entryId: string, activityId: string, now: int)
      returns (e: WasteEntry)
      requires entry.weight >= 0
      requires forall i :: 0 <= i < |wasteEntries| ==> wasteEntries[i].id != entryId
      requires forall i :: 0 <= i < |activities| ==> activities[i].id != activityId
      modifies this
      ensures e == WasteEntry(entryId, entry.wasteType, entry.quantity, entry.weight, entry.carbonFootprint,
                              OrNull(entry.classId), entry.location, entry.properlySegregated,
                              entry.reportedBy, now)
      ensures wasteEntries == old(wasteEntries) + [e] && binReports == old(binReports)
      ensures
        if entry.properlySegregated && OrNull(entry.classId).Some? then
          var p := CalculateWastePoints(WasteTypeName(entry.wasteType), entry.weight, entry.quantity);
          classes == AddPoints(old(classes), entry.classId.value, p) &&
          activities == old(activities) + [Activity(activityId, "waste_report",
                                                    SegregatedItems(entry.quantity, entry.wasteType, p), p,
                                                    entry.classId, OrNull(entry.reportedBy), now)]
        else
          classes == old(classes) && activities == old(activities)
      ensures old(Valid()) ==> Valid()
    {
      e := WasteEntry(entryId, entry.wasteType, entry.quantity, entry.weight, entry.carbonFootprint,
                      OrNull(entry.classId), entry.location, entry.properlySegregated, entry.reportedBy, now);
      if Valid() {
        DistinctIdsSnoc(wasteEntries, e, IdOfEntry);
      }
      wasteEntries := wasteEntries + [e];
      if entry.properlySegregated && OrNull(entry.classId).Some? {
        var classId := entry.classId.value;
        var p := CalculateWastePoints(WasteTypeName(entry.wasteType), entry.weight, entry.quantity);
        ghost var valid := Valid();
        ghost var cs, acts := classes, activities;
        UpdateClassPoints(classId, p);
        var a := CreateActivity(InsertActivity("waste_report", SegregatedItems(entry.quantity, entry.wasteType, p),
                                               Some(p), Some(classId), entry.reportedBy), activityId, now);
        if valid {
          AddPointsKeepsScores(cs, acts, a, classId);
          DistinctIdsSnoc(acts, a, IdOfActivity);
        }
      }
    }

    /** getWasteEntries: with both window ends, a newest-first copy of the
        entries inside the window (ends included); otherwise the entry array
        itself, sorted newest first in place. */
    method GetWasteEntries(start: Option<int>, end: Option<int>) returns (r: seq<WasteEntry>)
      modifies this
      ensures start.Some? && end.Some? ==>
                r == SortBy(EntriesBetween(old(wasteEntries), start.value, end.value), EntryNewer) &&
                wasteEntries == old(wasteEntries)
      ensures !(start.Some? && end.Some?) ==>
                wasteEntries == SortBy(old(wasteEntries), EntryNewer) && r == wasteEntries
      ensures classes == old(classes) && binReports == old(binReports) && activities == old(activities)
      ensures old(Valid()) ==> Valid()
    {
      if start.Some? && end.Some? {
        r := SortBy(EntriesBetween(wasteEntries, start.value, end.value), EntryNewer);
      } else {
        SortByPermutation(wasteEntries, EntryNewer);
        if Valid() {
          DistinctIdsPermutation(wasteEntries, SortBy(wasteEntries, EntryNewer), IdOfEntry);
        }
        wasteEntries := SortBy(wasteEntries, EntryNewer);
        r := wasteEntries;
      }
    }

    /** getWasteEntriesByClass: the entries naming `classId` (and, with both
        window ends, inside the window), sorted newest first with ties in
        store order; the store is not reordered. */
    method GetWasteEntriesByClass(classId: string, start: Option<int>, end: Option<int>) returns (r: seq<WasteEntry>)
      ensures r == SortBy(if start.Some? && end.Some?
                          then EntriesBetween(EntriesOfClass(wasteEntries, classId), start.value, end.value)
                          else EntriesOfClass(wasteEntries, classId), EntryNewer)
      ensures forall x :: multiset(r)[x] ==
                if x.classId == Some(classId) && (start.Some? && end.Some? ==> InWindow(x.createdAt, start.value, end.value))
                then multiset(wasteEntries)[x] else 0
      ensures forall i, j :: 0 <= i < j < |r| ==> r[i].createdAt >= r[j].createdAt
    {
      var entries := EntriesOfClass(wasteEntries, classId);
      if start.Some? && end.Some? {
        entries := EntriesBetween(entries, start.value, end.value);
      }
      r := SortBy(entries, EntryNewer);
      SortByPermutation(entries, EntryNewer);
      NewestFirstConsistent();
      SortBySorted(entries, EntryNewer);
    }

    /** getTodayWasteStats for the day [today, tomorrow] (both local
        midnights, ends included): weights and carbon in kilograms, rounded
        to the gram, and the weight per waste type present today. */
    method GetTodayWasteStats(today: int, tomorrow: int) returns (s: TodayStats)
      ensures var todays := EntriesBetween(wasteEntries, today, tomorrow);
        s.totalWaste == Kilograms(TotalWeight(todays) as real) &&
        s.recycled == Kilograms(RecycledWeight(todays) as real) &&
        s.carbonFootprint == Kilograms(Grams(TotalCarbon(todays))) &&
        (forall t :: t in s.wasteByType <==> HasType(todays, t)) &&
        (forall t :: t in s.wasteByType ==> s.wasteByType[t] == TypeTotal(todays, t, Weight))
      ensures TallySum(s.wasteByType, AllWasteTypes) == TotalWeight(EntriesBetween(wasteEntries, today, tomorrow))
    {
      var todays := EntriesBetween(wasteEntries, today, tomorrow);
      var sorted := SortBy(todays, EntryNewer);
      SortByPermutation(todays, EntryNewer);
      var byType := TallyBy(sorted, Weight, TypeKey);
      TallyPermutation(byType, sorted, todays, Weight, TypeKey);
      StatsPermutation(sorted, todays);
      TallyAccountsForTotal(byType, todays, Weight);
      var total, recycled, carbon := TotalWeight(sorted), RecycledWeight(sorted), TotalCarbon(sorted);
      assert total == TotalWeight(todays) && recycled == RecycledWeight(todays) && carbon == TotalCarbon(todays);
      s := TodayStats(Kilograms(total as real), Kilograms(recycled as real), Kilograms(Grams(carbon)), byType);
    }

    /** createBinReport with fresh ids for the report and the activity it may
        log, at time `now`. An overflowing or misused bin that names a class
        costs that class 20 or 10 points, and the deduction is logged. */
    method CreateBinReport(report: InsertBinReport, reportId: string, activityId: string, now: int)
      returns (b: BinReport)
      requires forall i :: 0 <= i < |binReports| ==> binReports[i].id != reportId
      requires forall i :: 0 <= i < |activities| ==> activities[i].id != activityId
      modifies this
      ensures b == BinReport(reportId, report.status, report.location, OrNull(report.description),
                             OrNull(report.classId), report.reportedBy, now)
      ensures binReports == old(binReports) + [b] && wasteEntries == old(wasteEntries)
      ensures
        if OrNull(report.classId).Some? && report.status != Normal then
          var d := BinDeduction(report.status);
          classes == AddPoints(old(classes), report.classId.value, d) &&
          activities == old(activities) + [Activity(activityId, "bin_status",
                                                    BinReported(report.status, report.location), d,
                                                    report.classId, OrNull(Some(report.reportedBy)), now)]
        else
          classes == old(classes) && activities == old(activities)
      ensures old(Valid()) ==> Valid()
    {
      b := BinReport(reportId, report.status, report.location, OrNull(report.description),
                     OrNull(report.classId), report.reportedBy, now);
      if Valid() {
        DistinctIdsSnoc(binReports, b, IdOfReport);
      }
      binReports := binReports + [b];
      if OrNull(report.classId).Some? && (report.status == Overflowing || report.status == WrongUsage) {
        var classId := report.classId.value;
        var d := if report.status == Overflowing then -20 else -10;
        ghost var valid := Valid();
        ghost var cs, acts := classes, activities;
        UpdateClassPoints(classId, d);
        var a := CreateActivity(InsertActivity("bin_status", BinReported(report.status, report.location),
                                               Some(d), Some(classId), Some(report.reportedBy)), activityId, now);
        if valid {
          AddPointsKeepsScores(cs, acts, a, classId);
          DistinctIdsSnoc(acts, a, IdOfActivity);
        }
      }
    }

    /** getBinReports: like getWasteEntries, for bin reports. */
    method GetBinReports(start: Option<int>, end: Option<int>) returns (r: seq<BinReport>)
      modifies this
      ensures start.Some? && end.Some? ==>
                r == SortBy(ReportsBetween(old(binReports), start.value, end.value), ReportNewer) &&
                binReports == old(binReports)
      ensures !(start.Some? && end.Some?) ==>
                binReports == SortBy(old(binReports), ReportNewer) && r == binReports
      ensures classes == old(classes) && wasteEntries == old(wasteEntries) && activities == old(activities)
      ensures old(Valid()) ==> Valid()
    {
      if start.Some? && end.Some? {
        r := SortBy(ReportsBetween(binReports, start.value, end.value), ReportNewer);
      } else {
        SortByPermutation(binReports, ReportNewer);
        if Valid() {
          DistinctIdsPermutation(binReports, SortBy(binReports, ReportNewer), IdOfReport);
        }
        binReports := SortBy(binReports, ReportNewer);
        r := binReports;
      }
    }

    /** getRecentActivities(limit = 10): sorts the log newest first in place
        and returns its first `limit` activities. */
    method GetRecentActivities(limit: Option<int>) returns (r: seq<Activity>)
      modifies this
      ensures activities == SortBy(old(activities), ActivityNewer)
      ensures r == RecentActivities(old(activities), if limit.Some? then limit.value else DefaultActivityLimit)
      ensures classes == old(classes) && wasteEntries == old(wasteEntries) && binReports == old(binReports)
      ensures old(Valid()) ==> Valid()
    {
      var n := if limit.Some? then limit.value else DefaultActivityLimit;
      if Valid() {
        SortByPermutation(activities, ActivityNewer);
        ReorderKeepsScores(classes, activities, classes, SortBy(activities, ActivityNewer));
        DistinctIdsPermutation(activities, SortBy(activities, ActivityNewer), IdOfActivity);
      }
      ghost var before := activities;
      activities := SortBy(activities, ActivityNewer);
      SortByPermutation(before, ActivityNewer);
      r := activities[..SliceEnd(|activities|, n)];
    }

    /** getClassLeaderboard: sorts the class array in place by points, high
        to low, and ranks it from 1. */
    method GetClassLeaderboard() returns (board: seq<RankedClass>)
      modifies this
      ensures classes == SortBy(old(classes), PointsAhead)
      ensures board == Leaderboard(old(classes))
      ensures wasteEntries == old(wasteEntries) && binReports == old(binReports) && activities == old(activities)
      ensures old(Valid()) ==> Valid()
    {
      if Valid() {
        SortByPermutation(classes, PointsAhead);
        ReorderKeepsScores(classes, activities, SortBy(classes, PointsAhead), activities);
      }
      classes := SortBy(classes, PointsAhead);
      board := Ranked(classes);
    }

    /** getWasteTrendsByGrade: the weight of the entries per grade of the
        class they name; entries naming no stored class are skipped. */
    method GetWasteTrendsByGrade() returns (r: map<int, int>)
      ensures forall g :: g in r <==> HasKey(wasteEntries, GradeKey(classes), g)
      ensures forall g :: g in r ==> r[g] == GradeTotal(wasteEntries, classes, g)
    {
      r := TallyBy(wasteEntries, Weight, GradeKey(classes));
    }

    /** getCarbonFootprintByWasteType: the carbon footprint (tenths of a
        gram) per waste type present in the store. */
    method GetCarbonFootprintByWasteType() returns (r: map<WasteType, int>)
      ensures forall t :: t in r <==> HasType(wasteEntries, t)
      ensures forall t :: t in r ==> r[t] == TypeTotal(wasteEntries, t, Carbon)
      ensures TallySum(r, AllWasteTypes) == SumWhere(wasteEntries, Carbon, Everything)
    {
      r := TallyByType(wasteEntries, Carbon);
    }
  }
}
