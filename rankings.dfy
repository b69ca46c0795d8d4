/** The orderings the store applies to its arrays and the views built on
    them (EduWaste/EduWaste/server/storage.ts): getClasses (grade, then
    section), getClassLeaderboard (points, descending, with ranks),
    getRecentActivities and getWasteEntries/getBinReports (newest first). */
module Rankings {
  import opened Schema
  import opened Sorting

  /** Comparator `(a, b) => b.points - a.points`: higher points first. */
  predicate PointsAhead(a: Class, b: Class) {
    a.points > b.points
  }

  lemma PointsAheadConsistent()
    ensures StrictWeakOrder(PointsAhead)
  {
  }

  /** `a.localeCompare(b) < 0`, taken as the lexicographic order of character codes. */
  predicate StringBefore(a: string, b: string) {
    if a == [] then b != []
    else if b == [] then false
    else if a[0] != b[0] then a[0] < b[0]
    else StringBefore(a[1..], b[1..])
  }

  lemma {:induction false} StringBeforeAsymmetric(a: string, b: string)
    ensures StringBefore(a, b) ==> !StringBefore(b, a)
  {
    if a != [] && b != [] && a[0] == b[0] {
      StringBeforeAsymmetric(a[1..], b[1..]);
    }
  }

  lemma {:induction false} StringBeforeTotal(a: string, b: string)
    ensures a == b || StringBefore(a, b) || StringBefore(b, a)
  {
    if a != [] && b != [] && a[0] == b[0] {
      StringBeforeTotal(a[1..], b[1..]);
      if a[1..] == b[1..] {
        assert a == [a[0]] + a[1..] && b == [b[0]] + b[1..];
      }
    }
  }

  lemma {:induction false} StringBeforeTransitive(a: string, b: string, c: string)
    requires StringBefore(a, b) && StringBefore(b, c)
    ensures StringBefore(a, c)
  {
    if a != [] && a[0] == b[0] && b[0] == c[0] {
      StringBeforeTransitive(a[1..], b[1..], c[1..]);
    }
  }

  /** Comparator `(a, b) => a.grade - b.grade || a.section.localeCompare(b.section)`. */
  predicate GradeSectionAhead(a: Class, b: Class) {
    a.grade < b.grade || (a.grade == b.grade && StringBefore(a.section, b.section))
  }

  lemma GradeSectionAheadConsistent()
    ensures StrictWeakOrder(GradeSectionAhead)
  {
    forall a: Class, b: Class ensures GradeSectionAhead(a, b) ==> !GradeSectionAhead(b, a) {
      StringBeforeAsymmetric(a.section, b.section);
    }
    forall a: Class, b: Class, c: Class
      ensures !GradeSectionAhead(a, b) && !GradeSectionAhead(b, c) ==> !GradeSectionAhead(a, c)
    {
      StringBeforeTotal(a.section, b.section);
      StringBeforeTotal(b.section, c.section);
      StringBeforeAsymmetric(a.section, c.section);
      if StringBefore(c.section, b.section) && StringBefore(b.section, a.section) {
        StringBeforeTransitive(c.section, b.section, a.section);
      }
    }
  }

  /** Comparator `(a, b) => b.createdAt - a.createdAt` on each record kind: newest first. */
  predicate EntryNewer(a: WasteEntry, b: WasteEntry) {
    a.createdAt > b.createdAt
  }

  predicate ReportNewer(a: BinReport, b: BinReport) {
    a.createdAt > b.createdAt
  }

  predicate ActivityNewer(a: Activity, b: Activity) {
    a.createdAt > b.createdAt
  }

  lemma NewestFirstConsistent()
    ensures StrictWeakOrder(EntryNewer)
    ensures StrictWeakOrder(ReportNewer)
    ensures StrictWeakOrder(ActivityNewer)
  {
  }

  /** A leaderboard row: the class's fields and its rank. */
  datatype RankedClass = RankedClass(cls: Class, rank: int)

  /** `classes.map((cls, index) => ({...cls, rank: index + 1}))` */
  function Ranked(cs: seq<Class>): seq<RankedClass> {
    seq(|cs|, i requires 0 <= i < |cs| => RankedClass(cs[i], i + 1))
  }

  /** The classes of a leaderboard, in board order. */
  function BoardClasses(board: seq<RankedClass>): seq<Class> {
    seq(|board|, i requires 0 <= i < |board| => board[i].cls)
  }

  /** getClassLeaderboard on the class list `cs`. */
  function Leaderboard(cs: seq<Class>): seq<RankedClass> {
    Ranked(SortBy(cs, PointsAhead))
  }

  /** The leaderboard lists every class exactly once, by points from high
      to low, ranked 1..N without gaps; classes with equal points keep the
      order they had in the store. */
  lemma LeaderboardSpec(cs: seq<Class>)
    ensures |Leaderboard(cs)| == |cs|
    ensures multiset(BoardClasses(Leaderboard(cs))) == multiset(cs)
    ensures forall i :: 0 <= i < |cs| ==> Leaderboard(cs)[i].rank == i + 1
    ensures forall i, j :: 0 <= i < j < |cs| ==>
              Leaderboard(cs)[i].cls.points >= Leaderboard(cs)[j].cls.points
    ensures forall e :: TiedWith(BoardClasses(Leaderboard(cs)), e, PointsAhead) == TiedWith(cs, e, PointsAhead)
  {
    var sorted := SortBy(cs, PointsAhead);
    SortByPermutation(cs, PointsAhead);
    PointsAheadConsistent();
    SortBySorted(cs, PointsAhead);
    assert BoardClasses(Leaderboard(cs)) == sorted;
    forall e ensures TiedWith(sorted, e, PointsAhead) == TiedWith(cs, e, PointsAhead) {
      SortByStable(cs, e, PointsAhead);
    }
  }

  /** getClasses on the class list `cs`. */
  function ByGradeAndSection(cs: seq<Class>): seq<Class> {
    SortBy(cs, GradeSectionAhead)
  }

  /** getClasses returns every class once, by grade ascending and, within a
      grade, by section; classes equal in both keep their store order. */
  lemma ByGradeAndSectionSpec(cs: seq<Class>)
    ensures multiset(ByGradeAndSection(cs)) == multiset(cs)
    ensures forall i, j :: 0 <= i < j < |ByGradeAndSection(cs)| ==>
              var a, b := ByGradeAndSection(cs)[i], ByGradeAndSection(cs)[j];
              a.grade < b.grade || (a.grade == b.grade && !StringBefore(b.section, a.section))
    ensures forall e :: TiedWith(ByGradeAndSection(cs), e, GradeSectionAhead) == TiedWith(cs, e, GradeSectionAhead)
  {
    SortByPermutation(cs, GradeSectionAhead);
    GradeSectionAheadConsistent();
    SortBySorted(cs, GradeSectionAhead);
    forall e ensures TiedWith(ByGradeAndSection(cs), e, GradeSectionAhead) == TiedWith(cs, e, GradeSectionAhead) {
      SortByStable(cs, e, GradeSectionAhead);
    }
  }

  /** The end index of JavaScript's `slice(0, limit)` on a sequence of length n:
      a negative limit counts back from the end. */
  function SliceEnd(n: nat, limit: int): (k: nat)
    ensures k <= n
    ensures limit >= 0 ==> k == if limit < n then limit else n
    ensures limit < 0 ==> k == if n + limit > 0 then n + limit else 0
  {
    if limit < 0 then (if n + limit > 0 then n + limit else 0)
    else if limit < n then limit else n
  }

  const DefaultActivityLimit: int := 10

  /** getRecentActivities(limit) on the activity log `acts`. */
  function RecentActivities(acts: seq<Activity>, limit: int): seq<Activity> {
    var sorted := SortBy(acts, ActivityNewer);
    SortByPermutation(acts, ActivityNewer);
    sorted[..SliceEnd(|sorted|, limit)]
  }

  /** In a newest-first log, a prefix that holds an activity holds every
      copy of every activity newer than it. */
  lemma PrefixKeepsNewer(sorted: seq<Activity>, k: nat, a: Activity, b: Activity)
    requires SortedBy(sorted, ActivityNewer) && k <= |sorted|
    requires a in sorted[..k] && b.createdAt > a.createdAt
    ensures multiset(sorted[..k])[b] == multiset(sorted)[b]
  {
    var i :| 0 <= i < k && sorted[..k][i] == a;
    // every activity after the prefix is no newer than a, so none is b
    forall j | k <= j < |sorted| ensures sorted[j] != b {
      assert i < j;
      assert !ActivityNewer(sorted[j], sorted[i]);
    }
    assert b !in sorted[k..];
    assert sorted == sorted[..k] + sorted[k..];
  }

  /** A prefix of a sequence holds no more of any element than the sequence. */
  lemma PrefixMultiset<T>(s: seq<T>, k: nat)
    requires k <= |s|
    ensures multiset(s[..k]) <= multiset(s)
  {
    assert s == s[..k] + s[k..];
  }

  /** The feed holds min(limit, |acts|) activities for a non-negative limit,
      newest first, drawn from the log without repeats, none older than an
      activity it leaves out, and activities with the same timestamp in log
      order. */
  lemma RecentActivitiesSpec(acts: seq<Activity>, limit: int)
    ensures limit >= 0 ==> |RecentActivities(acts, limit)| == if limit < |acts| then limit else |acts|
    ensures forall i, j :: 0 <= i < j < |RecentActivities(acts, limit)| ==>
              RecentActivities(acts, limit)[i].createdAt >= RecentActivities(acts, limit)[j].createdAt
    ensures forall a :: a in RecentActivities(acts, limit) ==> a in acts
    ensures multiset(RecentActivities(acts, limit)) <= multiset(acts)
    ensures forall e :: TiedWith(RecentActivities(acts, limit), e, ActivityNewer) <= TiedWith(acts, e, ActivityNewer)
    ensures forall a, b :: a in RecentActivities(acts, limit) && b in acts && b.createdAt > a.createdAt
              ==> b in RecentActivities(acts, limit)
  {
    var sorted := SortBy(acts, ActivityNewer);
    SortByPermutation(acts, ActivityNewer);
    NewestFirstConsistent();
    SortBySorted(acts, ActivityNewer);
    var k := SliceEnd(|sorted|, limit);
    assert RecentActivities(acts, limit) == sorted[..k];
    PrefixMultiset(sorted, k);
    forall a | a in sorted[..k] ensures a in acts {
      assert a in multiset(sorted[..k]);
    }
    forall e ensures TiedWith(sorted[..k], e, ActivityNewer) <= TiedWith(acts, e, ActivityNewer) {
      TiedWithPrefix(sorted, k, e, ActivityNewer);
      SortByStable(acts, e, ActivityNewer);
    }
    forall a, b | a in sorted[..k] && b in acts && b.createdAt > a.createdAt ensures b in sorted[..k] {
      PrefixKeepsNewer(sorted, k, a, b);
      assert multiset(sorted[..k])[b] == multiset(acts)[b] > 0;
    }
  }

  /** The feed leaves out no copy of an activity newer than one it shows. */
  lemma RecentActivitiesKeepsCopies(acts: seq<Activity>, limit: int)
    ensures forall a: Activity, b: Activity :: a in RecentActivities(acts, limit) && b.createdAt > a.createdAt
              ==> multiset(RecentActivities(acts, limit))[b] == multiset(acts)[b]
  {
    var sorted := SortBy(acts, ActivityNewer);
    SortByPermutation(acts, ActivityNewer);
    NewestFirstConsistent();
    SortBySorted(acts, ActivityNewer);
    var k := SliceEnd(|sorted|, limit);
    assert RecentActivities(acts, limit) == sorted[..k];
    forall a: Activity, b: Activity | a in sorted[..k] && b.createdAt > a.createdAt
      ensures multiset(sorted[..k])[b] == multiset(acts)[b]
    {
      PrefixKeepsNewer(sorted, k, a, b);
    }
  }
}
