/** The arithmetic the store's reports are built from
    (EduWaste/EduWaste/server/storage.ts): the date-window filter of
    getWasteEntries, the sums of getTodayWasteStats, the per-type tally of
    getTodayWasteStats and getCarbonFootprintByWasteType, and the rounding
    to kilograms. */
module Aggregates {
  import opened Wrappers
  import opened Schema
  import opened Ledger
  import opened Scoring

  /** `array.filter(keep)`. */
  function Filter<T(!new)>(s: seq<T>, keep: T -> bool): (r: seq<T>)
    ensures |r| <= |s|
    ensures forall x :: multiset(r)[x] == if keep(x) then multiset(s)[x] else 0
    ensures forall i :: 0 <= i < |r| ==> keep(r[i])
  {
    if s == [] then []
    else
      var s', x := s[..|s| - 1], s[|s| - 1];
      assert s == s' + [x];
      var r' := Filter(s', keep);
      if keep(x) then
        assert multiset(s) == multiset(s') + multiset{x};
        r' + [x]
      else
        r'
  }

  /** The window test of getWasteEntries and getBinReports: both ends included. */
  predicate InWindow(at: int, start: int, end: int) {
    start <= at && at <= end
  }

  /** The waste entries created within [start, end], in store order. */
  function EntriesBetween(es: seq<WasteEntry>, start: int, end: int): seq<WasteEntry> {
    Filter(es, (e: WasteEntry) => InWindow(e.createdAt, start, end))
  }

  /** The bin reports created within [start, end], in store order. */
  function ReportsBetween(rs: seq<BinReport>, start: int, end: int): seq<BinReport> {
    Filter(rs, (r: BinReport) => InWindow(r.createdAt, start, end))
  }

  /** The waste entries that name class `classId`, in store order. */
  function EntriesOfClass(es: seq<WasteEntry>, classId: string): seq<WasteEntry> {
    Filter(es, (e: WasteEntry) => e.classId == Some(classId))
  }

  /** Which stored quantity of an entry a sum adds up. */
  datatype Measure = Weight | Carbon

  function Amount(e: WasteEntry, m: Measure): int {
    match m
    case Weight => e.weight
    case Carbon => e.carbonFootprint
  }

  /** The sum of measure `m` over the entries that satisfy `keep`. */
  function SumWhere(es: seq<WasteEntry>, m: Measure, keep: WasteEntry -> bool): int {
    if es == [] then 0
    else SumWhere(es[..|es| - 1], m, keep) + (if keep(es[|es| - 1]) then Amount(es[|es| - 1], m) else 0)
  }

  predicate Everything(e: WasteEntry) {
    true
  }

  predicate Segregated(e: WasteEntry) {
    e.properlySegregated
  }

  /** Entries whose key is `k`. */
  function KeyIs<K(==)>(key: WasteEntry -> Option<K>, k: K): WasteEntry -> bool {
    (e: WasteEntry) => key(e) == Some(k)
  }

  /** Some entry of `es` has key `k`. */
  predicate HasKey<K(==)>(es: seq<WasteEntry>, key: WasteEntry -> Option<K>, k: K) {
    exists i :: 0 <= i < |es| && key(es[i]) == Some(k)
  }

  /** An entry's waste type, the key of the per-type tallies. */
  function TypeKey(e: WasteEntry): Option<WasteType> {
    Some(e.wasteType)
  }

  /** The grade of the class an entry names, the key of getWasteTrendsByGrade:
      `classes.find(cls => cls.id === entry.classId)`; an entry with no
      class, or naming no stored class, has no key. */
  function GradeKey(cs: seq<Class>): WasteEntry -> Option<int> {
    (e: WasteEntry) =>
      match FindClass(cs, e.classId)
      case None => None
      case Some(c) => Some(c.grade)
  }

  function OfType(t: WasteType): WasteEntry -> bool {
    KeyIs(TypeKey, t)
  }

  /** Entries of type `t` occur in `es`. */
  predicate HasType(es: seq<WasteEntry>, t: WasteType) {
    HasKey(es, TypeKey, t)
  }

  /** The total of measure `m` over the entries of type `t`. */
  function TypeTotal(es: seq<WasteEntry>, t: WasteType, m: Measure): int {
    SumWhere(es, m, OfType(t))
  }

  /** The weight of the entries whose class is in grade `g`. */
  function GradeTotal(es: seq<WasteEntry>, cs: seq<Class>, g: int): int {
    SumWhere(es, Weight, KeyIs(GradeKey(cs), g))
  }

  lemma SumWhereSnoc(es: seq<WasteEntry>, e: WasteEntry, m: Measure, keep: WasteEntry -> bool)
    ensures SumWhere(es + [e], m, keep) == SumWhere(es, m, keep) + (if keep(e) then Amount(e, m) else 0)
  {
    assert (es + [e])[..|es|] == es;
  }

  lemma {:induction false} SumWhereAppend(u: seq<WasteEntry>, v: seq<WasteEntry>, m: Measure, keep: WasteEntry -> bool)
    ensures SumWhere(u + v, m, keep) == SumWhere(u, m, keep) + SumWhere(v, m, keep)
    decreases |v|
  {
    if v == [] {
      assert u + v == u;
    } else {
      var v', x := v[..|v| - 1], v[|v| - 1];
      assert v == v' + [x];
      assert u + v == (u + v') + [x];
      SumWhereAppend(u, v', m, keep);
      SumWhereSnoc(u + v', x, m, keep);
      SumWhereSnoc(v', x, m, keep);
    }
  }

  /** Removing the entry at position k takes exactly one copy of it out. */
  lemma MultisetRemoveAt(b: seq<WasteEntry>, k: nat)
    requires k < |b|
    ensures multiset(b[..k] + b[k + 1..]) == multiset(b) - multiset{b[k]}
  {
    assert b == b[..k] + [b[k]] + b[k + 1..];
  }

  /** Removing the entry at position k takes its amount out of the sum. */
  lemma SumWhereRemoveAt(b: seq<WasteEntry>, k: nat, m: Measure, keep: WasteEntry -> bool)
    requires k < |b|
    ensures SumWhere(b, m, keep) == SumWhere(b[..k] + b[k + 1..], m, keep) + (if keep(b[k]) then Amount(b[k], m) else 0)
  {
    assert b == b[..k] + [b[k]] + b[k + 1..];
    SumWhereAppend(b[..k] + [b[k]], b[k + 1..], m, keep);
    SumWhereAppend(b[..k], b[k + 1..], m, keep);
    SumWhereSnoc(b[..k], b[k], m, keep);
  }

  /** A sum does not depend on the order of the entries. */
  lemma {:induction false} SumWherePermutation(a: seq<WasteEntry>, b: seq<WasteEntry>, m: Measure, keep: WasteEntry -> bool)
    requires multiset(a) == multiset(b)
    ensures SumWhere(a, m, keep) == SumWhere(b, m, keep)
    decreases |a|
  {
    if a == [] {
      assert |multiset(b)| == 0;
    } else {
      var a', x := a[..|a| - 1], a[|a| - 1];
      assert a == a' + [x];
      assert x in multiset(b);
      var k :| 0 <= k < |b| && b[k] == x;
      MultisetRemoveAt(b, k);
      assert multiset(a') == multiset(a) - multiset{x};
      SumWherePermutation(a', b[..k] + b[k + 1..], m, keep);
      SumWhereSnoc(a', x, m, keep);
      SumWhereRemoveAt(b, k, m, keep);
    }
  }

  /** Whether a key occurs does not depend on the order of the entries. */
  lemma HasKeyPermutation<K>(a: seq<WasteEntry>, b: seq<WasteEntry>, key: WasteEntry -> Option<K>, k: K)
    requires multiset(a) == multiset(b)
    ensures HasKey(a, key, k) <==> HasKey(b, key, k)
  {
    if HasKey(a, key, k) {
      var i :| 0 <= i < |a| && key(a[i]) == Some(k);
      assert a[i] in multiset(b);
      var j :| 0 <= j < |b| && b[j] == a[i];
    }
    if HasKey(b, key, k) {
      var j :| 0 <= j < |b| && key(b[j]) == Some(k);
      assert b[j] in multiset(a);
      var i :| 0 <= i < |a| && a[i] == b[j];
    }
  }

  /** With non-negative amounts, summing over fewer entries gives no more:
      in particular the recycled weight never exceeds the total weight. */
  lemma {:induction false} SumWhereMonotone(es: seq<WasteEntry>, m: Measure, k1: WasteEntry -> bool, k2: WasteEntry -> bool)
    requires forall i :: 0 <= i < |es| ==> Amount(es[i], m) >= 0
    requires forall i :: 0 <= i < |es| ==> k1(es[i]) ==> k2(es[i])
    ensures 0 <= SumWhere(es, m, k1) <= SumWhere(es, m, k2)
  {
    if es != [] {
      SumWhereMonotone(es[..|es| - 1], m, k1, k2);
    }
  }

  /** Summing with two tests that agree on every entry gives the same total:
      when every entry is segregated, the recycled weight is the total weight. */
  lemma {:induction false} SumWhereAgree(es: seq<WasteEntry>, m: Measure, k1: WasteEntry -> bool, k2: WasteEntry -> bool)
    requires forall i :: 0 <= i < |es| ==> k1(es[i]) == k2(es[i])
    ensures SumWhere(es, m, k1) == SumWhere(es, m, k2)
  {
    if es != [] {
      SumWhereAgree(es[..|es| - 1], m, k1, k2);
    }
  }

  /** A key that does not occur contributes nothing. */
  lemma {:induction false} KeyAbsent<K>(es: seq<WasteEntry>, m: Measure, key: WasteEntry -> Option<K>, k: K)
    requires !HasKey(es, key, k)
    ensures SumWhere(es, m, KeyIs(key, k)) == 0
  {
    if es != [] {
      var es' := es[..|es| - 1];
      assert !HasKey(es', key, k) by {
        forall i | 0 <= i < |es'| ensures key(es'[i]) != Some(k) {
          assert es'[i] == es[i];
        }
      }
      KeyAbsent(es', m, key, k);
    }
  }

  /** The sum, over the types in `ts`, of each type's total. */
  function SumTypes(es: seq<WasteEntry>, ts: seq<WasteType>, m: Measure): int {
    if ts == [] then 0 else TypeTotal(es, ts[0], m) + SumTypes(es, ts[1..], m)
  }

  lemma {:induction false} SumTypesEmpty(ts: seq<WasteType>, m: Measure)
    ensures SumTypes([], ts, m) == 0
  {
    if ts != [] {
      SumTypesEmpty(ts[1..], m);
    }
  }

  lemma {:induction false} SumTypesSnoc(es: seq<WasteEntry>, e: WasteEntry, ts: seq<WasteType>, m: Measure)
    requires forall i, j :: 0 <= i < j < |ts| ==> ts[i] != ts[j]
    ensures SumTypes(es + [e], ts, m) == SumTypes(es, ts, m) + (if e.wasteType in ts then Amount(e, m) else 0)
  {
    if ts != [] {
      SumWhereSnoc(es, e, m, OfType(ts[0]));
      assert OfType(ts[0])(e) <==> e.wasteType == ts[0] by {
        assert OfType(ts[0]) == KeyIs(TypeKey, ts[0]);
        assert KeyIs(TypeKey, ts[0])(e) == (TypeKey(e) == Some(ts[0]));
      }
      SumTypesSnoc(es, e, ts[1..], m);
      if e.wasteType == ts[0] {
        assert e.wasteType !in ts[1..] by {
          forall j | 0 <= j < |ts[1..]| ensures ts[1..][j] != ts[0] {
            assert ts[1..][j] == ts[j + 1];
          }
        }
      } else {
        assert e.wasteType in ts <==> e.wasteType in ts[1..] by {
          assert ts == [ts[0]] + ts[1..];
        }
      }
    }
  }

  lemma AllWasteTypesDistinct()
    ensures forall i, j :: 0 <= i < j < |AllWasteTypes| ==> AllWasteTypes[i] != AllWasteTypes[j]
  {
  }

  /** The per-type totals add up to the overall total: every entry has
      exactly one of the ten types. */
  lemma {:induction false} TypeTotalsSum(es: seq<WasteEntry>, m: Measure)
    ensures SumTypes(es, AllWasteTypes, m) == SumWhere(es, m, Everything)
    decreases |es|
  {
    if es == [] {
      SumTypesEmpty(AllWasteTypes, m);
    } else {
      var es', x := es[..|es| - 1], es[|es| - 1];
      assert es == es' + [x];
      TypeTotalsSum(es', m);
      WasteTypeListed(x.wasteType);
      AllWasteTypesDistinct();
      SumTypesSnoc(es', x, AllWasteTypes, m);
      SumWhereSnoc(es', x, m, Everything);
    }
  }

  /** The sum of a tally's values over the types in `ts`, absent keys counting zero. */
  function TallySum(r: map<WasteType, int>, ts: seq<WasteType>): int {
    if ts == [] then 0 else (if ts[0] in r then r[ts[0]] else 0) + TallySum(r, ts[1..])
  }

  /** A tally holding exactly the keys that occur, each with its total. */
  ghost predicate IsTally<K(!new)>(r: map<K, int>, es: seq<WasteEntry>, m: Measure, key: WasteEntry -> Option<K>) {
    (forall k :: k in r <==> HasKey(es, key, k)) &&
    (forall k :: k in r ==> r[k] == SumWhere(es, m, KeyIs(key, k)))
  }

  /** The values of a per-type tally add up to the overall total. */
  lemma {:induction false} TallySumIsTotal(r: map<WasteType, int>, es: seq<WasteEntry>, m: Measure, ts: seq<WasteType>)
    requires IsTally(r, es, m, TypeKey)
    ensures TallySum(r, ts) == SumTypes(es, ts, m)
  {
    if ts != [] {
      TallySumIsTotal(r, es, m, ts[1..]);
      if ts[0] !in r {
        KeyAbsent(es, m, TypeKey, ts[0]);
      }
    }
  }

  /** How one more entry changes a grade's trend: it adds its weight to the
      grade of the class it names, and an entry whose class does not
      resolve changes no grade. */
  lemma GradeTotalSnoc(es: seq<WasteEntry>, cs: seq<Class>, e: WasteEntry, g: int)
    ensures GradeTotal(es + [e], cs, g)
            == GradeTotal(es, cs, g) + (match FindClass(cs, e.classId)
                                        case Some(c) => if c.grade == g then e.weight else 0
                                        case None => 0)
    ensures FindClass(cs, e.classId).None? ==>
              (HasKey(es + [e], GradeKey(cs), g) <==> HasKey(es, GradeKey(cs), g))
  {
    SumWhereSnoc(es, e, Weight, KeyIs(GradeKey(cs), g));
    if FindClass(cs, e.classId).None? && HasKey(es + [e], GradeKey(cs), g) {
      var i :| 0 <= i < |es + [e]| && GradeKey(cs)((es + [e])[i]) == Some(g);
      assert i < |es| && es[i] == (es + [e])[i];
    }
    if HasKey(es, GradeKey(cs), g) {
      var i :| 0 <= i < |es| && GradeKey(cs)(es[i]) == Some(g);
      assert (es + [e])[i] == es[i];
    }
  }

  /** With non-negative weights, no grade's trend exceeds the total weight. */
  lemma GradeTotalWithinTotal(es: seq<WasteEntry>, cs: seq<Class>, g: int)
    requires forall i :: 0 <= i < |es| ==> es[i].weight >= 0
    ensures 0 <= GradeTotal(es, cs, g) <= TotalWeight(es)
  {
    SumWhereMonotone(es, Weight, KeyIs(GradeKey(cs), g), Everything);
  }

  /** A tally of `a` is a tally of any reordering of `a`. */
  lemma TallyPermutation<K(!new)>(r: map<K, int>, a: seq<WasteEntry>, b: seq<WasteEntry>, m: Measure, key: WasteEntry -> Option<K>)
    requires multiset(a) == multiset(b)
    requires IsTally(r, a, m, key)
    ensures forall k :: k in r <==> HasKey(b, key, k)
    ensures forall k :: k in r ==> r[k] == SumWhere(b, m, KeyIs(key, k))
  {
    forall k ensures HasKey(a, key, k) <==> HasKey(b, key, k) {
      HasKeyPermutation(a, b, key, k);
    }
    forall k | k in r ensures r[k] == SumWhere(b, m, KeyIs(key, k)) {
      SumWherePermutation(a, b, m, KeyIs(key, k));
    }
  }

  /** The weights of a per-type tally of `es` add up to its total weight:
      the dashboard's `wasteByType` accounts for all of `totalWaste`. */
  lemma TallyAccountsForTotal(r: map<WasteType, int>, es: seq<WasteEntry>, m: Measure)
    requires forall t :: t in r <==> HasType(es, t)
    requires forall t :: t in r ==> r[t] == TypeTotal(es, t, m)
    ensures TallySum(r, AllWasteTypes) == SumWhere(es, m, Everything)
  {
    TallySumIsTotal(r, es, m, AllWasteTypes);
    TypeTotalsSum(es, m);
  }

  /** Adding one entry to the tallied entries: its key, if any, gains its amount. */
  lemma TallyStep<K(!new)>(r: map<K, int>, s: seq<WasteEntry>, e: WasteEntry, m: Measure, key: WasteEntry -> Option<K>)
    requires IsTally(r, s, m, key)
    ensures key(e).None? ==> IsTally(r, s + [e], m, key)
    ensures key(e).Some? ==>
              var k := key(e).value;
              IsTally(r[k := (if k in r then r[k] else 0) + Amount(e, m)], s + [e], m, key)
  {
    forall k ensures SumWhere(s + [e], m, KeyIs(key, k)) == SumWhere(s, m, KeyIs(key, k)) + (if key(e) == Some(k) then Amount(e, m) else 0) {
      SumWhereSnoc(s, e, m, KeyIs(key, k));
    }
    forall k ensures HasKey(s + [e], key, k) <==> HasKey(s, key, k) || key(e) == Some(k) {
      if HasKey(s + [e], key, k) && key(e) != Some(k) {
        var j :| 0 <= j < |s| + 1 && key((s + [e])[j]) == Some(k);
        assert s[j] == (s + [e])[j];
      }
      if HasKey(s, key, k) {
        var j :| 0 <= j < |s| && key(s[j]) == Some(k);
        assert (s + [e])[j] == s[j];
      }
      if key(e) == Some(k) {
        assert (s + [e])[|s|] == e;
      }
    }
    if key(e).Some? && key(e).value !in r {
      KeyAbsent(s, m, key, key(e).value);
    }
  }

  /** The `forEach` loops of getTodayWasteStats, getWasteTrendsByGrade and
      getCarbonFootprintByWasteType: for each entry in turn that has a key,
      `r[key] = (r[key] || 0) + amount`. */
  method TallyBy<K(==,!new)>(es: seq<WasteEntry>, m: Measure, key: WasteEntry -> Option<K>) returns (r: map<K, int>)
    ensures forall k :: k in r <==> HasKey(es, key, k)
    ensures forall k :: k in r ==> r[k] == SumWhere(es, m, KeyIs(key, k))
  {
    r := map[];
    var i := 0;
    while i < |es|
      invariant 0 <= i <= |es|
      invariant IsTally(r, es[..i], m, key)
    {
      var e := es[i];
      assert es[..i + 1] == es[..i] + [e];
      TallyStep(r, es[..i], e, m, key);
      match key(e) {
        case None =>
        case Some(k) =>
          var prior := if k in r then r[k] else 0;
          r := r[k := prior + Amount(e, m)];
      }
      i := i + 1;
    }
    assert es[..i] == es;
  }

  /** Tallying by waste type: the keys are the types present, each with its
      total, and the values add up to the overall total. */
  method TallyByType(es: seq<WasteEntry>, m: Measure) returns (r: map<WasteType, int>)
    ensures forall t :: t in r <==> HasType(es, t)
    ensures forall t :: t in r ==> r[t] == TypeTotal(es, t, m)
    ensures TallySum(r, AllWasteTypes) == SumWhere(es, m, Everything)
  {
    r := TallyBy(es, m, TypeKey);
    TallyAccountsForTotal(r, es, m);
  }

  /** Reordering the entries changes none of the figures of the daily statistics. */
  lemma StatsPermutation(a: seq<WasteEntry>, b: seq<WasteEntry>)
    requires multiset(a) == multiset(b)
    ensures TotalWeight(a) == TotalWeight(b) && RecycledWeight(a) == RecycledWeight(b)
    ensures TotalCarbon(a) == TotalCarbon(b)
  {
    SumWherePermutation(a, b, Weight, Everything);
    SumWherePermutation(a, b, Weight, Segregated);
    SumWherePermutation(a, b, Carbon, Everything);
  }

  /** `Math.round(grams) / 1000`: grams reported as kilograms to three places. */
  function Kilograms(grams: real): real {
    RoundHalfUp(grams) as real / 1000.0
  }

  /** A whole number of grams reports exactly; any amount reports within half a gram. */
  lemma KilogramsExact(grams: real)
    ensures Kilograms(grams) * 1000.0 == RoundHalfUp(grams) as real
    ensures grams - 0.5 < Kilograms(grams) * 1000.0 <= grams + 0.5
    ensures grams == grams.Floor as real ==> Kilograms(grams) * 1000.0 == grams
  {
    RoundHalfUpOfInteger(grams.Floor);
  }

  lemma KilogramsMonotone(a: real, b: real)
    requires a <= b
    ensures Kilograms(a) <= Kilograms(b)
  {
    var ra, rb := RoundHalfUp(a), RoundHalfUp(b);
    assert ra as real < rb as real + 1.0;
    assert ra <= rb;
    assert ra as real / 1000.0 <= rb as real / 1000.0;
  }

  /** A carbon footprint in tenths of a gram, as grams. */
  function Grams(decigrams: int): real {
    decigrams as real / 10.0
  }

  /** The dashboard's figures for today. Weights are kilograms; the carbon
      footprint is kilograms of CO2. */
  datatype TodayStats = TodayStats(
    totalWaste: real,
    recycled: real,
    carbonFootprint: real,
    wasteByType: map<WasteType, int>)

  function TotalWeight(es: seq<WasteEntry>): int {
    SumWhere(es, Weight, Everything)
  }

  function RecycledWeight(es: seq<WasteEntry>): int {
    SumWhere(es, Weight, Segregated)
  }

  /** Total carbon footprint, in tenths of a gram. */
  function TotalCarbon(es: seq<WasteEntry>): int {
    SumWhere(es, Carbon, Everything)
  }

  /** With non-negative weights the unrecycled weight is never negative, and
      it is zero exactly when every unsegregated entry weighs nothing. */
  lemma {:induction false} UnrecycledGap(es: seq<WasteEntry>)
    requires forall i :: 0 <= i < |es| ==> es[i].weight >= 0
    ensures TotalWeight(es) - RecycledWeight(es) >= 0
    ensures TotalWeight(es) == RecycledWeight(es)
            <==> forall i :: 0 <= i < |es| ==> es[i].properlySegregated || es[i].weight == 0
  {
    if es != [] {
      var es', x := es[..|es| - 1], es[|es| - 1];
      UnrecycledGap(es');
      assert TotalWeight(es) - RecycledWeight(es)
             == TotalWeight(es') - RecycledWeight(es') + (if x.properlySegregated then 0 else x.weight);
      assert forall i :: 0 <= i < |es'| ==> es'[i] == es[i];
    }
  }

  /** The recycled weight lies between zero and the total weight, and equals
      the total exactly when every entry of non-zero weight was segregated. */
  lemma RecycledWithinTotal(es: seq<WasteEntry>)
    requires forall i :: 0 <= i < |es| ==> es[i].weight >= 0
    ensures 0 <= RecycledWeight(es) <= TotalWeight(es)
    ensures Kilograms(RecycledWeight(es) as real) <= Kilograms(TotalWeight(es) as real)
    ensures RecycledWeight(es) == TotalWeight(es)
            <==> forall i :: 0 <= i < |es| ==> es[i].properlySegregated || es[i].weight == 0
  {
    SumWhereMonotone(es, Weight, Segregated, Everything);
    KilogramsMonotone(RecycledWeight(es) as real, TotalWeight(es) as real);
    UnrecycledGap(es);
  }
}
