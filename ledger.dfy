/** The scoring ledger of MemStorage (EduWaste/EduWaste/server/storage.ts):
    finding a class by id, applying a point delta to it, and the invariant
    that ties every class's running total to the activity log. */
module Ledger {
  import opened Wrappers
  import opened Schema

  /** `classes.findIndex(cls => cls.id === id)`: the first position holding that id. */
  function FindClassIndex(cs: seq<Class>, id: string): (r: Option<nat>)
    ensures r.Some? ==> r.value < |cs| && cs[r.value].id == id
    ensures r.Some? ==> forall j :: 0 <= j < r.value ==> cs[j].id != id
    ensures r.None? ==> forall j :: 0 <= j < |cs| ==> cs[j].id != id
  {
    if cs == [] then None
    else if cs[0].id == id then Some(0)
    else match FindClassIndex(cs[1..], id)
      case None => None
      case Some(i) => Some(i + 1)
  }

  /** `classes.find(cls => cls.id === id)`: the first class with that id; a
      missing (null) id matches nothing. */
  function FindClass(cs: seq<Class>, id: Option<string>): (r: Option<Class>)
    ensures r.Some? ==> r.value in cs && id == Some(r.value.id)
    ensures r.Some? ==> FindClassIndex(cs, id.value).Some? && r.value == cs[FindClassIndex(cs, id.value).value]
    ensures r.None? ==> forall j :: 0 <= j < |cs| ==> id != Some(cs[j].id)
  {
    match id
    case None => None
    case Some(k) =>
      match FindClassIndex(cs, k)
      case None => None
      case Some(i) => Some(cs[i])
  }

  /** The class list after `updateClassPoints(id, delta)`, position by
      position: the first class with that id gains `delta` and every other
      class stays as it was, so ids never change and an unknown id is a no-op. */
  function AddPoints(cs: seq<Class>, id: string, delta: int): (r: seq<Class>)
    ensures |r| == |cs|
    ensures forall j :: 0 <= j < |cs| ==>
              r[j] == if FindClassIndex(cs, id) == Some(j) then cs[j].(points := cs[j].points + delta) else cs[j]
    ensures forall j :: 0 <= j < |cs| ==> r[j].id == cs[j].id
    ensures (forall k :: 0 <= k < |cs| ==> cs[k].id != id) ==> r == cs
  {
    match FindClassIndex(cs, id)
    case None => cs
    case Some(i) => cs[i := cs[i].(points := cs[i].points + delta)]
  }

  /** Sum of the points of the activities that reference class `id`. */
  function ActivityPoints(acts: seq<Activity>, id: string): int {
    if acts == [] then 0
    else ActivityPoints(acts[..|acts| - 1], id)
         + (if acts[|acts| - 1].classId == Some(id) then acts[|acts| - 1].points else 0)
  }

  /** No two records of `s` share an id, `id` reading a record's id. */
  ghost predicate DistinctIds<T>(s: seq<T>, id: T -> string) {
    forall i, j :: 0 <= i < j < |s| ==> id(s[i]) != id(s[j])
  }

  function IdOfClass(c: Class): string { c.id }
  function IdOfEntry(e: WasteEntry): string { e.id }
  function IdOfReport(b: BinReport): string { b.id }
  function IdOfActivity(a: Activity): string { a.id }

  /** No two classes share an id. */
  ghost predicate UniqueIds(cs: seq<Class>) {
    DistinctIds(cs, IdOfClass)
  }

  /** Appending a record whose id is new keeps the ids distinct. */
  lemma DistinctIdsSnoc<T>(s: seq<T>, x: T, id: T -> string)
    requires DistinctIds(s, id)
    requires forall i :: 0 <= i < |s| ==> id(s[i]) != id(x)
    ensures DistinctIds(s + [x], id)
  {
    forall i, j | 0 <= i < j < |s + [x]| ensures id((s + [x])[i]) != id((s + [x])[j]) {
      assert (s + [x])[i] == s[i];
      if j < |s| {
        assert (s + [x])[j] == s[j];
      }
    }
  }

  /** Every class's points equal the sum of its activities' points. */
  ghost predicate ScoresMatch(cs: seq<Class>, acts: seq<Activity>) {
    forall i :: 0 <= i < |cs| ==> cs[i].points == ActivityPoints(acts, cs[i].id)
  }

  lemma ActivityPointsSnoc(acts: seq<Activity>, a: Activity, id: string)
    ensures ActivityPoints(acts + [a], id)
            == ActivityPoints(acts, id) + (if a.classId == Some(id) then a.points else 0)
  {
    assert (acts + [a])[..|acts|] == acts;
  }

  lemma {:induction false} ActivityPointsAppend(u: seq<Activity>, v: seq<Activity>, id: string)
    ensures ActivityPoints(u + v, id) == ActivityPoints(u, id) + ActivityPoints(v, id)
    decreases |v|
  {
    if v == [] {
      assert u + v == u;
    } else {
      var v', x := v[..|v| - 1], v[|v| - 1];
      assert v == v' + [x];
      assert u + v == (u + v') + [x];
      ActivityPointsAppend(u, v', id);
      ActivityPointsSnoc(u + v', x, id);
      ActivityPointsSnoc(v', x, id);
    }
  }

  /** Reordering the activity log does not change any class's sum. */
  lemma {:induction false} ActivityPointsPermutation(a: seq<Activity>, b: seq<Activity>, id: string)
    requires multiset(a) == multiset(b)
    ensures ActivityPoints(a, id) == ActivityPoints(b, id)
    decreases |a|
  {
    if a == [] {
      assert |multiset(b)| == 0;
    } else {
      var a', x := a[..|a| - 1], a[|a| - 1];
      assert a == a' + [x];
      assert x in multiset(b);
      var k :| 0 <= k < |b| && b[k] == x;
      var b' := b[..k] + b[k + 1..];
      assert b == b[..k] + [x] + b[k + 1..];
      assert multiset(b) == multiset(b') + multiset{x};
      assert multiset(a) == multiset(a') + multiset{x};
      assert multiset(a') == multiset(a) - multiset{x};
      assert multiset(b') == multiset(b) - multiset{x};
      ActivityPointsPermutation(a', b', id);
      ActivityPointsSnoc(a', x, id);
      ActivityPointsAppend(b[..k] + [x], b[k + 1..], id);
      ActivityPointsAppend(b[..k], b[k + 1..], id);
      ActivityPointsSnoc(b[..k], x, id);
    }
  }

  /** A log with no activity for `id` sums to zero for it. */
  lemma {:induction false} ActivityPointsUnreferenced(acts: seq<Activity>, id: string)
    requires forall i :: 0 <= i < |acts| ==> acts[i].classId != Some(id)
    ensures ActivityPoints(acts, id) == 0
  {
    if acts != [] {
      ActivityPointsUnreferenced(acts[..|acts| - 1], id);
    }
  }

  /** Applying a delta together with logging an activity of that delta for
      the same class id keeps the scores matching, whether or not a class
      with that id exists. */
  lemma AddPointsKeepsScores(cs: seq<Class>, acts: seq<Activity>, a: Activity, id: string)
    requires UniqueIds(cs) && ScoresMatch(cs, acts)
    requires a.classId == Some(id)
    ensures UniqueIds(AddPoints(cs, id, a.points))
    ensures ScoresMatch(AddPoints(cs, id, a.points), acts + [a])
  {
    var r := AddPoints(cs, id, a.points);
    forall j | 0 <= j < |r| ensures r[j].id == cs[j].id && r[j].points == ActivityPoints(acts + [a], r[j].id) {
      ActivityPointsSnoc(acts, a, cs[j].id);
    }
  }

  /** A log entry that references no class, or a delta of zero, leaves the scores matching. */
  lemma UnscoredActivityKeepsScores(cs: seq<Class>, acts: seq<Activity>, a: Activity)
    requires ScoresMatch(cs, acts)
    requires a.classId.None? || a.points == 0
    ensures ScoresMatch(cs, acts + [a])
  {
    forall j | 0 <= j < |cs| ensures cs[j].points == ActivityPoints(acts + [a], cs[j].id) {
      ActivityPointsSnoc(acts, a, cs[j].id);
    }
  }

  /** A new class at zero points whose id nothing references keeps both invariants. */
  lemma NewClassKeepsScores(cs: seq<Class>, acts: seq<Activity>, c: Class)
    requires UniqueIds(cs) && ScoresMatch(cs, acts)
    requires c.points == 0
    requires forall j :: 0 <= j < |cs| ==> cs[j].id != c.id
    requires forall i :: 0 <= i < |acts| ==> acts[i].classId != Some(c.id)
    ensures UniqueIds(cs + [c]) && ScoresMatch(cs + [c], acts)
  {
    ActivityPointsUnreferenced(acts, c.id);
  }

  lemma {:induction false} DistinctIdsMultiplicity<T>(a: seq<T>, id: T -> string, v: T)
    requires DistinctIds(a, id)
    ensures multiset(a)[v] <= 1
  {
    if a != [] {
      assert a == [a[0]] + a[1..];
      DistinctIdsMultiplicity(a[1..], id, v);
      if v == a[0] {
        assert v !in a[1..];
      }
    }
  }

  lemma TwoPositions<T>(s: seq<T>, i: nat, j: nat)
    requires i < j < |s| && s[i] == s[j]
    ensures multiset(s)[s[i]] >= 2
  {
    assert s == s[..i] + [s[i]] + s[i + 1..j] + [s[j]] + s[j + 1..];
  }

  /** Reordering records keeps their ids distinct. */
  lemma DistinctIdsPermutation<T>(a: seq<T>, b: seq<T>, id: T -> string)
    requires multiset(a) == multiset(b) && DistinctIds(a, id)
    ensures DistinctIds(b, id)
  {
    forall i, j | 0 <= i < j < |b| ensures id(b[i]) != id(b[j]) {
      assert b[i] in multiset(a) && b[j] in multiset(a);
      var k :| 0 <= k < |a| && a[k] == b[i];
      var l :| 0 <= l < |a| && a[l] == b[j];
      if k == l {
        // then b[i] == b[j] occurs twice in b but at most once in a
        TwoPositions(b, i, j);
        DistinctIdsMultiplicity(a, id, b[i]);
      }
    }
  }

  /** Reordering the class list and the activity log in place keeps both invariants. */
  lemma ReorderKeepsScores(cs: seq<Class>, acts: seq<Activity>, cs': seq<Class>, acts': seq<Activity>)
    requires UniqueIds(cs) && ScoresMatch(cs, acts)
    requires multiset(cs') == multiset(cs) && multiset(acts') == multiset(acts)
    ensures UniqueIds(cs') && ScoresMatch(cs', acts')
  {
    DistinctIdsPermutation(cs, cs', IdOfClass);
    forall i | 0 <= i < |cs'| ensures cs'[i].points == ActivityPoints(acts', cs'[i].id) {
      assert cs'[i] in multiset(cs);
      var k :| 0 <= k < |cs| && cs[k] == cs'[i];
      ActivityPointsPermutation(acts, acts', cs'[i].id);
    }
  }
}
