/** JavaScript's `Array.prototype.sort` with a comparator, which the store
    uses to reorder its arrays. The language requires the sort to be stable,
    so it is modelled by a stable insertion sort: `before(a, b)` holds when
    the comparator puts `a` strictly ahead of `b` (comparator result < 0). */
module Sorting {

  /** The comparator is consistent: "strictly ahead" is asymmetric and
      "not ahead" is transitive (a strict weak order). */
  ghost predicate StrictWeakOrder<T(!new)>(before: (T, T) -> bool) {
    && (forall a, b :: before(a, b) ==> !before(b, a))
    && (forall a, b, c :: !before(a, b) && !before(b, c) ==> !before(a, c))
  }

  /** No element is strictly ahead of an element placed before it. */
  ghost predicate SortedBy<T>(s: seq<T>, before: (T, T) -> bool) {
    forall i, j :: 0 <= i < j < |s| ==> !before(s[j], s[i])
  }

  /** `a` and `b` compare equal (neither is ahead of the other). */
  predicate Tied<T>(a: T, b: T, before: (T, T) -> bool) {
    !before(a, b) && !before(b, a)
  }

  /** The elements of `s` that compare equal to `e`, in their order in `s`. */
  function TiedWith<T>(s: seq<T>, e: T, before: (T, T) -> bool): seq<T> {
    if s == [] then []
    else (if Tied(s[0], e, before) then [s[0]] else []) + TiedWith(s[1..], e, before)
  }

  /** Places `x` ahead of the first element of `t` that is not strictly ahead of it. */
  function Insert<T>(x: T, t: seq<T>, before: (T, T) -> bool): seq<T> {
    if t == [] then [x]
    else if before(t[0], x) then [t[0]] + Insert(x, t[1..], before)
    else [x] + t
  }

  /** The stable sort of `s` under `before`. */
  function SortBy<T>(s: seq<T>, before: (T, T) -> bool): seq<T> {
    if s == [] then [] else Insert(s[0], SortBy(s[1..], before), before)
  }

  lemma {:induction false} InsertPermutation<T>(x: T, t: seq<T>, before: (T, T) -> bool)
    ensures multiset(Insert(x, t, before)) == multiset(t) + multiset{x}
  {
    if t != [] && before(t[0], x) {
      InsertPermutation(x, t[1..], before);
      assert t == [t[0]] + t[1..];
    }
  }

  /** Sorting only reorders: the result is a permutation of the input. */
  lemma {:induction false} SortByPermutation<T>(s: seq<T>, before: (T, T) -> bool)
    ensures multiset(SortBy(s, before)) == multiset(s)
    ensures |SortBy(s, before)| == |s|
  {
    if s != [] {
      SortByPermutation(s[1..], before);
      InsertPermutation(s[0], SortBy(s[1..], before), before);
      assert s == [s[0]] + s[1..];
    }
    assert |multiset(SortBy(s, before))| == |SortBy(s, before)|;
  }

  lemma {:induction false} InsertSorted<T(!new)>(x: T, t: seq<T>, before: (T, T) -> bool)
    requires StrictWeakOrder(before)
    requires SortedBy(t, before)
    ensures SortedBy(Insert(x, t, before), before)
  {
    if t != [] {
      if before(t[0], x) {
        var rest := Insert(x, t[1..], before);
        InsertSorted(x, t[1..], before);
        InsertPermutation(x, t[1..], before);
        forall j | 0 <= j < |rest| ensures !before(rest[j], t[0]) {
          assert rest[j] in multiset(rest);
          if rest[j] != x {
            assert rest[j] in t[1..];
          }
        }
      } else {
        forall j | 0 <= j < |t| ensures !before(t[j], x) {
          if j > 0 {
            assert !before(t[j], t[0]);
          }
        }
        var r := [x] + t;
        forall i, j | 0 <= i < j < |r| ensures !before(r[j], r[i]) {
          if i > 0 {
            assert r[i] == t[i - 1] && r[j] == t[j - 1];
          }
        }
      }
    }
  }

  /** Under a consistent comparator the result is in order. */
  lemma {:induction false} SortBySorted<T(!new)>(s: seq<T>, before: (T, T) -> bool)
    requires StrictWeakOrder(before)
    ensures SortedBy(SortBy(s, before), before)
  {
    if s != [] {
      SortBySorted(s[1..], before);
      InsertSorted(s[0], SortBy(s[1..], before), before);
    }
  }

  lemma {:induction false} TiedWithAppend<T>(a: seq<T>, b: seq<T>, e: T, before: (T, T) -> bool)
    ensures TiedWith(a + b, e, before) == TiedWith(a, e, before) + TiedWith(b, e, before)
  {
    if a == [] {
      assert a + b == b;
    } else {
      TiedWithAppend(a[1..], b, e, before);
      assert (a + b)[0] == a[0];
      assert (a + b)[1..] == a[1..] + b;
    }
  }

  lemma TiedWithSingle<T>(x: T, e: T, before: (T, T) -> bool)
    ensures TiedWith([x], e, before) == if Tied(x, e, before) then [x] else []
  {
    assert [x][1..] == [];
  }

  /** Cutting a sequence short keeps a prefix of each class of tied elements. */
  lemma TiedWithPrefix<T>(s: seq<T>, k: nat, e: T, before: (T, T) -> bool)
    requires k <= |s|
    ensures TiedWith(s[..k], e, before) <= TiedWith(s, e, before)
  {
    assert s == s[..k] + s[k..];
    TiedWithAppend(s[..k], s[k..], e, before);
  }

  /** Two elements one of which is strictly ahead of the other are not both
      tied with the same element. */
  lemma NotBothTied<T(!new)>(x: T, y: T, e: T, before: (T, T) -> bool)
    requires StrictWeakOrder(before)
    requires before(y, x)
    ensures !(Tied(x, e, before) && Tied(y, e, before))
  {
    assert !before(y, e) && !before(e, x) ==> !before(y, x);
  }

  lemma {:induction false} InsertStable<T(!new)>(x: T, t: seq<T>, e: T, before: (T, T) -> bool)
    requires StrictWeakOrder(before)
    ensures TiedWith(Insert(x, t, before), e, before) == TiedWith([x] + t, e, before)
  {
    if t != [] && before(t[0], x) {
      var y, t' := t[0], t[1..];
      var rest := Insert(x, t', before);
      var tx, ty, tt := TiedWith([x], e, before), TiedWith([y], e, before), TiedWith(t', e, before);
      assert Insert(x, t, before) == [y] + rest;
      assert [x] + t == [x] + ([y] + t') by { assert t == [y] + t'; }
      InsertStable(x, t', e, before);
      TiedWithAppend([y], rest, e, before);
      TiedWithAppend([x], t', e, before);
      TiedWithAppend([y], t', e, before);
      TiedWithAppend([x], [y] + t', e, before);
      assert tx == [] || ty == [] by {
        NotBothTied(x, y, e, before);
        TiedWithSingle(x, e, before);
        TiedWithSingle(y, e, before);
      }
      calc {
        TiedWith(Insert(x, t, before), e, before);
        ty + (tx + tt);
        tx + (ty + tt);
        TiedWith([x] + t, e, before);
      }
    }
  }

  /** Stability: for every element `e`, the elements tied with `e` keep
      their relative order. */
  lemma {:induction false} SortByStable<T(!new)>(s: seq<T>, e: T, before: (T, T) -> bool)
    requires StrictWeakOrder(before)
    ensures TiedWith(SortBy(s, before), e, before) == TiedWith(s, e, before)
  {
    if s != [] {
      SortByStable(s[1..], e, before);
      InsertStable(s[0], SortBy(s[1..], before), e, before);
      TiedWithAppend([s[0]], SortBy(s[1..], before), e, before);
      TiedWithAppend([s[0]], s[1..], e, before);
      assert s == [s[0]] + s[1..];
    }
  }
}
