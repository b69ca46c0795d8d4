/** The point formula of MemStorage.calculateWastePoints
    (EduWaste/EduWaste/server/storage.ts:121-150):

      multiplier    = table[wasteType] || 3
      weightPoints  = sqrt(weight / 10)
      quantityBonus = min(quantity * 2, 20)
      basePoints    = (weightPoints + quantityBonus) * (multiplier / 5)
      points        = max(3, round(basePoints)),  round(x) = floor(x + 1/2)

    The square root is taken exactly (ideal real arithmetic). Since
    multiplier > 0, "basePoints >= n + 1/2" is equivalent to the integer test
    d <= 0 || 10 * d * d <= 4 * weight * multiplier^2 with
    d = 10 * n + 5 - 2 * quantityBonus * multiplier (lemma ReachesHalfAboveIsExact),
    so the rounded value is found by counting up from 0. */
module Scoring {
  import opened Schema

  /** The per-category point multipliers of calculateWastePoints, keyed by category name. */
  const PointMultipliers: map<string, int> := map[
    "plastic_bottles" := 8,
    "plastic_cutlery" := 6,
    "plastic_wrappers" := 4,
    "plastic_packets" := 5,
    "stock_paper" := 7,
    "chart_paper" := 6,
    "paper_tissues" := 3,
    "food_waste" := 5,
    "disposable_cups" := 4,
    "pens" := 9]

  /** The table has one entry per category and no other key, and no value is falsy. */
  lemma PointMultipliersCoverCategories()
    ensures PointMultipliers.Keys == WasteTypeNames()
    ensures forall k :: k in PointMultipliers ==> 3 <= PointMultipliers[k] <= 9
  {
  }

  /** `table[wasteType] || 3`: a key missing from the table, or a falsy value, gives 3. */
  function PointMultiplier(wasteType: string): (m: int)
    ensures 3 <= m <= 9
    ensures wasteType !in PointMultipliers ==> m == 3
    ensures wasteType in PointMultipliers ==> m == PointMultipliers[wasteType]
  {
    if wasteType in PointMultipliers && PointMultipliers[wasteType] != 0
    then PointMultipliers[wasteType] else 3
  }

  /** `Math.min(quantity * 2, 20)`: two points per item, capped at 20. */
  function QuantityBonus(quantity: int): (b: int)
    ensures b <= 20
    ensures b <= 2 * quantity
    ensures b == 2 * quantity || b == 20
  {
    if quantity * 2 < 20 then quantity * 2 else 20
  }

  /** basePoints >= n + 1/2, decided in integers (see the module comment). */
  predicate ReachesHalfAbove(n: int, weight: int, bonus: int, m: int) {
    var d := 10 * n + 5 - 2 * bonus * m;
    d <= 0 || 10 * (d * d) <= 4 * weight * (m * m)
  }

  lemma IntMulMonotone(a: int, b: int, c: int)
    requires a <= b && 0 <= c
    ensures a * c <= b * c
  {
    assert (b - a) * c >= 0;
  }

  // Real arithmetic facts, one per lemma so that each proof stays linear.

  lemma PositiveProduct(a: real, b: real)
    requires a > 0.0 && b > 0.0
    ensures a * b > 0.0
  {
  }

  lemma DifferenceOfSquares(a: real, b: real)
    ensures (a - b) * (a + b) == a * a - b * b
  {
  }

  lemma SquareLess(x: real, y: real)
    requires 0.0 <= y < x
    ensures y * y < x * x
  {
    PositiveProduct(x - y, x + y);
    DifferenceOfSquares(x, y);
  }

  lemma SquaresOrdered(x: real, y: real)
    requires 0.0 <= x && 0.0 <= y
    ensures x <= y <==> x * x <= y * y
  {
    if x < y {
      SquareLess(y, x);
    } else if y < x {
      SquareLess(x, y);
    }
  }

  lemma DistributeRight(a: real, b: real, k: real)
    ensures (a + b) * k == a * k + b * k
  {
  }

  lemma ProductAsReal(a: int, b: int)
    ensures (a * b) as real == (a as real) * (b as real)
  {
  }

  lemma SquareOfDoubleProduct(s: real, mr: real)
    ensures (2.0 * s * mr) * (2.0 * s * mr) == 4.0 * (s * s) * (mr * mr)
  {
  }

  lemma DoubleProductNonNegative(a: real, b: real)
    requires a >= 0.0 && b > 0.0
    ensures 2.0 * a * b >= 0.0
  {
  }

  /** Rearranging the real formula: n + 1/2 <= (s + bonus) * (m / 5) exactly
      when 10 * n + 5 - 2 * bonus * m <= 2 * s * m. */
  lemma HalfAboveAsDifference(n: int, bonus: int, m: int, s: real)
    ensures (n as real) + 0.5 <= (s + bonus as real) * ((m as real) / 5.0)
            <==> ((10 * n + 5 - 2 * bonus * m) as real) <= 2.0 * s * (m as real)
  {
    var mr := m as real;
    var br := bonus as real;
    ProductAsReal(bonus, m);
    assert ((10 * n + 5 - 2 * bonus * m) as real) == 10.0 * (n as real) + 5.0 - 2.0 * (br * mr);
    DistributeRight(s, br, mr / 5.0);
    assert s * (mr / 5.0) == (s * mr) / 5.0;
    assert br * (mr / 5.0) == (br * mr) / 5.0;
  }

  /** For a positive d, d <= 2 * s * m compares like the squares, in integers. */
  lemma DifferenceBySquares(d: int, weight: int, m: int, s: real)
    requires m >= 1 && d > 0
    requires s >= 0.0 && 10.0 * (s * s) == weight as real
    ensures (d as real) <= 2.0 * s * (m as real) <==> 10 * (d * d) <= 4 * weight * (m * m)
  {
    var mr := m as real;
    var dr := d as real;
    var sm := 2.0 * s * mr;
    DoubleProductNonNegative(s, mr);
    SquaresOrdered(dr, sm);
    SquareOfDoubleProduct(s, mr);
    ProductAsReal(d, d);
    ProductAsReal(m, m);
    ProductAsReal(weight, m * m);
    assert (10 * (d * d)) as real == 10.0 * (dr * dr);
    assert (4 * weight * (m * m)) as real == 4.0 * (weight as real) * (mr * mr);
    assert 10.0 * (sm * sm) == 4.0 * (weight as real) * (mr * mr);
  }

  /** The integer test agrees with the real formula: when s is the exact
      square root of weight / 10, it holds exactly when
      n + 1/2 <= (s + bonus) * (m / 5). */
  lemma ReachesHalfAboveIsExact(n: int, weight: int, bonus: int, m: int, s: real)
    requires m >= 1
    requires s >= 0.0 && 10.0 * (s * s) == weight as real
    ensures ReachesHalfAbove(n, weight, bonus, m)
            <==> (n as real) + 0.5 <= (s + bonus as real) * ((m as real) / 5.0)
  {
    var d := 10 * n + 5 - 2 * bonus * m;
    HalfAboveAsDifference(n, bonus, m, s);
    DoubleProductNonNegative(s, m as real);
    if d > 0 {
      DifferenceBySquares(d, weight, m, s);
    }
  }

  /** Reaching n + 1/2 is easier for a smaller n, a larger weight and a larger bonus. */
  lemma ReachesHalfAboveMonotone(n1: int, n2: int, w1: int, w2: int, b1: int, b2: int, m: int)
    requires m >= 1
    requires n1 <= n2 && w1 <= w2 && b1 <= b2
    requires ReachesHalfAbove(n2, w1, b1, m)
    ensures ReachesHalfAbove(n1, w2, b2, m)
  {
    var d1 := 10 * n1 + 5 - 2 * b2 * m;
    var d2 := 10 * n2 + 5 - 2 * b1 * m;
    IntMulMonotone(b1, b2, m);
    assert d1 <= d2;
    if d1 > 0 {
      SquareMonotone(d1, d2);
      IntMulMonotone(w1, w2, m * m);
    }
  }

  lemma SquareMonotone(a: int, b: int)
    requires 0 <= a <= b
    ensures a * a <= b * b
  {
    IntMulMonotone(a, b, a);
    IntMulMonotone(a, b, b);
  }

  /** Only finitely many n are reached, which bounds the count-up. */
  lemma ReachesHalfAboveBound(n: int, weight: int, bonus: int, m: int)
    requires weight >= 0 && bonus <= 20 && 1 <= m <= 9
    requires ReachesHalfAbove(n, weight, bonus, m)
    ensures n < 4 * weight + 40
  {
    var d := 10 * n + 5 - 2 * bonus * m;
    IntMulMonotone(bonus, 20, m);
    if d > 0 {
      IntMulMonotone(1, d, d);
      SquareMonotone(m, 9);
      IntMulMonotone(m * m, 81, weight);
      assert 4 * weight * (m * m) == 4 * ((m * m) * weight);
      assert 10 * d <= 324 * weight;
    }
  }

  /** Counts up from k to the rounded base points. */
  function RoundFrom(k: nat, weight: int, bonus: int, m: int): (r: nat)
    requires weight >= 0 && bonus <= 20 && 1 <= m <= 9
    requires k == 0 || ReachesHalfAbove(k - 1, weight, bonus, m)
    ensures k <= r
    ensures !ReachesHalfAbove(r, weight, bonus, m)
    ensures r == 0 || ReachesHalfAbove(r - 1, weight, bonus, m)
    decreases 4 * weight + 40 - k
  {
    if ReachesHalfAbove(k, weight, bonus, m) then
      ReachesHalfAboveBound(k, weight, bonus, m);
      RoundFrom(k + 1, weight, bonus, m)
    else k
  }

  /** round(basePoints) when basePoints >= -1/2, and 0 below that
      (where max(3, .) gives 3 either way). */
  function RoundedBasePoints(weight: int, bonus: int, m: int): nat
    requires weight >= 0 && bonus <= 20 && 1 <= m <= 9
  {
    RoundFrom(0, weight, bonus, m)
  }

  /** The rounded value is the unique n >= 0 with
      n - 1/2 <= basePoints < n + 1/2 (for n = 0 only the upper bound). */
  lemma {:induction false} RoundedBasePointsUnique(weight: int, bonus: int, m: int, n: nat)
    requires weight >= 0 && bonus <= 20 && 1 <= m <= 9
    ensures RoundedBasePoints(weight, bonus, m) == n
            <==> !ReachesHalfAbove(n, weight, bonus, m) && (n == 0 || ReachesHalfAbove(n - 1, weight, bonus, m))
  {
    var r := RoundedBasePoints(weight, bonus, m);
    if !ReachesHalfAbove(n, weight, bonus, m) && (n == 0 || ReachesHalfAbove(n - 1, weight, bonus, m)) {
      if r < n {
        ReachesHalfAboveMonotone(r, n - 1, weight, weight, bonus, bonus, m);
      } else if r > n {
        ReachesHalfAboveMonotone(n, r - 1, weight, weight, bonus, bonus, m);
      }
    }
  }

  /** `Math.round(x)`: the nearest integer, halves rounded up. */
  function RoundHalfUp(x: real): (r: int)
    ensures x - 0.5 < r as real <= x + 0.5
  {
    (x + 0.5).Floor
  }

  lemma RoundsTo(x: real, n: int)
    requires (n - 1) as real + 0.5 <= x < n as real + 0.5
    ensures RoundHalfUp(x) == n
  {
  }

  lemma RoundsBelowOne(x: real)
    requires x < 0.5
    ensures RoundHalfUp(x) <= 0
  {
  }

  lemma RoundHalfUpOfInteger(n: int)
    ensures RoundHalfUp(n as real) == n
  {
  }

  /** calculateWastePoints. The server passes the entry's weight; a negative
      weight would make Math.sqrt return NaN, so the weight is required to be
      non-negative (it is, for every quantity >= 0). */
  function CalculateWastePoints(wasteType: string, weightInGrams: int, quantity: int): (p: int)
    requires weightInGrams >= 0
    ensures p >= 3
  {
    var rounded := RoundedBasePoints(weightInGrams, QuantityBonus(quantity), PointMultiplier(wasteType));
    if rounded < 3 then 3 else rounded
  }

  /** Points never decrease when the weight or the item count grows
      (for a fixed category). */
  lemma {:induction false} CalculateWastePointsMonotone(wasteType: string, w1: int, w2: int, q1: int, q2: int)
    requires 0 <= w1 <= w2 && q1 <= q2
    ensures CalculateWastePoints(wasteType, w1, q1) <= CalculateWastePoints(wasteType, w2, q2)
  {
    var m := PointMultiplier(wasteType);
    var b1, b2 := QuantityBonus(q1), QuantityBonus(q2);
    assert b1 <= b2;
    var r1 := RoundedBasePoints(w1, b1, m);
    var r2 := RoundedBasePoints(w2, b2, m);
    if r1 > 0 && r2 < r1 {
      ReachesHalfAboveMonotone(r2, r1 - 1, w1, w2, b1, b2, m);
    }
  }

  /** Items beyond the tenth add no bonus: the score depends on the
      quantity only through min(quantity, 10). */
  lemma QuantityBonusCapped(wasteType: string, weightInGrams: int, quantity: int)
    requires weightInGrams >= 0 && quantity >= 10
    ensures CalculateWastePoints(wasteType, weightInGrams, quantity)
            == CalculateWastePoints(wasteType, weightInGrams, 10)
  {
  }

  /** A real x bracketed by RoundFrom's count r scores as Math.round(x) would. */
  lemma PointsFromBracket(wasteType: string, weightInGrams: int, quantity: int, x: real)
    requires weightInGrams >= 0
    requires var r := RoundedBasePoints(weightInGrams, QuantityBonus(quantity), PointMultiplier(wasteType));
      x < r as real + 0.5 && (r == 0 || (r - 1) as real + 0.5 <= x)
    ensures CalculateWastePoints(wasteType, weightInGrams, quantity) == if RoundHalfUp(x) < 3 then 3 else RoundHalfUp(x)
  {
    var r := RoundedBasePoints(weightInGrams, QuantityBonus(quantity), PointMultiplier(wasteType));
    if r > 0 {
      RoundsTo(x, r);
    } else {
      RoundsBelowOne(x);
    }
  }

  /** RoundFrom brackets the real base value: it lies in [r - 1/2, r + 1/2). */
  lemma RoundedBaseBrackets(weight: int, b: int, m: int, s: real)
    requires weight >= 0 && b <= 20 && 1 <= m <= 9
    requires s >= 0.0 && 10.0 * (s * s) == weight as real
    ensures var r := RoundedBasePoints(weight, b, m);
            var x := (s + b as real) * (m as real / 5.0);
            x < r as real + 0.5 && (r == 0 || (r - 1) as real + 0.5 <= x)
  {
    var r := RoundedBasePoints(weight, b, m);
    ReachesHalfAboveIsExact(r, weight, b, m, s);
    if r > 0 {
      ReachesHalfAboveIsExact(r - 1, weight, b, m, s);
    }
  }

  /** The model computes the source's formula: with s the exact square root
      of weight / 10, the points are max(3, Math.round((s + bonus) * multiplier / 5)). */
  lemma CalculateWastePointsIsFormula(wasteType: string, weightInGrams: int, quantity: int, s: real)
    requires weightInGrams >= 0 && s >= 0.0 && 10.0 * (s * s) == weightInGrams as real
    ensures var base := (s + QuantityBonus(quantity) as real) * (PointMultiplier(wasteType) as real / 5.0);
            var rounded := RoundHalfUp(base);
            CalculateWastePoints(wasteType, weightInGrams, quantity) == if rounded < 3 then 3 else rounded
  {
    RoundedBaseBrackets(weightInGrams, QuantityBonus(quantity), PointMultiplier(wasteType), s);
    PointsFromBracket(wasteType, weightInGrams, quantity,
                      (s + QuantityBonus(quantity) as real) * (PointMultiplier(wasteType) as real / 5.0));
  }
}
