/** BMI calculation and classification: a fixed, ordered table of half-open
    BMI intervals, the unit-dependent BMI formula, one-decimal rounding, and a
    first-match lookup over the table that falls back to "Normal". */
module BmiLogic {

  datatype Option<T> = None | Some(value: T)

  /** One row of the category table: the interval [min, max), the category name
      (the source's `label`; that word is reserved in Dafny) and the text the
      user interface shows for it. */
  datatype Category = Category(min: real, max: real, name: string, rangeText: string, colorClass: string)

  /** The category table, in ascending order. */
  const Categories: seq<Category> := [
    Category(0.0, 16.0, "Very severely underweight", "< 16", "bg-[#0096FF]"),
    Category(16.0, 17.0, "Severely underweight", "16.0 - 16.9", "bg-[#00D2FF]"),
    Category(17.0, 18.5, "Underweight", "17.0 - 18.4", "bg-[#7DF9FF]"),
    Category(18.5, 25.0, "Normal", "18.5 - 24.9", "bg-[#4ADE80]"),
    Category(25.0, 30.0, "Overweight", "25.0 - 29.9", "bg-[#FACC15]"),
    Category(30.0, 35.0, "Obese class I", "30.0 - 34.9", "bg-[#F97316]"),
    Category(35.0, 40.0, "Obese class II", "35.0 - 39.9", "bg-[#EA580C]"),
    Category(40.0, 1000.0, "Obese class III", "> 39.9", "bg-[#EF4444]")
  ]

  /** Index of the fallback category used when no interval matches. */
  const NormalIndex: nat := 3

  /** Lower and upper end of the range the table covers. */
  const TableLow: real := 0.0
  const TableHigh: real := 1000.0

  /** The match test of the lookup: v lies in [c.min, c.max). */
  predicate Contains(c: Category, v: real) {
    c.min <= v < c.max
  }

  /** t's intervals are non-empty, contiguous and ascending, starting at lo and
      ending at hi, so that together they cover [lo, hi) exactly. */
  predicate IsPartition(t: seq<Category>, lo: real, hi: real) {
    && |t| > 0
    && t[0].min == lo
    && t[|t| - 1].max == hi
    && (forall i :: 0 <= i < |t| ==> t[i].min < t[i].max)
    && (forall i :: 0 <= i < |t| - 1 ==> t[i].max == t[i + 1].min)
  }

  // ---------------------------------------------------------------------------
  // The table
  // ---------------------------------------------------------------------------

  /** The table has eight rows that partition [0, 1000). */
  lemma CategoriesPartition()
    ensures |Categories| == 8
    ensures IsPartition(Categories, TableLow, TableHigh)
    ensures Categories[NormalIndex].name == "Normal"
  {
  }

  /** In a partition, an earlier interval ends no later than a later one starts. */
  lemma {:induction false} PartitionAscending(t: seq<Category>, lo: real, hi: real, i: nat, j: nat)
    requires IsPartition(t, lo, hi)
    requires i < j < |t|
    ensures t[i].max <= t[j].min
  {
    if j > i + 1 {
      PartitionAscending(t, lo, hi, i, j - 1);
    }
  }

  /** Every interval of a partition of [lo, hi) lies inside [lo, hi). */
  lemma PartitionBounds(t: seq<Category>, lo: real, hi: real, i: nat)
    requires IsPartition(t, lo, hi)
    requires i < |t|
    ensures lo <= t[i].min && t[i].max <= hi
  {
    if i > 0 {
      PartitionAscending(t, lo, hi, 0, i);
    }
    if i < |t| - 1 {
      PartitionAscending(t, lo, hi, i, |t| - 1);
    }
  }

  /** At most one interval of a partition contains a given value. */
  lemma PartitionMatchUnique(t: seq<Category>, lo: real, hi: real, v: real, i: nat, j: nat)
    requires IsPartition(t, lo, hi)
    requires i < |t| && j < |t|
    requires Contains(t[i], v) && Contains(t[j], v)
    ensures i == j
  {
    if i < j {
      PartitionAscending(t, lo, hi, i, j);
    } else if j < i {
      PartitionAscending(t, lo, hi, j, i);
    }
  }

  /** No interval of a partition of [lo, hi) contains a value outside [lo, hi). */
  lemma PartitionNoMatchOutside(t: seq<Category>, lo: real, hi: real, v: real)
    requires IsPartition(t, lo, hi)
    requires v < lo || hi <= v
    ensures forall i :: 0 <= i < |t| ==> !Contains(t[i], v)
  {
    forall i | 0 <= i < |t|
      ensures !Contains(t[i], v)
    {
      PartitionBounds(t, lo, hi, i);
    }
  }

  // ---------------------------------------------------------------------------
  // First-match lookup
  // ---------------------------------------------------------------------------

  /** Position of the first row of t whose interval contains v, as the array
      `find` scan does; None when no row matches. */
  function FindFirst(t: seq<Category>, v: real): (r: Option<nat>)
    ensures r.Some? ==> r.value < |t| && Contains(t[r.value], v)
    ensures r.Some? ==> forall j :: 0 <= j < r.value ==> !Contains(t[j], v)
    ensures r.None? <==> forall j :: 0 <= j < |t| ==> !Contains(t[j], v)
  {
    if t == [] then None
    else if Contains(t[0], v) then Some(0)
    else
      match FindFirst(t[1..], v)
      case None => None
      case Some(k) =>
        assert forall j :: 1 <= j <= k ==> t[j] == t[1..][j - 1];
        Some(k + 1)
  }

  /** Every value in [lo, hi) is found in a partition of [lo, hi). */
  lemma {:induction false} PartitionCovers(t: seq<Category>, lo: real, hi: real, v: real)
    requires IsPartition(t, lo, hi)
    requires lo <= v < hi
    ensures FindFirst(t, v).Some?
  {
    if !Contains(t[0], v) {
      assert |t| > 1;
      var rest := t[1..];
      assert IsPartition(rest, t[0].max, hi) by {
        assert forall i :: 0 <= i < |rest| ==> rest[i] == t[i + 1];
      }
      PartitionCovers(rest, t[0].max, hi, v);
    }
  }

  /** On the category table the first match is the only match for every value
      in [0, 1000), and no row matches any value outside that range. */
  lemma {:induction false} FindFirstOnCategories(v: real)
    ensures TableLow <= v < TableHigh ==>
      FindFirst(Categories, v).Some? &&
      forall j :: 0 <= j < |Categories| && Contains(Categories[j], v) ==> j == FindFirst(Categories, v).value
    ensures !(TableLow <= v < TableHigh) ==> FindFirst(Categories, v).None?
  {
    CategoriesPartition();
    if TableLow <= v < TableHigh {
      PartitionCovers(Categories, TableLow, TableHigh, v);
      var i := FindFirst(Categories, v).value;
      forall j | 0 <= j < |Categories| && Contains(Categories[j], v)
        ensures j == i
      {
        PartitionMatchUnique(Categories, TableLow, TableHigh, v, i, j);
      }
    } else {
      PartitionNoMatchOutside(Categories, TableLow, TableHigh, v);
    }
  }

  /** Index of the category the rounded BMI v falls in: the first matching row,
      or "Normal" when none matches. The uniqueness and no-match facts of the
      contract come from FindFirstOnCategories. */
  function ClassifyIndex(v: real): (i: nat)
    ensures i < |Categories|
    ensures TableLow <= v < TableHigh ==>
      Contains(Categories[i], v) &&
      forall j :: 0 <= j < |Categories| && Contains(Categories[j], v) ==> j == i
    ensures !(TableLow <= v < TableHigh) ==>
      i == NormalIndex && forall j :: 0 <= j < |Categories| ==> !Contains(Categories[j], v)
  {
    FindFirstOnCategories(v);
    match FindFirst(Categories, v)
    case Some(k) => k
    case None => NormalIndex
  }

  /** The category the rounded BMI v falls in; always a row of the table. */
  function Classify(v: real): (c: Category)
    ensures c in Categories
    ensures TableLow <= v < TableHigh ==> Contains(c, v)
    ensures !(TableLow <= v < TableHigh) ==> c == Categories[NormalIndex] && c.name == "Normal"
  {
    Categories[ClassifyIndex(v)]
  }

  /** 18.5 is the first "Normal" value: the boundary belongs to the higher
      category. */
  lemma ClassifyLowerNormalBoundary()
    ensures ClassifyIndex(18.5) == 3 && Classify(18.5).name == "Normal"
    ensures ClassifyIndex(18.4) == 2 && Classify(18.4).name == "Underweight"
  {
    assert Contains(Categories[3], 18.5);
    assert Contains(Categories[2], 18.4);
  }

  /** 25 is the first "Overweight" value: the boundary belongs to the higher
      category. */
  lemma ClassifyUpperNormalBoundary()
    ensures ClassifyIndex(25.0) == 4 && Classify(25.0).name == "Overweight"
    ensures ClassifyIndex(24.9) == 3 && Classify(24.9).name == "Normal"
  {
    assert Contains(Categories[4], 25.0);
    assert Contains(Categories[3], 24.9);
  }

  /** The ends of the table: 0 is in the first row, 999.9 in the last, and 1000
      or any negative value falls back to "Normal". */
  lemma ClassifyTableEnds()
    ensures ClassifyIndex(0.0) == 0 && ClassifyIndex(999.9) == 7
    ensures ClassifyIndex(1000.0) == NormalIndex && ClassifyIndex(-0.1) == NormalIndex
  {
    assert Contains(Categories[0], 0.0);
    assert Contains(Categories[7], 999.9);
  }

  /** Within the covered range, a larger value never gets a lower category. */
  lemma ClassifyMonotone(v1: real, v2: real)
    requires TableLow <= v1 <= v2 < TableHigh
    ensures ClassifyIndex(v1) <= ClassifyIndex(v2)
  {
    var i, j := ClassifyIndex(v1), ClassifyIndex(v2);
    if j < i {
      CategoriesPartition();
      PartitionAscending(Categories, TableLow, TableHigh, j, i);
    }
  }

  // ---------------------------------------------------------------------------
  // BMI formula and rounding
  // ---------------------------------------------------------------------------

  /** The unit string selecting kilograms and centimetres; every other string
      selects pounds and inches. */
  const Metric: string := "metric"

  /** Raw BMI: kg / m^2 with the height given in cm for "metric", otherwise
      (lb / in^2) * 703. */
  function RawBmi(weight: real, height: real, unit: string := Metric): (bmi: real)
    requires height != 0.0
    ensures unit == Metric ==> bmi * height * height == 10000.0 * weight
    ensures unit != Metric ==> bmi * height * height == 703.0 * weight
  {
    if unit == Metric then
      var heightInMeters := height / 100.0;
      weight / (heightInMeters * heightInMeters)
    else
      (weight / (height * height)) * 703.0
  }

  /** The square of a non-zero height is positive. */
  lemma SquarePositive(h: real)
    requires h != 0.0
    ensures h * h > 0.0
  {
    if h < 0.0 {
      assert h * h == (-h) * (-h);
    }
  }

  /** The raw BMI is the weight times a positive factor that depends only on
      the height and the unit. */
  lemma RawBmiScales(weight: real, height: real, unit: string)
    requires height != 0.0
    ensures var f := RawBmi(1.0, height, unit);
      f > 0.0 && RawBmi(weight, height, unit) == weight * f
  {
    SquarePositive(height);
    var hh := height * height;
    var f := RawBmi(1.0, height, unit);
    var b := RawBmi(weight, height, unit);
    var c := if unit == Metric then 10000.0 else 703.0;
    assert f * hh == c;
    assert b * hh == c * weight;
    assert f == c / hh;
    assert b == c * weight / hh;
  }

  /** The raw BMI is non-negative exactly when the weight is. */
  lemma RawBmiSign(weight: real, height: real, unit: string)
    requires height != 0.0
    ensures 0.0 <= RawBmi(weight, height, unit) <==> 0.0 <= weight
  {
    RawBmiScales(weight, height, unit);
    var f := RawBmi(1.0, height, unit);
    if weight < 0.0 {
      assert weight * f < 0.0;
    }
  }

  /** For a fixed height and unit, the raw BMI grows with the weight. */
  lemma RawBmiMonotoneInWeight(w1: real, w2: real, height: real, unit: string)
    requires height != 0.0
    requires w1 <= w2
    ensures RawBmi(w1, height, unit) <= RawBmi(w2, height, unit)
  {
    RawBmiScales(w1, height, unit);
    RawBmiScales(w2, height, unit);
    var f := RawBmi(1.0, height, unit);
    assert w2 * f - w1 * f == (w2 - w1) * f;
  }

  /** v has at most one decimal place. */
  predicate IsTenth(v: real) {
    (v * 10.0).Floor as real == v * 10.0
  }

  /** Rounding to one decimal, halves away from zero, as fixed-point
      formatting with one digit does on the exact value. */
  function RoundToTenth(x: real): (r: real)
    ensures IsTenth(r)
    ensures 0.0 <= x ==> x - 0.05 < r <= x + 0.05
    ensures x < 0.0 ==> x - 0.05 <= r < x + 0.05
  {
    if 0.0 <= x then
      var n := (x * 10.0 + 0.5).Floor;
      assert (n as real / 10.0) * 10.0 == n as real;
      n as real / 10.0
    else
      var n := (-x * 10.0 + 0.5).Floor;
      assert (-(n as real / 10.0)) * 10.0 == -(n as real);
      assert (-(n as real)).Floor == -n;
      -(n as real / 10.0)
  }

  /** The rounding contract pins the result down: it is the only value with one
      decimal place within the rounding window of x. */
  lemma RoundToTenthUnique(x: real, y: real)
    requires IsTenth(y)
    requires 0.0 <= x ==> x - 0.05 < y <= x + 0.05
    requires x < 0.0 ==> x - 0.05 <= y < x + 0.05
    ensures y == RoundToTenth(x)
  {
    var r := RoundToTenth(x);
    var a, b := (y * 10.0).Floor, (r * 10.0).Floor;
    assert a as real == y * 10.0 && b as real == r * 10.0;
    assert -1.0 < (a - b) as real < 1.0;
  }

  /** A value that already has one decimal place is left unchanged. */
  lemma RoundToTenthIdempotent(x: real)
    requires IsTenth(x)
    ensures RoundToTenth(x) == x
  {
    RoundToTenthUnique(x, x);
  }

  /** Rounding down to an integer keeps order. */
  lemma FloorMonotone(a: real, b: real)
    requires a <= b
    ensures a.Floor <= b.Floor
  {
    assert a.Floor as real <= a && b < b.Floor as real + 1.0;
  }

  /** Rounding keeps order. */
  lemma RoundToTenthMonotone(x1: real, x2: real)
    requires x1 <= x2
    ensures RoundToTenth(x1) <= RoundToTenth(x2)
  {
    if 0.0 <= x1 {
      FloorMonotone(x1 * 10.0 + 0.5, x2 * 10.0 + 0.5);
    } else if x2 < 0.0 {
      FloorMonotone(-x2 * 10.0 + 0.5, -x1 * 10.0 + 0.5);
    } else {
      FloorMonotone(0.0, -x1 * 10.0 + 0.5);
    }
  }

  // ---------------------------------------------------------------------------
  // calculateUserBMI
  // ---------------------------------------------------------------------------

  /** What the calculation hands back: the rounded BMI and its category. */
  datatype BmiResult = BmiResult(bmiValue: real, matchedCategory: Category)

  /** Computes the BMI for the given unit system, rounds it to one decimal and
      classifies the rounded value. */
  function CalculateUserBMI(weight: real, height: real, unit: string := Metric): (r: BmiResult)
    requires height != 0.0
    ensures IsTenth(r.bmiValue)
    ensures var raw := RawBmi(weight, height, unit);
      0.0 <= raw ==> raw - 0.05 < r.bmiValue <= raw + 0.05
    ensures var raw := RawBmi(weight, height, unit);
      raw < 0.0 ==> raw - 0.05 <= r.bmiValue < raw + 0.05
    ensures r.matchedCategory in Categories
    ensures TableLow <= r.bmiValue < TableHigh ==> Contains(r.matchedCategory, r.bmiValue)
    ensures !(TableLow <= r.bmiValue < TableHigh) ==> r.matchedCategory.name == "Normal"
  {
    var bmiNumeric := RoundToTenth(RawBmi(weight, height, unit));
    BmiResult(bmiNumeric, Classify(bmiNumeric))
  }

  /** With the same height and unit, a heavier person is never placed in a
      lower category, for non-negative weights whose raw BMI stays below the
      point where rounding reaches 1000. */
  lemma CalculateMonotoneInWeight(w1: real, w2: real, height: real, unit: string)
    requires height != 0.0
    requires 0.0 <= w1 <= w2
    requires RawBmi(w2, height, unit) < 999.95
    ensures ClassifyIndex(CalculateUserBMI(w1, height, unit).bmiValue)
         <= ClassifyIndex(CalculateUserBMI(w2, height, unit).bmiValue)
  {
    var v1, v2 := CalculateUserBMI(w1, height, unit).bmiValue, CalculateUserBMI(w2, height, unit).bmiValue;
    RawBmiSign(w1, height, unit);
    RawBmiMonotoneInWeight(w1, w2, height, unit);
    RoundToTenthMonotone(RawBmi(w1, height, unit), RawBmi(w2, height, unit));
    assert v2 < TableHigh by {
      var n := (v2 * 10.0).Floor;
      assert n as real == v2 * 10.0;
      assert n as real < 9999.5;
    }
    ClassifyMonotone(v1, v2);
  }

  /** A raw BMI below -0.05 (a negative weight) or of at least 999.95 rounds
      outside the table and falls back to "Normal". */
  lemma CalculateOutOfRangeIsNormal(weight: real, height: real, unit: string)
    requires height != 0.0
    requires RawBmi(weight, height, unit) < -0.05 || 999.95 <= RawBmi(weight, height, unit)
    ensures CalculateUserBMI(weight, height, unit).matchedCategory == Categories[NormalIndex]
  {
    var raw := RawBmi(weight, height, unit);
    var v := RoundToTenth(raw);
    if 999.95 <= raw {
      assert 1000.0 <= v by {
        var n := (v * 10.0).Floor;
        assert n as real == v * 10.0;
        assert 9999.5 < n as real;
      }
    }
  }

  /** A raw BMI of exactly 24.95 lies halfway between 24.9 and 25.0; it rounds
      up to 25.0 and is "Overweight", not "Normal". */
  lemma CalculateRoundingTie()
    ensures CalculateUserBMI(24.95, 100.0).bmiValue == 25.0
    ensures CalculateUserBMI(24.95, 100.0).matchedCategory.name == "Overweight"
  {
    assert RawBmi(24.95, 100.0) == 24.95;
    RoundToTenthUnique(24.95, 25.0);
    assert Contains(Categories[4], 25.0);
  }

  /** Worked examples: 70 kg at 175 cm, 50 kg at 180 cm, 154 lb at 69 in. */
  lemma CalculateExamples()
    ensures CalculateUserBMI(70.0, 175.0).bmiValue == 22.9
    ensures CalculateUserBMI(70.0, 175.0).matchedCategory.name == "Normal"
    ensures CalculateUserBMI(50.0, 180.0).bmiValue == 15.4
    ensures CalculateUserBMI(50.0, 180.0).matchedCategory.name == "Very severely underweight"
    ensures CalculateUserBMI(154.0, 69.0, "imperial").bmiValue == 22.7
    ensures CalculateUserBMI(154.0, 69.0, "imperial").matchedCategory.name == "Normal"
  {
    assert RawBmi(70.0, 175.0) == 70.0 / (1.75 * 1.75);
    RoundToTenthUnique(RawBmi(70.0, 175.0), 22.9);
    assert Contains(Categories[3], 22.9);
    assert RawBmi(50.0, 180.0) == 50.0 / (1.8 * 1.8);
    RoundToTenthUnique(RawBmi(50.0, 180.0), 15.4);
    assert Contains(Categories[0], 15.4);
    assert RawBmi(154.0, 69.0, "imperial") == 154.0 / 4761.0 * 703.0;
    RoundToTenthUnique(RawBmi(154.0, 69.0, "imperial"), 22.7);
    assert Contains(Categories[3], 22.7);
  }
}
