# BMI calculation and classification

This project models the core of a small BMI calculator, `src/utils/bmiLogic.js`. The file has two parts:

- **Category table (`bmiCategories`).** A constant, ordered list of eight categories. Each has a half-open BMI interval `[min, max)`, a name, a range text and a colour class. The model keeps it as the constant `BmiLogic.Categories: seq<Category>`. It proves that the intervals form a contiguous, ascending partition of `[0, 1000)`. Dafny constants cannot be reassigned, so the table is never modified.
- **`calculateUserBMI`.** It computes the BMI from weight and height:
  - `"metric"` (the default unit): kg and cm, and cm is divided by 100.
  - any other unit string: lb and in, times 703.

  It then rounds the BMI to one decimal. Finally it picks the first table row whose interval contains the rounded value. If no row contains it, it falls back to row 3, "Normal".

All arithmetic uses Dafny's exact `real` numbers, not IEEE doubles. The first-match scan is the recursive function `FindFirst`. It returns the position of the first matching row, and `ClassifyIndex` and `Classify` turn that position into the table row, as JavaScript's `find` does. The category field `label` is called `name`, because `label` is a reserved word in Dafny.

The code departs from its own JSDoc comment (lines 77-83) in two places, and the model follows the code:

- The JSDoc names the units "metric" and "imperial". The code (line 87) sends every string other than `"metric"` to the imperial formula, and so does the model.
- The code does not check the height. A negative height still gives a positive square, so the model requires only `height != 0.0`.

The code returns `bmiValue` as a string (line 104). The model keeps it numeric.

Three declarations carry no contract of their own:
- `BmiLogic.Categories` is the `bmiCategories` table (lines 18-75), row for row.
- `BmiLogic.Contains` is the `find` callback `bmiNumeric >= cat.min && bmiNumeric < cat.max` (line 100).
- `BmiLogic.BmiResult` is the returned object `{ bmiValue, matchedCategory }` (lines 103-106).

## Model

| member | source | states |
|---|---|---|
| BmiLogic.CategoriesPartition | src/utils/bmiLogic.js:18-75 | The table has exactly eight rows. Every row has `min < max`, and each row's `max` equals the next row's `min`. The first `min` is 0 and the last `max` is 1000. Row 3 is "Normal". |
| BmiLogic.PartitionAscending | src/utils/bmiLogic.js:18-75 | In a contiguous partition, an earlier interval ends no later than any later interval starts. |
| BmiLogic.PartitionBounds | src/utils/bmiLogic.js:18-75 | Every interval of a partition of `[lo, hi)` lies inside `[lo, hi)`. |
| BmiLogic.PartitionMatchUnique | src/utils/bmiLogic.js:99-101 | No value lies in two different intervals of a partition, so the first match is the only match. |
| BmiLogic.PartitionNoMatchOutside | src/utils/bmiLogic.js:99-101 | No interval of a partition of `[lo, hi)` contains a value below `lo` or at or above `hi`. |
| BmiLogic.FindFirst | src/utils/bmiLogic.js:99-101 | The scan returns a row that contains `v`, and no earlier row contains it. It returns nothing exactly when no row contains `v`. |
| BmiLogic.PartitionCovers | src/utils/bmiLogic.js:99-101 | In a partition of `[lo, hi)`, the scan finds a row for every `v` with `lo <= v < hi`. This means the table has no gaps. |
| BmiLogic.FindFirstOnCategories | src/utils/bmiLogic.js:99-101 | On the category table, every `v` in `[0, 1000)` has a match, and that match is the only row containing `v`. Every `v` outside the range has no match. |
| BmiLogic.ClassifyIndex | src/utils/bmiLogic.js:99-105 | The result is always a valid row index. For `v` in `[0, 1000)` it is the unique row with `min <= v < max`. Otherwise no row matches and the result is 3 ("Normal"). |
| BmiLogic.Classify | src/utils/bmiLogic.js:99-105 | The matched category is always an element of the table. In range it contains `v`; out of range it is the "Normal" row. |
| BmiLogic.ClassifyLowerNormalBoundary | src/utils/bmiLogic.js:33-46 | 18.5 is the lower boundary of "Normal" and belongs to the higher category: it classifies as "Normal" (row 3), not "Underweight". 18.4 is "Underweight". |
| BmiLogic.ClassifyUpperNormalBoundary | src/utils/bmiLogic.js:40-53 | 25 is the upper boundary of "Normal" and belongs to the higher category: it classifies as "Overweight" (row 4), not "Normal". 24.9 is "Normal". |
| BmiLogic.ClassifyTableEnds | src/utils/bmiLogic.js:18-105 | The value 0 gives row 0 and 999.9 gives row 7. Both 1000 and -0.1 fall back to "Normal". |
| BmiLogic.ClassifyMonotone | src/utils/bmiLogic.js:18-75 | On `[0, 1000)`, if `v1 <= v2`, then the category index of `v1` is at most that of `v2`. |
| BmiLogic.RawBmi | src/utils/bmiLogic.js:84-94 | For `"metric"`, `bmi * height² == 10000 * weight`; this is kg / (cm / 100)². For any other unit, `bmi * height² == 703 * weight`. Height must be non-zero. |
| BmiLogic.RawBmiScales | src/utils/bmiLogic.js:84-94 | The raw BMI is the weight times a positive factor that depends only on height and unit. |
| BmiLogic.RawBmiSign | src/utils/bmiLogic.js:84-94 | The raw BMI is non-negative exactly when the weight is non-negative. |
| BmiLogic.RawBmiMonotoneInWeight | src/utils/bmiLogic.js:84-94 | For a fixed height and unit, a larger weight never gives a smaller raw BMI. |
| BmiLogic.RoundToTenth | src/utils/bmiLogic.js:96 | The result has at most one decimal place. It lies within half a tenth of the input, and halves round away from zero. |
| BmiLogic.RoundToTenthUnique | src/utils/bmiLogic.js:96 | The rounding contract fixes the result: any one-decimal value in the rounding window of `x` equals `RoundToTenth(x)`. |
| BmiLogic.RoundToTenthIdempotent | src/utils/bmiLogic.js:96 | Rounding a value that already has one decimal place leaves it unchanged. |
| BmiLogic.RoundToTenthMonotone | src/utils/bmiLogic.js:96 | Rounding preserves order. |
| BmiLogic.CalculateUserBMI | src/utils/bmiLogic.js:84-107 | The BMI value has one decimal place. It is the raw BMI rounded to the nearest tenth: for a non-negative raw value it lies in `(raw - 0.05, raw + 0.05]`, and for a negative one in `[raw - 0.05, raw + 0.05)`, so halves round away from zero. With `RoundToTenthUnique` this fixes the value. The matched category is an element of the table. It contains the BMI value when that value is in `[0, 1000)`, and is "Normal" otherwise. |
| BmiLogic.CalculateRoundingTie | src/utils/bmiLogic.js:84-101 | A raw BMI of exactly 24.95 (24.95 kg at 100 cm) rounds up to 25.0 and classifies as "Overweight", not "Normal". |
| BmiLogic.CalculateMonotoneInWeight | src/utils/bmiLogic.js:84-101 | With the same height and unit, if `0 <= w1 <= w2` and the raw BMI of `w2` is below 999.95, then `w2` never gets a lower category index than `w1`. |
| BmiLogic.CalculateOutOfRangeIsNormal | src/utils/bmiLogic.js:96-105 | A raw BMI below -0.05 (from a negative weight) or of at least 999.95 rounds outside the table. The result is then the "Normal" row. |
| BmiLogic.CalculateExamples | src/utils/bmiLogic.js:84-105 | 70 kg at 175 cm gives 22.9, "Normal". 50 kg at 180 cm gives 15.4, "Very severely underweight". 154 lb at 69 in (imperial) gives 22.7, "Normal". |

## Left out

- IEEE-754 double arithmetic, including the float behaviour of `toFixed(1)` and `parseFloat`. The model rounds the exact real value, with halves away from zero, as `toFixed` specifies for an exact input. For example, a double such as 24.95 is stored slightly below 24.95 and formats as "24.9". The exact real model rounds it to 25.0.
- Negative zero. A raw value in (-0.05, 0) formats as "-0.0". The model rounds it to 0.0. Both classify as row 0, because JavaScript treats -0 >= 0 as true.
- Division by zero, NaN and Infinity when the height is 0. `RawBmi` and `CalculateUserBMI` require `height != 0.0`. The fallback to "Normal" is modelled only for finite out-of-range values.
- The string conversion `bmiNumeric.toString()` of the result. `BmiResult.bmiValue` stays a real number.
- The contents of `rangeText` and `colorClass`. They are display text and colour tokens, carried through unchanged, and no property is stated about them.
- The user interface that calls `calculateUserBMI` is not part of this model.
