# Employee generator and statistics: a Dafny model of main.js

`main(dtoIn)` of main.js does two things. First it generates `count` random
employee records whose ages lie in the range `age.min`..`age.max`. Each record has
a gender, a name and surname that match the gender, a workload of 10, 20, 30 or 40,
and a birth date. Then it computes statistics over those records:
- the total;
- a counter for each workload;
- the average age (to one decimal), and the minimum, maximum and median age (floored);
- the median workload (rounded);
- the average workload of the women (to one decimal);
- a copy of the records sorted by workload.

The model has one module per part of the program:

- `Wrappers` (wrappers.dfy): the `Result` type that stands for "returns or throws".
- `JsValues` (js_values.dfy) models the JavaScript values a request is made of.
  This includes numbers with NaN and the infinities, truthiness, property access
  and `<`. It also holds `parseDtoIn`, once as written and once corrected (see
  "## Findings").
- `Employees` (employees.dfy): the record, the constant tables of main.js:21-34, and
  `getAgeFromBirthdate` with the birth-time computation that it inverts.
- `Generator` (generator.dfy) covers `getRandomFromArray`,
  `generateSingleEmployee` and `generateEmployeeData`. `Math.random()` is a stream
  `rnd: nat -> Fraction` of values in [0, 1). Record `i` reads `rnd(5i)` to
  `rnd(5i + 4)`, in the source's order: gender, name, surname, workload, age. The
  loop that pushes the records is a method with its invariant. The contracts
  state:
  - which record each position holds;
  - that every record is well formed with an age in the range;
  - the converse: every well-formed record with an age in the range is produced
    by some stream.
- `Numeric` (numeric.dfy) covers the sum of `reduce`, `Math.min`/`Math.max`, the
  sorted copy, `getMedian`, `Math.round`, `Math.floor` and `roundToOneDecimal`.
- `Statistics` (statistics.dfy) covers the one-pass `aggregateEmployeeData`
  (a method with loop invariants) and the stable sort by workload.
  `getEmployeeStatistics` is a method stated against the specification functions.
- `Pipeline` (pipeline.dfy): `main`, which takes the two clock readings of the
  program as parameters.

Three numeric choices of main.js that the model keeps:
- `Math.round` (main.js:272) rounds halves towards +infinity.
- The year is 365 days (main.js:21).
- The minimum, maximum and median ages are floored (main.js:265-267).

## Model

| member | source | states |
|---|---|---|
| JsValues.Get | main.js:47-48 | a property read yields the own property's value when the object has it, and undefined otherwise |
| JsValues.ParseDtoInAsWritten | main.js:42-66 | the validator as written. A non-object throws the first error. A count that is not a positive integer throws the second. An age without numeric `min`/`max` throws the third. Past those checks, the range error is thrown if and only if `min < 0` or `max < min` holds in JavaScript's `<`, and otherwise the request is accepted. An accepted request returns exactly the object's count and bounds. |
| JsValues.ParseDtoIn | main.js:42-66 | the corrected validator: a request the validator as written refuses gets the same error; a request it accepts with a non-finite bound gets the age error; an accepted request has `count > 0` and `0 <= min <= max` on finite numbers, and agrees with the validator as written |
| JsValues.ParseDtoInAcceptsExactlyValid | main.js:43-65 | the corrected validator accepts if and only if the input is an object with a positive integer count and finite numeric bounds with 0 <= min <= max; it then returns exactly those numbers |
| JsValues.ZeroCountRejected | main.js:50-52 | a count of 0 is refused with the count error |
| JsValues.ReversedRangeRejected | main.js:61-63 | `max < min` is refused with the range error |
| JsValues.NaNBoundsPassAsWritten | main.js:54-63 | NaN bounds pass the validator as written; the corrected one refuses them |
| JsValues.InfiniteMaximumPassesAsWritten | main.js:54-63 | an infinite maximum passes the validator as written; the corrected one refuses it |
| Employees.AgeFromBirthdate | main.js:146-150 | the age in years times the year length is the time elapsed since the birth, and it is non-negative exactly when the birth is not after `today` |
| Employees.BirthTimestamp | main.js:106 | the birth time computed from an age gives back that age when measured at the same `today` |
| Generator.RandomIndex | main.js:75 | `Math.floor(Math.random() * length)` is a valid index |
| Generator.GetRandomFromArray | main.js:74-77 | the picked value is an element of the array |
| Generator.IndexOfFraction | main.js:75 | every index is picked by some value of `Math.random()` |
| Generator.EveryElementReachable | main.js:74-77 | every element of the array is picked by some value of `Math.random()` |
| Generator.DrawAge | main.js:103 | the drawn age lies in [minAge, maxAge], and below maxAge when the range is not a single point |
| Generator.EveryAgeReachable | main.js:103 | every age of that range is drawn by some value of `Math.random()` |
| Generator.GenerateSingleEmployee | main.js:87-116 | the record has a gender from GENDERS, a name and a surname from that gender's tables and a workload from WORKLOADS; its age at the same `today` lies in the range |
| Generator.EveryWellFormedRecordCanBeGenerated | main.js:87-116 | every well-formed record whose age lies in the range is produced by some stream of `Math.random()` values |
| Generator.GenerateRecords | main.js:128-136 | the loop pushes exactly `count` records. Record `i` is the single-record generator applied to draws `5i`..`5i+4`. All records are well formed, with ages in the range. |
| Generator.GenerateEmployeeData | main.js:125-137 | a refused request yields the validator's error. Otherwise the result is `count` records, each as `generateSingleEmployee` makes it, well formed, with ages in the range. |
| Numeric.Sum | main.js:254 | the left-to-right `reduce` sum; its bounds are stated by SumAtLeast and SumAtMost |
| Numeric.SumAtLeast | main.js:254 | a lower bound on every element, times the length, bounds the sum from below |
| Numeric.SumAtMost | main.js:254 | an upper bound on every element, times the length, bounds the sum from above |
| Numeric.MinOf | main.js:260 | `Math.min(...ages)` is an element of the list and at most every element |
| Numeric.MaxOf | main.js:261 | `Math.max(...ages)` is an element of the list and at least every element |
| Numeric.MeanWithinBounds | main.js:254-255 | the average of values in [lo, hi] lies in [lo, hi] |
| Numeric.MeanBetweenMinAndMax | main.js:254-261 | the average age lies between the minimum and the maximum age |
| Numeric.SortAscending | main.js:218 | the sorted copy is ascending and a permutation of the input |
| Numeric.SortedPermutationUnique | main.js:218 | any two ascending permutations of the same list are equal, so the sorted copy does not depend on the sorting algorithm |
| Numeric.Median | main.js:216-226 | the median of an empty list is 0; otherwise it lies between the minimum and the maximum |
| Numeric.MedianOfSortedArrangement | main.js:217-225 | for a non-empty list, the median is the middle element of any ascending arrangement when the length is odd, and the mean of the two middle elements when it is even |
| Numeric.MedianOfAscending | main.js:218-225 | a list already ascending gives its median directly: the middle element, or the mean of the two middle ones |
| Numeric.MedianIgnoresOrder | main.js:216-226 | lists with the same elements have the same median |
| Numeric.Round | main.js:272 | `Math.round(x)` is the integer n with n - 1/2 <= x < n + 1/2 |
| Numeric.Floor | main.js:265-267 | `Math.floor(x)` is the integer n with n <= x < n + 1 |
| Numeric.RoundToOneDecimal | main.js:158-160 | the result is a multiple of 0.1 within 0.05 of the input; a tie goes to the value of larger magnitude |
| Numeric.NearestTenths | main.js:159 | for a non-negative value, the count of tenths `toFixed(1)` writes is within half a tenth of it, ties up |
| Numeric.MedianOfIntegersIsHalfInteger | main.js:271 | the median of integer workloads is a whole number or lies halfway between two |
| Statistics.Workloads | main.js:188 | the list of workloads has one entry per record, in input order |
| Statistics.Ages | main.js:194-196 | the list of ages has one entry per record: its age at the clock reading |
| Statistics.WomenWorkloads | main.js:190-192 | the women's workloads hold at most one workload per record; their exact content is stated by WomenWorkloadsAreFemaleSubsequence |
| Statistics.WomenWorkloadsAllOrNone | main.js:190-192 | when every record is female the women's workloads are all the workloads, and when none is female they are empty |
| Statistics.CountWorkload | main.js:183-186 | a counter never exceeds the number of records |
| Statistics.CountIsMultiplicity | main.js:183-188 | each counter equals the number of times its workload occurs in the collected workloads |
| Statistics.CountersAccountForRecords | main.js:183-186 | the four counters sum to at most the number of records; they sum to exactly that number if and only if every workload is 10, 20, 30 or 40 |
| Statistics.WomenWorkloadsAreFemaleSubsequence | main.js:190-192 | the women's workloads are exactly the workloads at the female records, in input order |
| Statistics.AggregateEmployeeData | main.js:169-208 | the one-pass loop yields the four counters, all workloads, the women's workloads and the ages, each equal to its specification function |
| Statistics.InsertByWorkload | main.js:284-286 | inserting into a list sorted by workload keeps it sorted and adds exactly the inserted record |
| Statistics.SortByWorkload | main.js:284-286 | the sorted copy is ascending by workload and a permutation of the records |
| Statistics.InsertKeepsEqualWorkloadOrder | main.js:284-286 | an insertion puts the record ahead of the records of its workload and moves no other record relative to those of its workload |
| Statistics.SortByWorkloadIsStable | main.js:284-286 | for each workload, the sorted copy lists the records of that workload in input order (a stable sort) |
| Statistics.SameWorkloadOrderEqual | main.js:284-286 | two lists ascending by workload that agree on the order of the records of each workload are equal |
| Statistics.StableSortIsUnique | main.js:284-286 | any stable ascending arrangement of the records equals the sorted copy, whichever algorithm the engine uses |
| Statistics.SortedIsUnchanged | main.js:284-286 | records already in workload order are left as they are |
| Statistics.InsertAfterSmaller | main.js:284-286 | a record with a workload above all others of a sorted list goes last |
| Statistics.StableSortExample | main.js:284-286 | workloads 40, 10, 10 sort to the two 10s in input order, then the 40 |
| Statistics.MedianWorkloadIsExact | main.js:271-272 | with every workload in {10, 20, 30, 40}, the median workload is a whole number that `Math.round` leaves unchanged, in [10, 40] when there are records |
| Statistics.MedianWorkloadAsInteger | main.js:271 | the median workload is an integer, 0 for no records and in [10, 40] otherwise |
| Statistics.MedianOfWorkloadList | main.js:216-226 | the median of a non-empty list of workloads from WORKLOADS is an integer in [10, 40] |
| Statistics.MedianOfFourAscending | main.js:221-225 | the median of four ascending values is the mean of the middle two |
| Statistics.MedianOfThreeAscending | main.js:221-222 | the median of three ascending values is the middle one |
| Statistics.MedianWorkloadOfFour | main.js:271-272 | workloads [10, 20, 30, 40] have median workload 25 |
| Statistics.MedianWorkloadOfThree | main.js:271-272 | workloads [10, 20, 30] have median workload 20 |
| Statistics.GetEmployeeStatistics | main.js:234-304 | For no records every statistic is 0 and the sorted copy is empty. Otherwise min/max/median age are the floors of the raw values and so are ordered, and the average age is the rounded mean. The counters are the multiplicities and sum to at most the total. The median workload is the rounded median. The women's average is 0 without women. The sorted copy is an ascending, stable permutation of the input. |
| Pipeline.AgeAdvancesWithClock | main.js:146-150 | an age measured at a later clock reading grows by the elapsed time divided by the year length |
| Pipeline.AgesShiftedByClock | main.js:179-196 | ages generated in [lo, hi] lie, at the statistics' clock reading, in the same range shifted by the elapsed years, and so do their minimum and maximum |
| Pipeline.ExtremesWithinBounds | main.js:260-261 | bounds on every age bound their minimum and maximum |
| Pipeline.GeneratedWorkloads | main.js:183-186 | records with workloads from WORKLOADS are all counted, and their rounded median workload lies in [10, 40] |
| Pipeline.GeneratedRecordStatistics | main.js:14-18 | generated records are all counted; their median workload rounds into [10, 40]; their floored extreme ages lie within the floored, shifted range |
| Pipeline.Run | main.js:14-18 | a refused request yields the validator's error. Otherwise: the total is `count`; the four counters sum to `count`; the median workload lies in [10, 40]; floor(min + shift) <= minAge <= medianAge <= maxAge <= floor(max + shift), where `shift` is the time between the two clock readings in years |

## Left out

- `Math.random()` is a parameter, a stream of values in [0, 1). Its uniform
  distribution is not modelled, nor the fact that two calls differ.
- `new Date()` is read twice (main.js:129 and main.js:179). Each reading is a
  parameter in milliseconds, and the two need not be equal.
- Dates are time values in milliseconds. Several things are not modelled:
  - the round trip through `toISOString()` and `new Date(string)`, which
    truncates to whole milliseconds;
  - the `RangeError` that `toISOString()` throws outside the representable date
    range;
  - the ISO string format of `birthdate`.
- Numbers are exact reals. IEEE-754 double rounding is not modelled. For
  `toFixed(1)` this covers inexact halves such as 0.15 (the double is slightly below it, so the program
  gives 0.1 where the model gives 0.2), the switch to exponential
  notation at 1e21, and the sign of -0.
- `aggregateEmployeeData` compares workloads with `===` and the sort subtracts
  them. Workloads are integers here, so non-numeric workloads that records from
  elsewhere might carry are not modelled. Such records would make the comparator
  return NaN.
- Statistics.InsertByWorkload, Numeric.Insert: the engine's sorting algorithm is
  not modelled. The sorts are insertion-sort functions. `StableSortIsUnique` and
  `SortedPermutationUnique` show that any stable ascending sort gives the same copy.
- `Numeric.Sum` adds left to right, as `reduce` does, but exactly. Its rounding
  errors are not modelled.
- Numeric.MinOf, Numeric.MaxOf: `Math.min(...ages)` and `Math.max(...ages)`
  (main.js:260-261) pass every age as a separate argument. An engine throws a
  `RangeError` once the number of arguments exceeds its limit, so a large enough
  `count` makes `main` throw. The model has no such limit, and
  `Statistics.GetEmployeeStatistics` and `Pipeline.Run` return a result for every
  valid `count`.
- The error messages are not modelled. Each `throw` is one `ParseError` value.
- Generator.GenerateEmployeeData and Pipeline.Run validate with the corrected
  `JsValues.ParseDtoIn`, not with the validator as written that main.js:126
  calls. They differ only for NaN or infinite age bounds. There the program as
  written passes validation, and `toISOString()` (main.js:107) then throws a
  `RangeError` on the invalid date. The model instead returns the age error.
- JsValues.ParseDtoIn: the corrected validator reports non-finite bounds with the
  error for non-numeric bounds. That is the message that says the bounds must be
  numbers.
- JsValues.Get: prototype properties are not modelled. Arrays and other objects
  are a map of own properties.
- Generator.GenerateSingleEmployee and Pipeline.Run: ages are stated for requests
  with `min <= max`. Those are the only requests the corrected validator lets
  through.

## Findings

| source | as written | input that shows it | evidently intended | confidence | as-written member | corrected member |
|---|---|---|---|---|---|---|
| main.js:54-63 | `typeof x !== "number"` accepts NaN and the infinities, and `minAge < 0 \|\| maxAge < minAge` is false whenever NaN takes part, so NaN or infinite bounds pass validation; the generator then draws a NaN or infinite age, and `toISOString()` (main.js:107) throws a `RangeError` instead of the validator's error | `{count: 1, age: {min: NaN, max: NaN}}`, or `{count: 1, age: {min: 0, max: Infinity}}` | refuse bounds that are not finite numbers, as the age message ("must contain numeric min and max") intends | not executed | JsValues.ParseDtoInAsWritten, JsValues.NaNBoundsPassAsWritten | JsValues.ParseDtoIn, JsValues.ParseDtoInAcceptsExactlyValid |
