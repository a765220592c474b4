# EZInterval core in Dafny

A model of `include/ez/interval.hpp` from EZInterval, a header-only C++ library
for mathematical intervals whose two ends are each open or closed, with lazy
stepped iteration over the integers they contain. The element type `T` is
`int`; the template flags `LOpen` and `ROpen` become the boolean fields
`lopen` and `ropen` of one datatype.

- `cpp_int.dfy` — module `CppInt`: the C++ integer quotient (rounded toward
  zero), since Dafny's `/` is Euclidean.
- `interval.dfy` — module `Intervals`: `less_than_helper`, `basic_interval`
  (`empty`, `operator bool`, `contains`, `diameter`, `midpoint`, `radius`, the
  relational operators through the `*_helper` structs), `operator|`, and the
  `interval[a](b)` builder (`interval_factory`, `lower_bound`). The exception
  `empty_interval` is the `Err` case of a `Result`.
- `interval_sets.dfy` — module `IntervalSets`: the same intervals read as
  sets of real numbers (`Within`). The header is generic over ordered number
  types and its relations are exact only on a dense order, so the exactness
  lemmas are stated over the reals; the contracts in `Intervals` state what
  holds over the integers.
- `iterator.dfy` — module `Iterators`: `const_interval_iterator` as a class
  with a mutable `value` and a constant `step`; its `++`, `--`, `+=`, `-=`
  change the object in place.
- `stepped.dfy` — module `Stepping`: `sentinel_helper`, `stepped_interval`
  (`begin`, `end`, `rbegin`, `rend`, `reverse`), `basic_interval::step`, and two
  range-for loops written as methods over real iterator objects, proved to
  yield exactly the grid points of the interval.
- `scenarios.dfy` — module `IntervalScenarios`: the unit-test scenarios of
  `tests/test/main.cpp` as lemmas.

Notes on reading the code:

- `less_than_helper<true>` is `<=` and `less_than_helper<false>` is `<`; the
  header calls the `<=` flavour "strict". `LessThan(orEqual, …)` is named for
  what it does.
- The doc comments of `operator<` and `operator<=` (lines 383 and 389) have
  "subset" and "proper subset" swapped. The model follows the code: `<` is
  `proper_subset_helper`, `<=` is `subset_helper`.
- The library's proper subset means "inside at both ends"
  (`StrictSubsetIffInsideBothEnds`): `[1,2] < [0,2]` is false although
  `[1,2]` is a subset of `[0,2]` and differs from it.
- Reversing a stepped view of a closed `[a,b]` with step `s` yields a walk
  that starts at `b`. It is the forward walk backwards exactly when `s`
  divides `b - a` (`ReverseWalk`): `[0,9]` by 3 reversed is `9, 6, 3, 0`,
  but `[0,10]` by 3 reversed is `10, 7, 4, 1`.
- `operator|` on disjoint operands returns an empty interval; it raises
  nothing.
- `rend()` carries no static assertion, so a backward walk over a left-open
  interval still yields `lower` (`IterateBackward` does not require a closed
  lower end, as the source does not).

## Model

| member | source | states |
|---|---|---|
| `CppInt.Quot` | include/ez/interval.hpp:361-365 | the C++ quotient: remainder smaller than the divisor and with the sign of the dividend |
| `CppInt.QuotUnique` | include/ez/interval.hpp:361-365 | those three properties determine the quotient |
| `CppInt.QuotOfNonNegative` | include/ez/interval.hpp:29-32 | on a non-negative dividend and positive divisor the C++ and Euclidean quotients agree |
| `Intervals.LessThan` | include/ez/interval.hpp:43-61 | `<=` when the flag is set, `<` otherwise |
| `Intervals.Empty` | include/ez/interval.hpp:337-340 | `upper < lower` when both ends are closed, `upper <= lower` when one is open |
| `Intervals.NonEmpty` | include/ez/interval.hpp:342-345 | a true interval has ordered bounds (strictly when an end is open); a false one contains no integer |
| `Intervals.Contains` | include/ez/interval.hpp:377-381 | `lower < v` or `lower <= v` by the left flag, `v < upper` or `v <= upper` by the right flag |
| `Intervals.Diameter` | include/ez/interval.hpp:347-352 | `empty_interval` exactly when empty; otherwise the non-negative distance of the bounds, positive with an open end |
| `Intervals.Midpoint` | include/ez/interval.hpp:354-365 | `empty_interval` exactly when empty; otherwise a value between the bounds whose double misses `lower + upper` by at most one, toward zero |
| `Intervals.Radius` | include/ez/interval.hpp:367-375 | `empty_interval` exactly when empty; otherwise half the diameter rounded down |
| `Intervals.Subset` | include/ez/interval.hpp:89-102 | `<=`: every integer of the left operand is in the right one; a non-empty subset has a non-empty superset |
| `Intervals.ProperSubset` | include/ez/interval.hpp:63-76 | `<` as written: implies `<=`, and a non-empty left operand differs from the right one at both ends |
| `Intervals.StrictSubset` | include/ez/interval.hpp:63-76 | `<` corrected: exactly the as-written test minus the pairs that are `==` |
| `Intervals.Superset` | include/ez/interval.hpp:104-113 | `>=`: every integer of the right operand is in the left one |
| `Intervals.ProperSuperset` | include/ez/interval.hpp:78-87 | `>` as written: implies `>=` |
| `Intervals.StrictSuperset` | include/ez/interval.hpp:78-87 | `>` corrected: exactly the as-written test minus the pairs that are `==` |
| `Intervals.Equal` | include/ez/interval.hpp:115-127 | `==`: holds of identical values, equal intervals contain the same integers, a non-empty interval equals only itself |
| `Intervals.NotEqual` | include/ez/interval.hpp:413-417 | `!=`: the values differ and at least one is non-empty |
| `Intervals.Intersect` | include/ez/interval.hpp:460-468 | intersection on equal flags: same flags, contains exactly the common integers, a subset of both operands |
| `Intervals.LowerBound.OpenUpper` | include/ez/interval.hpp:478-488 | `lb(u)`: keeps the lower bound and its flag, upper end open at `u` |
| `Intervals.LowerBound.ClosedUpper` | include/ez/interval.hpp:490-500 | `lb[u]`: keeps the lower bound and its flag, upper end closed at `u` |
| `Intervals.OpenLower` | include/ez/interval.hpp:510-513 | `interval(a)`: lower end open at `a` |
| `Intervals.ClosedLower` | include/ez/interval.hpp:515-518 | `interval[a]`: lower end closed at `a` |
| `IntervalSets.ContainsIsWithin` | include/ez/interval.hpp:377-381 | `contains` agrees with the bracket notation read over the reals |
| `IntervalSets.EmptyIffNoPoint` | include/ez/interval.hpp:337-340 | `empty()` exactly when no real number lies in the interval |
| `IntervalSets.SubsetIffInclusion` | include/ez/interval.hpp:89-102 | `<=` exactly when every real point of the left operand lies in the right one |
| `IntervalSets.SupersetIffInclusion` | include/ez/interval.hpp:104-113 | `>=` exactly when every real point of the right operand lies in the left one |
| `IntervalSets.SubsetAntisymmetric` | include/ez/interval.hpp:89-127 | `a <= b && b <= a` exactly when `a == b`, for all flags and empty intervals too |
| `IntervalSets.EqualIffSamePoints` | include/ez/interval.hpp:115-127 | `==` exactly when the two intervals have the same real points |
| `IntervalSets.EqualIsEquivalence` | include/ez/interval.hpp:407-417 | `==` is reflexive, symmetric and transitive |
| `IntervalSets.IntersectIsMeet` | include/ez/interval.hpp:460-468 | the intersection has exactly the real points common to both operands |
| `IntervalSets.IntersectProperties` | include/ez/interval.hpp:460-468 | intersection is commutative and gives an empty interval for operands with no common point |
| `IntervalSets.ProperSubsetOfEqualEmpties` | include/ez/interval.hpp:72-74 | as written, `[10,0] < [7,3]` holds although both are empty and `==` |
| `IntervalSets.StrictSubsetIffInsideBothEnds` | include/ez/interval.hpp:63-76 | corrected `<` exactly when the left operand is included and the right one reaches beyond it below and above |
| `IntervalSets.StrictSubsetIsStrictOrder` | include/ez/interval.hpp:63-76 | corrected `<` is irreflexive, asymmetric and transitive |
| `IntervalSets.ProperSupersetOfEqualEmpties` | include/ez/interval.hpp:78-87 | as written, `[7,3] > [10,0]` holds although both are empty and `==` |
| `IntervalSets.StrictSupersetIsStrictOrder` | include/ez/interval.hpp:78-87 | corrected `>` is the converse of corrected `<`, irreflexive, asymmetric and transitive |
| `Iterators.IntervalIterator.Default` | include/ez/interval.hpp:143-146 | default iterator: value and step zero |
| `Iterators.IntervalIterator.constructor` | include/ez/interval.hpp:149-152 | iterator at `value` moving by `step` |
| `Iterators.IntervalIterator.Current` | include/ez/interval.hpp:160-165 | `operator*` reads the current value |
| `Iterators.IntervalIterator.At` | include/ez/interval.hpp:228-230 | `operator[](n)` as the value `n` steps ahead, without moving |
| `Iterators.IntervalIterator.Increment` | include/ez/interval.hpp:167-170 | `++it` adds the step to the value |
| `Iterators.IntervalIterator.PostIncrement` | include/ez/interval.hpp:172-176 | `it++` returns a copy of the old position and adds the step |
| `Iterators.IntervalIterator.Decrement` | include/ez/interval.hpp:178-181 | `--it` subtracts the step |
| `Iterators.IntervalIterator.PostDecrement` | include/ez/interval.hpp:183-187 | `it--` returns a copy of the old position and subtracts the step |
| `Iterators.IntervalIterator.AdvanceBy` | include/ez/interval.hpp:199-202 | `it += n` moves to `At(n)` |
| `Iterators.IntervalIterator.Plus` | include/ez/interval.hpp:204-208 | `it + n` is a fresh copy at `At(n)` with the same step; `it` stays |
| `Iterators.PlusLeft` | include/ez/interval.hpp:210-215 | `n + it` is a fresh copy at `it.At(n)` with the same step |
| `Iterators.IntervalIterator.RetreatBy` | include/ez/interval.hpp:217-220 | `it -= n` moves to `At(-n)` |
| `Iterators.IntervalIterator.Minus` | include/ez/interval.hpp:222-226 | `it - n` is a fresh copy at `At(-n)` with the same step |
| `Iterators.Same` | include/ez/interval.hpp:189-192 | `==` holds exactly when the two iterators dereference to the same value |
| `Iterators.NotSame` | include/ez/interval.hpp:194-197 | `!=` holds exactly when one iterator is before the other |
| `Iterators.Before` | include/ez/interval.hpp:232-235 | `<` never holds at one position; when neither `<` nor `==` holds, the other value is smaller |
| `Iterators.BeforeOrSame` | include/ez/interval.hpp:237-240 | `<=` is `<` or `==` |
| `Iterators.After` | include/ez/interval.hpp:242-245 | `a > b` is `b < a` |
| `Iterators.AfterOrSame` | include/ez/interval.hpp:247-250 | `a >= b` is `b <= a` |
| `Iterators.ComparisonsAgree` | include/ez/interval.hpp:189-250 | exactly one of `<`, `==`, `>` holds; `!=` negates `==`; two iterators at one position, whatever their steps, compare alike against every third iterator |
| `Iterators.PlusCommutes` | include/ez/interval.hpp:204-215 | `it + n == n + it`, both with the step of `it` |
| `Iterators.MovesUndo` | include/ez/interval.hpp:167-226 | `++` then `--`, and `+= n` then `-= n`, restore the position |
| `Iterators.AdvanceIsRepeatedIncrement` | include/ez/interval.hpp:167-202 | `+= n` lands where `n` increments do |
| `Stepping.Sentinel` | include/ez/interval.hpp:21-41 | the stop value is on the grid `lower + k * step` |
| `Stepping.SentinelUpClosed` | include/ez/interval.hpp:35-41 | step > 0, closed end: the first grid point above `upper`, `(upper - lower) / step + 1` steps from `lower` |
| `Stepping.SentinelUpOpen` | include/ez/interval.hpp:26-33 | step > 0, open end: the first grid point at or above `upper` |
| `Stepping.SentinelDownClosed` | include/ez/interval.hpp:35-41 | step < 0, closed end: the first grid point below `upper` |
| `Stepping.IntendedSentinel` | include/ez/interval.hpp:26-33 | the open-end formula corrected for a negative step; on the grid, and equal to the as-written stop value for a positive step or a closed end |
| `Stepping.IntendedSentinelDownOpen` | include/ez/interval.hpp:26-33 | corrected, step < 0, open end: the first grid point at or below `upper` |
| `Stepping.SteppedInterval.Reverse` | include/ez/interval.hpp:269-272 | bounds and flags swapped, step negated |
| `Stepping.SteppedInterval.BeginValue` | include/ez/interval.hpp:274-277 | `*begin()` is `lower`; a left-open view has none |
| `Stepping.SteppedInterval.EndValue` | include/ez/interval.hpp:279-281 | `*end()` is the sentinel, on the grid |
| `Stepping.SteppedInterval.RBeginValue` | include/ez/interval.hpp:283-287 | `*rbegin()` is one step below the sentinel, on the grid; a right-open view has none |
| `Stepping.SteppedInterval.REndValue` | include/ez/interval.hpp:289-291 | `*rend()` is one step beyond `lower` |
| `Stepping.SteppedInterval.Begin` | include/ez/interval.hpp:274-277 | a fresh iterator at `BeginValue` moving by the step |
| `Stepping.SteppedInterval.End` | include/ez/interval.hpp:279-281 | a fresh iterator at `EndValue` moving by the step |
| `Stepping.SteppedInterval.RBegin` | include/ez/interval.hpp:283-287 | a fresh iterator at `RBeginValue` moving by the negated step |
| `Stepping.SteppedInterval.REnd` | include/ez/interval.hpp:289-291 | a fresh iterator at `REndValue` moving by the negated step |
| `Stepping.StepBy` | include/ez/interval.hpp:419-424 | `step(s)` keeps bounds and flags and takes the step |
| `Stepping.EndOnGrid` | include/ez/interval.hpp:279-281 | on a walkable view the sentinel lies exactly `Count` steps from `lower` |
| `Stepping.Iterate` | include/ez/interval.hpp:274-281 | a range-for loop from `begin()` while `!= end()`, when `end()` lies `n` steps from `lower`, yields `lower + k * step` for `k < n`; on a walkable view that is `Walk` |
| `Stepping.IterateBackward` | include/ez/interval.hpp:283-291 | a loop from `rbegin()` to `rend()` yields the forward walk backwards |
| `Stepping.WalkMembers` | include/ez/interval.hpp:21-41 | the forward walk visits exactly the grid points that the interval contains |
| `Stepping.WalkLength` | include/ez/interval.hpp:21-41 | closed end: the last value is at most `upper` and one more step passes it; open end: the last value is below `upper` and one more step reaches it |
| `Stepping.WideStepYieldsLower` | include/ez/interval.hpp:21-41 | a step wider than a closed interval yields `lower` alone |
| `Stepping.ReverseInvolutive` | include/ez/interval.hpp:269-272 | `reverse().reverse()` is the original view |
| `Stepping.ReverseWalk` | include/ez/interval.hpp:442-444 | reversing `step(s)` of a closed interval walks down from `upper` as many times; it is the forward walk backwards exactly when `s` divides `upper - lower`, so always for the unit step |
| `Stepping.UnitStepEndpoints` | include/ez/interval.hpp:426-440 | `basic_interval`'s own `end()` is `upper + 1` (closed) or `upper` (open), `rbegin()` is `upper`, `rend()` is `lower - 1` |
| `IntervalScenarios.EmptyScenarios` | tests/test/main.cpp:20-39 | the emptiness table of the tests |
| `IntervalScenarios.EqualityScenarios` | tests/test/main.cpp:41-53 | the equality table of the tests, including `[1,0] == [5,-3)` |
| `IntervalScenarios.CommonPropertyScenarios` | tests/test/main.cpp:69-89 | `(-6,9]` gives 15, 1, 7; `(1,0]` raises `empty_interval` |
| `IntervalScenarios.IntersectionScenarios` | tests/test/main.cpp:92-119 | the intersection cases of the tests, disjoint operands giving an empty interval |
| `IntervalScenarios.ContainsScenarios` | tests/test/main.cpp:272-300 | membership around the bounds for all four flag pairs |
| `IntervalScenarios.SubsetScenarios` | tests/test/main.cpp:302-382 | the subset table of the tests |
| `IntervalScenarios.SentinelScenarios` | tests/test/main.cpp:143-212 | the `end()` values of the iterator tests |
| `IntervalScenarios.WalkScenarios` | tests/test/main.cpp:214-260 | the range-for outputs of the tests, `'0'` to `'9'` included |
| `IntervalScenarios.ReversedOpenEndOvershoots` | tests/test/main.cpp:262-269 | reversing `(1,8]` gives `end()` at -1, nine steps from `begin()`, so the loop yields 8 down to 0 |
| `IntervalScenarios.ReversedOpenEndIntended` | tests/test/main.cpp:262-269 | with the corrected formula `end()` is 1, seven steps from `begin()`, and the loop yields 8 down to 2 as the test expects |
| `IntervalScenarios.EmptyWalkMissesEnd` | include/ez/interval.hpp:274-281 | on `[10,0]` the sentinel lies below `begin()` |

## Findings

| source | as written | input that shows it | evidently intended | confidence | as-written member | corrected member |
|---|---|---|---|---|---|---|
| include/ez/interval.hpp:72-74 | the bound comparison of `proper_subset_helper` is also tried when the left operand is empty | `[10,0] < [7,3]` is true, while `[10,0] == [7,3]` is also true (both empty) | `<` never holds between intervals that are `==` | not executed; high that the input gives this result, medium that it is unintended | `Intervals.ProperSubset`, `IntervalSets.ProperSubsetOfEqualEmpties` | `Intervals.StrictSubset`, `IntervalSets.StrictSubsetIsStrictOrder` |
| include/ez/interval.hpp:85 | `proper_superset_helper` calls the as-written `proper_subset_helper` with the operands swapped, so it inherits the defect | `[7,3] > [10,0]` is true, while `[7,3] == [10,0]` is also true | `>` never holds between intervals that are `==` | not executed; high that the input gives this result, medium that it is unintended | `Intervals.ProperSuperset`, `IntervalSets.ProperSupersetOfEqualEmpties` | `Intervals.StrictSuperset`, `IntervalSets.StrictSupersetIsStrictOrder` |
| include/ez/interval.hpp:30 | the open-end stop value rounds with `step - 1`, which rounds the wrong way when the step is negative | `interval(1)[8].reverse()` has `end()` at -1, so its loop yields `876543210`; tests/test/main.cpp:268 expects `8765432` | the first grid point at or below the open bound, `8765432` here | not executed; high that the code yields this, high that it is unintended (the test says so) | `Stepping.Sentinel`, `IntervalScenarios.ReversedOpenEndOvershoots` | `Stepping.IntendedSentinel`, `Stepping.IntendedSentinelDownOpen`, `IntervalScenarios.ReversedOpenEndIntended` |

## Left out

- Floating point: `midpoint<double>`, `radius<double>`, intervals of `double` and the `is_exact` static assertion of `step`. Everything is on `int`.
- C++ type plumbing: `create_interval`'s `std::common_type` conversions, rvalue and move overloads, the `std::ptrdiff_t` casts, copy and assignment of iterators, and integer overflow. `int` is unbounded.
- The type aliases `open_interval`, `closed_interval`, `lopen_interval`, `ropen_interval`: each is the datatype constructor with fixed flags.
- `operator<<` to a stream: output formatting is I/O.
- `operator->` of the iterator: it gives a pointer to the value that `Current` returns.
- The header defines no iterator distance `it2 - it1`, so none is modelled.
- `Intervals.Intersect`: requires equal flags, because the template of `operator|` accepts no other pair.
- Descending walks over a view with an open upper end (obtained by reversing a left-open interval, e.g. `(1,8]`): the open-end sentinel formula is right only for a positive step, and yields a stop value past the bound (see "## Findings"). `Iterate` covers such a loop whenever it stops, but `Walkable` excludes these views, so the membership and length lemmas do not cover them, and `end()` keeps the as-written formula. `IntendedSentinel` is used only by the finding.
- Walks of views with `lower > upper` and a positive step: the sentinel can fall below `begin()` and the C++ loop never ends (`EmptyWalkMissesEnd`). `Walkable` requires `lower <= upper`.
- A step of zero: `end()` divides by it. The sentinel requires a non-zero step.
- `direct_iterator`, `tests/interval.cpp`, the console programs in `examples/` and `tests/ostream.hpp`: none is part of this header.
