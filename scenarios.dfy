/** The scenarios of the library's unit tests, stated about the model. */
module IntervalScenarios {
  import opened Intervals
  import opened IntervalSets
  import opened Stepping

  /** `[0,0]` is the one empty-looking interval that is not empty; reversed
      bounds are empty under every flag combination. */
  lemma EmptyScenarios()
    ensures NonEmpty(ClosedLower(0).ClosedUpper(0))
    ensures Empty(ClosedLower(0).OpenUpper(0)) && Empty(OpenLower(0).ClosedUpper(0)) && Empty(OpenLower(0).OpenUpper(0))
    ensures NonEmpty(ClosedLower(0).ClosedUpper(1)) && NonEmpty(ClosedLower(0).OpenUpper(1))
    ensures NonEmpty(OpenLower(0).ClosedUpper(1)) && NonEmpty(OpenLower(0).OpenUpper(1))
    ensures Empty(ClosedLower(1).ClosedUpper(0)) && Empty(ClosedLower(1).OpenUpper(0))
    ensures Empty(OpenLower(1).ClosedUpper(0)) && Empty(OpenLower(1).OpenUpper(0))
  {
  }

  /** Equal bounds with different flags differ; two empty intervals are equal. */
  lemma EqualityScenarios()
    ensures Equal(ClosedLower(0).ClosedUpper(3), ClosedLower(0).ClosedUpper(3))
    ensures NotEqual(ClosedLower(0).ClosedUpper(1), ClosedLower(0).OpenUpper(1))
    ensures NotEqual(ClosedLower(0).ClosedUpper(1), OpenLower(0).ClosedUpper(1))
    ensures NotEqual(ClosedLower(0).ClosedUpper(1), OpenLower(0).OpenUpper(1))
    ensures NotEqual(ClosedLower(0).OpenUpper(1), OpenLower(0).ClosedUpper(1))
    ensures NotEqual(ClosedLower(0).OpenUpper(1), OpenLower(0).OpenUpper(1))
    ensures NotEqual(OpenLower(0).ClosedUpper(1), OpenLower(0).OpenUpper(1))
    ensures Equal(ClosedLower(1).ClosedUpper(0), ClosedLower(5).OpenUpper(-3))
  {
  }

  /** `(-6,9]` has diameter 15, midpoint 1 and radius 7; `(1,0]` raises
      `empty_interval` for all three; `[-9,6]` shows the truncation of the
      midpoint toward zero. */
  lemma CommonPropertyScenarios()
    ensures var i := OpenLower(-6).ClosedUpper(9);
      Diameter(i) == Ok(15) && Midpoint(i) == Ok(1) && Radius(i) == Ok(7)
    ensures var e := OpenLower(1).ClosedUpper(0);
      Diameter(e) == Err(EmptyInterval) && Midpoint(e) == Err(EmptyInterval) && Radius(e) == Err(EmptyInterval)
    ensures Midpoint(ClosedLower(-9).ClosedUpper(6)) == Ok(-1)
  {
  }

  /** Intersections of intervals with equal flags, and of disjoint ones. */
  lemma IntersectionScenarios()
    ensures Equal(Intersect(ClosedLower(1).ClosedUpper(3), ClosedLower(0).ClosedUpper(2)), ClosedLower(1).ClosedUpper(2))
    ensures Equal(Intersect(OpenLower(1).ClosedUpper(3), OpenLower(0).ClosedUpper(2)), OpenLower(1).ClosedUpper(2))
    ensures Equal(Intersect(ClosedLower(1).OpenUpper(3), ClosedLower(0).OpenUpper(2)), ClosedLower(1).OpenUpper(2))
    ensures Equal(Intersect(OpenLower(1).OpenUpper(3), OpenLower(0).OpenUpper(2)), OpenLower(1).OpenUpper(2))
    ensures Empty(Intersect(ClosedLower(0).ClosedUpper(1), ClosedLower(3).ClosedUpper(4)))
  {
  }

  /** Membership at and around the bounds of `[0,2]`, `[0,2)`, `(0,2]`, `(0,2)`. */
  lemma ContainsScenarios()
    ensures var a := ClosedLower(0).ClosedUpper(2);
      !Contains(a, -1) && Contains(a, 0) && Contains(a, 1) && Contains(a, 2) && !Contains(a, 3)
    ensures var b := ClosedLower(0).OpenUpper(2);
      !Contains(b, -1) && Contains(b, 0) && Contains(b, 1) && !Contains(b, 2) && !Contains(b, 3)
    ensures var c := OpenLower(0).ClosedUpper(2);
      !Contains(c, -1) && !Contains(c, 0) && Contains(c, 1) && Contains(c, 2) && !Contains(c, 3)
    ensures var d := OpenLower(0).OpenUpper(2);
      !Contains(d, -1) && !Contains(d, 0) && Contains(d, 1) && !Contains(d, 2) && !Contains(d, 3)
  {
  }

  /** The subset table of the tests: `<=`, `>=`, `<`, `>` for eight pairs. */
  lemma SubsetScenarios()
    ensures var a, b := ClosedLower(1).ClosedUpper(2), ClosedLower(0).ClosedUpper(2);
      Subset(a, b) && Superset(b, a) && !ProperSubset(a, b) && !ProperSuperset(b, a)
    ensures var a, b := ClosedLower(1).ClosedUpper(2), ClosedLower(0).ClosedUpper(3);
      Subset(a, b) && Superset(b, a) && ProperSubset(a, b) && ProperSuperset(b, a)
    ensures var a, b := ClosedLower(1).OpenUpper(2), ClosedLower(0).ClosedUpper(2);
      Subset(a, b) && Superset(b, a) && ProperSubset(a, b) && ProperSuperset(b, a)
    ensures var a, b := OpenLower(1).OpenUpper(2), OpenLower(0).OpenUpper(2);
      Subset(a, b) && Superset(b, a) && !ProperSubset(a, b) && !ProperSuperset(b, a)
    ensures var a, b := OpenLower(1).OpenUpper(2), ClosedLower(1).ClosedUpper(2);
      Subset(a, b) && Superset(b, a) && ProperSubset(a, b) && ProperSuperset(b, a)
    ensures var a, b := OpenLower(0).OpenUpper(0), ClosedLower(1).OpenUpper(2);
      Subset(a, b) && Superset(b, a) && ProperSubset(a, b) && ProperSuperset(b, a)
    ensures var a, b := OpenLower(0).ClosedUpper(1), OpenLower(2).OpenUpper(2);
      !Subset(a, b) && !Superset(b, a) && !ProperSubset(a, b) && !ProperSuperset(b, a)
    ensures var a, b := OpenLower(0).OpenUpper(0), OpenLower(2).OpenUpper(2);
      Subset(a, b) && Superset(b, a) && !ProperSubset(a, b) && !ProperSuperset(b, a)
  {
  }

  /** `*end()` for the intervals and steps of the iterator tests. */
  lemma SentinelScenarios()
    ensures var i := ClosedLower(1).ClosedUpper(2);
      StepBy(i, 1).EndValue() == 3 && StepBy(i, 2).EndValue() == 3 && StepBy(i, 3).EndValue() == 4
    ensures var i := ClosedLower(1).OpenUpper(2);
      StepBy(i, 1).EndValue() == 2 && StepBy(i, 2).EndValue() == 3 && StepBy(i, 3).EndValue() == 4
    ensures var i := ClosedLower(-2).ClosedUpper(9);
      StepBy(i, 1).EndValue() == 10 && StepBy(i, 2).EndValue() == 10 && StepBy(i, 3).EndValue() == 10 &&
      StepBy(i, 4).EndValue() == 10 && StepBy(i, 5).EndValue() == 13 && StepBy(i, 6).EndValue() == 10 &&
      StepBy(i, 107).EndValue() == 105
    ensures var i := ClosedLower(-6).OpenUpper(-1);
      StepBy(i, 1).EndValue() == -1 && StepBy(i, 2).EndValue() == 0 && StepBy(i, 3).EndValue() == 0 &&
      StepBy(i, 4).EndValue() == 2 && StepBy(i, 5).EndValue() == -1 && StepBy(i, 6).EndValue() == 0
  {
  }

  /** The range-for loops of the tests: `['0','9']`, `[1,10)`, `[0,9]` and
      `[0,10)` by 3, and `[0,9]` reversed. */
  lemma WalkScenarios()
    ensures Walk(StepBy(ClosedLower('0' as int).ClosedUpper('9' as int), 1)) == seq(10, k => '0' as int + k)
    ensures Walk(StepBy(ClosedLower(1).OpenUpper(10), 1)) == [1, 2, 3, 4, 5, 6, 7, 8, 9]
    ensures Walk(StepBy(ClosedLower(0).ClosedUpper(9), 3)) == [0, 3, 6, 9]
    ensures Walk(StepBy(ClosedLower(0).OpenUpper(10), 3)) == [0, 3, 6, 9]
    ensures Walk(StepBy(ClosedLower(0).ClosedUpper(9), 1).Reverse()) == [9, 8, 7, 6, 5, 4, 3, 2, 1, 0]
  {
    assert Walk(StepBy(ClosedLower('0' as int).ClosedUpper('9' as int), 1)) == seq(10, k => '0' as int + k);
    assert Walk(StepBy(ClosedLower(1).OpenUpper(10), 1)) == [1, 2, 3, 4, 5, 6, 7, 8, 9];
    assert Walk(StepBy(ClosedLower(0).ClosedUpper(9), 3)) == [0, 3, 6, 9];
    assert Walk(StepBy(ClosedLower(0).OpenUpper(10), 3)) == [0, 3, 6, 9];
    assert Walk(StepBy(ClosedLower(0).ClosedUpper(9), 1).Reverse()) == [9, 8, 7, 6, 5, 4, 3, 2, 1, 0];
  }

  /** Reversing `(1,8]` gives a downward view with an open end, where the
      sentinel formula overshoots: `end()` is -1, two steps past the bound 1,
      so such a view is outside `Walkable`. The sentinel lies nine steps from
      `begin()`, so the range-for loop (`Iterate`) yields 8 down to 0, where
      the test expects 8 down to 2. */
  lemma ReversedOpenEndOvershoots()
    ensures var r := StepBy(OpenLower(1).ClosedUpper(8), 1).Reverse();
      r.lower == 8 && r.upper == 1 && !r.lopen && r.ropen && r.EndValue() == -1 && !Walkable(r) &&
      r.EndValue() == r.lower + 9 * r.step && Run(r, 9) == [8, 7, 6, 5, 4, 3, 2, 1, 0]
  {
    var r := StepBy(OpenLower(1).ClosedUpper(8), 1).Reverse();
    assert Run(r, 9) == [8, 7, 6, 5, 4, 3, 2, 1, 0];
  }

  /** With the intended open-end formula the same view stops at the bound 1,
      seven steps from `begin()`, and the loop yields 8 down to 2. */
  lemma ReversedOpenEndIntended()
    ensures var r := StepBy(OpenLower(1).ClosedUpper(8), 1).Reverse();
      IntendedSentinel(r.lower, r.upper, r.step, !r.ropen) == 1 == r.lower + 7 * r.step &&
      Run(r, 7) == [8, 7, 6, 5, 4, 3, 2]
  {
    var r := StepBy(OpenLower(1).ClosedUpper(8), 1).Reverse();
    IntendedSentinelDownOpen(r.lower, r.upper, r.step);
    assert Run(r, 7) == [8, 7, 6, 5, 4, 3, 2];
  }

  /** On `[10,0]` the sentinel of the unit step is 1, below `begin()` at 10,
      so stepping up from `begin()` never meets `end()`. */
  lemma EmptyWalkMissesEnd()
    ensures var r := StepBy(ClosedLower(10).ClosedUpper(0), 1);
      r.BeginValue() == 10 && r.EndValue() == 1 && r.EndValue() < r.BeginValue()
  {
  }
}
