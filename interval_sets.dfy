/** The interval operations read as sets of real numbers. The header is
    generic over any ordered number type, so its relations are meant for a
    dense order; over the reals they are exact, over the integers they are
    sound (see the contracts in Intervals). */
module IntervalSets {
  import opened Intervals

  /** Membership of a real number, stated directly from the bracket notation. */
  ghost predicate Within(i: Interval, x: real)
  {
    (if i.lopen then i.lower as real < x else i.lower as real <= x) &&
    (if i.ropen then x < i.upper as real else x <= i.upper as real)
  }

  /** `contains` agrees with the set reading on every integer. */
  lemma ContainsIsWithin(i: Interval, v: int)
    ensures Contains(i, v) <==> Within(i, v as real)
  {
  }

  /** A point of a non-empty interval: its only point when the bounds
      coincide, the middle of the bounds otherwise. */
  ghost function Point(i: Interval): (x: real)
    requires NonEmpty(i)
    ensures Within(i, x)
  {
    if i.lower == i.upper then i.lower as real else (i.lower as real + i.upper as real) / 2.0
  }

  /** `empty()` holds exactly when no real number lies in the interval. */
  lemma EmptyIffNoPoint(i: Interval)
    ensures Empty(i) <==> forall x :: !Within(i, x)
  {
    if !Empty(i) {
      assert Within(i, Point(i));
    }
  }

  /** A point of `a` below the lower bound of `b`, when the lower-bound test
      of `operator<=` fails. */
  ghost function LowWitness(a: Interval, b: Interval): (x: real)
    requires NonEmpty(a) && !LessThan(a.lopen || !b.lopen, b.lower, a.lower)
    ensures Within(a, x) && !Within(b, x)
  {
    if !a.lopen then a.lower as real
    else
      var top := if b.lower < a.upper then b.lower else a.upper;
      (a.lower as real + top as real) / 2.0
  }

  /** A point of `a` above the upper bound of `b`, when the upper-bound test
      of `operator<=` fails. */
  ghost function HighWitness(a: Interval, b: Interval): (x: real)
    requires NonEmpty(a) && !LessThan(a.ropen || !b.ropen, a.upper, b.upper)
    ensures Within(a, x) && !Within(b, x)
  {
    if !a.ropen then a.upper as real
    else
      var bottom := if a.lower < b.upper then b.upper else a.lower;
      (a.upper as real + bottom as real) / 2.0
  }

  /** `operator<=` is exactly inclusion of the real points. */
  lemma SubsetIffInclusion(a: Interval, b: Interval)
    ensures Subset(a, b) <==> forall x :: Within(a, x) ==> Within(b, x)
  {
    if !Subset(a, b) {
      if !LessThan(a.lopen || !b.lopen, b.lower, a.lower) {
        var x := LowWitness(a, b);
        assert Within(a, x) && !Within(b, x);
      } else {
        var x := HighWitness(a, b);
        assert Within(a, x) && !Within(b, x);
      }
    } else {
      forall x | Within(a, x) ensures Within(b, x) {
        EmptyIffNoPoint(a);
      }
    }
  }

  /** `operator>=` is exactly inclusion the other way round. */
  lemma SupersetIffInclusion(a: Interval, b: Interval)
    ensures Superset(a, b) <==> forall x :: Within(b, x) ==> Within(a, x)
  {
    SubsetIffInclusion(b, a);
  }

  /** Mutual `operator<=` is `operator==`, with no condition on emptiness or flags. */
  lemma SubsetAntisymmetric(a: Interval, b: Interval)
    ensures Subset(a, b) && Subset(b, a) <==> Equal(a, b)
  {
  }

  /** `operator==` is exactly equality of the real point sets. */
  lemma EqualIffSamePoints(a: Interval, b: Interval)
    ensures Equal(a, b) <==> forall x :: Within(a, x) <==> Within(b, x)
  {
    SubsetAntisymmetric(a, b);
    SubsetIffInclusion(a, b);
    SubsetIffInclusion(b, a);
  }

  /** `operator==` is an equivalence relation. */
  lemma EqualIsEquivalence(a: Interval, b: Interval, c: Interval)
    ensures Equal(a, a)
    ensures Equal(a, b) ==> Equal(b, a)
    ensures Equal(a, b) && Equal(b, c) ==> Equal(a, c)
  {
    EqualIffSamePoints(a, b);
    EqualIffSamePoints(b, c);
    EqualIffSamePoints(a, c);
  }

  /** `operator|` is exactly the intersection of the real point sets. */
  lemma IntersectIsMeet(a: Interval, b: Interval, x: real)
    requires a.lopen == b.lopen && a.ropen == b.ropen
    ensures Within(Intersect(a, b), x) <==> Within(a, x) && Within(b, x)
  {
  }

  /** `operator|` is commutative, and gives an empty interval, not an error,
      for operands without a common point. */
  lemma IntersectProperties(a: Interval, b: Interval)
    requires a.lopen == b.lopen && a.ropen == b.ropen
    ensures Intersect(a, b) == Intersect(b, a)
    ensures (forall x :: !(Within(a, x) && Within(b, x))) ==> Empty(Intersect(a, b))
  {
    if !Empty(Intersect(a, b)) {
      var x := Point(Intersect(a, b));
      IntersectIsMeet(a, b, x);
    }
  }

  /** Some point of `b` lies below every point of `a`. */
  ghost predicate ReachesBelow(b: Interval, a: Interval)
  {
    exists x :: Within(b, x) && forall y :: Within(a, y) ==> x < y
  }

  /** Some point of `b` lies above every point of `a`. */
  ghost predicate ReachesAbove(b: Interval, a: Interval)
  {
    exists x :: Within(b, x) && forall y :: Within(a, y) ==> y < x
  }

  /** Finding: the as-written `operator<` holds between two empty intervals
      that `operator==` calls equal. */
  lemma ProperSubsetOfEqualEmpties()
    ensures var a, b := Interval(10, 0, false, false), Interval(7, 3, false, false);
      Empty(a) && Empty(b) && Equal(a, b) && ProperSubset(a, b) && !StrictSubset(a, b)
  {
  }

  /** Finding: `operator>` inherits the defect, since it swaps the operands
      of the as-written `operator<`. */
  lemma ProperSupersetOfEqualEmpties()
    ensures var a, b := Interval(7, 3, false, false), Interval(10, 0, false, false);
      Equal(a, b) && ProperSuperset(a, b) && !StrictSuperset(a, b)
  {
  }

  /** The corrected `operator>` is a strict order too, the converse of the
      corrected `operator<`. */
  lemma StrictSupersetIsStrictOrder(a: Interval, b: Interval, c: Interval)
    ensures StrictSuperset(a, b) <==> StrictSubset(b, a)
    ensures !StrictSuperset(a, a)
    ensures StrictSuperset(a, b) ==> !StrictSuperset(b, a)
    ensures StrictSuperset(a, b) && StrictSuperset(b, c) ==> StrictSuperset(a, c)
  {
    StrictSubsetIsStrictOrder(c, b, a);
    StrictSubsetIsStrictOrder(b, a, c);
  }

  /** The corrected `operator<`, read on real points: `a` lies inside `b`, and
      `b` reaches beyond `a` at both ends. (For an empty `a` this says that
      `b` has a point.) So the library's proper subset is "inside at both
      ends", not merely "a subset and not equal". */
  lemma StrictSubsetIffInsideBothEnds(a: Interval, b: Interval)
    ensures StrictSubset(a, b) <==>
      (forall x :: Within(a, x) ==> Within(b, x)) && ReachesBelow(b, a) && ReachesAbove(b, a)
  {
    SubsetIffInclusion(a, b);
    EmptyIffNoPoint(a);
    EmptyIffNoPoint(b);
    if Empty(a) {
      if !Empty(b) {
        var x := Point(b);
        assert Within(b, x) && forall y :: Within(a, y) ==> x < y;
        assert Within(b, x) && forall y :: Within(a, y) ==> y < x;
      }
    } else if StrictSubset(a, b) {
      var lo := if !b.lopen then b.lower as real else (b.lower as real + a.lower as real) / 2.0;
      assert Within(b, lo) && forall y :: Within(a, y) ==> lo < y;
      var hi := if !b.ropen then b.upper as real else (b.upper as real + a.upper as real) / 2.0;
      assert Within(b, hi) && forall y :: Within(a, y) ==> y < hi;
    } else if Subset(a, b) {
      if !LessThan(a.lopen && !b.lopen, b.lower, a.lower) {
        NotReachingBelow(a, b);
      } else {
        NotReachingAbove(a, b);
      }
    }
  }

  /** When `a` lies inside `b` and their lower bounds touch, every point of `b`
      is matched or undercut by a point of `a`. */
  lemma NotReachingBelow(a: Interval, b: Interval)
    requires NonEmpty(a) && Subset(a, b)
    requires !LessThan(a.lopen && !b.lopen, b.lower, a.lower)
    ensures !ReachesBelow(b, a)
  {
    forall x | Within(b, x) ensures exists y :: Within(a, y) && y <= x {
      if !a.lopen {
        assert Within(a, a.lower as real);
      } else {
        var m := if x < a.upper as real then x else a.upper as real;
        var y := (a.lower as real + m) / 2.0;
        assert Within(a, y) && y <= x;
      }
    }
  }

  /** When `a` lies inside `b` and their upper bounds touch, every point of
      `b` is matched or exceeded by a point of `a`. */
  lemma NotReachingAbove(a: Interval, b: Interval)
    requires NonEmpty(a) && Subset(a, b)
    requires !LessThan(a.ropen && !b.ropen, a.upper, b.upper)
    ensures !ReachesAbove(b, a)
  {
    forall x | Within(b, x) ensures exists y :: Within(a, y) && x <= y {
      if !a.ropen {
        assert Within(a, a.upper as real);
      } else {
        var m := if a.lower as real < x then x else a.lower as real;
        var y := (a.upper as real + m) / 2.0;
        assert Within(a, y) && x <= y;
      }
    }
  }

  /** The corrected `operator<` is a strict partial order. */
  lemma StrictSubsetIsStrictOrder(a: Interval, b: Interval, c: Interval)
    ensures !StrictSubset(a, a)
    ensures StrictSubset(a, b) ==> !StrictSubset(b, a)
    ensures StrictSubset(a, b) && StrictSubset(b, c) ==> StrictSubset(a, c)
  {
  }
}
