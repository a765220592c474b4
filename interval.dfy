/** `basic_interval<int, LOpen, ROpen>` and the boundary helpers it is built on.
    The two template flags become the boolean fields `lopen` and `ropen`. */
module Intervals {
  import opened CppInt

  /** less_than_helper: `lhs <= rhs` when `orEqual`, `lhs < rhs` otherwise.
      (The source names the `<=` flavour "strict".) */
  function LessThan(orEqual: bool, lhs: int, rhs: int): (r: bool)
    ensures r <==> lhs < rhs || (orEqual && lhs == rhs)
  {
    if orEqual then lhs <= rhs else lhs < rhs
  }

  /** An interval with a lower and an upper bound, each end open or closed.
      Nothing orders the bounds: `lower > upper` is an empty interval. */
  datatype Interval = Interval(lower: int, upper: int, lopen: bool, ropen: bool)

  /** The exception `empty_interval`. */
  datatype Error = EmptyInterval

  datatype Result<T> = Ok(value: T) | Err(error: Error)

  /** `empty()`: `upper < lower` when both ends are closed, `upper <= lower`
      as soon as one end is open. */
  predicate Empty(i: Interval)
    ensures Empty(i) <==> if !i.lopen && !i.ropen then i.upper < i.lower else i.upper <= i.lower
  {
    LessThan(i.lopen || i.ropen, i.upper, i.lower)
  }

  /** `explicit operator bool`: an interval is true when it is not empty. */
  predicate NonEmpty(i: Interval)
    ensures NonEmpty(i) ==> i.lower <= i.upper
    ensures NonEmpty(i) && (i.lopen || i.ropen) ==> i.lower < i.upper
    ensures !NonEmpty(i) ==> forall v :: !Contains(i, v)
  {
    !Empty(i)
  }

  /** `contains(v)`: each bound admits `v` itself exactly when that end is closed. */
  predicate Contains(i: Interval, v: int)
    ensures Contains(i, v) <==>
      (if i.lopen then i.lower < v else i.lower <= v) &&
      (if i.ropen then v < i.upper else v <= i.upper)
  {
    LessThan(!i.lopen, i.lower, v) && LessThan(!i.ropen, v, i.upper)
  }

  /** `diameter()`: the distance between the bounds; `empty_interval` on an
      empty interval. It is positive when an end is open. */
  function Diameter(i: Interval): (r: Result<int>)
    ensures r.Err? <==> Empty(i)
    ensures r.Ok? ==> i.lower + r.value == i.upper && r.value >= 0
    ensures r.Ok? && (i.lopen || i.ropen) ==> r.value > 0
  {
    if Empty(i) then Err(EmptyInterval) else Ok(i.upper - i.lower)
  }

  /** `midpoint()`: `(upper + lower) / 2` with C++ truncation; `empty_interval`
      on an empty interval. The result lies between the bounds, and twice it
      misses `lower + upper` by at most one, toward zero. */
  function Midpoint(i: Interval): (r: Result<int>)
    ensures r.Err? <==> Empty(i)
    ensures r.Ok? ==> i.lower <= r.value <= i.upper
    ensures r.Ok? && i.upper + i.lower >= 0 ==> 0 <= i.upper + i.lower - 2 * r.value <= 1
    ensures r.Ok? && i.upper + i.lower <= 0 ==> -1 <= i.upper + i.lower - 2 * r.value <= 0
  {
    if Empty(i) then Err(EmptyInterval) else Ok(Quot(i.upper + i.lower, 2))
  }

  /** `radius()`: half the diameter with C++ truncation; `empty_interval` on
      an empty interval. */
  function Radius(i: Interval): (r: Result<int>)
    ensures r.Err? <==> Empty(i)
    ensures r.Ok? ==> 0 <= r.value && 2 * r.value <= i.upper - i.lower <= 2 * r.value + 1
  {
    match Diameter(i)
    case Err(e) => Err(e)
    case Ok(d) => Ok(Quot(d, 2))
  }

  /** `operator<=` (subset_helper): an empty interval is a subset of anything;
      otherwise each bound of `a` must lie inside the matching bound of `b`,
      where equal bounds are allowed unless `a` is closed and `b` open there.
      Every integer of `a` is then an integer of `b`. */
  predicate Subset(a: Interval, b: Interval)
    ensures Subset(a, b) ==> forall v :: Contains(a, v) ==> Contains(b, v)
    ensures Subset(a, b) && NonEmpty(a) ==> NonEmpty(b)
  {
    Empty(a) ||
    (LessThan(a.lopen || !b.lopen, b.lower, a.lower) &&
     LessThan(a.ropen || !b.ropen, a.upper, b.upper))
  }

  /** `operator<` (proper_subset_helper), as written: an empty `a` below a
      non-empty `b`, or each bound of `a` strictly inside the matching bound
      of `b` (equal values only when `a` is open and `b` closed there).
      The second disjunct is not guarded by `a` being non-empty. */
  predicate ProperSubset(a: Interval, b: Interval)
    ensures ProperSubset(a, b) ==> Subset(a, b)
    ensures ProperSubset(a, b) && NonEmpty(a) ==> a.lower != b.lower || a.lopen != b.lopen
    ensures ProperSubset(a, b) && NonEmpty(a) ==> a.upper != b.upper || a.ropen != b.ropen
  {
    (Empty(a) && !Empty(b)) ||
    (LessThan(a.lopen && !b.lopen, b.lower, a.lower) &&
     LessThan(a.ropen && !b.ropen, a.upper, b.upper))
  }

  /** `operator<` as evidently intended: the same test, with the bound
      comparison reserved for a non-empty `a`, so that two empty intervals,
      which are equal, are never proper subsets of each other. */
  predicate StrictSubset(a: Interval, b: Interval)
    ensures StrictSubset(a, b) <==> ProperSubset(a, b) && !Equal(a, b)
  {
    (Empty(a) && !Empty(b)) ||
    (!Empty(a) &&
     LessThan(a.lopen && !b.lopen, b.lower, a.lower) &&
     LessThan(a.ropen && !b.ropen, a.upper, b.upper))
  }

  /** `operator>=` (superset_helper): the subset test with the operands swapped. */
  predicate Superset(a: Interval, b: Interval)
    ensures Superset(a, b) ==> forall v :: Contains(b, v) ==> Contains(a, v)
  {
    Subset(b, a)
  }

  /** `operator>` (proper_superset_helper): the proper-subset test with the
      operands swapped. */
  predicate ProperSuperset(a: Interval, b: Interval)
    ensures ProperSuperset(a, b) ==> Superset(a, b)
  {
    ProperSubset(b, a)
  }

  /** `operator>` as evidently intended: the corrected proper-subset test with
      the operands swapped, never true of two equal intervals. */
  predicate StrictSuperset(a: Interval, b: Interval)
    ensures StrictSuperset(a, b) <==> ProperSuperset(a, b) && !Equal(a, b)
  {
    StrictSubset(b, a)
  }

  /** `operator==` (equality_helper): two empty intervals are equal whatever
      their bounds and flags; otherwise flags and bounds must all match. */
  predicate Equal(a: Interval, b: Interval)
    ensures a == b ==> Equal(a, b)
    ensures Equal(a, b) ==> forall v :: Contains(a, v) <==> Contains(b, v)
    ensures Equal(a, b) && NonEmpty(a) ==> a == b
  {
    (Empty(a) && Empty(b)) ||
    (a.lopen == b.lopen && a.ropen == b.ropen && a.lower == b.lower && a.upper == b.upper)
  }

  /** `operator!=`: distinct values, not both empty. */
  predicate NotEqual(a: Interval, b: Interval)
    ensures NotEqual(a, b) ==> a != b && (NonEmpty(a) || NonEmpty(b))
  {
    !Equal(a, b)
  }

  /** `operator|`: the intersection of two intervals with the same flags (the
      template admits no other pair): the larger lower bound, the smaller
      upper bound, the same flags. Disjoint operands give an empty interval. */
  function Intersect(a: Interval, b: Interval): (r: Interval)
    requires a.lopen == b.lopen && a.ropen == b.ropen
    ensures r.lopen == a.lopen && r.ropen == a.ropen
    ensures forall v :: Contains(r, v) <==> Contains(a, v) && Contains(b, v)
    ensures Subset(r, a) && Subset(r, b)
  {
    Interval(if a.lower < b.lower then b.lower else a.lower,
             if a.upper < b.upper then a.upper else b.upper,
             a.lopen, a.ropen)
  }

  /** `lower_bound<L, LOpen>`: the first half of the `interval[a](b)` syntax. */
  datatype LowerBound = LowerBound(lower: int, lopen: bool) {

    /** `lb(upper)`: the upper end is open. */
    function OpenUpper(upper: int): (i: Interval)
      ensures i.ropen && i.lopen == lopen && i.lower == lower && i.upper == upper
    {
      Interval(lower, upper, lopen, true)
    }

    /** `lb[upper]`: the upper end is closed. */
    function ClosedUpper(upper: int): (i: Interval)
      ensures !i.ropen && i.lopen == lopen && i.lower == lower && i.upper == upper
    {
      Interval(lower, upper, lopen, false)
    }
  }

  /** `interval(lower)` (interval_factory::operator()): the lower end is open. */
  function OpenLower(lower: int): (lb: LowerBound)
    ensures lb.lopen && lb.lower == lower
  {
    LowerBound(lower, true)
  }

  /** `interval[lower]` (interval_factory::operator[]): the lower end is closed. */
  function ClosedLower(lower: int): (lb: LowerBound)
    ensures !lb.lopen && lb.lower == lower
  {
    LowerBound(lower, false)
  }
}
