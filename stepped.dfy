/** `stepped_interval<int, LOpen, ROpen>`, the lazy stepped view of an
    interval, and the range-for walk that drives its iterators. */
module Stepping {
  import opened CppInt
  import opened Intervals
  import opened Iterators

  /** sentinel_helper<closed>: the first point of the grid `lower + k * step`
      past the interval. The C++ template flag, named "strict", is true for a
      closed upper end. The quotient is C++'s, rounded toward zero. */
  function Sentinel(lower: int, upper: int, step: int, closed: bool): (s: int)
    requires step != 0
    ensures (s - lower) % step == 0
  {
    var k := Quot(upper - lower + (if closed then step else step - 1), step);
    OnGrid(k, step);
    k * step + lower
  }

  /** Euclidean division of a non-negative `n` by a positive `step`, given
      by a quotient and remainder, is also its C++ division. */
  lemma DivideUp(n: int, step: int, k: int, r: int)
    requires 0 < step && 0 <= n && n == k * step + r && 0 <= r < step
    ensures Quot(n, step) == k
  {
    QuotUnique(n, step, k);
  }

  /** Upward, closed end: the sentinel is `lower + k * step` with
      `k = (upper - lower) / step + 1`, the first grid point above `upper`. */
  lemma SentinelUpClosed(lower: int, upper: int, step: int)
    requires 0 < step && lower <= upper
    ensures var k := (upper - lower) / step + 1;
      Sentinel(lower, upper, step, true) == lower + k * step &&
      lower + (k - 1) * step <= upper < lower + k * step
  {
    var d := upper - lower;
    var q, r := d / step, d % step;
    var k := q + 1;
    assert d == q * step + r;
    assert k * step == q * step + step;
    DivideUp(d + step, step, k, r);
  }

  /** Upward, open end: the sentinel is `lower + k * step` with
      `k = (upper - lower + step - 1) / step`, the first grid point at or
      above `upper`. */
  lemma SentinelUpOpen(lower: int, upper: int, step: int)
    requires 0 < step && lower <= upper
    ensures var k := (upper - lower + step - 1) / step;
      Sentinel(lower, upper, step, false) == lower + k * step &&
      lower + (k - 1) * step < upper <= lower + k * step
  {
    var n := upper - lower + step - 1;
    var k, r := n / step, n % step;
    assert n == k * step + r;
    assert (k - 1) * step == k * step - step;
    DivideUp(n, step, k, r);
  }

  /** Downward, closed end (the only downward case the formula gets right):
      the sentinel is `lower + k * step` with `k = (lower - upper) / -step + 1`,
      the first grid point below `upper`. */
  lemma SentinelDownClosed(lower: int, upper: int, step: int)
    requires step < 0 && upper <= lower
    ensures var k := (lower - upper) / (-step) + 1;
      Sentinel(lower, upper, step, true) == lower + k * step &&
      upper <= lower + (k - 1) * step && lower + k * step < upper
  {
    var m := -step;
    var d := lower - upper;
    var q, r := d / m, d % m;
    var k := q + 1;
    assert d == q * m + r;
    assert k * m == q * m + m;
    assert k * step == -(k * m);
    assert (k - 1) * step == -(q * m);
    // upper - lower + step == -(k * m + r), and the quotient of two negatives
    // is that of their magnitudes
    DivideUp(d + m, m, k, r);
    QuotOfNegatives(upper - lower + step, step);
    QuotOfNonNegative(d + m, m);
  }

  /** `sentinel_helper<false>` as evidently intended in both directions: the
      rounding term `step - 1` becomes `step + 1` for a negative step, so
      that the quotient rounds away from `lower` downward as it does upward.
      It agrees with `Sentinel` except on a downward open end. */
  function IntendedSentinel(lower: int, upper: int, step: int, closed: bool): (s: int)
    requires step != 0
    ensures step > 0 || closed ==> s == Sentinel(lower, upper, step, closed)
    ensures (s - lower) % step == 0
  {
    var k := Quot(upper - lower + (if closed then step else if step > 0 then step - 1 else step + 1), step);
    OnGrid(k, step);
    k * step + lower
  }

  /** Downward, open end, with the intended formula: the sentinel is
      `lower + k * step` with `k` the quotient `(lower - upper) / -step`
      rounded up, the first grid point at or below `upper`. */
  lemma IntendedSentinelDownOpen(lower: int, upper: int, step: int)
    requires step < 0 && upper <= lower
    ensures var k := (lower - upper + (-step) - 1) / (-step);
      IntendedSentinel(lower, upper, step, false) == lower + k * step &&
      upper < lower + (k - 1) * step && lower + k * step <= upper
  {
    var m := -step;
    var x := lower - upper + m - 1;
    var k, r := x / m, x % m;
    assert x == k * m + r;
    assert k * step == -(k * m);
    assert (k - 1) * step == m - k * m;
    QuotUnique(upper - lower + step + 1, step, k);
  }

  /** A stepped view: bounds and flags of an interval plus a step. No order
      of the bounds and no sign of the step is enforced. */
  datatype SteppedInterval = SteppedInterval(lower: int, upper: int, step: int, lopen: bool, ropen: bool) {

    /** `reverse()`: bounds and flags swapped, step negated. */
    function Reverse(): (r: SteppedInterval)
      ensures r.lower == upper && r.upper == lower && r.step == -step
      ensures r.lopen == ropen && r.ropen == lopen
    {
      SteppedInterval(upper, lower, -step, ropen, lopen)
    }

    /** `*begin()`; the static assertion forbids a left-open interval. */
    function BeginValue(): (v: int)
      requires !lopen
      ensures v == lower
    {
      lower
    }

    /** `*end()`: the first grid point past `upper` (at `upper` itself when
      the upper end is open); see the Sentinel lemmas. */
    function EndValue(): (v: int)
      requires step != 0
      ensures (v - lower) % step == 0
    {
      Sentinel(lower, upper, step, !ropen)
    }

    /** `*rbegin()`: one step back from the sentinel; the static assertion
      forbids a right-open interval. */
    function RBeginValue(): (v: int)
      requires !ropen && step != 0
      ensures (v - lower) % step == 0
    {
      var k := Quot(upper - lower + step, step);
      assert EndValue() - step - lower == (k - 1) * step;
      OnGrid(k - 1, step);
      EndValue() - step
    }

    /** `*rend()`: one step below `lower`. */
    function REndValue(): (v: int)
      ensures v < lower <==> step > 0
    {
      lower - step
    }

    /** `begin()`: an iterator at `lower` moving by `step`. */
    method Begin() returns (it: IntervalIterator)
      requires !lopen
      ensures fresh(it) && it.value == BeginValue() && it.step == step
    {
      it := new IntervalIterator(lower, step);
    }

    /** `end()`: an iterator at the sentinel moving by `step`. */
    method End() returns (it: IntervalIterator)
      requires step != 0
      ensures fresh(it) && it.value == EndValue() && it.step == step
    {
      it := new IntervalIterator(Sentinel(lower, upper, step, !ropen), step);
    }

    /** `rbegin()`: an iterator one step below the sentinel moving by `-step`. */
    method RBegin() returns (it: IntervalIterator)
      requires !ropen && step != 0
      ensures fresh(it) && it.value == RBeginValue() && it.step == -step
    {
      it := new IntervalIterator(Sentinel(lower, upper, step, !ropen) - step, -step);
    }

    /** `rend()`: an iterator one step below `lower` moving by `-step`. */
    method REnd() returns (it: IntervalIterator)
      ensures fresh(it) && it.value == REndValue() && it.step == -step
    {
      it := new IntervalIterator(lower - step, -step);
    }
  }

  /** A multiple of `step` is on the grid of `step`. */
  lemma OnGrid(k: int, step: int)
    requires step != 0
    ensures (k * step) % step == 0
  {
    var m := k * step;
    var q, r := m / step, m % step;
    assert m == q * step + r && 0 <= r < Abs(step);
    assert r == (k - q) * step;
    if k != q {
      MultipleAtLeast(k - q, step);
    }
  }

  /** `basic_interval::step(s)`: the stepped view over the same bounds and flags. */
  function StepBy(i: Interval, step: int): (r: SteppedInterval)
    ensures r.lower == i.lower && r.upper == i.upper && r.step == step
    ensures r.lopen == i.lopen && r.ropen == i.ropen
  {
    SteppedInterval(i.lower, i.upper, step, i.lopen, i.ropen)
  }

  /** A multiple of a positive step grows with the multiplier. */
  lemma ScaleMonotone(j: int, k: int, step: int)
    requires 0 < step
    ensures j <= k <==> j * step <= k * step
  {
    if j != k {
      var d := if j < k then k - j else j - k;
      assert d * step > 0;
      if j < k {
        assert k * step - j * step == d * step;
      } else {
        assert j * step - k * step == d * step;
      }
    }
  }

  /** The views a range-for loop can walk from `begin()` to `end()` without
      overshooting the sentinel: upward from a lower bound not above the
      upper one, or downward over a closed end not above the start. */
  predicate Walkable(r: SteppedInterval)
  {
    r.step != 0 &&
    (r.step > 0 ==> r.lower <= r.upper) &&
    (r.step < 0 ==> !r.ropen && r.upper <= r.lower)
  }

  /** How many grid points lie before the sentinel. */
  function Count(r: SteppedInterval): nat
    requires Walkable(r)
  {
    if r.step < 0 then (r.lower - r.upper) / (-r.step) + 1
    else if r.ropen then (r.upper - r.lower + r.step - 1) / r.step
    else (r.upper - r.lower) / r.step + 1
  }

  /** The first `n` positions of a walk from `lower` by `step`. */
  function Run(r: SteppedInterval, n: nat): seq<int>
  {
    seq(n, k => r.lower + k * r.step)
  }

  /** The values a walk from `lower` produces before reaching the sentinel. */
  function Walk(r: SteppedInterval): seq<int>
    requires Walkable(r)
  {
    Run(r, Count(r))
  }

  /** The sentinel sits exactly `Count` steps from `lower`. */
  lemma EndOnGrid(r: SteppedInterval)
    requires Walkable(r)
    ensures r.EndValue() == r.lower + Count(r) * r.step
  {
    if r.step < 0 {
      SentinelDownClosed(r.lower, r.upper, r.step);
    } else if r.ropen {
      SentinelUpOpen(r.lower, r.upper, r.step);
    } else {
      SentinelUpClosed(r.lower, r.upper, r.step);
    }
  }

  /** Positions `j` and `k` steps from the same start meet only when `j == k`. */
  lemma StepsCancel(j: int, k: int, step: int)
    requires step != 0 && j * step == k * step
    ensures j == k
  {
    assert (j - k) * step == j * step - k * step;
    if j != k { MultipleAtLeast(j - k, step); }
  }

  /** A range-for loop over the view: start at `begin()`, collect `*it` and
      apply `++it` while `it != end()`. When the sentinel lies `n` steps from
      `lower` the loop stops there and yields `Run(r, n)`; on a walkable view
      `n` is `Count(r)` (EndOnGrid), so the loop yields `Walk(r)`. */
  method Iterate(r: SteppedInterval, ghost n: nat) returns (xs: seq<int>)
    requires !r.lopen && r.step != 0 && r.EndValue() == r.lower + n * r.step
    ensures xs == Run(r, n)
  {
    var it := r.Begin();
    var stop := r.End();
    xs := [];
    while NotSame(it, stop)
      invariant stop.value == r.lower + n * r.step && it.step == r.step
      invariant |xs| <= n
      invariant it.value == r.lower + |xs| * r.step
      invariant forall k :: 0 <= k < |xs| ==> xs[k] == r.lower + k * r.step
      decreases n - |xs|
    {
      ghost var j := |xs|;
      xs := xs + [it.Current()];
      it.Increment();
      OneStepMore(j, r.step);
    }
    StepsCancel(|xs|, n, r.step);
    IsRun(r, xs);
  }

  /** `j + 1` steps are `j` steps and one more. */
  lemma OneStepMore(j: int, step: int)
    ensures (j + 1) * step == j * step + step
  {
  }

  /** A sequence of values stepping from `lower` is a run. */
  lemma IsRun(r: SteppedInterval, xs: seq<int>)
    requires forall k :: 0 <= k < |xs| ==> xs[k] == r.lower + k * r.step
    ensures xs == Run(r, |xs|)
  {
  }

  /** A reverse loop over the view: start at `rbegin()`, collect and step by
      `-step` until `rend()`. It yields the upward walk backwards. */
  method IterateBackward(r: SteppedInterval) returns (xs: seq<int>)
    requires !r.ropen && 0 < r.step && r.lower <= r.upper
    ensures Walkable(r) && |xs| == |Walk(r)|
    ensures forall k :: 0 <= k < |xs| ==> xs[k] == Walk(r)[|xs| - 1 - k]
  {
    EndOnGrid(r);
    var n := Count(r);
    var it := r.RBegin();
    var stop := r.REnd();
    assert it.value == r.lower + (n - 1) * r.step by {
      assert (n - 1) * r.step == n * r.step - r.step;
    }
    xs := [];
    while NotSame(it, stop)
      invariant stop.value == r.lower - r.step && it.step == -r.step
      invariant |xs| <= n
      invariant it.value == r.lower + (n - 1 - |xs|) * r.step
      invariant forall k :: 0 <= k < |xs| ==> xs[k] == r.lower + (n - 1 - k) * r.step
      decreases n - |xs|
    {
      ghost var j := n - 1 - |xs|;
      xs := xs + [it.Current()];
      it.Increment();
      assert (j - 1) * r.step == j * r.step - r.step;
    }
    StepsCancel(n - 1 - |xs|, -1, r.step);
  }

  /** Walking upward from a closed lower end visits exactly the grid points
      `lower + k * step` that the interval contains. */
  lemma WalkMembers(r: SteppedInterval, v: int)
    requires !r.lopen && 0 < r.step && r.lower <= r.upper
    ensures v in Walk(r) <==>
      Contains(Interval(r.lower, r.upper, false, r.ropen), v) && (v - r.lower) % r.step == 0
  {
    if v in Walk(r) {
      var k :| 0 <= k < Count(r) && Walk(r)[k] == v;
      WalkedPointIsMember(r, k);
    }
    if Contains(Interval(r.lower, r.upper, false, r.ropen), v) && (v - r.lower) % r.step == 0 {
      MemberIsWalked(r, v);
    }
  }

  /** Each walked value lies in the interval, on the grid. */
  lemma WalkedPointIsMember(r: SteppedInterval, k: int)
    requires !r.lopen && 0 < r.step && r.lower <= r.upper && 0 <= k < Count(r)
    ensures var v := r.lower + k * r.step;
      Contains(Interval(r.lower, r.upper, false, r.ropen), v) && (v - r.lower) % r.step == 0
  {
    var n := Count(r);
    if r.ropen { SentinelUpOpen(r.lower, r.upper, r.step); } else { SentinelUpClosed(r.lower, r.upper, r.step); }
    ScaleMonotone(0, k, r.step);
    ScaleMonotone(k, n - 1, r.step);
    OnGrid(k, r.step);
  }

  /** Every value the upward view contains lies below its sentinel. */
  lemma BelowSentinel(r: SteppedInterval, v: int)
    requires !r.lopen && 0 < r.step && r.lower <= r.upper
    requires Contains(Interval(r.lower, r.upper, false, r.ropen), v)
    ensures v < r.lower + Count(r) * r.step
  {
    if r.ropen { SentinelUpOpen(r.lower, r.upper, r.step); } else { SentinelUpClosed(r.lower, r.upper, r.step); }
  }

  /** Each grid point of the interval is walked. */
  lemma MemberIsWalked(r: SteppedInterval, v: int)
    requires !r.lopen && 0 < r.step && r.lower <= r.upper
    requires Contains(Interval(r.lower, r.upper, false, r.ropen), v) && (v - r.lower) % r.step == 0
    ensures v in Walk(r)
  {
    var n := Count(r);
    BelowSentinel(r, v);
    var k := (v - r.lower) / r.step;
    assert v - r.lower == k * r.step;
    ScaleMonotone(0, k, r.step);
    ScaleMonotone(n, k, r.step);
    assert Walk(r)[k] == v;
  }

  /** The number of values: on a closed end the last one is at most `upper`
      and one more step passes it; on an open end the last one is below
      `upper` and one more step reaches or passes it. */
  lemma WalkLength(r: SteppedInterval)
    requires 0 < r.step && r.lower <= r.upper
    ensures !r.ropen ==> (|Walk(r)| - 1) * r.step <= r.upper - r.lower < |Walk(r)| * r.step
    ensures r.ropen ==> (|Walk(r)| - 1) * r.step < r.upper - r.lower <= |Walk(r)| * r.step
  {
    EndOnGrid(r);
    if r.ropen { SentinelUpOpen(r.lower, r.upper, r.step); } else { SentinelUpClosed(r.lower, r.upper, r.step); }
  }

  /** `reverse()` undone by `reverse()`. */
  lemma ReverseInvolutive(r: SteppedInterval)
    ensures r.Reverse().Reverse() == r
  {
  }

  /** Walking `step(s).reverse()` of a closed interval from `begin()` to
      `end()` visits `upper, upper - s, ...` as many times as the forward
      walk. It is the forward walk backwards exactly when `s` divides
      `upper - lower`, as it does for the unit step. */
  lemma ReverseWalk(i: Interval, s: int)
    requires !i.lopen && !i.ropen && 0 < s && i.lower <= i.upper
    ensures Walkable(StepBy(i, s)) && Walkable(StepBy(i, s).Reverse())
    ensures var f, b := Walk(StepBy(i, s)), Walk(StepBy(i, s).Reverse());
      |b| == |f| &&
      (forall k :: 0 <= k < |b| ==> b[k] == i.upper - k * s) &&
      ((forall k :: 0 <= k < |b| ==> b[k] == f[|f| - 1 - k]) <==> (i.upper - i.lower) % s == 0) &&
      (s == 1 ==> forall k :: 0 <= k < |b| ==> b[k] == f[|f| - 1 - k])
  {
    var f, b := Walk(StepBy(i, s)), Walk(StepBy(i, s).Reverse());
    var d := i.upper - i.lower;
    var q, r := d / s, d % s;
    assert d == q * s + r;
    assert forall k :: 0 <= k < |b| ==> b[k] == i.upper - k * s by {
      forall k | 0 <= k < |b| ensures b[k] == i.upper - k * s {
        assert k * (-s) == -(k * s);
      }
    }
    MirroredIffDivides(i.lower, i.upper, s, q, r, f, b);
  }

  /** The downward steps from `upper` mirror the upward steps from `lower`
      exactly when the last upward step lands on `upper`. */
  lemma MirroredIffDivides(lower: int, upper: int, s: int, q: int, r: int, f: seq<int>, b: seq<int>)
    requires 0 < s && 0 <= q && 0 <= r < s && upper - lower == q * s + r
    requires |f| == |b| == q + 1
    requires forall j :: 0 <= j < |f| ==> f[j] == lower + j * s
    requires forall k :: 0 <= k < |b| ==> b[k] == upper - k * s
    ensures (forall k :: 0 <= k < |b| ==> b[k] == f[|f| - 1 - k]) <==> r == 0
  {
    if (forall k :: 0 <= k < |b| ==> b[k] == f[|f| - 1 - k]) {
      assert b[0] == f[q];
    }
    if r == 0 {
      forall k | 0 <= k < |b|
        ensures b[k] == f[|f| - 1 - k]
      {
        assert (q - k) * s == q * s - k * s;
      }
    }
  }

  /** `begin()`, `end()`, `rbegin()`, `rend()` of `basic_interval` itself use
      the unit step: `end()` is one past `upper` on a closed end and `upper`
      itself on an open one, `rbegin()` is `upper`, `rend()` is `lower - 1`. */
  lemma UnitStepEndpoints(i: Interval)
    requires i.lower <= i.upper
    ensures StepBy(i, 1).EndValue() == if i.ropen then i.upper else i.upper + 1
    ensures !i.ropen ==> StepBy(i, 1).RBeginValue() == i.upper
    ensures StepBy(i, 1).REndValue() == i.lower - 1
  {
    if i.ropen {
      SentinelUpOpen(i.lower, i.upper, 1);
    } else {
      SentinelUpClosed(i.lower, i.upper, 1);
    }
  }

  /** A step wider than a non-empty closed interval yields `lower` alone. */
  lemma WideStepYieldsLower(r: SteppedInterval)
    requires !r.ropen && 0 <= r.upper - r.lower < r.step
    ensures Walk(r) == [r.lower]
  {
    WalkLength(r);
  }
}
