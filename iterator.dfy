/** `const_interval_iterator<int>`: a position `value` that moves in units of
    a `step` fixed at construction. */
module Iterators {

  class IntervalIterator {
    var value: int
    const step: int

    /** `const_interval_iterator()`: value and step value-initialised. */
    constructor Default()
      ensures value == 0 && step == 0
    {
      value := 0;
      step := 0;
    }

    /** `const_interval_iterator(value, step)`. */
    constructor (value: int, step: int)
      ensures this.value == value && this.step == step
    {
      this.value := value;
      this.step := step;
    }

    /** `operator*`: the current value. */
    function Current(): (v: int)
      reads this
      ensures v == value
    {
      value
    }

    /** `operator[](n)`: the value `n` steps ahead, read without moving. */
    function At(n: int): (v: int)
      reads this
      ensures v - value == n * step
      ensures n == 0 ==> v == value
    {
      value + n * step
    }

    /** Prefix `operator++`: one step forward. */
    method Increment()
      modifies this
      ensures value == old(value) + step
    {
      value := value + step;
    }

    /** Prefix `operator--`: one step back. */
    method Decrement()
      modifies this
      ensures value == old(value) - step
    {
      value := value - step;
    }

    /** Postfix `operator++`: one step forward, returning a copy of the old position. */
    method PostIncrement() returns (copy: IntervalIterator)
      modifies this
      ensures fresh(copy) && copy.value == old(value) && copy.step == step
      ensures value == old(value) + step
    {
      copy := new IntervalIterator(value, step);
      Increment();
    }

    /** Postfix `operator--`: one step back, returning a copy of the old position. */
    method PostDecrement() returns (copy: IntervalIterator)
      modifies this
      ensures fresh(copy) && copy.value == old(value) && copy.step == step
      ensures value == old(value) - step
    {
      copy := new IntervalIterator(value, step);
      Decrement();
    }

    /** `operator+=(n)`: `n` steps at once, the position `At(n)`. */
    method AdvanceBy(n: int)
      modifies this
      ensures value == old(At(n))
    {
      value := value + n * step;
    }

    /** `operator-=(n)`: `n` steps back at once, the position `At(-n)`. */
    method RetreatBy(n: int)
      modifies this
      ensures value == old(At(-n))
    {
      value := value - n * step;
    }

    /** `it + n`: a copy moved `n` steps; the iterator itself stays. */
    method Plus(n: int) returns (r: IntervalIterator)
      ensures fresh(r) && r.value == At(n) && r.step == step
    {
      r := new IntervalIterator(value, step);
      r.AdvanceBy(n);
    }

    /** `it - n`: a copy moved back; the iterator itself stays. */
    method Minus(n: int) returns (r: IntervalIterator)
      ensures fresh(r) && r.value == At(-n) && r.step == step
    {
      r := new IntervalIterator(value, step);
      r.RetreatBy(n);
    }
  }

  /** `operator==`: positions compared, steps ignored. */
  predicate Same(a: IntervalIterator, b: IntervalIterator)
    reads a, b
    ensures Same(a, b) <==> a.Current() == b.Current()
  {
    a.value == b.value
  }

  /** `operator!=`: the negation of `operator==`. */
  predicate NotSame(a: IntervalIterator, b: IntervalIterator)
    reads a, b
    ensures NotSame(a, b) <==> Before(a, b) || Before(b, a)
  {
    !Same(a, b)
  }

  /** `operator<`: strictly before, never at the same position; when
      neither before nor at the same position, the other comes first. */
  predicate Before(a: IntervalIterator, b: IntervalIterator)
    reads a, b
    ensures Before(a, b) ==> !Same(a, b)
    ensures !Before(a, b) && !Same(a, b) ==> b.Current() < a.Current()
  {
    a.value < b.value
  }

  /** `operator<=`. */
  predicate BeforeOrSame(a: IntervalIterator, b: IntervalIterator)
    reads a, b
    ensures BeforeOrSame(a, b) <==> Before(a, b) || Same(a, b)
  {
    a.value <= b.value
  }

  /** `operator>`. */
  predicate After(a: IntervalIterator, b: IntervalIterator)
    reads a, b
    ensures After(a, b) <==> Before(b, a)
  {
    a.value > b.value
  }

  /** `operator>=`. */
  predicate AfterOrSame(a: IntervalIterator, b: IntervalIterator)
    reads a, b
    ensures AfterOrSame(a, b) <==> BeforeOrSame(b, a)
  {
    a.value >= b.value
  }

  /** The comparisons order positions totally: exactly one of before, same
      and after holds, and the others are their combinations. They look at
      positions only: two iterators at one position, whatever their steps,
      compare alike against every third iterator. */
  lemma ComparisonsAgree(a: IntervalIterator, b: IntervalIterator)
    ensures Before(a, b) || Same(a, b) || After(a, b)
    ensures !(Before(a, b) && Same(a, b)) && !(Before(a, b) && After(a, b)) && !(Same(a, b) && After(a, b))
    ensures BeforeOrSame(a, b) <==> Before(a, b) || Same(a, b)
    ensures AfterOrSame(a, b) <==> After(a, b) || Same(a, b)
    ensures After(a, b) <==> Before(b, a)
    ensures Same(a, b) <==> Same(b, a)
    ensures NotSame(a, b) <==> !Same(a, b)
    ensures !(Before(a, b) && Before(b, a))
    ensures Same(a, b) ==> forall c: IntervalIterator ::
      (Same(a, c) <==> Same(b, c)) && (Before(a, c) <==> Before(b, c)) && (Before(c, a) <==> Before(c, b))
  {
  }

  /** The friend `n + it`: a copy of `it` moved `n` steps. */
  method PlusLeft(n: int, it: IntervalIterator) returns (r: IntervalIterator)
    ensures fresh(r) && r.value == it.At(n) && r.step == it.step
  {
    r := new IntervalIterator(it.value, it.step);
    r.AdvanceBy(n);
  }

  /** `it + n == n + it`, and both keep the step. */
  method PlusCommutes(it: IntervalIterator, n: int) returns (left: IntervalIterator, right: IntervalIterator)
    ensures Same(left, right) && left.step == right.step == it.step
  {
    left := it.Plus(n);
    right := PlusLeft(n, it);
  }

  /** `++` then `--` restores the position, and so do `+= n` then `-= n`. */
  method MovesUndo(it: IntervalIterator, n: int)
    modifies it
    ensures it.value == old(it.value)
  {
    it.Increment();
    it.Decrement();
    it.AdvanceBy(n);
    it.RetreatBy(n);
  }

  /** `+= n` lands where `n` prefix increments would. */
  method AdvanceIsRepeatedIncrement(it: IntervalIterator, n: nat)
    modifies it
    ensures it.value == old(it.At(n))
  {
    var k := 0;
    while k < n
      invariant 0 <= k <= n
      invariant it.value == old(it.value) + k * it.step
    {
      it.Increment();
      k := k + 1;
    }
  }
}
