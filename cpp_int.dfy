/** C++ integer arithmetic that differs from Dafny's: the built-in `/` on `int`
    is Euclidean, while C++ truncates the quotient toward zero. */
module CppInt {

  function Abs(x: int): nat
  {
    if x < 0 then -x else x
  }

  /** The C++ quotient `a / b`: rounded toward zero, so the remainder
      `a - q * b` is smaller than the divisor and has the sign of `a`. */
  function Quot(a: int, b: int): (q: int)
    requires b != 0
    ensures Abs(a - q * b) < Abs(b)
    ensures 0 <= a ==> 0 <= a - q * b
    ensures a <= 0 ==> a - q * b <= 0
  {
    var n := Abs(a) / Abs(b);
    var q := if (a < 0) == (b < 0) then n else -n;
    MagnitudeDivision(a, b, n, q);
    q
  }

  /** Euclidean division of the magnitudes, with the sign of the quotient
      chosen from the signs of `a` and `b`. */
  lemma MagnitudeDivision(a: int, b: int, n: int, q: int)
    requires b != 0 && n == Abs(a) / Abs(b)
    requires q == if (a < 0) == (b < 0) then n else -n
    ensures Abs(a - q * b) < Abs(b)
    ensures 0 <= a ==> 0 <= a - q * b
    ensures a <= 0 ==> a - q * b <= 0
  {
    var x: int, y: int := Abs(a), Abs(b);
    var r: int := x % y;
    var p := n * y;
    assert x == p + r && 0 <= r < y;
    SignedProduct(a, b, n, q);
  }

  /** The quotient with its sign, times the divisor, is the product of the
      magnitudes carrying the sign of `a`. */
  lemma SignedProduct(a: int, b: int, n: int, q: int)
    requires q == if (a < 0) == (b < 0) then n else -n
    ensures q * b == if a < 0 then -(n * Abs(b)) else n * Abs(b)
  {
    if a < 0 && b < 0 { assert q * b == n * b; }
    else if a < 0 { assert q * b == (-n) * b; }
    else if b < 0 { assert q * b == (-n) * b; }
    else { assert q * b == n * b; }
  }

  /** The three properties in Quot's contract pin the quotient down: any other
      candidate quotient is Quot itself. */
  lemma QuotUnique(a: int, b: int, q: int)
    requires b != 0
    requires Abs(a - q * b) < Abs(b)
    requires 0 <= a ==> 0 <= a - q * b
    requires a <= 0 ==> a - q * b <= 0
    ensures q == Quot(a, b)
  {
    var p := Quot(a, b);
    SameRemainderSign(a, b, p, q, a - p * b, a - q * b);
  }

  /** Two quotients whose remainders share the sign of `a` and are smaller
      than `b` coincide. */
  lemma SameRemainderSign(a: int, b: int, p: int, q: int, rp: int, rq: int)
    requires b != 0 && rp == a - p * b && rq == a - q * b
    requires Abs(rp) < Abs(b) && Abs(rq) < Abs(b)
    requires 0 <= a ==> 0 <= rp && 0 <= rq
    requires a <= 0 ==> rp <= 0 && rq <= 0
    ensures p == q
  {
    var d := q - p;
    assert rp - rq == d * b by {
      assert q * b - p * b == (q - p) * b;
    }
    if d != 0 {
      MultipleAtLeast(d, b);
    }
  }

  /** A non-zero multiple of `b` is at least as large as `b` in magnitude. */
  lemma MultipleAtLeast(d: int, b: int)
    requires d != 0
    ensures Abs(d * b) >= Abs(b)
  {
    var m: int, y: int := Abs(d), Abs(b);
    assert m * y >= y by {
      assert m * y == (m - 1) * y + y;
      assert (m - 1) * y >= 0;
    }
    assert Abs(d * b) == m * y by {
      if d < 0 && b < 0 { assert d * b == m * y; }
      else if d < 0 { assert d * b == -(m * y); }
      else if b < 0 { assert d * b == -(m * y); }
      else { assert d * b == m * y; }
    }
  }

  /** On a non-negative dividend and a positive divisor the C++ quotient is
      the Euclidean one. */
  lemma QuotOfNonNegative(a: int, b: int)
    requires 0 <= a && 0 < b
    ensures Quot(a, b) == a / b
  {
    QuotUnique(a, b, a / b);
  }

  /** On two negative operands the quotient is that of their magnitudes. */
  lemma QuotOfNegatives(a: int, b: int)
    requires a < 0 && b < 0
    ensures Quot(a, b) == (-a) / (-b)
  {
  }
}
