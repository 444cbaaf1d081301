/** Small value types shared by the modules of the model. */
module Wrappers {

  /** Python's `None` / a C++ empty slot. */
  datatype Option<+T> = None | Some(value: T)
}

/**
 * `distance_t` is a C++ `double`; the algorithms use `std::numeric_limits<double>::infinity()`
 * as "unreachable" / "not yet finite".  The model keeps the finite values exact (`real`)
 * and adds one point at infinity.
 */
module ExtReals {

  datatype ExtReal = Fin(v: real) | Inf {

    /** `this <= other` on the extended line. */
    predicate Le(other: ExtReal) {
      match other
      case Inf => true
      case Fin(w) => Fin? && v <= w
    }

    /** `this < other` on the extended line. */
    predicate Lt(other: ExtReal) {
      match this
      case Inf => false
      case Fin(x) => other.Inf? || x < other.v
    }
  }

  /** `std::max` */
  function Max(a: ExtReal, b: ExtReal): ExtReal
  {
    if a.Le(b) then b else a
  }

  /** `std::min`: returns the first argument on ties, as `std::min` does. */
  function Min(a: ExtReal, b: ExtReal): ExtReal
  {
    if b.Lt(a) then b else a
  }

  /** IEEE addition where one infinite summand makes the sum infinite. */
  function Add(a: ExtReal, b: ExtReal): ExtReal
  {
    if a.Fin? && b.Fin? then Fin(a.v + b.v) else Inf
  }

  lemma LeTotal(a: ExtReal, b: ExtReal)
    ensures a.Le(b) || b.Le(a)
    ensures a.Lt(b) <==> !b.Le(a)
  {
  }

  lemma LeTrans(a: ExtReal, b: ExtReal, c: ExtReal)
    requires a.Le(b) && b.Le(c)
    ensures a.Le(c)
  {
  }

  lemma LeLtTrans(a: ExtReal, b: ExtReal, c: ExtReal)
    requires a.Le(b) && b.Lt(c)
    ensures a.Lt(c)
  {
  }

  /** `Max` is the least upper bound of its arguments. */
  lemma MaxIsLub(a: ExtReal, b: ExtReal, c: ExtReal)
    ensures a.Le(Max(a, b)) && b.Le(Max(a, b))
    ensures Max(a, b) == a || Max(a, b) == b
    ensures a.Le(c) && b.Le(c) ==> Max(a, b).Le(c)
  {
  }

  /** `Max` is monotone in both arguments. */
  lemma MaxMonotone(a: ExtReal, b: ExtReal, c: ExtReal, d: ExtReal)
    requires a.Le(c) && b.Le(d)
    ensures Max(a, b).Le(Max(c, d))
  {
  }
}

/** Integer powers and a termination budget for loops that halve a real interval. */
module Arith {

  /** `std::max` on reals (the first argument on ties). */
  function RMax(a: real, b: real): real
  {
    if a >= b then a else b
  }

  /** `std::min` on reals (the first argument on ties). */
  function RMin(a: real, b: real): real
  {
    if b < a then b else a
  }

  function Pow(b: nat, e: nat): (r: nat)
    ensures b >= 1 ==> r >= 1
  {
    if e == 0 then 1 else b * Pow(b, e - 1)
  }

  function Pow2(e: nat): (r: nat)
    ensures r >= 1
  {
    Pow(2, e)
  }

  lemma {:induction false} Pow2Grows(e: nat)
    ensures Pow2(e) > e
  {
    if e > 0 {
      Pow2Grows(e - 1);
    }
  }

  lemma Pow2Succ(e: nat)
    ensures Pow2(e + 1) == 2 * Pow2(e)
  {
  }

  lemma {:induction false} Pow2Monotone(a: nat, b: nat)
    requires a <= b
    ensures Pow2(a) <= Pow2(b)
  {
    if a < b {
      Pow2Monotone(a, b - 1);
    }
  }

  /**
   * A number of halvings after which an interval of width `w` is no wider than `eps`:
   * `w <= eps * 2^k`.  Used as the ghost termination measure of the bisection loops.
   */
  function HalvingBudget(w: real, eps: real): (k: nat)
    requires eps > 0.0
    ensures w <= eps * (Pow2(k) as real)
  {
    if w <= eps then
      assert Pow2(0) == 1;
      0
    else
      var k := (w / eps).Floor + 1;
      BudgetBound(w, eps, k);
      k
  }

  /** `floor(w / eps) + 1` halvings suffice. */
  lemma BudgetBound(w: real, eps: real, k: nat)
    requires eps > 0.0 && k == (w / eps).Floor + 1
    ensures w <= eps * (Pow2(k) as real)
  {
    Pow2Grows(k);
    var q := w / eps;
    assert eps * q == w;
    assert q <= Pow2(k) as real;
    RealMulLe(eps, q, Pow2(k) as real);
  }

  /** Multiplying by a positive factor keeps `<=`. */
  lemma RealMulLe(e: real, a: real, b: real)
    requires e > 0.0 && a <= b
    ensures e * a <= e * b
  {
    assert e * b - e * a == e * (b - a);
  }

  /** An integer quotient `a / d` with `0 <= a < d` is 0. */
  lemma DivSmall(a: int, d: int)
    requires 0 <= a < d
    ensures a / d == 0
  {
    var q, r := a / d, a % d;
    assert a == d * q + r && 0 <= r < d;
    MulAtLeast(d, q);
  }

  /** A positive `d` times a non-zero integer is at least `d` away from 0. */
  lemma MulAtLeast(d: int, q: int)
    requires d > 0
    ensures q >= 1 ==> d * q >= d
    ensures q <= -1 ==> d * q <= -d
  {
    assert d * q == d * (q - 1) + d;
    assert d * q == d * (q + 1) - d;
  }

  /** `w` halved `k` times. */
  function Halved(w: real, k: nat): real
  {
    if k == 0 then w else Halved(w, k - 1) / 2.0
  }

  /** Halving `k` times divides by `2^k`. */
  lemma {:induction false} HalvedScales(w: real, k: nat)
    ensures Halved(w, k) * (Pow2(k) as real) == w
  {
    if k > 0 {
      HalvedScales(w, k - 1);
      Pow2Succ(k - 1);
      var q := Pow2(k - 1) as real;
      assert (Pow2(k) as real) == 2.0 * q;
      assert Halved(w, k) * (2.0 * q) == Halved(w, k - 1) * q;
    }
  }

  /**
   * A width `w0` that is still wider than `eps` after `k` halvings has `k` below its
   * halving budget.
   */
  lemma WithinBudget(w0: real, eps: real, k: nat, budget: nat)
    requires 0.0 < eps < Halved(w0, k) && budget == HalvingBudget(w0, eps)
    ensures k < budget
  {
    if k >= budget {
      HalvedScales(w0, k);
      Pow2Monotone(budget, k);
      assert false;
    }
  }

  /** One more than the largest `size_t` (64 bits). */
  const SizeMax: nat := 0x1_0000_0000_0000_0000

  /** `size_t` subtraction: wraps around modulo 2^64. */
  function SizeSub(a: nat, b: nat): (r: nat)
    ensures r < SizeMax
    ensures b <= a < SizeMax ==> r == a - b
  {
    (a - b) % SizeMax
  }

  /** Multiplication by a natural number is monotone. */
  lemma MulLe(b: nat, x: nat, y: nat)
    requires x <= y
    ensures b * x <= b * y
  {
  }

  /** A strict inequality between multiples of `b` holds between the factors. */
  lemma MulLtCancel(b: nat, x: nat, y: nat)
    requires b * x < b * y
    ensures x < y
  {
    if y <= x {
      MulLe(b, y, x);
    }
  }

  /** `b * (x + 1)` distributes. */
  lemma MulSucc(b: nat, x: nat)
    ensures b * (x + 1) == b * x + b
  {
  }

  /** A factor in `[0, 1)` shrinks a positive number. */
  lemma ScaleBelow(u: real, x: real)
    requires 0.0 <= u < 1.0 && x > 0.0
    ensures 0.0 <= u * x < x
  {
    assert (1.0 - u) * x > 0.0;
  }

  /** The index a uniform draw `u` selects among `n` items: `floor(u * n)`, always one of them. */
  function SampleIndex(u: real, n: nat): (k: nat)
    requires 0.0 <= u < 1.0 && n >= 1
    ensures k < n && (k as real) <= u * (n as real) < (k as real) + 1.0
  {
    ScaleBelow(u, n as real);
    (u * (n as real)).Floor
  }

  /** `std::round`: to the nearest integer, halfway cases away from zero. */
  function Round(x: real): (r: int)
    ensures x - 0.5 <= r as real <= x + 0.5
    ensures x >= 0.0 ==> r >= 0
  {
    if x >= 0.0 then (x + 0.5).Floor else -((0.5 - x).Floor)
  }
}
