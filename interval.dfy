/**
 * The parameter interval `Interval` (include/interval.hpp).
 *
 * In C++ an `Interval` is a value type held by value in tables; it is modelled as a
 * datatype.  `reset()`, which overwrites both bounds, is modelled by `Reset`, which
 * returns the overwritten value (`x := x.Reset()`).
 */
module Intervals {

  import opened Arith

  /**
   * `std::numeric_limits<parameter_t>::epsilon()`, where `parameter_t` is `long double`:
   * 2^-63 for the 80-bit extended format of x86-64.
   */
  const MachineEpsilon: real := 1.0 / 9223372036854775808.0

  datatype Interval = Interval(beg: real, en: real) {

    /** `begin()` */
    function Begin(): (r: real)
      ensures r == beg
    {
      beg
    }

    /** `end()` */
    function End(): (r: real)
      ensures r == en
    {
      en
    }

    /** `is_empty()`: with a gap of at least epsilon it answers `beg > en`, otherwise true. */
    predicate IsEmpty()
    {
      if en - beg >= MachineEpsilon then beg > en else true
    }

    /** `intersects(other)`: one of three closed-overlap cases, and never for an empty side. */
    predicate Intersects(other: Interval)
    {
      if IsEmpty() || other.IsEmpty() then false
      else
        (other.beg >= beg && other.beg <= en) ||
        (other.en >= beg && other.en <= en) ||
        (other.beg <= beg && other.en >= en)
    }

    /** `operator<` */
    predicate Less(other: Interval)
    {
      beg < other.beg || (beg == other.beg && en < other.en)
    }

    /** `reset()`: the bounds of a default-constructed interval. */
    function Reset(): (r: Interval)
      ensures r == Default()
      ensures r.IsEmpty()
    {
      Interval(1.0, 0.0)
    }
  }

  /** `Interval()`: the default constructor. */
  function Default(): (r: Interval)
    ensures r.beg == 1.0 && r.en == 0.0
    ensures r.IsEmpty()
  {
    Interval(1.0, 0.0)
  }

  // ---------------------------------------------------------------------------------
  // Properties.

  /** The two-argument constructor is read back unchanged by `begin()` / `end()`. */
  lemma BeginEndRoundTrip(b: real, e: real)
    ensures Interval(b, e).Begin() == b && Interval(b, e).End() == e
  {
  }

  /** `is_empty()` holds exactly when the interval is narrower than machine epsilon. */
  lemma IsEmptyIffNarrow(x: Interval)
    ensures x.IsEmpty() <==> x.en - x.beg < MachineEpsilon
  {
  }

  /** A non-empty interval has `beg < en`, with room of at least epsilon. */
  lemma NonEmptyIsProper(x: Interval)
    requires !x.IsEmpty()
    ensures x.beg < x.en && x.en - x.beg >= MachineEpsilon
  {
  }

  /** `intersects` is closed overlap `max(beg) <= min(en)` of two non-empty intervals. */
  lemma {:induction false} IntersectsIffOverlap(x: Interval, y: Interval)
    ensures x.Intersects(y) <==>
      !x.IsEmpty() && !y.IsEmpty() && RMax(x.beg, y.beg) <= RMin(x.en, y.en)
  {
    if !x.IsEmpty() && !y.IsEmpty() {
      NonEmptyIsProper(x);
      NonEmptyIsProper(y);
      if RMax(x.beg, y.beg) <= RMin(x.en, y.en) {
        if y.beg >= x.beg {
          assert y.beg >= x.beg && y.beg <= x.en;
        } else if y.en <= x.en {
          assert y.en >= x.beg && y.en <= x.en;
        } else {
          assert y.beg <= x.beg && y.en >= x.en;
        }
      }
    }
  }

  /** `intersects` is symmetric. */
  lemma IntersectsSymmetric(x: Interval, y: Interval)
    ensures x.Intersects(y) <==> y.Intersects(x)
  {
    IntersectsIffOverlap(x, y);
    IntersectsIffOverlap(y, x);
  }

  /** `operator<` is irreflexive. */
  lemma LessIrreflexive(x: Interval)
    ensures !x.Less(x)
  {
  }

  /** `operator<` is transitive. */
  lemma LessTransitive(x: Interval, y: Interval, z: Interval)
    requires x.Less(y) && y.Less(z)
    ensures x.Less(z)
  {
  }

  /** `operator<` is total on distinct intervals (a strict lexicographic order). */
  lemma LessTotal(x: Interval, y: Interval)
    requires x != y
    ensures x.Less(y) || y.Less(x)
  {
  }
}
