/** Saturating counters, clamps and the numeric primitives every component shares.
    Real numbers stand for the source's floating point; logarithm, predictive surprise and
    the string hash arrive as parameters constrained only by what the code relies on. */
module Numerics {

  datatype Option<+T> = None | Some(value: T)

  /** The largest 32-bit counter or timestamp. */
  const U32_MAX: nat := 0xFFFF_FFFF

  const TWO_TO_THE_32: nat := 0x1_0000_0000
  const TWO_TO_THE_64: nat := 0x1_0000_0000_0000_0000

  /** A 64-bit hash. */
  type Hash = h: nat | h < TWO_TO_THE_64

  /** An IPv4 address. */
  type Ip = a: nat | a < TWO_TO_THE_32

  /** Unsigned subtraction that stops at zero. */
  function SatSub(a: nat, b: nat): nat {
    if a >= b then a - b else 0
  }

  /** 32-bit increment that stops at the top. */
  function SatInc(a: nat): nat {
    if a < U32_MAX then a + 1 else a
  }

  function Max(x: real, y: real): real {
    if x >= y then x else y
  }

  function Min(x: real, y: real): real {
    if x <= y then x else y
  }

  function Clamp(x: real, lo: real, hi: real): real {
    if x < lo then lo else if x > hi then hi else x
  }

  /** `perSecond` is the decay factor of one second, so that the decay over dt seconds is
      its dt-th power; `surprise(a, b, n)` scores a count n against a Gamma posterior and
      never exceeds `cap`. */
  datatype RawPrimitives = RawPrimitives(
    ln: real -> real,
    perSecond: real,
    surprise: (real, real, nat) -> real,
    cap: real,
    hash: string -> Hash)

  ghost predicate ValidPrimitives(p: RawPrimitives) {
    && (forall x, y {:trigger p.ln(x), p.ln(y)} :: 0.0 < x < y ==> p.ln(x) < p.ln(y))
    && p.ln(1.0) == 0.0
    && 0.0 < p.perSecond <= 1.0
    && (forall a, b, n :: 0.0 <= p.surprise(a, b, n) <= p.cap)
  }

  type Primitives = p: RawPrimitives | ValidPrimitives(p)
    witness RawPrimitives(x => x - 1.0, 1.0, (a, b, n) => 0.0, 0.0, s => 0)

  /** `factor` to the power `dt`: how much of a walk survives dt seconds. */
  function Leak(factor: real, dt: nat): real {
    if dt == 0 then 1.0 else factor * Leak(factor, dt - 1)
  }

  lemma ProductOfShares(a: real, b: real)
    requires 0.0 < a <= 1.0 && 0.0 < b <= 1.0
    ensures 0.0 < a * b <= 1.0
  {
    assert a * b <= 1.0 * b;
  }

  lemma {:induction false} LeakBounds(factor: real, dt: nat)
    requires 0.0 < factor <= 1.0
    ensures 0.0 < Leak(factor, dt) <= 1.0
  {
    if dt > 0 {
      LeakBounds(factor, dt - 1);
      ProductOfShares(factor, Leak(factor, dt - 1));
    }
  }

  lemma {:induction false} LeakAdds(factor: real, s: nat, t: nat)
    ensures Leak(factor, s + t) == Leak(factor, s) * Leak(factor, t)
  {
    hide Leak;
    if t == 0 {
      LeakOfNothing(factor, Leak(factor, s));
    } else {
      LeakAdds(factor, s, t - 1);
      LeakUnfolds(factor, s + t);
      LeakUnfolds(factor, t);
      MulAcross(factor, Leak(factor, s), Leak(factor, t - 1));
      assert s + t - 1 == s + (t - 1);
    }
  }

  lemma LeakUnfolds(factor: real, t: nat)
    requires t > 0
    ensures Leak(factor, t) == factor * Leak(factor, t - 1)
  {
  }

  lemma LeakOfNothing(factor: real, x: real)
    ensures x == x * Leak(factor, 0)
  {
  }

  lemma MulAcross(f: real, a: real, b: real)
    ensures f * (a * b) == a * (f * b)
  {
  }

  // ---- small facts about products, kept apart so that no other proof meets them ----

  lemma MulMono(a: real, b: real, k: real)
    requires a <= b && 0.0 <= k
    ensures a * k <= b * k
  {
  }

  lemma ShrinkPositive(x: real, f: real, lo: real, hi: real)
    requires 0.0 <= f <= 1.0 && 0.0 <= x <= hi && lo <= 0.0
    ensures lo <= x * f <= hi
  {
    assert 0.0 <= x * f <= x;
  }

  lemma ShrinkNegative(x: real, f: real, lo: real, hi: real)
    requires 0.0 <= f <= 1.0 && lo <= x <= 0.0 <= hi
    ensures lo <= x * f <= hi
  {
    assert x <= x * f <= 0.0;
  }

  /** Scaling towards zero stays inside any interval around zero. */
  lemma ShrinkWithin(x: real, f: real, lo: real, hi: real)
    requires 0.0 <= f <= 1.0 && lo <= x <= hi && lo <= 0.0 <= hi
    ensures lo <= x * f <= hi
  {
    if 0.0 <= x {
      ShrinkPositive(x, f, lo, hi);
    } else {
      ShrinkNegative(x, f, lo, hi);
    }
  }

  lemma RatioSign(x: real, y: real)
    requires 0.0 < x && 0.0 < y
    ensures 0.0 < x / y && (x / y > 1.0 <==> x > y) && (x / y < 1.0 <==> x < y)
  {
    var q := x / y;
    assert q * y == x;
    if q > 1.0 {
      assert (q - 1.0) * y > 0.0;
    } else if q < 1.0 {
      assert (1.0 - q) * y > 0.0;
    }
  }

  lemma RatioMonotone(x: real, a: real, b: real)
    requires 0.0 < x && 0.0 < a <= b
    ensures 0.0 < x / b <= x / a
  {
    var p, q := x / a, x / b;
    assert p * a == x && q * b == x;
    assert 0.0 < p && 0.0 < q;
    MulMono(a, b, q);
    assert (p - q) * a >= 0.0;
  }

  /** The logarithm of a ratio is positive exactly when the ratio exceeds one. */
  lemma LogSign(num: Primitives, x: real, y: real)
    requires 0.0 < x && 0.0 < y
    ensures num.ln(x / y) > 0.0 <==> x > y
    ensures num.ln(x / y) < 0.0 <==> x < y
  {
    RatioSign(x, y);
    assert num.ln(1.0) == 0.0;
  }

  lemma LogMonotone(num: Primitives, x: real, y: real)
    requires 0.0 < x <= y
    ensures num.ln(x) <= num.ln(y)
  {
  }
}
