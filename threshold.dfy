/** The threshold remap applied by `rebuild`: the slider value t becomes
    floor(t^7 * 3 * 255). Real numbers stand in for the JavaScript doubles. */
module Threshold {

  /** x raised to the natural power n (what `Math.pow(x, n)` computes, ideally). */
  function Pow(x: real, n: nat): real
  {
    if n == 0 then 1.0 else x * Pow(x, n - 1)
  }

  /** The remapped threshold, an integer; `rebuild` stores it back as the new
      threshold. A slider value in [0, 1] gives a threshold in [0, 765], 765 being
      the largest possible brightness difference. */
  function Remap(t: real): (r: int)
    ensures 0.0 <= t <= 1.0 ==> 0 <= r <= 765
  {
    PowUnitInterval(t, 7);
    (Pow(t, 7) * 3.0 * 255.0).Floor
  }

  /** A power of a number in [0, 1] stays in [0, 1]. */
  lemma {:induction false} PowUnitInterval(x: real, n: nat)
    ensures 0.0 <= x <= 1.0 ==> 0.0 <= Pow(x, n) <= 1.0
  {
    if n > 0 && 0.0 <= x <= 1.0 {
      PowUnitInterval(x, n - 1);
      MulMonotone(x, Pow(x, n - 1), 1.0, 1.0);
    }
  }

  lemma MulMonotone(a: real, b: real, c: real, d: real)
    requires 0.0 <= a <= c && 0.0 <= b <= d
    ensures 0.0 <= a * b <= c * d
  {
    assert a * b <= c * b;
    assert c * b <= c * d;
  }

  /** On non-negative numbers a power is monotone in its base. */
  lemma {:induction false} PowMonotone(a: real, b: real, n: nat)
    requires 0.0 <= a <= b
    ensures 0.0 <= Pow(a, n) <= Pow(b, n)
  {
    if n > 0 {
      PowMonotone(a, b, n - 1);
      MulMonotone(a, Pow(a, n - 1), b, Pow(b, n - 1));
    }
  }

  /** The slider's ends map to 0 and to 765 = 3 * 255. */
  lemma RemapEnds()
    ensures Remap(0.0) == 0
    ensures Remap(1.0) == 765
  {
    assert Pow(0.0, 7) == 0.0;
    assert Pow(1.0, 7) == 1.0;
  }

  /** The remap is monotone non-decreasing on the slider's range. */
  lemma RemapMonotone(a: real, b: real)
    requires 0.0 <= a <= b <= 1.0
    ensures Remap(a) <= Remap(b)
  {
    PowMonotone(a, b, 7);
    FloorMonotone(Pow(a, 7) * 3.0 * 255.0, Pow(b, 7) * 3.0 * 255.0);
  }

  lemma FloorMonotone(x: real, y: real)
    requires x <= y
    ensures x.Floor <= y.Floor
  {
  }

  /** `rebuild` remaps the threshold it finds, so it is not idempotent: starting from the
      default 0.45, the first rebuild gives 2 and the second 97920, far beyond any
      brightness difference. */
  lemma RemapNotIdempotent()
    ensures Remap(0.45) == 2
    ensures Remap(Remap(0.45) as real) == 97920
  {
    assert Pow(0.45, 7) == 0.00373669453125;
    assert Pow(2.0, 7) == 128.0;
  }
}
