/** The component store of the pixel buffer: a `Uint8ClampedArray`.
    Every number written into it is clamped to [0, 255] and rounded to the
    nearest integer, ties going to the even neighbour (ECMAScript ToUint8Clamp). */
module Bytes {

  /** One colour component as the clamped array holds it. */
  type Byte = x: int | 0 <= x < 256

  /** The value a clamped array actually stores when `x` is assigned to an element. */
  function ToByte(x: real): (b: Byte)
    ensures x <= 0.0 ==> b == 0
    ensures x >= 255.0 ==> b == 255
    // inside the range the stored value is a nearest integer ...
    ensures 0.0 <= x <= 255.0 ==> (b as real) - 0.5 <= x <= (b as real) + 0.5
    // ... and an exact tie goes to the even neighbour
    ensures 0.0 <= x <= 255.0 && (x == (b as real) - 0.5 || x == (b as real) + 0.5) ==> b % 2 == 0
  {
    if x <= 0.0 then 0
    else if x >= 255.0 then 255
    else
      var f := x.Floor;
      if (f as real) + 0.5 < x then f + 1
      else if x < (f as real) + 0.5 then f
      else if f % 2 == 1 then f + 1
      else f
  }

  /** Storing a number that already is a byte stores it unchanged. */
  lemma ToByteExact(v: Byte)
    ensures ToByte(v as real) == v
  {
    var b := ToByte(v as real);
    assert (b as real) - 0.5 <= v as real <= (b as real) + 0.5;
    if v as real == (b as real) - 0.5 || v as real == (b as real) + 0.5 {
      assert false;
    }
  }

  /** The store never moves a value out of an integer interval that contains it. */
  lemma ToByteBetween(x: real, lo: Byte, hi: Byte)
    requires lo as real <= x <= hi as real
    ensures lo <= ToByte(x) <= hi
  {
    var b := ToByte(x);
    assert (b as real) - 0.5 <= x <= (b as real) + 0.5;
  }
}
