/** The pixel-sorting kernel on the value of the buffer: what `setPixel`,
    `compare`, `compareAndRecolor` and one pass of `iterate` do to the bytes. The
    in-place methods of the Sorter module are proved to compute exactly these. */
module Kernel {
  import opened Bytes
  import opened Scan

  /** The plain R + G + B sum of the pixel at `index`; alpha is ignored. */
  function Brightness(s: seq<Byte>, index: int): (v: int)
    requires 0 <= index && index + 2 < |s|
    ensures 0 <= v <= 765
  {
    s[index] as int + s[index + 1] as int + s[index + 2] as int
  }

  /** Both pixels of a pair lie inside the buffer. */
  predicate InRange(s: seq<Byte>, source: int, target: int)
  {
    0 <= source && source + 2 < |s| && 0 <= target && target + 2 < |s|
  }

  /** `compare(source, target)`: the target's brightness minus the source's, tested
      against the threshold; a positive threshold asks for a brighter target, any
      other threshold (zero included) for a target darker by more than |threshold|.
      A read past the buffer yields `undefined`, the sum becomes NaN and both tests
      fail, so a pair that leaves the buffer never qualifies. */
  predicate Compare(s: seq<Byte>, source: int, target: int, threshold: real)
    ensures Compare(s, source, target, threshold) ==> InRange(s, source, target)
  {
    if !InRange(s, source, target) then false
    else
      var diff := (Brightness(s, target) - Brightness(s, source)) as real;
      if threshold > 0.0 then diff > threshold else diff < threshold
  }

  /** One channel moved the fraction `strength` of the way toward `toward`, then
      stored in the clamped byte array. */
  function Blend(current: Byte, toward: Byte, strength: real): (b: Byte)
    ensures strength == 0.0 ==> b == current
    ensures strength == 1.0 ==> b == toward
    ensures 0.0 <= strength <= 1.0 ==>
      (current <= toward ==> current <= b <= toward) && (toward <= current ==> toward <= b <= current)
  {
    var x := current as real + Scaled(strength, (toward - current) as real);
    ToByteExact(current);
    ToByteExact(toward);
    if 0.0 <= strength <= 1.0 then
      ScaleBetween(strength, (toward - current) as real);
      if current <= toward then ToByteBetween(x, current, toward); ToByte(x)
      else ToByteBetween(x, toward, current); ToByte(x)
    else
      ToByte(x)
  }

  /** The step `setPixel` takes: the fraction f of the difference d. */
  function Scaled(f: real, d: real): real
  {
    f * d
  }

  /** A fraction in [0, 1] of a difference lies between zero and that difference. */
  lemma ScaleBetween(f: real, d: real)
    requires 0.0 <= f <= 1.0
    ensures 0.0 <= d ==> 0.0 <= Scaled(f, d) <= d
    ensures d <= 0.0 ==> d <= Scaled(f, d) <= 0.0
  {
    if d == 0.0 {
      assert f * d == 0.0;
    } else if 0.0 < d {
      assert 0.0 <= f * d <= 1.0 * d;
    } else {
      assert 1.0 * d <= f * d <= 0.0;
    }
  }

  /** `setPixel(index, r, g, b)`: the buffer with the R, G and B bytes at `index`
      each blended toward the given colour; every other byte, alpha included, kept. */
  function Blended(s: seq<Byte>, index: int, r: Byte, g: Byte, b: Byte, strength: real): (t: seq<Byte>)
    requires 0 <= index && index + 2 < |s|
    ensures |t| == |s|
    ensures forall k :: 0 <= k < |s| && k != index && k != index + 1 && k != index + 2 ==> t[k] == s[k]
  {
    s[index := Blend(s[index], r, strength)]
     [index + 1 := Blend(s[index + 1], g, strength)]
     [index + 2 := Blend(s[index + 2], b, strength)]
  }

  /** `compareAndRecolor(source, target)`: nothing when `compare` fails; otherwise the
      target is blended toward the source's colour and then the source toward the
      target's colour, both colours read before either write. */
  function Recolored(s: seq<Byte>, source: int, target: int, strength: real, threshold: real): (t: seq<Byte>)
    ensures |t| == |s|
  {
    if !Compare(s, source, target, threshold) then s
    else
      var u := Blended(s, target, s[source], s[source + 1], s[source + 2], strength);
      Blended(u, source, s[target], s[target + 1], s[target + 2], strength)
  }

  /** The buffer after recolouring the pairs of `ps` one after another, in order. */
  function Apply(s: seq<Byte>, ps: seq<(int, int)>, strength: real, threshold: real): (t: seq<Byte>)
    ensures |t| == |s|
    decreases |ps|
  {
    if ps == [] then s
    else Apply(Recolored(s, ps[0].0, ps[0].1, strength, threshold), ps[1..], strength, threshold)
  }

  // ---- setPixel ----

  /** With strength 0 `setPixel` leaves the buffer as it was. */
  lemma BlendedNoOp(s: seq<Byte>, index: int, r: Byte, g: Byte, b: Byte)
    requires 0 <= index && index + 2 < |s|
    ensures Blended(s, index, r, g, b, 0.0) == s
  {
    var t := Blended(s, index, r, g, b, 0.0);
    assert forall k :: 0 <= k < |s| ==> t[k] == s[k];
  }

  /** With strength 1 `setPixel` stores exactly the given colour. */
  lemma BlendedExact(s: seq<Byte>, index: int, r: Byte, g: Byte, b: Byte)
    requires 0 <= index && index + 2 < |s|
    ensures var t := Blended(s, index, r, g, b, 1.0);
      t[index] == r && t[index + 1] == g && t[index + 2] == b
  {
  }

  // ---- compare ----

  /** Inside the buffer, a positive threshold asks for a target brighter than the source by more than the threshold, and any other
      threshold asks for a target darker than the source by more than its magnitude. */
  lemma CompareDirection(s: seq<Byte>, source: int, target: int, threshold: real)
    ensures InRange(s, source, target) && threshold > 0.0 ==>
      (Compare(s, source, target, threshold) <==>
        Brightness(s, target) as real > Brightness(s, source) as real + threshold)
    ensures InRange(s, source, target) && threshold <= 0.0 ==>
      (Compare(s, source, target, threshold) <==>
        Brightness(s, source) as real - Brightness(s, target) as real > -threshold)
  {
  }

  /** The sign of the threshold chooses the direction: a negative threshold -d asks
      for exactly what the positive threshold d asks of the swapped pair. */
  lemma CompareSignFlip(s: seq<Byte>, source: int, target: int, d: real)
    requires d > 0.0
    ensures Compare(s, source, target, -d) == Compare(s, target, source, d)
  {
  }

  /** A zero threshold takes the second branch: only a strictly darker target qualifies. */
  lemma CompareAtZero(s: seq<Byte>, source: int, target: int)
    requires InRange(s, source, target)
    ensures Compare(s, source, target, 0.0) <==> Brightness(s, target) < Brightness(s, source)
  {
  }

  /** A pair never qualifies in both directions at once. */
  lemma CompareAsymmetric(s: seq<Byte>, source: int, target: int, threshold: real)
    ensures !(Compare(s, source, target, threshold) && Compare(s, target, source, threshold))
  {
  }

  /** Brightness differences lie in [-765, 765], so a threshold of at least 765 (the
      remap of the slider's top) or at most -765 never lets a pair through. */
  lemma CompareOutOfReach(s: seq<Byte>, source: int, target: int, threshold: real)
    requires threshold >= 765.0 || threshold <= -765.0
    ensures !Compare(s, source, target, threshold)
  {
  }

  // ---- compareAndRecolor ----

  /** When `compare` fails the buffer is not touched at all. */
  lemma RecolorRejected(s: seq<Byte>, source: int, target: int, strength: real, threshold: real)
    requires !Compare(s, source, target, threshold)
    ensures Recolored(s, source, target, strength, threshold) == s
  {
  }

  /** When `compare` holds for two distinct pixels, each channel of each pixel is
      blended toward the other pixel's channel as it was before the call, and no
      other byte (alpha bytes included) changes. */
  lemma RecolorAccepted(s: seq<Byte>, source: int, target: int, strength: real, threshold: real)
    requires InRange(s, source, target)
    requires source + 3 <= target || target + 3 <= source
    requires Compare(s, source, target, threshold)
    ensures var t := Recolored(s, source, target, strength, threshold);
      (forall k :: target <= k < target + 3 ==> t[k] == Blend(s[k], s[k - target + source], strength)) &&
      (forall k :: source <= k < source + 3 ==> t[k] == Blend(s[k], s[k - source + target], strength)) &&
      (forall k :: 0 <= k < |s| && !(source <= k < source + 3) && !(target <= k < target + 3) ==> t[k] == s[k])
  {
    var u := Blended(s, target, s[source], s[source + 1], s[source + 2], strength);
    var t := Blended(u, source, s[target], s[target + 1], s[target + 2], strength);
    assert Recolored(s, source, target, strength, threshold) == t;
    assert u[source] == s[source] && u[source + 1] == s[source + 1] && u[source + 2] == s[source + 2];
    assert t[target] == u[target] && t[target + 1] == u[target + 1] && t[target + 2] == u[target + 2];
  }

  /** With strength 1 an accepted pair swaps its two colours exactly. */
  lemma RecolorSwaps(s: seq<Byte>, source: int, target: int, threshold: real)
    requires InRange(s, source, target)
    requires source + 3 <= target || target + 3 <= source
    requires Compare(s, source, target, threshold)
    ensures var t := Recolored(s, source, target, 1.0, threshold);
      t[target..target + 3] == s[source..source + 3] && t[source..source + 3] == s[target..target + 3]
  {
    RecolorAccepted(s, source, target, 1.0, threshold);
  }

  /** With strength 0 even an accepted pair leaves the buffer unchanged. */
  lemma RecolorStrengthZero(s: seq<Byte>, source: int, target: int, threshold: real)
    ensures Recolored(s, source, target, 0.0, threshold) == s
  {
    if Compare(s, source, target, threshold) {
      var u := Blended(s, target, s[source], s[source + 1], s[source + 2], 0.0);
      BlendedNoOp(s, target, s[source], s[source + 1], s[source + 2]);
      BlendedNoOp(u, source, s[target], s[target + 1], s[target + 2]);
    }
  }

  // ---- a whole pass ----

  /** A pass with a threshold out of reach of any brightness difference changes nothing. */
  lemma {:induction false} ApplyOutOfReach(s: seq<Byte>, ps: seq<(int, int)>, strength: real, threshold: real)
    requires threshold >= 765.0 || threshold <= -765.0
    ensures Apply(s, ps, strength, threshold) == s
    decreases |ps|
  {
    if ps != [] {
      CompareOutOfReach(s, ps[0].0, ps[0].1, threshold);
      ApplyOutOfReach(s, ps[1..], strength, threshold);
    }
  }

  /** A pass with strength 0 changes nothing, whatever the threshold. */
  lemma {:induction false} ApplyStrengthZero(s: seq<Byte>, ps: seq<(int, int)>, threshold: real)
    ensures Apply(s, ps, 0.0, threshold) == s
    decreases |ps|
  {
    if ps != [] {
      RecolorStrengthZero(s, ps[0].0, ps[0].1, threshold);
      ApplyStrengthZero(s, ps[1..], threshold);
    }
  }

  /** Recolouring a list that starts with p recolours p first. */
  lemma ApplyCons(s: seq<Byte>, p: (int, int), rest: seq<(int, int)>, strength: real, threshold: real)
    ensures Apply(s, [p] + rest, strength, threshold) ==
      Apply(Recolored(s, p.0, p.1, strength, threshold), rest, strength, threshold)
  {
    assert ([p] + rest)[1..] == rest;
  }

  /** Recolouring two lists of pairs one after the other is recolouring their concatenation. */
  lemma {:induction false} ApplyConcat(s: seq<Byte>, ps: seq<(int, int)>, qs: seq<(int, int)>, strength: real, threshold: real)
    ensures Apply(s, ps + qs, strength, threshold) == Apply(Apply(s, ps, strength, threshold), qs, strength, threshold)
    decreases |ps|
  {
    if ps != [] {
      assert (ps + qs)[1..] == ps[1..] + qs;
      ApplyConcat(Recolored(s, ps[0].0, ps[0].1, strength, threshold), ps[1..], qs, strength, threshold);
    } else {
      assert ps + qs == qs;
    }
  }

  /** A 2 x 1 image, black then white, scanned horizontally with threshold 10 and
      strength 1: the white target is brighter by 765 > 10, so the two pixels swap. */
  lemma BlackWhiteSwap()
    ensures Apply([0, 0, 0, 255, 255, 255, 255, 255], ScanPairs(2, 1, false), 1.0, 10.0)
      == [255, 255, 255, 255, 0, 0, 0, 255]
  {
    var ps := ScanPairs(2, 1, false);
    assert ps[Flat(1, 0, 0)] == (0, 4);
    assert ps == [(0, 4)];
    var s: seq<Byte> := [0, 0, 0, 255, 255, 255, 255, 255];
    assert Compare(s, 0, 4, 10.0);
    RecolorAccepted(s, 0, 4, 1.0, 10.0);
  }

  /** The same image with threshold -10: the test asks for a darker target, so nothing changes. */
  lemma BlackWhiteNegativeThreshold()
    ensures var s: seq<Byte> := [0, 0, 0, 255, 255, 255, 255, 255];
      Apply(s, ScanPairs(2, 1, false), 1.0, -10.0) == s
  {
    var ps := ScanPairs(2, 1, false);
    assert ps[Flat(1, 0, 0)] == (0, 4);
    assert ps == [(0, 4)];
  }
}
