/** The running effect: the pixel buffer and the live configuration that the
    closures of the page share, with the operations that change them in place. */
module Sorter {
  import opened Bytes
  import opened Threshold
  import opened Scan
  import opened Kernel

  class PixelSorter {
    /** The RGBA bytes of the loaded image, row by row, four per pixel. */
    var data: array<Byte>
    var width: nat
    var height: nat
    /** The live configuration, read afresh by every operation. */
    var strength: real
    var threshold: real
    var vertical: bool
    /** The scan geometry, fixed when the image last loaded. */
    var rWidth: int
    var maxRow: int
    var maxColumn: int

    /** The buffer holds exactly the image's pixels, and the geometry was derived
        from its size for one orientation or the other. */
    ghost predicate Valid()
      reads this
    {
      width >= 1 && height >= 1 && data.Length == 4 * width * height &&
      (Geometry(rWidth, maxRow, maxColumn) == Derive(width, height, true) ||
       Geometry(rWidth, maxRow, maxColumn) == Derive(width, height, false))
    }

    /** The stored geometry was derived for the orientation that is current now. */
    ghost predicate GeometryCurrent()
      reads this
    {
      Geometry(rWidth, maxRow, maxColumn) == Derive(width, height, vertical)
    }

    /** The first load of an image with the initial configuration (strength 0.75,
        threshold 0.45 not yet remapped, vertical scanning). */
    constructor (pixels: seq<Byte>, w: nat, h: nat)
      requires w >= 1 && h >= 1 && |pixels| == 4 * w * h
      ensures Valid() && GeometryCurrent() && fresh(data)
      ensures data[..] == pixels && width == w && height == h
      ensures strength == 0.75 && threshold == 0.45 && vertical
    {
      strength := 0.75;
      threshold := 0.45;
      vertical := true;
      width, height := w, h;
      data := new Byte[|pixels|](k requires 0 <= k < |pixels| => pixels[k]);
      var g := Derive(w, h, true);
      rWidth, maxRow, maxColumn := g.rWidth, g.maxRow, g.maxColumn;
    }

    /** A later load: the new image replaces the buffer and the geometry is derived
        again from the orientation current at this moment. */
    method Load(pixels: seq<Byte>, w: nat, h: nat)
      requires w >= 1 && h >= 1 && |pixels| == 4 * w * h
      modifies this
      ensures Valid() && GeometryCurrent() && fresh(data)
      ensures data[..] == pixels && width == w && height == h
      ensures strength == old(strength) && threshold == old(threshold) && vertical == old(vertical)
    {
      width, height := w, h;
      data := new Byte[|pixels|](k requires 0 <= k < |pixels| => pixels[k]);
      var g := Derive(w, h, vertical);
      rWidth, maxRow, maxColumn := g.rWidth, g.maxRow, g.maxColumn;
    }

    /** `rebuild`: the threshold found in the configuration is remapped and stored back. */
    method Rebuild()
      modifies this`threshold
      ensures threshold == Remap(old(threshold)) as real
    {
      threshold := Remap(threshold) as real;
    }

    /** `setPixel`: blend the colour at `index` toward (r, g, b) by the current strength. */
    method SetPixel(index: int, r: Byte, g: Byte, b: Byte)
      requires 0 <= index && index + 2 < data.Length
      modifies data
      ensures data[..] == Blended(old(data[..]), index, r, g, b, strength)
    {
      var oldR := data[index];
      var oldG := data[index + 1];
      var oldB := data[index + 2];
      data[index] := Blend(oldR, r, strength);
      data[index + 1] := Blend(oldG, g, strength);
      data[index + 2] := Blend(oldB, b, strength);
    }

    /** `compare`: the brightness of the target minus that of the source, tested
        against the current threshold in the direction its sign chooses. */
    method CompareAt(source: int, target: int) returns (b: bool)
      ensures b == Compare(data[..], source, target, threshold)
    {
      if !(0 <= source && source + 2 < data.Length && 0 <= target && target + 2 < data.Length) {
        // a read past the buffer makes a sum NaN, which fails both tests
        return false;
      }
      var oldTotal := data[target] as int + data[target + 1] as int + data[target + 2] as int;
      var newTotal := data[source] as int + data[source + 1] as int + data[source + 2] as int;
      assert oldTotal == Brightness(data[..], target) && newTotal == Brightness(data[..], source);
      if threshold > 0.0 {
        b := (oldTotal - newTotal) as real > threshold;
      } else {
        b := (oldTotal - newTotal) as real < threshold;
      }
    }

    /** `compareAndRecolor`: when `compare` holds, blend each of the two pixels toward
        the other's colour as it was on entry. */
    method CompareAndRecolor(source: int, target: int)
      modifies data
      ensures data[..] == Recolored(old(data[..]), source, target, strength, threshold)
    {
      var qualifies := CompareAt(source, target);
      if !qualifies {
        return;
      }
      var oldR := data[target];
      var oldG := data[target + 1];
      var oldB := data[target + 2];
      var newR := data[source];
      var newG := data[source + 1];
      var newB := data[source + 2];
      SetPixel(target, newR, newG, newB);
      SetPixel(source, oldR, oldG, oldB);
    }

    /** One pass of `iterate`: every row offset, every pixel of the row, each compared
        and recoloured with its neighbour below or to the right, in the order PassPairs
        lists them; with the geometry derived for the current orientation those are the
        pairs of ScanPairs. The row width must be positive, or the outer loop would not
        advance. */
    method Iterate()
      requires rWidth > 0
      modifies data
      ensures data[..] == Apply(old(data[..]), PassPairs(), strength, threshold)
    {
      ghost var g := Geometry(rWidth, maxRow, maxColumn);
      ghost var off := if vertical then rWidth else 4;
      ghost var goal := Apply(old(data[..]), RowPairs(0, g, off), strength, threshold);
      var i := 0;
      while i < maxRow
        invariant Apply(data[..], RowPairs(i, g, off), strength, threshold) == goal
      {
        ghost var before := data[..];
        RecolorRow(i, i + maxColumn);
        PassStep(before, data[..], i, g, off, strength, threshold);
        i := i + rWidth;
      }
      PassEnd(data[..], i, g, off, strength, threshold);
    }

    /** The inner loop of `iterate` over one row: every pixel from offset i up to
        maxY, each with its neighbour below or to the right. */
    method RecolorRow(i: int, maxY: int)
      modifies data
      ensures data[..] == Apply(old(data[..]), ColumnPairs(i, maxY, if vertical then rWidth else 4), strength, threshold)
    {
      ghost var off := if vertical then rWidth else 4;
      var j := i;
      while j < maxY
        invariant Apply(data[..], ColumnPairs(j, maxY, off), strength, threshold) ==
          Apply(old(data[..]), ColumnPairs(i, maxY, off), strength, threshold)
      {
        ColumnStep(j, maxY, off);
        ghost var before := data[..];
        if vertical {
          CompareAndRecolor(j, j + rWidth);
        } else {
          CompareAndRecolor(j, j + 4);
        }
        ApplyCons(before, (j, j + off), ColumnPairs(j + 4, maxY, off), strength, threshold);
        j := j + 4;
      }
    }

    /** The pairs a pass visits with the stored geometry and the current orientation. */
    ghost function PassPairs(): (ps: seq<(int, int)>)
      reads this
      requires rWidth > 0
      ensures Valid() && GeometryCurrent() ==> ps == ScanPairs(width, height, vertical)
    {
      RowPairs(0, Geometry(rWidth, maxRow, maxColumn), if vertical then rWidth else 4)
    }
  }

  /** Past the last row nothing is left to recolour. */
  lemma PassEnd(s: seq<Byte>, i: int, g: Geometry, off: int, strength: real, threshold: real)
    requires g.rWidth > 0 && i >= g.maxRow
    ensures Apply(s, RowPairs(i, g, off), strength, threshold) == s
  {
  }

  /** Recolouring one row and then the rows after it is recolouring the rows from
      that one on. */
  lemma PassStep(before: seq<Byte>, after: seq<Byte>, i: int, g: Geometry, off: int, strength: real, threshold: real)
    requires g.rWidth > 0 && i < g.maxRow
    requires after == Apply(before, ColumnPairs(i, i + g.maxColumn, off), strength, threshold)
    ensures Apply(after, RowPairs(i + g.rWidth, g, off), strength, threshold) ==
      Apply(before, RowPairs(i, g, off), strength, threshold)
  {
    RowStart(i, g, off);
    ApplyConcat(before, ColumnPairs(i, i + g.maxColumn, off), RowPairs(i + g.rWidth, g, off), strength, threshold);
  }

  /** `rebuild` runs on every change of any setting and on every resize, and each run
      remaps the threshold it finds. Only a change made with the threshold control
      first stores a fresh value in [0, 1]. So when two runs in a row come from the
      strength or orientation controls or from resizes, the initial 0.45 becomes a
      threshold no brightness difference reaches. Every pass then changes nothing
      until the threshold control is moved again. */
  lemma SecondRebuildStopsSorting(s: seq<Byte>, ps: seq<(int, int)>, strength: real)
    ensures Apply(s, ps, strength, Remap(Remap(0.45) as real) as real) == s
  {
    RemapNotIdempotent();
    ApplyOutOfReach(s, ps, strength, Remap(Remap(0.45) as real) as real);
  }
}
