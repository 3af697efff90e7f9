/** The scan geometry fixed when an image loads, and the pixel pairs one pass
    visits. Offsets are byte offsets into the row-major RGBA buffer. */
module Scan {

  /** The three bounds stored on load: the row stride in bytes, the end of the
      row offsets scanned and the span of byte offsets scanned within a row. */
  datatype Geometry = Geometry(rWidth: int, maxRow: int, maxColumn: int)

  /** The geometry derived from the image size and the orientation current at load time. */
  function Derive(width: nat, height: nat, vertical: bool): (g: Geometry)
    ensures g.rWidth == 4 * width
    // the neighbour of the last scanned pixel is the last pixel of the buffer
    ensures width >= 1 && height >= 1 ==>
      g.maxRow + (if vertical then g.rWidth else 0) == 4 * width * height &&
      g.maxColumn + (if vertical then 0 else 4) == g.rWidth
  {
    var rowWidth := width * 4;
    var maxRow := if vertical then (height - 1) * rowWidth else height * rowWidth;
    var maxColumn := if vertical then rowWidth else rowWidth - 4;
    Geometry(rowWidth, maxRow, maxColumn)
  }

  /** The byte distance from a pixel to the one it is compared with. */
  function Offset(g: Geometry, vertical: bool): int
  {
    if vertical then g.rWidth else 4
  }

  /** Rows whose pixels have a neighbour in the scan direction. */
  function Rows(height: nat, vertical: bool): nat
  {
    if vertical then (if height == 0 then 0 else height - 1) else height
  }

  /** Pixels per row that have a neighbour in the scan direction. */
  function Columns(width: nat, vertical: bool): nat
  {
    if vertical then width else (if width == 0 then 0 else width - 1)
  }

  /** Row-major position of column x of row y in a grid with `cols` columns,
      counted row by row; FlatProduct shows it is y * cols + x. */
  function Flat(cols: int, y: nat, x: int): int
  {
    if y == 0 then x else Flat(cols, y - 1, x) + cols
  }

  lemma {:induction false} FlatProduct(cols: int, y: nat, x: int)
    ensures Flat(cols, y, x) == y * cols + x
  {
    if y > 0 {
      FlatProduct(cols, y - 1, x);
    }
  }

  /** The pairs (source, target) the inner loop visits from offset j up to maxY. */
  function ColumnPairs(j: int, maxY: int, off: int): seq<(int, int)>
    decreases maxY - j
  {
    if j >= maxY then [] else [(j, j + off)] + ColumnPairs(j + 4, maxY, off)
  }

  /** One step of the inner loop: its first pair leaves, the rest follow. */
  lemma ColumnStep(j: int, maxY: int, off: int)
    requires j < maxY
    ensures ColumnPairs(j, maxY, off) == [(j, j + off)] + ColumnPairs(j + 4, maxY, off)
  {
  }

  /** The pairs the outer loop visits from row offset i on. */
  function RowPairs(i: int, g: Geometry, off: int): seq<(int, int)>
    requires g.rWidth > 0
    decreases g.maxRow - i
  {
    if i >= g.maxRow then []
    else ColumnPairs(i, i + g.maxColumn, off) + RowPairs(i + g.rWidth, g, off)
  }

  /** One step of the outer loop: the first row's pairs leave, the later rows follow. */
  lemma RowStart(i: int, g: Geometry, off: int)
    requires g.rWidth > 0 && i < g.maxRow
    ensures RowPairs(i, g, off) == ColumnPairs(i, i + g.maxColumn, off) + RowPairs(i + g.rWidth, g, off)
  {
  }

  /** Both offsets of a pair address a whole pixel inside a buffer of n bytes. */
  predicate InBuffer(p: (int, int), n: int)
  {
    0 <= p.0 && p.0 + 4 <= n && 0 <= p.1 && p.1 + 4 <= n
  }

  /** Sources strictly increase along the sequence: no pixel is a source twice. */
  predicate Ascending(ps: seq<(int, int)>)
  {
    forall a, b :: 0 <= a < b < |ps| ==> ps[a].0 < ps[b].0
  }

  /** The pairs one pass visits, in visiting order, for an image of the given size
      whose geometry was derived for the orientation the pass reads: the pixel in
      column x of row y is visited at position y * Columns + x, together with the
      pixel below it (vertical) or to its right (horizontal). Positions are written
      with Flat, which FlatProduct shows to be that product form. */
  function ScanPairs(width: nat, height: nat, vertical: bool): (ps: seq<(int, int)>)
    requires width >= 1 && height >= 1
    ensures |ps| == Rows(height, vertical) * Columns(width, vertical)
    ensures forall k :: 0 <= k < |ps| ==>
      InBuffer(ps[k], 4 * width * height) && ps[k].0 % 4 == 0
    ensures forall y, x :: 0 <= y < Rows(height, vertical) && 0 <= x < Columns(width, vertical) ==>
      0 <= Flat(Columns(width, vertical), y, x) < |ps| &&
      ps[Flat(Columns(width, vertical), y, x)] ==
        (4 * Flat(width, y, x), 4 * Flat(width, y, x) + (if vertical then 4 * width else 4))
  {
    var g := Derive(width, height, vertical);
    ScanCountAndBounds(width, height, vertical);
    ScanClosedForm(width, height, vertical);
    RowPairs(0, g, Offset(g, vertical))
  }

  lemma ScanCountAndBounds(width: nat, height: nat, vertical: bool)
    requires width >= 1 && height >= 1
    ensures var g := Derive(width, height, vertical);
      var ps := RowPairs(0, g, Offset(g, vertical));
      |ps| == Rows(height, vertical) * Columns(width, vertical) &&
      forall k :: 0 <= k < |ps| ==> InBuffer(ps[k], 4 * width * height) && ps[k].0 % 4 == 0
  {
    var g := Derive(width, height, vertical);
    var R, c := Rows(height, vertical), Columns(width, vertical);
    var ps := RowPairs(0, g, Offset(g, vertical));
    GeometryCounts(width, height, vertical);
    RowPairsLength(g, Offset(g, vertical), R, c, 0, 0);
    FlatProduct(g.rWidth, R, 0);
    RowPairsInBuffer(g, Offset(g, vertical), R, c, 0, 0, 4 * width * height);
  }

  lemma ScanClosedForm(width: nat, height: nat, vertical: bool)
    requires width >= 1 && height >= 1
    ensures var g := Derive(width, height, vertical);
      var ps := RowPairs(0, g, Offset(g, vertical));
      forall y, x :: 0 <= y < Rows(height, vertical) && 0 <= x < Columns(width, vertical) ==>
        0 <= Flat(Columns(width, vertical), y, x) < |ps| &&
        ps[Flat(Columns(width, vertical), y, x)] ==
          (4 * Flat(width, y, x), 4 * Flat(width, y, x) + (if vertical then 4 * width else 4))
  {
    forall y, x | 0 <= y < Rows(height, vertical) && 0 <= x < Columns(width, vertical) {
      ScanPairAt(width, height, vertical, y, x);
    }
  }

  lemma ScanPairAt(width: nat, height: nat, vertical: bool, y: nat, x: nat)
    requires width >= 1 && height >= 1
    requires y < Rows(height, vertical) && x < Columns(width, vertical)
    ensures var g := Derive(width, height, vertical);
      var ps := RowPairs(0, g, Offset(g, vertical));
      0 <= Flat(Columns(width, vertical), y, x) < |ps| &&
      ps[Flat(Columns(width, vertical), y, x)] ==
        (4 * Flat(width, y, x), 4 * Flat(width, y, x) + (if vertical then 4 * width else 4))
  {
    var g := Derive(width, height, vertical);
    GeometryCounts(width, height, vertical);
    FlatBefore(g.rWidth, y, Rows(height, vertical));
    RowPairsAt(g, Offset(g, vertical), Columns(width, vertical), 0, y, x);
    FlatBytes(width, y, x);
  }

  // ---- the geometry in terms of rows and columns ----

  lemma GeometryCounts(width: nat, height: nat, vertical: bool)
    requires width >= 1 && height >= 1
    ensures var g := Derive(width, height, vertical);
      var R, c := Rows(height, vertical), Columns(width, vertical);
      g.rWidth > 0 && g.rWidth % 4 == 0 && g.maxRow == R * g.rWidth && g.maxColumn == 4 * c &&
      Offset(g, vertical) >= 0 && 4 * c <= g.rWidth &&
      (R > 0 ==> g.maxRow - g.rWidth + g.maxColumn + Offset(g, vertical) <= 4 * width * height)
  {
    var g := Derive(width, height, vertical);
    if vertical {
      assert g.maxRow == (height - 1) * g.rWidth;
      if height > 1 {
        assert (height - 2) * (4 * width) + 4 * width + 4 * width == 4 * width * height;
      }
    } else {
      assert (height - 1) * (4 * width) + 4 * (width - 1) + 4 == 4 * width * height;
    }
  }

  // ---- the inner loop ----

  /** The inner loop from offset j visits n pairs, the m-th one at source j + 4m. */
  lemma {:induction false} ColumnPairsShape(j: int, maxY: int, n: nat, off: int)
    requires maxY == j + 4 * n
    ensures |ColumnPairs(j, maxY, off)| == n
    ensures forall m :: 0 <= m < n ==> ColumnPairs(j, maxY, off)[m] == (j + 4 * m, j + 4 * m + off)
    decreases n
  {
    if n > 0 {
      ColumnPairsShape(j + 4, maxY, n - 1, off);
      var tail := ColumnPairs(j + 4, maxY, off);
      var ps := ColumnPairs(j, maxY, off);
      assert ps == [(j, j + off)] + tail;
      forall m | 0 <= m < n ensures ps[m] == (j + 4 * m, j + 4 * m + off) {
        if m > 0 {
          assert ps[m] == tail[m - 1];
        }
      }
    }
  }

  lemma {:induction false} ColumnPairsLength(j: int, maxY: int, n: nat, off: int)
    requires maxY == j + 4 * n
    ensures |ColumnPairs(j, maxY, off)| == n
    decreases n
  {
    if n > 0 {
      ColumnPairsLength(j + 4, maxY, n - 1, off);
    }
  }

  lemma {:induction false} ColumnPairsMembers(j: int, maxY: int, n: nat, off: int)
    requires maxY == j + 4 * n
    ensures forall p :: p in ColumnPairs(j, maxY, off) ==>
      j <= p.0 && p.0 + 4 <= maxY && p.0 % 4 == j % 4 && p.1 == p.0 + off
    ensures Ascending(ColumnPairs(j, maxY, off))
    decreases n
  {
    if n > 0 {
      ColumnPairsMembers(j + 4, maxY, n - 1, off);
      var tail := ColumnPairs(j + 4, maxY, off);
      assert ColumnPairs(j, maxY, off) == [(j, j + off)] + tail;
      forall k | 0 <= k < |tail| ensures tail[k].0 > j {
        assert tail[k] in tail;
      }
    }
  }

  // ---- the outer loop ----

  lemma RowStep(r: int, R: int, rw: int)
    requires 0 <= r < R && rw > 0
    ensures r * rw + rw == (r + 1) * rw <= R * rw
    ensures r * rw <= (R - 1) * rw
  {
  }

  lemma RowsLeft(R: int, r: int, c: int)
    ensures (R - r) * c == c + (R - (r + 1)) * c
  {
  }

  lemma ConcatIndex<T>(a: seq<T>, b: seq<T>, k: int)
    requires 0 <= k < |b|
    ensures (a + b)[|a| + k] == b[k]
  {
  }

  lemma FlatStep(c: int, y: nat, x: int)
    requires y >= 1
    ensures Flat(c, y, x) == Flat(c, y - 1, x) + c
  {
  }

  /** The pairs visited from row r (at offset i) on number c for each remaining row. */
  lemma {:induction false} RowPairsLength(g: Geometry, off: int, R: nat, c: nat, r: nat, i: int)
    requires g.rWidth > 0 && g.maxRow == R * g.rWidth && g.maxColumn == 4 * c
    requires r <= R && i == r * g.rWidth
    ensures |RowPairs(i, g, off)| == (R - r) * c
    decreases R - r
  {
    if r < R {
      RowStep(r, R, g.rWidth);
      RowPairsLength(g, off, R, c, r + 1, i + g.rWidth);
      ColumnPairsShape(i, i + g.maxColumn, c, off);
      RowsLeft(R, r, c);
    } else {
      assert r == R;
    }
  }

  /** Closed form of the pairs visited from offset i on: column x of the y-th row
      after i comes at position y * c + x, and its source is that pixel's offset. */
  lemma {:induction false} RowPairsAt(g: Geometry, off: int, c: nat, i: int, y: nat, x: nat)
    requires g.rWidth > 0 && g.maxColumn == 4 * c && x < c
    requires i + Flat(g.rWidth, y, 0) < g.maxRow
    ensures 0 <= Flat(c, y, x) < |RowPairs(i, g, off)|
    ensures RowPairs(i, g, off)[Flat(c, y, x)] ==
      (i + Flat(g.rWidth, y, 4 * x), i + Flat(g.rWidth, y, 4 * x) + off)
    decreases y
  {
    if y == 0 {
      RowPairsFirstRow(g, off, c, i, x);
    } else {
      RowPairsAtBounds(g, c, i, y, x);
      RowPairsAt(g, off, c, i + g.rWidth, y - 1, x);
      RowPairsAtStep(g, off, c, i, y, x);
    }
  }

  /** The facts about row positions that one step down the rows needs. */
  lemma RowPairsAtBounds(g: Geometry, c: nat, i: int, y: nat, x: nat)
    requires g.rWidth > 0 && y >= 1 && i + Flat(g.rWidth, y, 0) < g.maxRow
    ensures i < g.maxRow && i + g.rWidth + Flat(g.rWidth, y - 1, 0) < g.maxRow
  {
    FlatNonNegative(g.rWidth, y - 1, 0);
  }

  /** The pair at column x of the y-th row after i is the one at column x of the
      (y - 1)-th row after the next row offset. */
  lemma RowPairsAtStep(g: Geometry, off: int, c: nat, i: int, y: nat, x: nat)
    requires g.rWidth > 0 && g.maxColumn == 4 * c && x < c && y >= 1 && i < g.maxRow
    requires 0 <= Flat(c, y - 1, x) < |RowPairs(i + g.rWidth, g, off)|
    requires RowPairs(i + g.rWidth, g, off)[Flat(c, y - 1, x)] ==
      (i + g.rWidth + Flat(g.rWidth, y - 1, 4 * x), i + g.rWidth + Flat(g.rWidth, y - 1, 4 * x) + off)
    ensures 0 <= Flat(c, y, x) < |RowPairs(i, g, off)|
    ensures RowPairs(i, g, off)[Flat(c, y, x)] ==
      (i + Flat(g.rWidth, y, 4 * x), i + Flat(g.rWidth, y, 4 * x) + off)
  {
    var rw := g.rWidth;
    var k := Flat(c, y - 1, x);
    RowPairsNextRow(g, off, c, i, k);
    FlatStep(c, y, x);
    FlatStep(rw, y, 4 * x);
    IndexShift(RowPairs(i, g, off), RowPairs(i + rw, g, off), c, k, Flat(c, y, x),
      (i + Flat(rw, y, 4 * x), i + Flat(rw, y, 4 * x) + off));
  }

  lemma IndexShift<T>(ps: seq<T>, qs: seq<T>, c: int, k: int, j: int, p: T)
    requires 0 <= k < |qs| && qs[k] == p
    requires 0 <= c + k < |ps| && ps[c + k] == qs[k] && j == c + k
    ensures j < |ps| && ps[j] == p
  {
  }

  /** The first row's pairs open the list. */
  lemma RowPairsFirstRow(g: Geometry, off: int, c: nat, i: int, x: nat)
    requires g.rWidth > 0 && g.maxColumn == 4 * c && x < c && i < g.maxRow
    ensures x < |RowPairs(i, g, off)|
    ensures RowPairs(i, g, off)[x] == (i + 4 * x, i + 4 * x + off)
  {
    var head := ColumnPairs(i, i + g.maxColumn, off);
    ColumnPairsShape(i, i + g.maxColumn, c, off);
    assert RowPairs(i, g, off) == head + RowPairs(i + g.rWidth, g, off);
    assert RowPairs(i, g, off)[x] == head[x];
  }

  /** After the first row's c pairs come the pairs of the rows below it. */
  lemma RowPairsNextRow(g: Geometry, off: int, c: nat, i: int, k: int)
    requires g.rWidth > 0 && g.maxColumn == 4 * c && i < g.maxRow
    requires 0 <= k < |RowPairs(i + g.rWidth, g, off)|
    ensures 0 <= c + k < |RowPairs(i, g, off)|
    ensures RowPairs(i, g, off)[c + k] == RowPairs(i + g.rWidth, g, off)[k]
  {
    var head := ColumnPairs(i, i + g.maxColumn, off);
    var tail := RowPairs(i + g.rWidth, g, off);
    ColumnPairsLength(i, i + g.maxColumn, c, off);
    assert RowPairs(i, g, off) == head + tail;
    ConcatIndex(head, tail, k);
  }

  lemma {:induction false} FlatNonNegative(c: int, y: nat, x: int)
    requires c >= 0 && x >= 0
    ensures Flat(c, y, x) >= 0
  {
    if y > 0 {
      FlatNonNegative(c, y - 1, x);
    }
  }

  /** Row y lies before row R. */
  lemma FlatBefore(rw: int, y: nat, R: int)
    requires rw > 0 && y < R
    ensures Flat(rw, y, 0) + rw <= R * rw
  {
    FlatProduct(rw, y, 0);
    RowStep(y, R, rw);
  }

  /** Byte offsets are four times pixel positions. */
  lemma {:induction false} FlatBytes(w: int, y: nat, x: int)
    ensures Flat(4 * w, y, 4 * x) == 4 * Flat(w, y, x)
  {
    if y > 0 {
      FlatBytes(w, y - 1, x);
    }
  }

  /** Every pair of `ps` addresses two whole pixels of a buffer of n bytes, the
      first on a pixel boundary. */
  predicate AllInBuffer(ps: seq<(int, int)>, n: int)
  {
    forall k :: 0 <= k < |ps| ==> InBuffer(ps[k], n) && ps[k].0 % 4 == 0
  }

  /** The pairs of one row lie in a buffer of n bytes when its last neighbour does. */
  lemma ColumnPairsInBuffer(j: int, maxY: int, n: nat, off: int, size: int)
    requires maxY == j + 4 * n && 0 <= j && j % 4 == 0 && off >= 0 && maxY + off <= size
    ensures AllInBuffer(ColumnPairs(j, maxY, off), size)
  {
    ColumnPairsShape(j, maxY, n, off);
  }

  lemma ConcatInBuffer(a: seq<(int, int)>, b: seq<(int, int)>, n: int)
    requires AllInBuffer(a, n) && AllInBuffer(b, n)
    ensures AllInBuffer(a + b, n)
  {
    forall k | 0 <= k < |a + b|
      ensures InBuffer((a + b)[k], n) && (a + b)[k].0 % 4 == 0
    {
      if k >= |a| {
        assert (a + b)[k] == b[k - |a|];
      }
    }
  }

  /** Every pair visited from row r (at offset i) on lies in a buffer of n bytes and
      starts on a pixel boundary. */
  lemma {:induction false} RowPairsInBuffer(g: Geometry, off: int, R: nat, c: nat, r: nat, i: int, n: int)
    requires g.rWidth > 0 && g.rWidth % 4 == 0 && g.maxRow == Flat(g.rWidth, R, 0) && g.maxColumn == 4 * c
    requires r <= R && i == Flat(g.rWidth, r, 0) && i % 4 == 0 && off >= 0
    requires R > 0 ==> g.maxRow - g.rWidth + g.maxColumn + off <= n
    ensures AllInBuffer(RowPairs(i, g, off), n)
    decreases R - r
  {
    if r < R {
      RowBounds(g, off, R, c, r, i, n);
      RowPairsInBuffer(g, off, R, c, r + 1, i + g.rWidth, n);
      RowInBuffer(g, off, c, i, n);
    }
  }

  /** The facts about row r that one step down the rows needs. */
  lemma RowBounds(g: Geometry, off: int, R: nat, c: nat, r: nat, i: int, n: int)
    requires g.rWidth > 0 && g.rWidth % 4 == 0 && g.maxRow == Flat(g.rWidth, R, 0) && g.maxColumn == 4 * c
    requires r < R && i == Flat(g.rWidth, r, 0) && i % 4 == 0 && off >= 0
    requires g.maxRow - g.rWidth + g.maxColumn + off <= n
    ensures i + g.rWidth == Flat(g.rWidth, r + 1, 0) && (i + g.rWidth) % 4 == 0
    ensures 0 <= i < g.maxRow && i + g.maxColumn + off <= n
  {
    FlatNonNegative(g.rWidth, r, 0);
    FlatRowsBefore(g.rWidth, r + 1, R);
  }

  /** A row whose pairs lie in the buffer, followed by rows that do, gives rows that do. */
  lemma RowInBuffer(g: Geometry, off: int, c: nat, i: int, n: int)
    requires g.rWidth > 0 && g.maxColumn == 4 * c && 0 <= i < g.maxRow && i % 4 == 0
    requires off >= 0 && i + g.maxColumn + off <= n
    requires AllInBuffer(RowPairs(i + g.rWidth, g, off), n)
    ensures AllInBuffer(RowPairs(i, g, off), n)
  {
    ColumnPairsInBuffer(i, i + g.maxColumn, c, off, n);
    RowStart(i, g, off);
    ConcatInBuffer(ColumnPairs(i, i + g.maxColumn, off), RowPairs(i + g.rWidth, g, off), n);
  }

  /** Earlier rows start at smaller offsets. */
  lemma {:induction false} FlatRowsBefore(rw: int, r: nat, R: nat)
    requires rw >= 0 && r <= R
    ensures Flat(rw, r, 0) <= Flat(rw, R, 0)
    decreases R - r
  {
    if r < R {
      FlatRowsBefore(rw, r + 1, R);
    }
  }

  /** Sources strictly increase over the pairs visited from offset i on, and none precedes i. */
  lemma {:induction false} RowPairsAscending(g: Geometry, off: int, c: nat, i: int)
    requires g.rWidth > 0 && g.maxColumn == 4 * c && 4 * c <= g.rWidth
    ensures Ascending(RowPairs(i, g, off))
    ensures forall p :: p in RowPairs(i, g, off) ==> i <= p.0
    decreases g.maxRow - i
  {
    if i < g.maxRow {
      RowPairsAscending(g, off, c, i + g.rWidth);
      ColumnPairsMembers(i, i + g.maxColumn, c, off);
      var head: seq<(int, int)> := ColumnPairs(i, i + g.maxColumn, off);
      var tail: seq<(int, int)> := RowPairs(i + g.rWidth, g, off);
      var ps: seq<(int, int)> := head + tail;
      assert RowPairs(i, g, off) == ps;
      forall a, b | 0 <= a < |head| <= b < |ps|
        ensures ps[a].0 < ps[b].0
      {
        assert head[a] in head;
        assert tail[b - |head|] in tail;
      }
    }
  }

  /** One pass visits the pairs in row-major order of their source pixel, so no pair
      is visited twice; with the closed form and the count of ScanPairs, every pixel
      that has a neighbour in the scan direction is visited exactly once. */
  lemma ScanPairsAscending(width: nat, height: nat, vertical: bool)
    requires width >= 1 && height >= 1
    ensures Ascending(ScanPairs(width, height, vertical))
    ensures forall a, b :: 0 <= a < b < |ScanPairs(width, height, vertical)| ==>
      ScanPairs(width, height, vertical)[a] != ScanPairs(width, height, vertical)[b]
  {
    var g := Derive(width, height, vertical);
    GeometryCounts(width, height, vertical);
    RowPairsAscending(g, Offset(g, vertical), Columns(width, vertical), 0);
  }

  /** With the orientation switched to vertical but the geometry still the one derived
      for horizontal scanning, the last row's first pixel is paired with the offset
      just past the end of the buffer. */
  lemma StaleGeometryOverruns(width: nat, height: nat)
    requires width >= 2 && height >= 1
    ensures var g := Derive(width, height, false);
      var ps := RowPairs(0, g, Offset(g, true));
      exists k :: 0 <= k < |ps| && ps[k].1 == 4 * width * height
  {
    var g := Derive(width, height, false);
    var R, c := height, width - 1;
    GeometryCounts(width, height, false);
    var ps := RowPairs(0, g, Offset(g, true));
    var k := Flat(c, height - 1, 0);
    FlatBefore(g.rWidth, height - 1, R);
    RowPairsAt(g, Offset(g, true), c, 0, height - 1, 0);
    assert ps[k].1 == Flat(g.rWidth, height - 1, 0) + g.rWidth;
    FlatProduct(g.rWidth, height, 0);
  }

  /** With the orientation switched to horizontal but the geometry still the one
      derived for vertical scanning, each row's span covers the whole row: the last
      pixel of every row but the last is paired with the first pixel of the next
      row, and the last row, which the vertical bound leaves out, is never a source:
      the pass walks the pixels before the last row in buffer order, each with the next. */
  lemma StaleGeometryWraps(width: nat, height: nat)
    requires width >= 1 && height >= 2
    ensures var g := Derive(width, height, true);
      var ps := RowPairs(0, g, Offset(g, false));
      |ps| == (height - 1) * width &&
      forall y :: 0 <= y < height - 1 ==>
        0 <= Flat(width, y, 0) + width - 1 < |ps| &&
        ps[Flat(width, y, 0) + width - 1] == (4 * (Flat(width, y, 0) + width - 1), 4 * (Flat(width, y, 0) + width))
    ensures var g := Derive(width, height, true);
      var ps := RowPairs(0, g, Offset(g, false));
      forall k :: 0 <= k < |ps| ==> ps[k] == (4 * k, 4 * k + 4) && ps[k].0 < 4 * width * (height - 1)
  {
    var g := Derive(width, height, true);
    var R := height - 1;
    GeometryCounts(width, height, true);
    RowPairsLength(g, Offset(g, false), R, width, 0, 0);
    forall k | 0 <= k < (height - 1) * width
      ensures var ps := RowPairs(0, g, Offset(g, false));
        0 <= k < |ps| && ps[k] == (4 * k, 4 * k + 4) && ps[k].0 < 4 * width * (height - 1)
    {
      StaleSourceAt(width, height, k);
    }
    forall y | 0 <= y < height - 1
      ensures var ps := RowPairs(0, g, Offset(g, false));
        0 <= Flat(width, y, 0) + width - 1 < |ps| &&
        ps[Flat(width, y, 0) + width - 1] == (4 * (Flat(width, y, 0) + width - 1), 4 * (Flat(width, y, 0) + width))
    {
      StaleWrapAt(width, height, y);
    }
  }

  /** The last pixel of row y is paired with the first pixel of row y + 1. */
  lemma StaleWrapAt(width: nat, height: nat, y: nat)
    requires width >= 1 && height >= 2 && y < height - 1
    ensures var g := Derive(width, height, true);
      var ps := RowPairs(0, g, Offset(g, false));
      0 <= Flat(width, y, 0) + width - 1 < |ps| &&
      ps[Flat(width, y, 0) + width - 1] == (4 * (Flat(width, y, 0) + width - 1), 4 * (Flat(width, y, 0) + width))
  {
    var g := Derive(width, height, true);
    GeometryCounts(width, height, true);
    FlatBefore(g.rWidth, y, height - 1);
    RowPairsAt(g, Offset(g, false), width, 0, y, width - 1);
    FlatBytes(width, y, width - 1);
    FlatColumn(width, y, width - 1);
  }

  /** Column x of row y is x positions after the row's first column. */
  /** The k-th pair of the stale pass is pixel k with pixel k + 1, counted over the
      whole buffer, so its source lies before the last row. */
  lemma StaleSourceAt(width: nat, height: nat, k: int)
    requires width >= 1 && height >= 2 && 0 <= k < (height - 1) * width
    ensures var g := Derive(width, height, true);
      var ps := RowPairs(0, g, Offset(g, false));
      0 <= k < |ps| && ps[k] == (4 * k, 4 * k + 4) && ps[k].0 < 4 * width * (height - 1)
  {
    var g := Derive(width, height, true);
    GeometryCounts(width, height, true);
    var y, x := RowColumn(width, height - 1, k);
    FlatProduct(width, y, x);
    WholeRowPairAt(g, width, height - 1, y, x);
    assert 4 * width * (height - 1) == 4 * ((height - 1) * width);
  }

  /** When each row's span covers the whole row, the pair at position p of the pass
      is pixel p with the pixel four bytes on. */
  lemma WholeRowPairAt(g: Geometry, w: nat, R: nat, y: nat, x: nat)
    requires g.rWidth == 4 * w && g.maxRow == R * g.rWidth && g.maxColumn == 4 * w
    requires y < R && x < w
    ensures 0 <= Flat(w, y, x) < |RowPairs(0, g, 4)|
    ensures RowPairs(0, g, 4)[Flat(w, y, x)] == (4 * Flat(w, y, x), 4 * Flat(w, y, x) + 4)
  {
    FlatBefore(g.rWidth, y, R);
    RowPairsAt(g, 4, w, 0, y, x);
    FlatBytes(w, y, x);
  }

  /** Position k of a grid with w columns and R rows is column k % w of row k / w. */
  lemma RowColumn(w: nat, R: nat, k: int) returns (y: nat, x: nat)
    requires w >= 1 && 0 <= k < R * w
    ensures y < R && x < w && k == y * w + x
    decreases R
  {
    if k < w {
      y, x := 0, k;
    } else {
      assert R * w == (R - 1) * w + w;
      var y', x' := RowColumn(w, R - 1, k - w);
      y, x := y' + 1, x';
      assert (y' + 1) * w == y' * w + w;
    }
  }

  lemma {:induction false} FlatColumn(c: int, y: nat, x: int)
    ensures Flat(c, y, x) == Flat(c, y, 0) + x
  {
    if y > 0 {
      FlatColumn(c, y - 1, x);
    }
  }
}
