/** The index structure of two pattern generators: the jittered triangle mesh
    (pattern_triangles) and the dot grid (pattern_dots). Coordinates that the
    source computes in floating point are abstracted: a grid point is whatever
    `place(ix, iy)` returns for column ix and row iy. */
module Patterns {
  import opened Utilities

  // ---------------------------------------------------------------------
  // pattern_triangles
  // ---------------------------------------------------------------------

  datatype Triangle<P> = Triangle(a: P, b: P, c: P)

  /** gy+1 rows of gx+1 points each. */
  predicate IsGrid<P>(points: seq<seq<P>>, gx: nat, gy: nat) {
    |points| == gy + 1 && forall iy :: 0 <= iy < |points| ==> |points[iy]| == gx + 1
  }

  /** The point grid, built row by row by appending, as pattern_triangles does. */
  method BuildGrid<P>(gx: nat, gy: nat, place: (nat, nat) -> P) returns (points: seq<seq<P>>)
    ensures IsGrid(points, gx, gy)
    ensures forall iy, ix :: 0 <= iy <= gy && 0 <= ix <= gx ==> points[iy][ix] == place(ix, iy)
  {
    points := [];
    var iy := 0;
    while iy < gy + 1
      invariant 0 <= iy <= gy + 1 && |points| == iy
      invariant forall r :: 0 <= r < iy ==> |points[r]| == gx + 1
      invariant forall r, ix :: 0 <= r < iy && 0 <= ix <= gx ==> points[r][ix] == place(ix, r)
    {
      var row := [];
      var ix := 0;
      while ix < gx + 1
        invariant 0 <= ix <= gx + 1 && |row| == ix
        invariant forall c :: 0 <= c < ix ==> row[c] == place(c, iy)
      {
        row := row + [place(ix, iy)];
        ix := ix + 1;
      }
      points := points + [row];
      iy := iy + 1;
    }
  }

  /** The two triangles of cell (ix, iy): p00-p10-p11 and p00-p01-p11, which
      share the diagonal p00-p11. */
  function Cell<P>(points: seq<seq<P>>, gx: nat, gy: nat, ix: nat, iy: nat): (r: seq<Triangle<P>>)
    requires IsGrid(points, gx, gy) && ix < gx && iy < gy
    ensures |r| == 2 && r[0].a == r[1].a && r[0].c == r[1].c
  {
    var p00, p10 := points[iy][ix], points[iy][ix + 1];
    var p01, p11 := points[iy + 1][ix], points[iy + 1][ix + 1];
    [Triangle(p00, p10, p11), Triangle(p00, p01, p11)]
  }

  /** The triangles of the first `cols` cells of row iy, in drawing order. */
  function MeshRow<P>(points: seq<seq<P>>, gx: nat, gy: nat, iy: nat, cols: nat): (r: seq<Triangle<P>>)
    requires IsGrid(points, gx, gy) && iy < gy && cols <= gx
  {
    if cols == 0 then [] else MeshRow(points, gx, gy, iy, cols - 1) + Cell(points, gx, gy, cols - 1, iy)
  }

  /** The triangles of the first `rows` rows of cells, in drawing order. */
  function Mesh<P>(points: seq<seq<P>>, gx: nat, gy: nat, rows: nat): (r: seq<Triangle<P>>)
    requires IsGrid(points, gx, gy) && rows <= gy
  {
    if rows == 0 then [] else Mesh(points, gx, gy, rows - 1) + MeshRow(points, gx, gy, rows - 1, gx)
  }

  /** The triangulation loop of pattern_triangles: the polygons in the order drawn. */
  method Triangulate<P>(points: seq<seq<P>>, gx: nat, gy: nat) returns (tris: seq<Triangle<P>>)
    requires IsGrid(points, gx, gy)
    ensures tris == Mesh(points, gx, gy, gy)
  {
    tris := [];
    var iy := 0;
    while iy < gy
      invariant 0 <= iy <= gy
      invariant tris == Mesh(points, gx, gy, iy)
    {
      var ix := 0;
      while ix < gx
        invariant 0 <= ix <= gx
        invariant tris == Mesh(points, gx, gy, iy) + MeshRow(points, gx, gy, iy, ix)
      {
        var p00 := points[iy][ix];
        var p10 := points[iy][ix + 1];
        var p01 := points[iy + 1][ix];
        var p11 := points[iy + 1][ix + 1];
        tris := tris + [Triangle(p00, p10, p11), Triangle(p00, p01, p11)];
        ix := ix + 1;
      }
      iy := iy + 1;
    }
  }

  lemma {:induction false} MeshRowAt<P>(points: seq<seq<P>>, gx: nat, gy: nat, iy: nat, cols: nat)
    requires IsGrid(points, gx, gy) && iy < gy && cols <= gx
    ensures |MeshRow(points, gx, gy, iy, cols)| == 2 * cols
    ensures forall ix, b :: 0 <= ix < cols && 0 <= b < 2 ==>
              MeshRow(points, gx, gy, iy, cols)[2 * ix + b] == Cell(points, gx, gy, ix, iy)[b]
  {
    if cols > 0 {
      MeshRowAt(points, gx, gy, iy, cols - 1);
    }
  }

  /** The index of the first triangle of cell row iy: two per cell, gx cells
      per row. Defined by recursion so that the mesh proofs stay linear. */
  function RowStart(gx: nat, iy: nat): (r: nat) {
    if iy == 0 then 0 else RowStart(gx, iy - 1) + 2 * gx
  }

  lemma {:induction false} RowStartIsProduct(gx: nat, iy: nat)
    ensures RowStart(gx, iy) == 2 * gx * iy
  {
    if iy > 0 {
      RowStartIsProduct(gx, iy - 1);
      assert 2 * gx * (iy - 1) + 2 * gx == 2 * gx * iy;
    }
  }

  lemma CellIndexIsProduct(gx: nat, iy: nat, ix: nat, b: nat)
    ensures RowStart(gx, iy) + 2 * ix + b == 2 * (iy * gx + ix) + b
  {
    RowStartIsProduct(gx, iy);
  }

  lemma {:induction false} MeshLength<P>(points: seq<seq<P>>, gx: nat, gy: nat, rows: nat)
    requires IsGrid(points, gx, gy) && rows <= gy
    ensures |Mesh(points, gx, gy, rows)| == RowStart(gx, rows)
  {
    if rows > 0 {
      MeshLength(points, gx, gy, rows - 1);
      MeshRowAt(points, gx, gy, rows - 1, gx);
    }
  }

  /** Adding rows of cells keeps the triangles already there. */
  lemma {:induction false} MeshPrefix<P>(points: seq<seq<P>>, gx: nat, gy: nat, r1: nat, r2: nat, k: nat)
    requires IsGrid(points, gx, gy) && r1 <= r2 <= gy && k < |Mesh(points, gx, gy, r1)|
    ensures k < |Mesh(points, gx, gy, r2)|
    ensures Mesh(points, gx, gy, r2)[k] == Mesh(points, gx, gy, r1)[k]
    decreases r2
  {
    if r1 < r2 {
      MeshPrefix(points, gx, gy, r1, r2 - 1, k);
      var prefix, last := Mesh(points, gx, gy, r2 - 1), MeshRow(points, gx, gy, r2 - 1, gx);
      assert Mesh(points, gx, gy, r2) == prefix + last;
    }
  }

  /** The triangles of the last row of cells follow those of the rows before. */
  lemma MeshLastRow<P>(points: seq<seq<P>>, gx: nat, gy: nat, rows: nat, ix: nat, b: nat)
    requires IsGrid(points, gx, gy) && 0 < rows <= gy && ix < gx && b < 2
    ensures RowStart(gx, rows - 1) + 2 * ix + b < |Mesh(points, gx, gy, rows)|
    ensures Mesh(points, gx, gy, rows)[RowStart(gx, rows - 1) + 2 * ix + b] == Cell(points, gx, gy, ix, rows - 1)[b]
  {
    var r := rows - 1;
    var prefix, last := Mesh(points, gx, gy, r), MeshRow(points, gx, gy, r, gx);
    assert Mesh(points, gx, gy, rows) == prefix + last;
    MeshLength(points, gx, gy, r);
    MeshRowAt(points, gx, gy, r, gx);
    var k := RowStart(gx, r) + 2 * ix + b;
    assert k == |prefix| + (2 * ix + b);
    assert (prefix + last)[k] == last[2 * ix + b];
  }

  /** Triangle RowStart(gx, iy) + 2 * ix + b of the mesh is triangle b of cell (ix, iy). */
  lemma MeshCell<P>(points: seq<seq<P>>, gx: nat, gy: nat, rows: nat, iy: nat, ix: nat, b: nat)
    requires IsGrid(points, gx, gy) && iy < rows <= gy && ix < gx && b < 2
    ensures RowStart(gx, iy) + 2 * ix + b < |Mesh(points, gx, gy, rows)|
    ensures Mesh(points, gx, gy, rows)[RowStart(gx, iy) + 2 * ix + b] == Cell(points, gx, gy, ix, iy)[b]
  {
    MeshLastRow(points, gx, gy, iy + 1, ix, b);
    MeshPrefix(points, gx, gy, iy + 1, rows, RowStart(gx, iy) + 2 * ix + b);
  }

  /** Each cell (ix, iy) contributes its two triangles to the mesh, in
      row-major order: triangle 2 * (iy * gx + ix) + b is triangle b of the cell. */
  lemma MeshCellAt<P>(points: seq<seq<P>>, gx: nat, gy: nat, rows: nat, iy: nat, ix: nat, b: nat)
    requires IsGrid(points, gx, gy) && iy < rows <= gy && ix < gx && b < 2
    ensures 2 * (iy * gx + ix) + b < |Mesh(points, gx, gy, rows)|
    ensures Mesh(points, gx, gy, rows)[2 * (iy * gx + ix) + b] == Cell(points, gx, gy, ix, iy)[b]
  {
    MeshCell(points, gx, gy, rows, iy, ix, b);
    CellIndexIsProduct(gx, iy, ix, b);
  }

  /** The mesh of a gx x gy grid has 2 * gx * gy triangles. */
  lemma MeshSize<P>(points: seq<seq<P>>, gx: nat, gy: nat)
    requires IsGrid(points, gx, gy)
    ensures |Mesh(points, gx, gy, gy)| == 2 * gx * gy
  {
    MeshLength(points, gx, gy, gy);
    RowStartIsProduct(gx, gy);
  }

  /** Every index below RowStart(gx, rows) is triangle b of some cell (ix, iy). */
  lemma {:induction false} CellOfIndex(gx: nat, rows: nat, k: nat) returns (iy: nat, ix: nat, b: nat)
    requires k < RowStart(gx, rows)
    ensures iy < rows && ix < gx && b < 2 && k == RowStart(gx, iy) + 2 * ix + b
  {
    var r := rows - 1;
    if k < RowStart(gx, r) {
      iy, ix, b := CellOfIndex(gx, r, k);
    } else {
      var rem := k - RowStart(gx, r);
      iy, ix, b := r, rem / 2, rem % 2;
    }
  }

  /** Every triangle of the mesh is a triangle of some grid cell, and its first
      and last corners are that cell's p00 and p11. Together with MeshCellAt this
      says the triangles are exactly two per cell, in row-major order. */
  lemma MeshTriangleOfCell<P>(points: seq<seq<P>>, gx: nat, gy: nat, k: nat)
    requires IsGrid(points, gx, gy) && k < |Mesh(points, gx, gy, gy)|
    ensures exists iy, ix, b :: 0 <= iy < gy && 0 <= ix < gx && 0 <= b < 2 &&
              k == 2 * (iy * gx + ix) + b &&
              Mesh(points, gx, gy, gy)[k] == Cell(points, gx, gy, ix, iy)[b] &&
              Mesh(points, gx, gy, gy)[k].a == points[iy][ix] &&
              Mesh(points, gx, gy, gy)[k].c == points[iy + 1][ix + 1]
  {
    MeshLength(points, gx, gy, gy);
    var iy, ix, b := CellOfIndex(gx, gy, k);
    MeshCell(points, gx, gy, gy, iy, ix, b);
    CellIndexIsProduct(gx, iy, ix, b);
  }

  // ---------------------------------------------------------------------
  // pattern_dots
  // ---------------------------------------------------------------------

  /** Python's range(start, stop, step) for a positive step. */
  function Range(start: int, stop: int, step: nat): (r: seq<int>)
    requires step >= 1
    ensures |r| == 0 <==> start >= stop
    decreases stop - start
  {
    if start >= stop then [] else [start] + Range(start + step, stop, step)
  }

  /** range(start, stop, step) lists start, start+step, ... : all the values of
      that progression below stop, and the next one would reach stop. */
  lemma {:induction false} RangeAt(start: int, stop: int, step: nat)
    requires step >= 1
    ensures forall k :: 0 <= k < |Range(start, stop, step)| ==> Range(start, stop, step)[k] == start + k * step
    ensures forall k :: 0 <= k < |Range(start, stop, step)| ==> start <= Range(start, stop, step)[k] < stop
    ensures start + |Range(start, stop, step)| * step >= stop
    decreases stop - start
  {
    if start < stop {
      var r, tail := Range(start, stop, step), Range(start + step, stop, step);
      RangeAt(start + step, stop, step);
      assert |r| == 1 + |tail|;
      forall k | 1 <= k < |r| ensures r[k] == start + k * step {
        assert r[k] == tail[k - 1] == start + step + (k - 1) * step;
      }
      assert start + step + |tail| * step == start + |r| * step;
    }
  }

  /** Every value in [start, stop) lies in the gap of the progression that
      starts at some element of the range: the range leaves no gap wider than step. */
  lemma {:induction false} RangeCovers(start: int, stop: int, step: nat, v: int)
    requires step >= 1 && start <= v < stop
    ensures exists k :: 0 <= k < |Range(start, stop, step)| &&
                        Range(start, stop, step)[k] <= v < Range(start, stop, step)[k] + step
    decreases stop - start
  {
    var r := Range(start, stop, step);
    if v < start + step {
      assert r[0] == start;
    } else {
      RangeCovers(start + step, stop, step, v);
      var tail := Range(start + step, stop, step);
      var k :| 0 <= k < |tail| && tail[k] <= v < tail[k] + step;
      assert r[k + 1] == tail[k];
    }
  }

  /** A non-empty range ends less than one step before stop. */
  lemma RangeLast(start: int, stop: int, step: nat)
    requires step >= 1 && start < stop
    ensures |Range(start, stop, step)| > 0
    ensures Range(start, stop, step)[|Range(start, stop, step)| - 1] + step >= stop
  {
    var r := Range(start, stop, step);
    RangeAt(start, stop, step);
    var n := |r|;
    assert r[n - 1] == start + (n - 1) * step;
    assert (n - 1) * step + step == n * step;
  }

  datatype Centre = Centre(x: int, y: int)

  /** The dots of one row y, at the columns xs in order. */
  function DotRow(y: int, xs: seq<int>): (r: seq<Centre>) {
    if xs == [] then [] else DotRow(y, xs[..|xs| - 1]) + [Centre(xs[|xs| - 1], y)]
  }

  lemma {:induction false} DotRowAt(y: int, xs: seq<int>)
    ensures |DotRow(y, xs)| == |xs|
    ensures forall i :: 0 <= i < |xs| ==> DotRow(y, xs)[i] == Centre(xs[i], y)
  {
    if xs != [] {
      DotRowAt(y, xs[..|xs| - 1]);
    }
  }

  /** The dots of the rows ys, row by row. */
  function DotRows(ys: seq<int>, xs: seq<int>): (r: seq<Centre>) {
    if ys == [] then [] else DotRows(ys[..|ys| - 1], xs) + DotRow(ys[|ys| - 1], xs)
  }

  lemma {:induction false} DotRowMembers(y: int, xs: seq<int>, c: Centre)
    ensures c in DotRow(y, xs) <==> c.y == y && c.x in xs
  {
    if xs != [] {
      var init, x := xs[..|xs| - 1], xs[|xs| - 1];
      DotRowMembers(y, init, c);
      assert xs == init + [x];
    }
  }

  /** A centre is drawn exactly when its row is one of ys and its column one of xs. */
  lemma {:induction false} DotRowsMembers(ys: seq<int>, xs: seq<int>, c: Centre)
    ensures c in DotRows(ys, xs) <==> c.y in ys && c.x in xs
  {
    if ys != [] {
      var init, y := ys[..|ys| - 1], ys[|ys| - 1];
      DotRowsMembers(init, xs, c);
      DotRowMembers(y, xs, c);
      assert ys == init + [y];
    }
  }

  /** One dot per row and column. */
  lemma {:induction false} DotRowsSize(ys: seq<int>, xs: seq<int>)
    ensures |DotRows(ys, xs)| == |ys| * |xs|
  {
    if ys != [] {
      DotRowsSize(ys[..|ys| - 1], xs);
      DotRowAt(ys[|ys| - 1], xs);
      assert |ys| * |xs| == (|ys| - 1) * |xs| + |xs|;
    }
  }

  /** offset = random.choice([0, spacing // 2]): the first column lies at
      most half a spacing in, so inside the first spacing. */
  function DotOffset(spacing: nat, shifted: bool): (r: nat)
    ensures 2 * r <= spacing
    ensures spacing >= 1 ==> r < spacing
    ensures !shifted ==> r == 0
  {
    if shifted then spacing / 2 else 0
  }

  /** r = max(1, spacing // 4): at least one pixel, and the bounding boxes of
      two neighbouring dots keep apart exactly when spacing is at least 3. */
  function DotRadius(spacing: nat): (r: nat)
    ensures r >= 1 && r <= spacing / 4 + 1
    ensures 2 * r < spacing <==> spacing >= 3
  {
    if spacing / 4 > 1 then spacing / 4 else 1
  }

  /** The dot centres of pattern_dots with the given spacing on a w x h canvas. */
  function DotLayout(w: nat, h: nat, spacing: nat, shifted: bool): (r: seq<Centre>)
    requires spacing >= 1
  {
    DotRows(Range(0, h + spacing, spacing), Range(DotOffset(spacing, shifted), w + spacing, spacing))
  }

  /** One row of dots, extended by the dot at column x. */
  lemma DotRowSnoc(y: int, xs: seq<int>, x: int)
    ensures DotRow(y, xs + [x]) == DotRow(y, xs) + [Centre(x, y)]
  {
    assert (xs + [x])[..|xs|] == xs;
  }

  /** The rows of dots, extended by row y. */
  lemma DotRowsSnoc(ys: seq<int>, y: int, xs: seq<int>)
    ensures DotRows(ys + [y], xs) == DotRows(ys, xs) + DotRow(y, xs)
  {
    assert (ys + [y])[..|ys|] == ys;
  }

  /** Unfolds one step of a range. */
  lemma RangeStep(start: int, stop: int, step: nat)
    requires step >= 1 && start < stop
    ensures Range(start, stop, step) == [start] + Range(start + step, stop, step)
  {
  }

  /** The inner loop of pattern_dots: the dots of row y, one per column of
      range(offset, stop, spacing). */
  method RowCentres(y: int, offset: int, stop: int, spacing: nat) returns (row: seq<Centre>)
    requires spacing >= 1
    ensures row == DotRow(y, Range(offset, stop, spacing))
  {
    ghost var columns := Range(offset, stop, spacing);
    ghost var done: seq<int> := [];
    row := [];
    var x := offset;
    while x < stop
      invariant done + Range(x, stop, spacing) == columns
      invariant row == DotRow(y, done)
      decreases stop - x
    {
      RangeStep(x, stop, spacing);
      DotRowSnoc(y, done, x);
      assert (done + [x]) + Range(x + spacing, stop, spacing) == columns;
      row := row + [Centre(x, y)];
      done := done + [x];
      x := x + spacing;
    }
    assert done == columns;
  }

  /** The nested range loops of pattern_dots. A zero spacing makes range()
      raise ValueError before any dot is drawn. */
  method DotCentres(w: nat, h: nat, spacing: nat, shifted: bool) returns (r: Result<seq<Centre>>)
    ensures spacing == 0 <==> r == Err(ZeroStep)
    ensures spacing >= 1 ==> r == Ok(DotLayout(w, h, spacing, shifted))
  {
    if spacing == 0 {
      return Err(ZeroStep);
    }
    var offset := DotOffset(spacing, shifted);
    ghost var columns := Range(offset, w + spacing, spacing);
    var centres := [];
    ghost var rows: seq<int> := [];
    var y := 0;
    while y < h + spacing
      invariant rows + Range(y, h + spacing, spacing) == Range(0, h + spacing, spacing)
      invariant centres == DotRows(rows, columns)
      decreases h + spacing - y
    {
      var row := RowCentres(y, offset, w + spacing, spacing);
      RangeStep(y, h + spacing, spacing);
      DotRowsSnoc(rows, y, columns);
      assert (rows + [y]) + Range(y + spacing, h + spacing, spacing) == Range(0, h + spacing, spacing);
      centres := centres + row;
      rows := rows + [y];
      y := y + spacing;
    }
    assert rows == Range(0, h + spacing, spacing);
    r := Ok(centres);
  }

  /** Row y-coordinates are 0, spacing, 2*spacing, ...; column x-coordinates are
      offset, offset+spacing, ...; every centre lies in
      [offset, w + spacing) x [0, h + spacing); the last row is at or below h and
      the last column at or right of w, so the dots reach every edge of the canvas. */
  lemma DotLayoutBounds(w: nat, h: nat, spacing: nat, shifted: bool)
    requires spacing >= 1
    ensures var ys, xs := Range(0, h + spacing, spacing), Range(DotOffset(spacing, shifted), w + spacing, spacing);
            && (forall k :: 0 <= k < |ys| ==> ys[k] == k * spacing)
            && (forall k :: 0 <= k < |xs| ==> xs[k] == DotOffset(spacing, shifted) + k * spacing)
            && |ys| > 0 && ys[|ys| - 1] >= h
            && |xs| > 0 && xs[|xs| - 1] >= w
    ensures forall c :: c in DotLayout(w, h, spacing, shifted) ==>
              0 <= c.y < h + spacing && DotOffset(spacing, shifted) <= c.x < w + spacing
  {
    var off := DotOffset(spacing, shifted);
    var ys, xs := Range(0, h + spacing, spacing), Range(off, w + spacing, spacing);
    RangeAt(0, h + spacing, spacing);
    RangeAt(off, w + spacing, spacing);
    RangeLast(0, h + spacing, spacing);
    RangeLast(off, w + spacing, spacing);
    forall c | c in DotLayout(w, h, spacing, shifted)
      ensures 0 <= c.y < h + spacing && off <= c.x < w + spacing
    {
      DotRowsMembers(ys, xs, c);
    }
  }


  /** Every pixel row of the canvas lies within one spacing below a dot row, and
      every pixel column from the offset on within one spacing right of a dot column. */
  lemma DotLayoutCovers(w: nat, h: nat, spacing: nat, shifted: bool, px: int, py: int)
    requires spacing >= 1
    requires 0 <= py < h && DotOffset(spacing, shifted) <= px < w
    ensures exists c :: c in DotLayout(w, h, spacing, shifted) &&
                        c.y <= py < c.y + spacing && c.x <= px < c.x + spacing
  {
    var off := DotOffset(spacing, shifted);
    var ys, xs := Range(0, h + spacing, spacing), Range(off, w + spacing, spacing);
    RangeCovers(0, h + spacing, spacing, py);
    RangeCovers(off, w + spacing, spacing, px);
    var i :| 0 <= i < |ys| && ys[i] <= py < ys[i] + spacing;
    var j :| 0 <= j < |xs| && xs[j] <= px < xs[j] + spacing;
    var c := Centre(xs[j], ys[i]);
    DotRowsMembers(ys, xs, c);
    assert c in DotLayout(w, h, spacing, shifted);
  }
}
