/**
 * The pixel buffers the editor works on: an image (colour indices) or a
 * tilemap (tile numbers), both indexed `g[y][x]`, row by row. The block
 * operations are those the panel calls on pyxel images: `get_slice`,
 * `set_slice`, `blt` (without a transparent colour) and painting a raster
 * shape in one colour.
 */
module Buffer {

  type Grid = seq<seq<int>>

  /** g has h rows of w values each. */
  predicate IsGrid(g: Grid, w: int, h: int) {
    |g| == h && forall i :: 0 <= i < |g| ==> |g[i]| == w
  }

  function Width(g: Grid): nat {
    if |g| == 0 then 0 else |g[0]|
  }

  predicate Rectangular(g: Grid) {
    IsGrid(g, Width(g), |g|)
  }

  /** The w-by-h block whose top-left value is at (x, y) lies inside g. */
  predicate Covers(g: Grid, x: int, y: int, w: int, h: int) {
    && Rectangular(g)
    && 0 <= x && 0 <= y && 0 <= w && 0 <= h
    && x + w <= Width(g) && y + h <= |g|
  }

  /** The first h rows of d hold at least w values each. */
  predicate Holds(d: Grid, w: int, h: int) {
    0 <= h <= |d| && forall i :: 0 <= i < h ==> w <= |d[i]|
  }

  /** Two w-by-h grids that agree everywhere are equal. */
  lemma Extensionality(a: Grid, b: Grid, w: int, h: int)
    requires IsGrid(a, w, h) && IsGrid(b, w, h)
    requires forall i, j :: 0 <= i < h && 0 <= j < w ==> a[i][j] == b[i][j]
    ensures a == b
  {
    forall i | 0 <= i < h
      ensures a[i] == b[i]
    {
      assert forall j :: 0 <= j < w ==> a[i][j] == b[i][j];
    }
  }

  /** Rows 0 .. n-1 of the w-by-h block at (x, y), built one row at a time. */
  function SliceRows(g: Grid, x: int, y: int, w: int, h: int, n: int): (r: Grid)
    requires Covers(g, x, y, w, h) && 0 <= n <= h
    ensures IsGrid(r, w, n)
    ensures forall i, j :: 0 <= i < n && 0 <= j < w ==> r[i][j] == g[y + i][x + j]
    decreases n
  {
    if n == 0 then [] else SliceRows(g, x, y, w, h, n - 1) + [g[y + n - 1][x .. x + w]]
  }

  /** `get_slice(x, y, w, h)`: a copy of the w-by-h block at (x, y). */
  function GetSlice(g: Grid, x: int, y: int, w: int, h: int): (r: Grid)
    requires Covers(g, x, y, w, h)
    ensures IsGrid(r, w, h)
    ensures forall i, j :: 0 <= i < h && 0 <= j < w ==> r[i][j] == g[y + i][x + j]
  {
    SliceRows(g, x, y, w, h, h)
  }

  /** The w-by-h block at (x, y), as a predicate on cells. */
  predicate InBlock(i: int, j: int, x: int, y: int, w: int, h: int) {
    y <= i < y + h && x <= j < x + w
  }

  /**
   * The first m values of `row` with the first w values of src written
   * from column x on, built one value at a time.
   */
  function WriteRow(row: seq<int>, x: int, w: int, src: seq<int>, m: int): (r: seq<int>)
    requires 0 <= x && 0 <= w && x + w <= |row| && w <= |src| && 0 <= m <= |row|
    ensures |r| == m
    ensures forall j {:trigger r[j]} :: 0 <= j < m ==> r[j] == if x <= j < x + w then src[j - x] else row[j]
    decreases m
  {
    if m == 0 then []
    else
      var j := m - 1;
      WriteRow(row, x, w, src, j) + [if x <= j < x + w then src[j - x] else row[j]]
  }

  /** Rows 0 .. n-1 of `set_slice(x, y, w, h, d)`, built one row at a time. */
  function SetRows(g: Grid, x: int, y: int, w: int, h: int, d: Grid, n: int): (r: Grid)
    requires Covers(g, x, y, w, h) && Holds(d, w, h) && 0 <= n <= |g|
    ensures IsGrid(r, Width(g), n)
    ensures forall i, j {:trigger r[i][j]} :: 0 <= i < n && 0 <= j < Width(g) ==>
      r[i][j] == if InBlock(i, j, x, y, w, h) then d[i - y][j - x] else g[i][j]
    decreases n
  {
    if n == 0 then []
    else
      var i := n - 1;
      var row := if y <= i < y + h then WriteRow(g[i], x, w, d[i - y], |g[i]|) else g[i];
      SetRows(g, x, y, w, h, d, i) + [row]
  }

  /**
   * `set_slice(x, y, w, h, d)`: writes d's top-left w-by-h block at (x, y);
   * every cell outside that block keeps its value.
   */
  function SetSlice(g: Grid, x: int, y: int, w: int, h: int, d: Grid): (r: Grid)
    requires Covers(g, x, y, w, h) && Holds(d, w, h)
    ensures IsGrid(r, Width(g), |g|)
    ensures forall i, j :: 0 <= i < h && 0 <= j < w ==> r[y + i][x + j] == d[i][j]
    ensures forall i, j {:trigger r[i][j]} :: 0 <= i < |g| && 0 <= j < Width(g) && !InBlock(i, j, x, y, w, h) ==>
      r[i][j] == g[i][j]
  {
    SetRows(g, x, y, w, h, d, |g|)
  }

  /**
   * `dst.blt(dx, dy, src, sx, sy, w, h)`: the w-by-h block of dst at
   * (dx, dy) becomes a copy of the block of src at (sx, sy); the rest of
   * dst is kept.
   */
  function Blt(dst: Grid, dx: int, dy: int, src: Grid, sx: int, sy: int, w: int, h: int): (r: Grid)
    requires Covers(dst, dx, dy, w, h) && Covers(src, sx, sy, w, h)
    ensures IsGrid(r, Width(dst), |dst|) && Covers(r, dx, dy, w, h)
    ensures GetSlice(r, dx, dy, w, h) == GetSlice(src, sx, sy, w, h)
    ensures forall i, j {:trigger r[i][j]} :: 0 <= i < |dst| && 0 <= j < Width(dst) && !InBlock(i, j, dx, dy, w, h) ==>
      r[i][j] == dst[i][j]
  {
    var block := GetSlice(src, sx, sy, w, h);
    var r := SetSlice(dst, dx, dy, w, h, block);
    GetAfterSet(dst, dx, dy, w, h, block);
    r
  }

  /**
   * Draws a raster shape: every value whose cell the shape covers becomes
   * `col`, the rest are kept. Cells outside the grid are clipped away.
   */
  function Paint(g: Grid, covers: (int, int) -> bool, col: int): (r: Grid)
    ensures |r| == |g| && forall i :: 0 <= i < |g| ==> |r[i]| == |g[i]|
    ensures forall i, j {:trigger r[i][j]} :: 0 <= i < |g| && 0 <= j < |g[i]| ==>
      r[i][j] == if covers(j, i) then col else g[i][j]
  {
    seq(|g|, i requires 0 <= i < |g| =>
      seq(|g[i]|, j requires 0 <= j < |g[i]| => if covers(j, i) then col else g[i][j]))
  }

  /**
   * `pset(x, y, col)`: cell (x, y) becomes `col` when it lies inside the
   * grid; a point outside is clipped away and nothing changes.
   */
  function PSet(g: Grid, x: int, y: int, col: int): (r: Grid)
    ensures |r| == |g| && forall i :: 0 <= i < |g| ==> |r[i]| == |g[i]|
    ensures forall i, j {:trigger r[i][j]} :: 0 <= i < |g| && 0 <= j < |g[i]| ==>
      r[i][j] == if i == y && j == x then col else g[i][j]
  {
    if 0 <= y < |g| && 0 <= x < |g[y]| then g[y := g[y][x := col]] else g
  }

  /** Reading back a block just written returns what was written. */
  lemma GetAfterSet(g: Grid, x: int, y: int, w: int, h: int, d: Grid)
    requires Covers(g, x, y, w, h) && IsGrid(d, w, h)
    ensures Covers(SetSlice(g, x, y, w, h, d), x, y, w, h)
    ensures GetSlice(SetSlice(g, x, y, w, h, d), x, y, w, h) == d
  {
    var r := SetSlice(g, x, y, w, h, d);
    assert Width(r) == Width(g) by {
      if |g| > 0 {
        assert |r[0]| == Width(g);
      }
    }
    Extensionality(GetSlice(r, x, y, w, h), d, w, h);
  }

  /** Writing back a block that was just read changes nothing. */
  lemma SetOwnSlice(g: Grid, x: int, y: int, w: int, h: int)
    requires Covers(g, x, y, w, h)
    ensures SetSlice(g, x, y, w, h, GetSlice(g, x, y, w, h)) == g
  {
    var d := GetSlice(g, x, y, w, h);
    var r := SetSlice(g, x, y, w, h, d);
    forall i, j | 0 <= i < |g| && 0 <= j < Width(g)
      ensures r[i][j] == g[i][j]
    {
      if InBlock(i, j, x, y, w, h) {
        assert r[y + (i - y)][x + (j - x)] == d[i - y][j - x];
      }
    }
    Extensionality(r, g, Width(g), |g|);
  }

  /** The block at (0, 0) the size of the whole grid is the grid. */
  lemma WholeSlice(g: Grid, w: int, h: int)
    requires 0 <= w && 0 < h && IsGrid(g, w, h)
    ensures Covers(g, 0, 0, w, h)
    ensures GetSlice(g, 0, 0, w, h) == g
  {
    assert Width(g) == w;
    Extensionality(GetSlice(g, 0, 0, w, h), g, w, h);
  }

  /**
   * `blt` of a whole grid taken from its (0, 0) corner writes that grid
   * into the block, exactly as `set_slice` would.
   */
  lemma BltFromCorner(dst: Grid, dx: int, dy: int, src: Grid, w: int, h: int)
    requires Covers(dst, dx, dy, w, h) && 0 <= w && 0 < h && IsGrid(src, w, h)
    ensures Covers(src, 0, 0, w, h) && Holds(src, w, h)
    ensures Blt(dst, dx, dy, src, 0, 0, w, h) == SetSlice(dst, dx, dy, w, h, src)
  {
    assert Width(src) == w;
    var r := Blt(dst, dx, dy, src, 0, 0, w, h);
    var t := SetSlice(dst, dx, dy, w, h, src);
    forall i, j | 0 <= i < |dst| && 0 <= j < Width(dst)
      ensures r[i][j] == t[i][j]
    {
      if InBlock(i, j, dx, dy, w, h) {
        var a := GetSlice(r, dx, dy, w, h);
        var b := GetSlice(src, 0, 0, w, h);
        assert a[i - dy][j - dx] == r[dy + (i - dy)][dx + (j - dx)];
        assert b[i - dy][j - dx] == src[0 + (i - dy)][0 + (j - dx)];
        assert t[dy + (i - dy)][dx + (j - dx)] == src[i - dy][j - dx];
      }
    }
    Extensionality(r, t, Width(dst), |dst|);
  }

  /**
   * `blt` into the (0, 0) corner of a grid exactly the size of the copied
   * block replaces that grid by the block.
   */
  lemma BltIntoWhole(dst: Grid, src: Grid, sx: int, sy: int, w: int, h: int)
    requires Covers(src, sx, sy, w, h) && 0 <= w && 0 < h && IsGrid(dst, w, h)
    ensures Covers(dst, 0, 0, w, h)
    ensures Blt(dst, 0, 0, src, sx, sy, w, h) == GetSlice(src, sx, sy, w, h)
  {
    assert Width(dst) == w;
    WholeSlice(Blt(dst, 0, 0, src, sx, sy, w, h), w, h);
  }
}
