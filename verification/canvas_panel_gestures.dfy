/**
 * Whole gestures on the canvas panel: a pencil tap, a selection drag, and
 * a copy followed by a paste, each followed from the first event to the
 * last.
 */
module CanvasPanelGestures {
  import opened Ints
  import opened Wrappers
  import opened Input
  import opened Buffer
  import opened Viewport
  import opened CanvasPanel
  import History

  /** After a left press with a drawing tool the scratch grid is the view with the pressed cell plotted. */
  lemma TapScratch(s: Panel, env: Env, x: int, y: int)
    requires WellFormed(s) && ViewInCanvas(s)
    requires !env.IsSelect() && env.InPencilToCircRange()
    ensures
      && var r := MouseDown(s, env, Left, x, y);
      && r.canvas == s.canvas && r.hScroll == s.hScroll && r.vScroll == s.vScroll
      && r.history == s.history
      && FocusX(r) == FocusX(s) && FocusY(r) == FocusY(s)
      && r.pressX == ScreenToView(s.originX, x) && r.pressY == ScreenToView(s.originY, y)
      && r.temp == PSet(View(r), ScreenToView(s.originX, x), ScreenToView(s.originY, y), env.color)
  {
  }

  /**
   * A press followed by a release with a drawing tool: the view at the
   * unchanged focus becomes the old view with the pressed cell plotted,
   * and the rest of the buffer is kept.
   */
  lemma TapCanvas(s: Panel, env: Env, x: int, y: int, x': int, y': int)
    requires WellFormed(s) && ViewInCanvas(s)
    requires !env.IsSelect() && env.InPencilToCircRange()
    ensures
      && var r := MouseUp(MouseDown(s, env, Left, x, y), env, Left, x', y');
      && var fx := FocusX(s);
      && var fy := FocusY(s);
      && !r.isDragged
      && IsGrid(r.canvas, Width(s.canvas), |s.canvas|)
      && Covers(r.canvas, fx, fy, ViewCells, ViewCells)
      && GetSlice(r.canvas, fx, fy, ViewCells, ViewCells) ==
         PSet(GetSlice(s.canvas, fx, fy, ViewCells, ViewCells),
              ScreenToView(s.originX, x), ScreenToView(s.originY, y), env.color)
      && (forall i, j {:trigger r.canvas[i][j]} ::
            && 0 <= i < |s.canvas| && 0 <= j < Width(s.canvas)
            && !InBlock(i, j, fx, fy, ViewCells, ViewCells)
            ==> r.canvas[i][j] == s.canvas[i][j])
  {
    TapScratch(s, env, x, y);
    ReleaseCommits(MouseDown(s, env, Left, x, y), env, x', y');
  }

  /**
   * The same press and release pushes the history a record of the view
   * before and after the cell was plotted.
   */
  lemma TapHistory(s: Panel, env: Env, x: int, y: int, x': int, y': int)
    requires WellFormed(s) && ViewInCanvas(s)
    requires !env.IsSelect() && env.InPencilToCircRange()
    ensures
      && var r := MouseUp(MouseDown(s, env, Left, x, y), env, Left, x', y');
      && var view := GetSlice(s.canvas, FocusX(s), FocusY(s), ViewCells, ViewCells);
      && Pushed(s.history, r.history,
                History.Entry(env.target, FocusX(s), FocusY(s), view,
                              PSet(view, ScreenToView(s.originX, x), ScreenToView(s.originY, y), env.color)))
  {
    TapScratch(s, env, x, y);
    ReleaseCommits(MouseDown(s, env, Left, x, y), env, x', y');
  }

  /** Plotting one cell of a 16-by-16 grid leaves it equal exactly when the cell already had that colour. */
  lemma {:induction false} OneCellChange(view: Grid, px: int, py: int, col: int)
    requires IsGrid(view, ViewCells, ViewCells)
    requires 0 <= px < ViewCells && 0 <= py < ViewCells
    ensures view == PSet(view, px, py, col) <==> view[py][px] == col
  {
    var g := PSet(view, px, py, col);
    if view[py][px] == col {
      Extensionality(view, g, ViewCells, ViewCells);
    } else {
      assert view[py][px] != g[py][px];
    }
  }

  /**
   * Cell (i, j) of a buffer whose view became the old view with one cell
   * plotted, and which kept that cell if it lies outside the view, is the
   * old value unless it is the plotted cell.
   */
  lemma {:induction false} PlottedCell(canvas: Grid, canvas': Grid, fx: int, fy: int,
                                       px: int, py: int, col: int, i: int, j: int)
    requires Covers(canvas, fx, fy, ViewCells, ViewCells)
    requires 0 <= px < ViewCells && 0 <= py < ViewCells
    requires IsGrid(canvas', Width(canvas), |canvas|)
    requires Covers(canvas', fx, fy, ViewCells, ViewCells)
    requires GetSlice(canvas', fx, fy, ViewCells, ViewCells) ==
             PSet(GetSlice(canvas, fx, fy, ViewCells, ViewCells), px, py, col)
    requires forall i, j {:trigger canvas'[i][j]} ::
               && 0 <= i < |canvas| && 0 <= j < Width(canvas)
               && !InBlock(i, j, fx, fy, ViewCells, ViewCells)
               ==> canvas'[i][j] == canvas[i][j]
    requires 0 <= i < |canvas| && 0 <= j < Width(canvas)
    ensures canvas'[i][j] == if i == fy + py && j == fx + px then col else canvas[i][j]
  {
    if InBlock(i, j, fx, fy, ViewCells, ViewCells) {
      var v := GetSlice(canvas, fx, fy, ViewCells, ViewCells);
      var v' := GetSlice(canvas', fx, fy, ViewCells, ViewCells);
      assert v'[i - fy][j - fx] == canvas'[fy + (i - fy)][fx + (j - fx)];
      assert v[i - fy][j - fx] == canvas[fy + (i - fy)][fx + (j - fx)];
    }
  }

  /**
   * A buffer whose view became the old view with one cell plotted, and
   * which is unchanged outside the view, differs from the old buffer in
   * that one cell only.
   */
  lemma {:induction false} PlottedBuffer(canvas: Grid, canvas': Grid, fx: int, fy: int, px: int, py: int, col: int)
    requires Covers(canvas, fx, fy, ViewCells, ViewCells)
    requires 0 <= px < ViewCells && 0 <= py < ViewCells
    requires IsGrid(canvas', Width(canvas), |canvas|)
    requires Covers(canvas', fx, fy, ViewCells, ViewCells)
    requires GetSlice(canvas', fx, fy, ViewCells, ViewCells) ==
             PSet(GetSlice(canvas, fx, fy, ViewCells, ViewCells), px, py, col)
    requires forall i, j {:trigger canvas'[i][j]} ::
               && 0 <= i < |canvas| && 0 <= j < Width(canvas)
               && !InBlock(i, j, fx, fy, ViewCells, ViewCells)
               ==> canvas'[i][j] == canvas[i][j]
    ensures forall i, j {:trigger canvas'[i][j]} :: 0 <= i < |canvas| && 0 <= j < Width(canvas) ==>
              canvas'[i][j] == if i == fy + py && j == fx + px then col else canvas[i][j]
  {
    forall i, j | 0 <= i < |canvas| && 0 <= j < Width(canvas)
      ensures canvas'[i][j] == if i == fy + py && j == fx + px then col else canvas[i][j]
    {
      PlottedCell(canvas, canvas', fx, fy, px, py, col, i, j);
    }
  }

  /**
   * Pressing and releasing the left button with a drawing tool, wherever
   * the pointer was released, paints the pressed cell of the buffer in the
   * active colour and changes nothing else.
   */
  lemma {:induction false} PencilTap(s: Panel, env: Env, x: int, y: int, x': int, y': int)
    requires WellFormed(s) && ViewInCanvas(s)
    requires !env.IsSelect() && env.InPencilToCircRange()
    ensures
      && var r := MouseUp(MouseDown(s, env, Left, x, y), env, Left, x', y');
      && var cx := FocusX(s) + ScreenToView(s.originX, x);
      && var cy := FocusY(s) + ScreenToView(s.originY, y);
      && !r.isDragged
      && IsGrid(r.canvas, Width(s.canvas), |s.canvas|)
      && forall i, j {:trigger r.canvas[i][j]} :: 0 <= i < |s.canvas| && 0 <= j < Width(s.canvas) ==>
           r.canvas[i][j] == if i == cy && j == cx then env.color else s.canvas[i][j]
  {
    TapCanvas(s, env, x, y, x', y');
    var r := MouseUp(MouseDown(s, env, Left, x, y), env, Left, x', y');
    PlottedBuffer(s.canvas, r.canvas, FocusX(s), FocusY(s),
                  ScreenToView(s.originX, x), ScreenToView(s.originY, y), env.color);
  }

  /**
   * Releasing the left button over a scratch grid that is the view with
   * one cell plotted pushes a record exactly when that cell of the buffer
   * changes colour.
   */
  lemma {:induction false} ReleasePlotHistory(s: Panel, env: Env, x: int, y: int, px: int, py: int, col: int)
    requires WellFormed(s) && ViewInCanvas(s) && env.InPencilToCircRange()
    requires 0 <= px < ViewCells && 0 <= py < ViewCells
    requires s.temp == PSet(View(s), px, py, col)
    ensures
      && var r := MouseUp(s, env, Left, x, y);
      && |r.history| == |s.history| + (if ViewCell(s, px, py) == col then 0 else 1)
  {
    ReleaseCommits(s, env, x, y);
    var view := View(s);
    OneCellChange(view, px, py, col);
  }

  /** ReleasePlotHistory, for a panel reached from `s` by a left press with a drawing tool. */
  lemma {:induction false} PressThenReleaseHistory(s: Panel, d: Panel, env: Env, x: int, y: int, x': int, y': int)
    requires WellFormed(s) && ViewInCanvas(s)
    requires !env.IsSelect() && env.InPencilToCircRange()
    requires d == MouseDown(s, env, Left, x, y)
    ensures
      && var c := ViewCell(s, ScreenToView(s.originX, x), ScreenToView(s.originY, y));
      && |MouseUp(d, env, Left, x', y').history| == |s.history| + (if c == env.color then 0 else 1)
  {
    TapScratch(s, env, x, y);
    ReleasePlotHistory(d, env, x', y', ScreenToView(s.originX, x), ScreenToView(s.originY, y), env.color);
  }

  /**
   * The same tap pushes one history record, unless the pressed cell
   * already had the active colour, in which case it pushes none.
   */
  lemma {:induction false} PencilTapHistory(s: Panel, env: Env, x: int, y: int, x': int, y': int)
    requires WellFormed(s) && ViewInCanvas(s)
    requires !env.IsSelect() && env.InPencilToCircRange()
    ensures
      && var r := MouseUp(MouseDown(s, env, Left, x, y), env, Left, x', y');
      && var c := ViewCell(s, ScreenToView(s.originX, x), ScreenToView(s.originY, y));
      && |r.history| == |s.history| + (if c == env.color then 0 else 1)
  {
    PressThenReleaseHistory(s, MouseDown(s, env, Left, x, y), env, x, y, x', y');
  }

  /**
   * A selection drag with the select tool: the selection ends up spanning
   * the pressed cell and the cell the pointer was dragged to (both clamped
   * into the view), and releasing the button neither touches the buffer
   * nor the history.
   */
  lemma {:induction false} SelectGesture(s: Panel, env: Env, x: int, y: int, x': int, y': int, dx: int, dy: int)
    requires WellFormed(s) && ViewInCanvas(s)
    requires env.IsSelect() && env.codes.SelectApart()
    ensures
      && var s1 := MouseDown(s, env, Left, x, y);
      && var r := MouseUp(MouseDrag(s1, env, Left, x', y', dx, dy), env, Left, x', y');
      && var px := ScreenToView(s.originX, x);
      && var py := ScreenToView(s.originY, y);
      && var qx := ScreenToView(s.originX, x');
      && var qy := ScreenToView(s.originY, y');
      && r.selX1 == Min(px, qx) && r.selX2 == Max(px, qx)
      && r.selY1 == Min(py, qy) && r.selY2 == Max(py, qy)
      && r.canvas == s.canvas && r.history == s.history && !r.isDragged
  {
  }

  /** Ctrl held with C pressed, nothing else. */
  const CopyKeys := Keys(false, true, false, false, true, false, false, false, false, false)

  /** Ctrl held with V pressed, nothing else. */
  const PasteKeys := Keys(false, true, false, false, false, true, false, false, false, false)

  /** The selected block of the buffer, as Copy takes it. */
  function Selected(s: Panel): Grid
    requires WellFormed(s) && ViewInCanvas(s)
  {
    GetSlice(s.canvas, FocusX(s) + s.selX1, FocusY(s) + s.selY1, s.selX2 - s.selX1 + 1, s.selY2 - s.selY1 + 1)
  }

  /** With the select tool, Ctrl+C copies the selection. */
  lemma CopyKeysCopy(s: Panel, env: Env)
    requires WellFormed(s) && ViewInCanvas(s) && env.IsSelect()
    ensures Update(s, env, CopyKeys) == Copy(s)
  {
  }

  /** With the select tool and a clipboard, Ctrl+V pastes it. */
  lemma PasteKeysPaste(s: Panel, env: Env)
    requires WellFormed(s) && ViewInCanvas(s) && env.IsSelect() && s.clip.Some?
    ensures Update(s, env, PasteKeys) == Paste(s, env)
  {
  }

  /** Copy takes exactly the selected block of the buffer. */
  lemma CopyTakes(s: Panel)
    requires WellFormed(s) && ViewInCanvas(s)
    ensures Copy(s).clip == Some(Selected(s))
  {
  }

  /** Pasting a fresh copy of the selection writes back what is already there. */
  lemma {:induction false} CopyThenPaste(s: Panel, env: Env)
    requires WellFormed(s) && ViewInCanvas(s)
    ensures Paste(Copy(s), env).canvas == s.canvas
  {
    CopyTakes(s);
    PasteSelected(Copy(s), env);
  }

  /**
   * Cell (i, j) of a buffer into which the w-by-h block at (x, y) was
   * written back, unchanged, keeps its value.
   */
  lemma {:induction false} RewrittenCell(canvas: Grid, canvas': Grid, x: int, y: int, w: int, h: int, i: int, j: int)
    requires Covers(canvas, x, y, w, h)
    requires IsGrid(canvas', Width(canvas), |canvas|)
    requires
      var data := GetSlice(canvas, x, y, w, h);
      forall i, j :: 0 <= i < h && 0 <= j < w ==> canvas'[y + i][x + j] == data[i][j]
    requires forall i, j {:trigger canvas'[i][j]} ::
               && 0 <= i < |canvas| && 0 <= j < Width(canvas)
               && !InBlock(i, j, x, y, w, h)
               ==> canvas'[i][j] == canvas[i][j]
    requires 0 <= i < |canvas| && 0 <= j < Width(canvas)
    ensures canvas'[i][j] == canvas[i][j]
  {
    if InBlock(i, j, x, y, w, h) {
      var data := GetSlice(canvas, x, y, w, h);
      assert canvas'[y + (i - y)][x + (j - x)] == data[i - y][j - x];
      assert data[i - y][j - x] == canvas[y + (i - y)][x + (j - x)];
    }
  }

  /**
   * A buffer into which the w-by-h block at (x, y) was written back,
   * unchanged, and which kept every cell outside that block, is the old
   * buffer.
   */
  lemma {:induction false} RewrittenBuffer(canvas: Grid, canvas': Grid, x: int, y: int, w: int, h: int)
    requires Covers(canvas, x, y, w, h)
    requires IsGrid(canvas', Width(canvas), |canvas|)
    requires
      var data := GetSlice(canvas, x, y, w, h);
      forall i, j :: 0 <= i < h && 0 <= j < w ==> canvas'[y + i][x + j] == data[i][j]
    requires forall i, j {:trigger canvas'[i][j]} ::
               && 0 <= i < |canvas| && 0 <= j < Width(canvas)
               && !InBlock(i, j, x, y, w, h)
               ==> canvas'[i][j] == canvas[i][j]
    ensures canvas' == canvas
  {
    forall i, j | 0 <= i < |canvas| && 0 <= j < Width(canvas)
      ensures canvas'[i][j] == canvas[i][j]
    {
      RewrittenCell(canvas, canvas', x, y, w, h, i, j);
    }
    Extensionality(canvas', canvas, Width(canvas), |canvas|);
  }

  /** Pasting a clipboard that holds the selected block leaves the buffer as it is. */
  lemma {:induction false} PasteSelected(s: Panel, env: Env)
    requires WellFormed(s) && ViewInCanvas(s) && s.clip == Some(Selected(s))
    ensures Paste(s, env).canvas == s.canvas
  {
    PasteCanvasSelected(s);
  }

  /** The buffer a paste of the selected block leaves is the old buffer. */
  lemma {:induction false} PasteCanvasSelected(s: Panel)
    requires WellFormed(s) && ViewInCanvas(s) && s.clip == Some(Selected(s))
    ensures PasteCanvas(s) == s.canvas
  {
    var w := s.selX2 - s.selX1 + 1;
    var h := s.selY2 - s.selY1 + 1;
    assert PasteExtent(s.selX1, w) == w && PasteExtent(s.selY1, h) == h;
    SetOwnSlice(s.canvas, FocusX(s) + s.selX1, FocusY(s) + s.selY1, w, h);
  }

  /** A paste right after a copy pushes no history record. */
  lemma {:induction false} CopyThenPasteHistory(s: Panel, env: Env)
    requires WellFormed(s) && ViewInCanvas(s)
    ensures Paste(Copy(s), env).history == s.history
  {
    CopyThenPaste(s, env);
  }

  /**
   * With the select tool, Ctrl+C followed by Ctrl+V pastes the selection
   * straight back at the same place: the buffer is as it was and no
   * history record is pushed.
   */
  lemma {:induction false} CopyPasteRoundTrip(s: Panel, env: Env)
    requires WellFormed(s) && ViewInCanvas(s) && env.IsSelect()
    ensures
      && var r := Update(Update(s, env, CopyKeys), env, PasteKeys);
      && r.canvas == s.canvas && r.history == s.history
  {
    CopyKeysCopy(s, env);
    PasteKeysPaste(Copy(s), env);
    CopyThenPaste(s, env);
    CopyThenPasteHistory(s, env);
  }

  /** The left arrow pressed, nothing else. */
  const LeftArrowKeys := Keys(false, false, false, false, false, false, true, false, false, false)

  /**
   * The arrows are not clamped: from the initial panel over a 256-by-256
   * buffer, one press of the left arrow moves the view off the buffer. The
   * panel still takes the next event; a right drag clamps the focus and
   * brings the view back.
   */
  lemma LeftArrowThenPan(c: Grid, env: Env, ox: int, oy: int, x: int, y: int, dx: int, dy: int)
    requires IsGrid(c, 256, 256)
    ensures
      && var s := Update(Init(ox, oy, c), env, LeftArrowKeys);
      && FocusX(s) == -8 && !ViewInCanvas(s)
      && ViewInCanvas(MouseDrag(s, env, Right, x, y, dx, dy))
  {
  }
}
