/**
 * The canvas panel of the pyxel editor: a 16-by-16 cell view onto an image
 * or tilemap, edited with the pointer and the keyboard.
 *
 * The panel is one immutable record and every event a pure transition.
 * Tool-specific drawing happens on a 16-by-16 scratch grid (`temp`) that
 * mirrors the view; releasing the left button copies it back into the
 * buffer inside a before/after history transaction.
 *
 * Collaborators that live elsewhere are parameters: the active colour,
 * tool and buffer number (`Env`), the raster primitives (`Raster`, each a
 * shape saying which cells it covers) and the keyboard state (`Keys`).
 */
module CanvasPanel {
  import opened Ints
  import opened Wrappers
  import opened Input
  import opened Buffer
  import opened Viewport
  import opened Region
  import opened History

  /**
   * A raster primitive drawn between two corner cells (x1, y1) and (x2, y2):
   * `shape(x1, y1, x2, y2, x, y)` tells whether it paints cell (x, y).
   */
  type Shape = (int, int, int, int, int, int) -> bool

  /** pyxel's `line`, `rect2`, `rectb2`, `ellip` and `ellipb`, left abstract. */
  datatype Raster = Raster(line: Shape, rect2: Shape, rectb2: Shape, ellip: Shape, ellipb: Shape)

  /** The cells a primitive paints between two corners. */
  function Cells(shape: Shape, x1: int, y1: int, x2: int, y2: int): (int, int) -> bool {
    (x, y) => shape(x1, y1, x2, y2, x, y)
  }

  /** The tool numbers of the editor's settings, whose values the panel does not fix. */
  datatype ToolCodes = ToolCodes(
    select: int, pencil: int, rectb: int, rect: int, circb: int, circ: int, bucket: int)
  {
    /** The select tool is not one of the drawing tools the release handler commits for. */
    predicate SelectApart() {
      !(pencil <= select <= circ)
    }
  }

  /** What the panel reads from its parent: colour, tool, target buffer number, primitives. */
  datatype Env = Env(color: int, tool: int, codes: ToolCodes, target: Target, raster: Raster) {

    predicate IsSelect() {
      tool == codes.select
    }

    /** `TOOL_PENCIL <= tool <= TOOL_CIRC`: the tools that draw on the scratch grid. */
    predicate InPencilToCircRange() {
      codes.pencil <= tool <= codes.circ
    }
  }

  /**
   * The panel's state. `originX`/`originY` are the widget's screen position;
   * `hScroll`/`vScroll` are the scroll-bar values that hold the focus;
   * `canvas` is the edited buffer; `pending` and `history` are the record
   * being built and the host's undo list.
   */
  datatype Panel = Panel(
    originX: int, originY: int,
    pressX: int, pressY: int,
    lastX: int, lastY: int,
    isDragged: bool, isAssist: bool,
    selX1: int, selY1: int, selX2: int, selY2: int,
    dragOffsetX: int, dragOffsetY: int,
    clip: Option<Grid>,
    hScroll: int, vScroll: int,
    temp: Grid,
    canvas: Grid,
    pending: Option<Pending>,
    history: seq<Entry>)

  /** The `focus_x_var` getter. */
  function FocusX(s: Panel): (f: int)
    ensures f % 8 == 0
  {
    FocusOf(s.hScroll)
  }

  /** The `focus_y_var` getter. */
  function FocusY(s: Panel): (f: int)
    ensures f % 8 == 0
  {
    FocusOf(s.vScroll)
  }

  /** The state every reachable panel is in. */
  predicate WellFormed(s: Panel) {
    && IsGrid(s.temp, ViewCells, ViewCells)
    && Rectangular(s.canvas)
    && 0 <= s.pressX < ViewCells && 0 <= s.pressY < ViewCells
    && 0 <= s.selX1 <= s.selX2 < ViewCells
    && 0 <= s.selY1 <= s.selY2 < ViewCells
    && (s.clip.Some? ==> Rectangular(s.clip.value) && 1 <= |s.clip.value| && 1 <= Width(s.clip.value))
  }

  /** The 16-by-16 block at the focus lies inside the buffer. */
  predicate ViewInCanvas(s: Panel) {
    Covers(s.canvas, FocusX(s), FocusY(s), ViewCells, ViewCells)
  }

  /** What the view shows of the buffer: the 16-by-16 block at the focus. */
  function View(s: Panel): Grid
    requires ViewInCanvas(s)
  {
    GetSlice(s.canvas, FocusX(s), FocusY(s), ViewCells, ViewCells)
  }

  /** The buffer value the view shows at view cell (x, y). */
  function ViewCell(s: Panel, x: int, y: int): int
    requires ViewInCanvas(s) && 0 <= x < ViewCells && 0 <= y < ViewCells
  {
    View(s)[y][x]
  }

  /** Two panels agree on everything but the gesture, scratch grid and selection. */
  predicate SameDocument(a: Panel, b: Panel) {
    && a.originX == b.originX && a.originY == b.originY
    && a.canvas == b.canvas && a.clip == b.clip
    && a.pending == b.pending && a.history == b.history
    && a.hScroll == b.hScroll && a.vScroll == b.vScroll
    && a.dragOffsetX == b.dragOffsetX && a.dragOffsetY == b.dragOffsetY
  }

  predicate SameSelection(a: Panel, b: Panel) {
    a.selX1 == b.selX1 && a.selY1 == b.selY1 && a.selX2 == b.selX2 && a.selY2 == b.selY2
  }

  /**
   * The history h' is h with the record e pushed when e changed something:
   * `History.AddPostHistory` read backwards, as a relation between the
   * history before and after. `Transact`'s ensures shows that the two agree.
   */
  predicate Pushed(h: seq<Entry>, h': seq<Entry>, e: Entry) {
    if e.before == e.after then h' == h else h' == h + [e]
  }

  /** The constructor: nothing pressed, focus at the origin, blank scratch grid. */
  function Init(originX: int, originY: int, canvas: Grid): (s: Panel)
    requires Rectangular(canvas)
    ensures WellFormed(s)
    ensures FocusX(s) == 0 && FocusY(s) == 0
    ensures !s.isDragged && !s.isAssist && s.clip == None && s.history == []
    ensures s.selX1 == s.selY1 == s.selX2 == s.selY2 == 0
    ensures s.pressX == s.pressY == s.lastX == s.lastY == 0
    ensures s.dragOffsetX == s.dragOffsetY == 0 && s.pending == None
    ensures s.canvas == canvas && s.originX == originX && s.originY == originY
    ensures forall i, j :: 0 <= i < ViewCells && 0 <= j < ViewCells ==> s.temp[i][j] == 0
  {
    Panel(
      originX, originY,
      0, 0, 0, 0,
      false, false,
      0, 0, 0, 0,
      0, 0,
      None,
      0, 0,
      seq(ViewCells, _ => seq(ViewCells, _ => 0)),
      canvas,
      None,
      [])
  }

  /** The focus setter on the x axis: the scroll bar takes the nearest notch. */
  function SetFocusX(s: Panel, f: int): (r: Panel)
    ensures f % 8 == 0 ==> FocusX(r) == f
    ensures -4 <= f - FocusX(r) <= 4
    ensures r == s.(hScroll := r.hScroll)
  {
    s.(hScroll := ScrollFor(f))
  }

  /** The focus setter on the y axis. */
  function SetFocusY(s: Panel, f: int): (r: Panel)
    ensures f % 8 == 0 ==> FocusY(r) == f
    ensures -4 <= f - FocusY(r) <= 4
    ensures r == s.(vScroll := r.vScroll)
  {
    s.(vScroll := ScrollFor(f))
  }

  /**
   * A scroll bar reporting a new value: the panel sets the focus to
   * value * 8, which through the setter puts the same value back.
   */
  function ScrollBarChange(s: Panel, horizontal: bool, value: int): (r: Panel)
    ensures horizontal ==> r == s.(hScroll := value) && FocusX(r) == value * 8
    ensures !horizontal ==> r == s.(vScroll := value) && FocusY(r) == value * 8
  {
    if horizontal then SetFocusX(s, value * 8) else SetFocusY(s, value * 8)
  }

  /** `_reset_temp_canvas`: the scratch grid becomes a copy of the view. */
  function ResetTemp(s: Panel): Panel
    requires WellFormed(s) && ViewInCanvas(s)
  {
    s.(temp := View(s))
  }

  /**
   * The scratch grid `ResetTemp` leaves is exactly what blitting the 16-by-16
   * view at the focus onto the old scratch grid at (0, 0) produces.
   */
  lemma ResetTempIsBlt(s: Panel)
    requires WellFormed(s) && ViewInCanvas(s)
    ensures ResetTemp(s).temp == Blt(s.temp, 0, 0, s.canvas, FocusX(s), FocusY(s), ViewCells, ViewCells)
  {
    BltIntoWhole(s.temp, s.canvas, FocusX(s), FocusY(s), ViewCells, ViewCells);
  }

  /**
   * The commit protocol: snapshot the view, replace the buffer, snapshot
   * the view again, and push the record only if the two snapshots differ.
   */
  function Transact(s: Panel, env: Env, canvas': Grid): (r: Panel)
    requires ViewInCanvas(s)
    requires Covers(canvas', FocusX(s), FocusY(s), ViewCells, ViewCells)
    ensures r.canvas == canvas' && ViewInCanvas(r)
    ensures r == s.(canvas := canvas', pending := r.pending, history := r.history)
    ensures r.pending == Some(Pending(env.target, FocusX(s), FocusY(s), View(s)))
    ensures Pushed(s.history, r.history, Entry(env.target, FocusX(s), FocusY(s), View(s), View(r)))
  {
    var p := AddPreHistory(env.target, FocusX(s), FocusY(s), View(s));
    var s1 := s.(pending := Some(p), canvas := canvas');
    s1.(history := AddPostHistory(p, View(s1), s.history))
  }

  /**
   * Left button down: record the pressed cell (clamped into the view),
   * start a gesture, and prepare the tool: the select tool selects that one
   * cell; the drawing tools copy the view to the scratch grid and plot the
   * pressed cell in the active colour. Any other button is ignored.
   */
  function MouseDown(s: Panel, env: Env, key: MouseButton, x: int, y: int): (r: Panel)
    requires WellFormed(s)
    requires key == Left && !env.IsSelect() && env.InPencilToCircRange() ==> ViewInCanvas(s)
    ensures WellFormed(r) && (ViewInCanvas(r) <==> ViewInCanvas(s))
    ensures key != Left ==> r == s
    ensures key == Left ==>
      && SameDocument(s, r)
      && r.pressX == ScreenToView(s.originX, x) && r.pressY == ScreenToView(s.originY, y)
      && r.isDragged && !r.isAssist
      && r.lastX == r.pressX && r.lastY == r.pressY
    ensures key == Left && env.IsSelect() ==>
      && r.selX1 == r.selX2 == r.pressX && r.selY1 == r.selY2 == r.pressY
      && r.temp == s.temp
    ensures key == Left && !env.IsSelect() ==> SameSelection(s, r)
    ensures key == Left && !env.IsSelect() && env.InPencilToCircRange() ==>
      forall i, j :: 0 <= i < ViewCells && 0 <= j < ViewCells ==>
        r.temp[i][j] == if j == r.pressX && i == r.pressY then env.color
                        else s.canvas[FocusY(s) + i][FocusX(s) + j]
    ensures key == Left && !env.IsSelect() && !env.InPencilToCircRange() ==> r.temp == s.temp
  {
    if key != Left then s
    else
      var px := ScreenToView(s.originX, x);
      var py := ScreenToView(s.originY, y);
      var s1 := s.(pressX := px, pressY := py, isDragged := true, isAssist := false);
      var s2 :=
        if env.IsSelect() then
          s1.(selX1 := px, selX2 := px, selY1 := py, selY2 := py)
        else if env.InPencilToCircRange() then
          var t := ResetTemp(s1);
          t.(temp := PSet(t.temp, px, py, env.color))
        else
          s1;
      s2.(lastX := px, lastY := py)
  }

  /**
   * The primitive a left drag redraws from the pressed cell, for the tools
   * that draw a whole shape: outlined and filled rectangle and ellipse.
   */
  function DragShape(env: Env): Option<Shape> {
    if env.tool == env.codes.rectb then Some(env.raster.rectb2)
    else if env.tool == env.codes.rect then Some(env.raster.rect2)
    else if env.tool == env.codes.circb then Some(env.raster.ellipb)
    else if env.tool == env.codes.circ then Some(env.raster.ellip)
    else None
  }

  /**
   * Left drag with the select tool: the pointer cell is clamped into the
   * view and the selection spans it and the pressed cell, corners in order.
   */
  function DragSelect(s: Panel, x: int, y: int): (r: Panel)
    requires WellFormed(s)
    ensures WellFormed(r)
    ensures
      && var cx := ScreenToView(s.originX, x);
      && var cy := ScreenToView(s.originY, y);
      && r.selX1 == Min(s.pressX, cx) && r.selX2 == Max(s.pressX, cx)
      && r.selY1 == Min(s.pressY, cy) && r.selY2 == Max(s.pressY, cy)
      && r == s.(selX1 := r.selX1, selY1 := r.selY1, selX2 := r.selX2, selY2 := r.selY2,
                 lastX := cx, lastY := cy)
  {
    var cx := Clamp(DragCell(s.originX, x), 0, ViewCells - 1);
    var cy := Clamp(DragCell(s.originY, y), 0, ViewCells - 1);
    var sx := Order(s.pressX, cx);
    var sy := Order(s.pressY, cy);
    s.(selX1 := sx.lo, selX2 := sx.hi, selY1 := sy.lo, selY2 := sy.hi, lastX := cx, lastY := cy)
  }

  /**
   * Left drag with the pencil: outside assist mode, the segment from the
   * previous pointer cell to the current one is added to the scratch grid;
   * in assist mode the scratch grid is left as it is.
   */
  function DragPencil(s: Panel, env: Env, x2: int, y2: int): (r: Panel)
    requires WellFormed(s)
    ensures WellFormed(r)
    ensures r == s.(temp := r.temp, lastX := x2, lastY := y2)
    ensures forall i, j {:trigger r.temp[i][j]} :: 0 <= i < ViewCells && 0 <= j < ViewCells ==>
      r.temp[i][j] ==
        if !s.isAssist && env.raster.line(s.lastX, s.lastY, x2, y2, j, i) then env.color
        else s.temp[i][j]
  {
    var s1 :=
      if s.isAssist then s
      else s.(temp := Paint(s.temp, Cells(env.raster.line, s.lastX, s.lastY, x2, y2), env.color));
    s1.(lastX := x2, lastY := y2)
  }

  /**
   * Left drag with a shape tool: the scratch grid is reset to the view and
   * the whole shape from the pressed cell to the pointer cell drawn on it,
   * so earlier drag positions leave no trace.
   */
  function DragShapeTool(s: Panel, env: Env, shape: Shape, x2: int, y2: int): (r: Panel)
    requires WellFormed(s) && ViewInCanvas(s)
    ensures WellFormed(r)
    ensures r == s.(temp := r.temp, lastX := x2, lastY := y2)
    ensures forall i, j :: 0 <= i < ViewCells && 0 <= j < ViewCells ==>
      r.temp[i][j] ==
        if shape(s.pressX, s.pressY, x2, y2, j, i) then env.color
        else s.canvas[FocusY(s) + i][FocusX(s) + j]
  {
    PaintedView(s, Cells(shape, s.pressX, s.pressY, x2, y2), env.color);
    var t := ResetTemp(s);
    t.(temp := Paint(t.temp, Cells(shape, s.pressX, s.pressY, x2, y2), env.color), lastX := x2, lastY := y2)
  }

  /** Painting over a copy of the view: each cell is the colour where covered, the buffer's cell elsewhere. */
  lemma PaintedView(s: Panel, covers: (int, int) -> bool, col: int)
    requires WellFormed(s) && ViewInCanvas(s)
    ensures
      && var g := Paint(View(s), covers, col);
      && IsGrid(g, ViewCells, ViewCells)
      && forall i, j {:trigger g[i][j]} :: 0 <= i < ViewCells && 0 <= j < ViewCells ==>
           g[i][j] == if covers(j, i) then col else s.canvas[FocusY(s) + i][FocusX(s) + j]
  {
  }

  /**
   * Right drag: each axis accumulates the pointer movement, turns whole
   * 16-pixel steps into 8-pixel focus moves, and the focus is then clamped
   * into [0, 240]. Movement is conserved in the accumulator.
   */
  function DragRight(s: Panel, dx: int, dy: int): (r: Panel)
    ensures
      && var px := PanStep(s.dragOffsetX, dx, s.hScroll);
      && var py := PanStep(s.dragOffsetY, dy, s.vScroll);
      && r.dragOffsetX + 16 * px.steps == s.dragOffsetX - dx
      && r.dragOffsetY + 16 * py.steps == s.dragOffsetY - dy
      && FocusX(r) == Clamp(FocusX(s) + 8 * px.steps, 0, MaxFocus)
      && FocusY(r) == Clamp(FocusY(s) + 8 * py.steps, 0, MaxFocus)
    ensures 0 <= FocusX(r) <= MaxFocus && 0 <= FocusY(r) <= MaxFocus
    ensures -16 < r.dragOffsetX < 16 && -16 < r.dragOffsetY < 16
    ensures r == s.(dragOffsetX := r.dragOffsetX, dragOffsetY := r.dragOffsetY,
                    hScroll := r.hScroll, vScroll := r.vScroll)
    ensures IsGrid(s.canvas, 256, 256) ==> ViewInCanvas(r)
  {
    var px := PanStep(s.dragOffsetX, dx, s.hScroll);
    var py := PanStep(s.dragOffsetY, dy, s.vScroll);
    s.(dragOffsetX := px.offset, hScroll := px.scroll, dragOffsetY := py.offset, vScroll := py.scroll)
  }

  /** The left-drag tools that redraw from the view: a shape tool that is neither select nor pencil. */
  predicate ShapeDrag(env: Env) {
    !env.IsSelect() && env.tool != env.codes.pencil && DragShape(env).Some?
  }

  /**
   * Pointer drag with a button held. Left: the pointer cell is taken
   * unclamped and handed to the active tool (select, pencil or a shape
   * tool); other tools only remember it. Right: pans the view. The buffer
   * itself is never touched.
   */
  function MouseDrag(s: Panel, env: Env, key: MouseButton, x: int, y: int, dx: int, dy: int): (r: Panel)
    requires WellFormed(s)
    requires key == Left && ShapeDrag(env) ==> ViewInCanvas(s)
    ensures WellFormed(r)
    ensures r.canvas == s.canvas && r.history == s.history && r.clip == s.clip
    ensures key == Other ==> r == s
    ensures key == Left ==> SameDocument(s, r) && r.isDragged == s.isDragged
    ensures key == Left && env.IsSelect() ==> r == DragSelect(s, x, y)
    ensures key == Left && !env.IsSelect() ==>
      && SameSelection(s, r)
      && r.lastX == DragCell(s.originX, x) && r.lastY == DragCell(s.originY, y)
    ensures key == Left && !env.IsSelect() && env.tool == env.codes.pencil ==>
      r == DragPencil(s, env, r.lastX, r.lastY)
    ensures key == Left && ShapeDrag(env) ==>
      r == DragShapeTool(s, env, DragShape(env).value, r.lastX, r.lastY)
    ensures key == Left && !env.IsSelect() && env.tool != env.codes.pencil && DragShape(env).None? ==>
      r == s.(lastX := r.lastX, lastY := r.lastY)
    ensures key == Right ==> r == DragRight(s, dx, dy)
  {
    match key
    case Left =>
      var x2 := DragCell(s.originX, x);
      var y2 := DragCell(s.originY, y);
      if env.IsSelect() then DragSelect(s, x, y)
      else if env.tool == env.codes.pencil then DragPencil(s, env, x2, y2)
      else if DragShape(env).Some? then DragShapeTool(s, env, DragShape(env).value, x2, y2)
      else s.(lastX := x2, lastY := y2)
    case Right => DragRight(s, dx, dy)
    case Other => s
  }

  /** A drag with any button but the right one leaves the view inside the buffer exactly when it was. */
  lemma DragKeepsView(s: Panel, env: Env, key: MouseButton, x: int, y: int, dx: int, dy: int)
    requires WellFormed(s)
    requires key == Left && ShapeDrag(env) ==> ViewInCanvas(s)
    ensures key != Right ==> (ViewInCanvas(MouseDrag(s, env, key, x, y, dx, dy)) <==> ViewInCanvas(s))
  {
  }

  /**
   * Left button up: the gesture ends; for the drawing tools the scratch
   * grid is copied into the buffer at the focus inside a history
   * transaction (see `ReleaseCommits`). Any other button is ignored.
   */
  function MouseUp(s: Panel, env: Env, key: MouseButton, x: int, y: int): (r: Panel)
    requires WellFormed(s)
    requires key == Left && env.InPencilToCircRange() ==> ViewInCanvas(s)
    ensures WellFormed(r) && (ViewInCanvas(r) <==> ViewInCanvas(s))
    ensures key != Left ==> r == s
    ensures key == Left ==> !r.isDragged
    ensures key == Left && !env.InPencilToCircRange() ==> r == s.(isDragged := false)
    ensures r == s.(isDragged := r.isDragged, canvas := r.canvas, pending := r.pending, history := r.history)
  {
    if key != Left then s
    else
      var s1 := s.(isDragged := false);
      if env.InPencilToCircRange() then
        BltFromCorner(s1.canvas, FocusX(s1), FocusY(s1), s1.temp, ViewCells, ViewCells);
        var canvas' := SetSlice(s1.canvas, FocusX(s1), FocusY(s1), ViewCells, ViewCells, s1.temp);
        assert Width(canvas') == Width(s.canvas) by {
          assert |canvas'[0]| == Width(s.canvas);
        }
        Transact(s1, env, canvas')
      else
        s1
  }

  /**
   * Releasing the left button with a drawing tool commits the gesture: the
   * view then shows exactly the scratch grid, nothing outside the view
   * changes, and a history record from the old view to the scratch grid,
   * positioned at the focus, is pushed only if the view changed.
   */
  lemma ReleaseCommits(s: Panel, env: Env, x: int, y: int)
    requires WellFormed(s) && ViewInCanvas(s) && env.InPencilToCircRange()
    ensures
      && var r := MouseUp(s, env, Left, x, y);
      && View(r) == s.temp
      && IsGrid(r.canvas, Width(s.canvas), |s.canvas|)
      && (forall i, j {:trigger r.canvas[i][j]} ::
            && 0 <= i < |s.canvas| && 0 <= j < Width(s.canvas)
            && !InBlock(i, j, FocusX(s), FocusY(s), ViewCells, ViewCells)
            ==>
            r.canvas[i][j] == s.canvas[i][j])
      && Pushed(s.history, r.history, Entry(env.target, FocusX(s), FocusY(s), View(s), s.temp))
  {
    var r := MouseUp(s, env, Left, x, y);
    GetAfterSet(s.canvas, FocusX(s), FocusY(s), ViewCells, ViewCells, s.temp);
  }

  /**
   * How much of a clipboard dimension fits when pasting at view cell
   * `start`: `size - max(start + size - 16, 0)`. The paste never runs past
   * the view's edge and never exceeds the clipboard.
   */
  function PasteExtent(start: int, size: int): (n: int)
    ensures n <= size && start + n <= ViewCells
    ensures start + size <= ViewCells ==> n == size
    ensures ViewCells < start + size ==> n == ViewCells - start
  {
    size - Max(start + size - ViewCells, 0)
  }

  /** The clipboard keys are live: select tool, a selection, and Ctrl or GUI held. */
  predicate ClipboardActive(s: Panel, env: Env, keys: Keys) {
    env.IsSelect() && s.selX1 >= 0 && (keys.ctrl || keys.gui)
  }

  /** Copy: the clipboard becomes a copy of the selected block of the buffer. */
  function Copy(s: Panel): (r: Panel)
    requires WellFormed(s) && ViewInCanvas(s)
    ensures WellFormed(r) && ViewInCanvas(r)
    ensures r == s.(clip := r.clip) && r.clip.Some?
    ensures IsGrid(r.clip.value, s.selX2 - s.selX1 + 1, s.selY2 - s.selY1 + 1)
    ensures forall i, j :: 0 <= i <= s.selY2 - s.selY1 && 0 <= j <= s.selX2 - s.selX1 ==>
      r.clip.value[i][j] == s.canvas[FocusY(s) + s.selY1 + i][FocusX(s) + s.selX1 + j]
  {
    var block := GetSlice(s.canvas, FocusX(s) + s.selX1, FocusY(s) + s.selY1,
                          s.selX2 - s.selX1 + 1, s.selY2 - s.selY1 + 1);
    assert Width(block) == s.selX2 - s.selX1 + 1 by {
      assert |block[0]| == s.selX2 - s.selX1 + 1;
    }
    s.(clip := Some(block))
  }

  /**
   * The buffer a paste leaves: the clipboard, clipped to the view's edge,
   * written at the selection's top-left corner (`Paste` states the cells).
   */
  function PasteCanvas(s: Panel): (c: Grid)
    requires WellFormed(s) && ViewInCanvas(s) && s.clip.Some?
    ensures IsGrid(c, Width(s.canvas), |s.canvas|)
  {
    var data := s.clip.value;
    var w := PasteExtent(s.selX1, Width(data));
    var h := PasteExtent(s.selY1, |data|);
    var c := SetSlice(s.canvas, FocusX(s) + s.selX1, FocusY(s) + s.selY1, w, h, data);
    assert Width(c) == Width(s.canvas) by {
      assert |c[0]| == Width(s.canvas);
    }
    c
  }

  /**
   * Paste: the clipboard is written into the buffer as `PasteCanvas`
   * describes, inside a history transaction.
   */
  function Paste(s: Panel, env: Env): (r: Panel)
    requires WellFormed(s) && ViewInCanvas(s) && s.clip.Some?
    ensures WellFormed(r) && ViewInCanvas(r)
    ensures
      && var w := PasteExtent(s.selX1, Width(s.clip.value));
      && var h := PasteExtent(s.selY1, |s.clip.value|);
      && IsGrid(r.canvas, Width(s.canvas), |s.canvas|)
      && (forall i, j :: 0 <= i < h && 0 <= j < w ==>
            r.canvas[FocusY(s) + s.selY1 + i][FocusX(s) + s.selX1 + j] == s.clip.value[i][j])
      && (forall i, j {:trigger r.canvas[i][j]} ::
            && 0 <= i < |s.canvas| && 0 <= j < Width(s.canvas)
            && !InBlock(i, j, FocusX(s) + s.selX1, FocusY(s) + s.selY1, w, h)
            ==> r.canvas[i][j] == s.canvas[i][j])
    ensures r.canvas == PasteCanvas(s)
    ensures Pushed(s.history, r.history, Entry(env.target, FocusX(s), FocusY(s), View(s), View(r)))
    ensures r == s.(canvas := r.canvas, pending := r.pending, history := r.history)
  {
    Transact(s, env, PasteCanvas(s))
  }

  /**
   * The arrow keys, when no modifier is held: each pressed arrow moves the
   * focus one notch (8 pixels) that way. Nothing clamps the result.
   */
  function Arrows(s: Panel, keys: Keys): (r: Panel)
    ensures FocusX(r) == FocusX(s) - (if keys.left then 8 else 0) + (if keys.right then 8 else 0)
    ensures FocusY(r) == FocusY(s) - (if keys.up then 8 else 0) + (if keys.down then 8 else 0)
    ensures r == s.(hScroll := r.hScroll, vScroll := r.vScroll)
  {
    var s1 := if keys.left then s.(hScroll := Nudge(s.hScroll, -8)) else s;
    var s2 := if keys.right then s1.(hScroll := Nudge(s1.hScroll, 8)) else s1;
    var s3 := if keys.up then s2.(vScroll := Nudge(s2.vScroll, -8)) else s2;
    if keys.down then s3.(vScroll := Nudge(s3.vScroll, 8)) else s3
  }

  /**
   * The clipboard part of the update pass: with the clipboard keys live, C
   * copies the selection, otherwise V pastes a non-empty clipboard.
   */
  function ClipboardKeys(s: Panel, env: Env, keys: Keys): (r: Panel)
    requires WellFormed(s)
    requires ClipboardActive(s, env, keys) && (keys.copyKey || (s.clip.Some? && keys.pasteKey)) ==> ViewInCanvas(s)
    ensures WellFormed(r) && (ViewInCanvas(r) <==> ViewInCanvas(s))
    ensures ClipboardActive(s, env, keys) && keys.copyKey ==> r == Copy(s)
    ensures ClipboardActive(s, env, keys) && !keys.copyKey && s.clip.Some? && keys.pasteKey ==>
      r == Paste(s, env)
    ensures !(ClipboardActive(s, env, keys) && (keys.copyKey || (s.clip.Some? && keys.pasteKey))) ==>
      r == s
    ensures r == s.(clip := r.clip, canvas := r.canvas, pending := r.pending, history := r.history)
    ensures !ClipboardActive(s, env, keys) ==> r == s
  {
    if ClipboardActive(s, env, keys) then
      if keys.copyKey then Copy(s)
      else if s.clip.Some? && keys.pasteKey then Paste(s, env)
      else s
    else s
  }

  /**
   * The per-frame update: Shift held during a gesture turns assist mode on;
   * then the clipboard keys; then, unless a modifier is held, the arrows.
   */
  function Update(s: Panel, env: Env, keys: Keys): (r: Panel)
    requires WellFormed(s)
    requires ClipboardActive(s, env, keys) && (keys.copyKey || (s.clip.Some? && keys.pasteKey)) ==> ViewInCanvas(s)
    ensures WellFormed(r)
    ensures r.isAssist == (s.isAssist || (s.isDragged && keys.shift))
    ensures r.isDragged == s.isDragged && r.temp == s.temp && SameSelection(s, r)
    ensures keys.AnyModifier() ==> r.hScroll == s.hScroll && r.vScroll == s.vScroll
    ensures !keys.AnyModifier() ==>
      && r.canvas == s.canvas && r.clip == s.clip && r.history == s.history
      && FocusX(r) == FocusX(s) - (if keys.left then 8 else 0) + (if keys.right then 8 else 0)
      && FocusY(r) == FocusY(s) - (if keys.up then 8 else 0) + (if keys.down then 8 else 0)
    ensures keys.AnyModifier() ==> r == ClipboardKeys(s.(isAssist := r.isAssist), env, keys)
    ensures !keys.AnyModifier() ==> r == s.(hScroll := r.hScroll, vScroll := r.vScroll)
  {
    var s1 := if s.isDragged && !s.isAssist && keys.shift then s.(isAssist := true) else s;
    var s2 := ClipboardKeys(s1, env, keys);
    if keys.AnyModifier() then s2 else Arrows(s2, keys)
  }

  /** With a modifier held the focus stays, so the view is inside the buffer after the pass exactly when it was before. */
  lemma UpdateKeepsView(s: Panel, env: Env, keys: Keys)
    requires WellFormed(s)
    requires ClipboardActive(s, env, keys) && (keys.copyKey || (s.clip.Some? && keys.pasteKey)) ==> ViewInCanvas(s)
    ensures keys.AnyModifier() ==> (ViewInCanvas(Update(s, env, keys)) <==> ViewInCanvas(s))
  {
  }
}
