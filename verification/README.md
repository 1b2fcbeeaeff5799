# pyxel editor: canvas panel and colour picker

A Dafny model of two widgets of the pyxel sprite/tilemap editor:

- the **canvas panel** (`pyxel/editor/canvas_panel.py`), a 16-by-16 cell
  view onto a 256-by-256 image or tilemap, edited with the pointer and
  the keyboard. It covers the press, drag and release of the pointer buttons,
  the clipboard and arrow keys of the per-frame update, the scroll-bar
  focus hooks, and the before/after history record pushed around every
  buffer change;
- the **colour picker** (`pyxel/editor/widgets/color_picker.py`), sixteen
  swatches in two rows whose hit test maps a pointer position to a colour
  index.

The panel is one immutable record (`CanvasPanel.Panel`) and every event a
pure transition function. Collaborators that live outside these two files
are parameters:

- the active colour, the tool, the buffer number and the raster primitives
  are in `CanvasPanel.Env`;
- the keyboard state is in `Input.Keys`.

The tool numbers come from a settings module that is not part of this model.
They are fields of `ToolCodes`, and the panel only compares the tool against
them. The raster primitives `line`, `rect2`, `rectb2`, `ellip` and `ellipb`
are opaque shapes: each says which cells it covers, and drawing paints those
cells of the scratch grid.

Module layout, following the program:

| file | module | what it holds |
|---|---|---|
| `ints.dfy` | `Ints` | `min`/`max`/`abs` and the `min(max(v, lo), hi)` clamp |
| `wrappers.dfy` | `Wrappers` | `Option` |
| `input.dfy` | `Input` | mouse buttons and the per-frame key snapshot |
| `buffer.dfy` | `Buffer` | grids (`g[y][x]`) and the image operations the panel calls: `get_slice`, `set_slice`, `blt`, `pset`, painting a shape |
| `viewport.dfy` | `Viewport` | pointer to cell, the focus getter and setter, the right-drag accumulator |
| `region.dfy` | `Region` | corner ordering and `_adjust_region` |
| `history.dfy` | `History` | `_add_pre_history` / `_add_post_history` |
| `canvas_panel.dfy` | `CanvasPanel` | the panel state and its event transitions |
| `canvas_panel_gestures.dfy` | `CanvasPanelGestures` | whole gestures across several events: pencil tap, selection drag, copy then paste |
| `color_picker.dfy` | `ColorPicker` | `check_value` and the two pointer handlers |

`ViewInCanvas` says that the 16-by-16 block at the focus lies inside the
buffer. Only the branches that read or write the buffer require it: a
press or a left drag with a drawing tool that redraws from the view, a
release that commits, and a live copy or paste. Every other event is
accepted with the focus anywhere. This matters because the arrow keys do
not clamp the focus, so they can move the view off the buffer; a later
right drag clamps it back (`LeftArrowThenPan`). Events that do not move
the focus keep `ViewInCanvas` as it was. The panel's
`WellFormed` invariant holds in the initial state, and every event
preserves it: the scratch grid is 16-by-16, the pressed cell and the
selection are inside the view, and the clipboard is a non-empty rectangle.

The colour picker's `check_value` is modelled as written. Line 36 computes
the bottom of the hit box from the right edge (`y2 = x2 + 6`), not from the
top (`y1 + 6`). As a consequence, `CheckValue` behaves as follows:

- it hits exactly when the local column is on a swatch column and the local
  row lies between 0 and `8 * column + 12`;
- the two bottom pixel rows of swatch 8 hit nothing (`SwatchEightCut`);
- in every later column the second row's hit box reaches far below the
  widget (`LastColumnReachesBelow`);
- every pixel of every other swatch does hit its swatch (`SwatchHits`).

## Model

| member | source | states |
|---|---|---|
| Viewport.ScreenToView | pyxel/editor/canvas_panel.py:131-134 | the cell is always in [0, 15]; inside the 128-pixel interior it is the cell whose 8-pixel strip holds the pointer; left of it 0, right of it 15 |
| Viewport.DragCell | pyxel/editor/canvas_panel.py:252-253 | the unclamped drag cell is the 8-pixel strip holding the pointer (floor division) |
| Viewport.FocusOf | pyxel/editor/canvas_panel.py:147-148 | the focus is the scroll value times 8, always a multiple of 8 |
| Viewport.ScrollFor | pyxel/editor/canvas_panel.py:150-151 | the scroll value is the integer nearest to focus/8, ties to the even one |
| Viewport.FocusSetGet | pyxel/editor/canvas_panel.py:147-161 | setting a multiple of 8 as the focus and reading it back returns it |
| Viewport.FocusGetSet | pyxel/editor/canvas_panel.py:147-161 | reading the focus and setting it again leaves the scroll value unchanged |
| Viewport.Nudge | pyxel/editor/canvas_panel.py:302 | adding a multiple of 8 to the focus through the two hooks moves the focus by exactly that much |
| Viewport.ClampFocus | pyxel/editor/canvas_panel.py:310-311 | after clamping, the focus is the old focus clamped into [0, 240] |
| Viewport.Accumulate | pyxel/editor/canvas_panel.py:300-308 | the remainder plus 16 per step equals the accumulated movement, the remainder lies strictly between -16 and 16, and no step is taken below 16 |
| Viewport.PanStep | pyxel/editor/canvas_panel.py:296-311 | one axis of the right drag: movement is conserved, the remainder stays within (-16, 16); below 16 accumulated pixels no step is taken and the accumulator keeps the movement, from 16 on at least one step is taken and the remainder is non-negative (floor division); the focus becomes the old focus plus 8 per step, clamped into [0, 240] |
| Region.Order | pyxel/editor/canvas_panel.py:465-466 | the pair comes back in order and is the two inputs |
| Region.Direction | pyxel/editor/canvas_panel.py:461-463 | the sign is +1 exactly for a positive difference, otherwise -1 |
| Region.AdjustRegion | pyxel/editor/canvas_panel.py:454-468 | the corners are in order; without assist mode they are the min/max of the inputs; with assist mode the region is a square whose side is the longer drag distance, with (x1, y1) as one of its corners and the longer side's span unchanged; along the shorter side the square extends towards the pointer, and up or left when the pointer has not moved along that side; a drag that has not moved gives the single cell (x1, y1) |
| History.AddPostHistory | pyxel/editor/canvas_panel.py:124-129 | earlier records are kept, and exactly one record, with the before and after snapshots, is appended exactly when they differ |
| Buffer.GetSlice | pyxel/editor/canvas_panel.py:336-341 | the w-by-h copy whose cell (i, j) is the buffer's cell (y+i, x+j) |
| Buffer.SetSlice | pyxel/editor/canvas_panel.py:353-359 | inside the block each cell holds the written value; every cell outside keeps its value |
| Buffer.Blt | pyxel/editor/canvas_panel.py:224-232 | the destination block reads back as the source block, and the rest of the destination is kept |
| Buffer.PSet | pyxel/editor/canvas_panel.py:186 | exactly the one cell (x, y) takes the colour, when it lies inside the grid |
| Buffer.Paint | pyxel/editor/canvas_panel.py:265-291 | exactly the cells the shape covers take the colour; the rest are kept |
| Buffer.GetAfterSet | pyxel/editor/canvas_panel.py:224-236 | reading back the block just written returns what was written |
| Buffer.SetOwnSlice | pyxel/editor/canvas_panel.py:353-359 | writing back a block just read leaves the buffer equal to itself |
| Buffer.WholeSlice | pyxel/editor/canvas_panel.py:136-145 | the block at (0, 0) the size of a grid is that grid |
| Buffer.BltFromCorner | pyxel/editor/canvas_panel.py:224-232 | a blt of a whole 16-by-16 grid from its corner is the same as writing it with set_slice |
| Buffer.BltIntoWhole | pyxel/editor/canvas_panel.py:136-145 | a blt into a grid exactly the size of the block replaces that grid by the block |
| CanvasPanel.FocusX | pyxel/editor/canvas_panel.py:147-148 | the horizontal focus is always a multiple of 8 |
| CanvasPanel.FocusY | pyxel/editor/canvas_panel.py:155-156 | the vertical focus is always a multiple of 8 |
| CanvasPanel.Init | pyxel/editor/canvas_panel.py:39-55 | the initial panel is well formed, with the given buffer and origin, the focus at (0, 0), the selection at cell (0, 0), the pressed and last cells at (0, 0), zero pan accumulators, no drag, no assist mode, no pending record, no clipboard, no history and a blank scratch grid |
| CanvasPanel.SetFocusX | pyxel/editor/canvas_panel.py:150-153 | a multiple of 8 becomes the focus exactly; any value is kept within 4 pixels; only the horizontal scroll value changes |
| CanvasPanel.SetFocusY | pyxel/editor/canvas_panel.py:158-161 | the same for the vertical axis |
| CanvasPanel.ScrollBarChange | pyxel/editor/canvas_panel.py:163-167 | a scroll bar reporting a value sets the focus to value * 8, which puts the same value back in the scroll bar |
| CanvasPanel.ResetTempIsBlt | pyxel/editor/canvas_panel.py:136-145 | the scratch grid after a reset is exactly the old scratch grid with the 16-by-16 block of the buffer at the focus blitted onto it at (0, 0) |
| CanvasPanel.Transact | pyxel/editor/canvas_panel.py:113-129 | the buffer is replaced; the pending record holds the focus and the view before; a record with the views before and after is pushed only when they differ |
| CanvasPanel.MouseDown | pyxel/editor/canvas_panel.py:169-211 | a non-left button changes nothing; a left press stores the clamped pressed cell as press and last cell, starts a drag and clears assist mode; the select tool selects that one cell; a pencil-to-circle tool sets the scratch grid to the view with the pressed cell in the colour; the document is untouched; only that drawing-tool branch needs the view inside the buffer, and whether it is stays as it was |
| CanvasPanel.DragSelect | pyxel/editor/canvas_panel.py:255-259 | the drag cell is clamped into the view and the selection spans it and the pressed cell, corners in order and inside the view |
| CanvasPanel.DragPencil | pyxel/editor/canvas_panel.py:260-267 | outside assist mode the cells of the line from the last cell to the drag cell take the colour and every other scratch cell is kept; in assist mode the scratch grid is kept |
| CanvasPanel.DragShapeTool | pyxel/editor/canvas_panel.py:268-291 | each scratch cell is the colour where the shape from the pressed cell to the drag cell covers it, and the view's cell elsewhere |
| CanvasPanel.DragRight | pyxel/editor/canvas_panel.py:296-311 | both axes conserve movement, keep the offset within (-16, 16) and move the focus 8 per step, clamped into [0, 240]; nothing else changes |
| CanvasPanel.MouseDrag | pyxel/editor/canvas_panel.py:248-311 | a left drag never touches the buffer, clipboard or history; the select tool clamps the drag cell into the view, spans the selection to it and records the clamped cell as the last cell, while every other tool gets the unclamped drag cell and records that; the right drag pans; any other button does nothing; only a shape tool's drag needs the view inside the buffer, and every drag but the right one leaves that as it was |
| CanvasPanel.DragKeepsView | pyxel/editor/canvas_panel.py:248-293 | a left drag, or a drag with any other button but the right, never moves the focus, so the view is inside the buffer afterwards exactly when it was before |
| CanvasPanel.MouseUp | pyxel/editor/canvas_panel.py:213-236 | a non-left button changes nothing; a left release ends the drag; with a tool outside pencil-to-circle nothing else changes; only the buffer, the pending record and the history can change; only the committing release needs the view inside the buffer, and whether it is stays as it was |
| CanvasPanel.ReleaseCommits | pyxel/editor/canvas_panel.py:213-236 | releasing with a pencil-to-circle tool makes the view equal to the scratch grid, keeps every buffer cell outside the view, and pushes a record positioned at the focus from the old view to the scratch grid, only when they differ |
| CanvasPanel.PasteExtent | pyxel/editor/canvas_panel.py:343-345 | the pasted size never exceeds the clipboard, never runs past the view's edge, and is the whole clipboard when it fits |
| CanvasPanel.Copy | pyxel/editor/canvas_panel.py:335-341 | the clipboard becomes the (x2-x1+1)-by-(y2-y1+1) block of the buffer at the focus plus the selection's corner, cell by cell |
| CanvasPanel.Paste | pyxel/editor/canvas_panel.py:342-365 | inside the clipped block at the selection's corner the buffer holds the clipboard, every other cell is kept, and a history record of the view is pushed only if the view changed |
| CanvasPanel.Arrows | pyxel/editor/canvas_panel.py:375-385 | each pressed arrow moves the focus 8 pixels its way, unclamped; only the scroll values change |
| CanvasPanel.ClipboardKeys | pyxel/editor/canvas_panel.py:330-365 | with the select tool, a selection and Ctrl or GUI held, C copies, otherwise V pastes a non-empty clipboard; in every other case nothing changes; only a copy or paste needs the view inside the buffer, and whether it is stays as it was |
| CanvasPanel.Update | pyxel/editor/canvas_panel.py:326-385 | Shift held during a drag turns assist mode on; the clipboard keys act only with a modifier held, the arrows only without one; with no modifier held only the focus moves and nothing else changes; only a live copy or paste needs the view inside the buffer |
| CanvasPanel.UpdateKeepsView | pyxel/editor/canvas_panel.py:326-365 | with a modifier held the arrows are skipped and a copy or paste keeps the buffer's size, so the view is inside the buffer after the pass exactly when it was before |
| CanvasPanelGestures.TapScratch | pyxel/editor/canvas_panel.py:169-186 | after a left press with a drawing tool the scratch grid is the view with the pressed cell plotted |
| CanvasPanelGestures.TapCanvas | pyxel/editor/canvas_panel.py:169-236 | a press and a release with a drawing tool make the view the old view with the pressed cell plotted and keep the rest of the buffer |
| CanvasPanelGestures.TapHistory | pyxel/editor/canvas_panel.py:169-236 | the same press and release push the history a record of the view before and after the cell was plotted |
| CanvasPanelGestures.PlottedCell | pyxel/editor/canvas_panel.py:224-236 | one cell of a buffer whose view gained one plotted cell is the old cell unless it is the plotted one |
| CanvasPanelGestures.PlottedBuffer | pyxel/editor/canvas_panel.py:224-236 | a buffer whose view gained one plotted cell differs from the old buffer in that cell only |
| CanvasPanelGestures.PencilTap | pyxel/editor/canvas_panel.py:169-236 | a press and a release with a drawing tool paint exactly the pressed buffer cell in the colour, wherever the pointer was released |
| CanvasPanelGestures.OneCellChange | pyxel/editor/canvas_panel.py:124-129 | plotting a cell leaves the view equal exactly when that cell already had the colour |
| CanvasPanelGestures.ReleasePlotHistory | pyxel/editor/canvas_panel.py:213-236 | releasing over a scratch grid that is the view with one cell plotted pushes a record exactly when that buffer cell changes colour |
| CanvasPanelGestures.PencilTapHistory | pyxel/editor/canvas_panel.py:113-129 | the tap pushes one record, or none when the pressed cell already had the colour |
| CanvasPanelGestures.SelectGesture | pyxel/editor/canvas_panel.py:169-259 | a press, drag and release with the select tool leave the selection spanning the two clamped cells, in order, and touch neither the buffer nor the history |
| CanvasPanelGestures.CopyKeysCopy | pyxel/editor/canvas_panel.py:330-341 | with the select tool, Ctrl+C is exactly a copy |
| CanvasPanelGestures.PasteKeysPaste | pyxel/editor/canvas_panel.py:330-365 | with the select tool and a clipboard, Ctrl+V is exactly a paste |
| CanvasPanelGestures.RewrittenCell | pyxel/editor/canvas_panel.py:353-359 | one cell of a buffer into which a block was written back unchanged keeps its value |
| CanvasPanelGestures.RewrittenBuffer | pyxel/editor/canvas_panel.py:353-359 | a buffer into which a block was written back unchanged, and which kept everything else, is the old buffer |
| CanvasPanelGestures.PasteSelected | pyxel/editor/canvas_panel.py:342-365 | pasting the selected block back leaves the buffer as it is |
| CanvasPanelGestures.CopyThenPaste | pyxel/editor/canvas_panel.py:335-365 | a paste right after a copy leaves the buffer as it is |
| CanvasPanelGestures.CopyThenPasteHistory | pyxel/editor/canvas_panel.py:124-129 | a paste right after a copy pushes no history record |
| CanvasPanelGestures.LeftArrowThenPan | pyxel/editor/canvas_panel.py:376-388 | the unclamped left arrow moves the initial view of a 256-by-256 buffer off the buffer (focus -8), and the panel still takes a right drag, which brings the view back |
| CanvasPanelGestures.CopyPasteRoundTrip | pyxel/editor/canvas_panel.py:330-365 | Ctrl+C then Ctrl+V with the select tool leaves the buffer and the history as they were |
| ColorPicker.CheckValue | pyxel/editor/widgets/color_picker.py:26-41 | a hit exactly when the local column is on a swatch column and the local row lies between 0 and 8 * column + 12; the index is the column, plus 8 from local row 8 on, always in 0..15 |
| ColorPicker.Misses | pyxel/editor/widgets/color_picker.py:27-41 | no hit left of the first column, right of the last one, on a column gap, or above the first row |
| ColorPicker.TopRowHits | pyxel/editor/widgets/color_picker.py:33-39 | anywhere in the first eight local rows over a swatch column, that column's top swatch is hit |
| ColorPicker.SwatchHits | pyxel/editor/widgets/color_picker.py:26-41 | every pixel of every swatch but swatch 8, as drawn, hits that swatch |
| ColorPicker.SwatchEightCut | pyxel/editor/widgets/color_picker.py:35-38 | swatch 8 is hit only down to local row 12; its last two pixel rows hit nothing |
| ColorPicker.HitColumnAndRow | pyxel/editor/widgets/color_picker.py:30-39 | every hit lies on its swatch's column, between the top of its row and the column's reach |
| ColorPicker.LastColumnReachesBelow | pyxel/editor/widgets/color_picker.py:35-36 | one worked instance of the general hit condition: in the last column the hit test still hits swatch 15 at local row 68, far below the widget, and stops there |
| ColorPicker.MouseDown | pyxel/editor/widgets/color_picker.py:46-53 | a left press on a hit selects the hit's index; any other button, or a miss, keeps the value; a value in 0..15 stays in 0..15 |
| ColorPicker.MouseDrag | pyxel/editor/widgets/color_picker.py:55-56 | a drag has exactly the effect of a press with the same button at the same point |
| ColorPicker.MouseDownTwice | pyxel/editor/widgets/color_picker.py:46-53 | pressing twice at the same point is the same as pressing once |

## Left out

- The bucket branch of the press handler (canvas_panel.py:187-208) is not modelled. It calls an attribute `canvas` that the panel never defines, and it depends on pyxel's flood fill. With the bucket tool a press only records the pressed cell and starts the drag.
- The pencil drag in assist mode (canvas_panel.py:261-263) draws on an `_overlay_canvas` the panel never defines. In the model this path leaves the scratch grid alone and only updates the last cell.
- The right-click eyedropper (canvas_panel.py:238-246) is not modelled. It reads the undefined `image_var`/`tilemap_var` and pyxel's global image banks.
- Rendering is not modelled: both `__on_draw` handlers, the selection frame, `draw_panel` and the commented-out tilemap drawing. The hover help text (canvas_panel.py:313-323) is not modelled either.
- Paint, DragPencil and DragShapeTool treat pyxel's `line`, `rect2`, `rectb2`, `ellip` and `ellipb` as opaque shapes. The contracts say which cells take the colour in terms of the shape, not the pixels each primitive draws.
- The scroll bars are plain integers. ScrollBar is not part of this model, so any clamping of its value is not modelled. The arrow keys' clamping is commented out in the source, so `Arrows` bounds nothing.
- Key polling with hold and repeat timing (`btn`/`btnp`) is replaced by a snapshot of booleans, one per key.
- ScrollFor: Python's `round(value / 8)` goes through a float. It is modelled as exact integer rounding, half to even, which agrees with the float for every focus value a 256-pixel buffer can have.
- Buffer.GetSlice, Buffer.SetSlice and Buffer.Blt are stated only for blocks inside the grid. The branches of the panel's events that read or write the buffer therefore require `ViewInCanvas`. What pyxel does when the focus has left the buffer (it clips at the buffer's edges) is not modelled for those branches.
- Buffer.PSet and Buffer.Paint clip at the grid's edges, as pyxel drawing does. For the 16-by-16 scratch grid, the shapes' cells outside the view are simply never painted.
- The image/tilemap switch is the `Target` of the history record; both buffers are grids of integers.
- CanvasPanelGestures.SelectGesture: requires `ToolCodes.SelectApart`, that the select tool's code lies outside the pencil-to-circle range. The tool numbers are not part of this model, and the release handler (canvas_panel.py:219) tests only that range, so a select code inside it would commit a history record.
- The WidgetVariable and event plumbing is not modelled: listeners, `change` events, and whether setting an equal value fires one. The colour picker's value is a plain field.
