/**
 * The canvas panel's window onto the buffer: a 16-by-16 cell view, each cell
 * drawn 8 screen pixels wide, whose top-left buffer position (the focus) is
 * kept by two scroll bars as "notches" of 8 buffer pixels.
 *
 * Python's `//` by a positive constant rounds towards minus infinity, which
 * is what Dafny's `/` does for a positive divisor, so it is written `/` here.
 */
module Viewport {
  import opened Ints

  /** Cells along each side of the view. */
  const ViewCells := 16

  /** Largest focus coordinate: a 256-pixel buffer minus the 16-cell view. */
  const MaxFocus := 240

  /**
   * Cell under pointer coordinate p along one axis, unclamped, as the drag
   * handler computes it: `(p - origin - 1) // 8`.
   */
  function DragCell(origin: int, p: int): (c: int)
    ensures origin + 1 + 8 * c <= p < origin + 9 + 8 * c
  {
    (p - origin - 1) / 8
  }

  /**
   * `_screen_to_view` along one axis: the cell under p, clamped into the
   * view. Inside the 128-pixel interior the answer is the cell whose 8-pixel
   * strip contains p; left of it, cell 0; right of it, cell 15.
   */
  function ScreenToView(origin: int, p: int): (c: int)
    ensures 0 <= c < ViewCells
    ensures origin + 1 <= p < origin + 129 ==> origin + 1 + 8 * c <= p < origin + 9 + 8 * c
    ensures p < origin + 1 ==> c == 0
    ensures origin + 129 <= p ==> c == ViewCells - 1
  {
    Clamp((p - origin - 1) / 8, 0, ViewCells - 1)
  }

  /** The focus getter hook: the scroll-bar value times 8. */
  function FocusOf(scroll: int): (f: int)
    ensures f % 8 == 0
    ensures f / 8 == scroll
  {
    scroll * 8
  }

  /**
   * The focus setter hook, `int(round(f / 8))`: the integer nearest to f/8,
   * ties going to the even one as Python's `round` does.
   */
  function ScrollFor(f: int): (s: int)
    ensures -4 <= f - 8 * s <= 4
    ensures (f - 8 * s == 4 || f - 8 * s == -4) ==> s % 2 == 0
  {
    var q := f / 8;
    var r := f % 8;
    if r < 4 then q
    else if r > 4 then q + 1
    else if q % 2 == 0 then q
    else q + 1
  }

  /** Setting a multiple of 8 as the focus and reading it back returns it. */
  lemma FocusSetGet(f: int)
    requires f % 8 == 0
    ensures FocusOf(ScrollFor(f)) == f
  {
  }

  /** Reading the focus and writing it back leaves the scroll bar alone. */
  lemma FocusGetSet(scroll: int)
    ensures ScrollFor(FocusOf(scroll)) == scroll
  {
  }

  /**
   * `focus += d` through the two hooks, for a step that is a whole number
   * of notches: the scroll bar moves by d/8 notches.
   */
  function Nudge(scroll: int, d: int): (s: int)
    requires d % 8 == 0
    ensures FocusOf(s) == FocusOf(scroll) + d
  {
    ScrollFor(FocusOf(scroll) + d)
  }

  /** `focus = min(max(focus, 0), 240)` through the two hooks. */
  function ClampFocus(scroll: int): (s: int)
    ensures 0 <= FocusOf(s) <= MaxFocus
    ensures FocusOf(s) == Clamp(FocusOf(scroll), 0, MaxFocus)
  {
    var f := Clamp(FocusOf(scroll), 0, MaxFocus);
    assert f % 8 == 0;
    ScrollFor(f)
  }

  /** Whole 16-pixel steps taken out of a drag accumulator. */
  datatype Pan = Pan(offset: int, steps: int)

  /**
   * The right-drag accumulator: once the accumulated pointer movement
   * reaches 16 screen pixels either way, it is turned into whole steps
   * (floor division) and the remainder kept. Movement is conserved, the
   * remainder always lies strictly between -16 and 16, and no step is taken
   * below the threshold.
   */
  function Accumulate(acc: int): (p: Pan)
    ensures p.offset + 16 * p.steps == acc
    ensures -16 < p.offset < 16
    ensures Abs(acc) < 16 ==> p.steps == 0
    ensures 16 <= Abs(acc) ==> 0 <= p.offset < 16 && p.steps != 0
  {
    if Abs(acc) >= 16 then
      var steps := acc / 16;
      Pan(acc - steps * 16, steps)
    else
      Pan(acc, 0)
  }

  /** One axis of the right-drag pan: the new remainder, steps and scroll value. */
  datatype PanAxis = PanAxis(offset: int, steps: int, scroll: int)

  /**
   * Right-drag along one axis: subtract the pointer delta from the
   * accumulator, move the focus by 8 buffer pixels per whole step, then
   * clamp the focus into [0, 240].
   */
  function PanStep(offset: int, delta: int, scroll: int): (r: PanAxis)
    ensures r.offset + 16 * r.steps == offset - delta
    ensures -16 < r.offset < 16
    ensures Abs(offset - delta) < 16 ==> r.steps == 0 && r.offset == offset - delta
    ensures 16 <= Abs(offset - delta) ==> 0 <= r.offset && r.steps != 0
    ensures FocusOf(r.scroll) == Clamp(FocusOf(scroll) + 8 * r.steps, 0, MaxFocus)
    ensures 0 <= FocusOf(r.scroll) <= MaxFocus
  {
    var p := Accumulate(offset - delta);
    var moved := if Abs(offset - delta) >= 16 then Nudge(scroll, p.steps * 8) else scroll;
    PanAxis(p.offset, p.steps, ClampFocus(moved))
  }
}
