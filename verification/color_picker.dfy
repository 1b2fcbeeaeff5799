/**
 * The colour picker widget: sixteen 7-by-7 swatches in two rows of eight,
 * 8 pixels apart, drawn one pixel in from the widget's top-left corner.
 * A left press or drag on a swatch selects its colour.
 *
 * The hit test is modelled exactly as written. Its vertical bound is
 * computed from the horizontal one (`y2 = x2 + 6`), so the rows reach
 * further down than the swatches: the lemmas below say how far.
 */
module ColorPicker {
  import opened Ints
  import opened Wrappers
  import opened Input

  /** The widget's screen position and its selected colour (`value_var`). */
  datatype Picker = Picker(x: int, y: int, value: int)

  /** Local coordinates: the pointer relative to the first swatch's top-left pixel. */
  function LocalX(p: Picker, x: int): int { x - p.x - 1 }
  function LocalY(p: Picker, y: int): int { y - p.y - 1 }

  /** Local column lx falls on a swatch column, not left of, right of or between them. */
  predicate OnColumn(lx: int) {
    0 <= lx <= 62 && lx % 8 != 7
  }

  /** The vertical reach of the hit test in swatch column c: down to local row 8c + 12. */
  function Reach(c: int): int {
    8 * c + 12
  }

  /** Swatch k (0 <= k < 16) covers local pixel (lx, ly): the swatch as drawn. */
  predicate InSwatch(k: int, lx: int, ly: int) {
    && 0 <= k < 16
    && 8 * (k % 8) <= lx <= 8 * (k % 8) + 6
    && 8 * (k / 8) <= ly <= 8 * (k / 8) + 6
  }

  /**
   * `check_value`: the swatch index under the pointer, or None. The
   * pointer's column and row are clamped into the 8-by-2 grid and the
   * pointer tested against that cell's bounds, whose bottom is taken from
   * the right edge.
   *
   * In closed form: a hit exactly when the local column is on a swatch
   * column and the local row lies between 0 and that column's reach; the
   * index is the column plus 8 from local row 8 on.
   */
  function CheckValue(p: Picker, x: int, y: int): (r: Option<int>)
    ensures
      && var lx := LocalX(p, x);
      && var ly := LocalY(p, y);
      && (r.Some? <==> OnColumn(lx) && 0 <= ly <= Reach(lx / 8))
      && (r.Some? ==> r.value == (if ly < 8 then 0 else 8) + lx / 8 && 0 <= r.value < 16)
  {
    var lx := LocalX(p, x);
    var ly := LocalY(p, y);
    var indexX := Clamp(lx / 8, 0, 7);
    var indexY := Clamp(ly / 8, 0, 1);
    var x1 := indexX * 8;
    var y1 := indexY * 8;
    var x2 := x1 + 6;
    var y2 := x2 + 6;
    if x1 <= lx <= x2 && y1 <= ly <= y2 then Some(indexY * 8 + indexX) else None
  }

  /**
   * Left of the first column, right of the last one, or on the one-pixel
   * gap between two columns, nothing is hit; nor above the first row.
   */
  lemma {:induction false} Misses(p: Picker, x: int, y: int)
    requires
      || LocalX(p, x) < 0 || 62 < LocalX(p, x) || LocalX(p, x) % 8 == 7
      || LocalY(p, y) < 0
    ensures CheckValue(p, x, y) == None
  {
  }

  /** Anywhere in the first eight local rows over a swatch column, that column's top swatch is hit. */
  lemma {:induction false} TopRowHits(p: Picker, x: int, y: int)
    requires OnColumn(LocalX(p, x)) && 0 <= LocalY(p, y) <= 7
    ensures CheckValue(p, x, y) == Some(LocalX(p, x) / 8)
  {
  }

  /** Every pixel of every drawn swatch but swatch 8 hits that swatch. */
  lemma {:induction false} SwatchHits(p: Picker, k: int, x: int, y: int)
    requires k != 8 && InSwatch(k, LocalX(p, x), LocalY(p, y))
    ensures CheckValue(p, x, y) == Some(k)
  {
  }

  /**
   * Swatch 8, the first of the second row, is cut short: its bottom two
   * rows of pixels (local rows 13 and 14) hit nothing, since the reach of
   * the first column ends at local row 12.
   */
  lemma {:induction false} SwatchEightCut(p: Picker, x: int, y: int)
    requires InSwatch(8, LocalX(p, x), LocalY(p, y))
    ensures CheckValue(p, x, y) == if LocalY(p, y) <= 12 then Some(8) else None
  {
  }

  /**
   * Every hit lies on the swatch's own column, at or below the top of its
   * row; the second row's hits extend below the widget, down to the
   * column's reach.
   */
  lemma {:induction false} HitColumnAndRow(p: Picker, x: int, y: int)
    requires CheckValue(p, x, y).Some?
    ensures
      && var k := CheckValue(p, x, y).value;
      && var lx := LocalX(p, x);
      && var ly := LocalY(p, y);
      && 8 * (k % 8) <= lx <= 8 * (k % 8) + 6
      && 8 * (k / 8) <= ly <= Reach(k % 8)
  {
  }

  /** In the last column the hit test reaches local row 68, well below the 16-pixel-high widget. */
  lemma LastColumnReachesBelow(p: Picker)
    ensures CheckValue(p, p.x + 1 + 56, p.y + 1 + 68) == Some(15)
    ensures CheckValue(p, p.x + 1 + 56, p.y + 1 + 69) == None
  {
  }

  /**
   * `__on_mouse_down`: with the left button, a hit selects its colour;
   * any other button, or a miss, leaves the picker as it is.
   */
  function MouseDown(p: Picker, key: MouseButton, x: int, y: int): (r: Picker)
    ensures r.x == p.x && r.y == p.y
    ensures
      && var lx := LocalX(p, x);
      && var ly := LocalY(p, y);
      && r.value ==
           if key == Left && OnColumn(lx) && 0 <= ly <= Reach(lx / 8)
           then (if ly < 8 then 0 else 8) + lx / 8
           else p.value
    ensures 0 <= p.value < 16 ==> 0 <= r.value < 16
  {
    if key != Left then p
    else
      var v := CheckValue(p, x, y);
      if v.Some? then p.(value := v.value) else p
  }

  /** `__on_mouse_drag`: exactly the effect of a press with the same button at the same point. */
  function MouseDrag(p: Picker, key: MouseButton, x: int, y: int, dx: int, dy: int): (r: Picker)
    ensures r == MouseDown(p, key, x, y)
    ensures key == Left && CheckValue(p, x, y).Some? ==> r.value == CheckValue(p, x, y).value
    ensures !(key == Left && CheckValue(p, x, y).Some?) ==> r == p
  {
    MouseDown(p, key, x, y)
  }

  /** A press is idempotent: pressing twice at the same point is pressing once. */
  lemma {:induction false} MouseDownTwice(p: Picker, key: MouseButton, x: int, y: int)
    ensures MouseDown(MouseDown(p, key, x, y), key, x, y) == MouseDown(p, key, x, y)
  {
  }
}
