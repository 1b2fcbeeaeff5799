/**
 * Rectangles of view cells given by two inclusive corners, and the
 * normalisation the panel applies to them.
 */
module Region {
  import opened Ints

  /** An inclusive cell rectangle (x1, y1)-(x2, y2). */
  datatype Rect = Rect(x1: int, y1: int, x2: int, y2: int) {
    predicate Normal() {
      x1 <= x2 && y1 <= y2
    }
  }

  /** A pair of coordinates along one axis. */
  datatype Span = Span(lo: int, hi: int)

  /** `(a, b) if a < b else (b, a)`: the two values, smaller first. */
  function Order(a: int, b: int): (s: Span)
    ensures s.lo <= s.hi
    ensures (s.lo == a && s.hi == b) || (s.lo == b && s.hi == a)
  {
    if a < b then Span(a, b) else Span(b, a)
  }

  /** The sign `(1 if d > 0 else -1)` the assist mode uses; zero counts as negative. */
  function Direction(d: int): (r: int)
    ensures r == 1 || r == -1
    ensures 0 < d <==> r == 1
  {
    if d > 0 then 1 else -1
  }

  /**
   * `_adjust_region`: with assist mode the shorter side of the drag is
   * stretched to the longer one, so the region becomes a square anchored at
   * (x1, y1); the stretch goes towards the pointer along the shorter side,
   * and up or left when the pointer has not moved along it. Either way the
   * corners are then put in order.
   */
  function AdjustRegion(x1: int, y1: int, x2: int, y2: int, isAssist: bool): (r: Rect)
    ensures r.Normal()
    ensures !isAssist ==> r == Rect(Min(x1, x2), Min(y1, y2), Max(x1, x2), Max(y1, y2))
    ensures isAssist ==> r.x2 - r.x1 == r.y2 - r.y1 == Max(Abs(x2 - x1), Abs(y2 - y1))
    ensures isAssist ==> (r.x1 == x1 || r.x2 == x1) && (r.y1 == y1 || r.y2 == y1)
    ensures isAssist && Abs(x2 - x1) > Abs(y2 - y1) ==> r.x1 == Min(x1, x2) && r.x2 == Max(x1, x2)
    ensures isAssist && Abs(x2 - x1) <= Abs(y2 - y1) ==> r.y1 == Min(y1, y2) && r.y2 == Max(y1, y2)
    ensures isAssist && Abs(x2 - x1) > Abs(y2 - y1) ==> (r.y1 == y1 <==> y2 > y1)
    ensures isAssist && Abs(x2 - x1) <= Abs(y2 - y1) && y2 != y1 ==> (r.x1 == x1 <==> x2 > x1)
    ensures isAssist && x2 == x1 && y2 == y1 ==> r == Rect(x1, y1, x1, y1)
  {
    var (ex, ey) :=
      if isAssist then
        var dx := x2 - x1;
        var dy := y2 - y1;
        if Abs(dx) > Abs(dy) then (x2, y1 + Abs(dx) * Direction(dy))
        else (x1 + Abs(dy) * Direction(dx), y2)
      else (x2, y2);
    var sx := Order(x1, ex);
    var sy := Order(y1, ey);
    Rect(sx.lo, sy.lo, sx.hi, sy.hi)
  }
}
