/** Small integer helpers shared by the editor model. */
module Ints {

  function Min(a: int, b: int): (r: int)
    ensures r <= a && r <= b
    ensures r == a || r == b
  {
    if a < b then a else b
  }

  function Max(a: int, b: int): (r: int)
    ensures a <= r && b <= r
    ensures r == a || r == b
  {
    if a < b then b else a
  }

  function Abs(a: int): (r: int)
    ensures 0 <= r
    ensures r == a || r == -a
  {
    if a < 0 then -a else a
  }

  /** `min(max(v, lo), hi)`, the clamping idiom used throughout the editor. */
  function Clamp(v: int, lo: int, hi: int): (r: int)
    requires lo <= hi
    ensures lo <= r <= hi
    ensures lo <= v <= hi ==> r == v
    ensures v < lo ==> r == lo
    ensures hi < v ==> r == hi
  {
    Min(Max(v, lo), hi)
  }
}
