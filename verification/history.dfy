/**
 * The before/after history commit around every buffer-changing gesture:
 * `_add_pre_history` remembers the viewport's contents and where they were
 * taken from; `_add_post_history` pushes a record to the host's undo list
 * only when the contents actually changed.
 */
module History {
  import opened Buffer

  /** Which buffer the record belongs to: an image number or a tilemap number. */
  datatype Target = Image(imageNo: int) | Tilemap(tilemapNo: int)

  /** The half-built record kept between the two calls (`_history_data`). */
  datatype Pending = Pending(target: Target, posX: int, posY: int, before: Grid)

  /** A record handed to the host's `add_history`. */
  datatype Entry = Entry(target: Target, posX: int, posY: int, before: Grid, after: Grid)

  /** `_add_pre_history`: the target, the focus as position, and the snapshot before. */
  function AddPreHistory(target: Target, posX: int, posY: int, before: Grid): Pending {
    Pending(target, posX, posY, before)
  }

  /**
   * `_add_post_history`: the history list after the gesture. Earlier
   * records are kept; one record, completing the pending one with `after`,
   * is appended exactly when the gesture changed something.
   */
  function AddPostHistory(p: Pending, after: Grid, history: seq<Entry>): (h: seq<Entry>)
    ensures |history| <= |h| && h[..|history|] == history
    ensures |h| == |history| + 1 <==> p.before != after
    ensures |h| == |history| <==> p.before == after
    ensures |h| > |history| ==> h[|history|] == Entry(p.target, p.posX, p.posY, p.before, after)
  {
    if p.before != after then history + [Entry(p.target, p.posX, p.posY, p.before, after)]
    else history
  }
}
