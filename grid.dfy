/** Mapping a point on the canvas to the grid cell under it. */
module Grid {
  import opened Types

  /** A cell on the 3x3 board. */
  predicate InGrid(c: Cell) {
    0 <= c.x < 3 && 0 <= c.y < 3
  }

  /** The floor of `v / w` names the band of width `w` that holds `v`. */
  lemma FloorBand(v: real, w: real)
    requires w > 0.0
    ensures (v / w).Floor as real * w <= v < ((v / w).Floor + 1) as real * w
  {
    var r := v / w;
    var k := r.Floor as real;
    var m := (r.Floor + 1) as real;
    assert k <= r < m;
    assert r * w == v;
    assert (r - k) * w >= 0.0;
    assert (m - r) * w > 0.0;
    assert (m - r) * w == m * w - r * w;
    assert m * w - v > 0.0;
  }

  /**
   * `floor(pos / (size / 3))` on each axis, in exact arithmetic. The result is
   * the unique cell whose pixel band, a third of the canvas wide, holds `pos`.
   */
  function CellAddress(pos: Position, canvasWidth: int, canvasHeight: int): (c: Cell)
    requires canvasWidth > 0 && canvasHeight > 0
    ensures c.x as real * (canvasWidth as real / 3.0) <= pos.x < (c.x + 1) as real * (canvasWidth as real / 3.0)
    ensures c.y as real * (canvasHeight as real / 3.0) <= pos.y < (c.y + 1) as real * (canvasHeight as real / 3.0)
  {
    var w, h := canvasWidth as real / 3.0, canvasHeight as real / 3.0;
    FloorBand(pos.x, w);
    FloorBand(pos.y, h);
    Cell((pos.x / w).Floor, (pos.y / h).Floor)
  }

  /** On one axis: the band index is 0..2 exactly when the coordinate is inside the canvas. */
  lemma BandInsideIffCoordinateInside(k: int, v: real, size: int)
    requires size > 0
    requires k as real * (size as real / 3.0) <= v < (k + 1) as real * (size as real / 3.0)
    ensures 0 <= k < 3 <==> 0.0 <= v < size as real
  {
    var w := size as real / 3.0;
    var lo, hi := k as real * w, (k + 1) as real * w;
    assert w > 0.0 && 3.0 * w == size as real;
    assert k >= 0 ==> lo >= 0.0;
    assert k + 1 <= 0 ==> hi <= 0.0;
    assert k + 1 <= 3 ==> (3 - (k + 1)) as real * w >= 0.0;
    assert (3 - (k + 1)) as real * w == 3.0 * w - hi;
    assert k >= 3 ==> (k - 3) as real * w >= 0.0;
    assert (k - 3) as real * w == lo - 3.0 * w;
  }

  /** A point maps into the board exactly when it lies inside the canvas. */
  lemma CellAddressInGridIffInside(pos: Position, canvasWidth: int, canvasHeight: int)
    requires canvasWidth > 0 && canvasHeight > 0
    ensures InGrid(CellAddress(pos, canvasWidth, canvasHeight)) <==>
            0.0 <= pos.x < canvasWidth as real && 0.0 <= pos.y < canvasHeight as real
  {
    var c := CellAddress(pos, canvasWidth, canvasHeight);
    BandInsideIffCoordinateInside(c.x, pos.x, canvasWidth);
    BandInsideIffCoordinateInside(c.y, pos.y, canvasHeight);
  }

  /** Moving right or down never moves the address left or up. */
  lemma CellAddressIsMonotone(p: Position, q: Position, canvasWidth: int, canvasHeight: int)
    requires canvasWidth > 0 && canvasHeight > 0
    requires p.x <= q.x && p.y <= q.y
    ensures CellAddress(p, canvasWidth, canvasHeight).x <= CellAddress(q, canvasWidth, canvasHeight).x
    ensures CellAddress(p, canvasWidth, canvasHeight).y <= CellAddress(q, canvasWidth, canvasHeight).y
  {
    var w, h := canvasWidth as real / 3.0, canvasHeight as real / 3.0;
    assert p.x / w <= q.x / w;
    assert p.y / h <= q.y / h;
  }
}
