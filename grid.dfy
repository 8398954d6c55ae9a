/** Row-major addressing of a w-wide raster: cell (x, y) lives at index y*w + x. The
    index is defined by repeated addition so that proofs about scan order stay linear;
    CellIs ties it to the product the renderer computes. */
module Grid {

  /** The index of cell (x, y) in a row-major buffer of width w. */
  function Cell(x: int, y: nat, w: int): int {
    if y == 0 then x else Cell(x, y - 1, w) + w
  }

  lemma {:induction false} CellIs(x: int, y: nat, w: int)
    ensures Cell(x, y, w) == y * w + x
  {
    if y > 0 {
      CellIs(x, y - 1, w);
      assert (y - 1) * w + w == y * w;
    }
  }

  /** Division and remainder by a positive w are determined by any decomposition
      a == q*w + r with 0 <= r < w. */
  lemma DivModUnique(a: int, w: int, q: int, r: int)
    requires w > 0 && 0 <= r < w && a == q * w + r
    ensures a / w == q && a % w == r
  {
    var q', r' := a / w, a % w;
    var d := q - q';
    assert d * w == r' - r by {
      assert q * w - q' * w == d * w;
    }
  }

  /** Cell (x, y) of a w-by-h buffer sits at index y*w + x, inside the buffer, and that
      index gives the cell back by division and remainder. */
  lemma RowMajor(x: int, y: int, w: int, h: int)
    requires 0 <= x < w && 0 <= y < h
    ensures 0 <= y * w + x < w * h
    ensures (y * w + x) / w == y && (y * w + x) % w == x
  {
    assert y * w + x < (y + 1) * w <= h * w;
    DivModUnique(y * w + x, w, y, x);
  }

  /** The number of cells of a w-by-h buffer, counted the same way. */
  function Area(w: int, h: nat): int {
    Cell(0, h, w)
  }

  lemma AreaIs(w: int, h: nat)
    ensures Area(w, h) == w * h
  {
    CellIs(0, h, w);
  }

  /** Cells in raster order before (x, y): earlier rows, or earlier in the same row. */
  predicate Before(jx: int, jy: nat, x: int, y: nat) {
    jy < y || (jy == y && jx < x)
  }

  /** Raster order: a cell Before another has a smaller index. */
  lemma {:induction false} CellLater(x: int, y: nat, nx: int, ny: nat, w: int)
    requires 0 <= x < w && 0 <= nx < w && Before(x, y, nx, ny)
    ensures Cell(x, y, w) < Cell(nx, ny, w)
    decreases ny
  {
    if y < ny {
      if y == ny - 1 {
        CellBelow(x, y, nx, w);
      } else {
        CellLater(x, y, nx, ny - 1, w);
      }
    } else if y > 0 {
      CellLater(x, y - 1, nx, ny - 1, w);
    }
  }

  lemma {:induction false} CellBelow(x: int, y: nat, nx: int, w: int)
    requires 0 <= x < w && 0 <= nx < w
    ensures Cell(x, y, w) < Cell(nx, y + 1, w)
    decreases y
  {
    if y > 0 {
      CellBelow(x, y - 1, nx, w);
    }
  }

  lemma {:induction false} CellNonNegative(x: int, y: nat, w: int)
    requires 0 <= x && 0 <= w
    ensures 0 <= Cell(x, y, w)
    decreases y
  {
    if y > 0 {
      CellNonNegative(x, y - 1, w);
    }
  }

  /** Cell (x, y) of a w-by-h buffer is inside the buffer. */
  lemma CellInGrid(x: int, y: nat, w: int, h: nat)
    requires 0 <= x < w && y < h
    ensures 0 <= Cell(x, y, w) < Area(w, h)
  {
    CellNonNegative(x, y, w);
    if y == h - 1 {
      CellBelow(x, y, 0, w);
    } else {
      CellLater(x, y, 0, h, w);
    }
  }

  /** Distinct cells of a buffer have distinct indices. */
  lemma CellInjective(x1: int, y1: nat, x2: int, y2: nat, w: int)
    requires 0 <= x1 < w && 0 <= x2 < w && Cell(x1, y1, w) == Cell(x2, y2, w)
    ensures x1 == x2 && y1 == y2
  {
    if Before(x1, y1, x2, y2) {
      CellLater(x1, y1, x2, y2, w);
    } else if Before(x2, y2, x1, y1) {
      CellLater(x2, y2, x1, y1, w);
    }
  }

  /** Every index of a w-by-h buffer is the cell (i % w, i / w). */
  lemma CellOfIndex(i: int, w: int, h: nat)
    requires w > 0 && 0 <= i < Area(w, h)
    ensures 0 <= i % w < w && 0 <= i / w < h && Cell(i % w, i / w, w) == i
  {
    AreaIs(w, h);
    CellIs(i % w, i / w, w);
    if i / w >= h {
      MulLe(h, i / w, w);
    }
  }

  lemma MulLe(a: int, b: int, w: int)
    requires 0 <= a <= b && w >= 0
    ensures a * w <= b * w
    decreases b - a
  {
    if a < b {
      MulLe(a, b - 1, w);
    }
  }
}
