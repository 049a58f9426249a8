/**
  The progressive scan of `render`: pixels are visited level by level, on
  a 2x2 grid, then 4x4, 8x8 and so on, each level doubling the resolution.
  At every level after the first, the cells with an even row and an even
  column were already drawn at the level before, so they are skipped.

  The scan state is the four globals (pRow, pCol, pIteration, pMax); a
  batch of `render` advances it until enough pixels have been drawn. The
  drawing itself (`calcPixelColor` and the GL calls) is left out; a batch
  returns the pixel coordinates it would draw, in order.
 */
module Scheduler {

  /** The image is SzImg x SzImg pixels (main.h). */
  const SzImg: int := 512

  function Pow2(n: nat): (p: nat)
    ensures p >= 1
  {
    if n == 0 then 1 else 2 * Pow2(n - 1)
  }

  /** odd(): the low bit of the two's complement representation. */
  predicate Odd(x: int)
  {
    x % 2 == 1
  }

  datatype Scan = Scan(row: int, col: int, iteration: nat, pmax: int)

  datatype Pixel = Pixel(x: int, y: int)

  /**
    The states the scan reaches: the level is at least one, `pmax` is
    2 to the level, the row is on the grid, and the column is on it or
    just past its end.
   */
  predicate Valid(s: Scan)
  {
    s.iteration >= 1 && s.pmax == Pow2(s.iteration)
    && 0 <= s.row < s.pmax && 0 <= s.col <= s.pmax
  }

  /** Position of the scan within its level: the number of cells already passed. */
  function Position(s: Scan): int
  {
    s.row * s.pmax + s.col
  }

  /** The wrap at the head of the batch loop: past the end of a row go to the next, past the last row go to the next level. */
  function Wrap(s: Scan): (w: Scan)
    ensures s.col < s.pmax ==> w == s
    ensures Valid(s) ==> Valid(w) && w.col < w.pmax
    ensures Valid(s) && s.col == s.pmax && s.row + 1 < s.pmax ==>
      w.iteration == s.iteration && w.row == s.row + 1 && w.col == 0
    ensures Valid(s) && s.col == s.pmax && s.row + 1 == s.pmax ==>
      w.iteration == s.iteration + 1 && w.pmax == 2 * s.pmax && w.row == 0 && w.col == 0
  {
    if s.col >= s.pmax then
      if s.row + 1 >= s.pmax then Scan(0, 0, s.iteration + 1, Pow2(s.iteration + 1))
      else Scan(s.row + 1, 0, s.iteration, s.pmax)
    else s
  }

  /**
    pNeedsDrawing: every cell of the first level; afterwards a cell whose
    row or column is odd.
   */
  predicate NeedsDrawing(iteration: int, row: int, col: int)
  {
    iteration == 1 || Odd(row) || (!Odd(row) && Odd(col))
  }

  /** The cell the next loop pass examines is drawn. */
  predicate Draws(s: Scan)
  {
    var w := Wrap(s);
    NeedsDrawing(w.iteration, w.row, w.col)
  }

  /** The pixel coordinate of cell `cell` on a grid of `pmax` cells a side (integer division, as in the source). */
  function Coord(pmax: int, cell: int): int
    requires pmax > 0
  {
    cell * (SzImg / pmax)
  }

  /** The pixel the cell `w` stands for. */
  function PixelOf(w: Scan): Pixel
    requires w.pmax > 0
  {
    Pixel(Coord(w.pmax, w.col), Coord(w.pmax, w.row))
  }

  /** One pass of the batch loop: wrap, examine the cell, move to the next column. */
  function Advance(s: Scan): (t: Scan)
    requires Valid(s)
    ensures Valid(t)
    ensures t.iteration == s.iteration || (t.iteration == s.iteration + 1 && t.pmax == 2 * s.pmax)
  {
    var w := Wrap(s);
    w.(col := w.col + 1)
  }

  /** The first state of every rendering (resetRender). */
  function Reset(): (s: Scan)
    ensures Valid(s) && s.iteration == 1 && s.row == 0 && s.col == 0
  {
    Scan(0, 0, 1, 2)
  }

  /** The scan `n` passes after `s`. */
  function AdvanceN(s: Scan, n: nat): (t: Scan)
    requires Valid(s)
    ensures Valid(t)
    ensures t.iteration >= s.iteration
  {
    if n == 0 then s else Advance(AdvanceN(s, n - 1))
  }

  /** The pixels drawn in the first `n` passes after `s`, in order. */
  function DrawsOf(s: Scan, n: nat): (d: seq<Pixel>)
    requires Valid(s)
    ensures |d| <= n
  {
    if n == 0 then []
    else
      var t := AdvanceN(s, n - 1);
      DrawsOf(s, n - 1) + (if Draws(t) then [PixelOf(Wrap(t))] else [])
  }

  /**
    A skipped cell is followed by a drawn one: at a level after the first
    a skipped cell has an even column, so the next cell is in the same row
    with an odd column.
   */
  lemma NoTwoSkips(s: Scan)
    requires Valid(s)
    ensures !Draws(s) ==> Draws(Advance(s))
  {
    var w := Wrap(s);
    if !Draws(s) {
      Pow2Even(w.iteration);
      EvenBelowEven(w.col, w.pmax);
      var t := Advance(s);
      assert t == w.(col := w.col + 1);
      assert Wrap(t) == t;
    }
  }

  lemma Pow2Even(n: nat)
    requires n >= 1
    ensures Pow2(n) % 2 == 0
  {
    var h := Pow2(n - 1);
    assert Pow2(n) == 2 * h;
  }

  /** The successor of an even number below an even bound is odd and still below it. */
  lemma EvenBelowEven(c: int, p: int)
    requires c % 2 == 0 && p % 2 == 0 && c < p
    ensures c + 1 < p && Odd(c + 1)
  {
  }

  // ---------------------------------------------------------------------
  // Interlacing
  // ---------------------------------------------------------------------

  /** The pixel spacing at level `j`. */
  function Spacing(j: nat): int
  {
    SzImg / Pow2(j)
  }

  /** Pixel (x, y) is a grid point of level `j`. */
  ghost predicate OnGrid(j: nat, x: int, y: int)
  {
    exists r, c :: 0 <= r < Pow2(j) && 0 <= c < Pow2(j) && Coord(Pow2(j), c) == x && Coord(Pow2(j), r) == y
  }

  /** Pixel (x, y) is drawn at level `j`: it is the pixel of a cell of that level that needs drawing. */
  ghost predicate DrawnAt(j: nat, x: int, y: int)
  {
    exists r, c :: 0 <= r < Pow2(j) && 0 <= c < Pow2(j) && Coord(Pow2(j), c) == x && Coord(Pow2(j), r) == y
      && NeedsDrawing(j, r, c)
  }

  /**
    The level at which the grid point of cell (r, c) of level k is drawn:
    the cell's own level if its row or column is odd, otherwise the level
    at which the coarser cell (r/2, c/2) is drawn.
   */
  function FirstLevel(k: nat, r: int, c: int): (j: nat)
    requires k >= 1
    ensures 1 <= j <= k
  {
    if k == 1 || Odd(r) || Odd(c) then k else FirstLevel(k - 1, r / 2, c / 2)
  }

  lemma {:induction false} Pow2Add(a: nat, b: nat)
    ensures Pow2(a + b) == Pow2(a) * Pow2(b)
  {
    if a > 0 {
      Pow2Add(a - 1, b);
      assert Pow2(a + b) == 2 * Pow2(a - 1 + b);
      MulAssociative(2, Pow2(a - 1), Pow2(b));
    }
  }

  lemma DivideExact(a: int, b: int)
    requires b > 0
    ensures (a * b) / b == a
  {
    var q, m := (a * b) / b, (a * b) % b;
    assert (a - q) * b == m;
    ZeroFactor(a - q, b, m);
  }

  /** A multiple of `b` that lies in [0, b) is zero times `b`. */
  lemma ZeroFactor(d: int, b: int, m: int)
    requires b > 0 && 0 <= m < b && d * b == m
    ensures d == 0
  {
    if d >= 1 {
      MulAtLeast(b, d, 1);
      assert false;
    } else if d <= -1 {
      MulAtLeast(b, -d, 1);
      assert false;
    }
  }

  lemma Cancel(a: int, b: int, h: int)
    requires h > 0 && a * h == b * h
    ensures a == b
  {
    assert (a - b) * h == 0;
  }

  /** Up to level 9 the grid divides the image exactly: the spacing at level j is 2^(9-j). */
  lemma SpacingIsPower(j: nat)
    requires j <= 9
    ensures Spacing(j) == Pow2(9 - j)
  {
    Pow2Add(9 - j, j);
    assert Pow2(9) == SzImg;
    DivideExact(Pow2(9 - j), Pow2(j));
  }

  /** A grid coordinate of level j < k is a grid coordinate of level k whose cell is a multiple of 2^(k-j). */
  lemma CoarserCoord(j: nat, k: nat, c1: int, c: int)
    requires j < k <= 9
    requires Coord(Pow2(j), c1) == Coord(Pow2(k), c)
    ensures c == c1 * Pow2(k - j) && c % 2 == 0
  {
    var a, b := Pow2(k - j), Pow2(9 - k);
    SpacingIsPower(j);
    SpacingIsPower(k);
    Pow2Add(k - j, 9 - k);
    assert 9 - j == (k - j) + (9 - k);
    CancelCommon(c1, c, a, b);
    var h := Pow2(k - j - 1);
    assert a == 2 * h;
    DoubleIsEven(c1, h);
  }

  lemma MulAssociative(x: int, y: int, z: int)
    ensures x * (y * z) == (x * y) * z
  {
  }

  /** A common positive factor cancels: c1 * (a * b) == c * b gives c == c1 * a. */
  lemma CancelCommon(c1: int, c: int, a: int, b: int)
    requires b > 0 && c1 * (a * b) == c * b
    ensures c == c1 * a
  {
    MulAssociative(c1, a, b);
    Cancel(c, c1 * a, b);
  }

  lemma DoubleIsEven(x: int, h: int)
    ensures (x * (2 * h)) % 2 == 0
  {
    MulAssociative(x, 2, h);
    MulAssociative(2, x, h);
    assert x * 2 == 2 * x;
    var e := x * h;
    assert x * (2 * h) == 2 * e;
  }

  lemma HalfTimesDouble(c: int, b: int)
    requires c % 2 == 0
    ensures (c / 2) * (2 * b) == c * b
  {
    var e := c / 2;
    assert c == 2 * e;
    MulAssociative(e, 2, b);
    MulAssociative(2, e, b);
    assert e * 2 == 2 * e;
  }

  /** At its own level a cell is found only under its own coordinates. */
  lemma SameLevelCoord(k: nat, c1: int, c: int)
    requires k <= 9
    requires Coord(Pow2(k), c1) == Coord(Pow2(k), c)
    ensures c1 == c
  {
    SpacingIsPower(k);
    Cancel(c1, c, Pow2(9 - k));
  }

  /** The grid point of an even cell of level k is that of the halved cell one level down. */
  lemma HalvedCoord(k: nat, c: int)
    requires 2 <= k <= 9 && c % 2 == 0
    ensures Coord(Pow2(k - 1), c / 2) == Coord(Pow2(k), c)
  {
    SpacingIsPower(k);
    SpacingIsPower(k - 1);
    var b := Pow2(9 - k);
    assert Pow2(9 - (k - 1)) == 2 * b;
    HalfTimesDouble(c, b);
  }

  /**
    Interlacing: at a level k >= 2 (up to 9, where the grid still divides
    the image), a cell is skipped exactly when its pixel is a grid point
    of level k - 1.
   */
  lemma InterlaceSkip(k: nat, r: int, c: int)
    requires 2 <= k <= 9 && 0 <= r < Pow2(k) && 0 <= c < Pow2(k)
    ensures !NeedsDrawing(k, r, c) <==> OnGrid(k - 1, Coord(Pow2(k), c), Coord(Pow2(k), r))
  {
    var x, y := Coord(Pow2(k), c), Coord(Pow2(k), r);
    if !NeedsDrawing(k, r, c) {
      HalvedCoord(k, c);
      HalvedCoord(k, r);
      assert Pow2(k) == 2 * Pow2(k - 1);
      assert 0 <= r / 2 < Pow2(k - 1) && 0 <= c / 2 < Pow2(k - 1);
      assert Coord(Pow2(k - 1), c / 2) == x && Coord(Pow2(k - 1), r / 2) == y;
    }
    if OnGrid(k - 1, x, y) {
      var r1, c1 :| 0 <= r1 < Pow2(k - 1) && 0 <= c1 < Pow2(k - 1)
        && Coord(Pow2(k - 1), c1) == x && Coord(Pow2(k - 1), r1) == y;
      CoarserCoord(k - 1, k, c1, c);
      CoarserCoord(k - 1, k, r1, r);
    }
  }

  /** A cell with an odd row or column has a pixel that no earlier level draws. */
  lemma OddCellNew(j: nat, k: nat, r: int, c: int)
    requires 1 <= j < k <= 9
    requires Odd(r) || Odd(c)
    ensures !DrawnAt(j, Coord(Pow2(k), c), Coord(Pow2(k), r))
  {
    if DrawnAt(j, Coord(Pow2(k), c), Coord(Pow2(k), r)) {
      var r1, c1 :| 0 <= r1 < Pow2(j) && 0 <= c1 < Pow2(j)
        && Coord(Pow2(j), c1) == Coord(Pow2(k), c) && Coord(Pow2(j), r1) == Coord(Pow2(k), r)
        && NeedsDrawing(j, r1, c1);
      CoarserCoord(j, k, c1, c);
      CoarserCoord(j, k, r1, r);
    }
  }

  /** At its own level a cell's pixel is drawn exactly when the cell needs drawing. */
  lemma DrawnAtOwnLevel(k: nat, r: int, c: int)
    requires 1 <= k <= 9 && 0 <= r < Pow2(k) && 0 <= c < Pow2(k)
    ensures DrawnAt(k, Coord(Pow2(k), c), Coord(Pow2(k), r)) <==> NeedsDrawing(k, r, c)
  {
    var x, y := Coord(Pow2(k), c), Coord(Pow2(k), r);
    if DrawnAt(k, x, y) {
      var r1, c1 :| 0 <= r1 < Pow2(k) && 0 <= c1 < Pow2(k)
        && Coord(Pow2(k), c1) == x && Coord(Pow2(k), r1) == y && NeedsDrawing(k, r1, c1);
      SameLevelCoord(k, c1, c);
      SameLevelCoord(k, r1, r);
    }
  }

  /**
    Every grid point of level k (up to 9) satisfies DrawnAt at exactly one
    of the levels 1..k, namely FirstLevel(k, r, c). ScanDrawsEveryGridPoint
    and ScanNeverRedraws carry this over to the passes of the scan.
   */
  lemma {:induction false} DrawnExactlyOnce(k: nat, r: int, c: int)
    requires 1 <= k <= 9 && 0 <= r < Pow2(k) && 0 <= c < Pow2(k)
    ensures forall j :: 1 <= j <= k ==>
      (DrawnAt(j, Coord(Pow2(k), c), Coord(Pow2(k), r)) <==> j == FirstLevel(k, r, c))
  {
    var x, y := Coord(Pow2(k), c), Coord(Pow2(k), r);
    DrawnAtOwnLevel(k, r, c);
    if k == 1 {
    } else if Odd(r) || Odd(c) {
      forall j | 1 <= j < k
        ensures !DrawnAt(j, x, y)
      {
        OddCellNew(j, k, r, c);
      }
    } else {
      assert r % 2 == 0 && c % 2 == 0;
      assert Pow2(k) == 2 * Pow2(k - 1);
      DrawnExactlyOnce(k - 1, r / 2, c / 2);
      HalvedCoord(k, c);
      HalvedCoord(k, r);
    }
  }

  // ---------------------------------------------------------------------
  // The scan against the grid
  // ---------------------------------------------------------------------

  /** The cell the scan from its reset examines in pass `m`. */
  function Cell(m: nat): (w: Scan)
    ensures Valid(w) && w.col < w.pmax
  {
    Wrap(AdvanceN(Reset(), m))
  }

  /**
    The cell after `w` in scan order: the next column, else the start of
    the next row, else the first cell of the next level.
   */
  function Following(w: Scan): Scan
  {
    if w.col + 1 < w.pmax then w.(col := w.col + 1)
    else if w.row + 1 < w.pmax then Scan(w.row + 1, 0, w.iteration, w.pmax)
    else Scan(0, 0, w.iteration + 1, Pow2(w.iteration + 1))
  }

  /** Each pass examines the cell that follows the previous pass's in scan order. */
  lemma NextCell(m: nat)
    ensures Cell(m + 1) == Following(Cell(m))
  {
    assert AdvanceN(Reset(), m + 1) == Advance(AdvanceN(Reset(), m));
  }

  /** The scan from its reset examines every cell of every level. */
  lemma {:induction false} ScanVisits(k: nat, r: int, c: int) returns (m: nat)
    requires 1 <= k && 0 <= r < Pow2(k) && 0 <= c < Pow2(k)
    ensures Cell(m) == Scan(r, c, k, Pow2(k))
    decreases k, r, c
  {
    var m1: nat;
    if c > 0 {
      m1 := ScanVisits(k, r, c - 1);
    } else if r > 0 {
      m1 := ScanVisits(k, r - 1, Pow2(k) - 1);
    } else if k > 1 {
      assert Pow2(k) == 2 * Pow2(k - 1);
      m1 := ScanVisits(k - 1, Pow2(k - 1) - 1, Pow2(k - 1) - 1);
    } else {
      m := 0;
      return;
    }
    NextCell(m1);
    m := m1 + 1;
  }

  /** Cell `w1` comes before cell `w2` in scan order: an earlier level, or an earlier position in the same level. */
  predicate Earlier(w1: Scan, w2: Scan)
  {
    w1.iteration < w2.iteration || (w1.iteration == w2.iteration && Position(w1) < Position(w2))
  }

  /** The following cell is the next position in the same level, or a cell of the next level. */
  lemma FollowingIsNext(w: Scan)
    requires Valid(w) && w.col < w.pmax
    ensures Following(w).iteration == w.iteration + 1
      || (Following(w).iteration == w.iteration && Position(Following(w)) == Position(w) + 1)
  {
    if w.col + 1 == w.pmax && w.row + 1 < w.pmax {
      assert (w.row + 1) * w.pmax == w.row * w.pmax + w.pmax;
    }
  }

  /** Later passes examine later cells. */
  lemma {:induction false} ScanOrder(m1: nat, m2: nat)
    requires m1 < m2
    ensures Earlier(Cell(m1), Cell(m2))
    decreases m2
  {
    NextCell(m2 - 1);
    FollowingIsNext(Cell(m2 - 1));
    if m1 < m2 - 1 {
      ScanOrder(m1, m2 - 1);
    }
  }

  /**
    The scan leaves no pixel out: every grid point of a level k up to 9
    is drawn by some pass of the scan from its reset, at level
    FirstLevel(k, r, c).
   */
  lemma ScanDrawsEveryGridPoint(k: nat, r: int, c: int) returns (m: nat)
    requires 1 <= k <= 9 && 0 <= r < Pow2(k) && 0 <= c < Pow2(k)
    ensures Draws(AdvanceN(Reset(), m))
    ensures PixelOf(Cell(m)) == Pixel(Coord(Pow2(k), c), Coord(Pow2(k), r))
    ensures Cell(m).iteration == FirstLevel(k, r, c)
  {
    var j := FirstLevel(k, r, c);
    var x, y := Coord(Pow2(k), c), Coord(Pow2(k), r);
    DrawnExactlyOnce(k, r, c);
    assert DrawnAt(j, x, y);
    var r1, c1 :| 0 <= r1 < Pow2(j) && 0 <= c1 < Pow2(j)
      && Coord(Pow2(j), c1) == x && Coord(Pow2(j), r1) == y && NeedsDrawing(j, r1, c1);
    m := ScanVisits(j, r1, c1);
  }

  /**
    The scan never draws a pixel twice: two different passes of the scan
    from its reset that both draw, up to level 9, draw different pixels.
   */
  lemma ScanNeverRedraws(m1: nat, m2: nat)
    requires m1 < m2
    requires Draws(AdvanceN(Reset(), m1)) && Draws(AdvanceN(Reset(), m2))
    requires Cell(m2).iteration <= 9
    ensures PixelOf(Cell(m1)) != PixelOf(Cell(m2))
  {
    var w1, w2 := Cell(m1), Cell(m2);
    ScanOrder(m1, m2);
    if w1.iteration == w2.iteration {
      if PixelOf(w1) == PixelOf(w2) {
        SameLevelCoord(w1.iteration, w1.col, w2.col);
        SameLevelCoord(w1.iteration, w1.row, w2.row);
      }
    } else {
      OddCellNew(w1.iteration, w2.iteration, w2.row, w2.col);
      assert 0 <= w1.row < Pow2(w1.iteration) && 0 <= w1.col < Pow2(w1.iteration)
        && Coord(Pow2(w1.iteration), w1.col) == PixelOf(w1).x && Coord(Pow2(w1.iteration), w1.row) == PixelOf(w1).y
        && NeedsDrawing(w1.iteration, w1.row, w1.col);
      assert DrawnAt(w1.iteration, PixelOf(w1).x, PixelOf(w1).y);
    }
  }

  // ---------------------------------------------------------------------
  // The batch loop
  // ---------------------------------------------------------------------

  /** How many pixels one batch draws: 1024 while dragging, else max(pMax, 256). */
  function Bound(dragging: bool, pmax: int): int
  {
    if dragging then 1024 else if pmax < 256 then 256 else pmax
  }

  /** Passing to the next level raises the bound by at most the old grid size, and not at all below 128. */
  lemma BoundGrowth(dragging: bool, p: int)
    requires p >= 2
    ensures Bound(dragging, p) <= Bound(dragging, 2 * p)
    ensures Bound(dragging, 2 * p) - Bound(dragging, p) <= (if p >= 128 then p else 0)
  {
  }

  /**
    The termination measure of the batch loop: four per pixel still to
    draw, the position within the level, and two more when the next
    cell is skipped. A skip is paid for by the drawn cell that follows it;
    the drop of the position when a level ends pays for the higher bound
    of the next level.
   */
  function Measure(s: Scan, dragging: bool, iterations: int): int
  {
    4 * (Bound(dragging, s.pmax) - iterations) + Position(s) + (if Draws(s) then 0 else 2)
  }

  /**
    Within a level a pass moves the position on by one; at the end of a
    level the position falls from `pmax * pmax` to one.
   */
  lemma AdvancePosition(s: Scan)
    requires Valid(s)
    ensures Advance(s).iteration == s.iteration ==> Position(Advance(s)) == Position(s) + 1
    ensures Advance(s).iteration != s.iteration ==>
      Position(s) == s.pmax * s.pmax && Position(Advance(s)) == 1
  {
    var t := Advance(s);
    if s.col < s.pmax {
      assert t.row == s.row && t.pmax == s.pmax && t.col == s.col + 1;
    } else if s.row + 1 < s.pmax {
      assert t.row == s.row + 1 && t.pmax == s.pmax && t.col == 1;
      assert (s.row + 1) * s.pmax == s.row * s.pmax + s.pmax;
    } else {
      assert t.row == 0 && t.col == 1;
      assert s.row == s.pmax - 1 && s.col == s.pmax;
      assert (s.pmax - 1) * s.pmax + s.pmax == s.pmax * s.pmax;
    }
  }

  lemma MeasureDecreases(s: Scan, dragging: bool, iterations: int)
    requires Valid(s) && iterations < Bound(dragging, s.pmax)
    ensures 0 <= Measure(s, dragging, iterations)
    ensures Measure(Advance(s), dragging, if Draws(s) then iterations + 1 else iterations)
      < Measure(s, dragging, iterations)
  {
    var t := Advance(s);
    NoTwoSkips(s);
    AdvancePosition(s);
    assert 0 <= Position(s) by {
      MulNonNegative(s.row, s.pmax);
    }
    if t.iteration != s.iteration {
      var p := s.pmax;
      BoundGrowth(dragging, p);
      if p >= 128 {
        MulAtLeast(p, p, 128);
      } else {
        MulAtLeast(p, p, 2);
      }
    }
  }

  lemma MulNonNegative(a: int, b: int)
    requires 0 <= a && 0 <= b
    ensures 0 <= a * b
  {
  }

  lemma MulAtLeast(a: int, b: int, k: int)
    requires 0 <= a && k <= b
    ensures a * k <= a * b
  {
  }

  /** The bound never falls as the scan advances. */
  lemma BoundMonotone(s: Scan, dragging: bool)
    requires Valid(s)
    ensures Bound(dragging, s.pmax) <= Bound(dragging, Advance(s).pmax)
  {
    if Advance(s).iteration != s.iteration {
      BoundGrowth(dragging, s.pmax);
    }
  }

  /** One more pass extends the scan and the drawn pixels by exactly that pass. */
  lemma StepFacts(s0: Scan, n: nat)
    requires Valid(s0)
    ensures AdvanceN(s0, n + 1) == Advance(AdvanceN(s0, n))
    ensures DrawsOf(s0, n + 1) == DrawsOf(s0, n) +
      (if Draws(AdvanceN(s0, n)) then [PixelOf(Wrap(AdvanceN(s0, n)))] else [])
  {
  }

  /** After `m` passes from `s0` the batch has not yet drawn as many pixels as the bound asks. */
  predicate Unfinished(s0: Scan, dragging: bool, m: nat)
    requires Valid(s0)
  {
    |DrawsOf(s0, m)| < Bound(dragging, AdvanceN(s0, m).pmax)
  }

  /** Every one of the first `n` passes from `s0` starts with the batch unfinished. */
  predicate UnfinishedBefore(s0: Scan, dragging: bool, n: nat)
    requires Valid(s0)
  {
    n == 0 || (UnfinishedBefore(s0, dragging, n - 1) && Unfinished(s0, dragging, n - 1))
  }

  lemma {:induction false} UnfinishedAll(s0: Scan, dragging: bool, n: nat)
    requires Valid(s0) && UnfinishedBefore(s0, dragging, n)
    ensures forall m :: 0 <= m < n ==> Unfinished(s0, dragging, m)
  {
    if n > 0 {
      UnfinishedAll(s0, dragging, n - 1);
    }
  }

  /**
    What holds at the head of the batch loop after `steps` passes from
    `s0`: the scan and the drawn pixels are those of the passes made, every
    pass began unfinished, and the last pass, if any, drew or the batch is
    still unfinished.
   */
  predicate Batch(s0: Scan, dragging: bool, s: Scan, drawn: seq<Pixel>, steps: nat)
  {
    Valid(s0) && Valid(s) && s == AdvanceN(s0, steps) && drawn == DrawsOf(s0, steps)
    && |drawn| <= Bound(dragging, s.pmax)
    && UnfinishedBefore(s0, dragging, steps)
    && (steps == 0 || Draws(AdvanceN(s0, steps - 1)) || |drawn| < Bound(dragging, s.pmax))
  }

  /** One pass of an unfinished batch keeps `Batch` and lowers the termination measure. */
  lemma BatchStep(s0: Scan, dragging: bool, s: Scan, drawn: seq<Pixel>, steps: nat)
    requires Batch(s0, dragging, s, drawn, steps) && |drawn| < Bound(dragging, s.pmax)
    ensures Batch(s0, dragging, Advance(s),
      if Draws(s) then drawn + [PixelOf(Wrap(s))] else drawn, steps + 1)
    ensures 0 <= Measure(s, dragging, |drawn|)
    ensures Measure(Advance(s), dragging, if Draws(s) then |drawn| + 1 else |drawn|)
      < Measure(s, dragging, |drawn|)
  {
    MeasureDecreases(s, dragging, |drawn|);
    BoundMonotone(s, dragging);
    StepFacts(s0, steps);
    assert Unfinished(s0, dragging, steps);
  }

  /** The batch loop of render: passes until the drawn pixels reach the bound of the current grid size. */
  method DrawBatch(s0: Scan, dragging: bool) returns (s: Scan, drawn: seq<Pixel>, steps: nat)
    requires Valid(s0)
    ensures Batch(s0, dragging, s, drawn, steps) && |drawn| == Bound(dragging, s.pmax)
  {
    s, drawn, steps := s0, [], 0;
    var iterations := 0;
    while iterations < Bound(dragging, s.pmax)
      invariant Batch(s0, dragging, s, drawn, steps) && iterations == |drawn|
      decreases Measure(s, dragging, iterations)
    {
      BatchStep(s0, dragging, s, drawn, steps);
      var need := Draws(s);
      var pixel := PixelOf(Wrap(s));
      s := Advance(s);
      if need {
        iterations := iterations + 1;
        drawn := drawn + [pixel];
      }
      steps := steps + 1;
    }
  }

  /**
    render: one batch. Starting from `s0`, the scan advances cell by cell
    and draws the cells that need drawing; it stops as soon as it has drawn
    as many pixels as the bound for the current grid size. The batch is
    therefore the shortest run of passes whose drawn pixels reach the
    bound; it ends on a drawn cell. The image is marked complete when the
    batch ends in the last row of the image.
   */
  method Render(s0: Scan, dragging: bool, empty: bool) returns (s: Scan, drawn: seq<Pixel>, stillEmpty: bool, steps: nat)
    requires Valid(s0)
    ensures Valid(s) && s == AdvanceN(s0, steps) && drawn == DrawsOf(s0, steps)
    ensures |drawn| == Bound(dragging, s.pmax)
    ensures forall m :: 0 <= m < steps ==> Unfinished(s0, dragging, m)
    ensures steps > 0 && Draws(AdvanceN(s0, steps - 1))
    ensures stillEmpty == (empty && s.row != SzImg - 1)
  {
    s, drawn, steps := DrawBatch(s0, dragging);
    UnfinishedAll(s0, dragging, steps);
    stillEmpty := empty && !(s.row == SzImg - 1);
  }

  /** What resetRender leaves: the scan state, the done flag, and whether photons are emitted again. */
  datatype Restart = Restart(scan: Scan, empty: bool, emit: bool)

  /**
    resetRender: the scan starts over at the first cell of the first
    level, the image is marked incomplete, and the photons are re-emitted
    exactly when photon lighting is on in the 2D view.
   */
  function ResetRender(lightPhotons: bool, view3D: bool): (r: Restart)
    ensures r.scan == Reset() && r.empty
    ensures r.emit <==> lightPhotons && !view3D
  {
    Restart(Reset(), true, lightPhotons && !view3D)
  }
}
