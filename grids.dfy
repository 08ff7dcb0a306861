/** The dungeon's cells as a value: a flat buffer of `width*height` symbols,
    stored row by row, so that the cell at column x of row y sits at index
    `y*width + x`. */
module Grids {

  /** A cell position: x is the column, y the row. */
  datatype Point = Point(x: int, y: int)

  /** 0 <= y*w + x < w*h for every in-bounds (x, y): the flat index of a
      cell lies inside the buffer. */
  lemma IndexInRange(w: int, h: int, x: int, y: int)
    requires 0 <= x < w && 0 <= y < h
    ensures 0 <= y * w + x < w * h
  {
    assert y * w >= 0;
    assert (h - 1 - y) * w >= 0;
    assert y * w + w <= h * w by {
      assert (h - 1 - y) * w == h * w - y * w - w;
    }
  }

  /** d*w >= w for every d >= 1 and w >= 0. */
  lemma MulAtLeast(d: int, w: int)
    requires d >= 1 && w >= 0
    ensures d * w >= w
  {
    assert (d - 1) * w >= 0;
    assert d * w == (d - 1) * w + w;
  }

  /** Two in-bounds cells share a flat index only if they are the same cell. */
  lemma IndexInjective(w: int, x1: int, y1: int, x2: int, y2: int)
    requires 0 <= x1 < w && 0 <= x2 < w && 0 <= y1 && 0 <= y2
    requires y1 * w + x1 == y2 * w + x2
    ensures x1 == x2 && y1 == y2
  {
    if y1 != y2 {
      var lo, hi := if y1 < y2 then y1 else y2, if y1 < y2 then y2 else y1;
      assert (hi - lo) * w == hi * w - lo * w;
      MulAtLeast(hi - lo, w);
      assert false;
    }
  }

  /** Flat index i of a buffer w cells wide, with i below w*h, is the cell
      in column i % w of row i / w. */
  lemma CellOfIndex(w: int, h: int, i: int)
    requires w > 0 && 0 <= i < w * h
    ensures 0 <= i % w < w && 0 <= i / w < h && (i / w) * w + i % w == i
  {
    var q, r := i / w, i % w;
    assert q * w + r == i;
    if q >= h {
      MulAtLeast(q - h + 1, w);
      assert false;
    }
  }

  /** The cell at column x of row y has flat index y*w + x, and no other. */
  lemma IndexOfCell(w: int, x: int, y: int)
    requires 0 <= x < w && 0 <= y
    ensures (y * w + x) / w == y && (y * w + x) % w == x
  {
    var i := y * w + x;
    assert y * w >= 0;
    var q, r := i / w, i % w;
    assert q * w + r == i;
    IndexInjective(w, r, q, x, y);
  }

  datatype Grid = Grid(width: int, height: int, cells: seq<char>) {

    /** The shape every dungeon has: both sides at least 8 (the input clamp
        guarantees it) and one symbol per cell. */
    predicate Valid() {
      width >= 8 && height >= 8 && |cells| == width * height
    }

    predicate InBounds(p: Point) {
      0 <= p.x < width && 0 <= p.y < height
    }

    /** The outer ring: row 0, row height-1, column 0 and column width-1. */
    predicate OnBorder(p: Point) {
      p.x == 0 || p.x == width - 1 || p.y == 0 || p.y == height - 1
    }

    predicate Interior(p: Point) {
      1 <= p.x <= width - 2 && 1 <= p.y <= height - 2
    }

    function Index(p: Point): (i: int)
      requires Valid() && InBounds(p)
      ensures 0 <= i < |cells|
    {
      IndexInRange(width, height, p.x, p.y);
      p.y * width + p.x
    }

    /** The symbol at p. */
    function At(p: Point): char
      requires Valid() && InBounds(p)
    {
      cells[Index(p)]
    }

    /** The grid with the cell at p overwritten by c: that cell reads c
        (every other cell is unchanged, by `SetOther`). */
    function Set(p: Point, c: char): (g: Grid)
      requires Valid() && InBounds(p)
      ensures g.Valid() && g.width == width && g.height == height
      ensures g.At(p) == c
    {
      Grid(width, height, cells[Index(p) := c])
    }

    /** The symbols of column x in rows 1 .. height-2, top to bottom (the rows
        a marker may be placed in). */
    function Column(x: int): (col: seq<char>)
      requires Valid() && 0 <= x < width
      ensures |col| == height - 2
      ensures forall i :: 0 <= i < height - 2 ==> col[i] == At(Point(x, i + 1))
    {
      seq(height - 2, i requires 0 <= i < height - 2 => At(Point(x, i + 1)))
    }

    /** Every cell of the outer ring is a wall. */
    ghost predicate BorderIsWall()
      requires Valid()
    {
      forall p :: InBounds(p) && OnBorder(p) ==> At(p) == 'w'
    }

    /** The player marker 'P' appears nowhere but at pos, and it does appear
        there while the player is alive. */
    ghost predicate PlayerMarked(pos: Point, alive: bool)
      requires Valid()
    {
      && (forall p :: InBounds(p) && At(p) == 'P' ==> p == pos)
      && (alive ==> InBounds(pos) && At(pos) == 'P')
    }

    /** The exit is an interior cell that still shows 'X' unless the player
        stands on it. */
    ghost predicate ExitMarked(pos: Point, exit: Point)
      requires Valid()
    {
      Interior(exit) && (At(exit) == 'X' || pos == exit)
    }
  }

  /** Two grids of one size that agree on every cell are the same grid. */
  lemma GridsEqual(a: Grid, b: Grid)
    requires a.Valid() && b.Valid() && a.width == b.width && a.height == b.height
    requires forall p :: a.InBounds(p) ==> a.At(p) == b.At(p)
    ensures a == b
  {
    forall i | 0 <= i < |a.cells|
      ensures a.cells[i] == b.cells[i]
    {
      CellOfIndex(a.width, a.height, i);
      var p := Point(i % a.width, i / a.width);
      assert a.Index(p) == i;
      assert a.At(p) == b.At(p);
    }
  }

  /** Overwriting the cell at p leaves every other cell reading what it read
      before. */
  lemma SetOther(g: Grid, p: Point, c: char, q: Point)
    requires g.Valid() && g.InBounds(p) && g.InBounds(q) && q != p
    ensures g.Set(p, c).At(q) == g.At(q)
  {
    if g.Index(q) == g.Index(p) {
      IndexInjective(g.width, q.x, q.y, p.x, p.y);
    }
  }

  /** SetOther for every cell at once. */
  lemma SetFrame(g: Grid, p: Point, c: char)
    requires g.Valid() && g.InBounds(p)
    ensures forall q :: g.InBounds(q) && q != p ==> g.Set(p, c).At(q) == g.At(q)
  {
    forall q | g.InBounds(q) && q != p
      ensures g.Set(p, c).At(q) == g.At(q)
    {
      SetOther(g, p, c, q);
    }
  }

  /** Writing back the symbol a cell already holds changes nothing. */
  lemma SetUnchanged(g: Grid, p: Point)
    requires g.Valid() && g.InBounds(p)
    ensures g.Set(p, g.At(p)) == g
  {
    assert g.Set(p, g.At(p)).cells == g.cells;
  }

  /** The second of two writes to one cell is the only one that shows. */
  lemma SetTwice(g: Grid, p: Point, a: char, b: char)
    requires g.Valid() && g.InBounds(p)
    ensures g.Set(p, a).Set(p, b) == g.Set(p, b)
  {
    assert g.Set(p, a).Set(p, b).cells == g.Set(p, b).cells;
  }

  /** The number of vacant (' ') cells in s. */
  function Vacancies(s: seq<char>): (n: nat)
    ensures n <= |s|
  {
    if s == [] then 0 else (if s[0] == ' ' then 1 else 0) + Vacancies(s[1..])
  }

  lemma {:induction false} VacanciesAppend(a: seq<char>, b: seq<char>)
    ensures Vacancies(a + b) == Vacancies(a) + Vacancies(b)
  {
    if a == [] {
      assert a + b == b;
    } else {
      assert (a + b)[1..] == a[1..] + b;
      VacanciesAppend(a[1..], b);
    }
  }

  /** A sequence holding a vacant cell has a vacancy. */
  lemma {:induction false} VacancyCounted(s: seq<char>, k: int)
    requires 0 <= k < |s| && s[k] == ' '
    ensures Vacancies(s) > 0
  {
    if k > 0 {
      VacancyCounted(s[1..], k - 1);
    }
  }
}
