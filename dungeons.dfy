/** The dungeon buffer and its generation: the flat `char` buffer with its
    cell accessors, the random object for an interior cell, the placement of
    a marker in a column, and create_dungeon. */
module Dungeons {
  import opened Grids
  import opened Random

  /** The symbols generate_dungeon_object can produce. */
  predicate IsObject(c: char) {
    c == ' ' || c == 'E' || c == 'H' || c == 'T' || c == 'F' || c == 'w'
  }

  /** The object for an interior cell from the draws `first` and `second`:
      empty unless `first % 100 < 20`; then `second % 100` picks from
      "EHTFwww" in buckets of 15. */
  function DungeonObject(first: Draw, second: Draw): (c: char)
    ensures c == ' ' <==> first % 100 >= 20
    ensures first % 100 < 20 ==>
      var r := second % 100;
      && (c == 'E' <==> r < 15)
      && (c == 'H' <==> 15 <= r < 30)
      && (c == 'T' <==> 30 <= r < 45)
      && (c == 'F' <==> 45 <= r < 60)
      && (c == 'w' <==> 60 <= r)
    ensures IsObject(c)
  {
    if first % 100 >= 20 then ' ' else "EHTFwww"[(second % 100) / 15]
  }

  /** The draws generate_dungeon_object takes to produce c: one for an empty
      cell, two otherwise. */
  function ObjectDraws(c: char): nat {
    if c == ' ' then 1 else 2
  }

  /** generate_dungeon_object: one draw decides whether the cell holds
      anything; only then is a second draw taken. */
  method GenerateDungeonObject(rng: Rng) returns (c: char)
    modifies rng
    ensures c == DungeonObject(rng.stream(old(rng.cursor)), rng.stream(old(rng.cursor) + 1))
    ensures rng.cursor == old(rng.cursor) + ObjectDraws(c)
  {
    var random := rng.Next();
    if random % 100 >= 20 {
      return ' ';
    }
    random := rng.Next();
    c := "EHTFwww"[(random % 100) / 15];
  }

  /** A run of generated objects and the draw index after it. */
  datatype Run = Run(objects: seq<char>, next: nat)

  /** k calls of generate_dungeon_object in a row, from draw `at` on (the
      `generate_n` over the interior cells of one row): the first object
      comes from the draws at `at`, and the rest of the run starts at the
      draw after it. */
  function Objects(s: nat -> Draw, at: nat, k: nat): (r: Run)
    ensures |r.objects| == k
    decreases k
  {
    if k == 0 then Run([], at)
    else
      var c := DungeonObject(s(at), s(at + 1));
      var rest := Objects(s, at + ObjectDraws(c), k - 1);
      Run([c] + rest.objects, rest.next)
  }

  /** Every object of a run is one generate_dungeon_object can produce, and
      the run takes one draw per empty cell and two per other object. */
  lemma {:induction false} ObjectsDraws(s: nat -> Draw, at: nat, k: nat)
    ensures var r := Objects(s, at, k);
            && (forall i :: 0 <= i < k ==> IsObject(r.objects[i]))
            && r.next == at + 2 * k - Vacancies(r.objects)
    decreases k
  {
    if k > 0 {
      var c := DungeonObject(s(at), s(at + 1));
      var rest := Objects(s, at + ObjectDraws(c), k - 1);
      ObjectsDraws(s, at + ObjectDraws(c), k - 1);
      assert ([c] + rest.objects)[1..] == rest.objects;
    }
  }

  /** Rows of generated objects and the draw index after them. */
  datatype Layout = Layout(rows: seq<seq<char>>, next: nat)

  /** h rows of w objects each, generated row after row from draw `at` on
      (the object loop of create_dungeon). */
  function Populate(s: nat -> Draw, at: nat, w: nat, h: nat): (r: Layout)
    ensures |r.rows| == h
    ensures forall i :: 0 <= i < h ==> |r.rows[i]| == w
    decreases h
  {
    if h == 0 then Layout([], at)
    else
      var row := Objects(s, at, w);
      var rest := Populate(s, row.next, w, h - 1);
      Layout([row.objects] + rest.rows, rest.next)
  }

  /** Every generated cell holds an object generate_dungeon_object can
      produce. */
  lemma {:induction false} PopulateObjects(s: nat -> Draw, at: nat, w: nat, h: nat)
    ensures forall i, j :: 0 <= i < h && 0 <= j < w ==> IsObject(Populate(s, at, w, h).rows[i][j])
    decreases h
  {
    if h > 0 {
      var row := Objects(s, at, w);
      var rest := Populate(s, row.next, w, h - 1);
      ObjectsDraws(s, at, w);
      PopulateObjects(s, row.next, w, h - 1);
      var r := Populate(s, at, w, h);
      forall i, j | 0 <= i < h && 0 <= j < w
        ensures IsObject(r.rows[i][j])
      {
        if i == 0 {
          assert r.rows[i] == row.objects;
          assert IsObject(row.objects[j]);
        } else {
          assert r.rows[i] == rest.rows[i - 1];
          assert IsObject(rest.rows[i - 1][j]);
        }
      }
    }
  }

  /** A cell of a w x h dungeon once the object loop is done: wall on the
      ring, the layout's object inside. */
  function FurnishedCell(w: int, h: int, lay: Layout, x: int, y: int): char
    requires 0 <= x < w && 0 <= y < h && |lay.rows| == h - 2
    requires forall i :: 0 <= i < h - 2 ==> |lay.rows[i]| == w - 2
  {
    if x == 0 || x == w - 1 || y == 0 || y == h - 1 then 'w' else lay.rows[y - 1][x - 1]
  }

  /** The buffer of create_dungeon after its wall loops and its object loop
      over the layout lay: the ring is wall and every interior cell holds the
      layout's object for it. */
  function Furnished(w: int, h: int, lay: Layout): (g: Grid)
    requires w >= 8 && h >= 8 && |lay.rows| == h - 2
    requires forall i :: 0 <= i < h - 2 ==> |lay.rows[i]| == w - 2
    ensures g.Valid() && g.width == w && g.height == h
    ensures forall p :: g.InBounds(p) ==> g.At(p) == if g.OnBorder(p) then 'w' else lay.rows[p.y - 1][p.x - 1]
  {
    assert w * h >= 0;
    var g := Grid(w, h, seq(w * h, i requires 0 <= i < w * h =>
                              CellOfIndex(w, h, i); FurnishedCell(w, h, lay, i % w, i / w)));
    assert forall p :: g.InBounds(p) ==> g.At(p) == if g.OnBorder(p) then 'w' else lay.rows[p.y - 1][p.x - 1] by {
      forall p | g.InBounds(p)
        ensures g.At(p) == if g.OnBorder(p) then 'w' else lay.rows[p.y - 1][p.x - 1]
      {
        IndexOfCell(w, p.x, p.y);
      }
    }
    g
  }

  /** The outcome of the placement scan down a column. */
  datatype Scan = Placed(index: nat, next: nat) | Missed(next: nat)

  /** The draw index after passing a cell: a vacant cell takes a draw. */
  function NextDraw(c: char, at: nat): nat {
    if c == ' ' then at + 1 else at
  }

  /** The scan of place_in_column from entry i of col on, with the next draw
      at `at`: each vacant entry takes one draw and gets the marker if its
      trial against n succeeds; occupied entries take no draw. */
  function ScanFrom(col: seq<char>, i: nat, s: nat -> Draw, at: nat, n: int): (r: Scan)
    requires i <= |col|
    ensures r.Placed? ==> i <= r.index < |col| && col[r.index] == ' '
    ensures r.Placed? ==> r.next == at + Vacancies(col[i..r.index]) + 1
    ensures r.Missed? ==> r.next == at + Vacancies(col[i..])
    decreases |col| - i
  {
    if i == |col| then Missed(at)
    else if col[i] == ' ' && TrialSucceeds(s(at), n) then Placed(i, at + 1)
    else
      var r := ScanFrom(col, i + 1, s, NextDraw(col[i], at), n);
      assert col[i..][1..] == col[i + 1..];
      assert r.Placed? ==> col[i..r.index][1..] == col[i + 1..r.index];
      r
  }

  /** The grid, the row chosen and the draw index after place_in_column. */
  datatype Placement = Placement(grid: Grid, row: int, next: nat)

  /** place_in_column on values: the letter goes to the first vacant cell of
      the column (rows 1 .. height-2, top to bottom) whose trial succeeds, and
      to defaultRow when the column has no vacant cell or no trial succeeds.
      Exactly that one cell changes. */
  function Place(g: Grid, column: int, letter: char, defaultRow: int, s: nat -> Draw, at: nat): (r: Placement)
    requires g.Valid() && 0 <= column < g.width && 0 <= defaultRow < g.height
    ensures 0 <= r.row < g.height
    ensures 1 <= defaultRow <= g.height - 2 ==> 1 <= r.row <= g.height - 2
    ensures r.grid == g.Set(Point(column, r.row), letter)
    ensures var col := g.Column(column);
            var scan := ScanFrom(col, 0, s, at, Vacancies(col));
            && r.next == scan.next
            && (scan.Placed? ==> r.row == scan.index + 1 && g.At(Point(column, r.row)) == ' ')
            && (scan.Missed? ==> r.row == defaultRow)
            && (Vacancies(col) == 0 ==> scan.Missed?)
  {
    var col := g.Column(column);
    var scan := ScanFrom(col, 0, s, at, Vacancies(col));
    assert scan.Placed? ==> Vacancies(col) > 0 by {
      if scan.Placed? {
        VacancyCounted(col, scan.index);
      }
    }
    var row := if scan.Placed? then scan.index + 1 else defaultRow;
    Placement(g.Set(Point(column, row), letter), row, scan.next)
  }

  /** One step of the scan: entry i either takes the marker or is passed. */
  lemma ScanStep(col: seq<char>, i: nat, s: nat -> Draw, at: nat, n: int)
    requires i < |col|
    ensures ScanFrom(col, i, s, at, n) ==
            if col[i] == ' ' && TrialSucceeds(s(at), n) then Placed(i, at + 1)
            else ScanFrom(col, i + 1, s, NextDraw(col[i], at), n)
  {
  }

  lemma VacanciesStep(col: seq<char>, i: int, j: int)
    requires 0 <= i < j <= |col|
    ensures Vacancies(col[i..j]) == (if col[i] == ' ' then 1 else 0) + Vacancies(col[i + 1..j])
  {
    assert col[i..j][1..] == col[i + 1..j];
  }

  /** Entry j (at or below entry i) is vacant and wins its trial, its draw
      being the one after those of the vacant entries from i to above j. */
  predicate Wins(col: seq<char>, i: nat, s: nat -> Draw, at: nat, n: int, j: int)
    requires i <= j < |col|
  {
    col[j] == ' ' && TrialSucceeds(s(at + Vacancies(col[i..j])), n)
  }

  lemma WinsShift(col: seq<char>, i: nat, s: nat -> Draw, at: nat, n: int, j: int)
    requires i < j < |col|
    ensures Wins(col, i, s, at, n, j) == Wins(col, i + 1, s, NextDraw(col[i], at), n, j)
  {
    VacanciesStep(col, i, j);
  }

  /** The scan places the marker at entry k exactly when entry k wins its
      trial and no entry above it does. */
  lemma {:induction false} ScanPicksFirst(col: seq<char>, i: nat, s: nat -> Draw, at: nat, n: int, k: int)
    requires i <= k < |col|
    ensures (ScanFrom(col, i, s, at, n).Placed? && ScanFrom(col, i, s, at, n).index == k) <==>
            (Wins(col, i, s, at, n, k) && forall j :: i <= j < k ==> !Wins(col, i, s, at, n, j))
    decreases |col| - i
  {
    assert col[i..i] == [];
    if !Wins(col, i, s, at, n, i) && k > i {
      var i', at' := i + 1, NextDraw(col[i], at);
      ScanPicksFirst(col, i', s, at', n, k);
      WinsShift(col, i, s, at, n, k);
      forall j | i' <= j < k
        ensures Wins(col, i, s, at, n, j) == Wins(col, i', s, at', n, j)
      {
        WinsShift(col, i, s, at, n, j);
      }
      assert ScanFrom(col, i, s, at, n) == ScanFrom(col, i', s, at', n);
    }
  }

  /** The scan misses exactly when no vacant entry wins its trial. */
  lemma {:induction false} ScanMisses(col: seq<char>, i: nat, s: nat -> Draw, at: nat, n: int)
    requires i <= |col|
    ensures ScanFrom(col, i, s, at, n).Missed? <==> forall j :: i <= j < |col| ==> !Wins(col, i, s, at, n, j)
    decreases |col| - i
  {
    if i < |col| {
      assert col[i..i] == [];
      if !Wins(col, i, s, at, n, i) {
        var i', at' := i + 1, NextDraw(col[i], at);
        ScanMisses(col, i', s, at', n);
        forall j | i' <= j < |col|
          ensures Wins(col, i, s, at, n, j) == Wins(col, i', s, at', n, j)
        {
          WinsShift(col, i, s, at, n, j);
        }
        assert ScanFrom(col, i, s, at, n) == ScanFrom(col, i', s, at', n);
      }
    }
  }

  /** The dungeon: a flat buffer of width*height cells, stored row by row. */
  class Dungeon {
    const width: int
    const height: int
    const cells: array<char>

    ghost predicate Valid() {
      width >= 8 && height >= 8 && cells.Length == width * height
    }

    /** The contents of the buffer as a value. */
    function Value(): (g: Grid)
      reads cells
      ensures g.width == width && g.height == height
      ensures Valid() ==> g.Valid()
    {
      Grid(width, height, cells[..])
    }

    /** `new char[width*height]` filled with ' '. */
    constructor (width: int, height: int)
      requires width >= 8 && height >= 8
      ensures Valid() && this.width == width && this.height == height
      ensures fresh(cells)
      ensures forall i :: 0 <= i < cells.Length ==> cells[i] == ' '
    {
      this.width := width;
      this.height := height;
      assert width * height >= 0;
      cells := new char[width * height](_ => ' ');
    }

    /** get_object: the cell at index `y*width + x` is the symbol at p. */
    function Get(p: Point): (c: char)
      reads cells
      requires Valid() && Value().InBounds(p)
      ensures c == Value().At(p)
    {
      IndexInRange(width, height, p.x, p.y);
      cells[p.y * width + p.x]
    }

    /** set_object: the write through index `y*width + x` changes the cell at
        p and no other. */
    method SetObject(p: Point, letter: char)
      requires Valid() && Value().InBounds(p)
      modifies cells
      ensures Value() == old(Value()).Set(p, letter)
    {
      IndexInRange(width, height, p.x, p.y);
      cells[p.y * width + p.x] := letter;
    }

    /** The counting loop of place_in_column: the number of vacant cells in
        rows 1 .. height-2 of column. */
    method CountVacant(column: int) returns (n: int)
      requires Valid() && 0 <= column < width
      ensures n == Vacancies(Value().Column(column))
    {
      ghost var col := Value().Column(column);
      n := 0;
      var y := 1;
      while y < height - 1
        invariant 1 <= y <= height - 1
        invariant n == Vacancies(col[..y - 1])
      {
        assert col[..y] == col[..y - 1] + [col[y - 1]];
        VacanciesAppend(col[..y - 1], [col[y - 1]]);
        if Get(Point(column, y)) == ' ' {
          n := n + 1;
        }
        y := y + 1;
      }
      assert col[..height - 2] == col;
    }

    /** place_in_column: the buffer, the returned row and the draws are
        those of `Place`. */
    method PlaceInColumn(column: int, letter: char, defaultRow: int, rng: Rng, ghost g: Grid, ghost at: nat) returns (row: int)
      requires Valid() && Value() == g && rng.cursor == at && 0 <= column < width && 0 <= defaultRow < height
      modifies cells, rng
      ensures var r := Place(g, column, letter, defaultRow, rng.stream, at);
              Value() == r.grid && row == r.row && rng.cursor == r.next
    {
      var nVacant := CountVacant(column);
      var placed := false;
      row := defaultRow;
      if nVacant > 0 {
        placed, row := ScanColumn(column, letter, nVacant, rng);
      }
      if !placed {
        SetObject(Point(column, defaultRow), letter);
        row := defaultRow;
      }
    }

    /** The scan loop of place_in_column: down rows 1 .. height-2, each vacant
        cell takes a draw, and the first whose trial against n succeeds gets
        the letter. Nothing changes when no trial succeeds, and the row is
        then unspecified, as the uninitialised placed_row is. */
    method ScanColumn(column: int, letter: char, n: int, rng: Rng) returns (placed: bool, row: int)
      requires Valid() && 0 <= column < width
      modifies cells, rng
      ensures var scan := ScanFrom(old(Value()).Column(column), 0, rng.stream, old(rng.cursor), n);
              && rng.cursor == scan.next
              && placed == scan.Placed?
              && (placed ==> row == scan.index + 1 && 1 <= row <= height - 2)
      ensures placed ==> Value() == old(Value()).Set(Point(column, row), letter)
      ensures !placed ==> Value() == old(Value())
    {
      ghost var col := Value().Column(column);
      ghost var s := rng.stream;
      ghost var c0 := rng.cursor;
      placed, row := false, 0;
      var y := 1;
      while y < height - 1 && !placed
        invariant 1 <= y <= height - 1
        invariant !placed ==> Value() == old(Value())
        invariant !placed ==> ScanFrom(col, 0, s, c0, n) == ScanFrom(col, y - 1, s, rng.cursor, n)
        invariant placed ==> 1 <= row <= height - 2
        invariant placed ==> ScanFrom(col, 0, s, c0, n) == Placed(row - 1, rng.cursor)
        invariant placed ==> Value() == old(Value()).Set(Point(column, row), letter)
      {
        placed := ScanCell(column, y, letter, n, rng);
        if placed {
          row := y;
        }
        y := y + 1;
      }
    }

    /** One pass of the scan loop at row y: a vacant cell takes a draw and,
        if its trial against n succeeds, gets the letter. */
    method ScanCell(column: int, y: int, letter: char, n: int, rng: Rng) returns (placed: bool)
      requires Valid() && 0 <= column < width && 1 <= y <= height - 2
      modifies cells, rng
      ensures placed ==> ScanFrom(old(Value()).Column(column), y - 1, rng.stream, old(rng.cursor), n) == Placed(y - 1, rng.cursor)
      ensures placed ==> Value() == old(Value()).Set(Point(column, y), letter)
      ensures !placed ==> ScanFrom(old(Value()).Column(column), y - 1, rng.stream, old(rng.cursor), n)
                          == ScanFrom(old(Value()).Column(column), y, rng.stream, rng.cursor, n)
      ensures !placed ==> Value() == old(Value())
    {
      ghost var col := Value().Column(column);
      assert col[y - 1] == Value().At(Point(column, y));
      ScanStep(col, y - 1, rng.stream, rng.cursor, n);
      placed := false;
      if Get(Point(column, y)) == ' ' {
        var draw := rng.Next();
        if TrialSucceeds(draw, n) {
          SetObject(Point(column, y), letter);
          placed := true;
        }
      }
    }

    /** The two place_in_column calls of create_dungeon: the buffer, the
        marker positions and the draws are those of `Mark`. */
    method PlaceMarkers(rng: Rng, ghost g: Grid, ghost at: nat) returns (playerLoc: Point, exitLoc: Point)
      requires Valid() && Value() == g && rng.cursor == at
      modifies cells, rng
      ensures var c := Mark(g, rng.stream, at);
              Value() == c.grid && playerLoc == c.playerLoc && exitLoc == c.exitLoc && rng.cursor == c.next
    {
      ghost var player := Place(g, 1, 'P', 1, rng.stream, at);
      var playerRow := PlaceInColumn(1, 'P', 1, rng, g, at);
      playerLoc := Point(1, playerRow);
      var exitRow := PlaceInColumn(width - 2, 'X', height - 2, rng, player.grid, player.next);
      exitLoc := Point(width - 2, exitRow);
      MarkUnfold(g, width, height, rng.stream, at);
    }

    /** The walls and the object loop of create_dungeon: the outer ring
        becomes wall and the interior holds the objects generated from the
        next draws, row by row. */
    method Furnish(rng: Rng)
      requires Valid()
      modifies cells, rng
      ensures var lay := Populate(rng.stream, old(rng.cursor), width - 2, height - 2);
              Value() == Furnished(width, height, lay) && rng.cursor == lay.next
    {
      BuildWalls();
      ghost var walled := Value();
      ghost var at := rng.cursor;
      assert at == old(rng.cursor) && walled.width == width && walled.height == height;
      FillInterior(rng);
      FillFurnishes(walled, rng.stream, at);
    }

    /** The two wall loops of create_dungeon: the outer ring becomes wall and
        the interior is left as it was. */
    method BuildWalls()
      requires Valid()
      modifies cells
      ensures Value().BorderIsWall()
      ensures forall p :: Value().Interior(p) ==> Value().At(p) == old(Value()).At(p)
    {
      WallRows();
      WallColumns();
    }

    /** `fill_n` of 'w' over row 0 and over row height-1. */
    method WallRows()
      requires Valid()
      modifies cells
      ensures forall p :: Value().InBounds(p) && (p.y == 0 || p.y == height - 1) ==> Value().At(p) == 'w'
      ensures forall p :: Value().InBounds(p) && p.y != 0 && p.y != height - 1 ==> Value().At(p) == old(Value()).At(p)
    {
      var x := 0;
      while x < width
        invariant 0 <= x <= width
        invariant forall p :: Value().InBounds(p) && (p.y == 0 || p.y == height - 1) && p.x < x ==> Value().At(p) == 'w'
        invariant forall p :: Value().InBounds(p) && p.y != 0 && p.y != height - 1 ==> Value().At(p) == old(Value()).At(p)
      {
        SetFrame(Value(), Point(x, 0), 'w');
        SetObject(Point(x, 0), 'w');
        SetFrame(Value(), Point(x, height - 1), 'w');
        SetObject(Point(x, height - 1), 'w');
        x := x + 1;
      }
    }

    /** The loop that walls column 0 and column width-1 of rows 1 .. height-2,
        leaving rows 0 and height-1 as they were. */
    method WallColumns()
      requires Valid()
      requires forall p :: Value().InBounds(p) && (p.y == 0 || p.y == height - 1) ==> Value().At(p) == 'w'
      modifies cells
      ensures Value().BorderIsWall()
      ensures forall p :: Value().Interior(p) ==> Value().At(p) == old(Value()).At(p)
    {
      var y := 1;
      while y < height - 1
        invariant 1 <= y <= height - 1
        invariant forall p :: Value().InBounds(p) && (p.y == 0 || p.y == height - 1) ==> Value().At(p) == 'w'
        invariant forall p :: Value().InBounds(p) && 1 <= p.y < y && (p.x == 0 || p.x == width - 1) ==> Value().At(p) == 'w'
        invariant forall p :: Value().Interior(p) ==> Value().At(p) == old(Value()).At(p)
      {
        SetFrame(Value(), Point(0, y), 'w');
        SetObject(Point(0, y), 'w');
        SetFrame(Value(), Point(width - 1, y), 'w');
        SetObject(Point(width - 1, y), 'w');
        y := y + 1;
      }
    }

    /** The object loop of create_dungeon: the interior cells, row by row and
        left to right, get the objects generated from the next draws; the
        border is untouched. */
    method FillInterior(rng: Rng)
      requires Valid()
      modifies cells, rng
      ensures var f := Fill(old(Value()), 1, rng.stream, old(rng.cursor));
              Value() == f.grid && rng.cursor == f.next
    {
      ghost var s := rng.stream;
      var y := 1;
      while y < height - 1
        invariant 1 <= y <= height - 1
        invariant Fill(old(Value()), 1, s, old(rng.cursor)) == Fill(Value(), y, s, rng.cursor)
      {
        FillStep(Value(), y, s, rng.cursor);
        FillRow(y, rng);
        y := y + 1;
      }
    }

    /** One pass of the object loop: `generate_n` over the interior cells of
        row y, left to right, each taking its object from the next draws. */
    method FillRow(y: int, rng: Rng)
      requires Valid() && 1 <= y <= height - 2
      modifies cells, rng
      ensures var f := RowFill(old(Value()), y, 1, rng.stream, old(rng.cursor));
              Value() == f.grid && rng.cursor == f.next
    {
      ghost var s := rng.stream;
      var x := 1;
      while x < width - 1
        invariant 1 <= x <= width - 1
        invariant RowFill(old(Value()), y, 1, s, old(rng.cursor)) == RowFill(Value(), y, x, s, rng.cursor)
      {
        FillCell(x, y, rng);
        x := x + 1;
      }
    }

    /** One cell of the pass: the object generated from the next draws is
        written at column x of row y, so the rest of the pass from x is the
        rest of the pass from x + 1 after it. */
    method FillCell(x: int, y: int, rng: Rng)
      requires Valid() && 1 <= y <= height - 2 && 1 <= x < width - 1
      modifies cells, rng
      ensures var c := DungeonObject(rng.stream(old(rng.cursor)), rng.stream(old(rng.cursor) + 1));
              Value() == old(Value()).Set(Point(x, y), c) && rng.cursor == old(rng.cursor) + ObjectDraws(c)
      ensures RowFill(old(Value()), y, x, rng.stream, old(rng.cursor)) == RowFill(Value(), y, x + 1, rng.stream, rng.cursor)
    {
      RowFillStep(Value(), y, x, rng.stream, rng.cursor);
      var c := GenerateDungeonObject(rng);
      SetObject(Point(x, y), c);
    }
  }

  /** The grid and the draw index after (part of) the object loop. */
  datatype Filling = Filling(grid: Grid, next: nat)

  /** The symbols objs written into row y, left to right from column x. */
  function RowWrite(g: Grid, y: int, x: int, objs: seq<char>): (r: Grid)
    requires g.Valid() && 1 <= y <= g.height - 2 && 1 <= x && x + |objs| <= g.width - 1
    ensures r.Valid() && r.width == g.width && r.height == g.height
    decreases |objs|
  {
    if objs == [] then g else RowWrite(g.Set(Point(x, y), objs[0]), y, x + 1, objs[1..])
  }

  /** Writing objs into row y from column x sets columns x .. x+|objs|-1 of
      that row to objs, in order, and changes no other cell. */
  lemma {:induction false} RowWriteCell(g: Grid, y: int, x: int, objs: seq<char>, p: Point)
    requires g.Valid() && 1 <= y <= g.height - 2 && 1 <= x && x + |objs| <= g.width - 1 && g.InBounds(p)
    ensures RowWrite(g, y, x, objs).At(p) == if p.y == y && x <= p.x < x + |objs| then objs[p.x - x] else g.At(p)
    decreases |objs|
  {
    if objs != [] {
      RowWriteCell(g.Set(Point(x, y), objs[0]), y, x + 1, objs[1..], p);
      if p.y == y && x < p.x < x + |objs| {
        assert objs[1..][p.x - x - 1] == objs[p.x - x];
      } else if p != Point(x, y) {
        SetOther(g, Point(x, y), objs[0], p);
      }
    }
  }

  /** The rows written into the interior of the grid, row i into row y + i. */
  function LayoutWrite(g: Grid, y: int, rows: seq<seq<char>>): (r: Grid)
    requires g.Valid() && 1 <= y && y + |rows| <= g.height - 1
    requires forall i :: 0 <= i < |rows| ==> |rows[i]| == g.width - 2
    ensures r.Valid() && r.width == g.width && r.height == g.height
    decreases |rows|
  {
    if rows == [] then g else LayoutWrite(RowWrite(g, y, 1, rows[0]), y + 1, rows[1..])
  }

  /** Writing the rows from row y on sets the interior of row y + i to
      rows[i] and changes no other cell. */
  lemma {:induction false} LayoutWriteCell(g: Grid, y: int, rows: seq<seq<char>>, p: Point)
    requires g.Valid() && 1 <= y && y + |rows| <= g.height - 1 && g.InBounds(p)
    requires forall i :: 0 <= i < |rows| ==> |rows[i]| == g.width - 2
    ensures LayoutWrite(g, y, rows).At(p)
         == if y <= p.y < y + |rows| && 1 <= p.x <= g.width - 2 then rows[p.y - y][p.x - 1] else g.At(p)
    decreases |rows|
  {
    if rows != [] {
      var g' := RowWrite(g, y, 1, rows[0]);
      RowWriteCell(g, y, 1, rows[0], p);
      LayoutWriteCell(g', y + 1, rows[1..], p);
      if y < p.y < y + |rows| && 1 <= p.x <= g.width - 2 {
        assert rows[1..][p.y - y - 1] == rows[p.y - y];
      }
    }
  }

  /** The rest of one pass of the object loop over row y, from column x on,
      with the next draw at `at`: the cells x .. width-2 of the row get the
      run of objects generated from `at`. */
  function RowFill(g: Grid, y: int, x: int, s: nat -> Draw, at: nat): (r: Filling)
    requires g.Valid() && 1 <= y <= g.height - 2 && 1 <= x <= g.width - 1
    ensures r.grid.Valid() && r.grid.width == g.width && r.grid.height == g.height
  {
    var run := Objects(s, at, g.width - 1 - x);
    Filling(RowWrite(g, y, x, run.objects), run.next)
  }

  /** One step of the pass: the rest of the pass from column x is the object
      of the draws at `at` in column x, then the rest of the pass from x + 1
      with the draws after it. */
  lemma RowFillStep(g: Grid, y: int, x: int, s: nat -> Draw, at: nat)
    requires g.Valid() && 1 <= y <= g.height - 2 && 1 <= x < g.width - 1
    ensures var c := DungeonObject(s(at), s(at + 1));
            RowFill(g, y, x, s, at) == RowFill(g.Set(Point(x, y), c), y, x + 1, s, at + ObjectDraws(c))
  {
    var c := DungeonObject(s(at), s(at + 1));
    var run, rest := Objects(s, at, g.width - 1 - x), Objects(s, at + ObjectDraws(c), g.width - 2 - x);
    assert run.objects[1..] == rest.objects;
  }

  /** The rest of the object loop, from row y on: the interior of rows
      y .. height-2 gets the layout generated from `at`. */
  function Fill(g: Grid, y: int, s: nat -> Draw, at: nat): (r: Filling)
    requires g.Valid() && 1 <= y <= g.height - 1
    ensures r.grid.Valid() && r.grid.width == g.width && r.grid.height == g.height
  {
    var lay := Populate(s, at, g.width - 2, g.height - 1 - y);
    Filling(LayoutWrite(g, y, lay.rows), lay.next)
  }

  /** One step of the object loop: the rest of the loop from row y is a full
      pass over row y, then the rest of the loop from row y + 1 with the
      draws after that pass. */
  lemma FillStep(g: Grid, y: int, s: nat -> Draw, at: nat)
    requires g.Valid() && 1 <= y < g.height - 1
    ensures var f := RowFill(g, y, 1, s, at);
            Fill(g, y, s, at) == Fill(f.grid, y + 1, s, f.next)
  {
    var lay, row := Populate(s, at, g.width - 2, g.height - 1 - y), Objects(s, at, g.width - 2);
    var rest := Populate(s, row.next, g.width - 2, g.height - 2 - y);
    assert lay.rows[0] == row.objects && lay.rows[1..] == rest.rows;
  }

  /** The object loop over any walled grid leaves the furnished grid of the
      layout generated from `at`, and ends where the layout ends. */
  lemma FillFurnishes(walled: Grid, s: nat -> Draw, at: nat)
    requires walled.Valid() && walled.BorderIsWall()
    ensures var f, lay := Fill(walled, 1, s, at), Populate(s, at, walled.width - 2, walled.height - 2);
            f.grid == Furnished(walled.width, walled.height, lay) && f.next == lay.next
  {
    LayoutFurnishes(walled, Populate(s, at, walled.width - 2, walled.height - 2));
  }

  /** Writing a layout of the interior's size into a walled grid, from row 1,
      gives the furnished grid of that layout. */
  lemma LayoutFurnishes(walled: Grid, lay: Layout)
    requires walled.Valid() && walled.BorderIsWall() && |lay.rows| == walled.height - 2
    requires forall i :: 0 <= i < |lay.rows| ==> |lay.rows[i]| == walled.width - 2
    ensures LayoutWrite(walled, 1, lay.rows) == Furnished(walled.width, walled.height, lay)
  {
    var g := LayoutWrite(walled, 1, lay.rows);
    var furnished := Furnished(walled.width, walled.height, lay);
    forall p | g.InBounds(p)
      ensures g.At(p) == furnished.At(p)
    {
      LayoutWriteCell(walled, 1, lay.rows, p);
      if g.OnBorder(p) {
        assert g.At(p) == walled.At(p) == 'w';
      } else {
        assert g.At(p) == lay.rows[p.y - 1][p.x - 1];
      }
    }
    GridsEqual(g, furnished);
  }

  /** What create_dungeon returns: the buffer, the two marker positions, and
      the draw index after it. */
  datatype Creation = Creation(grid: Grid, playerLoc: Point, exitLoc: Point, next: nat)

  /** create_dungeon on values, from draw `at` of s: the walled grid with the
      layout generated from `at` inside, then the two markers placed from the
      draw after the layout. */
  ghost function Generate(w: int, h: int, s: nat -> Draw, at: nat): (c: Creation)
    requires w >= 8 && h >= 8
    ensures c.grid.Valid() && c.grid.width == w && c.grid.height == h
    ensures c.playerLoc.x == 1 && 1 <= c.playerLoc.y <= h - 2
    ensures c.exitLoc.x == w - 2 && 1 <= c.exitLoc.y <= h - 2
  {
    var lay := Populate(s, at, w - 2, h - 2);
    Mark(Furnished(w, h, lay), s, lay.next)
  }

  /** The two place_in_column calls of create_dungeon on g, from draw `at`:
      'P' in column 1 (default row 1), then 'X' in column width-2 (default
      row height-2) of the grid holding 'P'. */
  function Mark(g: Grid, s: nat -> Draw, at: nat): (c: Creation)
    requires g.Valid()
    ensures c.grid.Valid() && c.grid.width == g.width && c.grid.height == g.height
  {
    var player := Place(g, 1, 'P', 1, s, at);
    var exit := Place(player.grid, g.width - 2, 'X', g.height - 2, s, player.next);
    Creation(exit.grid, Point(1, player.row), Point(g.width - 2, exit.row), exit.next)
  }

  /** Mark on a grid of width w and height h, with the exit column and
      default row written in terms of w and h. */
  lemma MarkUnfold(g: Grid, w: int, h: int, s: nat -> Draw, at: nat)
    requires g.Valid() && g.width == w && g.height == h
    ensures var player := Place(g, 1, 'P', 1, s, at);
            var exit := Place(player.grid, w - 2, 'X', h - 2, s, player.next);
            Mark(g, s, at) == Creation(exit.grid, Point(1, player.row), Point(w - 2, exit.row), exit.next)
  {
  }

  /** create_dungeon for a width and height of at least 8: a fresh buffer of
      that size with exactly the cells, markers and draws of `Generate`. */
  method CreateDungeon(width: int, height: int, rng: Rng) returns (d: Dungeon, playerLoc: Point, exitLoc: Point)
    requires width >= 8 && height >= 8
    modifies rng
    ensures fresh(d) && fresh(d.cells)
    ensures d.Valid() && d.width == width && d.height == height
    ensures var c := Generate(width, height, rng.stream, old(rng.cursor));
            d.Value() == c.grid && playerLoc == c.playerLoc && exitLoc == c.exitLoc && rng.cursor == c.next
  {
    d := new Dungeon(width, height);
    d.Furnish(rng);
    ghost var lay := Populate(rng.stream, old(rng.cursor), width - 2, height - 2);
    playerLoc, exitLoc := d.PlaceMarkers(rng, Furnished(width, height, lay), lay.next);
  }

  /** A generated dungeon is walled; 'P' and 'X' stand at the markers, 'P'
      nowhere else; every other cell holds an object generate_dungeon_object
      can produce. */
  lemma GenerateShape(w: int, h: int, s: nat -> Draw, at: nat)
    requires w >= 8 && h >= 8
    ensures var c := Generate(w, h, s, at);
            && c.grid.BorderIsWall()
            && c.playerLoc.x == 1 && 1 <= c.playerLoc.y <= h - 2
            && c.exitLoc.x == w - 2 && 1 <= c.exitLoc.y <= h - 2
            && c.grid.At(c.playerLoc) == 'P' && c.grid.At(c.exitLoc) == 'X'
            && (forall p :: c.grid.InBounds(p) && p != c.playerLoc && p != c.exitLoc ==> IsObject(c.grid.At(p)))
            && c.grid.PlayerMarked(c.playerLoc, true) && c.grid.ExitMarked(c.playerLoc, c.exitLoc)
  {
    var c := Generate(w, h, s, at);
    var lay := Populate(s, at, w - 2, h - 2);
    FurnishedObjects(w, h, s, at);
    MarkersPlaced(Furnished(w, h, lay), c.playerLoc, c.exitLoc);
  }

  /** The furnished grid of a generated layout is walled and holds only
      objects generate_dungeon_object can produce. */
  lemma FurnishedObjects(w: int, h: int, s: nat -> Draw, at: nat)
    requires w >= 8 && h >= 8
    ensures var g := Furnished(w, h, Populate(s, at, w - 2, h - 2));
            g.BorderIsWall() && forall p :: g.InBounds(p) ==> IsObject(g.At(p))
  {
    var lay := Populate(s, at, w - 2, h - 2);
    var g := Furnished(w, h, lay);
    PopulateObjects(s, at, w - 2, h - 2);
    forall p | g.InBounds(p)
      ensures IsObject(g.At(p))
    {
      if !g.OnBorder(p) {
        assert IsObject(lay.rows[p.y - 1][p.x - 1]);
      }
    }
  }

  /** Placing 'P' in column 1 and 'X' in column width-2 of an interior row
      each, on a walled grid holding only objects, gives a walled grid where
      every other cell is still an object and each marker is where it was
      placed. */
  lemma MarkersPlaced(g: Grid, playerLoc: Point, exitLoc: Point)
    requires g.Valid() && g.BorderIsWall()
    requires forall p :: g.InBounds(p) ==> IsObject(g.At(p))
    requires playerLoc.x == 1 && 1 <= playerLoc.y <= g.height - 2
    requires exitLoc.x == g.width - 2 && 1 <= exitLoc.y <= g.height - 2
    ensures var r := g.Set(playerLoc, 'P').Set(exitLoc, 'X');
            && r.BorderIsWall()
            && r.At(playerLoc) == 'P' && r.At(exitLoc) == 'X'
            && (forall p :: r.InBounds(p) && p != playerLoc && p != exitLoc ==> IsObject(r.At(p)))
            && r.PlayerMarked(playerLoc, true) && r.ExitMarked(playerLoc, exitLoc)
  {
    var r := g.Set(playerLoc, 'P').Set(exitLoc, 'X');
    SetFrame(g, playerLoc, 'P');
    SetFrame(g.Set(playerLoc, 'P'), exitLoc, 'X');
  }

  /** The dimension rule of input_dimenions: if either side is below 8, the
      dungeon is 16 x 16; otherwise the sizes are kept. */
  function ClampDimensions(width: int, height: int): (r: (int, int))
    ensures r.0 >= 8 && r.1 >= 8
    ensures width >= 8 && height >= 8 ==> r == (width, height)
    ensures r != (width, height) ==> r == (16, 16)
  {
    if width < 8 || height < 8 then (16, 16) else (width, height)
  }
}
