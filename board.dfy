/**
 * The board (map/Map.java) and its implementation, the mine map (map/MineMap.java).
 *
 * The mine map keeps three parallel grids indexed [y, x]: the mine grid (BOOM on a
 * mine, otherwise the number of adjacent mines), the mark grid and the unprobed grid,
 * together with the mines-minus-marks counter and the finished, victory and probed
 * flags.  The random placement of the mines is not modelled: the constructor takes the
 * cells the placement loop chose as a parameter, and the ghost constant Mines records
 * them, so that every contract can speak of where the mines really are.
 */
module Board {
  import opened Sets
  import opened Points

  /* The result codes of Map.java; non-negative results are adjacent-mine counts. */
  const OUT_OF_BOUNDS: int := -4
  const MARKED: int := -3
  const UNPROBED: int := -2
  const BOOM: int := -1

  datatype Option<T> = None | Some(value: T)

  /** Java's `/` for a positive divisor: the quotient truncated toward zero. */
  function JavaDiv(a: int, b: int): (q: int)
    requires b > 0
    ensures 0 <= a ==> q * b <= a < q * b + b
    ensures a < 0 ==> q * b - b < a <= q * b
  {
    if 0 <= a then a / b else -((-a) / b)
  }

  /**
   * pick (MineMap.java): `raw` is floor(n * random), which rounding can make equal
   * to n; the exception for a non-positive n is None.
   */
  function Pick(n: int, raw: int): (r: Option<int>)
    requires n > 0 ==> 0 <= raw <= n
    ensures r.None? <==> n <= 0
    ensures r.Some? ==> 0 <= r.value < n
  {
    if n <= 0 then None
    else if raw >= n then Some(raw - n)
    else Some(raw)
  }

  /** The number of mines next to (x, y), the value a probe of a safe cell reports. */
  ghost function Adjacent(mines: set<Point>, x: int, y: int): nat {
    |Window(x, y) * mines|
  }

  /** The cells of a board with `r` rows and `c` columns. */
  ghost function Cells(r: int, c: int): set<Point> {
    Rect(0, c, 0, r)
  }

  /** A list of distinct cells of the board, as the placement loop chooses them. */
  ghost predicate IsLayout(layout: seq<Point>, r: int, c: int) {
    && (forall i :: 0 <= i < |layout| ==> layout[i] in Cells(r, c))
    && (forall i, j :: 0 <= i < j < |layout| ==> layout[i] != layout[j])
  }

  /*
   * The constructor's guard against odd parameters.
   */

  /** The guard as MineMap.java writes it: give up when mines / 2 >= rows * columns. */
  function PuntsAsWritten(mines: int, rows: int, columns: int): (b: bool)
    ensures 0 <= rows * columns ==>
      (b <==> mines >= 2 * (rows * columns) || (rows * columns == 0 && mines == -1))
  {
    JavaDiv(mines, 2) >= rows * columns
  }

  /**
   * The corrected guard: give up where the written guard does, and also when the
   * mines do not fit on the board, the one case where the placement loop cannot end.
   */
  function Punts(mines: int, rows: int, columns: int): (b: bool)
    requires 0 <= rows && 0 <= columns
    ensures PuntsAsWritten(mines, rows, columns) ==> b
    ensures !b ==> exists layout :: IsLayout(layout, rows, columns) && |layout| == Max0(mines)
    ensures b && !PuntsAsWritten(mines, rows, columns) ==>
      forall layout :: IsLayout(layout, rows, columns) ==> |layout| != Max0(mines)
  {
    if PuntsAsWritten(mines, rows, columns) then
      true
    else if mines > rows * columns then
      forall layout | IsLayout(layout, rows, columns)
        ensures |layout| != Max0(mines)
      {
        LayoutFits(layout, rows, columns);
      }
      true
    else
      RowMajorLayout(Max0(mines), rows, columns);
      false
  }

  function Max0(n: int): nat {
    if n < 0 then 0 else n
  }

  /** The first n cells in row-major order. */
  function FirstCells(n: nat, columns: int): (s: seq<Point>)
    requires columns > 0
    ensures |s| == n
  {
    seq(n, i requires 0 <= i => Point(i % columns, i / columns))
  }

  lemma RowMajorLayout(n: nat, rows: int, columns: int)
    requires 0 <= rows && 0 <= columns && n <= rows * columns
    ensures exists layout :: IsLayout(layout, rows, columns) && |layout| == n
  {
    if n == 0 {
      assert IsLayout([], rows, columns);
    } else {
      var s := FirstCells(n, columns);
      forall i | 0 <= i < n
        ensures s[i] in Cells(rows, columns)
      {
        assert i / columns < rows by {
          if i / columns >= rows {
            MulMono(rows, i / columns, columns);
          }
        }
      }
      forall i, j | 0 <= i < j < n
        ensures s[i] != s[j]
      {
        assert i == (i / columns) * columns + i % columns;
        assert j == (j / columns) * columns + j % columns;
      }
      assert IsLayout(s, rows, columns);
    }
  }

  /** A list of distinct cells of the board has at most rows * columns entries. */
  lemma LayoutFits(layout: seq<Point>, rows: int, columns: int)
    requires 0 <= rows && 0 <= columns && IsLayout(layout, rows, columns)
    ensures |layout| <= rows * columns
  {
    DistinctCard(layout);
    var cells := Cells(rows, columns);
    assert Elems(layout) <= cells;
    assert cells == Elems(layout) + (cells - Elems(layout));
    CellsCard(rows, columns);
  }

  lemma {:induction false} DistinctCard(s: seq<Point>)
    requires forall i, j :: 0 <= i < j < |s| ==> s[i] != s[j]
    ensures |Elems(s)| == |s|
  {
    if s != [] {
      DistinctCard(s[1..]);
      ElemsCons(s);
      assert s[0] !in s[1..];
    }
  }

  lemma CellsCard(rows: int, columns: int)
    requires 0 <= rows && 0 <= columns
    ensures |Cells(rows, columns)| == rows * columns
  {
    RectCountIsCard(Cells(rows, columns), 0, columns, 0, rows);
    FullRect(Cells(rows, columns), columns, rows);
    assert Cells(rows, columns) * Cells(rows, columns) == Cells(rows, columns);
  }

  lemma {:induction false} FullRow(s: set<Point>, y: int, x1: int)
    requires 0 <= x1 && Row(y, 0, x1) <= s
    ensures RowCount(s, y, 0, x1) == x1
    decreases x1
  {
    if x1 > 0 {
      assert Row(y, 0, x1 - 1) <= Row(y, 0, x1);
      FullRow(s, y, x1 - 1);
      assert Point(x1 - 1, y) in Row(y, 0, x1);
    }
  }

  lemma {:induction false} FullRect(s: set<Point>, x1: int, y1: int)
    requires 0 <= x1 && 0 <= y1 && Rect(0, x1, 0, y1) <= s
    ensures RectCount(s, 0, x1, 0, y1) == x1 * y1
    decreases y1
  {
    if y1 > 0 {
      assert Rect(0, x1, 0, y1 - 1) <= Rect(0, x1, 0, y1);
      FullRect(s, x1, y1 - 1);
      assert Row(y1 - 1, 0, x1) <= Rect(0, x1, 0, y1);
      FullRow(s, y1 - 1, x1);
    }
  }

  /**
   * The guard as written lets a board through that cannot hold its mines: with 5
   * mines on a 2 x 2 board it does not punt, yet no list of distinct cells has 5
   * entries, so the placement loop never ends.
   */
  lemma PuntsAsWrittenAdmitsOverfull()
    ensures !PuntsAsWritten(5, 2, 2)
    ensures Punts(5, 2, 2)
    ensures forall layout :: IsLayout(layout, 2, 2) ==> |layout| != 5
  {
    forall layout | IsLayout(layout, 2, 2) ensures |layout| != 5 {
      LayoutFits(layout, 2, 2);
    }
  }

  /**
   * The corrected guard departs from the written one only where the written one lets
   * through a board that cannot hold its mines.
   */
  lemma PuntsDiffersOnlyWhenOverfull(mines: int, rows: int, columns: int)
    requires 0 <= rows && 0 <= columns
    ensures Punts(mines, rows, columns) != PuntsAsWritten(mines, rows, columns) <==>
      !PuntsAsWritten(mines, rows, columns) && forall layout :: IsLayout(layout, rows, columns) ==> |layout| != Max0(mines)
  {
  }

  /*
   * The mine map.
   */

  /** Fill a fresh grid with one value, as the constructor's first loops do. */
  method Fill<T>(a: array2<T>, v: T)
    modifies a
    ensures forall y, x :: 0 <= y < a.Length0 && 0 <= x < a.Length1 ==> a[y, x] == v
  {
    for y := 0 to a.Length0
      invariant forall y', x :: 0 <= y' < y && 0 <= x < a.Length1 ==> a[y', x] == v
    {
      for x := 0 to a.Length1
        invariant forall y', x' :: 0 <= y' < y && 0 <= x' < a.Length1 ==> a[y', x'] == v
        invariant forall x' :: 0 <= x' < x ==> a[y, x'] == v
      {
        a[y, x] := v;
      }
    }
  }

  /** The placement loop, given the cells its random picks chose. */
  method PlaceMines(a: array2<int>, layout: seq<Point>)
    requires IsLayout(layout, a.Length0, a.Length1)
    requires forall y, x :: 0 <= y < a.Length0 && 0 <= x < a.Length1 ==> a[y, x] == 0
    modifies a
    ensures forall y, x :: 0 <= y < a.Length0 && 0 <= x < a.Length1 ==>
      a[y, x] == if Point(x, y) in layout then BOOM else 0
  {
    var k := |layout|;
    var i := 0;
    while k > 0
      invariant 0 <= i <= |layout| && k == |layout| - i
      invariant forall y, x :: 0 <= y < a.Length0 && 0 <= x < a.Length1 ==>
        a[y, x] == if Point(x, y) in layout[..i] then BOOM else 0
    {
      var p := layout[i];
      assert p in Cells(a.Length0, a.Length1);
      if a[p.y, p.x] >= 0 {
        a[p.y, p.x] := BOOM;
        k := k - 1;
      }
      assert layout[..i + 1] == layout[..i] + [p];
      i := i + 1;
    }
    assert layout[..i] == layout;
  }

  /** Within the board, the clipped window meets the mines where the full window does. */
  lemma ClippedWindow(mines: set<Point>, r: int, c: int, x: int, y: int)
    requires mines <= Cells(r, c)
    ensures Rect(Max(0, x - 1), Min(c, x + 2), Max(0, y - 1), Min(r, y + 2)) * mines
            == Window(x, y) * mines
  {
  }

  function Max(a: int, b: int): int { if a < b then b else a }
  function Min(a: int, b: int): int { if a < b then a else b }

  /** Cell (x, y) of the mine grid holds BOOM on a mine and its weight elsewhere. */
  ghost predicate CellWeighted(a: array2<int>, mines: set<Point>, x: int, y: int)
    reads a
    requires 0 <= y < a.Length0 && 0 <= x < a.Length1
  {
    a[y, x] == if Point(x, y) in mines then BOOM else Adjacent(mines, x, y)
  }

  /** Mines and the weights of safe cells: the invariant of the mine grid. */
  ghost predicate Weighted(a: array2<int>, mines: set<Point>)
    reads a
  {
    forall y, x :: 0 <= y < a.Length0 && 0 <= x < a.Length1 ==> CellWeighted(a, mines, x, y)
  }

  /** The mine grid is negative exactly on the mines, and BOOM there. */
  ghost predicate MinesMarked(a: array2<int>, mines: set<Point>)
    reads a
  {
    forall y, x :: 0 <= y < a.Length0 && 0 <= x < a.Length1 ==>
      (Point(x, y) in mines ==> a[y, x] == BOOM) && (Point(x, y) !in mines ==> a[y, x] >= 0)
  }

  /** The weight loop of the constructor: count the mines around every safe cell. */
  method ComputeWeights(a: array2<int>, ghost mines: set<Point>)
    requires mines <= Cells(a.Length0, a.Length1)
    requires forall y, x :: 0 <= y < a.Length0 && 0 <= x < a.Length1 ==>
      a[y, x] == if Point(x, y) in mines then BOOM else 0
    modifies a
    ensures Weighted(a, mines)
  {
    var r, c := a.Length0, a.Length1;
    for y := 0 to r
      invariant MinesMarked(a, mines)
      invariant forall y', x' :: 0 <= y' < y && 0 <= x' < c ==> CellWeighted(a, mines, x', y')
    {
      label before:
      WeighRow(a, mines, y);
      forall y', x' | 0 <= y' < y && 0 <= x' < c
        ensures CellWeighted(a, mines, x', y')
      {
        assert old@before(CellWeighted(a, mines, x', y'));
      }
    }
  }

  /** One row of the weight loop. */
  method WeighRow(a: array2<int>, ghost mines: set<Point>, y: int)
    requires 0 <= y < a.Length0
    requires mines <= Cells(a.Length0, a.Length1)
    requires MinesMarked(a, mines)
    modifies a
    ensures MinesMarked(a, mines)
    ensures forall x :: 0 <= x < a.Length1 ==> CellWeighted(a, mines, x, y)
    ensures forall y', x' :: 0 <= y' < a.Length0 && 0 <= x' < a.Length1 && y' != y ==>
      a[y', x'] == old(a[y', x'])
  {
    var c := a.Length1;
    for x := 0 to c
      invariant MinesMarked(a, mines)
      invariant forall x' :: 0 <= x' < x ==> CellWeighted(a, mines, x', y)
      invariant forall y', x' :: 0 <= y' < a.Length0 && 0 <= x' < a.Length1 && y' != y ==>
        a[y', x'] == old(a[y', x'])
    {
      WeighNext(a, mines, x, y);
    }
  }

  /** One iteration of the row loop: the weighed prefix of the row grows by a cell. */
  method WeighNext(a: array2<int>, ghost mines: set<Point>, x: int, y: int)
    requires 0 <= x < a.Length1 && 0 <= y < a.Length0
    requires mines <= Cells(a.Length0, a.Length1)
    requires MinesMarked(a, mines)
    requires forall x' :: 0 <= x' < x ==> CellWeighted(a, mines, x', y)
    modifies a
    ensures MinesMarked(a, mines)
    ensures forall x' :: 0 <= x' <= x ==> CellWeighted(a, mines, x', y)
    ensures forall y', x' :: 0 <= y' < a.Length0 && 0 <= x' < a.Length1 && (x', y') != (x, y) ==>
      a[y', x'] == old(a[y', x'])
  {
    label before:
    WeighCell(a, mines, x, y);
    forall x' | 0 <= x' < x
      ensures CellWeighted(a, mines, x', y)
    {
      assert old@before(CellWeighted(a, mines, x', y));
    }
  }

  /** One step of the weight loop: a safe cell gets the number of mines around it. */
  method WeighCell(a: array2<int>, ghost mines: set<Point>, x: int, y: int)
    requires 0 <= x < a.Length1 && 0 <= y < a.Length0
    requires mines <= Cells(a.Length0, a.Length1)
    requires MinesMarked(a, mines)
    modifies a
    ensures MinesMarked(a, mines) && CellWeighted(a, mines, x, y)
    ensures forall y', x' :: 0 <= y' < a.Length0 && 0 <= x' < a.Length1 && (x', y') != (x, y) ==>
      a[y', x'] == old(a[y', x'])
  {
    if a[y, x] >= 0 {
      var w := WindowMines(a, mines, x, y);
      a[y, x] := w;
    }
  }

  /** The inner loops of the weight computation: the mines in the clipped window. */
  method WindowMines(a: array2<int>, ghost mines: set<Point>, x: int, y: int) returns (w: int)
    requires 0 <= x < a.Length1 && 0 <= y < a.Length0
    requires mines <= Cells(a.Length0, a.Length1)
    requires MinesMarked(a, mines)
    ensures w == Adjacent(mines, x, y)
  {
    var r, c := a.Length0, a.Length1;
    w := 0;
    var y0, y1 := Max(0, y - 1), Min(r, y + 2);
    var x0, x1 := Max(0, x - 1), Min(c, x + 2);
    for yw := y0 to y1
      invariant w == RectCount(mines, x0, x1, y0, yw)
    {
      for xw := x0 to x1
        invariant w == RectCount(mines, x0, x1, y0, yw) + RowCount(mines, yw, x0, xw)
      {
        if a[yw, xw] < 0 {
          w := w + 1;
        }
      }
    }
    RectCountIsCard(mines, x0, x1, y0, y1);
    ClippedWindow(mines, r, c, x, y);
  }

  class MineMap {
    var mmm: int
    const r: int
    const c: int
    const mineMap: array2<int>
    const markMap: array2<bool>
    const unprobedMap: array2<bool>
    var victory: bool
    var finished: bool
    var probed: bool
    /** Where the mines are. */
    ghost const Mines: set<Point>
    /** The number of mines the board was created with. */
    ghost const InitialMines: int

    ghost predicate InBounds(x: int, y: int) {
      0 <= x < c && 0 <= y < r
    }

    /** The marked cells. */
    ghost function Marked(): set<Point>
      reads markMap
      requires markMap.Length0 == r && markMap.Length1 == c
    {
      set p | p in Cells(r, c) && markMap[p.y, p.x]
    }

    /** The cells whose state is unknown to a player: unprobed and unmarked. */
    ghost function Unknown(): set<Point>
      reads markMap, unprobedMap
      requires markMap.Length0 == r && markMap.Length1 == c
      requires unprobedMap.Length0 == r && unprobedMap.Length1 == c
    {
      set p | p in Cells(r, c) && unprobedMap[p.y, p.x] && !markMap[p.y, p.x]
    }

    /** The winning position: a cell is unprobed exactly when it holds a mine. */
    ghost predicate AllSafeProbed()
      reads unprobedMap
      requires unprobedMap.Length0 == r && unprobedMap.Length1 == c
    {
      forall y, x :: 0 <= y < r && 0 <= x < c ==> SafeProbedAt(x, y)
    }

    ghost predicate SafeProbedAt(x: int, y: int)
      reads unprobedMap
      requires unprobedMap.Length0 == r && unprobedMap.Length1 == c
      requires 0 <= y < r && 0 <= x < c
    {
      Point(x, y) in Mines <==> unprobedMap[y, x]
    }

    /** The probed cells that hold no mine: those a look reports a count for. */
    ghost function Opened(): set<Point>
      reads unprobedMap
      requires unprobedMap.Length0 == r && unprobedMap.Length1 == c
    {
      set p | p in Cells(r, c) && !unprobedMap[p.y, p.x] && p !in Mines
    }

    ghost predicate Valid()
      reads this, mineMap, markMap, unprobedMap
    {
      && 0 <= r && 0 <= c
      && mineMap.Length0 == r && mineMap.Length1 == c
      && markMap.Length0 == r && markMap.Length1 == c
      && unprobedMap.Length0 == r && unprobedMap.Length1 == c
      && markMap != unprobedMap
      && Mines <= Cells(r, c)
      && Weighted(mineMap, Mines)
      // a marked cell is unprobed
      && (forall y, x :: 0 <= y < r && 0 <= x < c && markMap[y, x] ==> unprobedMap[y, x])
      // a probed mine ends the game
      && (forall y, x :: 0 <= y < r && 0 <= x < c && Point(x, y) in Mines && !unprobedMap[y, x] ==> finished)
      && mmm == InitialMines - |Marked()|
      && (finished || |Mines| == Max0(InitialMines))
      && (victory ==> finished && AllSafeProbed())
      // the probed flag records a successful probe
      && (probed <==> Opened() != {})
    }

    /** No mistake so far: every mark is on a mine and no mine has been probed. */
    ghost predicate Sound()
      reads this, mineMap, markMap, unprobedMap
    {
      && Valid()
      && Marked() <= Mines
      && (forall y, x :: 0 <= y < r && 0 <= x < c && Point(x, y) in Mines ==> unprobedMap[y, x])
    }

    /**
     * MineMap(mines, rows, columns): `layout` lists the cells the random placement
     * chose, in order; it is used only when the constructor does not punt.
     */
    constructor (mines: int, rows: int, columns: int, layout: seq<Point>)
      requires 0 <= rows && 0 <= columns
      requires !Punts(mines, rows, columns) ==> IsLayout(layout, rows, columns) && |layout| == Max0(mines)
      ensures Valid()
      ensures r == rows && c == columns && mmm == mines && InitialMines == mines
      ensures finished == Punts(mines, rows, columns) && !victory && !probed
      ensures Mines == if finished then {} else Elems(layout)
      ensures Marked() == {} && Unknown() == Cells(r, c)
      ensures fresh(mineMap) && fresh(markMap) && fresh(unprobedMap)
    {
      var mm := new int[rows, columns];
      var km := new bool[rows, columns];
      var um := new bool[rows, columns];
      Fill(mm, 0);
      Fill(km, false);
      Fill(um, true);
      var punt := Punts(mines, rows, columns);
      if !punt {
        PlaceMines(mm, layout);
        assert Elems(layout) <= Cells(rows, columns);
        ComputeWeights(mm, Elems(layout));
      } else {
        ComputeWeights(mm, {});
      }
      mmm := mines;
      r := rows;
      c := columns;
      mineMap, markMap, unprobedMap := mm, km, um;
      victory, finished, probed := false, punt, false;
      Mines := if punt then {} else Elems(layout);
      InitialMines := mines;
      new;
      assert Marked() == {};
      if !punt {
        DistinctCard(layout);
      }
    }

    /** won (MineMap.java): only a finished game that ended in the winning position. */
    function Won(): (b: bool)
      reads this, mineMap, markMap, unprobedMap
      requires Valid()
      ensures b ==> finished && AllSafeProbed()
    {
      victory
    }

    /** probed (MineMap.java): has some cell without a mine been probed? */
    function Probed(): (b: bool)
      reads this, mineMap, markMap, unprobedMap
      requires Valid()
      ensures b <==> exists p :: p in Cells(r, c) && !unprobedMap[p.y, p.x] && p !in Mines
    {
      assert probed ==> exists p :: p in Cells(r, c) && !unprobedMap[p.y, p.x] && p !in Mines by {
        if probed {
          var p :| p in Opened();
          assert p in Cells(r, c) && !unprobedMap[p.y, p.x] && p !in Mines;
        }
      }
      assert (exists p :: p in Cells(r, c) && !unprobedMap[p.y, p.x] && p !in Mines) ==> probed by {
        if exists p :: p in Cells(r, c) && !unprobedMap[p.y, p.x] && p !in Mines {
          var p :| p in Cells(r, c) && !unprobedMap[p.y, p.x] && p !in Mines;
          assert p in Opened();
        }
      }
      probed
    }

    /** mines_minus_marks (MineMap.java): the mines not yet accounted for by marks. */
    function MinesMinusMarks(): (n: int)
      reads this, mineMap, markMap, unprobedMap
      requires Valid()
      ensures n == InitialMines - |Marked()|
    {
      mmm
    }

    /** look (MineMap.java): what a player may see of a cell. */
    function Look(x: int, y: int): (v: int)
      reads this, mineMap, markMap, unprobedMap
      requires Valid()
      ensures v == OUT_OF_BOUNDS <==> !InBounds(x, y)
      ensures InBounds(x, y) ==> (v == MARKED <==> markMap[y, x])
      ensures InBounds(x, y) && !markMap[y, x] ==> (v == UNPROBED <==> unprobedMap[y, x])
      ensures InBounds(x, y) && !unprobedMap[y, x] ==>
        v == if Point(x, y) in Mines then BOOM else Adjacent(Mines, x, y)
      ensures v == BOOM ==> finished
    {
      if x < 0 || x >= c || y < 0 || y >= r then OUT_OF_BOUNDS
      else if markMap[y, x] then MARKED
      else if unprobedMap[y, x] then UNPROBED
      else
        assert CellWeighted(mineMap, Mines, x, y);
        mineMap[y, x]
    }

    /** The unknown cells are exactly those a look reports as UNPROBED. */
    lemma UnknownIsUnprobedLook(p: Point)
      requires Valid()
      ensures p in Unknown() <==> Look(p.x, p.y) == UNPROBED
    {
    }

    /** The marked cells are exactly those a look reports as MARKED. */
    lemma MarkedIsMarkedLook(p: Point)
      requires Valid()
      ensures p in Marked() <==> Look(p.x, p.y) == MARKED
    {
    }

    /** The opened cells are exactly those a look reports a count (>= 0) for. */
    lemma OpenedIsCountLook(p: Point)
      requires Valid()
      ensures p in Opened() <==> Look(p.x, p.y) >= 0
    {
      if Look(p.x, p.y) >= 0 {
        assert p in Cells(r, c);
      }
    }

    /**
     * Around any cell of a board without mistakes, the mines are the marked cells
     * plus the mines among the unknown cells: the count a probe reports minus the
     * marks nearby is the number of mines still hidden nearby.
     */
    lemma MinesAround(x: int, y: int)
      requires Sound()
      ensures Adjacent(Mines, x, y) == |Window(x, y) * Marked()| + |Window(x, y) * Unknown() * Mines|
    {
      var w := Window(x, y);
      assert Marked() * Unknown() == {};
      assert w * Mines == w * Marked() + w * Unknown() * Mines by {
        forall p | p in w * Mines ensures p in w * Marked() + w * Unknown() * Mines {
          assert p in Cells(r, c);
        }
      }
      assert (w * Marked()) * (w * Unknown() * Mines) == {};
    }

    /** probe (MineMap.java). */
    method Probe(x: int, y: int) returns (v: int)
      requires Valid()
      modifies this, unprobedMap
      ensures Valid()
      ensures mmm == old(mmm) && victory == old(victory)
      ensures old(finished) ==> v == old(Look(x, y)) && unchanged(this, unprobedMap)
      ensures !old(finished) && !InBounds(x, y) ==> v == OUT_OF_BOUNDS && unchanged(this, unprobedMap)
      ensures !old(finished) && InBounds(x, y) && markMap[y, x] ==>
        v == MARKED && unchanged(this, unprobedMap)
      ensures !old(finished) && InBounds(x, y) && !markMap[y, x] ==>
        && !unprobedMap[y, x]
        && (forall y', x' :: 0 <= y' < r && 0 <= x' < c && (x', y') != (x, y) ==>
              unprobedMap[y', x'] == old(unprobedMap[y', x']))
        && (Point(x, y) in Mines ==> v == BOOM && finished && probed == old(probed))
        && (Point(x, y) !in Mines ==> v == Adjacent(Mines, x, y) && probed && finished == old(finished))
        && Unknown() == old(Unknown()) - {Point(x, y)}
        && (Point(x, y) !in Mines ==> Opened() == old(Opened()) + {Point(x, y)})
      ensures old(Sound()) && Point(x, y) !in Mines ==> Sound()
    {
      if finished {
        return Look(x, y);
      } else if x < 0 || x >= c || y < 0 || y >= r {
        return OUT_OF_BOUNDS;
      } else if markMap[y, x] {
        return MARKED;
      }
      v := Uncover(x, y);
    }

    /** The last lines of probe: the cell is no longer unprobed; a mine ends the game. */
    method Uncover(x: int, y: int) returns (v: int)
      requires Valid() && !finished && InBounds(x, y) && !markMap[y, x]
      modifies this, unprobedMap
      ensures Valid()
      ensures mmm == old(mmm) && victory == old(victory)
      ensures !unprobedMap[y, x]
      ensures forall y', x' :: 0 <= y' < r && 0 <= x' < c && (x', y') != (x, y) ==>
        unprobedMap[y', x'] == old(unprobedMap[y', x'])
      ensures Point(x, y) in Mines ==> v == BOOM && finished && probed == old(probed)
      ensures Point(x, y) !in Mines ==> v == Adjacent(Mines, x, y) && probed && !finished
      ensures Unknown() == old(Unknown()) - {Point(x, y)}
      ensures Point(x, y) !in Mines ==> Opened() == old(Opened()) + {Point(x, y)}
      ensures old(Sound()) && Point(x, y) !in Mines ==> Sound()
    {
      assert CellWeighted(mineMap, Mines, x, y);
      if mineMap[y, x] < 0 {
        Explode(x, y);
      } else {
        Open(x, y);
      }
      return mineMap[y, x];
    }

    /** Probing a mine: the cell is shown and the game is lost. */
    method Explode(x: int, y: int)
      requires Valid() && !finished && InBounds(x, y) && !markMap[y, x] && Point(x, y) in Mines
      modifies this, unprobedMap
      ensures Valid()
      ensures mmm == old(mmm) && victory == old(victory) && probed == old(probed) && finished
      ensures !unprobedMap[y, x]
      ensures forall y', x' :: 0 <= y' < r && 0 <= x' < c && (x', y') != (x, y) ==>
        unprobedMap[y', x'] == old(unprobedMap[y', x'])
      ensures Unknown() == old(Unknown()) - {Point(x, y)}
    {
      ghost var marked, unknown, wasOpen := Marked(), Unknown(), Opened();
      unprobedMap[y, x] := false;
      finished := true;
      assert Marked() == marked;
      assert Unknown() == unknown - {Point(x, y)};
      assert Opened() == wasOpen;
    }

    /** Probing a safe cell: the cell is opened and the game goes on. */
    method Open(x: int, y: int)
      requires Valid() && !finished && InBounds(x, y) && !markMap[y, x] && Point(x, y) !in Mines
      modifies this, unprobedMap
      ensures Valid()
      ensures mmm == old(mmm) && victory == old(victory) && probed && !finished
      ensures !unprobedMap[y, x]
      ensures forall y', x' :: 0 <= y' < r && 0 <= x' < c && (x', y') != (x, y) ==>
        unprobedMap[y', x'] == old(unprobedMap[y', x'])
      ensures Unknown() == old(Unknown()) - {Point(x, y)}
      ensures Opened() == old(Opened()) + {Point(x, y)}
      ensures old(Sound()) ==> Sound()
    {
      ghost var marked, unknown, wasOpen := Marked(), Unknown(), Opened();
      ghost var sound := Sound();
      unprobedMap[y, x] := false;
      probed := true;
      assert Marked() == marked;
      assert Unknown() == unknown - {Point(x, y)};
      assert Opened() == wasOpen + {Point(x, y)};
      if sound {
        assert Marked() <= Mines;
      }
    }

    /**
     * On a board without mistakes, the mines not yet marked are exactly the unknown
     * cells holding a mine: mines_minus_marks counts them.
     */
    lemma HiddenMines()
      requires Sound() && !finished && InitialMines >= 0
      ensures |Unknown() * Mines| == InitialMines - |Marked()|
    {
      var hidden := Unknown() * Mines;
      forall p | p in Mines ensures p in Marked() || p in hidden {
        assert p in Cells(r, c);
      }
      assert Mines == Marked() + hidden;
      assert Marked() * hidden == {};
    }

    /**
     * In a game in progress without mistakes, the marked cells are the cells that are
     * neither unknown nor opened.
     */
    lemma MarkedIsRest()
      requires Sound() && !finished
      ensures Marked() == Cells(r, c) - Unknown() - Opened()
    {
    }

    /**
     * Between two states of a game in progress without mistakes, with no probe in
     * between, the cells that left the unknown ones were marked.
     */
    twostate lemma MarksAdded(s: set<Point>)
      requires old(Sound()) && !old(finished) && Sound() && !finished
      requires unchanged(unprobedMap) && Unknown() == old(Unknown()) - s && s <= Cells(r, c) * Mines
      ensures Marked() == old(Marked()) + s
    {
      forall p | p in Cells(r, c) ensures p in Marked() <==> p in old(Marked()) || p in s {
        assert p in Unknown() <==> p in old(Unknown()) && p !in s;
      }
    }

    /** mark (MineMap.java). */
    method Mark(x: int, y: int) returns (v: int)
      requires Valid()
      modifies this, markMap
      ensures Valid()
      ensures finished == old(finished) && victory == old(victory) && probed == old(probed)
      ensures Opened() == old(Opened())
      ensures old(finished) ==> v == old(Look(x, y)) && unchanged(this, markMap)
      ensures !old(finished) && !InBounds(x, y) ==> v == OUT_OF_BOUNDS && unchanged(this, markMap)
      ensures !old(finished) && InBounds(x, y) && old(markMap[y, x]) ==>
        v == MARKED && unchanged(this, markMap)
      ensures !old(finished) && InBounds(x, y) && !old(markMap[y, x]) && unprobedMap[y, x] ==>
        && v == MARKED && mmm == old(mmm) - 1
        && Marked() == old(Marked()) + {Point(x, y)}
        && Unknown() == old(Unknown()) - {Point(x, y)}
        && (forall y', x' :: 0 <= y' < r && 0 <= x' < c ==>
              markMap[y', x'] == (old(markMap[y', x']) || (x', y') == (x, y)))
      ensures !old(finished) && InBounds(x, y) && !old(markMap[y, x]) && !unprobedMap[y, x] ==>
        v == old(Look(x, y)) && unchanged(this, markMap)
      ensures old(Sound()) && Point(x, y) in Mines ==> Sound()
    {
      if finished {
        return Look(x, y);
      } else if x < 0 || x >= c || y < 0 || y >= r {
        return OUT_OF_BOUNDS;
      } else if markMap[y, x] {
        return MARKED;
      } else if unprobedMap[y, x] {
        ghost var before := Marked();
        ghost var unknown := Unknown();
        assert Point(x, y) !in before;
        mmm := mmm - 1;
        markMap[y, x] := true;
        assert Marked() == before + {Point(x, y)};
        assert |Marked()| == |before| + 1;
        assert Unknown() == unknown - {Point(x, y)};
        return MARKED;
      } else {
        return mineMap[y, x];
      }
    }

    /** unmark (MineMap.java). */
    method Unmark(x: int, y: int) returns (v: int)
      requires Valid()
      modifies this, markMap
      ensures Valid()
      ensures finished == old(finished) && victory == old(victory) && probed == old(probed)
      ensures Opened() == old(Opened())
      ensures old(finished) ==> v == old(Look(x, y)) && unchanged(this, markMap)
      ensures !old(finished) && !InBounds(x, y) ==> v == OUT_OF_BOUNDS && unchanged(this, markMap)
      ensures !old(finished) && InBounds(x, y) && old(markMap[y, x]) ==>
        && v == UNPROBED && mmm == old(mmm) + 1
        && Marked() == old(Marked()) - {Point(x, y)}
        && Unknown() == old(Unknown()) + {Point(x, y)}
        && (forall y', x' :: 0 <= y' < r && 0 <= x' < c ==>
              markMap[y', x'] == (old(markMap[y', x']) && (x', y') != (x, y)))
      ensures !old(finished) && InBounds(x, y) && !old(markMap[y, x]) ==>
        v == old(Look(x, y)) && unchanged(this, markMap)
    {
      if finished {
        return Look(x, y);
      } else if x < 0 || x >= c || y < 0 || y >= r {
        return OUT_OF_BOUNDS;
      } else if markMap[y, x] {
        ClearMark(x, y);
        return UNPROBED;
      } else if unprobedMap[y, x] {
        return UNPROBED;
      } else {
        return mineMap[y, x];
      }
    }

    /** The marked case of unmark: the mark goes and the counter takes the mine back. */
    method ClearMark(x: int, y: int)
      requires Valid() && !finished && InBounds(x, y) && markMap[y, x]
      modifies this, markMap
      ensures Valid()
      ensures finished == old(finished) && victory == old(victory) && probed == old(probed)
      ensures Opened() == old(Opened()) && mmm == old(mmm) + 1
      ensures Marked() == old(Marked()) - {Point(x, y)}
      ensures Unknown() == old(Unknown()) + {Point(x, y)}
      ensures forall y', x' :: 0 <= y' < r && 0 <= x' < c ==>
        markMap[y', x'] == (old(markMap[y', x']) && (x', y') != (x, y))
    {
      ghost var before := Marked();
      ghost var unknown := Unknown();
      assert Point(x, y) in before;
      mmm := mmm + 1;
      markMap[y, x] := false;
      assert Marked() == before - {Point(x, y)};
      assert |Marked()| == |before| - 1;
      assert Unknown() == unknown + {Point(x, y)};
    }

    /**
     * mark and unmark undo each other: marking an unknown cell of a game in progress
     * and unmarking it again leaves the mark grid, the counter and the cell sets as
     * they were.
     */
    method MarkThenUnmark(x: int, y: int) returns (v: int, w: int)
      requires Valid() && !finished && Point(x, y) in Unknown()
      modifies this, markMap
      ensures v == MARKED && w == UNPROBED
      ensures finished == old(finished) && mmm == old(mmm)
      ensures Marked() == old(Marked()) && Unknown() == old(Unknown())
      ensures forall y', x' :: 0 <= y' < r && 0 <= x' < c ==> markMap[y', x'] == old(markMap[y', x'])
    {
      v := Mark(x, y);
      w := Unmark(x, y);
    }

    /** done (MineMap.java): finished, or the winning position reached just now. */
    method Done() returns (b: bool)
      requires Valid()
      modifies this
      ensures Valid()
      ensures b <==> old(finished) || AllSafeProbed()
      ensures finished == b && mmm == old(mmm) && probed == old(probed)
      ensures victory == (old(victory) || (!old(finished) && AllSafeProbed()))
    {
      if finished {
        return true;
      }
      for y := 0 to r
        invariant forall y', x' :: 0 <= y' < y && 0 <= x' < c ==> SafeProbedAt(x', y')
      {
        for x := 0 to c
          invariant forall y', x' :: 0 <= y' < y && 0 <= x' < c ==> SafeProbedAt(x', y')
          invariant forall x' :: 0 <= x' < x ==> SafeProbedAt(x', y)
        {
          assert CellWeighted(mineMap, Mines, x, y);
          if (mineMap[y, x] < 0) != unprobedMap[y, x] {
            assert !SafeProbedAt(x, y);
            return false;
          }
        }
      }
      finished := true;
      victory := true;
      return true;
    }
  }

  /** A game in progress on which no mistake has been made: what the strategies keep. */
  ghost predicate Playing(m: MineMap)
    reads m, m.mineMap, m.markMap, m.unprobedMap
  {
    m.Sound() && !m.finished
  }
}
