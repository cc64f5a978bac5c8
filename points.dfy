/**
 * Board cells (sp/Point.java) and the grid geometry the board and both strategies
 * count over: rectangles of cells, the 3x3 window around a cell, and the number of
 * cells of a rectangle that lie in a given set.
 */
module Points {
  import opened Sets

  /** A cell; `x` is the column, `y` the row.  The accessors x() and y() are the fields. */
  datatype Point = Point(x: int, y: int)

  /** same (Point.java): equal coordinates. */
  function PointSame(p: Point, q: Point): (b: bool)
    ensures b <==> p == q
  {
    p.x == q.x && p.y == q.y
  }

  /** less (Point.java): row-major, the row first and the column on a tie. */
  function PointLess(p: Point, q: Point): bool {
    p.y < q.y || (p.y == q.y && p.x < q.x)
  }

  /** The row-major position of a cell on a board `w` columns wide. */
  function RowMajor(p: Point, w: int): int {
    p.y * w + p.x
  }

  /** Points may be kept in sets: PointLess is a strict linear order. */
  lemma PointLessIsOrder()
    ensures StrictTotalOrder(PointLess)
  {
    forall a: Point, b: Point | a != b
      ensures PointLess(a, b) || PointLess(b, a)
    {
      assert a.x != b.x || a.y != b.y;
    }
  }

  /** On a board `w` columns wide, PointLess orders cells by their row-major position. */
  lemma {:induction false} RowMajorOrder(p: Point, q: Point, w: int)
    requires 0 <= p.x < w && 0 <= q.x < w
    ensures PointLess(p, q) <==> RowMajor(p, w) < RowMajor(q, w)
  {
    if p.y < q.y {
      calc {
        RowMajor(p, w);
      <
        p.y * w + w;
      ==
        (p.y + 1) * w;
      <=  { MulMono(p.y + 1, q.y, w); }
        q.y * w;
      <=
        RowMajor(q, w);
      }
    } else if q.y < p.y {
      calc {
        RowMajor(q, w);
      <
        (q.y + 1) * w;
      <=  { MulMono(q.y + 1, p.y, w); }
        RowMajor(p, w);
      }
    }
  }

  lemma MulMono(a: int, b: int, w: int)
    requires a <= b && 0 <= w
    ensures a * w <= b * w
  {
    assert b * w - a * w == (b - a) * w;
  }

  /*
   * Rectangles [x0, x1) x [y0, y1) of cells.
   */

  ghost function Row(y: int, x0: int, x1: int): set<Point> {
    set x | x0 <= x < x1 :: Point(x, y)
  }

  ghost function Rect(x0: int, x1: int, y0: int, y1: int): set<Point> {
    set x, y | x0 <= x < x1 && y0 <= y < y1 :: Point(x, y)
  }

  /** The 3x3 window centred on (x, y), the neighbourhood every strategy scans. */
  ghost function Window(x: int, y: int): set<Point> {
    Rect(x - 1, x + 2, y - 1, y + 2)
  }

  /** The 5x5 window centred on (x, y). */
  ghost function Window5(x: int, y: int): set<Point> {
    Rect(x - 2, x + 3, y - 2, y + 3)
  }

  /** The number of cells of row `y` between `x0` and `x1` that lie in `s`. */
  ghost function RowCount(s: set<Point>, y: int, x0: int, x1: int): nat
    decreases x1 - x0
  {
    if x1 <= x0 then 0
    else RowCount(s, y, x0, x1 - 1) + (if Point(x1 - 1, y) in s then 1 else 0)
  }

  /** The number of cells of a rectangle that lie in `s`, counted row by row. */
  ghost function RectCount(s: set<Point>, x0: int, x1: int, y0: int, y1: int): nat
    decreases y1 - y0
  {
    if y1 <= y0 then 0
    else RectCount(s, x0, x1, y0, y1 - 1) + RowCount(s, y1 - 1, x0, x1)
  }

  lemma RowGrow(y: int, x0: int, x1: int)
    requires x0 <= x1
    ensures Row(y, x0, x1 + 1) == Row(y, x0, x1) + {Point(x1, y)}
  {
  }

  lemma RectGrow(x0: int, x1: int, y0: int, y1: int)
    requires y0 <= y1
    ensures Rect(x0, x1, y0, y1 + 1) == Rect(x0, x1, y0, y1) + Row(y1, x0, x1)
  {
    assert forall p :: p in Rect(x0, x1, y0, y1 + 1) ==> p in Rect(x0, x1, y0, y1) + Row(y1, x0, x1);
  }

  lemma RowGrowDown(y: int, x0: int, x1: int)
    requires x0 <= x1
    ensures Row(y, x0 - 1, x1) == Row(y, x0, x1) + {Point(x0 - 1, y)}
  {
  }

  lemma RectGrowDown(x0: int, x1: int, y0: int, y1: int)
    requires y0 <= y1
    ensures Rect(x0, x1, y0 - 1, y1) == Rect(x0, x1, y0, y1) + Row(y0 - 1, x0, x1)
  {
    var below := y0 - 1;
    forall p | p in Rect(x0, x1, below, y1) ensures p in Rect(x0, x1, y0, y1) + Row(below, x0, x1) {
    }
  }

  /** A rectangle grown by the row below it counts that row's cells of `s` too. */
  lemma RectCountDown(x0: int, x1: int, y0: int, y1: int, s: set<Point>)
    requires y0 <= y1
    ensures |Rect(x0, x1, y0 - 1, y1) * s| == |Rect(x0, x1, y0, y1) * s| + |Row(y0 - 1, x0, x1) * s|
  {
    var rect, row := Rect(x0, x1, y0, y1), Row(y0 - 1, x0, x1);
    RectGrowDown(x0, x1, y0, y1);
    assert (rect * s) * (row * s) == {} by {
      forall p | p in row ensures p !in rect { }
    }
    assert Rect(x0, x1, y0 - 1, y1) * s == rect * s + row * s;
  }

  /** Counting a row's cells in `s` from its last column down: one cell at a time. */
  lemma RowCardDown(y: int, x: int, x1: int, s: set<Point>)
    requires x < x1
    ensures |Row(y, x, x1) * s| == |Row(y, x + 1, x1) * s| + (if Point(x, y) in s then 1 else 0)
  {
    RowGrowDown(y, x + 1, x1);
    CountGrow(Row(y, x + 1, x1), Point(x, y), s);
  }

  /** Adding a new cell to a region adds one to its count in `s` exactly when the cell is in `s`. */
  lemma CountGrow(a: set<Point>, p: Point, s: set<Point>)
    requires p !in a
    ensures |(a + {p}) * s| == |a * s| + (if p in s then 1 else 0)
  {
    if p in s {
      assert (a + {p}) * s == a * s + {p};
    } else {
      assert (a + {p}) * s == a * s;
    }
  }

  /** The cell-by-cell count of a row is the size of its intersection with `s`. */
  lemma {:induction false} RowCountIsCard(s: set<Point>, y: int, x0: int, x1: int)
    ensures RowCount(s, y, x0, x1) == |Row(y, x0, x1) * s|
    decreases x1 - x0
  {
    if x1 <= x0 {
      assert Row(y, x0, x1) == {};
    } else {
      RowCountIsCard(s, y, x0, x1 - 1);
      RowCountStep(s, y, x0, x1);
    }
  }

  /** The last cell of a row adds one to the count exactly when it lies in `s`. */
  lemma RowCountStep(s: set<Point>, y: int, x0: int, x1: int)
    requires x0 < x1
    ensures |Row(y, x0, x1) * s| == |Row(y, x0, x1 - 1) * s| + (if Point(x1 - 1, y) in s then 1 else 0)
  {
    RowGrow(y, x0, x1 - 1);
    var p := Point(x1 - 1, y);
    assert p !in Row(y, x0, x1 - 1);
    if p in s {
      assert Row(y, x0, x1) * s == Row(y, x0, x1 - 1) * s + {p};
    } else {
      assert Row(y, x0, x1) * s == Row(y, x0, x1 - 1) * s;
    }
  }

  /** The row-by-row count of a rectangle is the size of its intersection with `s`. */
  lemma {:induction false} RectCountIsCard(s: set<Point>, x0: int, x1: int, y0: int, y1: int)
    ensures RectCount(s, x0, x1, y0, y1) == |Rect(x0, x1, y0, y1) * s|
    decreases y1 - y0
  {
    if y1 <= y0 {
      assert Rect(x0, x1, y0, y1) == {};
    } else {
      RectCountIsCard(s, x0, x1, y0, y1 - 1);
      RowCountIsCard(s, y1 - 1, x0, x1);
      RectCardStep(s, x0, x1, y0, y1);
    }
  }

  /** The top row of a rectangle adds its own count in `s` to the rows below it. */
  lemma RectCardStep(s: set<Point>, x0: int, x1: int, y0: int, y1: int)
    requires y0 < y1
    ensures |Rect(x0, x1, y0, y1) * s| == |Rect(x0, x1, y0, y1 - 1) * s| + |Row(y1 - 1, x0, x1) * s|
  {
    RectGrow(x0, x1, y0, y1 - 1);
    var a, b := Rect(x0, x1, y0, y1 - 1) * s, Row(y1 - 1, x0, x1) * s;
    assert a * b == {} by {
      forall p | p in b ensures p !in a { }
    }
    assert Rect(x0, x1, y0, y1) * s == a + b;
  }
}
