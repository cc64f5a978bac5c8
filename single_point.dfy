/**
 * The single point strategy (sp/SinglePointStrategy.java).
 *
 * From one probed cell: if the marks nearby already account for its count, every
 * unknown neighbour is safe and is probed; if the marks plus the unknown neighbours
 * are needed to reach the count, every unknown neighbour is a mine and is marked.
 * The contracts below show the strategy sound: on a board without mistakes it never
 * probes a mine and never marks a safe cell, so only its random guesses can lose.
 */
module SinglePoint {
  import opened Sets
  import opened Points
  import opened Board

  /** unknowns_near (SinglePointStrategy.java): unknown cells in the 3x3 window. */
  method UnknownsNear(m: MineMap, x: int, y: int) returns (u: int)
    requires m.Valid()
    ensures m.Valid() && u == |Window(x, y) * m.Unknown()|
  {
    u := 0;
    for j := y - 1 to y + 2
      invariant u == RectCount(m.Unknown(), x - 1, x + 2, y - 1, j)
    {
      var n := CountRow(m, UNPROBED, x - 1, x + 2, j);
      u := u + n;
    }
    RectCountIsCard(m.Unknown(), x - 1, x + 2, y - 1, y + 2);
  }

  /** marks_near (SinglePointStrategy.java): marked cells in the 3x3 window. */
  method MarksNear(m: MineMap, x: int, y: int) returns (u: int)
    requires m.Valid()
    ensures m.Valid() && u == |Window(x, y) * m.Marked()|
  {
    u := 0;
    for j := y - 1 to y + 2
      invariant u == RectCount(m.Marked(), x - 1, x + 2, y - 1, j)
    {
      var n := CountRow(m, MARKED, x - 1, x + 2, j);
      u := u + n;
    }
    RectCountIsCard(m.Marked(), x - 1, x + 2, y - 1, y + 2);
  }

  /** The cells a look reports as `code`: the unknown ones, or the marked ones. */
  ghost function Showing(m: MineMap, code: int): set<Point>
    reads m, m.markMap, m.unprobedMap
    requires code == UNPROBED || code == MARKED
    requires m.markMap.Length0 == m.r && m.markMap.Length1 == m.c
    requires m.unprobedMap.Length0 == m.r && m.unprobedMap.Length1 == m.c
  {
    if code == UNPROBED then m.Unknown() else m.Marked()
  }

  /** The inner loop of unknowns_near and marks_near: one row of the window. */
  method CountRow(m: MineMap, code: int, x0: int, x1: int, j: int) returns (n: int)
    requires m.Valid() && (code == UNPROBED || code == MARKED) && x0 <= x1
    ensures n == RowCount(Showing(m, code), j, x0, x1)
  {
    n := 0;
    for i := x0 to x1
      invariant n == RowCount(Showing(m, code), j, x0, i)
    {
      m.UnknownIsUnprobedLook(Point(i, j));
      m.MarkedIsMarkedLook(Point(i, j));
      if code == m.Look(i, j) {
        n := n + 1;
      }
    }
  }

  /**
   * adjoin_around (SinglePointStrategy.java): add every opened cell of the 5x5 window
   * to the work set.
   */
  method AdjoinAround(m: MineMap, x: int, y: int, s: seq<Point>) returns (r: seq<Point>)
    requires m.Valid() && IsSet(PointLess, s)
    ensures IsSet(PointLess, r)
    ensures Elems(r) == Elems(s) + Window5(x, y) * m.Opened()
  {
    r := s;
    for j := y - 2 to y + 3
      invariant IsSet(PointLess, r)
      invariant Elems(r) == Elems(s) + Rect(x - 2, x + 3, y - 2, j) * m.Opened()
    {
      r := AdjoinRow(m, x - 2, x + 3, j, r);
      RectGrow(x - 2, x + 3, y - 2, j);
    }
  }

  /** The inner loop of adjoin_around: the opened cells of one row. */
  method AdjoinRow(m: MineMap, x0: int, x1: int, j: int, s: seq<Point>) returns (r: seq<Point>)
    requires m.Valid() && IsSet(PointLess, s) && x0 <= x1
    ensures IsSet(PointLess, r)
    ensures Elems(r) == Elems(s) + Row(j, x0, x1) * m.Opened()
  {
    r := s;
    for i := x0 to x1
      invariant IsSet(PointLess, r)
      invariant Elems(r) == Elems(s) + Row(j, x0, i) * m.Opened()
    {
      m.OpenedIsCountLook(Point(i, j));
      RowGrow(j, x0, i);
      if m.Look(i, j) >= 0 {
        r := Adjoin(PointLess, Point(i, j), r);
      }
    }
  }

  /**
   * probe_around (SinglePointStrategy.java): probe every unknown cell of the window,
   * all known to be safe, then adjoin the opened cells of the 5x5 window.
   */
  method ProbeAround(m: MineMap, x: int, y: int, s: seq<Point>) returns (r: seq<Point>)
    requires Playing(m) && IsSet(PointLess, s)
    requires Window(x, y) * m.Unknown() * m.Mines == {}
    modifies m, m.unprobedMap
    ensures Playing(m)
    ensures m.Unknown() == old(m.Unknown()) - Window(x, y)
    ensures m.Marked() == old(m.Marked())
    ensures IsSet(PointLess, r)
    ensures Elems(r) == Elems(s) + Window5(x, y) * m.Opened()
  {
    ProbeWindow(m, x, y);
    r := AdjoinAround(m, x, y, s);
  }

  /** The loops of probe_around, row by row over the window. */
  method ProbeWindow(m: MineMap, x: int, y: int)
    requires Playing(m)
    requires Window(x, y) * m.Unknown() * m.Mines == {}
    modifies m, m.unprobedMap
    ensures Playing(m)
    ensures m.Unknown() == old(m.Unknown()) - Window(x, y)
    ensures m.Marked() == old(m.Marked())
  {
    ghost var unknown0 := m.Unknown();
    for j := y - 1 to y + 2
      invariant Playing(m)
      invariant m.Unknown() == unknown0 - Rect(x - 1, x + 2, y - 1, j)
      invariant m.Marked() == old(m.Marked())
    {
      ProbeWindowRow(m, x, y, j, unknown0);
    }
  }

  /** One row of the window in probe_around. */
  method ProbeWindowRow(m: MineMap, x: int, y: int, j: int, ghost unknown0: set<Point>)
    requires Playing(m) && y - 1 <= j < y + 2 && Window(x, y) * unknown0 * m.Mines == {}
    requires m.Unknown() == unknown0 - Rect(x - 1, x + 2, y - 1, j)
    modifies m, m.unprobedMap
    ensures Playing(m)
    ensures m.Unknown() == unknown0 - Rect(x - 1, x + 2, y - 1, j + 1)
    ensures m.Marked() == old(m.Marked())
  {
    ProbeRow(m, x - 1, x + 2, j, Window(x, y));
    RectGrow(x - 1, x + 2, y - 1, j);
  }

  /** The inner loop of probe_around: probe the unknown cells of one row of `w`. */
  method ProbeRow(m: MineMap, x0: int, x1: int, j: int, ghost w: set<Point>)
    requires Playing(m) && x0 <= x1 && Row(j, x0, x1) <= w
    requires w * m.Unknown() * m.Mines == {}
    modifies m, m.unprobedMap
    ensures Playing(m)
    ensures m.Unknown() == old(m.Unknown()) - Row(j, x0, x1)
    ensures m.Marked() == old(m.Marked())
  {
    for i := x0 to x1
      invariant Playing(m)
      invariant m.Unknown() == old(m.Unknown()) - Row(j, x0, i)
      invariant m.Marked() == old(m.Marked())
    {
      RowGrow(j, x0, i);
      ProbeIfUnknown(m, i, j, w * old(m.Unknown()));
    }
  }

  /** One step of probe_around's row: probe (i, j) when a look shows it unprobed. */
  method ProbeIfUnknown(m: MineMap, i: int, j: int, ghost safe: set<Point>)
    requires Playing(m) && (Point(i, j) in m.Unknown() ==> Point(i, j) in safe) && safe * m.Mines == {}
    modifies m, m.unprobedMap
    ensures Playing(m)
    ensures m.Unknown() == old(m.Unknown()) - {Point(i, j)}
    ensures m.Marked() == old(m.Marked())
  {
    m.UnknownIsUnprobedLook(Point(i, j));
    if UNPROBED == m.Look(i, j) {
      Outside(Point(i, j), safe, m.Mines);
      ProbeCell(m, i, j);
    }
  }

  /**
   * mark_around (SinglePointStrategy.java): mark every unknown cell of the window, all
   * known to be mines, then adjoin the opened cells of the 5x5 window.
   */
  method MarkAround(m: MineMap, x: int, y: int, s: seq<Point>) returns (r: seq<Point>)
    requires Playing(m) && IsSet(PointLess, s)
    requires Window(x, y) * m.Unknown() - m.Mines == {}
    modifies m, m.markMap
    ensures Playing(m)
    ensures m.Unknown() == old(m.Unknown()) - Window(x, y)
    ensures m.Marked() == old(m.Marked()) + Window(x, y) * old(m.Unknown())
    ensures IsSet(PointLess, r)
    ensures Elems(r) == Elems(s) + Window5(x, y) * m.Opened()
  {
    MarkWindow(m, x, y);
    r := AdjoinAround(m, x, y, s);
  }

  /** The loops of mark_around, row by row over the window. */
  method MarkWindow(m: MineMap, x: int, y: int)
    requires Playing(m)
    requires Window(x, y) * m.Unknown() - m.Mines == {}
    modifies m, m.markMap
    ensures Playing(m)
    ensures m.Unknown() == old(m.Unknown()) - Window(x, y)
    ensures m.Marked() == old(m.Marked()) + Window(x, y) * old(m.Unknown())
  {
    ghost var unknown0 := m.Unknown();
    for j := y - 1 to y + 2
      invariant Playing(m)
      invariant m.Unknown() == unknown0 - Rect(x - 1, x + 2, y - 1, j)
    {
      MarkWindowRow(m, x, y, j, unknown0);
    }
    m.MarksAdded(Window(x, y) * old(m.Unknown()));
  }

  /** One row of the window in mark_around. */
  method MarkWindowRow(m: MineMap, x: int, y: int, j: int, ghost unknown0: set<Point>)
    requires Playing(m) && y - 1 <= j < y + 2 && Window(x, y) * unknown0 - m.Mines == {}
    requires m.Unknown() == unknown0 - Rect(x - 1, x + 2, y - 1, j)
    modifies m, m.markMap
    ensures Playing(m)
    ensures m.Unknown() == unknown0 - Rect(x - 1, x + 2, y - 1, j + 1)
  {
    MarkRow(m, x - 1, x + 2, j, Window(x, y));
    RectGrow(x - 1, x + 2, y - 1, j);
  }

  /** The inner loop of mark_around: mark the unknown cells of one row. */
  method MarkRow(m: MineMap, x0: int, x1: int, j: int, ghost w: set<Point>)
    requires Playing(m) && x0 <= x1 && Row(j, x0, x1) <= w
    requires w * m.Unknown() - m.Mines == {}
    modifies m, m.markMap
    ensures Playing(m)
    ensures m.Unknown() == old(m.Unknown()) - Row(j, x0, x1)
  {
    ghost var unknown0 := m.Unknown();
    for i := x0 to x1
      invariant Playing(m)
      invariant m.Unknown() == unknown0 - Row(j, x0, i)
    {
      assert Point(i, j) in Row(j, x0, x1);
      MarkIfUnknown(m, i, j, Row(j, x0, x1) * unknown0);
      RowGrow(j, x0, i);
    }
  }

  /**
   * One cell of mark_around: the cell is marked when a look shows it unprobed (it is
   * then known to hold a mine), and left alone otherwise.
   */
  method MarkIfUnknown(m: MineMap, i: int, j: int, ghost hidden: set<Point>)
    requires Playing(m) && hidden - m.Mines == {}
    requires Point(i, j) in m.Unknown() ==> Point(i, j) in hidden
    modifies m, m.markMap
    ensures Playing(m)
    ensures m.Unknown() == old(m.Unknown()) - {Point(i, j)}
    ensures Point(i, j) in old(m.Unknown()) ==> m.Marked() == old(m.Marked()) + {Point(i, j)}
    ensures Point(i, j) !in old(m.Unknown()) ==> m.Marked() == old(m.Marked())
  {
    m.UnknownIsUnprobedLook(Point(i, j));
    if UNPROBED == m.Look(i, j) {
      Inside(Point(i, j), hidden, m.Mines);
      assert m.InBounds(i, j);
      var _ := m.Mark(i, j);
    }
  }

  /** One probe of probe_around, on an unknown cell known to be safe. */
  method ProbeCell(m: MineMap, i: int, j: int)
    requires Playing(m) && Point(i, j) in m.Unknown() && Point(i, j) !in m.Mines
    modifies m, m.unprobedMap
    ensures Playing(m)
    ensures m.Unknown() == old(m.Unknown()) - {Point(i, j)}
    ensures m.Marked() == old(m.Marked())
  {
    assert m.InBounds(i, j);
    var _ := m.Probe(i, j);
  }

  /** How a game of play ends. */
  datatype Outcome =
    | Lost        // a guess probed a mine
    | Won         // done() after apply: every safe cell is probed
    | Thrown      // pick of a board dimension that is not positive
    | OutOfPicks  // the random guesses supplied ran out

  /**
   * play (SinglePointStrategy.java): guess a cell with two picks (row, then column),
   * probe it, stop on BOOM, and after a count run apply and stop once done() holds.
   * `picks` supplies the raw random draws, one pair per guess.  Only a guess can
   * lose: on every outcome each mark is on a mine, and no mine but the last guess has
   * been probed.
   */
  method Play(m: MineMap, picks: seq<(int, int)>) returns (o: Outcome)
    requires m.Sound() && !m.victory && (m.finished ==> m.Opened() == {})
    requires forall k :: 0 <= k < |picks| ==>
      (m.r > 0 ==> 0 <= picks[k].0 <= m.r) && (m.c > 0 ==> 0 <= picks[k].1 <= m.c)
    modifies m, m.markMap, m.unprobedMap
    ensures m.Valid() && m.Marked() <= m.Mines
    ensures o == Won <==> m.Won()
    ensures o == Won ==> m.Sound() && m.AllSafeProbed()
    ensures o == Lost ==> m.finished && !m.Won() && exists p :: p in m.Mines && p !in m.Unknown() + m.Marked()
    ensures o != Lost ==> m.Sound()
  {
    for k := 0 to |picks|
      invariant m.Sound() && !m.victory && (m.finished ==> m.Opened() == {})
    {
      var y := Pick(m.r, picks[k].0);
      var x := Pick(m.c, picks[k].1);
      if y.None? || x.None? {
        return Thrown;
      }
      var p := Point(x.value, y.value);
      assert m.InBounds(p.x, p.y);
      ghost var wasFinished := m.finished;
      var q := m.Probe(p.x, p.y);
      if BOOM == q {
        assert !wasFinished && p in m.Mines;
        return Lost;
      } else if q >= 0 {
        m.OpenedIsCountLook(p);
        Apply(m, p.x, p.y);
        assert Playing(m);
        var d := m.Done();
        if d {
          return Won;
        }
      }
    }
    return OutOfPicks;
  }

  /**
   * apply (SinglePointStrategy.java): work through a set of opened cells, least first,
   * applying the two inferences to each.  Every probe it makes is safe and every mark
   * is on a mine.  It stops only when the rule has nothing left to do at the starting
   * cell and at every cell near which it has probed or marked.
   */
  method Apply(m: MineMap, x: int, y: int)
    requires Playing(m)
    modifies m, m.markMap, m.unprobedMap
    ensures Playing(m)
    ensures m.Unknown() <= old(m.Unknown()) && old(m.Marked()) <= m.Marked()
    ensures Rule(m, x, y) == Skip
    ensures forall p: Point {:trigger Rule(m, p.x, p.y)} :: Window(p.x, p.y) * (old(m.Unknown()) - m.Unknown()) != {} ==> Rule(m, p.x, p.y) == Skip
  {
    PointLessIsOrder();
    ghost var start, u0 := Point(x, y), m.Unknown();
    var s := Adjoin(PointLess, Point(x, y), []);
    while s != []
      invariant Playing(m) && IsSet(PointLess, s)
      invariant m.Unknown() <= u0 && old(m.Marked()) <= m.Marked()
      invariant forall p {:trigger Quiet(m, p, start, u0)} :: p !in Elems(s) ==> Quiet(m, p, start, u0)
      decreases |m.Unknown()|, |s|
    {
      var p := First(PointLess, s);
      s := ButFirst(PointLess, s);
      label Pass:
      ghost var s0 := s;
      s := Infer(m, p.x, p.y, s);
      PassKeepsQuiet@Pass(m, start, u0, p, s0, s);
    }
    assert Quiet(m, start, start, u0);
    forall p: Point | Window(p.x, p.y) * (u0 - m.Unknown()) != {}
      ensures Rule(m, p.x, p.y) == Skip
    {
      assert Quiet(m, p, start, u0);
    }
  }

  /**
   * The invariant of apply's loop for a cell p no longer in the work set: if p is the
   * starting cell, or apply has probed or marked a cell next to it, the rule has
   * nothing to do at p.
   */
  ghost predicate Quiet(m: MineMap, p: Point, start: Point, u0: set<Point>)
    reads m, m.mineMap, m.markMap, m.unprobedMap
    requires m.Valid()
  {
    (p == start || Window(p.x, p.y) * (u0 - m.Unknown()) != {}) ==> Rule(m, p.x, p.y) == Skip
  }

  /**
   * A pass of apply's loop at p0 keeps its invariant: where the rule has nothing to do
   * the board is unchanged, and otherwise the pass acts on the window of p0.
   */
  twostate lemma PassKeepsQuiet(m: MineMap, new start: Point, new u0: set<Point>, new p0: Point, new s: seq<Point>, new r: seq<Point>)
    requires old(m.Valid()) && m.Valid()
    requires forall p {:trigger old(Quiet(m, p, start, u0))} :: p !in Elems(s) && p != p0 ==> old(Quiet(m, p, start, u0))
    requires old(Rule(m, p0.x, p0.y)) == Skip ==> r == s && m.Unknown() == old(m.Unknown()) && m.Marked() == old(m.Marked())
    requires old(Rule(m, p0.x, p0.y)) != Skip ==>
      && m.Unknown() == old(m.Unknown()) - Window(p0.x, p0.y)
      && Elems(r) == Elems(s) + Window5(p0.x, p0.y) * m.Opened()
    requires old(Rule(m, p0.x, p0.y)) == ProbeAll ==> m.Marked() == old(m.Marked())
    requires old(Rule(m, p0.x, p0.y)) == MarkAll ==> m.Marked() == old(m.Marked()) + Window(p0.x, p0.y) * old(m.Unknown())
    ensures forall p {:trigger Quiet(m, p, start, u0)} :: p !in Elems(r) ==> Quiet(m, p, start, u0)
  {
    var w := Window(p0.x, p0.y);
    if old(Rule(m, p0.x, p0.y)) == Skip {
      forall p | p !in Elems(r) ensures Quiet(m, p, start, u0) {
        RuleKept(m, p, {});
        if p != p0 {
          QuietKept(m, start, u0, p, {});
        }
      }
    } else {
      assert m.Marked() - w == old(m.Marked()) - w;
      ActKeepsQuiet(m, start, u0, p0, s, r);
    }
  }

  /**
   * A pass of apply's loop that acts at p0 keeps its invariant: it changes only the
   * window of p0, which affects the rule only inside the 5x5 window of p0, whose opened
   * cells it puts back into the work set.
   */
  twostate lemma ActKeepsQuiet(m: MineMap, new start: Point, new u0: set<Point>, new p0: Point, new s: seq<Point>, new r: seq<Point>)
    requires old(m.Valid()) && m.Valid()
    requires forall p {:trigger old(Quiet(m, p, start, u0))} :: p !in Elems(s) && p != p0 ==> old(Quiet(m, p, start, u0))
    requires m.Unknown() == old(m.Unknown()) - Window(p0.x, p0.y)
    requires m.Marked() - Window(p0.x, p0.y) == old(m.Marked()) - Window(p0.x, p0.y)
    requires Elems(r) == Elems(s) + Window5(p0.x, p0.y) * m.Opened()
    ensures forall p {:trigger Quiet(m, p, start, u0)} :: p !in Elems(r) ==> Quiet(m, p, start, u0)
  {
    forall p | p !in Elems(r) ensures Quiet(m, p, start, u0) {
      if p in Window5(p0.x, p0.y) {
        m.OpenedIsCountLook(p);
      } else {
        Centred(p0);
        FarWindowsDisjoint(p, p0);
        QuietKept(m, start, u0, p, Window(p0.x, p0.y));
      }
    }
  }

  /** A change confined to w keeps the invariant at every cell whose window misses w. */
  twostate lemma QuietKept(m: MineMap, new start: Point, new u0: set<Point>, new p: Point, new w: set<Point>)
    requires old(m.Valid()) && m.Valid()
    requires m.Unknown() - w == old(m.Unknown()) - w && m.Marked() - w == old(m.Marked()) - w
    requires Window(p.x, p.y) * w == {}
    requires old(Quiet(m, p, start, u0))
    ensures Quiet(m, p, start, u0)
  {
    RuleKept(m, p, w);
    var wp := Window(p.x, p.y);
    assert wp * (u0 - m.Unknown()) == wp * (u0 - old(m.Unknown())) by {
      forall q | q in wp ensures q in m.Unknown() <==> q in old(m.Unknown()) {
        assert q !in wp * w;
        assert q in m.Unknown() - w <==> q in old(m.Unknown()) - w;
      }
    }
  }

  /** A change confined to w leaves the rule alone at every cell whose window misses w. */
  twostate lemma RuleKept(m: MineMap, new p: Point, new w: set<Point>)
    requires old(m.Valid()) && m.Valid()
    requires m.Unknown() - w == old(m.Unknown()) - w && m.Marked() - w == old(m.Marked()) - w
    requires Window(p.x, p.y) * w == {}
    ensures Rule(m, p.x, p.y) == old(Rule(m, p.x, p.y))
  {
    var wp := Window(p.x, p.y);
    forall q | q in wp ensures (q in m.Unknown() <==> q in old(m.Unknown())) && (q in m.Marked() <==> q in old(m.Marked())) {
      assert q !in wp * w;
      assert q in m.Unknown() - w <==> q in old(m.Unknown()) - w;
      assert q in m.Marked() - w <==> q in old(m.Marked()) - w;
    }
    assert wp * m.Unknown() == wp * old(m.Unknown());
    assert wp * m.Marked() == wp * old(m.Marked());
    Centred(p);
    if m.InBounds(p.x, p.y) {
      assert p in Cells(m.r, m.c);
      assert m.markMap[p.y, p.x] == old(m.markMap[p.y, p.x]) by {
        assert p in m.Marked() <==> p in old(m.Marked());
      }
      assert p in m.Unknown() <==> p in old(m.Unknown());
    }
  }

  /** A cell lies in its own window and its own 5x5 window. */
  lemma Centred(p: Point)
    ensures p in Window(p.x, p.y) && p in Window5(p.x, p.y)
  {
  }

  /** Cells more than two apart in either direction have disjoint windows. */
  lemma FarWindowsDisjoint(p: Point, p0: Point)
    requires p !in Window5(p0.x, p0.y)
    ensures Window(p.x, p.y) * Window(p0.x, p0.y) == {}
  {
    assert p0.x + 2 < p.x || p.x < p0.x - 2 || p0.y + 2 < p.y || p.y < p0.y - 2;
    forall q | q in Window(p.x, p.y) ensures q !in Window(p0.x, p0.y) {
    }
  }

  /**
   * The body of the loop in apply, for the opened cell (i, j): what the rule decides
   * there is done, and the work set gains the opened cells of the 5x5 window when it
   * acts.
   */
  method Infer(m: MineMap, i: int, j: int, s: seq<Point>) returns (r: seq<Point>)
    requires Playing(m) && IsSet(PointLess, s)
    modifies m, m.markMap, m.unprobedMap
    ensures Playing(m) && IsSet(PointLess, r)
    ensures old(Rule(m, i, j)) == Skip ==> r == s && m.Unknown() == old(m.Unknown()) && m.Marked() == old(m.Marked())
    ensures old(Rule(m, i, j)) != Skip ==>
      && m.Unknown() == old(m.Unknown()) - Window(i, j)
      && |m.Unknown()| < old(|m.Unknown()|)
      && Elems(r) == Elems(s) + Window5(i, j) * m.Opened()
    ensures old(Rule(m, i, j)) == ProbeAll ==> m.Marked() == old(m.Marked())
    ensures old(Rule(m, i, j)) == MarkAll ==> m.Marked() == old(m.Marked()) + Window(i, j) * old(m.Unknown())
  {
    ghost var unknown, marked, rule := m.Unknown(), m.Marked(), Rule(m, i, j);
    r := s;
    var d := Decide(m, i, j);
    assert d == rule && m.Unknown() == unknown && m.Marked() == marked;
    if d == ProbeAll {
      r := ProbeStep(m, i, j, s);
    } else if d == MarkAll {
      r := MarkStep(m, i, j, s);
    }
  }

  /** What apply does around one cell. */
  datatype Move = Skip | ProbeAll | MarkAll

  /**
   * The tests of apply for the cell (i, j), as the board shows it: an opened cell with
   * unknown neighbours probes them all when its count is used up by the marks nearby,
   * and marks them all when it needs every one of them.
   */
  ghost function Rule(m: MineMap, i: int, j: int): Move
    reads m, m.mineMap, m.markMap, m.unprobedMap
    requires m.Valid()
  {
    var q := m.Look(i, j);
    var u := |Window(i, j) * m.Unknown()|;
    var k := q - |Window(i, j) * m.Marked()|;
    if q < 0 || u == 0 then Skip
    else if k == 0 then ProbeAll
    else if k == u then MarkAll
    else Skip
  }

  /**
   * On a board without mistakes the rule is sound: it probes only where no hidden mine
   * is near and marks only where every unknown neighbour is a mine, and it acts only
   * where there is an unknown neighbour.
   */
  lemma RuleSound(m: MineMap, i: int, j: int)
    requires m.Sound()
    ensures Rule(m, i, j) != Skip ==> Window(i, j) * m.Unknown() != {}
    ensures Rule(m, i, j) == ProbeAll ==> Window(i, j) * m.Unknown() * m.Mines == {}
    ensures Rule(m, i, j) == MarkAll ==> Window(i, j) * m.Unknown() - m.Mines == {}
  {
    var q := m.Look(i, j);
    if q >= 0 {
      Deduce(m, i, j, q, |Window(i, j) * m.Marked()|, |Window(i, j) * m.Unknown()|);
    }
  }

  /** The tests of apply for the cell (i, j), computed with the counting loops. */
  method Decide(m: MineMap, i: int, j: int) returns (d: Move)
    requires Playing(m)
    ensures d == Rule(m, i, j)
    ensures d != Skip ==> Window(i, j) * m.Unknown() != {}
    ensures d == ProbeAll ==> Window(i, j) * m.Unknown() * m.Mines == {}
    ensures d == MarkAll ==> Window(i, j) * m.Unknown() - m.Mines == {}
  {
    var q := m.Look(i, j);
    d := Skip;
    if q >= 0 {
      var u := UnknownsNear(m, i, j);
      if u != 0 {
        var marks := MarksNear(m, i, j);
        var k := q - marks;
        d := if k == 0 then ProbeAll else if k == u then MarkAll else Skip;
      }
    }
    RuleIs(m, i, j, q, d);
    RuleSound(m, i, j);
  }

  /** The rule's value, from the count shown at (i, j) and the two window counts. */
  lemma RuleIs(m: MineMap, i: int, j: int, q: int, d: Move)
    requires m.Valid() && q == m.Look(i, j)
    requires q < 0 ==> d == Skip
    requires q >= 0 ==> var u, k := |Window(i, j) * m.Unknown()|, q - |Window(i, j) * m.Marked()|;
      d == if u == 0 then Skip else if k == 0 then ProbeAll else if k == u then MarkAll else Skip
    ensures d == Rule(m, i, j)
  {
  }

  /** The first inference of apply: probe around (x, y), which has unknown neighbours. */
  method ProbeStep(m: MineMap, x: int, y: int, s: seq<Point>) returns (r: seq<Point>)
    requires Playing(m) && IsSet(PointLess, s)
    requires Window(x, y) * m.Unknown() != {} && Window(x, y) * m.Unknown() * m.Mines == {}
    modifies m, m.unprobedMap
    ensures Playing(m) && IsSet(PointLess, r)
    ensures m.Unknown() == old(m.Unknown()) - Window(x, y) && m.Marked() == old(m.Marked())
    ensures |m.Unknown()| < old(|m.Unknown()|)
    ensures Elems(r) == Elems(s) + Window5(x, y) * m.Opened()
  {
    ghost var unknown0 := m.Unknown();
    r := ProbeAround(m, x, y, s);
    Shrinks(unknown0, m.Unknown(), Window(x, y));
  }

  /** The second inference of apply: mark around (x, y), which has unknown neighbours. */
  method MarkStep(m: MineMap, x: int, y: int, s: seq<Point>) returns (r: seq<Point>)
    requires Playing(m) && IsSet(PointLess, s)
    requires Window(x, y) * m.Unknown() != {} && Window(x, y) * m.Unknown() - m.Mines == {}
    modifies m, m.markMap
    ensures Playing(m) && IsSet(PointLess, r)
    ensures m.Unknown() == old(m.Unknown()) - Window(x, y)
    ensures m.Marked() == old(m.Marked()) + Window(x, y) * old(m.Unknown())
    ensures |m.Unknown()| < old(|m.Unknown()|)
    ensures Elems(r) == Elems(s) + Window5(x, y) * m.Opened()
  {
    ghost var unknown0 := m.Unknown();
    r := MarkAround(m, x, y, s);
    Shrinks(unknown0, m.Unknown(), Window(x, y));
  }

  /**
   * The two inferences of apply, on a board without mistakes: an opened cell whose
   * count `q` equals the marks around it has no hidden mine around it, and one whose
   * count equals the marks plus the unknown cells around it has only mines there.
   */
  lemma Deduce(m: MineMap, x: int, y: int, q: int, marks: int, u: int)
    requires m.Sound() && q == m.Look(x, y) && q >= 0
    requires marks == |Window(x, y) * m.Marked()| && u == |Window(x, y) * m.Unknown()|
    ensures q - marks == 0 ==> Window(x, y) * m.Unknown() * m.Mines == {}
    ensures q - marks == u ==> Window(x, y) * m.Unknown() - m.Mines == {}
    ensures u > 0 ==> Window(x, y) * m.Unknown() != {}
  {
    m.OpenedIsCountLook(Point(x, y));
    m.MinesAround(x, y);
    if q - marks == 0 {
      HiddenMinesNone(Window(x, y) * m.Unknown(), m.Mines);
    }
    if q - marks == u {
      HiddenMinesAll(Window(x, y) * m.Unknown(), m.Mines);
    }
  }

  lemma Outside(p: Point, a: set<Point>, b: set<Point>)
    requires p in a && a * b == {}
    ensures p !in b
  {
    assert p !in a * b;
  }

  lemma Inside(p: Point, a: set<Point>, b: set<Point>)
    requires p in a && a - b == {}
    ensures p in b
  {
    assert p !in a - b;
  }

  lemma HiddenMinesNone(w: set<Point>, mines: set<Point>)
    requires |w * mines| == 0
    ensures w * mines == {}
  {
  }

  lemma HiddenMinesAll(w: set<Point>, mines: set<Point>)
    requires |w * mines| == |w|
    ensures w - mines == {}
  {
    assert w == (w * mines) + (w - mines);
    assert (w * mines) * (w - mines) == {};
  }

  lemma Shrinks(before: set<Point>, after: set<Point>, w: set<Point>)
    requires after == before - w && before * w != {}
    ensures |after| < |before|
  {
    var p :| p in before * w;
    assert after <= before - {p};
  }
}
