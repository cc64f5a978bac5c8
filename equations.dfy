/**
 * Equations over board cells (eqn/Eqn.java) and why the deductions the equation
 * strategy draws from them are sound.
 *
 * An equation `c = p0 + ... + pn` says that exactly `c` of the cells p0 .. pn hold a
 * mine.  It is Satisfied by a mine layout M when that is so.  Each lemma below takes
 * satisfied equations to a conclusion one rule of eqn/MioStrategy.java acts on.
 */
module Eqns {
  import opened Sets
  import opened Points

  /** Eqn(constant, points); the accessors constant() and points() are the fields. */
  datatype Eqn = Eqn(constant: int, points: seq<Point>)

  /** The point list of an equation is a set (a sorted list of distinct points). */
  ghost predicate WellFormed(e: Eqn) {
    IsSet(PointLess, e.points)
  }

  /** same (Eqn.java): equal constants and the same point sets. */
  function EqnSame(e0: Eqn, e1: Eqn): (b: bool)
    ensures b <==> e0 == e1
  {
    e0.constant == e1.constant && ListSame(e0.points, e1.points)
  }

  /** less (Eqn.java): by constant, then by the point sets' order. */
  function EqnLess(e0: Eqn, e1: Eqn): (b: bool)
  {
    e0.constant < e1.constant
    || (e0.constant == e1.constant && ListLess(PointLess, e0.points, e1.points))
  }

  /** Equations may be kept in sets: EqnLess is a strict linear order. */
  lemma EqnLessIsOrder()
    ensures StrictTotalOrder(EqnLess)
  {
    PointLessIsOrder();
    forall a: Eqn {
      LessIrreflexive(PointLess, a.points);
    }
    forall a: Eqn, b: Eqn, c: Eqn | EqnLess(a, b) && EqnLess(b, c)
      ensures EqnLess(a, c)
    {
      if a.constant == b.constant == c.constant {
        LessTransitive(PointLess, a.points, b.points, c.points);
      }
    }
    forall a: Eqn, b: Eqn
      ensures a == b || EqnLess(a, b) || EqnLess(b, a)
    {
      LessTrichotomous(PointLess, a.points, b.points);
    }
  }

  /** The equation holds in the mine layout `mines`. */
  ghost predicate Satisfied(e: Eqn, mines: set<Point>) {
    e.constant == |Elems(e.points) * mines|
  }

  /*
   * Counting mines in pieces of a set.
   */

  lemma CardSplit(a: set<Point>, b: set<Point>, m: set<Point>)
    ensures |a * m| == |(a - b) * m| + |(a * b) * m|
  {
    assert a * m == (a - b) * m + (a * b) * m;
    assert ((a - b) * m) * ((a * b) * m) == {};
  }

  lemma InclusionExclusion(a: set<Point>, b: set<Point>, m: set<Point>)
    ensures |a * m| + |b * m| == |(a + b) * m| + |(a * b) * m|
  {
    assert (a + b) * m == a * m + b * m;
    assert (a * b) * m == (a * m) * (b * m);
  }

  /** A subset as large as its superset is the superset. */
  lemma FullSubset(a: set<Point>, b: set<Point>)
    requires a <= b && |a| >= |b|
    ensures a == b
  {
    assert b == a + (b - a);
    assert a * (b - a) == {};
  }

  /** A set holds at most as many mines as it has points. */
  lemma MinesAtMost(a: set<Point>, mines: set<Point>)
    ensures |a * mines| <= |a|
  {
    assert a == a * mines + (a - mines);
    assert (a * mines) * (a - mines) == {};
  }

  lemma ElemsCard(t: seq<Point>)
    requires IsSet(PointLess, t)
    ensures |Elems(t)| == |t|
  {
    CardIsSize(PointLess, t);
  }

  /*
   * The single equation rule (MioStrategy.single_equation_rule).
   */

  /** `0 = p0 + ... + pn`: no point of the equation holds a mine. */
  lemma ZeroEqnSafe(e: Eqn, mines: set<Point>)
    requires Satisfied(e, mines) && e.constant == 0
    ensures forall p :: p in e.points ==> p !in mines
  {
    var hit := Elems(e.points) * mines;
    assert hit == {};
    forall p | p in e.points ensures p !in mines {
      assert p in Elems(e.points) && p !in hit;
    }
  }

  /** `c = p0 + ... + pn` with c the number of points: every point holds a mine. */
  lemma FullEqnMines(e: Eqn, mines: set<Point>)
    requires WellFormed(e) && Satisfied(e, mines) && e.constant == |e.points|
    ensures forall p :: p in e.points ==> p in mines
  {
    ElemsCard(e.points);
    FullSubset(Elems(e.points) * mines, Elems(e.points));
    forall p | p in e.points ensures p in mines {
      assert p in Elems(e.points);
    }
  }

  /** The equations the strategy adds for a probed and for a marked cell. */
  lemma UnitEqns(p: Point, mines: set<Point>)
    ensures Satisfied(Eqn(0, [p]), mines) <==> p !in mines
    ensures Satisfied(Eqn(1, [p]), mines) <==> p in mines
  {
    assert Elems([p]) == {p};
    if p in mines {
      assert Elems([p]) * mines == {p};
    } else {
      assert Elems([p]) * mines == {};
    }
  }

  /*
   * The subset rule (MioStrategy.subset_rule).
   */

  /**
   * From c0 = P0 and c1 = P1 with P0 a proper subset of P1 follows
   * c1 - c0 = P1 - P0, and the new equation is well formed.
   */
  lemma SubsetSound(e0: Eqn, e1: Eqn, mines: set<Point>)
    requires WellFormed(e0) && WellFormed(e1)
    requires Satisfied(e0, mines) && Satisfied(e1, mines)
    requires Elems(e0.points) < Elems(e1.points)
    ensures WellFormed(Eqn(e1.constant - e0.constant, Difference(PointLess, e1.points, e0.points)))
    ensures Satisfied(Eqn(e1.constant - e0.constant, Difference(PointLess, e1.points, e0.points)), mines)
    ensures e1.constant - e0.constant >= 0
  {
    var p0, p1 := Elems(e0.points), Elems(e1.points);
    CardSplit(p1, p0, mines);
    assert p1 * p0 == p0;
  }

  /*
   * The equation difference rules (MioStrategy.eqn_diff_rule).
   */

  /** DiffSound on the sets the equations denote. */
  lemma DiffSets(p0: set<Point>, p1: set<Point>, mines: set<Point>)
    requires |p1 - p0| == |p1 * mines| - |p0 * mines|
    ensures p1 - p0 <= mines && (p0 - p1) * mines == {}
  {
    CardSplit(p1, p0, mines);
    CardSplit(p0, p1, mines);
    assert p1 * p0 == p0 * p1;
    FullSubset((p1 - p0) * mines, p1 - p0);
  }

  /**
   * Two equations: when P1 - P0 has exactly c1 - c0 points, all of them are mines
   * and no point of P0 - P1 is.
   */
  lemma DiffSound(e0: Eqn, e1: Eqn, mines: set<Point>)
    requires WellFormed(e0) && WellFormed(e1)
    requires Satisfied(e0, mines) && Satisfied(e1, mines)
    requires |Difference(PointLess, e1.points, e0.points)| == e1.constant - e0.constant
    ensures forall p :: p in Difference(PointLess, e1.points, e0.points) ==> p in mines
    ensures forall p :: p in Difference(PointLess, e0.points, e1.points) ==> p !in mines
  {
    var p0, p1 := Elems(e0.points), Elems(e1.points);
    var d10 := Difference(PointLess, e1.points, e0.points);
    var d01 := Difference(PointLess, e0.points, e1.points);
    ElemsCard(d10);
    DiffSets(p0, p1, mines);
    forall p | p in d10 ensures p in mines {
      assert p in Elems(d10);
    }
    forall p | p in d01 ensures p !in mines {
      assert p in Elems(d01);
    }
  }

  /** The probe set of the three-equation rule: ((P0 + P2) - P1) + (P0 * P2). */
  function DoubleElimProbes(e0: Eqn, e1: Eqn, e2: Eqn): (r: seq<Point>)
    requires WellFormed(e0) && WellFormed(e1) && WellFormed(e2)
    ensures IsSet(PointLess, r)
    ensures Elems(r) == ((Elems(e0.points) + Elems(e2.points)) - Elems(e1.points))
                        + (Elems(e0.points) * Elems(e2.points))
  {
    var u := Union(PointLess, e0.points, e2.points);
    var d := Difference(PointLess, u, e1.points);
    Union(PointLess, d, Intersect(PointLess, e0.points, e2.points))
  }

  /** The mark set of the three-equation rule: (P1 - P0) - P2. */
  function DoubleElimMarks(e0: Eqn, e1: Eqn, e2: Eqn): (r: seq<Point>)
    requires WellFormed(e0) && WellFormed(e1) && WellFormed(e2)
    ensures IsSet(PointLess, r)
    ensures Elems(r) == (Elems(e1.points) - Elems(e0.points)) - Elems(e2.points)
  {
    Difference(PointLess, Difference(PointLess, e1.points, e0.points), e2.points)
  }

  /** DoubleElimSound on the sets the equations denote. */
  lemma DoubleElimSets(p0: set<Point>, p1: set<Point>, p2: set<Point>, mines: set<Point>)
    requires |(p1 - p0) - p2| == |p1 * mines| - |p0 * mines| - |p2 * mines|
    ensures (p1 - p0) - p2 <= mines
    ensures (((p0 + p2) - p1) + (p0 * p2)) * mines == {}
  {
    var a := p1 - p0;
    var marks := a - p2;
    var x := (a * p2) + (p1 * p0);
    var y := (p0 + p2) - x;
    CardSplit(p1, p0, mines);
    CardSplit(a, p2, mines);
    InclusionExclusion(p0, p2, mines);
    XCount(a * p2, p1 * p0, mines);
    CardSplit(p0 + p2, x, mines);
    assert (p0 + p2) * x == x;
    FullSubset(marks * mines, marks);
    assert y * mines == {} && (p0 * p2) * mines == {};
    assert ((p0 + p2) - p1) <= y;
  }

  lemma XCount(a: set<Point>, b: set<Point>, mines: set<Point>)
    requires a * b == {}
    ensures |(a + b) * mines| == |a * mines| + |b * mines|
  {
    assert (a + b) * mines == a * mines + b * mines;
    assert (a * mines) * (b * mines) == {};
  }

  /**
   * Three equations (the double elimination): subtracting c0 = P0 and c2 = P2 from
   * c1 = P1, when (P1 - P0) - P2 has exactly c1 - c0 - c2 points, all of them are
   * mines and no point of ((P0 + P2) - P1) + (P0 * P2) is.
   */
  lemma DoubleElimSound(e0: Eqn, e1: Eqn, e2: Eqn, mines: set<Point>)
    requires WellFormed(e0) && WellFormed(e1) && WellFormed(e2)
    requires Satisfied(e0, mines) && Satisfied(e1, mines) && Satisfied(e2, mines)
    requires |DoubleElimMarks(e0, e1, e2)| == e1.constant - e0.constant - e2.constant
    ensures forall p :: p in DoubleElimMarks(e0, e1, e2) ==> p in mines
    ensures forall p :: p in DoubleElimProbes(e0, e1, e2) ==> p !in mines
  {
    ElemsCard(DoubleElimMarks(e0, e1, e2));
    DoubleElimSets(Elems(e0.points), Elems(e1.points), Elems(e2.points), mines);
    forall p | p in DoubleElimMarks(e0, e1, e2) ensures p in mines {
      assert p in Elems(DoubleElimMarks(e0, e1, e2));
    }
    forall p | p in DoubleElimProbes(e0, e1, e2) ensures p !in mines {
      assert p in Elems(DoubleElimProbes(e0, e1, e2));
    }
  }
}
