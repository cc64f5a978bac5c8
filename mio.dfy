/**
 * The Mio equation strategy (eqn/MioStrategy.java).
 *
 * The strategy keeps a set of equations `c = p0 + ... + pn` over the unknown cells,
 * indexed by cell: em[y, x] holds exactly the equations that mention (x, y).  Probing
 * or marking a cell turns into an equation about its neighbours; three rules combine
 * equations into new ones or into cells known to be safe (probed) or mined (marked).
 *
 * The model proves the index invariant kept by adjoin, remove and remove_at, and the
 * soundness of the rules: every equation the strategy ever holds is true of the real
 * mine layout, so every probe a rule makes is on a safe cell and every mark is on a
 * mine.  Only the guess made when no rule applies can lose the game.
 */
module Mio {
  import opened Sets
  import opened Points
  import opened Eqns
  import opened Board
  import SinglePoint

  /** The bucket of cell `p`: a set of equations, exactly those of `eqns` naming `p`. */
  ghost predicate Bucket(es: seq<Eqn>, eqns: set<Eqn>, p: Point) {
    IsSet(EqnLess, es) && forall e :: e in es <==> e in eqns && p in e.points
  }

  /**
   * The equation the count q reported at p gives, on a board whose unknown cells are
   * `unknown` and whose marked cells are `marked`: q less the marks around p equals the
   * sum over the unknown cells around p.
   */
  ghost predicate NearFact(e: Eqn, p: Point, q: int, unknown: set<Point>, marked: set<Point>) {
    && WellFormed(e)
    && Elems(e.points) == Window(p.x, p.y) * unknown
    && e.constant == q - |Window(p.x, p.y) * marked|
  }

  /** A count gives one equation only. */
  lemma NearFactUnique(e: Eqn, e': Eqn, p: Point, q: int, unknown: set<Point>, marked: set<Point>)
    requires NearFact(e, p, q, unknown, marked) && NearFact(e', p, q, unknown, marked)
    ensures e == e'
  {
    SortedUnique(PointLess, e.points, e'.points);
  }

  /**
   * The equation init_eqn_map adjoins for the cell p of a board: p is opened, and e is
   * the equation its count of the mines around gives, over at least one unknown cell.
   */
  ghost predicate CountEqn(e: Eqn, p: Point, shown: set<Point>, unknown: set<Point>, marked: set<Point>, mines: set<Point>) {
    p in shown && e.points != [] && NearFact(e, p, Adjacent(mines, p.x, p.y), unknown, marked)
  }

  /** Adjoining the count equation e of the opened cell p adds exactly the count equations of p. */
  lemma OneCountEqn(e: Eqn, p: Point, eqns0: set<Eqn>, eqns1: set<Eqn>,
                    shown: set<Point>, unknown: set<Point>, marked: set<Point>, mines: set<Point>)
    requires p in shown && NearFact(e, p, Adjacent(mines, p.x, p.y), unknown, marked)
    requires eqns1 == eqns0 + (if e.points == [] then {} else {e})
    ensures forall e' :: e' in eqns1 <==> e' in eqns0 || CountEqn(e', p, shown, unknown, marked, mines)
  {
    forall e' | CountEqn(e', p, shown, unknown, marked, mines) ensures e' == e {
      NearFactUnique(e', e, p, Adjacent(mines, p.x, p.y), unknown, marked);
    }
  }

  /** The count equations of cells 0..x-1 of row y and that of cell x are those of cells 0..x. */
  lemma CellsGrow(x: int, y: int, eqns00: set<Eqn>, eqns0: set<Eqn>, eqns1: set<Eqn>,
                  shown: set<Point>, unknown: set<Point>, marked: set<Point>, mines: set<Point>)
    requires 0 <= x
    requires forall e :: e in eqns0 <==> e in eqns00 || exists x' :: 0 <= x' < x && CountEqn(e, Point(x', y), shown, unknown, marked, mines)
    requires forall e :: e in eqns1 <==> e in eqns0 || CountEqn(e, Point(x, y), shown, unknown, marked, mines)
    ensures forall e :: e in eqns1 <==> e in eqns00 || exists x' :: 0 <= x' < x + 1 && CountEqn(e, Point(x', y), shown, unknown, marked, mines)
  {
    forall e ensures e in eqns1 <==> e in eqns00 || exists x' :: 0 <= x' < x + 1 && CountEqn(e, Point(x', y), shown, unknown, marked, mines) {
      if e in eqns1 && e !in eqns00 {
        if e in eqns0 {
          var x' :| 0 <= x' < x && CountEqn(e, Point(x', y), shown, unknown, marked, mines);
          assert 0 <= x' < x + 1;
        } else {
          assert CountEqn(e, Point(x, y), shown, unknown, marked, mines);
        }
      }
      if exists x' :: 0 <= x' < x + 1 && CountEqn(e, Point(x', y), shown, unknown, marked, mines) {
        var x' :| 0 <= x' < x + 1 && CountEqn(e, Point(x', y), shown, unknown, marked, mines);
        if x' < x {
          assert e in eqns0;
        }
      }
    }
  }

  /** The count equations of rows 0..y-1 and those of row y (c cells wide) are those of rows 0..y. */
  lemma RowsGrow(y: int, c: int, eqns0: set<Eqn>, eqns1: set<Eqn>,
                 shown: set<Point>, unknown: set<Point>, marked: set<Point>, mines: set<Point>)
    requires forall p :: p in shown ==> 0 <= p.x < c
    requires forall e :: e in eqns0 <==> exists p: Point :: p.y < y && CountEqn(e, p, shown, unknown, marked, mines)
    requires forall e :: e in eqns1 <==> e in eqns0 || exists x :: 0 <= x < c && CountEqn(e, Point(x, y), shown, unknown, marked, mines)
    ensures forall e :: e in eqns1 <==> exists p: Point :: p.y < y + 1 && CountEqn(e, p, shown, unknown, marked, mines)
  {
    forall e ensures e in eqns1 <==> exists p: Point :: p.y < y + 1 && CountEqn(e, p, shown, unknown, marked, mines) {
      if e in eqns1 && e !in eqns0 {
        var x :| 0 <= x < c && CountEqn(e, Point(x, y), shown, unknown, marked, mines);
        assert Point(x, y).y < y + 1;
      }
      if exists p: Point :: p.y < y + 1 && CountEqn(e, p, shown, unknown, marked, mines) {
        var p: Point :| p.y < y + 1 && CountEqn(e, p, shown, unknown, marked, mines);
        if p.y == y {
          assert 0 <= p.x < c && CountEqn(e, Point(p.x, y), shown, unknown, marked, mines);
        }
      }
    }
  }

  /** Once all r rows are done, the count equations held are those of every cell. */
  lemma AllRows(r: int, c: int, eqns: set<Eqn>, shown: set<Point>, unknown: set<Point>, marked: set<Point>, mines: set<Point>)
    requires shown <= Cells(r, c)
    requires forall e :: e in eqns <==> exists p: Point :: p.y < r && CountEqn(e, p, shown, unknown, marked, mines)
    ensures forall e :: e in eqns <==> exists p :: CountEqn(e, p, shown, unknown, marked, mines)
  {
    forall e | exists p :: CountEqn(e, p, shown, unknown, marked, mines) ensures e in eqns {
      var p :| CountEqn(e, p, shown, unknown, marked, mines);
      assert p.y < r;
    }
  }

  /** Taking one more element out of a region kept as a - b. */
  lemma ShrinkBy<T>(s: set<T>, a: set<T>, b: set<T>, x: T)
    requires s == a - b
    ensures s - {x} == a - (b + {x})
  {
  }

  /** Taking x out of what is left of `all` adds it to what is done. */
  lemma DoneGrows<T>(all: set<T>, left: set<T>, x: T)
    requires x in left && left <= all
    ensures all - (left - {x}) == (all - left) + {x}
  {
  }

  /** Once nothing is left, all is done. */
  lemma AllDone<T>(all: set<T>, left: seq<T>)
    requires left == []
    ensures all - Elems(left) == all
  {
  }

  /** A list whose every element is absent is empty. */
  lemma NoneLeft<T>(t: seq<T>)
    ensures (forall x :: x !in t) ==> t == []
  {
    if t != [] {
      assert t[0] in t;
    }
  }

  /** The subset rule applies to (e0, e1): c1 >= c0 and the points of e0 are a proper subset of those of e1. */
  ghost predicate Nested(e0: Eqn, e1: Eqn) {
    WellFormed(e1) && e1.constant - e0.constant >= 0 && Elems(e0.points) < Elems(e1.points)
  }

  /** The equation the subset rule derives from (e0, e1): c1 - c0 = P1 - P0. */
  function SubsetEqn(e0: Eqn, e1: Eqn): Eqn
    requires WellFormed(e1)
  {
    Eqn(e1.constant - e0.constant, Difference(PointLess, e1.points, e0.points))
  }

  /** What the subset rule makes of the pair (e0, e1): when they are nested, the map holds their difference. */
  ghost predicate Derived(e0: Eqn, e1: Eqn, eqns: set<Eqn>) {
    Nested(e0, e1) ==> SubsetEqn(e0, e1) in eqns
  }

  /** The equations the subset rule derives from the nested pairs of xs by ys. */
  ghost function Derivations(xs: set<Eqn>, ys: set<Eqn>): set<Eqn> {
    set e0, e1 | e0 in xs && e1 in ys && Nested(e0, e1) :: SubsetEqn(e0, e1)
  }

  /** The cells the equations of es range over. */
  ghost function PointsOf(es: set<Eqn>): set<Point> {
    set e, q | e in es && q in e.points :: q
  }

  /** The cells of a union of equation sets are those of its parts. */
  lemma PointsOfUnion(a: set<Eqn>, b: set<Eqn>)
    ensures PointsOf(a + b) == PointsOf(a) + PointsOf(b)
  {
    forall q | q in PointsOf(a + b) ensures q in PointsOf(a) + PointsOf(b) {
      var e :| e in a + b && q in e.points;
      if e in a {
        assert q in PointsOf(a);
      } else {
        assert q in PointsOf(b);
      }
    }
    forall q | q in PointsOf(a) + PointsOf(b) ensures q in PointsOf(a + b) {
      if q in PointsOf(a) {
        var e :| e in a && q in e.points;
        assert e in a + b;
      } else {
        var e :| e in b && q in e.points;
        assert e in a + b;
      }
    }
  }

  /** The cells of one equation. */
  lemma PointsOfOne(e: Eqn)
    ensures PointsOf({e}) == Elems(e.points)
  {
    forall q | q in Elems(e.points) ensures q in PointsOf({e}) {
      assert e in {e} && q in e.points;
    }
  }

  /** Pairing e0 with one more equation e1 derives SubsetEqn(e0, e1) too, if they are nested. */
  lemma DerivationsStep(e0: Eqn, done: set<Eqn>, e1: Eqn)
    ensures Derivations({e0}, done + {e1}) == Derivations({e0}, done) + (if Nested(e0, e1) then {SubsetEqn(e0, e1)} else {})
  {
    forall e | e in Derivations({e0}, done + {e1})
      ensures e in Derivations({e0}, done) || (Nested(e0, e1) && e == SubsetEqn(e0, e1))
    {
      var a, b :| a in {e0} && b in done + {e1} && Nested(a, b) && e == SubsetEqn(a, b);
      if b != e1 {
        assert b in done;
      }
    }
    if Nested(e0, e1) {
      assert e0 in {e0} && e1 in done + {e1};
    }
  }

  /** Pairing one more first equation x with ys adds the derivations of x. */
  lemma DerivationsSplit(xs: set<Eqn>, x: Eqn, ys: set<Eqn>)
    ensures Derivations(xs + {x}, ys) == Derivations(xs, ys) + Derivations({x}, ys)
  {
    forall e | e in Derivations(xs + {x}, ys) ensures e in Derivations(xs, ys) + Derivations({x}, ys) {
      var a, b :| a in xs + {x} && b in ys && Nested(a, b) && e == SubsetEqn(a, b);
      if a == x {
        assert a in {x};
      } else {
        assert a in xs;
      }
    }
    forall e | e in Derivations(xs, ys) + Derivations({x}, ys) ensures e in Derivations(xs + {x}, ys) {
      if e in Derivations(xs, ys) {
        var a, b :| a in xs && b in ys && Nested(a, b) && e == SubsetEqn(a, b);
        assert a in xs + {x};
      } else {
        var a, b :| a in {x} && b in ys && Nested(a, b) && e == SubsetEqn(a, b);
        assert a in xs + {x};
      }
    }
  }

  /** Nothing paired with nothing derives nothing. */
  lemma DerivationsNone(xs: set<Eqn>, ys: set<Eqn>)
    requires xs == {} || ys == {}
    ensures Derivations(xs, ys) == {}
  {
  }

  /** Every pair of xs by ys is derived in a map holding Derivations(xs, ys). */
  lemma DerivationsDerive(xs: set<Eqn>, ys: set<Eqn>, eqns: set<Eqn>)
    requires Derivations(xs, ys) <= eqns
    ensures forall e0, e1 :: e0 in xs && e1 in ys ==> Derived(e0, e1, eqns)
  {
    forall e0, e1 | e0 in xs && e1 in ys && Nested(e0, e1) ensures SubsetEqn(e0, e1) in eqns {
      assert SubsetEqn(e0, e1) in Derivations(xs, ys);
    }
  }

  /**
   * The equations and candidate cells after one more pair (e0, e1) of subset_rule's
   * inner loop, from those before it and what the pair did.
   */
  lemma SubsetNextSets(e0: Eqn, e1: Eqn, done: set<Eqn>, eqns0: set<Eqn>, ps0: set<Point>,
                       eqns: set<Eqn>, ps: set<Point>, eqns': set<Eqn>, ps': set<Point>)
    requires eqns == eqns0 + Derivations({e0}, done)
    requires ps == ps0 + PointsOf(eqns - eqns0)
    requires Nested(e0, e1) && SubsetEqn(e0, e1) !in eqns ==>
      eqns' == eqns + {SubsetEqn(e0, e1)} && ps' == ps + Elems(SubsetEqn(e0, e1).points)
    requires !(Nested(e0, e1) && SubsetEqn(e0, e1) !in eqns) ==> eqns' == eqns && ps' == ps
    ensures eqns' == eqns0 + Derivations({e0}, done + {e1})
    ensures ps' == ps0 + PointsOf(eqns' - eqns0)
  {
    DerivationsStep(e0, done, e1);
    if Nested(e0, e1) && SubsetEqn(e0, e1) !in eqns {
      var d := SubsetEqn(e0, e1);
      assert eqns' - eqns0 == (eqns - eqns0) + {d};
      PointsOfUnion(eqns - eqns0, {d});
      PointsOfOne(d);
    }
  }

  /**
   * The equations and candidate cells after one more row e0 of subset_rule's outer
   * loop, from those before it and what the row did.
   */
  lemma SubsetRowSets(e0: Eqn, done: set<Eqn>, all: set<Eqn>, eqns0: set<Eqn>, ps0: set<Point>,
                      eqns: set<Eqn>, ps: set<Point>, eqns': set<Eqn>, ps': set<Point>)
    requires eqns == eqns0 + Derivations(done, all)
    requires ps == ps0 + PointsOf(eqns - eqns0)
    requires eqns' == eqns + Derivations({e0}, all)
    requires ps' == ps + PointsOf(eqns' - eqns)
    ensures eqns' == eqns0 + Derivations(done + {e0}, all)
    ensures ps' == ps0 + PointsOf(eqns' - eqns0)
  {
    DerivationsSplit(done, e0, all);
    assert eqns' - eqns0 == (eqns - eqns0) + (eqns' - eqns);
    PointsOfUnion(eqns - eqns0, eqns' - eqns);
  }

  /** The equations of es that use the cell p: what at(p) returns when es is held. */
  ghost function AtCell(es: set<Eqn>, p: Point): set<Eqn> {
    set e | e in es && p in e.points
  }

  /** The equations held after subset_rule(p) on es: the differences of the nested pairs at p join them. */
  ghost function Subsumed(es: set<Eqn>, p: Point): set<Eqn> {
    es + Derivations(AtCell(es, p), AtCell(es, p))
  }

  /** The equations held after remove_at(p) on es. */
  ghost function Dropped(es: set<Eqn>, p: Point): set<Eqn> {
    set e | e in es && p !in e.points
  }

  /**
   * The equations a probe round (c = 0) or a mark round (c = 1) leaves of es: adjoin
   * c = p, apply the subset rule at p, then drop every equation at p.
   */
  ghost function SettledEqns(es: set<Eqn>, p: Point, c: int): set<Eqn> {
    Dropped(Subsumed(es + {Eqn(c, [p])}, p), p)
  }

  /** The cells such a round queues: those of the derived equations that were new. */
  ghost function SettledQueue(es: set<Eqn>, p: Point, c: int): set<Point> {
    PointsOf(Subsumed(es + {Eqn(c, [p])}, p) - (es + {Eqn(c, [p])}))
  }

  /**
   * Settling c = p propagates it: each equation at p with another cell and a constant
   * of at least c is replaced by its reduct, which lacks p and has c taken off.
   */
  lemma SettleReduces(es: set<Eqn>, p: Point, c: int, e: Eqn)
    requires e in es && WellFormed(e) && p in e.points && |e.points| > 1 && e.constant >= c
    ensures SubsetEqn(Eqn(c, [p]), e) in SettledEqns(es, p, c)
    ensures SubsetEqn(Eqn(c, [p]), e).constant == e.constant - c
    ensures Elems(SubsetEqn(Eqn(c, [p]), e).points) == Elems(e.points) - {p}
  {
    var unit := Eqn(c, [p]);
    var a := AtCell(es + {unit}, p);
    assert unit in a && e in a;
    var q := if e.points[0] == p then e.points[1] else e.points[0];
    assert q in Elems(e.points) && q != p;
    assert Elems(unit.points) == {p};
    assert Nested(unit, e);
    var d := SubsetEqn(unit, e);
    assert d in Derivations(a, a);
    assert p !in Elems(d.points);
  }

  /** The cells of the 3x3 window around (x, y) in row-major order, the order unknowns_near visits them. */
  ghost function WindowList(x: int, y: int): seq<Point> {
    [Point(x - 1, y - 1), Point(x, y - 1), Point(x + 1, y - 1),
     Point(x - 1, y), Point(x, y), Point(x + 1, y),
     Point(x - 1, y + 1), Point(x, y + 1), Point(x + 1, y + 1)]
  }

  /** The elements of t that lie in s, in the order of t. */
  ghost function Keep(t: seq<Point>, s: set<Point>): seq<Point> {
    if t == [] then [] else (if t[0] in s then [t[0]] else []) + Keep(t[1..], s)
  }

  lemma {:induction false} KeepSorted(t: seq<Point>, s: set<Point>)
    requires Sorted(PointLess, t)
    ensures Sorted(PointLess, Keep(t, s)) && Elems(Keep(t, s)) == Elems(t) * s
  {
    if t != [] {
      SortedTail(PointLess, t);
      KeepSorted(t[1..], s);
      ElemsCons(t);
      var k := Keep(t[1..], s);
      if t[0] in s {
        forall x | x in k ensures PointLess(t[0], x) {
          assert x in Elems(k);
        }
        SortedCons(PointLess, t[0], k);
        assert Keep(t, s) == [t[0]] + k;
        ElemsCons([t[0]] + k);
        assert ([t[0]] + k)[1..] == k;
      } else {
        assert Keep(t, s) == k;
      }
    }
  }

  /** The window list is a sorted list of exactly the window's cells. */
  lemma WindowListSet(x: int, y: int)
    ensures Sorted(PointLess, WindowList(x, y)) && Elems(WindowList(x, y)) == Window(x, y)
  {
    var t := WindowList(x, y);
    forall q | q in Window(x, y) ensures q in t {
      assert x - 1 <= q.x < x + 2 && y - 1 <= q.y < y + 2;
    }
  }

  /** The unknown cells around p, as the sorted list unknowns_near builds. */
  ghost function NearCells(p: Point, unknown: set<Point>): seq<Point> {
    Keep(WindowList(p.x, p.y), unknown)
  }

  /** NearCells is a set of exactly the unknown cells of p's window. */
  lemma NearCellsSet(p: Point, unknown: set<Point>)
    ensures IsSet(PointLess, NearCells(p, unknown)) && Elems(NearCells(p, unknown)) == Window(p.x, p.y) * unknown
  {
    PointLessIsOrder();
    WindowListSet(p.x, p.y);
    KeepSorted(WindowList(p.x, p.y), unknown);
  }

  /**
   * The equation a probe round adjoins for the safe cell p on a board whose unknown
   * and marked cells are `unknown` and `marked`: the count less the marks nearby, over
   * the unknown neighbours.
   */
  ghost function CountEqnAt(p: Point, unknown: set<Point>, marked: set<Point>, mines: set<Point>): Eqn {
    Eqn(RectCount(mines, p.x - 1, p.x + 2, p.y - 1, p.y + 2) - RectCount(marked, p.x - 1, p.x + 2, p.y - 1, p.y + 2),
        NearCells(p, unknown))
  }

  /** The count equation is the one NearFact describes, and no other. */
  lemma CountEqnIs(e: Eqn, p: Point, unknown: set<Point>, marked: set<Point>, mines: set<Point>)
    requires NearFact(e, p, Adjacent(mines, p.x, p.y), unknown, marked)
    ensures e == CountEqnAt(p, unknown, marked, mines)
  {
    var t := NearCells(p, unknown);
    NearCellsSet(p, unknown);
    RectCountIsCard(mines, p.x - 1, p.x + 2, p.y - 1, p.y + 2);
    RectCountIsCard(marked, p.x - 1, p.x + 2, p.y - 1, p.y + 2);
    var c := Eqn(Adjacent(mines, p.x, p.y) - |Window(p.x, p.y) * marked|, t);
    assert c == CountEqnAt(p, unknown, marked, mines);
    assert NearFact(c, p, Adjacent(mines, p.x, p.y), unknown, marked);
    NearFactUnique(e, c, p, Adjacent(mines, p.x, p.y), unknown, marked);
  }

  /** What adjoin(e) does to the equations held: an equation without cells is not stored. */
  ghost function With(es: set<Eqn>, e: Eqn): set<Eqn> {
    if e.points == [] then es else es + {e}
  }

  /**
   * The equations held after probe_points(ps0) on es, on a board whose unknown and
   * marked cells are `unknown` and `marked`: each cell in turn leaves the unknown ones,
   * is settled with 0 = p, and its count equation over the cells still unknown is adjoined.
   */
  ghost function ProbedEqns(es: set<Eqn>, ps0: seq<Point>, unknown: set<Point>, marked: set<Point>, mines: set<Point>): set<Eqn>
    decreases |ps0|
  {
    if ps0 == [] then es
    else
      var p := ps0[0];
      var u := unknown - {p};
      ProbedEqns(With(SettledEqns(es, p, 0), CountEqnAt(p, u, marked, mines)), ps0[1..], u, marked, mines)
  }

  /** The cells probe_points(ps0) queues: those of each round's new equations and each count equation. */
  ghost function ProbedQueue(es: set<Eqn>, ps0: seq<Point>, unknown: set<Point>, marked: set<Point>, mines: set<Point>): set<Point>
    decreases |ps0|
  {
    if ps0 == [] then {}
    else
      var p := ps0[0];
      var u := unknown - {p};
      var e := CountEqnAt(p, u, marked, mines);
      SettledQueue(es, p, 0) + Elems(e.points) + ProbedQueue(With(SettledEqns(es, p, 0), e), ps0[1..], u, marked, mines)
  }

  /**
   * probe_points queues the unknown neighbours of every cell it probes, as they are once
   * that cell and the ones before it have left the unknown cells.
   */
  lemma {:induction false} ProbedQueueNeighbours(es: set<Eqn>, ps0: seq<Point>, unknown: set<Point>, marked: set<Point>,
                                                 mines: set<Point>, i: int)
    requires 0 <= i < |ps0|
    ensures Window(ps0[i].x, ps0[i].y) * (unknown - Elems(ps0[..i + 1])) <= ProbedQueue(es, ps0, unknown, marked, mines)
    decreases i
  {
    var p := ps0[0];
    var u := unknown - {p};
    var e := CountEqnAt(p, u, marked, mines);
    if i == 0 {
      NearCellsSet(p, u);
      assert Elems(ps0[..1]) == {p} by {
        assert ps0[..1] == [p];
      }
    } else {
      PrefixTail(ps0, i);
      ProbedQueueNeighbours(With(SettledEqns(es, p, 0), e), ps0[1..], u, marked, mines, i - 1);
    }
  }

  /** The first i + 1 cells of ps0 are its head and the first i cells of its tail. */
  lemma PrefixTail(ps0: seq<Point>, i: int)
    requires 0 < i < |ps0|
    ensures ps0[1..][i - 1] == ps0[i] && Elems(ps0[..i + 1]) == {ps0[0]} + Elems(ps0[1..][..i])
  {
    ElemsCons(ps0[..i + 1]);
    assert ps0[..i + 1][1..] == ps0[1..][..i];
  }

  /** The equations held after mark_points(ps0) on es: each cell in turn is settled with 1 = p. */
  ghost function MarkedEqns(es: set<Eqn>, ps0: seq<Point>): set<Eqn>
    decreases |ps0|
  {
    if ps0 == [] then es else MarkedEqns(SettledEqns(es, ps0[0], 1), ps0[1..])
  }

  /** The cells mark_points(ps0) queues, through the subset rule of each round. */
  ghost function MarkedQueue(es: set<Eqn>, ps0: seq<Point>): set<Point>
    decreases |ps0|
  {
    if ps0 == [] then {} else SettledQueue(es, ps0[0], 1) + MarkedQueue(SettledEqns(es, ps0[0], 1), ps0[1..])
  }

  /**
   * The equations held after single_equation_rule acts on the equation d it found:
   * probe_points of its cells when its constant is 0, mark_points of them otherwise.
   */
  ghost function RuleEqns(es: set<Eqn>, d: Option<Eqn>, unknown: set<Point>, marked: set<Point>, mines: set<Point>): set<Eqn> {
    match d
    case None => es
    case Some(e) => if e.constant == 0 then ProbedEqns(es, e.points, unknown, marked, mines) else MarkedEqns(es, e.points)
  }

  /** The cells single_equation_rule queues when it acts on d. */
  ghost function RuleQueue(es: set<Eqn>, d: Option<Eqn>, unknown: set<Point>, marked: set<Point>, mines: set<Point>): set<Point> {
    match d
    case None => {}
    case Some(e) => if e.constant == 0 then ProbedQueue(es, e.points, unknown, marked, mines) else MarkedQueue(es, e.points)
  }

  /**
   * The equations held after a difference rule has decided: mark_points(marks), then
   * probe_points(probes) on the board the marks leave.
   */
  ghost function DecidedEqns(es: set<Eqn>, marks: seq<Point>, probes: seq<Point>, unknown: set<Point>,
                             marked: set<Point>, mines: set<Point>): set<Eqn> {
    ProbedEqns(MarkedEqns(es, marks), probes, unknown - Elems(marks), marked + Elems(marks), mines)
  }

  /** The cells those two calls queue. */
  ghost function DecidedQueue(es: set<Eqn>, marks: seq<Point>, probes: seq<Point>, unknown: set<Point>,
                              marked: set<Point>, mines: set<Point>): set<Point> {
    MarkedQueue(es, marks) + ProbedQueue(MarkedEqns(es, marks), probes, unknown - Elems(marks), marked + Elems(marks), mines)
  }

  /** The difference rule fires on (e0, e1): c1 > c0 and P1 - P0 has exactly c1 - c0 cells. */
  ghost predicate DiffFires(e0: Eqn, e1: Eqn) {
    e1.constant - e0.constant > 0 && |DiffMarked(e0, e1)| == e1.constant - e0.constant
  }

  /** The cells the difference rule marks: P1 - P0. */
  ghost function DiffMarked(e0: Eqn, e1: Eqn): set<Point> {
    Elems(e1.points) - Elems(e0.points)
  }

  /** The cells the difference rule probes: P0 - P1. */
  ghost function DiffProbed(e0: Eqn, e1: Eqn): set<Point> {
    Elems(e0.points) - Elems(e1.points)
  }

  /**
   * The double elimination fires on (e0, e1, e2): c1 - c0 - c2 > 0 and (P1 - P0) - P2
   * has exactly that many cells.
   */
  ghost predicate ElimFires(e0: Eqn, e1: Eqn, e2: Eqn) {
    e1.constant - e0.constant - e2.constant > 0 && |ElimMarked(e0, e1, e2)| == e1.constant - e0.constant - e2.constant
  }

  /** The equations of es that use a cell of d. */
  ghost function Touching(es: set<Eqn>, d: set<Point>): set<Eqn> {
    set e | e in es && Elems(e.points) * d != {}
  }

  /** The cells the double elimination of (e0, e1) marks with e2: (P1 - P0) - P2. */
  ghost function ElimMarked(e0: Eqn, e1: Eqn, e2: Eqn): set<Point> {
    (Elems(e1.points) - Elems(e0.points)) - Elems(e2.points)
  }

  /** The cells the double elimination of (e0, e1) probes with e2: ((P0 + P2) - P1) + P0 * P2. */
  ghost function ElimProbed(e0: Eqn, e1: Eqn, e2: Eqn): set<Point> {
    ((Elems(e0.points) + Elems(e2.points)) - Elems(e1.points)) + Elems(e0.points) * Elems(e2.points)
  }

  /** The cells the double elimination of (e0, e1) marks, over the third equations es. */
  ghost function ElimMarks(e0: Eqn, e1: Eqn, es: set<Eqn>): set<Point> {
    set e2, q | e2 in es && ElimFires(e0, e1, e2) && q in ElimMarked(e0, e1, e2) :: q
  }

  /** The cells the double elimination of (e0, e1) probes, over the third equations es. */
  ghost function ElimProbes(e0: Eqn, e1: Eqn, es: set<Eqn>): set<Point> {
    set e2, q | e2 in es && ElimFires(e0, e1, e2) && q in ElimProbed(e0, e1, e2) :: q
  }

  /** The double elimination over one more third equation marks that equation's cells too, if it fires. */
  lemma ElimMarksStep(e0: Eqn, e1: Eqn, es: set<Eqn>, e2: Eqn)
    ensures ElimMarks(e0, e1, es + {e2}) == ElimMarks(e0, e1, es) + (if ElimFires(e0, e1, e2) then ElimMarked(e0, e1, e2) else {})
  {
    forall q | q in ElimMarks(e0, e1, es + {e2})
      ensures q in ElimMarks(e0, e1, es) || (ElimFires(e0, e1, e2) && q in ElimMarked(e0, e1, e2))
    {
      var e :| e in es + {e2} && ElimFires(e0, e1, e) && q in ElimMarked(e0, e1, e);
      if e != e2 {
        assert e in es;
      }
    }
  }

  /** The double elimination over one more third equation probes that equation's cells too, if it fires. */
  lemma ElimProbesStep(e0: Eqn, e1: Eqn, es: set<Eqn>, e2: Eqn)
    ensures ElimProbes(e0, e1, es + {e2}) == ElimProbes(e0, e1, es) + (if ElimFires(e0, e1, e2) then ElimProbed(e0, e1, e2) else {})
  {
    forall q | q in ElimProbes(e0, e1, es + {e2})
      ensures q in ElimProbes(e0, e1, es) || (ElimFires(e0, e1, e2) && q in ElimProbed(e0, e1, e2))
    {
      var e :| e in es + {e2} && ElimFires(e0, e1, e) && q in ElimProbed(e0, e1, e);
      if e != e2 {
        assert e in es;
      }
    }
  }

  /** Over no third equation the double elimination marks and probes nothing. */
  lemma ElimNothing(e0: Eqn, e1: Eqn, es: set<Eqn>, marked: set<Point>, unknown: set<Point>)
    requires es == {}
    ensures ElimMarks(e0, e1, es) == {} && ElimProbes(e0, e1, es) == {}
    ensures marked + ElimMarks(e0, e1, es) == marked
    ensures unknown - ElimMarks(e0, e1, es) - ElimProbes(e0, e1, es) == unknown
  {
  }

  /**
   * The cells marked and still unknown after one more pass of the double elimination,
   * from those before it and what the pass did.
   */
  lemma ElimNextSets(e0: Eqn, e1: Eqn, e2: Eqn, done: set<Eqn>, marked0: set<Point>, unknown0: set<Point>,
                     marked: set<Point>, unknown: set<Point>, marked': set<Point>, unknown': set<Point>)
    requires marked == marked0 + ElimMarks(e0, e1, done)
    requires unknown == unknown0 - ElimMarks(e0, e1, done) - ElimProbes(e0, e1, done)
    requires ElimFires(e0, e1, e2) ==>
      marked' == marked + ElimMarked(e0, e1, e2) && unknown' == unknown - ElimMarked(e0, e1, e2) - ElimProbed(e0, e1, e2)
    requires !ElimFires(e0, e1, e2) ==> marked' == marked && unknown' == unknown
    ensures marked' == marked0 + ElimMarks(e0, e1, done + {e2})
    ensures unknown' == unknown0 - ElimMarks(e0, e1, done + {e2}) - ElimProbes(e0, e1, done + {e2})
  {
    ElimMarksStep(e0, e1, done, e2);
    ElimProbesStep(e0, e1, done, e2);
  }

  /**
   * The equations held after the double elimination's loop runs e1 - e0 against the
   * third equations es2 in turn: each one it fires on marks and probes as DecidedEqns
   * says, on the board the earlier ones left.
   */
  ghost function ElimEqnsOver(es: set<Eqn>, e0: Eqn, e1: Eqn, es2: seq<Eqn>, unknown: set<Point>,
                              marked: set<Point>, mines: set<Point>): set<Eqn>
    requires WellFormed(e0) && WellFormed(e1) && forall e :: e in es2 ==> WellFormed(e)
    decreases |es2|
  {
    if es2 == [] then es
    else
      var e2 := es2[0];
      if ElimFires(e0, e1, e2) then
        ElimEqnsOver(DecidedEqns(es, DoubleElimMarks(e0, e1, e2), DoubleElimProbes(e0, e1, e2), unknown, marked, mines),
                     e0, e1, es2[1..], unknown - ElimMarked(e0, e1, e2) - ElimProbed(e0, e1, e2),
                     marked + ElimMarked(e0, e1, e2), mines)
      else
        ElimEqnsOver(es, e0, e1, es2[1..], unknown, marked, mines)
  }

  /** The cells that loop queues. */
  ghost function ElimQueueOver(es: set<Eqn>, e0: Eqn, e1: Eqn, es2: seq<Eqn>, unknown: set<Point>,
                               marked: set<Point>, mines: set<Point>): set<Point>
    requires WellFormed(e0) && WellFormed(e1) && forall e :: e in es2 ==> WellFormed(e)
    decreases |es2|
  {
    if es2 == [] then {}
    else
      var e2 := es2[0];
      if ElimFires(e0, e1, e2) then
        var marks, probes := DoubleElimMarks(e0, e1, e2), DoubleElimProbes(e0, e1, e2);
        DecidedQueue(es, marks, probes, unknown, marked, mines)
        + ElimQueueOver(DecidedEqns(es, marks, probes, unknown, marked, mines),
                        e0, e1, es2[1..], unknown - ElimMarked(e0, e1, e2) - ElimProbed(e0, e1, e2),
                        marked + ElimMarked(e0, e1, e2), mines)
      else
        ElimQueueOver(es, e0, e1, es2[1..], unknown, marked, mines)
  }

  /** With no third equation left, the folds leave the equations alone and queue nothing. */
  lemma ElimOverNone(es: set<Eqn>, e0: Eqn, e1: Eqn, es2: seq<Eqn>, unknown: set<Point>, marked: set<Point>, mines: set<Point>)
    requires WellFormed(e0) && WellFormed(e1) && es2 == []
    ensures ElimEqnsOver(es, e0, e1, es2, unknown, marked, mines) == es
    ensures ElimQueueOver(es, e0, e1, es2, unknown, marked, mines) == {}
  {
  }

  /** Unfolding one third equation of the ElimEqnsOver fold, from the board and equations it leaves. */
  lemma ElimEqnsStep(es: set<Eqn>, e0: Eqn, e1: Eqn, es2: seq<Eqn>, unknown: set<Point>, marked: set<Point>,
                     mines: set<Point>, es': set<Eqn>, unknown': set<Point>, marked': set<Point>)
    requires WellFormed(e0) && WellFormed(e1) && forall e :: e in es2 ==> WellFormed(e)
    requires es2 != []
    requires ElimFires(e0, e1, es2[0]) ==>
      && es' == DecidedEqns(es, DoubleElimMarks(e0, e1, es2[0]), DoubleElimProbes(e0, e1, es2[0]), unknown, marked, mines)
      && unknown' == unknown - ElimMarked(e0, e1, es2[0]) - ElimProbed(e0, e1, es2[0])
      && marked' == marked + ElimMarked(e0, e1, es2[0])
    requires !ElimFires(e0, e1, es2[0]) ==> es' == es && unknown' == unknown && marked' == marked
    ensures ElimEqnsOver(es', e0, e1, es2[1..], unknown', marked', mines) == ElimEqnsOver(es, e0, e1, es2, unknown, marked, mines)
  {
    if ElimFires(e0, e1, es2[0]) {
      ElimEqnsFires(es, e0, e1, es2, unknown, marked, mines);
    } else {
      ElimOverSkips(es, e0, e1, es2, unknown, marked, mines);
    }
  }

  /** Unfolding one third equation of the ElimQueueOver fold, with `q` the queue so far. */
  lemma ElimQueueStep(es: set<Eqn>, q: set<Point>, e0: Eqn, e1: Eqn, es2: seq<Eqn>, unknown: set<Point>,
                      marked: set<Point>, mines: set<Point>, es': set<Eqn>, q': set<Point>,
                      unknown': set<Point>, marked': set<Point>)
    requires WellFormed(e0) && WellFormed(e1) && forall e :: e in es2 ==> WellFormed(e)
    requires es2 != []
    requires ElimFires(e0, e1, es2[0]) ==>
      && es' == DecidedEqns(es, DoubleElimMarks(e0, e1, es2[0]), DoubleElimProbes(e0, e1, es2[0]), unknown, marked, mines)
      && q' == q + DecidedQueue(es, DoubleElimMarks(e0, e1, es2[0]), DoubleElimProbes(e0, e1, es2[0]), unknown, marked, mines)
      && unknown' == unknown - ElimMarked(e0, e1, es2[0]) - ElimProbed(e0, e1, es2[0])
      && marked' == marked + ElimMarked(e0, e1, es2[0])
    requires !ElimFires(e0, e1, es2[0]) ==> es' == es && q' == q && unknown' == unknown && marked' == marked
    ensures q' + ElimQueueOver(es', e0, e1, es2[1..], unknown', marked', mines) == q + ElimQueueOver(es, e0, e1, es2, unknown, marked, mines)
  {
    if ElimFires(e0, e1, es2[0]) {
      ElimQueueFires(es, e0, e1, es2, unknown, marked, mines);
    } else {
      ElimOverSkips(es, e0, e1, es2, unknown, marked, mines);
    }
  }

  /** ElimEqnsOver on a third equation es2[0] the rule fires on: its marks and probes, then the rest. */
  lemma ElimEqnsFires(es: set<Eqn>, e0: Eqn, e1: Eqn, es2: seq<Eqn>, unknown: set<Point>, marked: set<Point>, mines: set<Point>)
    requires WellFormed(e0) && WellFormed(e1) && forall e :: e in es2 ==> WellFormed(e)
    requires es2 != [] && ElimFires(e0, e1, es2[0])
    ensures ElimEqnsOver(es, e0, e1, es2, unknown, marked, mines)
      == ElimEqnsOver(DecidedEqns(es, DoubleElimMarks(e0, e1, es2[0]), DoubleElimProbes(e0, e1, es2[0]), unknown, marked, mines),
                      e0, e1, es2[1..], unknown - ElimMarked(e0, e1, es2[0]) - ElimProbed(e0, e1, es2[0]),
                      marked + ElimMarked(e0, e1, es2[0]), mines)
  {
  }

  /** ElimQueueOver on a third equation es2[0] the rule fires on: its queue, then the rest's. */
  lemma ElimQueueFires(es: set<Eqn>, e0: Eqn, e1: Eqn, es2: seq<Eqn>, unknown: set<Point>, marked: set<Point>, mines: set<Point>)
    requires WellFormed(e0) && WellFormed(e1) && forall e :: e in es2 ==> WellFormed(e)
    requires es2 != [] && ElimFires(e0, e1, es2[0])
    ensures ElimQueueOver(es, e0, e1, es2, unknown, marked, mines)
      == DecidedQueue(es, DoubleElimMarks(e0, e1, es2[0]), DoubleElimProbes(e0, e1, es2[0]), unknown, marked, mines)
         + ElimQueueOver(DecidedEqns(es, DoubleElimMarks(e0, e1, es2[0]), DoubleElimProbes(e0, e1, es2[0]), unknown, marked, mines),
                         e0, e1, es2[1..], unknown - ElimMarked(e0, e1, es2[0]) - ElimProbed(e0, e1, es2[0]),
                         marked + ElimMarked(e0, e1, es2[0]), mines)
  {
  }

  /** The folds on a third equation es2[0] the rule does not fire on: the rest alone. */
  lemma ElimOverSkips(es: set<Eqn>, e0: Eqn, e1: Eqn, es2: seq<Eqn>, unknown: set<Point>, marked: set<Point>, mines: set<Point>)
    requires WellFormed(e0) && WellFormed(e1) && forall e :: e in es2 ==> WellFormed(e)
    requires es2 != [] && !ElimFires(e0, e1, es2[0])
    ensures ElimEqnsOver(es, e0, e1, es2, unknown, marked, mines) == ElimEqnsOver(es, e0, e1, es2[1..], unknown, marked, mines)
    ensures ElimQueueOver(es, e0, e1, es2, unknown, marked, mines) == ElimQueueOver(es, e0, e1, es2[1..], unknown, marked, mines)
  {
  }

  /** global_eqn_limit: the global equation is added once this few cells are unknown. */
  const GLOBAL_EQN_LIMIT: int := 8

  /**
   * An equation the single equation rule acts on: its constant is 0, so all its cells
   * are safe, or the number of its cells, so all are mines.
   */
  predicate Decided(e: Eqn) {
    e.constant == 0 || e.constant == |e.points|
  }

  /** The first equation of es the single equation rule acts on, if any. */
  function FirstDecided(es: seq<Eqn>): (r: Option<Eqn>)
    ensures r.Some? ==> r.value in es && Decided(r.value)
    ensures r.None? <==> forall e :: e in es ==> !Decided(e)
  {
    if es == [] then None
    else if Decided(es[0]) then Some(es[0])
    else FirstDecided(es[1..])
  }

  /**
   * The loop of single_equation_rule (MioStrategy.java): scan es in order and stop at
   * the first equation with constant 0 or with as many cells as its constant.
   */
  method FindDecided(es: seq<Eqn>) returns (d: Option<Eqn>)
    requires IsSet(EqnLess, es) && forall e :: e in es ==> WellFormed(e)
    ensures d == FirstDecided(es)
  {
    var rest := es;
    while rest != []
      invariant IsSet(EqnLess, rest) && (forall e :: e in rest ==> e in es)
      invariant FirstDecided(rest) == FirstDecided(es)
      decreases |rest|
    {
      var e := First(EqnLess, rest);
      var c := e.constant;
      if c == 0 {
        return Some(e);
      }
      var card := CardScan(PointLess, e.points);
      CardIsSize(PointLess, e.points);
      if c == card {
        return Some(e);
      }
      rest := ButFirst(EqnLess, rest);
    }
    return None;
  }

  /**
   * The effect of single_equation_rule on the marked and unknown cells, from (k0, u0)
   * to (k1, u1), given the equation it acted on: none, a safe one (its cells are
   * probed) or a full one (its cells are marked).
   */
  ghost predicate Settled(d: Option<Eqn>, k0: set<Point>, u0: set<Point>, k1: set<Point>, u1: set<Point>) {
    match d
    case None => k1 == k0 && u1 == u0
    case Some(e) =>
      && u1 == u0 - Elems(e.points)
      && k1 == if e.constant == 0 then k0 else k0 + Elems(e.points)
  }

  /** A difference of two point sets stays inside any region holding the first. */
  lemma DiffInside(a: seq<Point>, b: seq<Point>, s: set<Point>)
    requires IsSet(PointLess, a) && IsSet(PointLess, b) && Elems(a) <= s
    ensures IsSet(PointLess, Difference(PointLess, a, b))
    ensures forall p :: p in Difference(PointLess, a, b) ==> p in s
  {
    forall p | p in Difference(PointLess, a, b) ensures p in s {
      assert p in Elems(Difference(PointLess, a, b));
    }
  }

  /** The probe set of the double elimination stays inside a region holding P0 and P2. */
  lemma ProbesInside(e0: Eqn, e1: Eqn, e2: Eqn, s: set<Point>)
    requires WellFormed(e0) && WellFormed(e1) && WellFormed(e2)
    requires Elems(e0.points) <= s && Elems(e2.points) <= s
    ensures forall p :: p in DoubleElimProbes(e0, e1, e2) ==> p in s
  {
    forall p | p in DoubleElimProbes(e0, e1, e2) ensures p in s {
      assert p in Elems(DoubleElimProbes(e0, e1, e2));
    }
  }

  /** The probability of a mine that one equation gives each of its cells: c / |P|. */
  function EqnProb(e: Eqn): real
    requires e.points != []
  {
    e.constant as real / |e.points| as real
  }

  /** The cell choose visits i columns and j rows on from `start`, round an r by c board. */
  function Rotated(i: int, j: int, start: Point, r: int, c: int): (q: Point)
    requires 0 < r && 0 < c
    ensures q in Cells(r, c)
  {
    Point((i + start.x) % c, (j + start.y) % r)
  }

  /** One step of choose's scan: the running least stays at or below every cell seen. */
  lemma ScanStep(probs: map<Point, real>, j: int, start: Point, r: int, c: int, i: int, best: real, best': real)
    requires 0 < r && 0 < c && Cells(r, c) <= probs.Keys
    requires forall i' :: 0 <= i' < i ==> best <= probs[Rotated(i', j, start, r, c)]
    requires best' <= best && best' <= probs[Rotated(i, j, start, r, c)]
    ensures forall i' :: 0 <= i' <= i ==> best' <= probs[Rotated(i', j, start, r, c)]
  {
  }

  /** A row of choose's scan done: the running least stays at or below every cell of rows 0..j. */
  lemma RowsStep(probs: map<Point, real>, start: Point, r: int, c: int, j: int, best: real, best': real)
    requires 0 < r && 0 < c && Cells(r, c) <= probs.Keys
    requires forall j', i' :: 0 <= j' < j && 0 <= i' < c ==> best <= probs[Rotated(i', j', start, r, c)]
    requires best' <= best
    requires forall i' :: 0 <= i' < c ==> best' <= probs[Rotated(i', j, start, r, c)]
    ensures forall j', i' :: 0 <= j' <= j && 0 <= i' < c ==> best' <= probs[Rotated(i', j', start, r, c)]
  {
  }

  /**
   * choose's scan, r rows of c cells each from `start` round the board, visits every
   * cell: what lies at or below all of them lies at or below every cell of the board.
   */
  lemma ScanCovers(probs: map<Point, real>, start: Point, r: int, c: int, best: real)
    requires 0 < r && 0 < c && start in Cells(r, c) && Cells(r, c) <= probs.Keys
    requires forall j', i' :: 0 <= j' < r && 0 <= i' < c ==> best <= probs[Rotated(i', j', start, r, c)]
    ensures forall q :: q in Cells(r, c) ==> best <= probs[q]
  {
    forall q | q in Cells(r, c) ensures best <= probs[q] {
      ModShift(q.x, start.x, c);
      ModShift(q.y, start.y, r);
      assert Rotated((q.x - start.x) % c, (q.y - start.y) % r, start, r, c) == q;
    }
  }

  /** The index m.pick(n) draws among n cells, for `random` standing for Math.random(). */
  function Draw(n: int, random: real): (k: int)
    requires 0 < n && 0.0 <= random < 1.0
    ensures 0 <= k < n
  {
    FloorBelow(n, random);
    Pick(n, (n as real * random).Floor).value
  }

  /**
   * The starting point of choose: the point the draw picks among the unknown points
   * `ps0`, found by dropping that many of them from the front.
   */
  method PickStart(ps0: seq<Point>, nps0: int, random: real) returns (start: Point)
    requires IsSet(PointLess, ps0) && nps0 == |ps0| > 0 && 0.0 <= random < 1.0
    ensures start == ps0[Draw(nps0, random)] && start in Elems(ps0)
  {
    FloorBelow(nps0, random);
    var rest := ps0;
    var n := Pick(nps0, (nps0 as real * random).Floor).value;
    ghost var k := n;
    while n > 0
      invariant 0 <= n <= k && rest == ps0[k - n..] && IsSet(PointLess, rest)
    {
      rest := ButFirst(PointLess, rest);
      n := n - 1;
    }
    start := First(PointLess, rest);
    assert start in Elems(rest);
  }

  /** Math.max on the probabilities. */
  function RMax(a: real, b: real): real {
    if a >= b then a else b
  }

  /** The loop of prob (MioStrategy.java): the largest of p and the probabilities of es. */
  function MaxProb(es: seq<Eqn>, p: real): (r: real)
    requires forall e :: e in es ==> e.points != []
    ensures p <= r && forall e :: e in es ==> EqnProb(e) <= r
    ensures r == p || exists e :: e in es && r == EqnProb(e)
  {
    if es == [] then p else MaxProb(es[1..], RMax(p, EqnProb(es[0])))
  }

  /** A count of mines among n > 0 cells, over n, is a probability. */
  lemma RatioBounds(k: int, n: int)
    requires 0 <= k <= n && 0 < n
    ensures 0.0 <= k as real / n as real <= 1.0
  {
    var q := k as real / n as real;
    assert q * n as real == k as real;
  }

  /** The equations of a bucket that are true of the layout give probabilities. */
  lemma MaxProbBounds(es: seq<Eqn>, p: real)
    requires 0.0 <= p <= 1.0
    requires forall e :: e in es ==> e.points != [] && 0 <= e.constant <= |e.points|
    ensures 0.0 <= MaxProb(es, p) <= 1.0
  {
    var r := MaxProb(es, p);
    if r != p {
      var e :| e in es && r == EqnProb(e);
      RatioBounds(e.constant, |e.points|);
    }
  }

  /** floor(n * random) with random in [0, 1) lies in [0, n). */
  lemma FloorBelow(n: int, random: real)
    requires 0 < n && 0.0 <= random < 1.0
    ensures 0 <= (n as real * random).Floor < n
  {
    assert n as real * random < n as real * 1.0;
  }

  /** Shifting by s and back, modulo n, returns to a. */
  lemma ModShift(a: int, s: int, n: int)
    requires 0 <= a < n && 0 <= s < n
    ensures ((a - s) % n + s) % n == a
  {
    if a >= s {
      assert (a - s) % n == a - s;
    } else {
      assert (a - s) % n == a - s + n;
      assert (a - s + n + s) % n == a;
    }
  }

  /** How a game played by the strategy ends. */
  datatype Outcome = Finished | Lost | OutOfDraws | OutOfFuel

  class MioStrategy {
    /** The board played on. */
    const m: MineMap
    /** em[y, x]: the equations that mention the cell (x, y). */
    var em: array2<seq<Eqn>>
    /** The cells that are candidates for the rules. */
    var ps: seq<Point>
    /** Has the global equation been added in this game? */
    var globalEqnAdded: bool
    /** All equations held in em. */
    ghost var eqns: set<Eqn>

    /** An equation the map can hold: a non-empty set of cells of the board. */
    ghost predicate Stored(e: Eqn) {
      WellFormed(e) && e.points != [] && Elems(e.points) <= Cells(m.r, m.c)
    }

    /** A storable equation that is true of the board's mine layout. */
    ghost predicate Holds(e: Eqn) {
      Stored(e) && Satisfied(e, m.Mines)
    }

    /** The index invariant: em has the board's shape and each bucket is exact. */
    ghost predicate Indexed()
      reads this, em
    {
      && em.Length0 == m.r && em.Length1 == m.c
      && (forall e :: e in eqns ==> Stored(e))
      && forall y, x :: 0 <= y < m.r && 0 <= x < m.c ==> Bucket(em[y, x], eqns, Point(x, y))
    }

    /** Every equation held is a fact about the board's mine layout. */
    ghost predicate Facts()
      reads this
    {
      forall e :: e in eqns ==> Satisfied(e, m.Mines)
    }

    /** The worklist is a set of cells of the board. */
    ghost predicate Worklist()
      reads this
    {
      IsSet(PointLess, ps) && Elems(ps) <= Cells(m.r, m.c)
    }

    ghost predicate Valid()
      reads this, em
    {
      Indexed() && Facts() && Worklist()
    }

    /** Every equation held ranges over cells of `u`. */
    ghost predicate Over(u: set<Point>)
      reads this
    {
      forall e :: e in eqns ==> Elems(e.points) <= u
    }

    /**
     * The strategy's invariant during a game: the map is valid, no mistake has been
     * made on the board, and the equations range over unknown cells only.
     */
    ghost predicate Ok()
      reads this, em, m, m.mineMap, m.markMap, m.unprobedMap
    {
      Valid() && Playing(m) && Over(m.Unknown())
    }

    constructor (board: MineMap)
      ensures m == board && eqns == {} && ps == [] && !globalEqnAdded
    {
      m := board;
      em := new seq<Eqn>[0, 0];
      ps := [];
      globalEqnAdded := false;
      eqns := {};
    }

    /** at (MioStrategy.java): the equations that use the cell p. */
    function At(p: Point): (es: seq<Eqn>)
      reads this, em
      requires Indexed() && p in Cells(m.r, m.c)
      ensures IsSet(EqnLess, es)
      ensures forall e :: e in es <==> e in eqns && p in e.points
    {
      assert Bucket(em[p.y, p.x], eqns, p);
      em[p.y, p.x]
    }

    /**
     * member (MioStrategy.java): look `e` up in the bucket of its first point; an
     * equation without points is never a member.
     */
    function Member(e: Eqn): (b: bool)
      reads this, em
      requires Indexed() && Elems(e.points) <= Cells(m.r, m.c)
      ensures b <==> e in eqns && e.points != []
    {
      e.points != [] && ListMember(EqnLess, e, At(e.points[0]))
    }

    /**
     * adjoin (MioStrategy.java): when `e` is not a member, add it to the bucket of each
     * of its points.  An equation without points is never stored.
     */
    method Adjoin(e: Eqn)
      requires Indexed() && WellFormed(e) && Elems(e.points) <= Cells(m.r, m.c)
      modifies this, em
      ensures Indexed() && em == old(em) && ps == old(ps) && globalEqnAdded == old(globalEqnAdded)
      ensures eqns == old(eqns) + (if e.points == [] then {} else {e})
    {
      EqnLessIsOrder();
      if !Member(e) && e.points != [] {
        ghost var eqns0 := eqns;
        for k := 0 to |e.points|
          invariant em == old(em) && ps == old(ps) && globalEqnAdded == old(globalEqnAdded)
          invariant em.Length0 == m.r && em.Length1 == m.c && eqns == eqns0
          invariant forall y, x :: 0 <= y < m.r && 0 <= x < m.c ==>
            Bucket(em[y, x], if Point(x, y) in e.points[..k] then eqns0 + {e} else eqns0, Point(x, y))
        {
          AdjoinStep(e, k, eqns0);
        }
        eqns := eqns0 + {e};
        forall y, x | 0 <= y < m.r && 0 <= x < m.c
          ensures Bucket(em[y, x], eqns, Point(x, y))
        {
          assert e.points[..|e.points|] == e.points;
        }
      }
    }

    /** One step of adjoin: add `e` to the bucket of its k-th point. */
    method AdjoinStep(e: Eqn, k: int, ghost eqns0: set<Eqn>)
      requires WellFormed(e) && Elems(e.points) <= Cells(m.r, m.c) && 0 <= k < |e.points|
      requires em.Length0 == m.r && em.Length1 == m.c
      requires forall y, x :: 0 <= y < m.r && 0 <= x < m.c ==>
        Bucket(em[y, x], if Point(x, y) in e.points[..k] then eqns0 + {e} else eqns0, Point(x, y))
      modifies em
      ensures forall y, x :: 0 <= y < m.r && 0 <= x < m.c ==>
        Bucket(em[y, x], if Point(x, y) in e.points[..k + 1] then eqns0 + {e} else eqns0, Point(x, y))
    {
      var p := e.points[k];
      assert p in Elems(e.points);
      assert p !in e.points[..k] by {
        forall i | 0 <= i < k ensures e.points[i] != p {
          assert PointLess(e.points[i], e.points[k]);
        }
      }
      assert e.points[..k + 1] == e.points[..k] + [p];
      var t := em[p.y, p.x];
      assert Bucket(t, eqns0, p);
      var t' := Sets.Adjoin(EqnLess, e, t);
      assert Bucket(t', eqns0 + {e}, p) by {
        forall e' ensures e' in t' <==> e' in eqns0 + {e} && p in e'.points {
          assert e' in t' <==> e' in Elems(t');
          assert e' in t <==> e' in Elems(t);
        }
      }
      label before:
      em[p.y, p.x] := t';
      forall y, x | 0 <= y < m.r && 0 <= x < m.c
        ensures Bucket(em[y, x], if Point(x, y) in e.points[..k + 1] then eqns0 + {e} else eqns0, Point(x, y))
      {
        if (x, y) != (p.x, p.y) {
          assert old@before(Bucket(em[y, x], if Point(x, y) in e.points[..k] then eqns0 + {e} else eqns0, Point(x, y)));
        }
      }
    }

    /**
     * remove (MioStrategy.java): when `e` is a member, take it out of the bucket of
     * each of its points.
     */
    method Remove(e: Eqn)
      requires Indexed() && Elems(e.points) <= Cells(m.r, m.c)
      modifies this, em
      ensures Indexed() && em == old(em) && ps == old(ps) && globalEqnAdded == old(globalEqnAdded)
      ensures eqns == old(eqns) - {e}
    {
      EqnLessIsOrder();
      if Member(e) {
        ghost var eqns0 := eqns;
        for k := 0 to |e.points|
          invariant em == old(em) && ps == old(ps) && globalEqnAdded == old(globalEqnAdded)
          invariant em.Length0 == m.r && em.Length1 == m.c && eqns == eqns0
          invariant forall y, x :: 0 <= y < m.r && 0 <= x < m.c ==>
            Bucket(em[y, x], if Point(x, y) in e.points[..k] then eqns0 - {e} else eqns0, Point(x, y))
        {
          RemoveStep(e, k, eqns0);
        }
        eqns := eqns0 - {e};
        forall y, x | 0 <= y < m.r && 0 <= x < m.c
          ensures Bucket(em[y, x], eqns, Point(x, y))
        {
          assert e.points[..|e.points|] == e.points;
        }
      }
    }

    /** One step of remove: take `e` out of the bucket of its k-th point. */
    method RemoveStep(e: Eqn, k: int, ghost eqns0: set<Eqn>)
      requires WellFormed(e) && Elems(e.points) <= Cells(m.r, m.c) && 0 <= k < |e.points|
      requires em.Length0 == m.r && em.Length1 == m.c
      requires forall y, x :: 0 <= y < m.r && 0 <= x < m.c ==>
        Bucket(em[y, x], if Point(x, y) in e.points[..k] then eqns0 - {e} else eqns0, Point(x, y))
      modifies em
      ensures forall y, x :: 0 <= y < m.r && 0 <= x < m.c ==>
        Bucket(em[y, x], if Point(x, y) in e.points[..k + 1] then eqns0 - {e} else eqns0, Point(x, y))
    {
      var p := e.points[k];
      assert p in Elems(e.points);
      assert p !in e.points[..k] by {
        forall i | 0 <= i < k ensures e.points[i] != p {
          assert PointLess(e.points[i], e.points[k]);
        }
      }
      assert e.points[..k + 1] == e.points[..k] + [p];
      var t := em[p.y, p.x];
      assert Bucket(t, eqns0, p);
      var t' := Sets.Remove(EqnLess, e, t);
      assert Bucket(t', eqns0 - {e}, p) by {
        forall e' ensures e' in t' <==> e' in eqns0 - {e} && p in e'.points {
          assert e' in t' <==> e' in Elems(t');
          assert e' in t <==> e' in Elems(t);
        }
      }
      label before:
      em[p.y, p.x] := t';
      forall y, x | 0 <= y < m.r && 0 <= x < m.c
        ensures Bucket(em[y, x], if Point(x, y) in e.points[..k + 1] then eqns0 - {e} else eqns0, Point(x, y))
      {
        if (x, y) != (p.x, p.y) {
          assert old@before(Bucket(em[y, x], if Point(x, y) in e.points[..k] then eqns0 - {e} else eqns0, Point(x, y)));
        }
      }
    }

    /** remove_at (MioStrategy.java): drop every equation that uses the cell p. */
    method RemoveAt(p: Point)
      requires Indexed() && p in Cells(m.r, m.c)
      modifies this, em
      ensures Indexed() && em == old(em) && ps == old(ps) && globalEqnAdded == old(globalEqnAdded)
      ensures eqns == set e | e in old(eqns) && p !in e.points
      ensures At(p) == []
    {
      var es := At(p);
      ghost var eqns0 := eqns;
      var rest := es;
      while rest != []
        invariant forall e :: e in es ==> Stored(e)
        invariant Indexed() && em == old(em) && ps == old(ps) && globalEqnAdded == old(globalEqnAdded)
        invariant IsSet(EqnLess, rest) && Elems(rest) <= Elems(es)
        invariant eqns == eqns0 - (Elems(es) - Elems(rest))
        decreases |rest|
      {
        var e := First(EqnLess, rest);
        assert e in Elems(rest);
        rest := ButFirst(EqnLess, rest);
        Remove(e);
      }
      assert eqns == set e | e in old(eqns) && p !in e.points;
      NoneLeft(At(p));
    }

    /** unknowns_near (MioStrategy.java): the unknown cells of the 3x3 window at (x, y). */
    method UnknownsNear(x: int, y: int) returns (r: seq<Point>)
      requires m.Valid()
      ensures IsSet(PointLess, r) && Elems(r) == Window(x, y) * m.Unknown()
    {
      PointLessIsOrder();
      r := [];
      for y0 := y - 1 to y + 2
        invariant IsSet(PointLess, r) && Elems(r) == Rect(x - 1, x + 2, y - 1, y0) * m.Unknown()
      {
        r := UnknownRow(x - 1, x + 2, y0, r);
        RectGrow(x - 1, x + 2, y - 1, y0);
      }
    }

    /** The inner loop of unknowns_near: adjoin the unknown cells of one row. */
    method UnknownRow(x0: int, x1: int, y: int, s: seq<Point>) returns (r: seq<Point>)
      requires m.Valid() && IsSet(PointLess, s) && x0 <= x1
      ensures IsSet(PointLess, r) && Elems(r) == Elems(s) + Row(y, x0, x1) * m.Unknown()
    {
      r := s;
      for x := x0 to x1
        invariant IsSet(PointLess, r) && Elems(r) == Elems(s) + Row(y, x0, x) * m.Unknown()
      {
        m.UnknownIsUnprobedLook(Point(x, y));
        RowGrow(y, x0, x);
        if UNPROBED == m.Look(x, y) {
          r := Sets.Adjoin(PointLess, Point(x, y), r);
        }
      }
    }

    /** marks_near (MioStrategy.java): the number of marked cells in the 3x3 window. */
    method MarksNear(x: int, y: int) returns (q: int)
      requires m.Valid()
      ensures q == |Window(x, y) * m.Marked()|
    {
      q := 0;
      for y0 := y - 1 to y + 2
        invariant q == RectCount(m.Marked(), x - 1, x + 2, y - 1, y0)
      {
        var n := SinglePoint.CountRow(m, MARKED, x - 1, x + 2, y0);
        q := q + n;
      }
      RectCountIsCard(m.Marked(), x - 1, x + 2, y - 1, y + 2);
    }

    /**
     * unknown_points (MioStrategy.java): the set of unknown cells, collected from the
     * last row and column down.
     */
    method UnknownPoints() returns (r: seq<Point>)
      requires m.Valid()
      ensures IsSet(PointLess, r) && Elems(r) == m.Unknown()
    {
      PointLessIsOrder();
      r := [];
      ghost var u := m.Unknown();
      assert Rect(0, m.c, m.r, m.r) * u == {};
      var y := m.r - 1;
      while y >= 0
        invariant -1 <= y < m.r && m.Valid() && m.Unknown() == u
        invariant IsSet(PointLess, r) && Elems(r) == Rect(0, m.c, y + 1, m.r) * u
      {
        label before:
        r := UnknownRowDown(y, r, u);
        Untouched@before({});
        RectGrowDown(0, m.c, y + 1, m.r);
        y := y - 1;
      }
      assert Rect(0, m.c, y + 1, m.r) == Cells(m.r, m.c);
      assert Cells(m.r, m.c) * u == u;
    }

    /** The inner loop of unknown_points: one row, from the last column down. */
    method UnknownRowDown(y: int, s: seq<Point>, ghost u: set<Point>) returns (r: seq<Point>)
      requires m.Valid() && u == m.Unknown() && IsSet(PointLess, s)
      ensures IsSet(PointLess, r) && Elems(r) == Elems(s) + Row(y, 0, m.c) * u
    {
      r := s;
      var x := m.c - 1;
      while x >= 0
        invariant -1 <= x < m.c
        invariant IsSet(PointLess, r) && Elems(r) == Elems(s) + Row(y, x + 1, m.c) * u
      {
        RowGrowDown(y, x + 1, m.c);
        r := AdjoinIfUnknown(x, y, r, u);
        x := x - 1;
      }
      assert Row(y, x + 1, m.c) == Row(y, 0, m.c);
    }

    /** The body of that loop: a cell the map shows as unprobed joins the list. */
    method AdjoinIfUnknown(x: int, y: int, s: seq<Point>, ghost u: set<Point>) returns (r: seq<Point>)
      requires m.Valid() && u == m.Unknown() && IsSet(PointLess, s)
      ensures IsSet(PointLess, r) && Elems(r) == Elems(s) + {Point(x, y)} * u
    {
      m.UnknownIsUnprobedLook(Point(x, y));
      r := s;
      if UNPROBED == m.Look(x, y) {
        r := Sets.Adjoin(PointLess, Point(x, y), r);
      }
    }

    /** unknown_count (MioStrategy.java): the number of unknown cells. */
    method UnknownCount() returns (n: int)
      requires m.Valid()
      ensures n == |m.Unknown()|
    {
      n := 0;
      ghost var u := m.Unknown();
      assert Rect(0, m.c, m.r, m.r) * u == {};
      var y := m.r - 1;
      while y >= 0
        invariant -1 <= y < m.r && m.Valid() && m.Unknown() == u
        invariant n == |Rect(0, m.c, y + 1, m.r) * u|
      {
        label row:
        var k := CountRowDown(y, u);
        BoardKept@row();
        CountStep(n, k, y, m.r, m.c, u);
        n, y := n + k, y - 1;
        assert n == |Rect(0, m.c, y + 1, m.r) * u|;
      }
      assert Rect(0, m.c, y + 1, m.r) == Cells(m.r, m.c);
      assert Cells(m.r, m.c) * u == u;
    }

    /** Adding the count of row y to that of the rows below it counts the rows from y on. */
    lemma CountStep(n: int, k: int, y: int, r: int, c: int, u: set<Point>)
      requires y < r && n == |Rect(0, c, y + 1, r) * u| && k == |Row(y, 0, c) * u|
      ensures n + k == |Rect(0, c, y, r) * u|
    {
      RectCountDown(0, c, y + 1, r, u);
    }

    /** The inner loop of unknown_count: one row, from the last column down; u is the unknown cells. */
    method CountRowDown(y: int, ghost u: set<Point>) returns (n: int)
      requires m.Valid() && u == m.Unknown()
      ensures n == |Row(y, 0, m.c) * u|
    {
      n := 0;
      var x := m.c - 1;
      while x >= 0
        invariant -1 <= x < m.c
        invariant n == |Row(y, x + 1, m.c) * u|
      {
        m.UnknownIsUnprobedLook(Point(x, y));
        RowCardDown(y, x, m.c, u);
        if UNPROBED == m.Look(x, y) {
          n := n + 1;
        }
        x := x - 1;
      }
      assert Row(y, x + 1, m.c) == Row(y, 0, m.c);
    }

    /**
     * probe_points (MioStrategy.java): probe each cell of ps0, all known to be safe, and
     * turn what each probe shows into equations: the equations held and the cells queued
     * are exactly those of the rounds ProbedEqns and ProbedQueue describe.
     */
    method ProbePoints(ps0: seq<Point>)
      requires Valid() && Playing(m) && Over(m.Unknown() + Elems(ps0)) && IsSet(PointLess, ps0)
      requires forall p :: p in ps0 ==> p in Cells(m.r, m.c) && p !in m.Mines
      modifies this, em, m, m.unprobedMap
      ensures Ok() && em == old(em) && globalEqnAdded == old(globalEqnAdded)
      ensures m.Marked() == old(m.Marked()) && m.Unknown() == old(m.Unknown()) - Elems(ps0)
      ensures eqns == ProbedEqns(old(eqns), ps0, old(m.Unknown()), old(m.Marked()), m.Mines)
      ensures Elems(ps) == Elems(old(ps)) + ProbedQueue(old(eqns), ps0, old(m.Unknown()), old(m.Marked()), m.Mines)
    {
      ghost var marked0, unknown0 := m.Marked(), m.Unknown();
      ghost var target := ProbedEqns(eqns, ps0, unknown0, marked0, m.Mines);
      ghost var queue := Elems(ps) + ProbedQueue(eqns, ps0, unknown0, marked0, m.Mines);
      ghost var done: set<Point> := {};
      var rest := ps0;
      while rest != []
        invariant Valid() && Playing(m) && Over(m.Unknown() + Elems(rest))
        invariant em == old(em) && globalEqnAdded == old(globalEqnAdded)
        invariant IsSet(PointLess, rest) && Elems(rest) <= Elems(ps0) && done == Elems(ps0) - Elems(rest)
        invariant m.Marked() == marked0 && m.Unknown() == unknown0 - done
        invariant ProbedEqns(eqns, rest, m.Unknown(), marked0, m.Mines) == target
        invariant Elems(ps) + ProbedQueue(eqns, rest, m.Unknown(), marked0, m.Mines) == queue
        decreases |rest|
      {
        rest, done := ProbeNext(ps0, rest, done, marked0, unknown0, target, queue);
      }
      assert m.Unknown() + Elems(rest) == m.Unknown();
    }

    /** One pass of probe_points' loop, in terms of the cells probed so far and what the rounds left to do yield. */
    method ProbeNext(ps0: seq<Point>, rest: seq<Point>, ghost done: set<Point>,
                     ghost marked0: set<Point>, ghost unknown0: set<Point>, ghost target: set<Eqn>, ghost queue: set<Point>)
      returns (rest': seq<Point>, ghost done': set<Point>)
      requires forall p :: p in ps0 ==> p in Cells(m.r, m.c) && p !in m.Mines
      requires Valid() && Playing(m) && Over(m.Unknown() + Elems(rest))
      requires rest != [] && IsSet(PointLess, rest) && Elems(rest) <= Elems(ps0) && done == Elems(ps0) - Elems(rest)
      requires m.Marked() == marked0 && m.Unknown() == unknown0 - done
      requires ProbedEqns(eqns, rest, m.Unknown(), marked0, m.Mines) == target
      requires Elems(ps) + ProbedQueue(eqns, rest, m.Unknown(), marked0, m.Mines) == queue
      modifies this, em, m, m.unprobedMap
      ensures Valid() && Playing(m) && Over(m.Unknown() + Elems(rest'))
      ensures em == old(em) && globalEqnAdded == old(globalEqnAdded)
      ensures IsSet(PointLess, rest') && Elems(rest') <= Elems(ps0) && done' == Elems(ps0) - Elems(rest')
      ensures |rest'| < |rest|
      ensures m.Marked() == marked0 && m.Unknown() == unknown0 - done'
      ensures ProbedEqns(eqns, rest', m.Unknown(), marked0, m.Mines) == target
      ensures Elems(ps) + ProbedQueue(eqns, rest', m.Unknown(), marked0, m.Mines) == queue
    {
      var p := First(PointLess, rest);
      assert p in Elems(rest);
      rest' := ButFirst(PointLess, rest);
      OverGrows(m.Unknown() + Elems(rest), m.Unknown() + {p} + Elems(rest'));
      ghost var eqns0, ps0', u0 := eqns, Elems(ps), m.Unknown();
      ghost var e := ProbeOne(p, Elems(rest'));
      DoneGrows(Elems(ps0), Elems(rest), p);
      ShrinkBy(u0, unknown0, done, p);
      done' := done + {p};
      ProbedStep(eqns0, ps0', rest, u0, marked0, m.Mines, eqns, Elems(ps));
    }

    /** Unfolding one round of the ProbedEqns and ProbedQueue folds. */
    lemma ProbedStep(es: set<Eqn>, q: set<Point>, rest: seq<Point>, unknown: set<Point>, marked: set<Point>,
                     mines: set<Point>, es': set<Eqn>, q': set<Point>)
      requires rest != []
      requires es' == With(SettledEqns(es, rest[0], 0), CountEqnAt(rest[0], unknown - {rest[0]}, marked, mines))
      requires q' == q + SettledQueue(es, rest[0], 0) + Elems(CountEqnAt(rest[0], unknown - {rest[0]}, marked, mines).points)
      ensures ProbedEqns(es', rest[1..], unknown - {rest[0]}, marked, mines) == ProbedEqns(es, rest, unknown, marked, mines)
      ensures q' + ProbedQueue(es', rest[1..], unknown - {rest[0]}, marked, mines) == q + ProbedQueue(es, rest, unknown, marked, mines)
    {
    }

    /**
     * One round of probe_points: probe p, settle 0 = p, then adjoin the equation the
     * probe's count gives about the unknown neighbours of p and make them candidates.
     * The equations may still use the cells of w, which are yet to be probed.
     */
    method ProbeOne(p: Point, ghost w: set<Point>) returns (ghost e: Eqn)
      requires Valid() && Playing(m) && Over(m.Unknown() + {p} + w)
      requires p in Cells(m.r, m.c) && p !in m.Mines
      modifies this, em, m, m.unprobedMap
      ensures Valid() && Playing(m) && Over(m.Unknown() + w)
      ensures em == old(em) && globalEqnAdded == old(globalEqnAdded)
      ensures m.Marked() == old(m.Marked()) && m.Unknown() == old(m.Unknown()) - {p}
      ensures e == CountEqnAt(p, m.Unknown(), m.Marked(), m.Mines)
      ensures eqns == With(SettledEqns(old(eqns), p, 0), e)
      ensures Elems(ps) == Elems(old(ps)) + SettledQueue(old(eqns), p, 0) + Elems(e.points)
    {
      ghost var unknown := m.Unknown();
      var q := ProbeSafe(p);
      assert eqns == old(eqns) && ps == old(ps) && em == old(em);
      OverGrows(unknown + {p} + w, m.Unknown() + w + {p});
      UnitEqns(p, m.Mines);
      e := Learned(p, q, m.Unknown() + w);
      CountEqnIs(e, p, m.Unknown(), m.Marked(), m.Mines);
    }

    /** What a probe round learns from the count q reported at the safe cell p. */
    method Learned(p: Point, q: int, ghost u: set<Point>) returns (ghost e: Eqn)
      requires Valid() && Playing(m) && Over(u + {p}) && m.Unknown() <= u
      requires p in Cells(m.r, m.c) && Satisfied(Eqn(0, [p]), m.Mines) && q == Adjacent(m.Mines, p.x, p.y)
      modifies this, em
      ensures Valid() && Over(u) && em == old(em) && globalEqnAdded == old(globalEqnAdded)
      ensures Playing(m) && m.Unknown() == old(m.Unknown()) && m.Marked() == old(m.Marked())
      ensures NearFact(e, p, q, m.Unknown(), m.Marked())
      ensures eqns == With(SettledEqns(old(eqns), p, 0), e)
      ensures Elems(ps) == Elems(old(ps)) + SettledQueue(old(eqns), p, 0) + Elems(e.points)
    {
      label start:
      Settle(p, 0, u);
      BoardKept@start();
      label settled:
      e := AdjoinNear(p, q, u);
      BoardKept@settled();
    }

    /** The probe of probe_points: on a safe cell it reports the number of mines around. */
    method ProbeSafe(p: Point) returns (q: int)
      requires Playing(m) && p in Cells(m.r, m.c) && p !in m.Mines
      modifies m, m.unprobedMap
      ensures Playing(m) && m.Unknown() == old(m.Unknown()) - {p} && m.Marked() == old(m.Marked())
      ensures q == Adjacent(m.Mines, p.x, p.y)
    {
      q := m.Probe(p.x, p.y);
    }

    /**
     * The common part of a probe or mark round: with c = p true of the mine layout,
     * adjoin it, apply the subset rule at p and drop every equation at p.
     */
    method Settle(p: Point, c: int, ghost u: set<Point>)
      requires Valid() && Over(u + {p}) && p in Cells(m.r, m.c) && Satisfied(Eqn(c, [p]), m.Mines)
      modifies this, em
      ensures Valid() && Over(u) && em == old(em) && globalEqnAdded == old(globalEqnAdded)
      ensures eqns == SettledEqns(old(eqns), p, c)
      ensures Elems(ps) == Elems(old(ps)) + SettledQueue(old(eqns), p, c)
    {
      PointLessIsOrder();
      ghost var adjoined := old(eqns) + {Eqn(c, [p])};
      Adjoin(Eqn(c, [p]));
      assert eqns == adjoined;
      assert Elems(At(p)) == AtCell(adjoined, p);
      SubsetRule(p, u + {p});
      assert eqns == Subsumed(adjoined, p);
      ghost var queued := ps;
      RemoveAt(p);
      assert ps == queued;
    }

    /**
     * The last lines of a probe round: the equation about the unknown neighbours of p,
     * over a set u of cells that covers the unknown ones.
     */
    method AdjoinNear(p: Point, q: int, ghost u: set<Point>) returns (ghost e: Eqn)
      requires Valid() && Playing(m) && Over(u) && m.Unknown() <= u && q == Adjacent(m.Mines, p.x, p.y)
      modifies this, em
      ensures Valid() && Over(u) && em == old(em) && globalEqnAdded == old(globalEqnAdded)
      ensures old(NearFact(e, p, q, m.Unknown(), m.Marked()))
      ensures eqns == With(old(eqns), e) && ps == Union(PointLess, old(ps), e.points)
    {
      var near := NearEqn(p, q);
      Learn(near, u);
      e := near;
    }

    /**
     * The equation a probe of p adds: the count minus the marks nearby equals the sum
     * over the unknown neighbours.
     */
    method NearEqn(p: Point, q: int) returns (e: Eqn)
      requires m.Sound() && q == Adjacent(m.Mines, p.x, p.y)
      ensures NearFact(e, p, q, m.Unknown(), m.Marked()) && Satisfied(e, m.Mines)
      ensures Elems(e.points) == Window(p.x, p.y) * m.Unknown()
      ensures Elems(e.points) <= m.Unknown() && Elems(e.points) <= Cells(m.r, m.c)
    {
      m.MinesAround(p.x, p.y);
      ghost var w, u := Window(p.x, p.y), m.Unknown();
      assert Window(p.x, p.y) * m.Unknown() <= m.Unknown() <= Cells(m.r, m.c);
      label before:
      var near := UnknownsNear(p.x, p.y);
      Untouched@before({});
      label counted:
      var marks := MarksNear(p.x, p.y);
      Untouched@counted({});
      assert Elems(near) == w * u && q - marks == |w * u * m.Mines|;
      e := Eqn(q - marks, near);
    }

    /** Equations over the cells of u also range over any larger set. */
    lemma OverGrows(u: set<Point>, v: set<Point>)
      requires Over(u) && u <= v
      ensures Over(v)
    {
    }

    /**
     * mark_points (MioStrategy.java): mark each cell of ps0, all known to hold mines,
     * adjoining 1 = p for each and dropping the equations at it: the equations held and
     * the cells queued are exactly those of the rounds MarkedEqns and MarkedQueue describe.
     */
    method MarkPoints(ps0: seq<Point>)
      requires Ok() && IsSet(PointLess, ps0)
      requires forall p :: p in ps0 ==> p in Cells(m.r, m.c) && p in m.Mines
      modifies this, em, m, m.markMap
      ensures Ok() && em == old(em) && globalEqnAdded == old(globalEqnAdded)
      ensures m.Marked() == old(m.Marked()) + Elems(ps0) && m.Unknown() == old(m.Unknown()) - Elems(ps0)
      ensures eqns == MarkedEqns(old(eqns), ps0)
      ensures Elems(ps) == Elems(old(ps)) + MarkedQueue(old(eqns), ps0)
    {
      ghost var unknown0 := m.Unknown();
      ghost var target, queue := MarkedEqns(eqns, ps0), Elems(ps) + MarkedQueue(eqns, ps0);
      ghost var done: set<Point> := {};
      var rest := ps0;
      while rest != []
        invariant Ok() && em == old(em) && globalEqnAdded == old(globalEqnAdded)
        invariant IsSet(PointLess, rest) && Elems(rest) <= Elems(ps0) && done == Elems(ps0) - Elems(rest)
        invariant m.Unknown() == unknown0 - done
        invariant MarkedEqns(eqns, rest) == target && Elems(ps) + MarkedQueue(eqns, rest) == queue
        decreases |rest|
      {
        rest, done := MarkNext(ps0, rest, done, unknown0, target, queue);
      }
      m.MarksAdded(Elems(ps0));
    }

    /** One pass of mark_points' loop, in terms of the cells marked so far and what the rounds left to do yield. */
    method MarkNext(ps0: seq<Point>, rest: seq<Point>, ghost done: set<Point>,
                    ghost unknown0: set<Point>, ghost target: set<Eqn>, ghost queue: set<Point>)
      returns (rest': seq<Point>, ghost done': set<Point>)
      requires forall p :: p in ps0 ==> p in Cells(m.r, m.c) && p in m.Mines
      requires Ok() && rest != [] && IsSet(PointLess, rest) && Elems(rest) <= Elems(ps0) && done == Elems(ps0) - Elems(rest)
      requires m.Unknown() == unknown0 - done
      requires MarkedEqns(eqns, rest) == target && Elems(ps) + MarkedQueue(eqns, rest) == queue
      modifies this, em, m, m.markMap
      ensures Ok() && em == old(em) && globalEqnAdded == old(globalEqnAdded)
      ensures IsSet(PointLess, rest') && Elems(rest') <= Elems(ps0) && done' == Elems(ps0) - Elems(rest')
      ensures |rest'| < |rest|
      ensures m.Unknown() == unknown0 - done'
      ensures MarkedEqns(eqns, rest') == target && Elems(ps) + MarkedQueue(eqns, rest') == queue
    {
      var p := First(PointLess, rest);
      assert p in Elems(rest);
      ghost var eqns0, queued, unknown := eqns, Elems(ps), m.Unknown();
      rest' := ButFirst(PointLess, rest);
      MarkOne(p);
      DoneGrows(Elems(ps0), Elems(rest), p);
      ShrinkBy(unknown, unknown0, done, p);
      done' := done + {p};
      MarkedStep(eqns0, queued, rest, eqns, Elems(ps));
    }

    /** Unfolding one round of the MarkedEqns and MarkedQueue folds. */
    lemma MarkedStep(es: set<Eqn>, q: set<Point>, rest: seq<Point>, es': set<Eqn>, q': set<Point>)
      requires rest != []
      requires es' == SettledEqns(es, rest[0], 1) && q' == q + SettledQueue(es, rest[0], 1)
      ensures MarkedEqns(es', rest[1..]) == MarkedEqns(es, rest)
      ensures q' + MarkedQueue(es', rest[1..]) == q + MarkedQueue(es, rest)
    {
    }

    /** One round of mark_points: mark p, then settle 1 = p. */
    method MarkOne(p: Point)
      requires Ok() && p in Cells(m.r, m.c) && p in m.Mines
      modifies this, em, m, m.markMap
      ensures Ok() && em == old(em) && globalEqnAdded == old(globalEqnAdded)
      ensures m.Unknown() == old(m.Unknown()) - {p}
      ensures eqns == SettledEqns(old(eqns), p, 1)
      ensures Elems(ps) == Elems(old(ps)) + SettledQueue(old(eqns), p, 1)
    {
      ghost var unknown := m.Unknown();
      MarkMine(p);
      OverGrows(unknown, m.Unknown() + {p});
      UnitEqns(p, m.Mines);
      Settle(p, 1, m.Unknown());
    }

    /** The mark of mark_points: on a mine of a game in progress it takes p out of the unknown cells. */
    method MarkMine(p: Point)
      requires Playing(m) && p in Cells(m.r, m.c) && p in m.Mines
      modifies m, m.markMap
      ensures Playing(m) && m.Unknown() == old(m.Unknown()) - {p}
    {
      assert m.unprobedMap[p.y, p.x];
      ghost var marked, unknown := m.Marked(), m.Unknown();
      var q := m.Mark(p.x, p.y);
      if p in marked {
        assert p !in unknown;
      }
    }

    /**
     * subset_rule (MioStrategy.java): for every pair of equations at p whose point sets
     * are nested, adjoin their difference and queue its cells.  The map gains exactly
     * the differences of the nested pairs at p, each true of the mine layout, and the
     * queue gains exactly the cells of the equations that were new.
     */
    method SubsetRule(p: Point, ghost u: set<Point>)
      requires Valid() && Over(u) && p in Cells(m.r, m.c)
      modifies this, em
      ensures Valid() && Over(u) && em == old(em) && globalEqnAdded == old(globalEqnAdded)
      ensures eqns == old(eqns) + Derivations(Elems(old(At(p))), Elems(old(At(p))))
      ensures Elems(ps) == Elems(old(ps)) + PointsOf(eqns - old(eqns))
      ensures forall e0, e1 :: e0 in old(At(p)) && e1 in old(At(p)) ==> Derived(e0, e1, eqns)
    {
      var es := At(p);
      var es0 := es;
      DerivationsNone(Elems(es) - Elems(es0), Elems(es));
      while es0 != []
        invariant Valid() && Over(u) && em == old(em) && globalEqnAdded == old(globalEqnAdded)
        invariant forall e :: e in es ==> e in old(eqns)
        invariant old(eqns) <= eqns && IsSet(EqnLess, es0) && Elems(es0) <= Elems(es)
        invariant eqns == old(eqns) + Derivations(Elems(es) - Elems(es0), Elems(es))
        invariant Elems(ps) == Elems(old(ps)) + PointsOf(eqns - old(eqns))
        decreases |es0|
      {
        var e0 := First(EqnLess, es0);
        assert e0 in Elems(es0);
        ghost var done := Elems(es) - Elems(es0);
        DoneGrows(Elems(es), Elems(es0), e0);
        es0 := ButFirst(EqnLess, es0);
        SubsetRowNext(e0, es, u, done, old(eqns), Elems(old(ps)));
      }
      AllDone(Elems(es), es0);
      DerivationsDerive(Elems(es), Elems(es), eqns);
    }

    /** The inner loop of subset_rule: pair e0 with every equation of es. */
    method SubsetRow(e0: Eqn, es: seq<Eqn>, ghost u: set<Point>)
      requires Valid() && Over(u) && e0 in eqns && IsSet(EqnLess, es)
      requires forall e :: e in es ==> e in eqns
      modifies this, em
      ensures Valid() && Over(u) && em == old(em) && globalEqnAdded == old(globalEqnAdded)
      ensures eqns == old(eqns) + Derivations({e0}, Elems(es))
      ensures Elems(ps) == Elems(old(ps)) + PointsOf(eqns - old(eqns))
    {
      var es1 := es;
      DerivationsNone({e0}, Elems(es) - Elems(es1));
      while es1 != []
        invariant Valid() && Over(u) && em == old(em) && globalEqnAdded == old(globalEqnAdded)
        invariant old(eqns) <= eqns && IsSet(EqnLess, es1) && Elems(es1) <= Elems(es)
        invariant eqns == old(eqns) + Derivations({e0}, Elems(es) - Elems(es1))
        invariant Elems(ps) == Elems(old(ps)) + PointsOf(eqns - old(eqns))
        decreases |es1|
      {
        var e1 := First(EqnLess, es1);
        assert e1 in Elems(es1);
        ghost var done := Elems(es) - Elems(es1);
        DoneGrows(Elems(es), Elems(es1), e1);
        es1 := ButFirst(EqnLess, es1);
        SubsetNext(e0, e1, u, done, old(eqns), Elems(old(ps)));
      }
      AllDone(Elems(es), es1);
    }

    /** One pass of subset_rule's outer loop, in terms of the rows done so far. */
    method SubsetRowNext(e0: Eqn, es: seq<Eqn>, ghost u: set<Point>, ghost done: set<Eqn>, ghost eqns0: set<Eqn>, ghost ps0: set<Point>)
      requires Valid() && Over(u) && e0 in eqns && IsSet(EqnLess, es)
      requires forall e :: e in es ==> e in eqns
      requires eqns == eqns0 + Derivations(done, Elems(es))
      requires Elems(ps) == ps0 + PointsOf(eqns - eqns0)
      modifies this, em
      ensures Valid() && Over(u) && em == old(em) && globalEqnAdded == old(globalEqnAdded)
      ensures eqns == eqns0 + Derivations(done + {e0}, Elems(es))
      ensures Elems(ps) == ps0 + PointsOf(eqns - eqns0)
    {
      SubsetRow(e0, es, u);
      SubsetRowSets(e0, done, Elems(es), eqns0, ps0, old(eqns), Elems(old(ps)), eqns, Elems(ps));
    }

    /** One pass of subset_rule's inner loop, in terms of the pairs done so far. */
    method SubsetNext(e0: Eqn, e1: Eqn, ghost u: set<Point>, ghost done: set<Eqn>, ghost eqns0: set<Eqn>, ghost ps0: set<Point>)
      requires Valid() && Over(u) && e0 in eqns && e1 in eqns
      requires eqns == eqns0 + Derivations({e0}, done)
      requires Elems(ps) == ps0 + PointsOf(eqns - eqns0)
      modifies this, em
      ensures Valid() && Over(u) && em == old(em) && globalEqnAdded == old(globalEqnAdded)
      ensures eqns == eqns0 + Derivations({e0}, done + {e1})
      ensures Elems(ps) == ps0 + PointsOf(eqns - eqns0)
    {
      SubsetPair(e0, e1, u);
      SubsetNextSets(e0, e1, done, eqns0, ps0, old(eqns), Elems(old(ps)), eqns, Elems(ps));
    }

    /**
     * The body of subset_rule's inner loop, for the pair (e0, e1): when they are nested
     * and their difference is not yet held, it is adjoined and its cells queued;
     * otherwise nothing changes.
     */
    method SubsetPair(e0: Eqn, e1: Eqn, ghost u: set<Point>)
      requires Valid() && Over(u) && e0 in eqns && e1 in eqns
      modifies this, em
      ensures Valid() && Over(u) && em == old(em) && globalEqnAdded == old(globalEqnAdded)
      ensures Nested(e0, e1) && SubsetEqn(e0, e1) !in old(eqns) ==>
        eqns == old(eqns) + {SubsetEqn(e0, e1)} && ps == Union(PointLess, old(ps), SubsetEqn(e0, e1).points)
      ensures !(Nested(e0, e1) && SubsetEqn(e0, e1) !in old(eqns)) ==> eqns == old(eqns) && ps == old(ps)
    {
      var cDiff := e1.constant - e0.constant;
      if cDiff >= 0 && ProperSubset(PointLess, e0.points, e1.points) {
        var e := Eqn(cDiff, Difference(PointLess, e1.points, e0.points));
        DerivedHolds(e0, e1);
        if !Member(e) {
          Learn(e, u);
        }
      }
    }

    /** The equation the subset rule derives from a nested pair is true, storable and not empty. */
    lemma DerivedHolds(e0: Eqn, e1: Eqn)
      requires Holds(e0) && Holds(e1) && Nested(e0, e1)
      ensures Holds(SubsetEqn(e0, e1)) && SubsetEqn(e0, e1).points != []
      ensures Elems(SubsetEqn(e0, e1).points) <= Elems(e1.points)
    {
      var ps0 := Difference(PointLess, e1.points, e0.points);
      SubsetSound(e0, e1, m.Mines);
      assert ps0 != [] by {
        var x :| x in Elems(e1.points) - Elems(e0.points);
        assert x in Elems(ps0);
      }
    }

    /**
     * adjoin followed by adding the equation's points to the candidates, as the subset
     * rule and a probe round do, for an equation true of the mine layout over cells of u.
     */
    method Learn(e: Eqn, ghost u: set<Point>)
      requires Valid() && Over(u) && WellFormed(e) && Elems(e.points) <= Cells(m.r, m.c)
      requires Satisfied(e, m.Mines) && Elems(e.points) <= u
      modifies this, em
      ensures Valid() && Over(u) && em == old(em) && globalEqnAdded == old(globalEqnAdded)
      ensures eqns == With(old(eqns), e)
      ensures ps == Union(PointLess, old(ps), e.points)
    {
      ghost var eqns0 := eqns;
      Adjoin(e);
      assert eqns == With(eqns0, e) && eqns <= eqns0 + {e};
      ps := Union(PointLess, ps, e.points);
    }

    /** A step that leaves the board alone keeps what the strategy knows of it. */
    twostate lemma BoardKept()
      requires old(m.Valid()) && unchanged(m, m.mineMap, m.markMap, m.unprobedMap)
      ensures m.Valid() && Playing(m) == old(Playing(m))
      ensures m.Unknown() == old(m.Unknown()) && m.Marked() == old(m.Marked())
    {
    }

    /** A step that changes only the board's flags (finished, victory) keeps what the strategy knows. */
    twostate lemma FlagsOnly()
      requires old(m.Valid()) && m.Valid() && unchanged(this) && unchanged(old(em), m.mineMap, m.markMap, m.unprobedMap)
      ensures Valid() == old(Valid())
      ensures m.Sound() == old(m.Sound())
      ensures m.Unknown() == old(m.Unknown()) && m.Marked() == old(m.Marked())
    {
    }

    twostate lemma Untouched(new u: set<Point>)
      requires old(m.Valid()) && unchanged(this) && unchanged(old(em), m, m.mineMap, m.markMap, m.unprobedMap)
      ensures Valid() == old(Valid()) && Playing(m) == old(Playing(m)) && Ok() == old(Ok())
      ensures m.Unknown() == old(m.Unknown()) && m.Marked() == old(m.Marked()) && Over(u) == old(Over(u))
      ensures m.Valid() && Prob0() == old(Prob0())
    {
    }

    /**
     * single_equation_rule (MioStrategy.java): the first equation at p whose constant is
     * 0 or its number of cells decides all of them: they are probed or marked.
     */
    method SingleEquationRule(p: Point)
      requires Ok() && p in Cells(m.r, m.c)
      modifies this, em, m, m.markMap, m.unprobedMap
      ensures Ok() && em == old(em) && globalEqnAdded == old(globalEqnAdded)
      ensures Settled(old(FirstDecided(At(p))), old(m.Marked()), old(m.Unknown()), m.Marked(), m.Unknown())
      ensures eqns == RuleEqns(old(eqns), old(FirstDecided(At(p))), old(m.Unknown()), old(m.Marked()), m.Mines)
      ensures Elems(ps) == Elems(old(ps)) + RuleQueue(old(eqns), old(FirstDecided(At(p))), old(m.Unknown()), old(m.Marked()), m.Mines)
    {
      label before:
      var d := FindDecided(At(p));
      Untouched@before({});
      Decide(d);
    }

    /**
     * What single_equation_rule does with the equation it found: with constant 0 its
     * cells are probed, with constant |P| they are marked.
     */
    method Decide(d: Option<Eqn>)
      requires Ok() && (d.Some? ==> d.value in eqns && Decided(d.value))
      modifies this, em, m, m.markMap, m.unprobedMap
      ensures Ok() && em == old(em) && globalEqnAdded == old(globalEqnAdded)
      ensures Settled(d, old(m.Marked()), old(m.Unknown()), m.Marked(), m.Unknown())
      ensures eqns == RuleEqns(old(eqns), d, old(m.Unknown()), old(m.Marked()), m.Mines)
      ensures Elems(ps) == Elems(old(ps)) + RuleQueue(old(eqns), d, old(m.Unknown()), old(m.Marked()), m.Mines)
    {
      match d {
        case None =>
        case Some(e) =>
          if e.constant == 0 {
            ZeroEqnSafe(e, m.Mines);
            OverGrows(m.Unknown(), m.Unknown() + Elems(e.points));
            ProbePoints(e.points);
          } else {
            FullEqnMines(e, m.Mines);
            MarkPoints(e.points);
          }
      }
    }

    /**
     * eqn_diff_rule (MioStrategy.java): for every pair (e0, e1) of equations at p with
     * c1 > c0, when P1 - P0 has exactly c1 - c0 cells they are marked and P0 - P1 is
     * probed; otherwise, when c1 - c0 > 1, a third equation is tried.  Cells only leave
     * the unknown ones, and every probe and mark is right (Ok keeps Playing).
     */
    method EqnDiffRule(p: Point)
      requires Ok() && p in Cells(m.r, m.c)
      modifies this, em, m, m.markMap, m.unprobedMap
      ensures Ok() && em == old(em) && globalEqnAdded == old(globalEqnAdded)
      ensures m.Unknown() <= old(m.Unknown()) && old(m.Marked()) <= m.Marked()
    {
      var es := At(p);
      assert forall e :: e in es ==> Holds(e);
      var es0 := es;
      while es0 != []
        invariant Ok() && em == old(em) && globalEqnAdded == old(globalEqnAdded)
        invariant m.Unknown() <= old(m.Unknown()) && old(m.Marked()) <= m.Marked()
        invariant IsSet(EqnLess, es0) && Elems(es0) <= Elems(es)
        decreases |es0|
      {
        var e0 := First(EqnLess, es0);
        assert e0 in Elems(es0);
        es0 := ButFirst(EqnLess, es0);
        DiffRow(e0, es);
      }
    }

    /** The inner loop of eqn_diff_rule: e0 against every equation of es. */
    method DiffRow(e0: Eqn, es: seq<Eqn>)
      requires Ok() && Holds(e0) && IsSet(EqnLess, es) && forall e :: e in es ==> Holds(e)
      modifies this, em, m, m.markMap, m.unprobedMap
      ensures Ok() && em == old(em) && globalEqnAdded == old(globalEqnAdded)
      ensures m.Unknown() <= old(m.Unknown()) && old(m.Marked()) <= m.Marked()
    {
      var es1 := es;
      while es1 != []
        invariant Ok() && em == old(em) && globalEqnAdded == old(globalEqnAdded)
        invariant m.Unknown() <= old(m.Unknown()) && old(m.Marked()) <= m.Marked()
        invariant IsSet(EqnLess, es1) && Elems(es1) <= Elems(es)
        decreases |es1|
      {
        var e1 := First(EqnLess, es1);
        assert e1 in Elems(es1);
        es1 := ButFirst(EqnLess, es1);
        ghost var es2 := DiffPair(e0, e1);
      }
    }

    /**
     * The body of eqn_diff_rule's inner loop, for the pair (e0, e1): nothing unless
     * c1 > c0; the difference rule when it fires; otherwise, when c1 - c0 > 1, the double
     * elimination over the equations that use a cell of P1 - P0.
     */
    method DiffPair(e0: Eqn, e1: Eqn) returns (ghost es2: seq<Eqn>)
      requires Ok() && Holds(e0) && Holds(e1)
      modifies this, em, m, m.markMap, m.unprobedMap
      ensures Ok() && em == old(em) && globalEqnAdded == old(globalEqnAdded)
      ensures DiffFires(e0, e1) ==>
        && m.Marked() == old(m.Marked()) + DiffMarked(e0, e1)
        && m.Unknown() == old(m.Unknown()) - DiffMarked(e0, e1) - DiffProbed(e0, e1)
      ensures DiffFires(e0, e1) ==>
        var marks, probes := Difference(PointLess, e1.points, e0.points), Difference(PointLess, e0.points, e1.points);
        && eqns == DecidedEqns(old(eqns), marks, probes, old(m.Unknown()), old(m.Marked()), m.Mines)
        && Elems(ps) == Elems(old(ps)) + DecidedQueue(old(eqns), marks, probes, old(m.Unknown()), old(m.Marked()), m.Mines)
      ensures !DiffFires(e0, e1) && e1.constant - e0.constant > 1 ==>
        var es := Touching(old(eqns), DiffMarked(e0, e1));
        && m.Marked() == old(m.Marked()) + ElimMarks(e0, e1, es)
        && m.Unknown() == old(m.Unknown()) - ElimMarks(e0, e1, es) - ElimProbes(e0, e1, es)
      ensures !DiffFires(e0, e1) && e1.constant - e0.constant > 1 ==>
        && IsSet(EqnLess, es2) && Elems(es2) == Touching(old(eqns), DiffMarked(e0, e1))
        && WellFormed(e0) && WellFormed(e1) && (forall e :: e in es2 ==> WellFormed(e))
        && eqns == ElimEqnsOver(old(eqns), e0, e1, es2, old(m.Unknown()), old(m.Marked()), m.Mines)
        && Elems(ps) == Elems(old(ps)) + ElimQueueOver(old(eqns), e0, e1, es2, old(m.Unknown()), old(m.Marked()), m.Mines)
      ensures !DiffFires(e0, e1) && e1.constant - e0.constant <= 1 ==>
        eqns == old(eqns) && ps == old(ps) && m.Marked() == old(m.Marked()) && m.Unknown() == old(m.Unknown())
    {
      es2 := [];
      var cDiff := e1.constant - e0.constant;
      if cDiff > 0 {
        var d := Difference(PointLess, e1.points, e0.points);
        // d.card(): the length of the sorted list (Sets.CardScan counts the same)
        var card := |d|;
        CardIsSize(PointLess, d);
        assert Elems(d) == DiffMarked(e0, e1);
        if card == cDiff {
          assert DiffFires(e0, e1);
          DiffMark(e0, e1);
        } else if cDiff > 1 {
          assert !DiffFires(e0, e1);
          es2 := DoubleElim(e0, e1, d, cDiff);
        } else {
          assert !DiffFires(e0, e1);
        }
      }
    }

    /**
     * The two-equation case of eqn_diff_rule: P1 - P0 has exactly c1 - c0 cells, which
     * are marked; then the cells of P0 - P1 are probed.
     */
    method DiffMark(e0: Eqn, e1: Eqn)
      requires Ok() && Holds(e0) && Holds(e1)
      requires |Difference(PointLess, e1.points, e0.points)| == e1.constant - e0.constant
      modifies this, em, m, m.markMap, m.unprobedMap
      ensures Ok() && em == old(em) && globalEqnAdded == old(globalEqnAdded)
      ensures m.Marked() == old(m.Marked()) + DiffMarked(e0, e1)
      ensures m.Unknown() == old(m.Unknown()) - DiffMarked(e0, e1) - DiffProbed(e0, e1)
      ensures var marks, probes := Difference(PointLess, e1.points, e0.points), Difference(PointLess, e0.points, e1.points);
        && eqns == DecidedEqns(old(eqns), marks, probes, old(m.Unknown()), old(m.Marked()), m.Mines)
        && Elems(ps) == Elems(old(ps)) + DecidedQueue(old(eqns), marks, probes, old(m.Unknown()), old(m.Marked()), m.Mines)
    {
      DiffSound(e0, e1, m.Mines);
      DiffInside(e1.points, e0.points, Cells(m.r, m.c));
      DiffInside(e0.points, e1.points, Cells(m.r, m.c));
      MarkThenProbe(Difference(PointLess, e1.points, e0.points), Difference(PointLess, e0.points, e1.points));
    }

    /**
     * The double elimination of eqn_diff_rule (the Mio rule): each equation e2 that uses
     * a cell of d = P1 - P0 is subtracted from e1 - e0 in turn.  The cells marked and
     * probed are those of every e2 on which it fires.
     */
    method DoubleElim(e0: Eqn, e1: Eqn, d: seq<Point>, cDiff: int) returns (ghost es2: seq<Eqn>)
      requires Ok() && Holds(e0) && Holds(e1)
      requires d == Difference(PointLess, e1.points, e0.points) && cDiff == e1.constant - e0.constant
      modifies this, em, m, m.markMap, m.unprobedMap
      ensures Ok() && em == old(em) && globalEqnAdded == old(globalEqnAdded)
      ensures m.Marked() == old(m.Marked()) + ElimMarks(e0, e1, Touching(old(eqns), Elems(d)))
      ensures m.Unknown() ==
        old(m.Unknown()) - ElimMarks(e0, e1, Touching(old(eqns), Elems(d))) - ElimProbes(e0, e1, Touching(old(eqns), Elems(d)))
      ensures IsSet(EqnLess, es2) && Elems(es2) == Touching(old(eqns), Elems(d))
      ensures WellFormed(e0) && WellFormed(e1) && forall e :: e in es2 ==> WellFormed(e)
      ensures eqns == ElimEqnsOver(old(eqns), e0, e1, es2, old(m.Unknown()), old(m.Marked()), m.Mines)
      ensures Elems(ps) == Elems(old(ps)) + ElimQueueOver(old(eqns), e0, e1, es2, old(m.Unknown()), old(m.Marked()), m.Mines)
    {
      label before:
      var near := EqnsNear(d);
      es2 := near;
      Untouched@before({});
      DoubleLoop(e0, e1, d, cDiff, near);
    }

    /** The second loop of the double elimination: e1 - e0 against each equation of es2 in turn. */
    method DoubleLoop(e0: Eqn, e1: Eqn, d: seq<Point>, cDiff: int, es2: seq<Eqn>)
      requires Ok() && Holds(e0) && Holds(e1) && IsSet(EqnLess, es2) && forall e :: e in es2 ==> e in eqns
      requires d == Difference(PointLess, e1.points, e0.points) && cDiff == e1.constant - e0.constant
      modifies this, em, m, m.markMap, m.unprobedMap
      ensures em == old(em) && globalEqnAdded == old(globalEqnAdded)
      ensures ElimDone(e0, e1, es2, old(m.Marked()), old(m.Unknown()),
                       ElimEqnsOver(old(eqns), e0, e1, es2, old(m.Unknown()), old(m.Marked()), m.Mines),
                       Elems(old(ps)) + ElimQueueOver(old(eqns), e0, e1, es2, old(m.Unknown()), old(m.Marked()), m.Mines))
    {
      assert forall e :: e in es2 ==> Holds(e);
      ElimLoopEnters(e0, e1, es2);
      ElimRun(e0, e1, d, cDiff, es2);
    }

    /**
     * The state after the double elimination over all of es2, from a board with `marked0`
     * and `unknown0`: the marks and probes of every e2 on which it fires are made, and the
     * equations and the queue are the folds `target` and `queue` of what they taught.
     */
    ghost predicate ElimDone(e0: Eqn, e1: Eqn, es2: seq<Eqn>, marked0: set<Point>, unknown0: set<Point>,
                             target: set<Eqn>, queue: set<Point>)
      reads this, em, m, m.mineMap, m.markMap, m.unprobedMap
    {
      && Ok()
      && m.Marked() == marked0 + ElimMarks(e0, e1, Elems(es2))
      && m.Unknown() == unknown0 - ElimMarks(e0, e1, Elems(es2)) - ElimProbes(e0, e1, Elems(es2))
      && eqns == target && Elems(ps) == queue
    }

    /** The bundled loop state of ElimRun holds before any equation of es2 is visited. */
    lemma ElimLoopEnters(e0: Eqn, e1: Eqn, es2: seq<Eqn>)
      requires Ok() && WellFormed(e0) && WellFormed(e1) && IsSet(EqnLess, es2) && forall e :: e in es2 ==> WellFormed(e)
      ensures ElimLoop(e0, e1, es2, es2, {}, m.Marked(), m.Unknown(),
                       ElimEqnsOver(eqns, e0, e1, es2, m.Unknown(), m.Marked(), m.Mines),
                       Elems(ps) + ElimQueueOver(eqns, e0, e1, es2, m.Unknown(), m.Marked(), m.Mines))
    {
      ElimNothing(e0, e1, {}, m.Marked(), m.Unknown());
      assert {} == Elems(es2) - Elems(es2);
    }

    /** Once every equation of es2 is visited, the folds over the empty rest are the state itself. */
    lemma ElimLoopExits(e0: Eqn, e1: Eqn, es2: seq<Eqn>, marked0: set<Point>, unknown0: set<Point>,
                        target: set<Eqn>, queue: set<Point>)
      requires ElimLoop(e0, e1, es2, [], Elems(es2), marked0, unknown0, target, queue)
      ensures ElimDone(e0, e1, es2, marked0, unknown0, target, queue)
    {
      ElimOverNone(eqns, e0, e1, [], m.Unknown(), m.Marked(), m.Mines);
    }

    /**
     * What the double elimination's loop keeps while es are the third equations still to
     * try: the board follows the ones done, and the folds over es lead to `target` and `queue`.
     */
    ghost predicate ElimLoop(e0: Eqn, e1: Eqn, es2: seq<Eqn>, es: seq<Eqn>, done: set<Eqn>,
                             marked0: set<Point>, unknown0: set<Point>, target: set<Eqn>, queue: set<Point>)
      reads this, em, m, m.mineMap, m.markMap, m.unprobedMap
    {
      && Ok() && WellFormed(e0) && WellFormed(e1)
      && IsSet(EqnLess, es) && Elems(es) <= Elems(es2) && done == Elems(es2) - Elems(es)
      && m.Marked() == marked0 + ElimMarks(e0, e1, done)
      && m.Unknown() == unknown0 - ElimMarks(e0, e1, done) - ElimProbes(e0, e1, done)
      && (forall e :: e in es ==> WellFormed(e))
      && ElimEqnsOver(eqns, e0, e1, es, m.Unknown(), m.Marked(), m.Mines) == target
      && Elems(ps) + ElimQueueOver(eqns, e0, e1, es, m.Unknown(), m.Marked(), m.Mines) == queue
    }

    /** The loop of DoubleLoop: from no third equation done to all of es2 done. */
    method ElimRun(e0: Eqn, e1: Eqn, d: seq<Point>, cDiff: int, es2: seq<Eqn>)
      requires Holds(e0) && Holds(e1) && forall e :: e in es2 ==> Holds(e)
      requires d == Difference(PointLess, e1.points, e0.points) && cDiff == e1.constant - e0.constant
      requires Ok() && WellFormed(e0) && WellFormed(e1) && forall e :: e in es2 ==> WellFormed(e)
      requires ElimLoop(e0, e1, es2, es2, {}, m.Marked(), m.Unknown(),
                        ElimEqnsOver(eqns, e0, e1, es2, m.Unknown(), m.Marked(), m.Mines),
                        Elems(ps) + ElimQueueOver(eqns, e0, e1, es2, m.Unknown(), m.Marked(), m.Mines))
      modifies this, em, m, m.markMap, m.unprobedMap
      ensures em == old(em) && globalEqnAdded == old(globalEqnAdded)
      ensures ElimDone(e0, e1, es2, old(m.Marked()), old(m.Unknown()),
                       ElimEqnsOver(old(eqns), e0, e1, es2, old(m.Unknown()), old(m.Marked()), m.Mines),
                       Elems(old(ps)) + ElimQueueOver(old(eqns), e0, e1, es2, old(m.Unknown()), old(m.Marked()), m.Mines))
    {
      ghost var marked0, unknown0 := m.Marked(), m.Unknown();
      ghost var target := ElimEqnsOver(eqns, e0, e1, es2, unknown0, marked0, m.Mines);
      ghost var queue := Elems(ps) + ElimQueueOver(eqns, e0, e1, es2, unknown0, marked0, m.Mines);
      var es := es2;
      ghost var done: set<Eqn> := {};
      while es != []
        invariant em == old(em) && globalEqnAdded == old(globalEqnAdded)
        invariant ElimLoop(e0, e1, es2, es, done, marked0, unknown0, target, queue)
        decreases |es|
      {
        es, done := DoubleNext(e0, e1, d, cDiff, es2, es, done, marked0, unknown0, target, queue);
      }
      AllDone(Elems(es2), es);
      ElimLoopExits(e0, e1, es2, marked0, unknown0, target, queue);
    }

    /** One pass of the double elimination's loop, with the cells marked and probed so far. */
    method DoubleNext(e0: Eqn, e1: Eqn, d: seq<Point>, cDiff: int, es2: seq<Eqn>, es: seq<Eqn>,
                      ghost done: set<Eqn>, ghost marked0: set<Point>, ghost unknown0: set<Point>,
                      ghost target: set<Eqn>, ghost queue: set<Point>)
      returns (rest: seq<Eqn>, ghost done1: set<Eqn>)
      requires Holds(e0) && Holds(e1) && forall e :: e in es2 ==> Holds(e)
      requires d == Difference(PointLess, e1.points, e0.points) && cDiff == e1.constant - e0.constant
      requires es != [] && ElimLoop(e0, e1, es2, es, done, marked0, unknown0, target, queue)
      modifies this, em, m, m.markMap, m.unprobedMap
      ensures em == old(em) && globalEqnAdded == old(globalEqnAdded)
      ensures |rest| < |es| && ElimLoop(e0, e1, es2, rest, done1, marked0, unknown0, target, queue)
    {
      var e2 := First(EqnLess, es);
      assert e2 in Elems(es);
      DoneGrows(Elems(es2), Elems(es), e2);
      rest := ButFirst(EqnLess, es);
      done1 := done + {e2};
      ghost var eqns0, ps0, marked, unknown := eqns, Elems(ps), m.Marked(), m.Unknown();
      DoubleStep(e0, e1, e2, d, cDiff);
      ElimNextSets(e0, e1, e2, done, marked0, unknown0, marked, unknown, m.Marked(), m.Unknown());
      ElimEqnsStep(eqns0, e0, e1, es, unknown, marked, m.Mines, eqns, m.Unknown(), m.Marked());
      ElimQueueStep(eqns0, ps0, e0, e1, es, unknown, marked, m.Mines, eqns, Elems(ps), m.Unknown(), m.Marked());
    }

    /**
     * The first loop of the double elimination: the union of the buckets of the cells
     * of d, that is, every equation that uses a cell of d.
     */
    method EqnsNear(d: seq<Point>) returns (es2: seq<Eqn>)
      requires Indexed() && IsSet(PointLess, d) && Elems(d) <= Cells(m.r, m.c)
      ensures IsSet(EqnLess, es2)
      ensures forall e :: e in es2 <==> e in eqns && Elems(e.points) * Elems(d) != {}
      ensures Elems(es2) == Touching(eqns, Elems(d))
    {
      EqnLessIsOrder();
      es2 := [];
      var ps0 := d;
      while ps0 != []
        invariant IsSet(EqnLess, es2) && IsSet(PointLess, ps0) && Elems(ps0) <= Elems(d)
        invariant forall e :: e in es2 <==> e in eqns && Elems(e.points) * (Elems(d) - Elems(ps0)) != {}
        decreases |ps0|
      {
        var p1 := First(PointLess, ps0);
        assert p1 in Elems(ps0);
        ghost var done := Elems(d) - Elems(ps0);
        ps0 := ButFirst(PointLess, ps0);
        assert Elems(d) - Elems(ps0) == done + {p1};
        es2 := Union(EqnLess, es2, At(p1));
        forall e ensures e in Elems(es2) <==> e in eqns && Elems(e.points) * (done + {p1}) != {} {
          if e in eqns && p1 in e.points {
            assert p1 in Elems(e.points) * (done + {p1});
          }
          if e in eqns && Elems(e.points) * (done + {p1}) != {} && e !in At(p1) {
            var q :| q in Elems(e.points) * (done + {p1});
            assert q in Elems(e.points) * done;
          }
        }
      }
      assert Elems(d) - Elems(ps0) == Elems(d);
      assert Elems(es2) == Touching(eqns, Elems(d));
    }

    /**
     * What both difference rules do once they have decided: mark the cells known to
     * hold mines, then probe the cells known to be safe.
     */
    method MarkThenProbe(marks: seq<Point>, probes: seq<Point>)
      requires Ok() && IsSet(PointLess, marks) && IsSet(PointLess, probes)
      requires forall p :: p in marks ==> p in Cells(m.r, m.c) && p in m.Mines
      requires forall p :: p in probes ==> p in Cells(m.r, m.c) && p !in m.Mines
      modifies this, em, m, m.markMap, m.unprobedMap
      ensures Ok() && em == old(em) && globalEqnAdded == old(globalEqnAdded)
      ensures m.Marked() == old(m.Marked()) + Elems(marks)
      ensures m.Unknown() == old(m.Unknown()) - Elems(marks) - Elems(probes)
      ensures eqns == DecidedEqns(old(eqns), marks, probes, old(m.Unknown()), old(m.Marked()), m.Mines)
      ensures Elems(ps) == Elems(old(ps)) + DecidedQueue(old(eqns), marks, probes, old(m.Unknown()), old(m.Marked()), m.Mines)
    {
      MarkPoints(marks);
      OverGrows(m.Unknown(), m.Unknown() + Elems(probes));
      ProbePoints(probes);
    }

    /** The body of the double elimination's loop, for the third equation e2. */
    method DoubleStep(e0: Eqn, e1: Eqn, e2: Eqn, d: seq<Point>, cDiff: int)
      requires Ok() && Holds(e0) && Holds(e1) && Holds(e2)
      requires d == Difference(PointLess, e1.points, e0.points) && cDiff == e1.constant - e0.constant
      modifies this, em, m, m.markMap, m.unprobedMap
      ensures Ok() && em == old(em) && globalEqnAdded == old(globalEqnAdded)
      ensures ElimFires(e0, e1, e2) ==>
        && m.Marked() == old(m.Marked()) + ElimMarked(e0, e1, e2)
        && m.Unknown() == old(m.Unknown()) - ElimMarked(e0, e1, e2) - ElimProbed(e0, e1, e2)
      ensures ElimFires(e0, e1, e2) ==>
        var marks, probes := DoubleElimMarks(e0, e1, e2), DoubleElimProbes(e0, e1, e2);
        && eqns == DecidedEqns(old(eqns), marks, probes, old(m.Unknown()), old(m.Marked()), m.Mines)
        && Elems(ps) == Elems(old(ps)) + DecidedQueue(old(eqns), marks, probes, old(m.Unknown()), old(m.Marked()), m.Mines)
      ensures !ElimFires(e0, e1, e2) ==>
        eqns == old(eqns) && ps == old(ps) && m.Marked() == old(m.Marked()) && m.Unknown() == old(m.Unknown())
    {
      var cDiff2 := cDiff - e2.constant;
      if cDiff2 > 0 {
        var ps2 := Difference(PointLess, d, e2.points);
        // ps2.card(): the length of the sorted list (Sets.CardScan counts the same)
        var card := |ps2|;
        CardIsSize(PointLess, ps2);
        assert Elems(ps2) == ElimMarked(e0, e1, e2);
        if card == cDiff2 {
          assert ElimFires(e0, e1, e2);
          ElimMark(e0, e1, e2, ps2);
        } else {
          assert !ElimFires(e0, e1, e2);
        }
      } else {
        assert !ElimFires(e0, e1, e2);
      }
    }

    /**
     * The double elimination fires on e2: mark the cells of (P1 - P0) - P2, then probe
     * those of ((P0 + P2) - P1) + P0 * P2, built as the source builds them.
     */
    method ElimMark(e0: Eqn, e1: Eqn, e2: Eqn, ps2: seq<Point>)
      requires Ok() && Holds(e0) && Holds(e1) && Holds(e2) && ElimFires(e0, e1, e2)
      requires ps2 == Difference(PointLess, Difference(PointLess, e1.points, e0.points), e2.points)
      modifies this, em, m, m.markMap, m.unprobedMap
      ensures Ok() && em == old(em) && globalEqnAdded == old(globalEqnAdded)
      ensures m.Marked() == old(m.Marked()) + ElimMarked(e0, e1, e2)
      ensures m.Unknown() == old(m.Unknown()) - ElimMarked(e0, e1, e2) - ElimProbed(e0, e1, e2)
      ensures var marks, probes := DoubleElimMarks(e0, e1, e2), DoubleElimProbes(e0, e1, e2);
        && eqns == DecidedEqns(old(eqns), marks, probes, old(m.Unknown()), old(m.Marked()), m.Mines)
        && Elems(ps) == Elems(old(ps)) + DecidedQueue(old(eqns), marks, probes, old(m.Unknown()), old(m.Marked()), m.Mines)
    {
      CardIsSize(PointLess, ps2);
      assert ps2 == DoubleElimMarks(e0, e1, e2);
      DoubleElimSound(e0, e1, e2, m.Mines);
      var ps3 := Union(PointLess, e0.points, e2.points);
      ps3 := Difference(PointLess, ps3, e1.points);
      ps3 := Union(PointLess, ps3, Intersect(PointLess, e0.points, e2.points));
      assert ps3 == DoubleElimProbes(e0, e1, e2);
      DiffInside(e1.points, e0.points, Cells(m.r, m.c));
      DiffInside(Difference(PointLess, e1.points, e0.points), e2.points, Cells(m.r, m.c));
      ProbesInside(e0, e1, e2, Cells(m.r, m.c));
      MarkThenProbe(ps2, ps3);
    }

    /** adjoin of an equation true of the mine layout over cells of u; the worklist is left alone. */
    method Store(e: Eqn, ghost u: set<Point>)
      requires Indexed() && Facts() && Over(u) && WellFormed(e) && Elems(e.points) <= Cells(m.r, m.c)
      requires Satisfied(e, m.Mines) && Elems(e.points) <= u
      modifies this, em
      ensures Indexed() && Facts() && Over(u)
      ensures em == old(em) && ps == old(ps) && globalEqnAdded == old(globalEqnAdded)
      ensures eqns == old(eqns) + (if e.points == [] then {} else {e})
    {
      Adjoin(e);
    }

    /**
     * The last step of play's inner loop (MioStrategy.java): once per game, when at most
     * GLOBAL_EQN_LIMIT cells are unknown, the worklist becomes the unknown cells and
     * the equation "mines not yet marked = sum of the unknown cells" is adjoined.
     */
    method AddGlobal()
      requires Ok() && m.InitialMines >= 0
      modifies this, em
      ensures Ok() && em == old(em)
      ensures old(globalEqnAdded) || |m.Unknown()| > GLOBAL_EQN_LIMIT ==>
        globalEqnAdded == old(globalEqnAdded) && eqns == old(eqns) && ps == old(ps)
      ensures !old(globalEqnAdded) && |m.Unknown()| <= GLOBAL_EQN_LIMIT ==>
        && globalEqnAdded && Elems(ps) == m.Unknown()
        && eqns == old(eqns) + (if ps == [] then {} else {Eqn(|Elems(ps) * m.Mines|, ps)})
    {
      if !globalEqnAdded {
        var nps0 := UnknownCount();
        Untouched({});
        if nps0 <= GLOBAL_EQN_LIMIT {
          var unknown := UnknownPoints();
          Untouched({});
          label global:
          GlobalEqn(unknown);
          BoardKept@global();
        }
      }
    }

    /** The body of the global equation step, given the unknown points. */
    method GlobalEqn(unknown: seq<Point>)
      requires Ok() && m.InitialMines >= 0 && IsSet(PointLess, unknown) && Elems(unknown) == m.Unknown()
      modifies this, em
      ensures Ok() && em == old(em) && globalEqnAdded && ps == unknown
      ensures eqns == old(eqns) + (if unknown == [] then {} else {Eqn(|Elems(unknown) * m.Mines|, unknown)})
    {
      m.HiddenMines();
      var e := Eqn(m.MinesMinusMarks(), unknown);
      assert Satisfied(e, m.Mines);
      globalEqnAdded := true;
      ps := unknown;
      Store(e, Elems(unknown));
      BoardKept();
    }

    /**
     * init_eqn_map (MioStrategy.java): a fresh map, every bucket empty, then for each
     * opened cell the equation its count gives about its unknown neighbours.  The map
     * ends up holding exactly those equations.
     */
    method InitEqnMap()
      requires m.Sound()
      modifies this
      ensures Indexed() && Facts() && Over(m.Unknown()) && fresh(em)
      ensures ps == old(ps) && globalEqnAdded == old(globalEqnAdded)
      ensures forall e :: e in eqns <==> exists p :: CountEqn(e, p, m.Opened(), m.Unknown(), m.Marked(), m.Mines)
    {
      EqnLessIsOrder();
      var mt: seq<Eqn> := [];
      em := new seq<Eqn>[m.r, m.c];
      Fill(em, mt);
      eqns := {};
      InitRows();
    }

    /** The second pass of init_eqn_map, over an empty map: the opened cells of every row. */
    method InitRows()
      requires m.Sound() && Indexed() && Facts() && eqns == {}
      modifies this, em
      ensures Indexed() && Facts() && Over(m.Unknown())
      ensures em == old(em) && ps == old(ps) && globalEqnAdded == old(globalEqnAdded)
      ensures forall e :: e in eqns <==> exists p :: CountEqn(e, p, m.Opened(), m.Unknown(), m.Marked(), m.Mines)
    {
      ghost var shown, unknown, marked := m.Opened(), m.Unknown(), m.Marked();
      for y := 0 to m.r
        invariant Indexed() && Facts() && Over(m.Unknown())
        invariant em == old(em) && ps == old(ps) && globalEqnAdded == old(globalEqnAdded)
        invariant forall e :: e in eqns <==> exists p: Point :: p.y < y && CountEqn(e, p, shown, unknown, marked, m.Mines)
      {
        ghost var eqns0 := eqns;
        InitRow(y, shown, unknown, marked);
        RowsGrow(y, m.c, eqns0, eqns, shown, unknown, marked, m.Mines);
      }
      assert m.Opened() == shown && m.Unknown() == unknown && m.Marked() == marked;
      AllRows(m.r, m.c, eqns, shown, unknown, marked, m.Mines);
    }

    /**
     * The inner loop of init_eqn_map's second pass: the opened cells of row y, on the
     * board whose opened, unknown and marked cells are given.  It adds exactly the
     * count equations of that row.
     */
    method InitRow(y: int, ghost shown: set<Point>, ghost unknown: set<Point>, ghost marked: set<Point>)
      requires m.Sound() && Indexed() && Facts() && Over(m.Unknown())
      requires shown == m.Opened() && unknown == m.Unknown() && marked == m.Marked()
      modifies this, em
      ensures Indexed() && Facts() && Over(m.Unknown())
      ensures em == old(em) && ps == old(ps) && globalEqnAdded == old(globalEqnAdded)
      ensures forall e :: e in eqns <==> e in old(eqns) || exists x :: 0 <= x < m.c && CountEqn(e, Point(x, y), shown, unknown, marked, m.Mines)
    {
      for x := 0 to m.c
        invariant Indexed() && Facts() && Over(m.Unknown())
        invariant em == old(em) && ps == old(ps) && globalEqnAdded == old(globalEqnAdded)
        invariant forall e :: e in eqns <==> e in old(eqns) || exists x' :: 0 <= x' < x && CountEqn(e, Point(x', y), shown, unknown, marked, m.Mines)
      {
        ghost var eqns0 := eqns;
        InitCell(x, y, shown, unknown, marked);
        CellsGrow(x, y, old(eqns), eqns0, eqns, shown, unknown, marked, m.Mines);
      }
    }

    /** The body of init_eqn_map's second pass at (x, y): adjoin the cell's count equation, if it is opened. */
    method InitCell(x: int, y: int, ghost shown: set<Point>, ghost unknown: set<Point>, ghost marked: set<Point>)
      requires m.Sound() && Indexed() && Facts() && Over(m.Unknown())
      requires shown == m.Opened() && unknown == m.Unknown() && marked == m.Marked()
      modifies this, em
      ensures Indexed() && Facts() && Over(m.Unknown())
      ensures em == old(em) && ps == old(ps) && globalEqnAdded == old(globalEqnAdded)
      ensures forall e :: e in eqns <==> e in old(eqns) || CountEqn(e, Point(x, y), shown, unknown, marked, m.Mines)
    {
      var q := m.Look(x, y);
      m.OpenedIsCountLook(Point(x, y));
      if q >= 0 {
        assert Point(x, y) in Cells(m.r, m.c) && q == Adjacent(m.Mines, x, y);
        var e := NearEqn(Point(x, y), q);
        Store(e, unknown);
        assert forall e' :: e' in eqns <==> e' in old(eqns) || CountEqn(e', Point(x, y), shown, unknown, marked, m.Mines) by {
          OneCountEqn(e, Point(x, y), old(eqns), eqns, shown, unknown, marked, m.Mines);
        }
        assert m.Unknown() == unknown;
      } else {
        assert Point(x, y) !in shown;
      }
    }

    /**
     * prob (MioStrategy.java), exactly: the largest probability the equations at p give,
     * or, with no equation at p, prob0 for an unknown cell and 1 for a known one.
     */
    ghost function CellProb(p: Point, prob0: real): real
      reads this, em, m, m.mineMap, m.markMap, m.unprobedMap
      requires Indexed() && m.Valid() && p in Cells(m.r, m.c)
    {
      if At(p) == [] then (if p in m.Unknown() then prob0 else 1.0) else MaxProb(At(p), 0.0)
    }

    /** p is a cell whose probability, with prob0 as choose computes it, is least over the board. */
    ghost predicate LeastProb(p: Point)
      reads this, em, m, m.mineMap, m.markMap, m.unprobedMap
      requires Indexed() && m.Valid()
    {
      p in Cells(m.r, m.c) && forall c :: c in Cells(m.r, m.c) ==> CellProb(p, Prob0()) <= CellProb(c, Prob0())
    }

    /** prob0 of choose: the mines not yet marked, spread evenly over the unknown cells. */
    ghost function Prob0(): real
      reads m, m.mineMap, m.markMap, m.unprobedMap
      requires m.Valid()
    {
      if m.Unknown() == {} then 0.0 else m.MinesMinusMarks() as real / |m.Unknown()| as real
    }

    /** The loops of prob (MioStrategy.java). */
    method Prob(x: int, y: int, prob0: real) returns (r: real)
      requires Indexed() && m.Valid() && Point(x, y) in Cells(m.r, m.c)
      ensures r == CellProb(Point(x, y), prob0)
    {
      var es := em[y, x];
      assert es == At(Point(x, y));
      if es == [] {
        m.UnknownIsUnprobedLook(Point(x, y));
        if UNPROBED == m.Look(x, y) {
          return prob0;
        } else {
          return 1.0;
        }
      }
      r := 0.0;
      while es != []
        invariant IsSet(EqnLess, es) && forall e :: e in es ==> Stored(e)
        invariant MaxProb(es, r) == MaxProb(At(Point(x, y)), 0.0)
        decreases |es|
      {
        var e := First(EqnLess, es);
        var card := CardScan(PointLess, e.points);
        CardIsSize(PointLess, e.points);
        var eProb := e.constant as real / card as real;
        r := RMax(r, eProb);
        es := ButFirst(EqnLess, es);
      }
    }

    /** With the equations over unknown cells only, a known cell has probability 1. */
    lemma KnownCellProb(p: Point, prob0: real)
      requires Indexed() && m.Valid() && Over(m.Unknown()) && p in Cells(m.r, m.c) && p !in m.Unknown()
      ensures CellProb(p, prob0) == 1.0
    {
      forall e | e in At(p) ensures false {
      }
      NoneLeft(At(p));
    }

    /** Every cell's probability lies in [0, 1] when prob0 does. */
    lemma CellProbBounds(p: Point, prob0: real)
      requires Indexed() && Facts() && m.Valid() && p in Cells(m.r, m.c) && 0.0 <= prob0 <= 1.0
      ensures 0.0 <= CellProb(p, prob0) <= 1.0
    {
      forall e | e in At(p) ensures e.points != [] && 0 <= e.constant <= |e.points| {
        assert e in eqns;
        ElemsCard(e.points);
        MinesAtMost(Elems(e.points), m.Mines);
      }
      MaxProbBounds(At(p), 0.0);
    }

    /** In a game in progress without mistakes, prob0 is a probability. */
    lemma Prob0Bounds()
      requires Playing(m) && m.InitialMines >= 0
      ensures 0.0 <= Prob0() <= 1.0
    {
      if m.Unknown() != {} {
        m.HiddenMines();
        MinesAtMost(m.Unknown(), m.Mines);
        RatioBounds(m.MinesMinusMarks(), |m.Unknown()|);
      }
    }

    /** `probs` records every cell's probability in the present state. */
    ghost predicate ProbsAre(probs: map<Point, real>, prob0: real)
      reads this, em, m, m.mineMap, m.markMap, m.unprobedMap
      requires Indexed() && m.Valid()
    {
      forall q :: q in Cells(m.r, m.c) ==> q in probs && probs[q] == CellProb(q, prob0)
    }

    /** A step that changes nothing leaves every cell's probability as it was. */
    twostate lemma ProbsKept(new probs: map<Point, real>, new prob0: real)
      requires old(Indexed()) && old(m.Valid()) && old(ProbsAre(probs, prob0))
      requires unchanged(this) && unchanged(old(em), m, m.mineMap, m.markMap, m.unprobedMap)
      ensures Indexed() && m.Valid() && ProbsAre(probs, prob0)
    {
    }

    /** The probability of every cell of the board, as prob computes it in the present state. */
    lemma ProbTable(prob0: real) returns (probs: map<Point, real>)
      requires Ok() && 0.0 <= prob0 <= 1.0
      ensures ProbsAre(probs, prob0) && Cells(m.r, m.c) <= probs.Keys
      ensures forall q :: q in Cells(m.r, m.c) ==> probs[q] <= 1.0
      ensures forall q :: q in Cells(m.r, m.c) && q !in m.Unknown() ==> probs[q] == 1.0
    {
      probs := map q | q in Cells(m.r, m.c) :: CellProb(q, prob0);
      forall q | q in Cells(m.r, m.c) ensures probs[q] <= 1.0 && (q !in m.Unknown() ==> probs[q] == 1.0) {
        CellProbBounds(q, prob0);
        if q !in m.Unknown() {
          KnownCellProb(q, prob0);
        }
      }
    }

    /**
     * The selection of choose (MioStrategy.java): none when no cell is unknown;
     * otherwise an unknown cell whose probability is least over the whole board.  The
     * scan starts at the cell the random draw picks among the unknown ones and goes
     * round the board row by row from there; `random` stands for Math.random().
     */
    method ChoosePoint(random: real) returns (best: Option<Point>)
      requires Ok() && m.InitialMines >= 0 && 0.0 <= random < 1.0
      ensures best.None? <==> m.Unknown() == {}
      ensures best.Some? ==> best.value in m.Unknown() && LeastProb(best.value)
    {
      var ps0 := UnknownPoints();
      Untouched({});
      var nps0 := CardScan(PointLess, ps0);
      Untouched({});
      CardIsSize(PointLess, ps0);
      if nps0 == 0 {
        return None;
      }
      var prob0 := m.MinesMinusMarks() as real / nps0 as real;
      Prob0Bounds();
      var start := PickStart(ps0, nps0, random);
      Untouched({});
      var p := ChooseFrom(start, prob0);
      Untouched({});
      return Some(p);
    }

    /** The scan of choose from `start`, over the probabilities prob gives with prob0. */
    method ChooseFrom(start: Point, prob0: real) returns (p: Point)
      requires Ok() && start in m.Unknown() && 0.0 <= prob0 <= 1.0
      ensures p in m.Unknown() && forall q :: q in Cells(m.r, m.c) ==> CellProb(p, prob0) <= CellProb(q, prob0)
    {
      ghost var probs := ProbTable(prob0);
      p := ScanBoard(start, prob0, probs, m.Unknown());
      ProbsKept(probs, prob0);
      Untouched({});
    }

    /** The scan of choose: every row from y_orig round, each from x_orig round. */
    method ScanBoard(start: Point, prob0: real, ghost probs: map<Point, real>, ghost u: set<Point>) returns (p: Point)
      requires Indexed() && m.Valid() && ProbsAre(probs, prob0)
      requires start in u && u <= Cells(m.r, m.c) && Cells(m.r, m.c) <= probs.Keys
      requires forall q :: q in Cells(m.r, m.c) ==> probs[q] <= 1.0
      requires forall q :: q in Cells(m.r, m.c) && q !in u ==> probs[q] == 1.0
      ensures p in u && p in probs && forall q :: q in Cells(m.r, m.c) ==> probs[p] <= probs[q]
    {
      var bestProb := Prob(start.x, start.y, prob0);
      ProbsKept(probs, prob0);
      p := start;
      for j := 0 to m.r
        invariant Indexed() && m.Valid() && ProbsAre(probs, prob0)
        invariant p in u && p in probs && bestProb == probs[p] && bestProb <= 1.0
        invariant forall j', i' :: 0 <= j' < j && 0 <= i' < m.c ==>
          bestProb <= probs[Rotated(i', j', start, m.r, m.c)]
      {
        ghost var best := bestProb;
        label before:
        p, bestProb := ScanRow(j, start, p, bestProb, prob0, probs, u);
        ProbsKept@before(probs, prob0);
        RowsStep(probs, start, m.r, m.c, j, best, bestProb);
      }
      ScanCovers(probs, start, m.r, m.c, bestProb);
    }

    /** The inner loop of choose's scan: row (j + y_orig) % r, from column x_orig round. */
    method ScanRow(j: int, start: Point, p0: Point, prob: real, prob0: real, ghost probs: map<Point, real>, ghost u: set<Point>)
        returns (p: Point, bestProb: real)
      requires Indexed() && m.Valid() && ProbsAre(probs, prob0)
      requires 0 <= j < m.r && start in Cells(m.r, m.c) && Cells(m.r, m.c) <= probs.Keys
      requires forall q :: q in Cells(m.r, m.c) && q !in u ==> probs[q] == 1.0
      requires p0 in u && p0 in probs && prob == probs[p0] && prob <= 1.0
      ensures p in u && p in probs && bestProb == probs[p] && bestProb <= prob
      ensures forall i' :: 0 <= i' < m.c ==> bestProb <= probs[Rotated(i', j, start, m.r, m.c)]
    {
      p, bestProb := p0, prob;
      for i := 0 to m.c
        invariant Indexed() && m.Valid() && ProbsAre(probs, prob0)
        invariant p in u && p in probs && bestProb == probs[p] && bestProb <= prob
        invariant forall i' :: 0 <= i' < i ==> bestProb <= probs[Rotated(i', j, start, m.r, m.c)]
      {
        var q := Rotated(i, j, start, m.r, m.c);
        label before:
        var r := Prob(q.x, q.y, prob0);
        ProbsKept@before(probs, prob0);
        ghost var best := bestProb;
        if r < bestProb {
          p, bestProb := q, r;
        }
        ScanStep(probs, j, start, m.r, m.c, i, best, bestProb);
      }
    }

    /**
     * tap (MioStrategy.java): probe p; unless it held a mine, probe_points then turns
     * the count it shows into equations.
     */
    method Tap(p: Point) returns (q: int)
      requires Ok() && p in m.Unknown()
      modifies this, em, m, m.markMap, m.unprobedMap
      ensures em == old(em) && globalEqnAdded == old(globalEqnAdded)
      ensures m.Valid() && m.Marked() == old(m.Marked()) && m.Unknown() == old(m.Unknown()) - {p}
      ensures q == BOOM <==> p in m.Mines
      ensures q == BOOM ==> m.finished && !m.Sound()
      ensures q != BOOM ==> Ok() && q == Adjacent(m.Mines, p.x, p.y)
      ensures q == BOOM ==> eqns == old(eqns) && ps == old(ps)
      ensures q != BOOM ==>
        && eqns == ProbedEqns(old(eqns), [p], old(m.Unknown()) - {p}, old(m.Marked()), m.Mines)
        && Elems(ps) == Elems(old(ps)) + ProbedQueue(old(eqns), [p], old(m.Unknown()) - {p}, old(m.Marked()), m.Mines)
    {
      ghost var unknown := m.Unknown();
      q := m.Probe(p.x, p.y);
      if q >= 0 {
        OverGrows(unknown, m.Unknown() + {p});
        ProbeTapped(p, unknown);
      }
    }

    /**
     * The probe_points call of tap, on the cell p just probed, as tap's caller sees it:
     * `unknown` is the unknown cells before the probe.
     */
    method ProbeTapped(p: Point, ghost unknown: set<Point>)
      requires Valid() && Playing(m) && Over(m.Unknown() + {p}) && p in Cells(m.r, m.c) && p !in m.Mines
      requires m.Unknown() == unknown - {p}
      modifies this, em, m, m.unprobedMap
      ensures Ok() && em == old(em) && globalEqnAdded == old(globalEqnAdded)
      ensures m.Marked() == old(m.Marked()) && m.Unknown() == unknown - {p}
      ensures eqns == ProbedEqns(old(eqns), [p], unknown - {p}, old(m.Marked()), m.Mines)
      ensures Elems(ps) == Elems(old(ps)) + ProbedQueue(old(eqns), [p], unknown - {p}, old(m.Marked()), m.Mines)
    {
      PointLessIsOrder();
      assert Elems([p]) == {p};
      ProbePoints([p]);
    }

    /**
     * choose (MioStrategy.java): tap the cell ChoosePoint selects; 0 when no cell is
     * unknown.  This guess is the only move of the strategy that can hit a mine.  The
     * ghost `pick` is the cell tapped: an unknown cell of least probability.
     */
    method Choose(random: real) returns (q: int, ghost pick: Option<Point>)
      requires Ok() && m.InitialMines >= 0 && 0.0 <= random < 1.0
      modifies this, em, m, m.markMap, m.unprobedMap
      ensures em == old(em) && globalEqnAdded == old(globalEqnAdded) && m.Valid()
      ensures m.Marked() == old(m.Marked()) && m.Unknown() <= old(m.Unknown())
      ensures q == BOOM ==> m.finished && !m.Sound()
      ensures q != BOOM ==> Ok()
      ensures pick.None? <==> old(m.Unknown()) == {}
      ensures pick.None? ==> q == 0 && eqns == old(eqns) && ps == old(ps) && m.Unknown() == old(m.Unknown())
      ensures pick.Some? ==> pick.value in old(m.Unknown()) && old(LeastProb(pick.value))
      ensures pick.Some? ==> m.Unknown() == old(m.Unknown()) - {pick.value} && (q == BOOM <==> pick.value in m.Mines)
      ensures pick.Some? && q == BOOM ==> eqns == old(eqns) && ps == old(ps)
      ensures pick.Some? && q != BOOM ==>
        && eqns == ProbedEqns(old(eqns), [pick.value], old(m.Unknown()) - {pick.value}, old(m.Marked()), m.Mines)
        && Elems(ps) == Elems(old(ps)) + ProbedQueue(old(eqns), [pick.value], old(m.Unknown()) - {pick.value}, old(m.Marked()), m.Mines)
    {
      label before:
      var best := ChoosePoint(random);
      Untouched@before({});
      pick := best;
      match best {
        case None =>
          q := 0;
        case Some(p) =>
          q := Tap(p);
      }
    }

    /**
     * One pass of play's inner loop (MioStrategy.java) on the point p taken from the
     * worklist: the three rules, then the global equation when it is due.
     */
    method Step(p: Point)
      requires Ok() && m.InitialMines >= 0 && p in Cells(m.r, m.c)
      modifies this, em, m, m.markMap, m.unprobedMap
      ensures Ok() && em == old(em)
    {
      SingleEquationRule(p);
      SubsetAt(p);
      EqnDiffRule(p);
      AddGlobal();
    }

    /** subset_rule(p) as the rules loop sees it: the map gains the differences of the nested pairs at p. */
    method SubsetAt(p: Point)
      requires Ok() && p in Cells(m.r, m.c)
      modifies this, em
      ensures Ok() && em == old(em) && globalEqnAdded == old(globalEqnAdded)
      ensures m.Unknown() == old(m.Unknown()) && m.Marked() == old(m.Marked())
      ensures eqns == Subsumed(old(eqns), p) && Elems(ps) == Elems(old(ps)) + PointsOf(eqns - old(eqns))
    {
      assert Elems(At(p)) == AtCell(eqns, p);
      label subset:
      SubsetRule(p, m.Unknown());
      BoardKept@subset();
    }

    /**
     * play (MioStrategy.java): a fresh equation map, then until the game is over, a
     * guess (Choose) followed by the rules run over the worklist until it is empty.
     * `draws` stands for the values Math.random() returns, one per guess; the game is
     * cut short when they run out, or when the inner loop has taken `fuel` steps in all.
     * A game ends lost only by a guess that hits a mine: the rules never make a mistake.
     */
    method Play(draws: seq<real>, fuel: nat) returns (o: Outcome)
      requires m.Sound() && m.InitialMines >= 0
      requires forall k :: 0 <= k < |draws| ==> 0.0 <= draws[k] < 1.0
      modifies this, m, m.markMap, m.unprobedMap
      ensures m.Valid() && m.Marked() <= m.Mines
      ensures o == Lost <==> !m.Sound()
      ensures o == Finished ==> m.finished && (!old(m.finished) ==> m.Won())
      ensures o == OutOfDraws || o == OutOfFuel ==> !m.finished
    {
      Start();
      var k := 0;
      var f := fuel;
      while true
        invariant Valid() && m.Sound() && Over(m.Unknown()) && fresh(em) && 0 <= k <= |draws|
        invariant m.finished ==> old(m.finished)
        decreases |draws| - k
      {
        label before:
        var done := m.Done();
        FlagsOnly@before();
        if done {
          return Finished;
        }
        if k == |draws| {
          return OutOfDraws;
        }
        var ended;
        ghost var pick;
        ended, f, pick := Turn(draws[k], f);
        k := k + 1;
        if ended.Some? {
          return ended.value;
        }
      }
    }

    /** The start of play: no global equation yet, a fresh equation map, an empty worklist. */
    method Start()
      requires m.Sound()
      modifies this
      ensures Valid() && Over(m.Unknown()) && fresh(em) && ps == [] && !globalEqnAdded
    {
      globalEqnAdded := false;
      InitEqnMap();
      ps := [];
    }

    /**
     * One turn of play's outer loop once the game is known not to be over: a guess,
     * then the rules over the worklist.  The turn ends the game only when the guess
     * hits a mine (Lost) or the fuel runs out (OutOfFuel).  The ghost `pick` is the
     * cell the guess tapped, as Choose gives it.
     */
    method Turn(random: real, fuel: nat) returns (ended: Option<Outcome>, left: nat, ghost pick: Option<Point>)
      requires Ok() && m.InitialMines >= 0 && 0.0 <= random < 1.0
      modifies this, em, m, m.markMap, m.unprobedMap
      ensures em == old(em) && m.Valid() && m.Marked() <= m.Mines && left <= fuel
      ensures ended.None? ==> Ok() && ps == []
      ensures ended == Some(Lost) ==> m.finished && !m.Sound()
      ensures ended == Some(OutOfFuel) ==> Ok()
      ensures ended.None? || ended == Some(Lost) || ended == Some(OutOfFuel)
      ensures pick.None? <==> old(m.Unknown()) == {}
      ensures pick.Some? ==> pick.value in old(m.Unknown()) && old(LeastProb(pick.value))
      ensures ended == Some(Lost) <==> pick.Some? && pick.value in m.Mines
    {
      var q;
      q, pick := Choose(random);
      if q == BOOM {
        return Some(Lost), fuel, pick;
      }
      var spent;
      left, spent := Drain(fuel);
      ended := if spent then Some(OutOfFuel) else None;
    }

    /**
     * The inner loop of play: the rules on each point of the worklist in turn until it
     * is empty (spent is false), or until `fuel` passes are used up (spent is true).
     */
    method Drain(fuel: nat) returns (left: nat, spent: bool)
      requires Ok() && m.InitialMines >= 0
      modifies this, em, m, m.markMap, m.unprobedMap
      ensures Ok() && em == old(em) && left <= fuel
      ensures !spent ==> ps == []
    {
      left := fuel;
      while ps != []
        invariant Ok() && em == old(em) && left <= fuel
        decreases left
      {
        if left == 0 {
          return left, true;
        }
        left := left - 1;
        var p := First(PointLess, ps);
        ps := ButFirst(PointLess, ps);
        Step(p);
      }
      spent := false;
    }
  }
}
