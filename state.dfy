/**
 * Snapshots of a board (state/LocalState.java, state/GameState.java).
 *
 * A local snapshot copies what a player sees of the square window of side `size`
 * around a cell (x, y) into a grid indexed [row, column]; the cell at the centre is
 * stored as 0 and two snapshots are equal when they agree everywhere but there.  A
 * game snapshot copies the whole board.  The grids are arrays filled by nested loops,
 * as in the source; the contracts tie each grid to the board's looks, and the lemmas
 * say what equality of two snapshots means for the boards they were taken from.
 */
module State {
  import opened Board

  /*
   * The window of a local snapshot.
   */

  /**
   * What a snapshot of side 2 * offset + 1 or more around (x, y) holds at row j and
   * column i: the look at the matching cell, 0 at the centre, and the initial 0 of the
   * Java array beyond the square the loops fill.
   */
  ghost function Glimpse(m: MineMap, x: int, y: int, offset: nat, i: int, j: int): int
    reads m, m.mineMap, m.markMap, m.unprobedMap
    requires m.Valid()
  {
    if 0 <= i <= 2 * offset && 0 <= j <= 2 * offset then
      if i == offset && j == offset then 0 else Seen(m, x, y, i - offset, j - offset)
    else 0
  }

  /** The look at the cell dx columns and dy rows away from (x, y). */
  ghost function Seen(m: MineMap, x: int, y: int, dx: int, dy: int): int
    reads m, m.mineMap, m.markMap, m.unprobedMap
    requires m.Valid()
  {
    m.Look(x + dx, y + dy)
  }

  /** The grid `a` holds the snapshot of side `size` around (x, y) of board `m`. */
  ghost predicate Shows(a: array2<int>, m: MineMap, x: int, y: int, size: int)
    reads a, m, m.mineMap, m.markMap, m.unprobedMap
    requires m.Valid() && 1 <= size
  {
    && a.Length0 == size && a.Length1 == size
    && forall j, i :: 0 <= j < size && 0 <= i < size ==> a[j, i] == Glimpse(m, x, y, (size - 1) / 2, i, j)
  }

  /** The two grids agree on the first `size` rows and columns, except at the centre. */
  ghost predicate SameOffCentre(a: array2<int>, b: array2<int>, size: int, center: int)
    reads a, b
    requires size <= a.Length0 && size <= a.Length1 && size <= b.Length0 && size <= b.Length1
  {
    forall j, i :: 0 <= j < size && 0 <= i < size && !(i == center && j == center) ==> a[j, i] == b[j, i]
  }

  /**
   * The two boards look the same around (x1, y1) and (x2, y2) respectively, at every
   * offset up to `offset` in each direction except the centre itself.
   */
  ghost predicate SameView(m1: MineMap, x1: int, y1: int, m2: MineMap, x2: int, y2: int, offset: int)
    reads m1, m1.mineMap, m1.markMap, m1.unprobedMap, m2, m2.mineMap, m2.markMap, m2.unprobedMap
    requires m1.Valid() && m2.Valid()
  {
    forall dy, dx :: -offset <= dy <= offset && -offset <= dx <= offset && !(dx == 0 && dy == 0) ==>
      Seen(m1, x1, y1, dx, dy) == Seen(m2, x2, y2, dx, dy)
  }

  /**
   * Two snapshots of one side are equal exactly when the boards they were taken from
   * look the same around their centres: the centre cell is ignored and nothing else is.
   */
  lemma SnapshotsEqualIffSameView(a: array2<int>, m1: MineMap, x1: int, y1: int,
                                  b: array2<int>, m2: MineMap, x2: int, y2: int, size: int)
    requires m1.Valid() && m2.Valid() && 1 <= size
    requires Shows(a, m1, x1, y1, size) && Shows(b, m2, x2, y2, size)
    ensures SameOffCentre(a, b, size, (size - 1) / 2) <==> SameView(m1, x1, y1, m2, x2, y2, (size - 1) / 2)
  {
    var offset := (size - 1) / 2;
    if SameOffCentre(a, b, size, offset) {
      forall dy, dx | -offset <= dy <= offset && -offset <= dx <= offset && !(dx == 0 && dy == 0)
        ensures Seen(m1, x1, y1, dx, dy) == Seen(m2, x2, y2, dx, dy)
      {
        assert a[offset + dy, offset + dx] == b[offset + dy, offset + dx];
      }
    }
    if SameView(m1, x1, y1, m2, x2, y2, offset) {
      forall j, i | 0 <= j < size && 0 <= i < size && !(i == offset && j == offset)
        ensures a[j, i] == b[j, i]
      {
        if 0 <= i <= 2 * offset && 0 <= j <= 2 * offset {
          assert Seen(m1, x1, y1, i - offset, j - offset) == Seen(m2, x2, y2, i - offset, j - offset);
        }
      }
    }
  }

  /**
   * The loops of the LocalState constructor (and of the ActionResult one): the window
   * of side 2 * offset + 1 around (x, y), row j from y - offset and column i from
   * x - offset, with j2 and i2 counting the rows and columns filled.
   */
  method FillWindow(m: MineMap, x: int, y: int, size: int) returns (a: array2<int>)
    requires m.Valid() && 1 <= size
    ensures fresh(a) && Shows(a, m, x, y, size)
  {
    a := new int[size, size]((j, i) => 0);
    var offset := (size - 1) / 2;
    var j2 := 0;
    var j := y - offset;
    while j <= y + offset
      invariant j2 == j - (y - offset) && 0 <= j2 <= 2 * offset + 1 <= size
      invariant forall j', i' :: 0 <= j' < size && 0 <= i' < size ==>
        a[j', i'] == if j' < j2 && i' <= 2 * offset then Glimpse(m, x, y, offset, i', j') else 0
    {
      FillRow(a, m, x, y, offset, j, j2);
      j2 := j2 + 1;
      j := j + 1;
    }
  }

  /** The inner loop: row j2 of the window, row j of the board. */
  method FillRow(a: array2<int>, m: MineMap, x: int, y: int, offset: nat, j: int, j2: int)
    requires m.Valid() && a != m.mineMap
    requires 2 * offset < a.Length0 == a.Length1 && 0 <= j2 <= 2 * offset && j == y - offset + j2
    modifies a
    ensures forall j', i' :: 0 <= j' < a.Length0 && 0 <= i' < a.Length1 ==>
      a[j', i'] == if j' == j2 && i' <= 2 * offset then Glimpse(m, x, y, offset, i', j') else old(a[j', i'])
  {
    var i2 := 0;
    var i := x - offset;
    while i <= x + offset
      invariant i2 == i - (x - offset) && 0 <= i2 <= 2 * offset + 1
      invariant forall j', i' :: 0 <= j' < a.Length0 && 0 <= i' < a.Length1 ==>
        a[j', i'] == if j' == j2 && i' < i2 then Glimpse(m, x, y, offset, i', j') else old(a[j', i'])
    {
      if i == x && j == y {
        a[j2, i2] := 0;
      } else {
        a[j2, i2] := m.Look(i, j);
      }
      i2 := i2 + 1;
      i := i + 1;
    }
  }

  /**
   * The loops of both equals methods: compare the grids row by row, skipping the
   * centre, and answer false at the first difference.
   */
  method SameOffCentreScan(a: array2<int>, b: array2<int>, size: int, center: int) returns (same: bool)
    requires 0 <= size <= a.Length0 && size <= a.Length1 && size <= b.Length0 && size <= b.Length1
    ensures same == SameOffCentre(a, b, size, center)
  {
    for j := 0 to size
      invariant forall j', i' :: 0 <= j' < j && 0 <= i' < size && !(i' == center && j' == center) ==>
        a[j', i'] == b[j', i']
    {
      for i := 0 to size
        invariant forall j', i' ::
          (j' < j || (j' == j && i' < i)) && 0 <= j' && 0 <= i' < size && !(i' == center && j' == center) ==>
          a[j', i'] == b[j', i']
      {
        if i == center && j == center {
          continue;
        }
        if a[j, i] != b[j, i] {
          return false;
        }
      }
    }
    return true;
  }

  /*
   * LocalState.
   */

  /** A snapshot of the window of side `size` around (x, y), with the counters a learner keeps. */
  class LocalState {
    const x: int
    const y: int
    const size: int
    const state: array2<int>
    var count: int
    var marked: int
    var bombed: int
    var empty: int

    ghost predicate Valid() {
      1 <= size && state.Length0 == size && state.Length1 == size
    }

    /** The LocalState constructor: a fresh snapshot, seen once, with no outcome yet. */
    constructor (m: MineMap, x: int, y: int, size: int)
      requires m.Valid() && 1 <= size
      ensures Valid() && this.x == x && this.y == y && this.size == size
      ensures fresh(state) && Shows(state, m, x, y, size)
      ensures count == 1 && marked == 0 && bombed == 0 && empty == 0
    {
      this.x := x;
      this.y := y;
      this.size := size;
      var a := FillWindow(m, x, y, size);
      state := a;
      count := 1;
      marked := 0;
      bombed := 0;
      empty := 0;
    }

    /** equals (LocalState.java): the two grids agree except at the centre. */
    method Equals(other: LocalState) returns (same: bool)
      requires Valid() && size <= other.state.Length0 && size <= other.state.Length1
      ensures same == SameOffCentre(state, other.state, size, (size - 1) / 2)
    {
      same := SameOffCentreScan(state, other.state, size, (size - 1) / 2);
    }
  }

  /*
   * GameState.
   */

  /**
   * The cells the GameState constructor writes as the source indexes them: the loops
   * run x over the rows and y over the columns and write element [y][x] of an array of
   * `rows` rows of `columns` elements each.  The writes stay inside the array exactly
   * when this holds.
   */
  ghost predicate WrittenInBounds(rows: nat, columns: nat) {
    forall x, y :: 0 <= x < rows && 0 <= y < columns ==> InArray(y, x, rows, columns)
  }

  /** Element [i][j] exists in an array of n0 rows of n1 elements each. */
  ghost predicate InArray(i: int, j: int, n0: nat, n1: nat) {
    0 <= i < n0 && 0 <= j < n1
  }

  /** As written, the snapshot of any board that is not square writes outside the array. */
  lemma WrittenInBoundsIffSquare(rows: nat, columns: nat)
    ensures WrittenInBounds(rows, columns) <==> rows == columns || rows == 0 || columns == 0
  {
    if rows < columns && rows != 0 {
      assert !InArray(rows, 0, rows, columns);
    } else if columns < rows && columns != 0 {
      assert !InArray(0, columns, rows, columns);
    }
  }

  /** The expert board of 16 rows and 30 columns is one such board. */
  lemma WrittenOutOfBoundsOnExpert()
    ensures !WrittenInBounds(16, 30)
  {
    assert !InArray(16, 0, 16, 30);
  }

  /**
   * A snapshot of the whole board, allocated `new int[columns][rows]` so that the
   * writes, equals and print of GameState.java, which all index [y][x] with x below
   * `rows` and y below `columns`, stay inside it: element [y, x] holds look(y, x).
   */
  class GameState {
    const rows: int
    const columns: int
    const state: array2<int>
    var count: int

    ghost predicate Valid() {
      0 <= rows && 0 <= columns && state.Length0 == columns && state.Length1 == rows
    }

    /** The grid holds every cell of board m as a look shows it. */
    ghost predicate ShowsBoard(m: MineMap)
      reads state, m, m.mineMap, m.markMap, m.unprobedMap
      requires m.Valid()
    {
      && rows == m.r && columns == m.c && Valid()
      && forall x, y :: 0 <= x < rows && 0 <= y < columns ==> state[y, x] == m.Look(y, x)
    }

    /** The GameState constructor, with the grid allocated [columns][rows]. */
    constructor (m: MineMap)
      requires m.Valid()
      ensures fresh(state) && ShowsBoard(m) && count == 1
    {
      rows := m.r;
      columns := m.c;
      var a := new int[m.c, m.r]((y, x) => 0);
      for x := 0 to m.r
        invariant forall x', y' :: 0 <= x' < m.r && 0 <= y' < m.c ==>
          a[y', x'] == if x' < x then m.Look(y', x') else 0
      {
        for y := 0 to m.c
          invariant forall x', y' :: 0 <= x' < m.r && 0 <= y' < m.c ==>
            a[y', x'] == if x' < x || (x' == x && y' < y) then m.Look(y', x') else 0
        {
          a[y, x] := m.Look(y, x);
        }
      }
      state := a;
      count := 1;
    }

    /** equals (GameState.java): every cell agrees, over the receiver's dimensions. */
    method Equals(other: GameState) returns (same: bool)
      requires Valid() && columns <= other.state.Length0 && rows <= other.state.Length1
      ensures same <==> forall x, y :: 0 <= x < rows && 0 <= y < columns ==> state[y, x] == other.state[y, x]
    {
      for x := 0 to rows
        invariant forall x', y' :: 0 <= x' < x && 0 <= y' < columns ==> state[y', x'] == other.state[y', x']
      {
        for y := 0 to columns
          invariant forall x', y' :: (x' < x || (x' == x && y' < y)) && 0 <= x' && 0 <= y' < columns ==>
            state[y', x'] == other.state[y', x']
        {
          if state[y, x] != other.state[y, x] {
            return false;
          }
        }
      }
      return true;
    }
  }

  /** With the corrected allocation every write of the constructor stays in the array. */
  lemma CorrectedWritesInBounds(rows: nat, columns: nat)
    ensures forall x, y :: 0 <= x < rows && 0 <= y < columns ==> InArray(y, x, columns, rows)
  {
  }

  /** Two snapshots of boards of one shape are equal exactly when every cell looks the same. */
  lemma GameStatesEqualIffSameLooks(s1: GameState, m1: MineMap, s2: GameState, m2: MineMap)
    requires m1.Valid() && m2.Valid() && s1.ShowsBoard(m1) && s2.ShowsBoard(m2)
    requires m1.r == m2.r && m1.c == m2.c
    ensures (forall x, y :: 0 <= x < s1.rows && 0 <= y < s1.columns ==> s1.state[y, x] == s2.state[y, x])
        <==> (forall x, y :: 0 <= x < m1.c && 0 <= y < m1.r ==> m1.Look(x, y) == m2.Look(x, y))
  {
    if forall x, y :: 0 <= x < s1.rows && 0 <= y < s1.columns ==> s1.state[y, x] == s2.state[y, x] {
      forall x, y | 0 <= x < m1.c && 0 <= y < m1.r ensures m1.Look(x, y) == m2.Look(x, y) {
        assert s1.state[x, y] == s2.state[x, y];
      }
    }
  }
}
