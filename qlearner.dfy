/**
 * The experience a learner keeps (qlearner/ActionResult.java, qlearner/ActionHistory.java).
 *
 * An action result is a snapshot of the window around a cell, taken the way a local
 * snapshot is (module State), together with how often that window was met and how
 * often acting in it blew up, marked, or opened an empty cell.  The history is a list
 * of such results; saving an action finds the first stored result whose window equals
 * the fresh one and counts the outcome there, or stores the fresh one.
 */
module QLearner {
  import opened Board
  import opened State

  /** Why the ActionResult constructor throws. */
  datatype SizeError =
    | EvenSize      // IllegalArgumentException: the window has no centre
    | NegativeSize  // NegativeArraySizeException from the array allocation

  /** A constructor call either builds an action result or throws. */
  datatype Made = Built(result: ActionResult) | Thrown(error: SizeError)

  class ActionResult {
    const x: int
    const y: int
    const size: int
    const center: int
    const localState: array2<int>
    var count: int
    var marked: int
    var bombed: int
    var empty: int

    ghost predicate Valid() {
      && 1 <= size && size % 2 == 1 && center == (size - 1) / 2
      && localState.Length0 == size && localState.Length1 == size
    }

    /** The ActionResult constructor past its size check. */
    constructor (m: MineMap, x: int, y: int, size: int)
      requires m.Valid() && 1 <= size && size % 2 == 1
      ensures Valid() && this.x == x && this.y == y && this.size == size
      ensures fresh(localState) && Shows(localState, m, x, y, size)
      ensures count == 1 && marked == 0 && bombed == 0 && empty == 0
    {
      this.x := x;
      this.y := y;
      this.size := size;
      center := (size - 1) / 2;
      var a := FillWindow(m, x, y, size);
      localState := a;
      count := 1;
      marked := 0;
      bombed := 0;
      empty := 0;
    }

    /** The outcome counters of saveAction: a blow-up, a mark, or anything else. */
    method Tally(result: int)
      modifies this
      ensures count == old(count)
      ensures bombed == old(bombed) + (if result == BOOM then 1 else 0)
      ensures marked == old(marked) + (if result == MARKED then 1 else 0)
      ensures empty == old(empty) + (if result != BOOM && result != MARKED then 1 else 0)
    {
      if result == BOOM {
        bombed := bombed + 1;
      } else if result == MARKED {
        marked := marked + 1;
      } else {
        empty := empty + 1;
      }
    }

    /** equals (ActionResult.java): the windows agree everywhere but at the centre. */
    method Equals(other: ActionResult) returns (same: bool)
      requires Valid() && size <= other.localState.Length0 && size <= other.localState.Length1
      ensures same == Matches(this, other)
    {
      same := SameOffCentreScan(localState, other.localState, size, center);
    }
  }

  /** What a.equals(b) decides: b's window agrees with a's except at a's centre. */
  ghost predicate Matches(a: ActionResult, b: ActionResult)
    reads a.localState, b.localState
    requires a.Valid() && a.size <= b.localState.Length0 && a.size <= b.localState.Length1
  {
    SameOffCentre(a.localState, b.localState, a.size, a.center)
  }

  /**
   * The ActionResult constructor with its checks: an even size is refused before
   * anything is allocated, and a negative odd size fails at the allocation.
   */
  method NewActionResult(m: MineMap, x: int, y: int, size: int) returns (r: Made)
    requires m.Valid()
    ensures r.Thrown? <==> size % 2 == 0 || size < 0
    ensures r.Thrown? ==> r.error == if size % 2 == 0 then EvenSize else NegativeSize
    ensures r.Built? ==> && fresh(r.result) && fresh(r.result.localState) && r.result.Valid()
                         && r.result.x == x && r.result.y == y && r.result.size == size
                         && Shows(r.result.localState, m, x, y, size)
                         && r.result.count == 1 && r.result.marked == 0
                         && r.result.bombed == 0 && r.result.empty == 0
  {
    if size % 2 == 0 {
      return Thrown(EvenSize);
    }
    if size < 0 {
      return Thrown(NegativeSize);
    }
    var a := new ActionResult(m, x, y, size);
    return Built(a);
  }

  /** Every stored result is a well-formed window of side `size`. */
  ghost predicate AllOfSize(rs: seq<ActionResult>, size: int) {
    forall a :: a in rs ==> a.Valid() && a.size == size
  }

  /**
   * The index of the first stored result that matches s, the one the loops of
   * getExistingAction and saveAction stop at.
   */
  ghost function FirstSame(rs: seq<ActionResult>, s: ActionResult): (k: Option<nat>)
    reads set a | a in rs :: a.localState, s.localState
    requires AllOfSize(rs, s.size) && s.Valid()
    ensures k.None? <==> forall i :: 0 <= i < |rs| ==> !Matches(rs[i], s)
    ensures k.Some? ==> k.value < |rs| && Matches(rs[k.value], s)
    ensures k.Some? ==> forall i :: 0 <= i < k.value ==> !Matches(rs[i], s)
    decreases |rs|
  {
    if rs == [] then None
    else if Matches(rs[0], s) then Some(0)
    else match FirstSame(rs[1..], s)
      case None => None
      case Some(k) => Some(k + 1)
  }

  /** The result saveAction counts the outcome on: the first match, or s itself. */
  ghost function Chosen(rs: seq<ActionResult>, s: ActionResult): ActionResult
    reads set a | a in rs :: a.localState, s.localState
    requires AllOfSize(rs, s.size) && s.Valid()
  {
    match FirstSame(rs, s)
    case None => s
    case Some(k) => rs[k]
  }

  class ActionHistory {
    var actionResultList: seq<ActionResult>
    var newActionsSinceLastSave: seq<ActionResult>
    const localStateSize: int
    const local: bool

    ghost predicate Valid()
      reads this
    {
      && AllOfSize(actionResultList, localStateSize)
      && forall a :: a in newActionsSinceLastSave ==> a in actionResultList
    }

    /** The ActionHistory constructor: nothing stored yet. */
    constructor (localStateSize: int, local: bool)
      ensures Valid() && actionResultList == [] && newActionsSinceLastSave == []
      ensures this.localStateSize == localStateSize && this.local == local
    {
      this.localStateSize := localStateSize;
      this.local := local;
      actionResultList := [];
      newActionsSinceLastSave := [];
    }

    /**
     * The loop of getExistingAction and of saveAction: ask each stored result in turn
     * whether it equals the fresh snapshot, and stop at the first that does.
     */
    method IndexOfSame(snapshot: ActionResult) returns (k: Option<nat>)
      requires Valid() && snapshot.Valid() && snapshot.size == localStateSize
      ensures k == FirstSame(actionResultList, snapshot)
    {
      for i := 0 to |actionResultList|
        invariant forall j :: 0 <= j < i ==> !Matches(actionResultList[j], snapshot)
      {
        var same := actionResultList[i].Equals(snapshot);
        if same {
          assert FirstSame(actionResultList, snapshot) == Some(i);
          return Some(i);
        }
      }
      return None;
    }

    /**
     * getExistingAction (ActionHistory.java): the first stored result equal to the
     * fresh snapshot, or none.
     */
    method GetExistingAction(snapshot: ActionResult) returns (r: Option<ActionResult>)
      requires Valid() && snapshot.Valid() && snapshot.size == localStateSize
      ensures r.None? <==> forall i :: 0 <= i < |actionResultList| ==> !Matches(actionResultList[i], snapshot)
      ensures r.Some? ==> exists i ::
        && 0 <= i < |actionResultList| && r.value == actionResultList[i] && Matches(actionResultList[i], snapshot)
        && forall j :: 0 <= j < i ==> !Matches(actionResultList[j], snapshot)
    {
      var k := IndexOfSame(snapshot);
      if k.Some? {
        return Some(actionResultList[k.value]);
      }
      return None;
    }

    /**
     * saveAction (ActionHistory.java): count the outcome of acting in the window of
     * the fresh snapshot on the first stored result equal to it, or store the snapshot
     * itself, with its outcome, as new.
     */
    method SaveAction(snapshot: ActionResult, result: int) returns (ghost chosen: ActionResult)
      requires Valid() && snapshot.Valid() && snapshot.size == localStateSize
      requires snapshot !in actionResultList
      modifies this, actionResultList, snapshot
      ensures Valid()
      ensures chosen == old(Chosen(actionResultList, snapshot))
      ensures old(FirstSame(actionResultList, snapshot)).Some? ==>
        actionResultList == old(actionResultList) && newActionsSinceLastSave == old(newActionsSinceLastSave)
      ensures old(FirstSame(actionResultList, snapshot)).None? ==>
        && actionResultList == old(actionResultList) + [snapshot]
        && newActionsSinceLastSave == old(newActionsSinceLastSave) + [snapshot]
      ensures chosen.count == old(chosen.count) + (if chosen == snapshot then 0 else 1)
      ensures chosen.bombed == old(chosen.bombed) + (if result == BOOM then 1 else 0)
      ensures chosen.marked == old(chosen.marked) + (if result == MARKED then 1 else 0)
      ensures chosen.empty == old(chosen.empty) + (if result != BOOM && result != MARKED then 1 else 0)
      ensures forall a :: a in old(actionResultList) + [snapshot] && a != chosen ==> unchanged(a)
    {
      var k := IndexOfSame(snapshot);
      var actionResult := snapshot;
      if k.Some? {
        actionResult := actionResultList[k.value];
        actionResult.count := actionResult.count + 1;
      }
      chosen := actionResult;
      actionResult.Tally(result);
      if k.None? {
        actionResultList := actionResultList + [actionResult];
        newActionsSinceLastSave := newActionsSinceLastSave + [actionResult];
      }
    }
  }
}
