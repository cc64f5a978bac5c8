/**
 * Persistent sets over linearly ordered elements (set/Element.java, set/List.java,
 * set/Set.java).
 *
 * A set is a strictly ascending list of elements.  The element contract of Element.java
 * (`same` and `less`) becomes a parameter `lt`, the strict order, while `same` is Dafny
 * equality (the `same` of every element kind is shown to coincide with equality).
 * The immutable cons cells of List.java are Dafny sequences: `first()` is `t[0]`,
 * `but_first()` is `t[1..]`, and `List(e, l)` is `[e] + l`.
 */
module Sets {

  /** `lt` is a strict linear order, the contract of Element.java. */
  ghost predicate StrictTotalOrder<T(!new)>(lt: (T, T) -> bool) {
    && (forall a :: !lt(a, a))
    && (forall a, b, c :: lt(a, b) && lt(b, c) ==> lt(a, c))
    && (forall a, b :: a == b || lt(a, b) || lt(b, a))
  }

  /** The representation invariant of Set.java: strictly ascending, hence duplicate-free. */
  ghost predicate Sorted<T>(lt: (T, T) -> bool, t: seq<T>) {
    forall i, j :: 0 <= i < j < |t| ==> lt(t[i], t[j])
  }

  ghost predicate IsSet<T(!new)>(lt: (T, T) -> bool, t: seq<T>) {
    StrictTotalOrder(lt) && Sorted(lt, t)
  }

  /** The mathematical set a list denotes. */
  ghost function Elems<T>(t: seq<T>): set<T> {
    set x | x in t
  }

  lemma SortedTail<T>(lt: (T, T) -> bool, t: seq<T>)
    requires Sorted(lt, t) && t != []
    ensures Sorted(lt, t[1..])
    ensures forall x :: x in t[1..] ==> lt(t[0], x)
  {
  }

  lemma SortedCons<T>(lt: (T, T) -> bool, e: T, t: seq<T>)
    requires Sorted(lt, t)
    requires forall x :: x in t ==> lt(e, x)
    ensures Sorted(lt, [e] + t)
  {
    var r := [e] + t;
    forall i, j | 0 <= i < j < |r| ensures lt(r[i], r[j]) {
      if i > 0 {
        assert r[i] == t[i - 1] && r[j] == t[j - 1];
      } else {
        assert r[j] == t[j - 1] && r[j] in t;
      }
    }
  }

  /** In a sorted list nothing below the head occurs. */
  lemma BelowHeadAbsent<T(!new)>(lt: (T, T) -> bool, e: T, t: seq<T>)
    requires IsSet(lt, t) && t != [] && lt(e, t[0])
    ensures e !in t
  {
    forall i | 0 <= i < |t|
      ensures t[i] != e
    {
      if i > 0 {
        assert lt(t[0], t[i]);
      }
    }
  }

  lemma ElemsCons<T>(t: seq<T>)
    requires t != []
    ensures Elems(t) == {t[0]} + Elems(t[1..])
  {
    assert t == [t[0]] + t[1..];
  }

  /*
   * list_member: the loop of Set.java.  The function is the recursive form the
   * source gives beside it (Set.java); MemberScan is the loop.
   */

  function ListMember<T(==,!new)>(lt: (T, T) -> bool, e: T, t: seq<T>): (b: bool)
    ensures IsSet(lt, t) ==> (b <==> e in t)
  {
    if t == [] then false
    else if e == t[0] then true
    else if lt(e, t[0]) then
      assert IsSet(lt, t) ==> e !in t by {
        if IsSet(lt, t) { BelowHeadAbsent(lt, e, t); }
      }
      false
    else
      assert IsSet(lt, t) ==> IsSet(lt, t[1..]) by {
        if IsSet(lt, t) { SortedTail(lt, t); }
      }
      ElemsCons(t);
      ListMember(lt, e, t[1..])
  }

  method MemberScan<T(==,!new)>(lt: (T, T) -> bool, e: T, t: seq<T>) returns (b: bool)
    ensures b == ListMember(lt, e, t)
    ensures IsSet(lt, t) ==> (b <==> e in t)
  {
    var u := t;
    while u != []
      invariant ListMember(lt, e, u) == ListMember(lt, e, t)
    {
      if e == u[0] {
        return true;
      } else if lt(e, u[0]) {
        return false;
      }
      u := u[1..];
    }
    return false;
  }

  /** list_adjoin (Set.java): insert before the first larger element. */
  function ListAdjoin<T(==,!new)>(lt: (T, T) -> bool, e: T, t: seq<T>): (r: seq<T>)
    requires IsSet(lt, t)
    ensures Sorted(lt, r) && Elems(r) == Elems(t) + {e}
    ensures e in t ==> r == t
    ensures e !in t ==> |r| == |t| + 1
  {
    if t == [] then [e]
    else if e == t[0] then t
    else if lt(e, t[0]) then
      BelowHeadAbsent(lt, e, t);
      SortedCons(lt, e, t);
      ElemsCons([e] + t);
      [e] + t
    else
      SortedTail(lt, t);
      var rest := ListAdjoin(lt, e, t[1..]);
      KeepHead(lt, e, t, rest);
      [t[0]] + rest
  }

  /** The recursive step of ListAdjoin: a head below `e` stays in front. */
  lemma KeepHead<T(!new)>(lt: (T, T) -> bool, e: T, t: seq<T>, rest: seq<T>)
    requires IsSet(lt, t) && t != [] && lt(t[0], e)
    requires Sorted(lt, rest) && Elems(rest) == Elems(t[1..]) + {e}
    requires e in t[1..] ==> rest == t[1..]
    requires e !in t[1..] ==> |rest| == |t[1..]| + 1
    ensures Sorted(lt, [t[0]] + rest) && Elems([t[0]] + rest) == Elems(t) + {e}
    ensures e in t ==> [t[0]] + rest == t
    ensures e !in t ==> |[t[0]] + rest| == |t| + 1
  {
    SortedTail(lt, t);
    ElemsCons(t);
    forall x | x in rest ensures lt(t[0], x) {
      assert x in Elems(rest);
    }
    SortedCons(lt, t[0], rest);
    ElemsCons([t[0]] + rest);
    assert t == [t[0]] + t[1..];
    assert e != t[0];
  }

  /** adjoin (Set.java): the receiver itself when `e` is already a member. */
  function Adjoin<T(==,!new)>(lt: (T, T) -> bool, e: T, t: seq<T>): (r: seq<T>)
    requires IsSet(lt, t)
    ensures Sorted(lt, r) && Elems(r) == Elems(t) + {e}
    ensures e in t ==> r == t
    ensures e !in t ==> |r| == |t| + 1
  {
    if ListMember(lt, e, t) then t else ListAdjoin(lt, e, t)
  }

  /** list_remove (Set.java): unlink the element equal to `e`, if any. */
  function ListRemove<T(==,!new)>(lt: (T, T) -> bool, e: T, t: seq<T>): (r: seq<T>)
    requires IsSet(lt, t)
    ensures Sorted(lt, r) && Elems(r) == Elems(t) - {e}
    ensures e !in t ==> r == t
    ensures e in t ==> |r| == |t| - 1
  {
    if t == [] then t
    else if e == t[0] then
      SortedTail(lt, t);
      ElemsCons(t);
      t[1..]
    else if lt(e, t[0]) then
      BelowHeadAbsent(lt, e, t);
      t
    else
      SortedTail(lt, t);
      ElemsCons(t);
      var rest := ListRemove(lt, e, t[1..]);
      assert forall x :: x in rest ==> x in Elems(rest);
      SortedCons(lt, t[0], rest);
      ElemsCons([t[0]] + rest);
      assert e !in t ==> [t[0]] + t[1..] == t;
      [t[0]] + rest
  }

  /** remove (Set.java): the receiver itself when `e` is absent. */
  function Remove<T(==,!new)>(lt: (T, T) -> bool, e: T, t: seq<T>): (r: seq<T>)
    requires IsSet(lt, t)
    ensures Sorted(lt, r) && Elems(r) == Elems(t) - {e}
    ensures e !in t ==> r == t
    ensures e in t ==> |r| == |t| - 1
  {
    if !ListMember(lt, e, t) then t else ListRemove(lt, e, t)
  }

  /*
   * list_subset (Set.java), a loop; proper_subset (Set.java).
   */

  function ListSubset<T(==,!new)>(lt: (T, T) -> bool, t0: seq<T>, t1: seq<T>): (b: bool)
    ensures IsSet(lt, t1) ==> (b <==> Elems(t0) <= Elems(t1))
  {
    if t0 == [] then true
    else
      ElemsCons(t0);
      ListMember(lt, t0[0], t1) && ListSubset(lt, t0[1..], t1)
  }

  method SubsetScan<T(==,!new)>(lt: (T, T) -> bool, t0: seq<T>, t1: seq<T>) returns (b: bool)
    ensures b == ListSubset(lt, t0, t1)
  {
    var u := t0;
    while u != []
      invariant ListSubset(lt, u, t1) == ListSubset(lt, t0, t1)
    {
      var found := MemberScan(lt, u[0], t1);
      if !found {
        return false;
      }
      u := u[1..];
    }
    return true;
  }

  function ProperSubset<T(==,!new)>(lt: (T, T) -> bool, t: seq<T>, s: seq<T>): (b: bool)
    requires IsSet(lt, t) && IsSet(lt, s)
    ensures b <==> Elems(t) < Elems(s)
  {
    ListSubset(lt, t, s) && !ListSubset(lt, s, t)
  }

  /*
   * union (Set.java): adjoin every element of `s`, in order, to the receiver.
   */

  function Union<T(==,!new)>(lt: (T, T) -> bool, t: seq<T>, s: seq<T>): (r: seq<T>)
    requires IsSet(lt, t)
    ensures Sorted(lt, r) && Elems(r) == Elems(t) + Elems(s)
    decreases |s|
  {
    if s == [] then t
    else
      ElemsCons(s);
      Union(lt, ListAdjoin(lt, s[0], t), s[1..])
  }

  method UnionScan<T(==,!new)>(lt: (T, T) -> bool, t: seq<T>, s: seq<T>) returns (r: seq<T>)
    requires IsSet(lt, t)
    ensures r == Union(lt, t, s)
  {
    r := t;
    var u := s;
    while u != []
      invariant IsSet(lt, r)
      invariant Union(lt, r, u) == Union(lt, t, s)
    {
      r := ListAdjoin(lt, u[0], r);
      u := u[1..];
    }
  }

  /*
   * list_intersect (Set.java).  The source's loop returns at the first member and
   * recurses on the rest, which is the recursive form it gives beside it (Set.java).
   */

  function ListIntersect<T(==,!new)>(lt: (T, T) -> bool, t0: seq<T>, t1: seq<T>): (r: seq<T>)
    requires IsSet(lt, t0) && IsSet(lt, t1)
    ensures Sorted(lt, r) && Elems(r) == Elems(t0) * Elems(t1)
  {
    if t0 == [] then []
    else
      SortedTail(lt, t0);
      ElemsCons(t0);
      var rest := ListIntersect(lt, t0[1..], t1);
      if ListMember(lt, t0[0], t1) then
        assert forall x :: x in rest ==> x in Elems(rest);
        SortedCons(lt, t0[0], rest);
        ElemsCons([t0[0]] + rest);
        [t0[0]] + rest
      else
        rest
  }

  function Intersect<T(==,!new)>(lt: (T, T) -> bool, t: seq<T>, s: seq<T>): (r: seq<T>)
    requires IsSet(lt, t) && IsSet(lt, s)
    ensures Sorted(lt, r) && Elems(r) == Elems(t) * Elems(s)
  {
    ListIntersect(lt, t, s)
  }

  /*
   * set_difference (Set.java): remove every element of `s`, in order.
   */

  function Difference<T(==,!new)>(lt: (T, T) -> bool, t: seq<T>, s: seq<T>): (r: seq<T>)
    requires IsSet(lt, t)
    ensures Sorted(lt, r) && Elems(r) == Elems(t) - Elems(s)
    decreases |s|
  {
    if s == [] then t
    else
      ElemsCons(s);
      Difference(lt, ListRemove(lt, s[0], t), s[1..])
  }

  method DifferenceScan<T(==,!new)>(lt: (T, T) -> bool, t: seq<T>, s: seq<T>) returns (r: seq<T>)
    requires IsSet(lt, t)
    ensures r == Difference(lt, t, s)
  {
    r := t;
    var u := s;
    while u != []
      invariant IsSet(lt, r)
      invariant Difference(lt, r, u) == Difference(lt, t, s)
    {
      r := ListRemove(lt, u[0], r);
      u := u[1..];
    }
  }

  /*
   * first, but_first and card (Set.java).
   */

  function First<T(!new)>(lt: (T, T) -> bool, t: seq<T>): (e: T)
    requires IsSet(lt, t) && t != []
    ensures e in t && forall x :: x in t && x != e ==> lt(e, x)
  {
    t[0]
  }

  function ButFirst<T(!new)>(lt: (T, T) -> bool, t: seq<T>): (r: seq<T>)
    requires IsSet(lt, t) && t != []
    ensures Sorted(lt, r) && Elems(r) == Elems(t) - {First(lt, t)}
    ensures |r| == |t| - 1
  {
    SortedTail(lt, t);
    ElemsCons(t);
    t[1..]
  }

  /** The number of distinct elements is the number of list cells. */
  lemma {:induction false} CardIsSize<T(!new)>(lt: (T, T) -> bool, t: seq<T>)
    requires IsSet(lt, t)
    ensures |Elems(t)| == |t|
  {
    if t != [] {
      SortedTail(lt, t);
      ElemsCons(t);
      CardIsSize(lt, t[1..]);
    }
  }

  method CardScan<T(!new)>(lt: (T, T) -> bool, t: seq<T>) returns (c: int)
    requires IsSet(lt, t)
    ensures c == |Elems(t)|
  {
    c := 0;
    var u := t;
    while u != []
      invariant 0 <= c <= |t| && u == t[c..]
    {
      c := c + 1;
      u := u[1..];
    }
    CardIsSize(lt, t);
  }

  /*
   * same (Set.java): elementwise equality of the two lists.
   */

  function ListSame<T(==)>(t0: seq<T>, t1: seq<T>): (b: bool)
    ensures b <==> t0 == t1
  {
    if t0 == [] then t1 == []
    else
      t1 != [] && t0[0] == t1[0] && ListSame(t0[1..], t1[1..])
      && (assert t0 == [t0[0]] + t0[1..] && t1 == [t1[0]] + t1[1..]; true)
  }

  method SameScan<T(==)>(t0: seq<T>, t1: seq<T>) returns (b: bool)
    ensures b <==> t0 == t1
  {
    var u0, u1 := t0, t1;
    while true
      invariant ListSame(u0, u1) == ListSame(t0, t1)
      decreases |u0|
    {
      if u0 == [] {
        return u1 == [];
      } else if u1 == [] || u0[0] != u1[0] {
        return false;
      }
      u0, u1 := u0[1..], u1[1..];
    }
  }

  /** Two sets with the same elements start with the same least element. */
  lemma SameHead<T(!new)>(lt: (T, T) -> bool, t0: seq<T>, t1: seq<T>)
    requires IsSet(lt, t0) && IsSet(lt, t1) && t0 != [] && t1 != []
    requires Elems(t0) == Elems(t1)
    ensures t0[0] == t1[0]
  {
    assert t0[0] in Elems(t1) && t1[0] in Elems(t0);
    if lt(t0[0], t1[0]) {
      BelowHeadAbsent(lt, t0[0], t1);
    }
  }

  /** Sorted lists are canonical: two sets with the same elements have the same list. */
  lemma {:induction false} SortedUnique<T(!new)>(lt: (T, T) -> bool, t0: seq<T>, t1: seq<T>)
    requires IsSet(lt, t0) && IsSet(lt, t1)
    requires Elems(t0) == Elems(t1)
    ensures t0 == t1
  {
    if t0 != [] {
      assert t0[0] in Elems(t1);
      SameHead(lt, t0, t1);
      TailElems(lt, t0);
      TailElems(lt, t1);
      SortedUnique(lt, t0[1..], t1[1..]);
      assert t0 == [t0[0]] + t0[1..] && t1 == [t1[0]] + t1[1..];
    } else {
      CardIsSize(lt, t1);
    }
  }

  /** The tail of a sorted list is sorted and holds all but its head. */
  lemma TailElems<T(!new)>(lt: (T, T) -> bool, t: seq<T>)
    requires IsSet(lt, t) && t != []
    ensures IsSet(lt, t[1..]) && Elems(t[1..]) == Elems(t) - {t[0]}
  {
    SortedTail(lt, t);
    ElemsCons(t);
    assert t[0] !in t[1..];
  }

  /** Set equality as the source decides it (Set.java) is equality of contents. */
  lemma SameIffEqualElems<T(!new)>(lt: (T, T) -> bool, t0: seq<T>, t1: seq<T>)
    requires IsSet(lt, t0) && IsSet(lt, t1)
    ensures ListSame(t0, t1) <==> Elems(t0) == Elems(t1)
  {
    if Elems(t0) == Elems(t1) {
      SortedUnique(lt, t0, t1);
    }
  }

  /*
   * less (Set.java): lexicographic comparison of the lists.
   */

  function ListLess<T(==)>(lt: (T, T) -> bool, t0: seq<T>, t1: seq<T>): (b: bool)
    ensures t0 == [] ==> (b <==> t1 != [])
    ensures t1 == [] ==> !b
    ensures t0 != [] && t1 != [] && lt(t0[0], t1[0]) ==> b
  {
    if t0 == [] then t1 != []
    else if t1 == [] then false
    else if lt(t0[0], t1[0]) then true
    else if t0[0] != t1[0] then false
    else ListLess(lt, t0[1..], t1[1..])
  }

  method LessScan<T(==)>(lt: (T, T) -> bool, t0: seq<T>, t1: seq<T>) returns (b: bool)
    ensures b == ListLess(lt, t0, t1)
  {
    var u0, u1 := t0, t1;
    while true
      invariant ListLess(lt, u0, u1) == ListLess(lt, t0, t1)
      decreases |u0|
    {
      if u0 == [] {
        return u1 != [];
      } else if u1 == [] {
        return false;
      } else if lt(u0[0], u1[0]) {
        return true;
      } else if u0[0] != u1[0] {
        return false;
      }
      u0, u1 := u0[1..], u1[1..];
    }
  }

  /** The empty set is below every other set. */
  lemma EmptyLeast<T>(lt: (T, T) -> bool, t: seq<T>)
    ensures ListLess(lt, [], t) <==> t != []
    ensures !ListLess(lt, t, [])
  {
  }

  /** A proper prefix is below its extension. */
  lemma {:induction false} PrefixLess<T(!new)>(lt: (T, T) -> bool, t: seq<T>, u: seq<T>)
    requires StrictTotalOrder(lt) && u != []
    ensures ListLess(lt, t, t + u)
  {
    if t != [] {
      assert (t + u)[0] == t[0] && (t + u)[1..] == t[1..] + u;
      PrefixLess(lt, t[1..], u);
    }
  }

  lemma {:induction false} LessIrreflexive<T(!new)>(lt: (T, T) -> bool, t: seq<T>)
    requires StrictTotalOrder(lt)
    ensures !ListLess(lt, t, t)
  {
    if t != [] {
      LessIrreflexive(lt, t[1..]);
    }
  }

  lemma {:induction false} LessTransitive<T(!new)>(lt: (T, T) -> bool, a: seq<T>, b: seq<T>, c: seq<T>)
    requires StrictTotalOrder(lt)
    requires ListLess(lt, a, b) && ListLess(lt, b, c)
    ensures ListLess(lt, a, c)
  {
    if a != [] && b != [] && c != [] && a[0] == b[0] && b[0] == c[0] {
      LessTransitive(lt, a[1..], b[1..], c[1..]);
    }
  }

  lemma {:induction false} LessTrichotomous<T(!new)>(lt: (T, T) -> bool, a: seq<T>, b: seq<T>)
    requires StrictTotalOrder(lt)
    ensures a == b || ListLess(lt, a, b) || ListLess(lt, b, a)
  {
    if a != [] && b != [] && a[0] == b[0] {
      LessTrichotomous(lt, a[1..], b[1..]);
      assert a == [a[0]] + a[1..] && b == [b[0]] + b[1..];
    }
  }

  /** Set.less is a strict linear order whenever the element order is one. */
  lemma LessIsStrictTotalOrder<T(!new)>(lt: (T, T) -> bool)
    requires StrictTotalOrder(lt)
    ensures StrictTotalOrder((a: seq<T>, b: seq<T>) => ListLess(lt, a, b))
  {
    forall a: seq<T> {
      LessIrreflexive(lt, a);
    }
    forall a: seq<T>, b: seq<T>, c: seq<T> | ListLess(lt, a, b) && ListLess(lt, b, c) {
      LessTransitive(lt, a, b, c);
    }
    forall a: seq<T>, b: seq<T> {
      LessTrichotomous(lt, a, b);
    }
  }
}
