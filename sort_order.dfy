/** The "move after" edit that `updatePersonalSortByUser` and
    `updateTeamSortByUser` apply to the comma-split category order. The
    services compare every piece with `origin_id.toString()` and
    `move_id.toString()` by strict equality, so the edit only needs equality
    on ids; it is stated here for any id type `T` and used on strings. */
module SortOrder {

  /** A slot of the working array: an id, or the `undefined` that
      `ids[origin_index] = undefined` leaves behind. */
  datatype Slot<T> = Id(id: T) | Hole

  /** `k` is the position of the first `x` in `s`, or -1 when `s` has no `x`. */
  predicate FirstAt<T(==)>(s: seq<T>, x: T, k: int) {
    && -1 <= k < |s|
    && (k >= 0 ==> s[k] == x)
    && forall j :: 0 <= j < |s| && (k == -1 || j < k) ==> s[j] != x
  }

  /** `indexOf` / `findIndex` with strict equality. */
  function IndexOf<T(==)>(s: seq<T>, x: T): (k: int)
    ensures FirstAt(s, x, k)
  {
    if s == [] then -1
    else if s[0] == x then 0
    else
      var k := IndexOf(s[1..], x);
      if k == -1 then -1 else k + 1
  }

  /** Only one position has the first-occurrence property. */
  lemma IndexOfIs<T>(s: seq<T>, x: T, k: int)
    requires FirstAt(s, x, k)
    ensures IndexOf(s, x) == k
  {
  }

  /** The search succeeds exactly when the element occurs. */
  lemma IndexOfIn<T>(s: seq<T>, x: T)
    ensures IndexOf(s, x) >= 0 <==> x in s
  {
    if x in s {
      var j :| 0 <= j < |s| && s[j] == x;
    }
  }

  function RemoveAt<T>(s: seq<T>, i: nat): (r: seq<T>)
    requires i < |s|
    ensures |r| == |s| - 1
  {
    s[..i] + s[i + 1..]
  }

  function InsertAt<T>(s: seq<T>, i: nat, x: T): (r: seq<T>)
    requires i <= |s|
    ensures |r| == |s| + 1
  {
    s[..i] + [x] + s[i..]
  }

  /** Element by element, what `RemoveAt` leaves. */
  lemma RemoveAtIndex<T>(s: seq<T>, i: nat)
    requires i < |s|
    ensures forall j :: 0 <= j < |s| - 1 ==> RemoveAt(s, i)[j] == if j < i then s[j] else s[j + 1]
  {
    var r := RemoveAt(s, i);
    forall j | 0 <= j < |s| - 1 ensures r[j] == if j < i then s[j] else s[j + 1] {
      if j < i { assert r[j] == s[..i][j]; } else { assert r[j] == s[i + 1..][j - i]; }
    }
  }

  /** Element by element, what `InsertAt` builds. */
  lemma InsertAtIndex<T>(s: seq<T>, i: nat, x: T)
    requires i <= |s|
    ensures forall j :: 0 <= j <= |s| ==> InsertAt(s, i, x)[j] == if j < i then s[j] else if j == i then x else s[j - 1]
  {
    var r := InsertAt(s, i, x);
    forall j | 0 <= j <= |s| ensures r[j] == if j < i then s[j] else if j == i then x else s[j - 1] {
      if j < i {
        assert r[j] == s[..i][j];
      } else if j > i {
        assert r[j] == s[i..][j - i - 1];
      }
    }
  }

  lemma InsertAtMultiset<T>(s: seq<T>, i: nat, x: T)
    requires i <= |s|
    ensures multiset(InsertAt(s, i, x)) == multiset(s) + multiset{x}
  {
    assert s == s[..i] + s[i..];
  }

  lemma RemoveAtMultiset<T>(s: seq<T>, i: nat)
    requires i < |s|
    ensures multiset(RemoveAt(s, i)) + multiset{s[i]} == multiset(s)
  {
    assert s == s[..i] + [s[i]] + s[i + 1..];
  }

  /** Reference definition of the edit: take out the first `origin` and put it
      back right after the first `move` of what is left, or at the front when
      no `move` is left. When `origin` is not in the list at all, it is put
      after the first `move` and the list is cut back to its old length. */
  function MoveAfter<T(==)>(ids: seq<T>, origin: T, move: T): (r: seq<T>)
    ensures |r| == |ids|
  {
    var i := IndexOf(ids, origin);
    if i >= 0 then
      var rest := RemoveAt(ids, i);
      InsertAt(rest, IndexOf(rest, move) + 1, origin)
    else
      var grown := InsertAt(ids, IndexOf(ids, move) + 1, origin);
      grown[..|ids|]
  }

  /** `Array.prototype.findIndex` with a strict-equality test. */
  method FindIndex<T(==)>(slots: seq<Slot<T>>, target: Slot<T>) returns (k: int)
    ensures k == IndexOf(slots, target)
  {
    k := 0;
    while k < |slots|
      invariant 0 <= k <= |slots|
      invariant forall j :: 0 <= j < k ==> slots[j] != target
    {
      if slots[k] == target {
        IndexOfIs(slots, target, k);
        return;
      }
      k := k + 1;
    }
    k := -1;
    IndexOfIs(slots, target, k);
  }

  /** No slot is a tombstone. */
  predicate HoleFree<T>(slots: seq<Slot<T>>) {
    forall j :: 0 <= j < |slots| ==> slots[j].Id?
  }

  function Lift<T>(ids: seq<T>): (slots: seq<Slot<T>>)
    ensures |slots| == |ids| && HoleFree(slots)
    ensures forall i :: 0 <= i < |ids| ==> slots[i] == Id(ids[i])
  {
    seq(|ids|, i requires 0 <= i < |ids| => Id(ids[i]))
  }

  /** `join` of slots that all hold ids. */
  function Render<T>(slots: seq<Slot<T>>): (ids: seq<T>)
    requires HoleFree(slots)
    ensures |ids| == |slots|
  {
    seq(|slots|, i requires 0 <= i < |slots| && HoleFree(slots) => slots[i].id)
  }

  lemma RenderLift<T>(ids: seq<T>)
    ensures Render(Lift(ids)) == ids
  {
  }

  lemma IndexOfLift<T>(ids: seq<T>, x: T)
    ensures IndexOf(Lift(ids), Id(x)) == IndexOf(ids, x)
  {
    IndexOfIs(Lift(ids), Id(x), IndexOf(ids, x));
  }

  lemma LiftInsert<T>(s: seq<T>, i: nat, x: T)
    requires i <= |s|
    ensures InsertAt(Lift(s), i, Id(x)) == Lift(InsertAt(s, i, x))
  {
    InsertAtIndex(Lift(s), i, Id(x));
    InsertAtIndex(s, i, x);
  }

  lemma LiftTombstone<T>(s: seq<T>, i: nat)
    requires i < |s|
    ensures Lift(s)[i := Hole] == InsertAt(Lift(RemoveAt(s, i)), i, Hole)
  {
    RemoveAtIndex(s, i);
    InsertAtIndex(Lift(RemoveAt(s, i)), i, Hole);
  }

  lemma LiftDropLast<T>(s: seq<T>)
    requires |s| >= 1
    ensures RemoveAt(Lift(s), |s| - 1) == Lift(s[..|s| - 1])
  {
  }

  lemma RemoveInserted<T>(s: seq<T>, i: nat, x: T)
    requires i <= |s|
    ensures RemoveAt(InsertAt(s, i, x), i) == s
  {
    assert InsertAt(s, i, x)[..i] == s[..i];
    assert InsertAt(s, i, x)[i + 1..] == s[i..];
  }

  /** Inserting at `a` and then at a later `b` is inserting the second one first. */
  lemma InsertTwice<T>(s: seq<T>, a: nat, x: T, b: nat, y: T)
    requires a <= b <= |s|
    ensures InsertAt(InsertAt(s, a, x), b + 1, y) == InsertAt(InsertAt(s, b, y), a, x)
  {
  }

  /** A tombstone inserted into hole-free slots is the first one found. */
  lemma HoleAt<T>(s: seq<Slot<T>>, i: nat)
    requires i <= |s| && HoleFree(s)
    ensures IndexOf(InsertAt(s, i, Hole), Hole) == i
  {
    InsertAtIndex(s, i, Hole);
    IndexOfIs(InsertAt(s, i, Hole), Hole, i);
  }

  /** Where a search lands after one slot that does not match was inserted. */
  lemma IndexOfAfterInsert<T>(s: seq<Slot<T>>, i: nat, y: Slot<T>, x: Slot<T>)
    requires i <= |s| && x != y
    ensures var k := IndexOf(s, x);
      IndexOf(InsertAt(s, i, y), x) == (if k == -1 then -1 else if k < i then k else k + 1)
  {
    var k := IndexOf(s, x);
    InsertAtIndex(s, i, y);
    IndexOfIs(InsertAt(s, i, y), x, if k == -1 then -1 else if k < i then k else k + 1);
  }

  /** The service's edit, step by step as the source performs it on the split
      array: tombstone the first `origin`, splice `origin` in after the first
      `move`, splice out the first tombstone. Proved to be `MoveAfter`. */
  method Reorder<T(==)>(ids: seq<T>, origin: T, move: T) returns (r: seq<T>)
    requires |ids| >= 1
    ensures r == MoveAfter(ids, origin, move)
  {
    var slots := Lift(ids);
    var originIndex := FindIndex(slots, Id(origin));
    IndexOfLift(ids, origin);
    // with originIndex == -1, `ids[-1] = undefined` sets a property, not a slot
    if originIndex >= 0 {
      slots := slots[originIndex := Hole];
    }
    var tombstoned := slots;
    var moveIndex := FindIndex(slots, Id(move));
    slots := InsertAt(slots, moveIndex + 1, Id(origin));
    var holeIndex := FindIndex(slots, Hole);
    // `splice(-1, 1)` counts a negative start from the end
    var start := if holeIndex < 0 then |slots| - 1 else holeIndex;
    if originIndex >= 0 {
      PresentCase(ids, origin, move, originIndex, tombstoned, moveIndex, slots, holeIndex);
    } else {
      AbsentCase(ids, origin, move, moveIndex, slots, holeIndex);
    }
    slots := RemoveAt(slots, start);
    r := Render(slots);
  }

  /** `origin` lands before the tombstone: the tombstone is found one slot
      later, and splicing it out leaves `origin` inserted after `move`. */
  lemma HoleAfterMove<T>(lr: seq<Slot<T>>, i: nat, k: int, o: Slot<T>, u: seq<Slot<T>>)
    requires -1 <= k < i <= |lr| && HoleFree(lr) && o.Id?
    requires u == InsertAt(InsertAt(lr, i, Hole), k + 1, o)
    ensures IndexOf(u, Hole) == i + 1 && RemoveAt(u, i + 1) == InsertAt(lr, k + 1, o)
  {
    var placed := InsertAt(lr, k + 1, o);
    assert u == InsertAt(placed, i + 1, Hole) by { InsertTwice(lr, k + 1, o, i, Hole); }
    assert HoleFree(placed) by { InsertAtIndex(lr, k + 1, o); }
    HoleAt(placed, i + 1);
    RemoveInserted(placed, i + 1, Hole);
  }

  /** `origin` lands after the tombstone: the tombstone stays where it was,
      and splicing it out leaves `origin` inserted after `move`. */
  lemma HoleBeforeMove<T>(lr: seq<Slot<T>>, i: nat, k: int, o: Slot<T>, u: seq<Slot<T>>)
    requires 0 <= i <= k < |lr| && HoleFree(lr) && o.Id?
    requires u == InsertAt(InsertAt(lr, i, Hole), k + 2, o)
    ensures IndexOf(u, Hole) == i && RemoveAt(u, i) == InsertAt(lr, k + 1, o)
  {
    var placed := InsertAt(lr, k + 1, o);
    assert u == InsertAt(placed, i, Hole) by { InsertTwice(lr, i, Hole, k + 1, o); }
    assert HoleFree(placed) by { InsertAtIndex(lr, k + 1, o); }
    HoleAt(placed, i);
    RemoveInserted(placed, i, Hole);
  }

  /** Where the search for `move` lands once slot `i` is a tombstone: the
      position of `move` among the other ids, shifted past the tombstone. */
  lemma TombstoneIndex<T>(ids: seq<T>, i: nat, move: T)
    requires i < |ids|
    ensures var k := IndexOf(RemoveAt(ids, i), move);
      IndexOf(Lift(ids)[i := Hole], Id(move)) == (if k < i then k else k + 1)
  {
    var rest := RemoveAt(ids, i);
    LiftTombstone(ids, i);
    IndexOfAfterInsert(Lift(rest), i, Hole, Id(move));
    IndexOfLift(rest, move);
  }

  /** Tombstoning slot `i`, inserting `o` after what was slot `k` and then
      splicing out the tombstone is inserting `o` after slot `k`. */
  lemma TombstoneThenInsert<T>(lr: seq<Slot<T>>, i: nat, k: int, o: Slot<T>, u: seq<Slot<T>>, h: int)
    requires i <= |lr| && -1 <= k < |lr| && HoleFree(lr) && o.Id?
    requires u == InsertAt(InsertAt(lr, i, Hole), (if k < i then k else k + 1) + 1, o)
    requires h == IndexOf(u, Hole)
    ensures 0 <= h < |u| && RemoveAt(u, h) == InsertAt(lr, k + 1, o)
  {
    if k < i {
      HoleAfterMove(lr, i, k, o, u);
    } else {
      HoleBeforeMove(lr, i, k, o, u);
    }
  }

  /** The slots after the three steps when slot `i` held `origin`: the
      tombstone is found, and splicing it out leaves the other ids lifted
      with `origin` inserted after `move`. */
  lemma PresentSlots<T>(ids: seq<T>, origin: T, move: T, i: nat,
                        t: seq<Slot<T>>, moveIndex: int, u: seq<Slot<T>>, holeIndex: int)
    requires i < |ids|
    requires t == Lift(ids)[i := Hole]
    requires moveIndex == IndexOf(t, Id(move))
    requires u == InsertAt(t, moveIndex + 1, Id(origin))
    requires holeIndex == IndexOf(u, Hole)
    ensures var rest := RemoveAt(ids, i);
      0 <= holeIndex < |u| && RemoveAt(u, holeIndex) == InsertAt(Lift(rest), IndexOf(rest, move) + 1, Id(origin))
  {
    var rest := RemoveAt(ids, i);
    var lr := Lift(rest);
    var k := IndexOf(rest, move);
    assert t == InsertAt(lr, i, Hole) by { LiftTombstone(ids, i); }
    assert moveIndex == (if k < i then k else k + 1) by { TombstoneIndex(ids, i, move); }
    TombstoneThenInsert(lr, i, k, Id(origin), u, holeIndex);
  }

  /** `Reorder` when `origin` is in the list: the tombstone is the slot
      spliced out, and what is left is `origin` moved after `move`. */
  lemma PresentCase<T>(ids: seq<T>, origin: T, move: T, i: nat,
                       t: seq<Slot<T>>, moveIndex: int, u: seq<Slot<T>>, holeIndex: int)
    requires i == IndexOf(ids, origin)
    requires t == Lift(ids)[i := Hole]
    requires moveIndex == IndexOf(t, Id(move))
    requires u == InsertAt(t, moveIndex + 1, Id(origin))
    requires holeIndex == IndexOf(u, Hole)
    ensures 0 <= holeIndex < |u| && HoleFree(RemoveAt(u, holeIndex))
    ensures Render(RemoveAt(u, holeIndex)) == MoveAfter(ids, origin, move)
  {
    var rest := RemoveAt(ids, i);
    var k := IndexOf(rest, move);
    var want := InsertAt(rest, k + 1, origin);
    assert MoveAfter(ids, origin, move) == want;
    PresentSlots(ids, origin, move, i, t, moveIndex, u, holeIndex);
    LiftInsert(rest, k + 1, origin);
    RenderLift(want);
  }

  /** `Reorder` when `origin` is not in the list: there is no tombstone, so
      `splice(-1, 1)` removes the last slot. */
  lemma AbsentCase<T>(ids: seq<T>, origin: T, move: T,
                      moveIndex: int, u: seq<Slot<T>>, holeIndex: int)
    requires |ids| >= 1 && IndexOf(ids, origin) == -1
    requires moveIndex == IndexOf(Lift(ids), Id(move))
    requires u == InsertAt(Lift(ids), moveIndex + 1, Id(origin))
    requires holeIndex == IndexOf(u, Hole)
    ensures holeIndex == -1 && HoleFree(RemoveAt(u, |u| - 1))
    ensures Render(RemoveAt(u, |u| - 1)) == MoveAfter(ids, origin, move)
  {
    IndexOfLift(ids, move);
    var grown := InsertAt(ids, IndexOf(ids, move) + 1, origin);
    LiftInsert(ids, IndexOf(ids, move) + 1, origin);
    IndexOfIs(u, Hole, -1);
    LiftDropLast(grown);
    RenderLift(grown[..|ids|]);
  }

  /** With `origin` present the edit is a permutation: no id is lost or added. */
  lemma MoveKeepsIds<T>(ids: seq<T>, origin: T, move: T)
    requires origin in ids
    ensures multiset(MoveAfter(ids, origin, move)) == multiset(ids)
  {
    IndexOfIn(ids, origin);
    var i := IndexOf(ids, origin);
    var rest := RemoveAt(ids, i);
    RemoveAtMultiset(ids, i);
    InsertAtMultiset(rest, IndexOf(rest, move) + 1, origin);
  }

  /** `x` occurs in `ids`, and only at its first position. */
  predicate OccursOnce<T(==)>(ids: seq<T>, x: T) {
    IndexOf(ids, x) >= 0 && forall j :: 0 <= j < |ids| && ids[j] == x ==> j == IndexOf(ids, x)
  }

  /** The intended move: for distinct ids that are both present (`origin`
      once), `origin` ends up immediately after the first `move`, and taking
      `origin` out again leaves every other id in its original order. */
  lemma MovePlacesOriginAfterMove<T>(ids: seq<T>, origin: T, move: T)
    requires OccursOnce(ids, origin) && move in ids && move != origin
    ensures var r := MoveAfter(ids, origin, move);
      var p := IndexOf(r, origin);
      && p >= 1
      && r[p - 1] == move
      && IndexOf(r, move) == p - 1
      && RemoveAt(r, p) == RemoveAt(ids, IndexOf(ids, origin))
  {
    var i := IndexOf(ids, origin);
    var rest := RemoveAt(ids, i);
    RestAfterRemoval(ids, origin, move, i, rest);
    var k := IndexOf(rest, move);
    var r := MoveAfter(ids, origin, move);
    assert r == InsertAt(rest, k + 1, origin);
    InsertAfterFirst(rest, k, origin, move, r);
  }

  /** Taking out the only `origin` leaves no `origin`, and every other id. */
  lemma RestAfterRemoval<T>(ids: seq<T>, origin: T, move: T, i: nat, rest: seq<T>)
    requires OccursOnce(ids, origin) && move in ids && move != origin
    requires i == IndexOf(ids, origin) && rest == RemoveAt(ids, i)
    ensures 0 <= IndexOf(rest, move) < |rest|
    ensures forall j :: 0 <= j < |rest| ==> rest[j] != origin
  {
    var m := IndexOf(ids, move);
    assert 0 <= m by { IndexOfIn(ids, move); }
    var mr := if m < i then m else m - 1;
    assert rest[mr] == move by { RemoveAtIndex(ids, i); }
    forall j | 0 <= j < |rest| ensures rest[j] != origin {
      var o := if j < i then j else j + 1;
      assert rest[j] == ids[o] by { RemoveAtIndex(ids, i); }
    }
  }

  /** `origin`, absent from `rest`, inserted right after the first `move`. */
  lemma InsertAfterFirst<T>(rest: seq<T>, k: nat, origin: T, move: T, r: seq<T>)
    requires k < |rest| && IndexOf(rest, move) == k && move != origin
    requires forall j :: 0 <= j < |rest| ==> rest[j] != origin
    requires r == InsertAt(rest, k + 1, origin)
    ensures IndexOf(r, origin) == k + 1 && r[k] == move && IndexOf(r, move) == k && RemoveAt(r, k + 1) == rest
  {
    InsertAtIndex(rest, k + 1, origin);
    IndexOfIs(r, origin, k + 1);
    IndexOfIs(r, move, k);
    RemoveInserted(rest, k + 1, origin);
  }

  /** A self-move, or a move after an id that is not in the list, puts
      `origin` at the front: the search for `move` sees only the tombstone. */
  lemma MoveToFront<T>(ids: seq<T>, origin: T, move: T)
    requires OccursOnce(ids, origin)
    requires move == origin || move !in ids
    ensures MoveAfter(ids, origin, move) == [origin] + RemoveAt(ids, IndexOf(ids, origin))
  {
    var i := IndexOf(ids, origin);
    var rest := RemoveAt(ids, i);
    RemoveAtIndex(ids, i);
    IndexOfIs(rest, move, -1);
    assert InsertAt(rest, 0, origin) == [origin] + rest;
  }

  /** An `origin` that is not in the list is still inserted after `move`, and
      `splice(-1, 1)` then drops the last id: the length stays, but unless
      `move` was the last id, that last id is lost and `origin` added. */
  lemma AbsentOriginDropsLast<T>(ids: seq<T>, origin: T, move: T)
    requires origin !in ids && |ids| >= 1
    ensures var r := MoveAfter(ids, origin, move);
      && |r| == |ids|
      && (IndexOf(ids, move) == |ids| - 1 ==> r == ids)
      && (IndexOf(ids, move) < |ids| - 1 ==>
            origin in r && multiset(r) + multiset{ids[|ids| - 1]} == multiset(ids) + multiset{origin})
  {
    var n := |ids|;
    var j := IndexOf(ids, move);
    var grown := InsertAt(ids, j + 1, origin);
    var r := grown[..n];
    assert MoveAfter(ids, origin, move) == r by { IndexOfIn(ids, origin); }
    assert grown[..n] + [grown[n]] == grown;
    if j == n - 1 {
      assert grown == ids + [origin];
    } else {
      assert r[j + 1] == origin && grown[n] == ids[n - 1] by { InsertAtIndex(ids, j + 1, origin); }
      assert multiset(grown) == multiset(ids) + multiset{origin} by { InsertAtMultiset(ids, j + 1, origin); }
      assert multiset(grown) == multiset(r) + multiset{ids[n - 1]};
    }
  }

  /** A concrete instance: moving the unknown id "9" after "1" in "1,2,3". */
  lemma AbsentOriginExample()
    ensures MoveAfter(["1", "2", "3"], "9", "1") == ["1", "9", "2"]
  {
    var ids := ["1", "2", "3"];
    assert ids[0] == "1" && ids[1] != "9" && ids[2] != "9";
    IndexOfIs(ids, "9", -1);
    IndexOfIs(ids, "1", 0);
  }
}
