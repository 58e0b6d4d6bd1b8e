/**
 * The arithmetic of the popup's drag-and-drop reorder: which row the pointer is
 * above (`getDragAfterElement`), the raw drop index it yields (`handleDragOver`),
 * the clamp and the adjustment of `handleDrop`, and the copy-then-splice move.
 * Coordinates are integers; "y above the midpoint of a row" is `2*y < 2*top + height`.
 */
module Reorder {
  import opened Wrappers

  /** A rendered list row: its `data-index`, its box, and whether it carries the hidden class. */
  datatype Row = Row(index: int, top: int, height: int, hidden: bool)

  /** The row is visible and its vertical midpoint lies strictly below `y`. */
  predicate IsBelowPointer(row: Row, y: int) {
    !row.hidden && 2 * y < 2 * row.top + row.height
  }

  /** Twice the `offset` of `getDragAfterElement`: `y - (top + height / 2)`. */
  function Offset(row: Row, y: int): int {
    2 * y - (2 * row.top + row.height)
  }

  /**
   * `getDragAfterElement(y)` as the position in `rows` of the element it returns:
   * the `reduce` over the rows in document order, written as a recursion on the
   * prefix already folded. It keeps the visible row below the pointer with the
   * largest (negative) offset, the earliest one on a tie.
   */
  function AfterElement(rows: seq<Row>, y: int): (p: Option<nat>)
    ensures p.None? <==> forall i :: 0 <= i < |rows| ==> !IsBelowPointer(rows[i], y)
    ensures p.Some? ==> p.value < |rows| && IsBelowPointer(rows[p.value], y)
    ensures p.Some? ==> forall i :: 0 <= i < |rows| && IsBelowPointer(rows[i], y) ==>
                          Offset(rows[i], y) <= Offset(rows[p.value], y)
    ensures p.Some? ==> forall i :: 0 <= i < p.value && IsBelowPointer(rows[i], y) ==>
                          Offset(rows[i], y) < Offset(rows[p.value], y)
  {
    if rows == [] then None
    else
      var init := rows[..|rows| - 1];
      var best := AfterElement(init, y);
      var row := rows[|rows| - 1];
      assert forall i :: 0 <= i < |init| ==> init[i] == rows[i];
      if IsBelowPointer(row, y) && (best.None? || Offset(row, y) > Offset(rows[best.value], y))
      then Some(|rows| - 1)
      else best
  }

  /**
   * The `newDropIndex` of `handleDragOver`: the `data-index` of the visible row
   * whose midpoint lies below the pointer and nearest to it (the earliest such row
   * on a tie), or the list length
   * when the pointer is below every row's midpoint.
   */
  function DropIndexAt(rows: seq<Row>, y: int, len: nat): (k: int)
    ensures (forall i :: 0 <= i < |rows| ==> !IsBelowPointer(rows[i], y)) ==> k == len
    ensures (exists i :: 0 <= i < |rows| && IsBelowPointer(rows[i], y)) ==>
              exists i :: 0 <= i < |rows| && IsBelowPointer(rows[i], y) && k == rows[i].index
                          && (forall j :: 0 <= j < |rows| && IsBelowPointer(rows[j], y) ==>
                                           Offset(rows[j], y) <= Offset(rows[i], y))
                          && (forall j :: 0 <= j < i && IsBelowPointer(rows[j], y) ==>
                                           Offset(rows[j], y) < Offset(rows[i], y))
  {
    match AfterElement(rows, y)
    case None => len
    case Some(p) => rows[p].index
  }

  /** `Math.max(0, Math.min(raw, len))`. */
  function Clamp(raw: int, len: nat): (k: nat)
    ensures k <= len
    ensures 0 <= raw <= len ==> k == raw
    ensures raw < 0 ==> k == 0
    ensures raw > len ==> k == len
  {
    if raw < 0 then 0 else if raw > len then len else raw
  }

  /**
   * The `targetIndex` of `handleDrop`: the clamped raw index, less one when it lies
   * past the start index (the removal of the dragged item shifts the rest left).
   * It is a valid position of the list, and it is the start index itself exactly
   * when the item is dropped just before or just after its own slot.
   */
  function DropTarget(start: nat, raw: int, len: nat): (t: nat)
    requires start < len
    ensures t < len
    ensures t == start <==> Clamp(raw, len) == start || Clamp(raw, len) == start + 1
    ensures Clamp(raw, len) < start ==> t == Clamp(raw, len)
    ensures Clamp(raw, len) > start + 1 ==> t == Clamp(raw, len) - 1
    ensures Clamp(raw, len) == len ==> t == len - 1
  {
    var bounded := Clamp(raw, len);
    if bounded > start then bounded - 1 else bounded
  }

  /** `s` without the element at `i`. */
  function Remove<T>(s: seq<T>, i: nat): (r: seq<T>)
    requires i < |s|
    ensures |r| == |s| - 1
    ensures forall j :: 0 <= j < i ==> r[j] == s[j]
    ensures forall j :: i <= j < |r| ==> r[j] == s[j + 1]
  {
    s[..i] + s[i + 1..]
  }

  /** `s` with `x` inserted so that it lands at position `i`. */
  function Insert<T>(s: seq<T>, i: nat, x: T): (r: seq<T>)
    requires i <= |s|
    ensures |r| == |s| + 1 && r[i] == x
    ensures forall j :: 0 <= j < i ==> r[j] == s[j]
    ensures forall j :: i < j < |r| ==> r[j] == s[j - 1]
  {
    s[..i] + [x] + s[i..]
  }

  /**
   * `[moved] = updated.splice(from, 1); updated.splice(to, 0, moved)`:
   * the element at `from` taken out and put back at `to`.
   */
  function Move<T>(s: seq<T>, from: nat, to: nat): seq<T>
    requires from < |s| && to < |s|
  {
    Insert(Remove(s, from), to, s[from])
  }

  /** A move neither creates, loses nor duplicates an element. */
  lemma MoveIsPermutation<T>(s: seq<T>, from: nat, to: nat)
    requires from < |s| && to < |s|
    ensures |Move(s, from, to)| == |s|
    ensures multiset(Move(s, from, to)) == multiset(s)
  {
    var rest := Remove(s, from);
    assert s == s[..from] + [s[from]] + s[from + 1..];
    assert rest == s[..from] + s[from + 1..];
    assert multiset(rest) + multiset{s[from]} == multiset(s);
    assert Move(s, from, to) == rest[..to] + [s[from]] + rest[to..];
    assert rest == rest[..to] + rest[to..];
  }

  /**
   * Where a move puts things: the moved element at `to`, and every other element
   * in its old relative order (taking the moved one out again gives `s` without it).
   */
  lemma MoveLandsAndKeepsOrder<T>(s: seq<T>, from: nat, to: nat)
    requires from < |s| && to < |s|
    ensures Move(s, from, to)[to] == s[from]
    ensures Remove(Move(s, from, to), to) == Remove(s, from)
  {
    var m := Move(s, from, to);
    var rest := Remove(s, from);
    assert Remove(m, to) == rest by {
      forall j | 0 <= j < |rest| ensures Remove(m, to)[j] == rest[j] {
        if j < to {
          assert Remove(m, to)[j] == m[j];
        } else {
          assert Remove(m, to)[j] == m[j + 1];
        }
      }
    }
  }

  /** A move to the last position is the element taken out and appended. */
  lemma {:induction false} MoveToEnd<T>(s: seq<T>, from: nat)
    requires from < |s|
    ensures Move(s, from, |s| - 1) == Remove(s, from) + [s[from]]
  {
    var rest := Remove(s, from);
    assert rest[..|rest|] == rest;
  }

  /** Moving an element onto its own slot changes nothing. */
  lemma MoveInPlace<T>(s: seq<T>, i: nat)
    requires i < |s|
    ensures Move(s, i, i) == s
  {
    assert s == s[..i] + [s[i]] + s[i + 1..];
  }

  /**
   * Where `handleDrop` puts the dragged item for a clamped raw drop index `k`:
   * before its old slot at `k`, after it at `k - 1`, and last for `k == |s|`
   * (the pointer below every row).
   */
  lemma DropLanding<T>(s: seq<T>, start: nat, k: nat)
    requires start < |s| && k <= |s|
    ensures k < start ==> Move(s, start, DropTarget(start, k, |s|))[k] == s[start]
    ensures k > start + 1 ==> Move(s, start, DropTarget(start, k, |s|))[k - 1] == s[start]
    ensures k == |s| ==> Move(s, start, DropTarget(start, k, |s|)) == Remove(s, start) + [s[start]]
  {
    MoveLandsAndKeepsOrder(s, start, DropTarget(start, k, |s|));
    if k == |s| {
      MoveToEnd(s, start);
    }
  }

  /**
   * `splice(index, 1)` as JavaScript defines it for one integer argument: a negative
   * index counts from the end, and an index past the end removes nothing.
   */
  function SpliceOut<T>(s: seq<T>, index: int): (r: seq<T>)
    ensures 0 <= index < |s| ==> r == Remove(s, index)
    ensures -|s| <= index < 0 ==> r == Remove(s, |s| + index)
    ensures (index >= |s| || (index < -|s| && s == [])) ==> r == s
    ensures index < -|s| && s != [] ==> r == s[1..]
  {
    var start := if index < 0 then (if |s| + index < 0 then 0 else |s| + index)
                 else (if index < |s| then index else |s|);
    if start < |s| then s[..start] + s[start + 1..] else s
  }
}
