/** Lists on a flat key-value store.

    The elements of a list are records numbered from `head` up to `tail`; a meta record holds the
    two numbers and exists only while the list is not empty. The commands work on the records in
    place and are proved against operations on sequences. */
module ListStore {
  import opened Basics
  import opened ListSpec

  datatype Meta = Meta(head: int, tail: int)

  const INITSEQ: int := 0x7fff_ffff_ffff_ffff / 2

  class ListKey {
    var meta: Option<Meta>
    var elems: Records

    constructor ()
      ensures Valid() && Contents() == []
    {
      meta, elems := None, map[];
    }

    /** There are exactly the records the meta record speaks of, and it never speaks of none. */
    ghost predicate Valid()
      reads this
    {
      if meta.None? then elems == map[]
      else Spans(meta.value.head, meta.value.tail) && meta.value.head < meta.value.tail
    }

    ghost predicate Spans(head: int, tail: int)
      reads `elems
    {
      forall i :: i in elems <==> head <= i < tail
    }

    ghost function Contents(): (s: seq<string>)
      requires Valid()
      reads this
    {
      if meta.None? then [] else Slice(elems, meta.value.head, meta.value.tail)
    }

    /** The meta record goes when no element is left. */
    method StoreMeta(head: int, tail: int)
      requires Spans(head, tail) && head <= tail
      modifies `meta
      ensures Valid() && Contents() == Slice(elems, head, tail)
    {
      if head == tail {
        SpansNothing(elems, head);
        meta := None;
      } else {
        meta := Some(Meta(head, tail));
      }
    }

    // ---- moving records ----

    /** Copies the records last, last - 1, ..., first upwards by d places. */
    method MoveUp(first: int, last: int, d: int)
      requires first <= last + 1 && d > 0 && forall i | first <= i <= last :: i in elems
      modifies `elems
      ensures Shifted(old(elems), elems, first + d, last + d, d)
    {
      var pos := last;
      while pos >= first
        invariant first - 1 <= pos <= last && Shifted(old(elems), elems, pos + 1 + d, last + d, d)
      {
        ShiftOne(old(elems), elems, pos + 1 + d, last + d, d, pos + d);
        elems := elems[pos + d := elems[pos]];
        pos := pos - 1;
      }
    }

    /** Copies the records first, first + 1, ..., last downwards by d places. */
    method MoveDown(first: int, last: int, d: int)
      requires first <= last + 1 && d > 0 && forall i | first <= i <= last :: i in elems
      modifies `elems
      ensures Shifted(old(elems), elems, first - d, last - d, -d)
    {
      var pos := first;
      while pos <= last
        invariant first <= pos <= last + 1 && Shifted(old(elems), elems, first - d, pos - 1 - d, -d)
      {
        ShiftOne(old(elems), elems, first - d, pos - 1 - d, -d, pos - d);
        elems := elems[pos - d := elems[pos]];
        pos := pos + 1;
      }
    }

    // ---- LREM ----

    /** Scans from the head, deleting occurrences of the value until `count` of them are gone; a count
        that is not positive never stops the scan. */
    method PunchFromHead(head: int, tail: int, value: string, count: int) returns (hole: seq<int>)
      requires Spans(head, tail) && head < tail
      modifies `elems
      ensures hole != [] && hole[0] == head - 1 && Ascending(hole) && Below(hole, tail)
      ensures Without(old(elems), elems, hole)
      ensures Keep(old(elems), hole, head, tail)
              == RemoveFirst(Slice(old(elems), head, tail), value, if count <= 0 then tail - head else count)
    {
      ghost var m, n: nat := elems, if count <= 0 then tail - head else count;
      hole := [head - 1];
      var index := head;
      HeadScanStart(m, head, tail, value, n);
      assert Without(m, elems, hole) && Ascending(hole) && Below(hole, index) && Spanned(m, head, tail);
      hide HeadScan, Keep, RemoveFirst, Slice, Without, Ascending, Spans, Spanned;
      while index < tail
        invariant head <= index <= tail && hole != [] && hole[0] == head - 1 && Ascending(hole)
        invariant Below(hole, index)
        invariant Without(m, elems, hole) && HeadScan(m, hole, head, index, tail, value, n)
        invariant if count > 0 then |hole| <= n else |hole| - 1 <= index - head
      {
        UnPunched(m, elems, hole, index);
        HeadScanNext(m, hole, head, index, tail, value, n);
        if elems[index] == value {
          PunchOne(m, elems, hole, index);
          hole := hole + [index];
          elems := elems - {index};
          if count >= 0 && |hole| - 1 == count {
            HeadScanEnd(m, hole, head, index + 1, tail, value, n);
            break;
          }
        }
        index := index + 1;
        if index == tail { HeadScanEnd(m, hole, head, index, tail, value, n); }
      }
    }

    /** The same from the tail. */
    method PunchFromTail(head: int, tail: int, value: string, count: int) returns (hole: seq<int>)
      requires Spans(head, tail) && head < tail
      modifies `elems
      ensures FoundFromTail(hole, head, head, tail) && Without(old(elems), elems, hole)
      ensures Keep(old(elems), hole, head, tail)
              == RemoveLast(Slice(old(elems), head, tail), value, if count <= 0 then tail - head else count)
    {
      ghost var m, n: nat := elems, if count <= 0 then tail - head else count;
      hole := [head - 1];
      var index := tail;
      TailScanStart(m, head, tail, value, n);
      assert Without(m, elems, hole) && Spanned(m, head, tail) && Distinct(hole);
      hide TailScan, Keep, RemoveLast, Slice, Without, Spans, Spanned, Distinct;
      while head < index
        invariant head <= index <= tail && FoundFromTail(hole, head, index, tail)
        invariant Without(m, elems, hole) && TailScan(m, hole, head, index, tail, value, n)
        invariant if count > 0 then |hole| <= n else |hole| - 1 <= tail - index
      {
        UnPunchedTail(m, elems, hole, head, index - 1, tail);
        TailScanNext(m, hole, head, index, tail, value, n);
        index := index - 1;
        if elems[index] == value {
          PunchOneTail(m, elems, hole, head, index, tail);
          hole := hole + [index];
          elems := elems - {index};
          if count >= 0 && |hole| - 1 == count { break; }
        }
      }
      TailScanEnd(m, hole, head, index, tail, value, n);
    }

    /** Moves everything left of hole l up against it; no record is overwritten before it is read. */
    method PackLeft(ghost m: Records, hole: seq<int>, head: int, tail: int, l: nat)
      requires HolesOk(hole, head, tail) && Spanned(m, head, tail) && l < |hole| && Without(m, elems, hole)
      modifies `elems
      ensures PackedLeft(m, hole, l, 0, elems)
    {
      hide PackedLeft, Without, Shifted, Intact, Spanned;
      PackLeftStart(m, hole, l, elems);
      var j: nat := l;
      while j > 0
        invariant j <= l && PackedLeft(m, hole, l, j, elems)
      {
        SegmentSpanned(m, hole, head, tail, j - 1);
        PackLeftIntact(m, hole, l, j, elems);
        SegmentIntact(m, hole, j - 1, elems, hole[j], hole[l] + 1);
        SpannedMeans(elems, hole[j - 1] + 1, hole[j]);
        ghost var before := elems;
        MoveUp(hole[j - 1] + 1, hole[j] - 1, l - j + 1);
        PackLeftNext(m, hole, l, j, before, elems);
        j := j - 1;
      }
    }

    /** Moves everything right of hole l + 1 down to it. */
    method PackRight(ghost m: Records, hole: seq<int>, head: int, tail: int, l: nat)
      requires HolesOk(hole, head, tail) && Spanned(m, head, tail) && l + 1 < |hole| && PackedLeft(m, hole, l, 0, elems)
      modifies `elems
      ensures PackedRight(m, hole, l + 1, |hole| - 1, old(elems), elems)
    {
      hide PackedLeft, PackedRight, Shifted, Intact, Spanned;
      PackRightStart(m, hole, l, elems);
      var r, j := l + 1, l + 1;
      while j + 1 < |hole|
        invariant r <= j < |hole| && PackedRight(m, hole, r, j, old(elems), elems)
      {
        SegmentSpanned(m, hole, head, tail, j);
        PackRightIntact(m, hole, r, j, old(elems), elems);
        SegmentIntact(m, hole, j, elems, hole[0], hole[j]);
        SpannedMeans(elems, hole[j] + 1, hole[j + 1]);
        ghost var before := elems;
        MoveDown(hole[j] + 1, hole[j + 1] - 1, j - r + 1);
        PackRightNext(m, hole, r, j, old(elems), before, elems);
        j := j + 1;
      }
    }

    /** Deletes the records outside the new bounds. */
    method DropOutside(oldHead: int, head: int, tail: int, oldTail: int)
      requires oldHead <= head <= tail <= oldTail && Spanned(elems, head, tail)
      requires forall i | i in elems :: oldHead <= i < oldTail
      modifies `elems
      ensures Spans(head, tail) && Spanned(old(elems), head, tail)
              && Slice(elems, head, tail) == Slice(old(elems), head, tail)
    {
      var a, b := oldHead, oldTail;
      while a != head || b != tail
        invariant oldHead <= a <= head && tail <= b <= oldTail
        invariant forall i | i in elems :: a <= i < b
        invariant forall i | head <= i < tail :: i in elems && elems[i] == old(elems)[i]
        decreases head - a + b - tail
      {
        var del;
        if a != head {
          del, a := a, a + 1;
        } else {
          b := b - 1;
          del := b;
        }
        elems := elems - {del};
      }
    }

    /** The first of the widest gaps between neighbouring holes: what lies in it is not moved. */
    method WidestGap(hole: seq<int>) returns (l: nat)
      requires |hole| >= 2 && Ascending(hole)
      ensures l + 1 < |hole| && forall i | 0 <= i < |hole| - 1 :: hole[i + 1] - hole[i] <= hole[l + 1] - hole[l]
    {
      l := 0;
      var largest := 0;
      for i := 1 to |hole|
        invariant l < i && l + 1 < |hole| && (i == 1 ==> largest == 0) && (i > 1 ==> largest == hole[l + 1] - hole[l])
        invariant forall k | 0 <= k < i - 1 :: hole[k + 1] - hole[k] <= largest
      {
        if hole[i] - hole[i - 1] > largest {
          largest, l := hole[i] - hole[i - 1], i - 1;
        }
      }
    }

    method FindHoles(head: int, tail: int, value: string, count: int) returns (hole: seq<int>)
      requires Spans(head, tail) && head < tail
      modifies `elems
      ensures HolesOk(hole, head, tail) && Without(old(elems), elems, hole) && Spanned(old(elems), head, tail)
      ensures Keep(old(elems), hole, head, tail) == Removed32(Slice(old(elems), head, tail), value, count)
    {
      ghost var m := elems;
      hide Keep, Slice, RemoveFirst, RemoveLast;
      if count >= 0 {
        var found := PunchFromHead(head, tail, value, count);
        hole := found + [tail];
        KeepSame(m, found, hole, head, tail);
        TailIsNoRecord(m, elems, head, tail, found, hole);
      } else {
        var found := PunchFromTail(head, tail, value, Negate32(count));
        hole := Sort(found + [tail]);
        SortedHoles(found, head, tail);
        KeepSame(m, found, hole, head, tail);
        TailIsNoRecord(m, elems, head, tail, found, hole);
      }
    }

    /** Closes the holes around the widest gap. */
    method Pack(ghost m: Records, hole: seq<int>, head: int, tail: int) returns (head': int, tail': int)
      requires HolesOk(hole, head, tail) && (forall i :: i in m <==> head <= i < tail) && Without(m, elems, hole)
      modifies `elems
      ensures head <= head' <= tail' <= tail && tail' - head' == tail - head - (|hole| - 2)
      ensures Spans(head', tail') && Slice(elems, head', tail') == Keep(m, hole, head, tail)
    {
      hide Keep, Slice, PackedLeft, PackedRight, Without;
      var l := WidestGap(hole);
      PackLeft(m, hole, head, tail, l);
      ghost var m1 := elems;
      PackRight(m, hole, head, tail, l);
      PackedBoth(m, hole, head, tail, l, m1, elems);
      PackedWithin(m, hole, head, tail, l + 1, m1, elems);
      head', tail' := head + l, tail - (|hole| - 2 - l);
      DropOutside(head, head', tail', tail);
    }

    /** LREM: returns the number of elements removed. */
    method LRem(count: int, value: string) returns (removed: int)
      requires Valid() && INT32_MIN <= count < -INT32_MIN
      modifies this
      ensures Valid() && Contents() == Removed32(old(Contents()), value, count)
      ensures removed == |old(Contents())| - |Contents()|
    {
      if meta.None? { return 0; }
      hide Keep, Slice, Without, Removed32;
      var head, tail := meta.value.head, meta.value.tail;
      var hole := FindHoles(head, tail, value, count);
      removed := |hole| - 2;
      if removed == 0 {
        NothingRemoved(old(elems), elems, hole, head, tail);
        return;
      }
      var head', tail' := Pack(old(elems), hole, head, tail);
      StoreMeta(head', tail');
    }

    // ---- push and pop ----

    /** LPUSH and RPUSH; LPUSHX and RPUSHX with `needExist`. Returns the new length, or 0 if nothing was
        pushed. */
    method Push(args: seq<string>, atHead: bool, needExist: bool) returns (len: nat)
      requires Valid() && args != []
      modifies this
      ensures Valid()
      ensures Contents() == if needExist && old(Contents()) == [] then [] else Pushed(old(Contents()), args, atHead)
      ensures len == if needExist && old(Contents()) == [] then 0 else |Contents()|
    {
      if meta.None? && needExist { return 0; }
      var head, tail := INITSEQ, INITSEQ;
      if meta.Some? { head, tail := meta.value.head, meta.value.tail; }
      ghost var before := old(Contents());
      assert Spans(head, tail) && Slice(elems, head, tail) == before;
      PushedEnds(before, args, atHead);
      hide Slice, Pushed;
      for i := 0 to |args|
        invariant head + i <= tail && Spans(head, tail) && Slice(elems, head, tail) == Pushed(before, args[..i], atHead)
      {
        PushedNext(before, args, i, atHead);
        head, tail := PushOne(head, tail, args[i], atHead);
      }
      StoreMeta(head, tail);
      len := tail - head;
    }

    method PushOne(head: int, tail: int, x: string, atHead: bool) returns (head': int, tail': int)
      requires Spans(head, tail) && head <= tail
      modifies `elems
      ensures Spans(head', tail') && tail' - head' == tail - head + 1
      ensures Slice(elems, head', tail')
              == if atHead then [x] + Slice(old(elems), head, tail) else Slice(old(elems), head, tail) + [x]
    {
      if atHead {
        head', tail' := head - 1, tail;
        elems := elems[head' := x];
      } else {
        head', tail' := head, tail + 1;
        elems := elems[tail := x];
      }
    }

    /** LPOP and RPOP. */
    method Pop(atHead: bool) returns (val: Option<string>)
      requires Valid()
      modifies this
      ensures Valid() && (val.None? <==> old(Contents()) == [])
      ensures val.None? ==> Contents() == []
      ensures val.Some? ==> old(Contents()) == if atHead then [val.value] + Contents() else Contents() + [val.value]
    {
      if meta.None? { return None; }
      var head, tail := meta.value.head, meta.value.tail;
      var idx;
      if atHead {
        idx, head := head, head + 1;
      } else {
        tail := tail - 1;
        idx := tail;
      }
      val := Some(elems[idx]);
      elems := elems - {idx};
      StoreMeta(head, tail);
    }

    // ---- LTRIM ----

    method DeleteRange(a: int, b: int) returns (cnt: nat)
      modifies `elems
      ensures elems == (map i | i in old(elems) && !(a <= i < b) :: old(elems)[i])
      ensures cnt == if a <= b then b - a else 0
    {
      cnt := 0;
      var i := a;
      while i < b
        invariant (a <= i <= b || b < a == i) && cnt == i - a
        invariant elems == map k | k in old(elems) && !(a <= k < i) :: old(elems)[k]
      {
        elems := elems - {i};
        i, cnt := i + 1, cnt + 1;
      }
    }

    /** Deletes the records outside positions start to end. */
    method TrimTo(head: int, tail: int, start: int, end: int)
      requires Spans(head, tail) && head < tail && 0 <= start <= end + 1 <= tail - head
      modifies this
      ensures Valid() && Contents() == Slice(old(elems), head, tail)[start..end + 1]
    {
      var before := DeleteRange(head, head + start);
      var after := DeleteRange(head + end + 1, tail);
      assert Spans(head + start, head + end + 1);
      if before + after >= tail - head {
        SpansNothing(elems, head + start);
        meta := None;
      } else {
        meta := Some(Meta(head + start, head + end + 1));
      }
    }

    /** LTRIM: the elements whose positions lie between the two indices stay. */
    method LTrim(first: int, last: int)
      requires Valid()
      modifies this
      ensures Valid()
      ensures var s := old(Contents()); Contents() == Between(s, Position(first, |s|), Position(last, |s|))
    {
      hide Slice, Between;
      if meta.None? {
        EmptyBetween(first, last);
        return;
      }
      var head, tail := meta.value.head, meta.value.tail;
      var len := tail - head;
      var start, end := first, last;
      if start < 0 { start := len + start; }
      if end < 0 { end := len + end; }
      if start < 0 { start := 0; }
      if start > end || start >= len { start, end := len, len; }
      if end >= len { end := len - 1; }
      BetweenBounds(Contents(), Position(first, len), Position(last, len), start, end);
      TrimTo(head, tail, start, end);
    }

    // ---- LINSERT ----

    method FindPivot(head: int, tail: int, pivot: string) returns (index: int)
      requires Spans(head, tail) && head <= tail
      ensures index == head + FirstIndex(Slice(elems, head, tail), pivot)
    {
      index := head;
      ghost var s := Slice(elems, head, tail);
      while index < tail
        invariant head <= index <= tail && forall k | 0 <= k < index - head :: s[k] != pivot
      {
        if elems[index] == pivot { break; }
        index := index + 1;
      }
      ghost var i := FirstIndex(s, pivot);
      assert index < tail ==> s[index - head] == pivot;
      assert i >= index - head;
      assert index < tail ==> i <= index - head;
    }

    /** Makes room at position p, p elements from the head, by moving the elements before it down. */
    method OpenLeft(head: int, tail: int, p: nat, value: string)
      requires Spans(head, tail) && head + p <= tail
      modifies `elems
      ensures Spans(head - 1, tail) && Slice(elems, head - 1, tail) == InsertAt(Slice(old(elems), head, tail), p, value)
    {
      MoveDown(head, head + p - 1, 1);
      ShiftedOpens(old(elems), elems, head, tail, head - 1 + p, value, true);
      elems := elems[head - 1 + p := value];
      OpenedDown(old(elems), elems, head, tail, head - 1 + p, value);
    }

    /** The same by moving q elements at the tail up. */
    method OpenRight(head: int, tail: int, q: nat, value: string)
      requires Spans(head, tail) && head + q <= tail
      modifies `elems
      ensures Spans(head, tail + 1)
      ensures Slice(elems, head, tail + 1) == InsertAt(Slice(old(elems), head, tail), tail - head - q, value)
    {
      MoveUp(tail - q, tail - 1, 1);
      ShiftedOpens(old(elems), elems, head, tail, tail - q, value, false);
      elems := elems[tail - q := value];
      OpenedUp(old(elems), elems, head, tail, tail - q, value);
    }

    /** LINSERT: 0 if there is no list, -1 if it has no such element, otherwise the new length. The sizes
        of the two sides are compared, and the records moved, as 32-bit integers. */
    method LInsert(before: bool, pivot: string, value: string) returns (r: int)
      requires Valid()
      modifies this
      ensures Valid()
      ensures var s := old(Contents());
              if s == [] then r == 0 && Contents() == []
              else if pivot !in s then r == -1 && Contents() == s
              else
                var left := FirstIndex(s, pivot) + if before then 0 else 1;
                && r == |s| + 1
                && Landing(left, |s| - left) <= |s|
                && Contents() == InsertAt(s, Landing(left, |s| - left), value)
    {
      hide Slice, InsertAt, FirstIndex, ToInt32;
      if meta.None? { return 0; }
      var head, tail := meta.value.head, meta.value.tail;
      var index := FindPivot(head, tail, pivot);
      if index == tail { return -1; }
      var left, right := index - head, tail - index - 1;
      if before { right := right + 1; } else { left := left + 1; }
      LandsRight(left, right);
      if ToInt32(left) < ToInt32(right) {
        OpenLeft(head, tail, Moves(left), value);
        head := head - 1;
      } else {
        OpenRight(head, tail, Moves(right), value);
        tail := tail + 1;
      }
      StoreMeta(head, tail);
      r := tail - head;
    }
  }

  // ---- RPOPLPUSH ----

  /** The two keys may be the same. */
  method RPopLPush(src: ListKey, dst: ListKey) returns (val: Option<string>)
    requires src.Valid() && dst.Valid()
    modifies src, dst
    ensures src.Valid() && dst.Valid() && (val.None? <==> old(src.Contents()) == [])
    ensures val.None? ==> src.Contents() == [] && dst.Contents() == old(dst.Contents())
    ensures val.Some? ==> val.value == old(src.Contents())[|old(src.Contents())| - 1]
    // One key: the last element comes first, even if it is the only one.
    ensures val.Some? && src == dst ==>
              var s := old(src.Contents()); src.Contents() == [s[|s| - 1]] + s[..|s| - 1]
    // Two keys: the last element moves over.
    ensures val.Some? && src != dst ==>
              && old(src.Contents()) == src.Contents() + [val.value]
              && dst.Contents() == [val.value] + old(dst.Contents())
    ensures src != dst ==>
              multiset(src.Contents()) + multiset(dst.Contents())
              == multiset(old(src.Contents())) + multiset(old(dst.Contents()))
  {
    val := src.Pop(false);
    if val.None? { return; }
    assert Reverse([val.value]) == [val.value];
    var len := dst.Push([val.value], true, false);
    if src != dst { assert old(src.Contents()) == src.Contents() + [val.value]; }
  }
}
